/**
 * Event commands as the extractor rewrites them: a code, an indent and a
 * parameter list, held in a page's command list.
 */
module Commands {

  /** A command parameter: a number, a string or a list of strings (a choice list). */
  datatype Param = Int(n: int) | Str(s: string) | Strs(items: seq<string>)

  /** `RPG::EventCommand`. */
  datatype Command = Command(code: int, indent: int, params: seq<Param>)

  /** `RPG::EventCommand.new` given a code and an indent: no parameters. */
  function Blank(code: int, indent: int): Command {
    Command(code, indent, [])
  }

  /** An event page, troop page or common event: the command list the extractor edits in place. */
  class EventPage {
    var list: seq<Command>

    constructor(list: seq<Command>)
      ensures this.list == list
    {
      this.list := list;
    }
  }
}
