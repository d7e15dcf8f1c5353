/**
 * `extract_choices`: a Show Choices command (code 102) is replaced by a
 * script call and a chain of conditional branches (code 111) on the choice
 * variable, one per choice, each `When` (402) becoming a branch test with an
 * `Else` (411) before it; the last branch's body is re-indented and the
 * branches are closed. The choice texts are returned as a text-file entry.
 */
module Choices {
  import opened Wrappers
  import opened RubyString
  import opened Tags
  import opened Parser
  import opened Commands

  /** Where the choice stands: a map event, a common event or a troop page. */
  datatype Source = MapEvent | CommonEvent | TroopPage

  /** A Show Choices command: its choices and its default choice. */
  predicate IsChoiceCommand(c: Command) {
    c.code == 102 && |c.params| >= 2 && c.params[0].Strs? && c.params[1].Int?
  }

  // ---------------------------------------------------------------------------
  // Keys and the returned text
  // ---------------------------------------------------------------------------

  /** `Map <mid> Event <eid> Page <pid + 1> Choice <count>`. */
  function MapChoiceKey(mid: int, eid: int, pid: int, count: int): string {
    "Map " + IntToString(mid) + " Event " + IntToString(eid) + " Page " + IntToString(pid + 1) + " Choice " + IntToString(count)
  }

  /** The key the replacing script call names for each source. */
  function ChoiceKey(src: Source, mid: int, eid: int, pid: int, count: int): string {
    match src
    case MapEvent => MapChoiceKey(mid, eid, pid, count)
    case CommonEvent => "Common Event " + IntToString(eid) + " Choice " + IntToString(count)
    case TroopPage => "Troop " + IntToString(eid) + " Page " + IntToString(pid + 1) + " Choice " + IntToString(count)
  }

  /** The script of the command that replaces the choice, as written: the troop call is spelled `show choices`. */
  function ShowChoicesAsWritten(src: Source, mid: int, eid: int, pid: int, count: int): string {
    match src
    case TroopPage => "show choices('" + ChoiceKey(src, mid, eid, pid, count) + "')"
    case _ => "show_choices('" + ChoiceKey(src, mid, eid, pid, count) + "')"
  }

  /** The script of the command that replaces the choice, with the troop call spelled as the interpreter names it. */
  function ShowChoices(src: Source, mid: int, eid: int, pid: int, count: int): string {
    "show_choices('" + ChoiceKey(src, mid, eid, pid, count) + "')"
  }

  /** The script call (355) that takes the place of the choice command `c`, as written. */
  function ChoiceCall(c: Command, src: Source, mid: int, eid: int, pid: int, count: int): Command {
    Command(355, c.indent, [Str(ShowChoicesAsWritten(src, mid, eid, pid, count))])
  }

  /** The first `When` (402) made into a branch taken on choice 1. */
  function FirstBranch(when: Command): Command {
    when.(code := 111, params := TestParams(1))
  }

  /** Each choice on a line of its own. */
  function ChoiceLines(choices: seq<string>): string
    decreases |choices|
  {
    if choices == [] then []
    else ChoiceLines(choices[..|choices| - 1]) + (choices[|choices| - 1] + "\n")
  }

  lemma ChoiceLinesSnoc(choices: seq<string>, j: nat)
    requires j < |choices|
    ensures ChoiceLines(choices[..j + 1]) == ChoiceLines(choices[..j]) + (choices[j] + "\n")
  {
    assert choices[..j + 1][..j] == choices[..j];
  }

  function DefaultLine(d: int): string {
    "[Default Choice] " + IntToString(d) + "\n"
  }

  /** The text entry for a choice: a blank line, the `[Key]` line, the default choice and the choices. */
  function ChoiceText(key: string, d: int, choices: seq<string>): string {
    "\n" + ("[Key] " + key + "\n") + DefaultLine(d) + ChoiceLines(choices)
  }

  /** The text `extract_choices` returns as written: always under the map key. */
  function ChoiceTextAsWritten(mid: int, eid: int, pid: int, count: int, d: int, choices: seq<string>): string {
    ChoiceText(MapChoiceKey(mid, eid, pid, count), d, choices)
  }

  // ---------------------------------------------------------------------------
  // The command rewrite
  // ---------------------------------------------------------------------------

  /** The parameters of a branch on `$game_variables[ChoiceVariable] == n`. */
  function TestParams(n: int): seq<Param> {
    [Int(12), Str("$game_variables[SES::ExternalText::ChoiceVariable] == " + IntToString(n)), Int(0), Int(0)]
  }

  function Branch(n: int, indent: int): Command {
    Command(111, indent, TestParams(n))
  }

  /** The second parameter of a `When` command, `nil` when it has none. */
  function Second(c: Command): Option<Param> {
    if |c.params| >= 2 then Some(c.params[1]) else None
  }

  /** `parameters[0].last`: the last choice, `nil` when there are none. */
  function LastChoice(choices: seq<string>): Option<Param> {
    if choices == [] then None else Some(Str(choices[|choices| - 1]))
  }

  /**
   * The `choice_index.times` insertions: for `i` from `n - 1` down to 0, a
   * branch end (412) and an empty command, both at indent `i + base + 1`.
   */
  function Closers(n: nat, base: int): (cs: seq<Command>)
    ensures |cs| == 2 * n
  {
    if n == 0 then [] else [Blank(412, n + base), Blank(0, n + base)] + Closers(n - 1, base)
  }

  /**
   * The body of the last branch, each command shifted right by `shift`, and the
   * commands from the first one back at `base` or less; `None` when the list
   * ends first (`nil.indent` raises).
   */
  function Reindent(rest: seq<Command>, base: int, shift: int): (r: Option<(seq<Command>, seq<Command>)>)
    ensures r.Some? ==> |r.value.0| + |r.value.1| == |rest| && r.value.1 != [] && r.value.1[0].indent <= base
    decreases |rest|
  {
    if rest == [] then None
    else if rest[0].indent > base then Ahead([rest[0].(indent := rest[0].indent + shift)], Reindent(rest[1..], base, shift))
    else Some(([], rest))
  }

  /** The commands after the two rewritten ones: their new form, the branch count reached, and whether the block was closed. */
  datatype Walked = Walked(out: seq<Command>, branches: nat, closed: bool)

  /** The last branch (number `k`) is in place: re-indent its body and close all `k` branches. */
  function Close(head: seq<Command>, rest: seq<Command>, base: int, k: nat): (r: Option<Walked>)
    ensures r.Some? ==> r.value.closed && r.value.branches == k && |r.value.out| == |head| + |rest| + 2 * k
  {
    match Reindent(rest, base, k - 1)
    case None => None
    case Some(r) => Some(Walked(head + r.0 + Closers(k, base) + r.1, k, true))
  }

  /** What the walk does with one command: shift it right, open a branch in its place, or open the last branch and close the block. */
  datatype Action = Shift | Open(head: seq<Command>) | Finish(head: seq<Command>)

  /**
   * The action for command `c` with `ci` branches made: a `When` (402) at the
   * base indent becomes branch `ci + 1` after an `Else`, the last one when its
   * choice is the last choice and the default choice is one of the choices; a
   * `Branch End` (403) at the base indent, when the default choice is past the
   * choices, becomes the last branch, on the default choice.
   */
  function Act(c: Command, base: int, ci: nat, d: int, n: int, lastChoice: Option<Param>): (a: Action)
    ensures a.Shift? <==> c.indent != base || !(c.code == 402 || (c.code == 403 && d > n))
    ensures !a.Shift? ==> |a.head| == 2 && a.head[0] == Blank(411, ci + base - 1) && a.head[1].code == 111 && a.head[1].indent == ci + base
    ensures a.Finish? && c.code == 403 ==> a.head[1] == Branch(d, ci + base)
    ensures c.code == 402 && c.indent == base ==>
              a.head[1] == Branch(ci + 1, ci + base) && (a.Finish? <==> d <= n && Second(c) == lastChoice)
    ensures c.code == 403 && c.indent == base && d > n ==> a.Finish?
  {
    if c.code == 402 && c.indent == base then
      var k := ci + 1;
      var head := [Blank(411, k + base - 2), Branch(k, k + base - 1)];
      if d <= n && Second(c) == lastChoice then Finish(head) else Open(head)
    else if c.code == 403 && c.indent == base && d > n then
      var k := ci + 1;
      Finish([Blank(411, k + base - 2), Branch(d, k + base - 1)])
    else Shift
  }

  /** The `while index < list.size` walk over the commands after the first branch, `ci` branches made so far. */
  function Walk(rest: seq<Command>, base: int, ci: nat, d: int, n: int, lastChoice: Option<Param>): (r: Option<Walked>)
    ensures r.Some? ==> ci <= r.value.branches && |rest| <= |r.value.out|
    ensures r.Some? && !r.value.closed ==> |r.value.out| == |rest| + r.value.branches - ci
    decreases |rest|
  {
    if rest == [] then Some(Walked([], ci, false))
    else
      match Act(rest[0], base, ci, d, n, lastChoice)
      case Shift => Behind([rest[0].(indent := rest[0].indent + ci - 1)], Walk(rest[1..], base, ci, d, n, lastChoice))
      case Open(head) => Behind(head, Walk(rest[1..], base, ci + 1, d, n, lastChoice))
      case Finish(head) => Close(head, rest[1..], base, ci + 1)
  }

  /** The whole list after `extract_choices` at `index`; `None` when it raises. */
  function Choices(list: seq<Command>, index: nat, src: Source, mid: int, eid: int, pid: int, count: int): (r: Option<seq<Command>>)
    requires index < |list| && IsChoiceCommand(list[index])
    ensures index + 1 == |list| ==> r.None?
    ensures r.Some? ==> |list| <= |r.value| && r.value[..index] == list[..index] &&
                        r.value[index] == ChoiceCall(list[index], src, mid, eid, pid, count)
  {
    if index + 1 == |list| then None
    else
      var c := list[index];
      var choices := c.params[0].items;
      var front := list[..index] + [ChoiceCall(c, src, mid, eid, pid, count), FirstBranch(list[index + 1])];
      Chosen(front, Walk(list[index + 2..], c.indent, 1, c.params[1].n, |choices|, LastChoice(choices)))
  }

  /** The outcome of the walk, with the commands before it in front. */
  function Chosen(front: seq<Command>, w: Option<Walked>): Option<seq<Command>> {
    match w
    case None => None
    case Some(w) => Some(front + w.out)
  }

  /** Commands already walked over, put in front of the outcome for the rest. */
  function Behind(done: seq<Command>, r: Option<Walked>): Option<Walked> {
    match r
    case None => None
    case Some(w) => Some(w.(out := done + w.out))
  }

  /** `extract_choices(mid, eid, pid, list, index, count, type)`: the entry is always filed under the map key. */
  method ExtractChoices(page: EventPage, index: nat, src: Source, mid: int, eid: int, pid: int, count: int)
    returns (text: string, failed: bool)
    requires index < |page.list| && IsChoiceCommand(page.list[index])
    modifies page
    ensures text == ChoiceTextAsWritten(mid, eid, pid, count, old(page.list)[index].params[1].n, old(page.list)[index].params[0].items)
    ensures failed <==> Choices(old(page.list), index, src, mid, eid, pid, count).None?
    ensures !failed ==> page.list == Choices(old(page.list), index, src, mid, eid, pid, count).value
  {
    var c := page.list[index];
    text := ChoiceEntry(MapChoiceKey(mid, eid, pid, count), c.params[1].n, c.params[0].items);
    failed := RewriteChoice(page, index, src, mid, eid, pid, count);
  }

  /** The command rewrite of `extract_choices`: `true` when it raises. */
  method RewriteChoice(page: EventPage, index: nat, src: Source, mid: int, eid: int, pid: int, count: int)
    returns (failed: bool)
    requires index < |page.list| && IsChoiceCommand(page.list[index])
    modifies page
    ensures failed <==> Choices(old(page.list), index, src, mid, eid, pid, count).None?
    ensures !failed ==> page.list == Choices(old(page.list), index, src, mid, eid, pid, count).value
  {
    var c := page.list[index];
    var call := ChoiceCall(c, src, mid, eid, pid, count);
    if index + 1 == |page.list| {
      page.list := page.list[index := call];
      return true;
    }
    ghost var list := page.list;
    var branch := FirstBranch(page.list[index + 1]);
    page.list := page.list[index := call];
    page.list := page.list[index + 1 := branch];
    ChoicesAre(list, page.list, index, src, mid, eid, pid, count, call, branch);
    failed := WalkCommands(page, index + 2, c.indent, c.params[1].n, |c.params[0].items|, LastChoice(c.params[0].items));
  }

  /** `Choices` once the two rewritten commands are in place. */
  lemma ChoicesAre(list: seq<Command>, list': seq<Command>, index: nat, src: Source, mid: int, eid: int, pid: int, count: int,
                   call: Command, branch: Command)
    requires index + 1 < |list| && IsChoiceCommand(list[index])
    requires call == ChoiceCall(list[index], src, mid, eid, pid, count)
    requires branch == FirstBranch(list[index + 1])
    requires list' == list[index := call][index + 1 := branch]
    ensures var c := list[index];
            Choices(list, index, src, mid, eid, pid, count) ==
            Chosen(list'[..index + 2], Walk(list'[index + 2..], c.indent, 1, c.params[1].n, |c.params[0].items|, LastChoice(c.params[0].items)))
  {
    assert list'[..index + 2] == list[..index] + [call, branch];
    assert list'[index + 2..] == list[index + 2..];
  }

  /** The text entry, one `<<` at a time. */
  method ChoiceEntry(key: string, d: int, choices: seq<string>) returns (text: string)
    ensures text == ChoiceText(key, d, choices)
  {
    text := "\n" + ("[Key] " + key + "\n") + DefaultLine(d);
    text := AppendChoices(text, choices);
  }

  /** The `<<` of each choice and its line break. */
  method AppendChoices(head: string, choices: seq<string>) returns (text: string)
    ensures text == head + ChoiceLines(choices)
  {
    text := head;
    var j := 0;
    while j < |choices|
      invariant 0 <= j <= |choices|
      invariant text == head + ChoiceLines(choices[..j])
    {
      ChoiceLinesSnoc(choices, j);
      text := text + (choices[j] + "\n");
      j := j + 1;
    }
    assert choices[..j] == choices;
  }

  /** The `while index < list.size` loop from `start`, with one branch made. */
  method WalkCommands(page: EventPage, start: nat, base: int, d: int, n: int, lastChoice: Option<Param>) returns (failed: bool)
    requires start <= |page.list|
    modifies page
    ensures failed <==> Walk(old(page.list)[start..], base, 1, d, n, lastChoice).None?
    ensures !failed ==> page.list == old(page.list)[..start] + Walk(old(page.list)[start..], base, 1, d, n, lastChoice).value.out
  {
    var i := start;
    var ci: nat := 1;
    ghost var front := page.list[..start];
    ghost var whole := Walk(page.list[start..], base, 1, d, n, lastChoice);
    BehindNothing(whole);
    assert page.list[start..i] == [];
    while i < |page.list|
      invariant start <= i <= |page.list|
      invariant page.list[..start] == front
      invariant whole == Behind(page.list[start..i], Walk(page.list[i..], base, ci, d, n, lastChoice))
      decreases |page.list| - i
    {
      var stop;
      i, ci, stop, failed := WalkOne(page, start, i, ci, base, d, n, lastChoice, whole);
      if stop {
        return;
      }
    }
    assert page.list[i..] == [];
    assert page.list == front + page.list[start..i];
    failed := false;
  }

  /** One pass of the loop body: the command at `i` is shifted, opens a branch, or opens the last one and closes the block. */
  method WalkOne(page: EventPage, start: nat, i: nat, ci: nat, base: int, d: int, n: int, lastChoice: Option<Param>, ghost whole: Option<Walked>)
    returns (i': nat, ci': nat, stop: bool, failed: bool)
    requires start <= i < |page.list|
    requires whole == Behind(page.list[start..i], Walk(page.list[i..], base, ci, d, n, lastChoice))
    modifies page
    ensures !stop ==> i < i' <= |page.list| && page.list[..start] == old(page.list)[..start] && |page.list| - i' < |old(page.list)| - i &&
                      whole == Behind(page.list[start..i'], Walk(page.list[i'..], base, ci', d, n, lastChoice))
    ensures stop ==> (failed <==> whole.None?) && (!failed ==> page.list == old(page.list)[..start] + whole.value.out)
  {
    var cmd := page.list[i];
    WalkAt(page.list, i, base, ci, d, n, lastChoice);
    stop, failed := false, false;
    match Act(cmd, base, ci, d, n, lastChoice)
    case Shift =>
      var moved := cmd.(indent := cmd.indent + ci - 1);
      UpdateIsReplace(page.list, i, moved);
      WalkAdvanced(page.list, page.list[i := moved], start, i, [moved], whole, base, ci, ci, d, n, lastChoice);
      page.list := page.list[i := moved];
      i', ci' := i + 1, ci;
    case Open(head) =>
      WalkAdvanced(page.list, page.list[..i] + head + page.list[i + 1..], start, i, head, whole, base, ci, ci + 1, d, n, lastChoice);
      page.list := page.list[..i] + head + page.list[i + 1..];
      i', ci' := i + |head|, ci + 1;
    case Finish(head) =>
      Replaced(page.list, start, i, [cmd]);
      failed := CloseAt(page, start, i, head, base, ci + 1);
      i', ci', stop := i, ci, true;
  }

  /** `WalkStep` at position `i` of the list. */
  lemma WalkAt(list: seq<Command>, i: nat, base: int, ci: nat, d: int, n: int, lastChoice: Option<Param>)
    requires i < |list|
    ensures list[i..] == [list[i]] + list[i + 1..]
    ensures Walk(list[i..], base, ci, d, n, lastChoice) ==
            match Act(list[i], base, ci, d, n, lastChoice)
            case Shift => Behind([list[i].(indent := list[i].indent + ci - 1)], Walk(list[i + 1..], base, ci, d, n, lastChoice))
            case Open(head) => Behind(head, Walk(list[i + 1..], base, ci + 1, d, n, lastChoice))
            case Finish(head) => Close(head, list[i + 1..], base, ci + 1)
  {
    assert list[i..] == [list[i]] + list[i + 1..];
    WalkStep(list[i], list[i + 1..], base, ci, d, n, lastChoice);
  }

  /** The walk invariant carried over the command at `i` replaced by `head`. */
  lemma WalkAdvanced(list: seq<Command>, list': seq<Command>, start: nat, i: nat, head: seq<Command>, whole: Option<Walked>,
                     base: int, ci: nat, ci': nat, d: int, n: int, lastChoice: Option<Param>)
    requires start <= i < |list|
    requires whole == Behind(list[start..i], Walk(list[i..], base, ci, d, n, lastChoice))
    requires Walk(list[i..], base, ci, d, n, lastChoice) == Behind(head, Walk(list[i + 1..], base, ci', d, n, lastChoice))
    requires list' == list[..i] + head + list[i + 1..]
    ensures list'[..start] == list[..start]
    ensures i + |head| <= |list'|
    ensures whole == Behind(list'[start..i + |head|], Walk(list'[i + |head|..], base, ci', d, n, lastChoice))
  {
    Replaced(list, start, i, head);
    BehindTwice(list[start..i], head, Walk(list[i + 1..], base, ci', d, n, lastChoice));
  }

  /** The last branch replaces the command at `i`, then the block is closed after its body. */
  method CloseAt(page: EventPage, start: nat, i: nat, head: seq<Command>, base: int, k: nat) returns (failed: bool)
    requires start <= i < |page.list|
    modifies page
    ensures var r := Behind(old(page.list)[start..i], Close(head, old(page.list)[i + 1..], base, k));
            (failed <==> r.None?) && (!failed ==> page.list == old(page.list)[..start] + r.value.out)
  {
    ghost var done, rest := page.list[start..i], page.list[i + 1..];
    ghost var front := page.list[..start];
    Replaced(page.list, start, i, head);
    page.list := page.list[..i] + head + page.list[i + 1..];
    failed := CloseBlock(page, i + |head|, base, k);
    FinishClose(done, head, rest, base, k, front);
  }

  lemma UpdateIsReplace(list: seq<Command>, i: nat, c: Command)
    requires i < |list|
    ensures list[i := c] == list[..i] + [c] + list[i + 1..]
  {
  }

  /** The command at `i` replaced by `head`: what comes before and after it stays. */
  lemma Replaced(list: seq<Command>, start: nat, i: nat, head: seq<Command>)
    requires start <= i < |list|
    ensures list[i..] == [list[i]] + list[i + 1..]
    ensures var list' := list[..i] + head + list[i + 1..];
            list'[..start] == list[..start] &&
            list'[start..i + |head|] == list[start..i] + head &&
            list'[..i + |head|] == list[..start] + list[start..i] + head &&
            list'[i + |head|..] == list[i + 1..]
  {
    var list' := list[..i] + head + list[i + 1..];
    assert list[..i] == list[..start] + list[start..i];
    assert list'[..i + |head|] == list[..i] + head;
  }

  /**
   * Re-indent the last branch's body from `i` on and insert the closers after
   * it; `true` when the list ends before the body does.
   */
  method CloseBlock(page: EventPage, i: nat, base: int, k: nat) returns (failed: bool)
    requires i <= |page.list|
    modifies page
    ensures failed <==> Reindent(old(page.list)[i..], base, k - 1).None?
    ensures !failed ==> page.list == old(page.list)[..i] + Reindent(old(page.list)[i..], base, k - 1).value.0
                                     + Closers(k, base) + Reindent(old(page.list)[i..], base, k - 1).value.1
  {
    var j;
    j, failed := ReindentBody(page, i, base, k - 1);
    if !failed {
      InsertClosers(page, j, base, k);
    }
  }

  /** `while list[index].indent > base_indent`: shift the body right; `true` when the list ends first. */
  method ReindentBody(page: EventPage, i: nat, base: int, shift: int) returns (j: nat, failed: bool)
    requires i <= |page.list|
    modifies page
    ensures failed <==> Reindent(old(page.list)[i..], base, shift).None?
    ensures !failed ==> j <= |page.list| && page.list[..j] == old(page.list)[..i] + Reindent(old(page.list)[i..], base, shift).value.0
    ensures !failed ==> page.list[j..] == Reindent(old(page.list)[i..], base, shift).value.1
  {
    j := i;
    AheadNothing(Reindent(old(page.list)[i..], base, shift));
    assert page.list[i..j] == [];
    while j < |page.list| && page.list[j].indent > base
      invariant i <= j <= |page.list| == |old(page.list)|
      invariant page.list[..i] == old(page.list)[..i]
      invariant page.list[j..] == old(page.list)[j..]
      invariant Reindent(old(page.list)[i..], base, shift) == Ahead(page.list[i..j], Reindent(old(page.list)[j..], base, shift))
    {
      ghost var before := page.list;
      page.list := page.list[j := page.list[j].(indent := page.list[j].indent + shift)];
      ReindentMoved(old(page.list), before, page.list, i, j, base, shift);
      j := j + 1;
    }
    ReindentStopped(old(page.list), page.list, i, j, base, shift);
    failed := j == |page.list|;
  }

  /** Where the re-indent loop stops: the end of the list, or the first command not inside the branch. */
  lemma ReindentStopped(orig: seq<Command>, list: seq<Command>, i: nat, j: nat, base: int, shift: int)
    requires i <= j <= |list| == |orig| && list[..i] == orig[..i] && list[j..] == orig[j..]
    requires j < |list| ==> list[j].indent <= base
    requires Reindent(orig[i..], base, shift) == Ahead(list[i..j], Reindent(orig[j..], base, shift))
    ensures j == |list| <==> Reindent(orig[i..], base, shift).None?
    ensures j < |list| ==> list[..j] == orig[..i] + Reindent(orig[i..], base, shift).value.0
    ensures j < |list| ==> list[j..] == Reindent(orig[i..], base, shift).value.1
  {
    if j == |list| {
      assert orig[j..] == [];
    } else {
      assert orig[j..][0] == list[j];
      assert Reindent(orig[j..], base, shift) == Some(([], orig[j..]));
      assert list[i..j] + [] == list[i..j];
      assert list[..j] == list[..i] + list[i..j];
    }
  }

  /** `choice_index.times`: insert the closers at `j`. */
  method InsertClosers(page: EventPage, j: nat, base: int, k: nat)
    requires j <= |page.list|
    modifies page
    ensures page.list == old(page.list)[..j] + Closers(k, base) + old(page.list)[j..]
  {
    var t := 0;
    ghost var pre, tail := page.list[..j], page.list[j..];
    assert page.list == pre + Closers(0, base) + tail;
    while t < k
      invariant 0 <= t <= k
      invariant page.list == pre + Closers(t, base) + tail
    {
      ClosersPushed(pre, tail, t, base);
      page.list := page.list[..j] + [Blank(0, t + base + 1)] + page.list[j..];
      page.list := page.list[..j] + [Blank(412, t + base + 1)] + page.list[j..];
      t := t + 1;
    }
  }

  /** The two commands inserted at the end of `pre` make one more pair of closers. */
  lemma ClosersPushed(pre: seq<Command>, tail: seq<Command>, t: nat, base: int)
    ensures var list := pre + Closers(t, base) + tail;
            var list1 := list[..|pre|] + [Blank(0, t + base + 1)] + list[|pre|..];
            list1[..|pre|] + [Blank(412, t + base + 1)] + list1[|pre|..] == pre + Closers(t + 1, base) + tail
  {
    var rest := Closers(t, base) + tail;
    assert pre + Closers(t, base) + tail == pre + rest;
    InsertAt(pre, rest, Blank(0, t + base + 1));
    InsertAt(pre, [Blank(0, t + base + 1)] + rest, Blank(412, t + base + 1));
    assert pre + ([Blank(412, t + 1 + base), Blank(0, t + 1 + base)] + Closers(t, base)) + tail == pre + Closers(t + 1, base) + tail;
  }

  /** Inserting at the end of `pre`. */
  lemma InsertAt(pre: seq<Command>, rest: seq<Command>, c: Command)
    ensures (pre + rest)[..|pre|] + [c] + (pre + rest)[|pre|..] == pre + ([c] + rest)
  {
    assert (pre + rest)[..|pre|] == pre && (pre + rest)[|pre|..] == rest;
  }

  /** A body command is shifted and the re-indent goes on. */
  /** One body command shifted right: the invariant of `ReindentBody` moves past it. */
  lemma ReindentMoved(orig: seq<Command>, list: seq<Command>, list': seq<Command>, i: nat, j: nat, base: int, shift: int)
    requires i <= j < |list| == |orig| && list[j..] == orig[j..] && list[j].indent > base
    requires list' == list[j := list[j].(indent := list[j].indent + shift)]
    requires Reindent(orig[i..], base, shift) == Ahead(list[i..j], Reindent(orig[j..], base, shift))
    ensures |list'| == |list| && list'[..i] == list[..i] && list'[j + 1..] == orig[j + 1..]
    ensures Reindent(orig[i..], base, shift) == Ahead(list'[i..j + 1], Reindent(orig[j + 1..], base, shift))
  {
    var tail := orig[j + 1..];
    var moved := list'[j];
    assert orig[j..] == [list[j]] + tail;
    ReindentStep(orig[j..], list[j], tail, base, shift);
    AheadTwice(list[i..j], moved, Reindent(tail, base, shift));
    assert list'[i..j + 1] == list[i..j] + [moved];
    assert list'[j + 1..] == list[j + 1..];
  }

  lemma ReindentStep(rest: seq<Command>, c: Command, tail: seq<Command>, base: int, shift: int)
    requires rest == [c] + tail && c.indent > base
    ensures Reindent(rest, base, shift) == Ahead([c.(indent := c.indent + shift)], Reindent(tail, base, shift))
  {
    assert rest[0] == c && rest[1..] == tail;
  }

  lemma AheadNothing(r: Option<(seq<Command>, seq<Command>)>)
    ensures Ahead([], r) == r
  {
    if r.Some? {
      assert [] + r.value.0 == r.value.0;
    }
  }

  /** Commands already re-indented, put in front of the outcome for the rest. */
  function Ahead(done: seq<Command>, r: Option<(seq<Command>, seq<Command>)>): Option<(seq<Command>, seq<Command>)> {
    match r
    case None => None
    case Some(v) => Some((done + v.0, v.1))
  }

  lemma AheadTwice(done: seq<Command>, c: Command, r: Option<(seq<Command>, seq<Command>)>)
    ensures Ahead(done, Ahead([c], r)) == Ahead(done + [c], r)
  {
    if r.Some? {
      assert done + ([c] + r.value.0) == done + [c] + r.value.0;
    }
  }

  lemma BehindNothing(r: Option<Walked>)
    ensures Behind([], r) == r
  {
    if r.Some? {
      assert [] + r.value.out == r.value.out;
    }
  }

  lemma BehindTwice(done: seq<Command>, more: seq<Command>, r: Option<Walked>)
    ensures Behind(done, Behind(more, r)) == Behind(done + more, r)
  {
    if r.Some? {
      assert done + (more + r.value.out) == done + more + r.value.out;
    }
  }

  /** One step of the walk, by the action for its first command. */
  lemma WalkStep(c: Command, rest: seq<Command>, base: int, ci: nat, d: int, n: int, lastChoice: Option<Param>)
    ensures Walk([c] + rest, base, ci, d, n, lastChoice) ==
            match Act(c, base, ci, d, n, lastChoice)
            case Shift => Behind([c.(indent := c.indent + ci - 1)], Walk(rest, base, ci, d, n, lastChoice))
            case Open(head) => Behind(head, Walk(rest, base, ci + 1, d, n, lastChoice))
            case Finish(head) => Close(head, rest, base, ci + 1)
  {
    assert ([c] + rest)[0] == c && ([c] + rest)[1..] == rest;
  }

  /** A `When` or `Branch End` that closes the block: the outcome is the closed block behind the commands done. */
  lemma FinishClose(done: seq<Command>, head: seq<Command>, rest: seq<Command>, base: int, k: nat, front: seq<Command>)
    ensures var whole := Behind(done, Close(head, rest, base, k));
            whole.None? <==> Reindent(rest, base, k - 1).None?
    ensures var whole := Behind(done, Close(head, rest, base, k));
            whole.Some? ==> front + done + head + Reindent(rest, base, k - 1).value.0 + Closers(k, base) + Reindent(rest, base, k - 1).value.1
                            == front + whole.value.out
  {
    var whole := Behind(done, Close(head, rest, base, k));
    if whole.Some? {
      var r := Reindent(rest, base, k - 1).value;
      assert whole.value.out == done + (head + r.0 + Closers(k, base) + r.1);
    }
  }

  // ---------------------------------------------------------------------------
  // The text entry as the text files read it
  // ---------------------------------------------------------------------------

  /** The lines of the choices, each with its "\n". */
  function LinesOf(choices: seq<string>): (ls: seq<string>)
    ensures |ls| == |choices|
    ensures forall i :: 0 <= i < |choices| ==> ls[i] == choices[i] + "\n"
  {
    seq(|choices|, i requires 0 <= i < |choices| => choices[i] + "\n")
  }

  /** A number as `to_s` writes it: nonempty, no line break, no leading blank. */
  lemma IntToStringPlain(n: int)
    ensures IntToString(n) != [] && NoNewline(IntToString(n)) && !IsSpace(IntToString(n)[0])
  {
    var m := if n >= 0 then n else -n;
    NatToStringValue(m);
    var digits := NatToString(m);
    DigitsPlain(digits);
    if n < 0 {
      NoNewlineAppend("-", digits);
    }
  }

  /** A run of digits has no line break and does not start with a blank. */
  lemma DigitsPlain(s: string)
    requires s != [] && AllDigits(s)
    ensures NoNewline(s) && !IsSpace(s[0])
  {
    assert IsDigit(s[0]);
  }

  /** Every choice key is a plain one-line key. */
  lemma ChoiceKeyPlain(src: Source, mid: int, eid: int, pid: int, count: int)
    ensures var k := ChoiceKey(src, mid, eid, pid, count);
            k != [] && !IsSpace(k[0]) && NoNewline(k)
  {
    IntToStringPlain(mid);
    IntToStringPlain(eid);
    IntToStringPlain(pid + 1);
    IntToStringPlain(count);
    NoNewlineAppend("Map ", IntToString(mid));
    NoNewlineAppend("Map " + IntToString(mid), " Event ");
    NoNewlineAppend("Map " + IntToString(mid) + " Event ", IntToString(eid));
    NoNewlineAppend("Map " + IntToString(mid) + " Event " + IntToString(eid), " Page ");
    NoNewlineAppend("Map " + IntToString(mid) + " Event " + IntToString(eid) + " Page ", IntToString(pid + 1));
    NoNewlineAppend("Map " + IntToString(mid) + " Event " + IntToString(eid) + " Page " + IntToString(pid + 1), " Choice ");
    NoNewlineAppend("Map " + IntToString(mid) + " Event " + IntToString(eid) + " Page " + IntToString(pid + 1) + " Choice ", IntToString(count));
    NoNewlineAppend("Common Event ", IntToString(eid));
    NoNewlineAppend("Common Event " + IntToString(eid), " Choice ");
    NoNewlineAppend("Common Event " + IntToString(eid) + " Choice ", IntToString(count));
    NoNewlineAppend("Troop ", IntToString(eid));
    NoNewlineAppend("Troop " + IntToString(eid), " Page ");
    NoNewlineAppend("Troop " + IntToString(eid) + " Page ", IntToString(pid + 1));
    NoNewlineAppend("Troop " + IntToString(eid) + " Page " + IntToString(pid + 1), " Choice ");
    NoNewlineAppend("Troop " + IntToString(eid) + " Page " + IntToString(pid + 1) + " Choice ", IntToString(count));
  }

  lemma NoNewlineAppend(a: string, b: string)
    requires NoNewline(a) && NoNewline(b)
    ensures NoNewline(a + b)
  {
    assert forall i :: |a| <= i < |a + b| ==> (a + b)[i] == b[i - |a|];
  }

  /** A line opening with `[De` matches no tag: `[DFace]` is the only tag opening with `[D`. */
  lemma NoTagOpensWithDe(line: string)
    requires |line| >= 3 && line[0] == '[' && line[1] == 'D' && line[2] == 'e'
    ensures ParseTag(line) == None && !IsSkipped(line)
  {
    assert TextAfter(line, "[Key]", false) == None by { assert Lower(line[1]) != Lower("[Key]"[1]); }
    assert FaceAfter(line) == None by { assert Lower(line[1]) != Lower("[Face]"[1]); }
    assert DigitsAfter(line, "[AFace]") == None by { assert Lower(line[1]) != Lower("[AFace]"[1]); }
    assert DigitsAfter(line, "[PFace]") == None by { assert Lower(line[1]) != Lower("[PFace]"[1]); }
    assert TextAfter(line, "[DFace]", false) == None by { assert Lower(line[2]) != Lower("[DFace]"[2]); }
    assert TextAfter(line, "[Name]", false) == None by { assert Lower(line[1]) != Lower("[Name]"[1]); }
    assert TextAfter(line, "[FName]", true) == None by { assert line[1] != "[FName]"[1]; }
    assert KeywordAfter(line, "[Position]", PositionWords) == None by { assert Lower(line[1]) != Lower("[Position]"[1]); }
    assert KeywordAfter(line, "[Background]", BackgroundWords) == None by { assert Lower(line[1]) != Lower("[Background]"[1]); }
    assert SkipSpace(line) == line;
    assert line[..1] != "#";
  }

  /** The `[Default Choice]` line is no tag the text files know: it is a line of the body. */
  lemma DefaultLineIsBody(d: int)
    ensures IsBodyLine(DefaultLine(d))
  {
    var line := DefaultLine(d);
    assert line[0] == '[' && line[1] == 'D' && line[2] == 'e';
    NoTagOpensWithDe(line);
  }

  /** The `[Default Choice]` line is one whole line. */
  lemma DefaultLineIsLine(d: int)
    ensures EndsLine(DefaultLine(d)) && IsLine(DefaultLine(d))
  {
    var t := IntToString(d);
    IntToStringPlain(d);
    NoNewlineAppend("[Default Choice] ", t);
    TextLine("[Default Choice] " + t);
  }

  /** Text with no line break, then "\n": one whole line. */
  lemma TextLine(t: string)
    requires NoNewline(t)
    ensures IsLine(t + "\n") && EndsLine(t + "\n")
  {
    assert forall i :: 0 <= i < |t| ==> (t + "\n")[i] == t[i];
  }

  lemma {:induction false} ChoiceLinesRead(choices: seq<string>)
    requires forall i :: 0 <= i < |choices| ==> NoNewline(choices[i])
    ensures ReadLines(ChoiceLines(choices)) == LinesOf(choices)
    ensures ChoiceLines(choices) == [] || EndsLine(ChoiceLines(choices))
    decreases |choices|
  {
    if choices != [] {
      var front, last := choices[..|choices| - 1], choices[|choices| - 1];
      ChoiceLinesRead(front);
      ChoiceLineRead(front, last);
      assert choices == front + [last];
      assert LinesOf(choices) == LinesOf(front) + [last + "\n"];
    }
  }

  /** One more choice line read back after the others. */
  lemma ChoiceLineRead(front: seq<string>, last: string)
    requires NoNewline(last)
    requires ChoiceLines(front) == [] || EndsLine(ChoiceLines(front))
    ensures ReadLines(ChoiceLines(front) + (last + "\n")) == ReadLines(ChoiceLines(front)) + [last + "\n"]
    ensures EndsLine(ChoiceLines(front) + (last + "\n"))
  {
    TextLine(last);
    ReadLinesOfLine(last + "\n");
    ReadLinesAppend(ChoiceLines(front), last + "\n");
  }

  /**
   * Read back through the text files, the entry for a choice stores, under its
   * key, a record whose body is the `[Default Choice]` line followed by the
   * choices one per line, when every choice is a plain line of text.
   */
  lemma ChoiceTextParses(s: State, key: string, d: int, choices: seq<string>, faces: FaceTable)
    requires key != [] && !IsSpace(key[0]) && NoNewline(key)
    requires forall i :: 0 <= i < |choices| ==> NoNewline(choices[i]) && IsBodyLine(choices[i] + "\n")
    ensures ParseLines(s, ReadLines(ChoiceText(key, d, choices)), faces) ==
            Ok(State(Put(s.table, key, FreshRecord.(body := Joined([DefaultLine(d)] + LinesOf(choices)))), Some(key)))
  {
    var keyLine := "[Key] " + key + "\n";
    var body := [DefaultLine(d)] + LinesOf(choices);
    ChoiceTextLines(key, d, choices);
    KeyLineTag(key);
    BodyLines(d, choices);
    assert ["\n", keyLine, DefaultLine(d)] + LinesOf(choices) == ["\n", keyLine] + body;
    ParseEntry(s, keyLine, key, body, faces);
  }

  lemma KeyLineTag(key: string)
    requires key != [] && !IsSpace(key[0]) && NoNewline(key)
    ensures ParseTag("[Key] " + key + "\n") == Some(Key(key))
  {
    assert "[Key]" + (" " + key + "\n") == "[Key] " + key + "\n";
    KeyLine("[Key]", " ", key, "\n");
  }

  /** A blank line, a `[Key]` line and lines of text: one record, under the key, holding the text. */
  lemma ParseEntry(s: State, keyLine: string, k: string, body: seq<string>, faces: FaceTable)
    requires ParseTag(keyLine) == Some(Key(k))
    requires forall i :: 0 <= i < |body| ==> IsBodyLine(body[i])
    ensures ParseLines(s, ["\n", keyLine] + body, faces) == Ok(State(Put(s.table, k, FreshRecord.(body := Joined(body))), Some(k)))
  {
    assert IsSkipped("\n") by { assert SkipSpace("\n") == []; }
    SkippedLineIgnored(s, [], "\n", [keyLine] + body, faces);
    assert [] + ["\n"] + ([keyLine] + body) == ["\n", keyLine] + body;
    assert [] + ([keyLine] + body) == [keyLine] + body;
    MessageBody(s, keyLine, k, body, faces);
  }

  lemma BodyLines(d: int, choices: seq<string>)
    requires forall i :: 0 <= i < |choices| ==> IsBodyLine(choices[i] + "\n")
    ensures var body := [DefaultLine(d)] + LinesOf(choices);
            forall i :: 0 <= i < |body| ==> IsBodyLine(body[i])
  {
    var body := [DefaultLine(d)] + LinesOf(choices);
    DefaultLineIsBody(d);
    forall i | 0 <= i < |body| ensures IsBodyLine(body[i]) {
      if i > 0 {
        assert body[i] == choices[i - 1] + "\n";
      }
    }
  }

  /** The lines of the entry: a blank line, the `[Key]` line, the default choice and the choices. */
  lemma ChoiceTextLines(key: string, d: int, choices: seq<string>)
    requires NoNewline(key)
    requires forall i :: 0 <= i < |choices| ==> NoNewline(choices[i])
    ensures ReadLines(ChoiceText(key, d, choices)) == ["\n", "[Key] " + key + "\n", DefaultLine(d)] + LinesOf(choices)
  {
    KeyLineIsLine(key);
    DefaultLineIsLine(d);
    ChoiceLinesRead(choices);
    ThreeLines("\n", "[Key] " + key + "\n", DefaultLine(d), ChoiceLines(choices));
  }

  lemma KeyLineIsLine(key: string)
    requires NoNewline(key)
    ensures IsLine("[Key] " + key + "\n") && EndsLine("[Key] " + key + "\n")
  {
    NoNewlineAppend("[Key] ", key);
    TextLine("[Key] " + key);
  }

  /** Three whole lines in front of some text: they are its first three lines. */
  lemma ThreeLines(a: string, b: string, c: string, rest: string)
    requires IsLine(a) && EndsLine(a) && IsLine(b) && EndsLine(b) && IsLine(c) && EndsLine(c)
    ensures ReadLines(a + b + c + rest) == [a, b, c] + ReadLines(rest)
  {
    assert a + b + c + rest == a + (b + (c + rest));
    ReadLinesFront(c, rest);
    ReadLinesFront(b, c + rest);
    ReadLinesFront(a, b + (c + rest));
  }

  // ---------------------------------------------------------------------------
  // The key of the entry and the key of the call
  // ---------------------------------------------------------------------------

  /** The script call names the key of the entry. */
  lemma CallNamesEntryKey(src: Source, mid: int, eid: int, pid: int, count: int)
    ensures var call := ShowChoices(src, mid, eid, pid, count);
            StartsWith(call, "show_choices('") && call[14..|call| - 2] == ChoiceKey(src, mid, eid, pid, count)
  {
    var call := ShowChoices(src, mid, eid, pid, count);
    assert call[..14] == "show_choices('";
  }

  /**
   * With the keys the code builds, the entry of a choice is filed under the
   * key its script call names, whatever kind of event holds it.
   */
  lemma ChoiceEntryFound(s: State, src: Source, mid: int, eid: int, pid: int, count: int, d: int, choices: seq<string>, faces: FaceTable)
    requires forall i :: 0 <= i < |choices| ==> NoNewline(choices[i]) && IsBodyLine(choices[i] + "\n")
    ensures var r := ParseLines(s, ReadLines(ChoiceText(ChoiceKey(src, mid, eid, pid, count), d, choices)), faces);
            r.Ok? && ChoiceKey(src, mid, eid, pid, count) in r.value.table.records
  {
    ChoiceKeyPlain(src, mid, eid, pid, count);
    ChoiceTextParses(s, ChoiceKey(src, mid, eid, pid, count), d, choices, faces);
  }

  /**
   * As written, a choice of a common event is filed under a map key, so the
   * entry its script call names is not there.
   */
  lemma CommonChoiceLostAsWritten(mid: int, eid: int, pid: int, count: int, d: int, choices: seq<string>, faces: FaceTable)
    requires forall i :: 0 <= i < |choices| ==> NoNewline(choices[i]) && IsBodyLine(choices[i] + "\n")
    ensures var r := ParseLines(State(EmptyTable, None), ReadLines(ChoiceTextAsWritten(mid, eid, pid, count, d, choices)), faces);
            r.Ok? && ChoiceKey(CommonEvent, mid, eid, pid, count) !in r.value.table.records
  {
    var mapKey := MapChoiceKey(mid, eid, pid, count);
    ChoiceKeyPlain(MapEvent, mid, eid, pid, count);
    ChoiceTextParses(State(EmptyTable, None), mapKey, d, choices, faces);
    assert ChoiceKey(CommonEvent, mid, eid, pid, count)[0] != mapKey[0];
  }

  /**
   * As written, a choice of a map event is found: its entry and its call both
   * use the map key, and the call is spelled `show_choices`.
   */
  lemma MapChoiceFoundAsWritten(s: State, mid: int, eid: int, pid: int, count: int, d: int, choices: seq<string>, faces: FaceTable)
    requires forall i :: 0 <= i < |choices| ==> NoNewline(choices[i]) && IsBodyLine(choices[i] + "\n")
    ensures ShowChoicesAsWritten(MapEvent, mid, eid, pid, count) == ShowChoices(MapEvent, mid, eid, pid, count)
    ensures var r := ParseLines(s, ReadLines(ChoiceTextAsWritten(mid, eid, pid, count, d, choices)), faces);
            r.Ok? && ChoiceKey(MapEvent, mid, eid, pid, count) in r.value.table.records
  {
    ChoiceEntryFound(s, MapEvent, mid, eid, pid, count, d, choices, faces);
  }

  /** As written, the call made for a troop is not a `show_choices` call. */
  lemma TroopCallMisspelledAsWritten(mid: int, eid: int, pid: int, count: int)
    ensures !StartsWith(ShowChoicesAsWritten(TroopPage, mid, eid, pid, count), "show_choices(")
  {
    var call := ShowChoicesAsWritten(TroopPage, mid, eid, pid, count);
    var open := "show choices('";
    assert call == open + (ChoiceKey(TroopPage, mid, eid, pid, count) + "')");
    assert call[4] == open[4] == ' ';
  }

  // ---------------------------------------------------------------------------
  // The command rewrite
  // ---------------------------------------------------------------------------

  /**
   * `Reindent` stops at the first command at the base indent or less: the
   * commands before it come back shifted right by `shift` and in order, the
   * rest untouched; with no such command it fails.
   */
  lemma {:induction false} ReindentMeans(rest: seq<Command>, base: int, shift: int)
    ensures Reindent(rest, base, shift).None? <==> forall i :: 0 <= i < |rest| ==> rest[i].indent > base
    ensures Reindent(rest, base, shift).Some? ==>
              var (body, after) := Reindent(rest, base, shift).value;
              |body| < |rest| && after == rest[|body|..] && rest[|body|].indent <= base &&
              forall i :: 0 <= i < |body| ==> rest[i].indent > base && body[i] == rest[i].(indent := rest[i].indent + shift)
    decreases |rest|
  {
    if rest != [] && rest[0].indent > base {
      ReindentMeans(rest[1..], base, shift);
      ReindentShifted(rest, base, shift);
    }
  }

  /** What `ReindentMeans` states about `Reindent(rest, base, shift)`. */
  predicate ReindentStops(rest: seq<Command>, base: int, shift: int) {
    (Reindent(rest, base, shift).None? <==> forall i :: 0 <= i < |rest| ==> rest[i].indent > base) &&
    (Reindent(rest, base, shift).Some? ==>
       var (body, after) := Reindent(rest, base, shift).value;
       |body| < |rest| && after == rest[|body|..] && rest[|body|].indent <= base &&
       forall i :: 0 <= i < |body| ==> rest[i].indent > base && body[i] == rest[i].(indent := rest[i].indent + shift))
  }

  /** The step of `ReindentMeans` for a first command inside the body. */
  lemma ReindentShifted(rest: seq<Command>, base: int, shift: int)
    requires rest != [] && rest[0].indent > base
    requires ReindentStops(rest[1..], base, shift)
    ensures ReindentStops(rest, base, shift)
  {
    var tail := rest[1..];
    if Reindent(tail, base, shift).None? {
      ReindentShiftedNone(rest, base, shift);
    } else {
      ReindentShiftedSome(rest, base, shift);
    }
  }

  lemma ReindentShiftedNone(rest: seq<Command>, base: int, shift: int)
    requires rest != [] && rest[0].indent > base
    requires ReindentStops(rest[1..], base, shift) && Reindent(rest[1..], base, shift).None?
    ensures ReindentStops(rest, base, shift)
  {
    var tail := rest[1..];
    assert forall i :: 1 <= i < |rest| ==> rest[i] == tail[i - 1];
  }

  lemma ReindentShiftedSome(rest: seq<Command>, base: int, shift: int)
    requires rest != [] && rest[0].indent > base
    requires ReindentStops(rest[1..], base, shift) && Reindent(rest[1..], base, shift).Some?
    ensures ReindentStops(rest, base, shift)
  {
    var tail := rest[1..];
    var r := Reindent(tail, base, shift).value;
    var body := [rest[0].(indent := rest[0].indent + shift)] + r.0;
    assert Reindent(rest, base, shift) == Some((body, r.1));
    assert tail[|r.0|..] == rest[1 + |r.0|..];
    assert forall i :: 1 <= i < |rest| ==> rest[i] == tail[i - 1];
    assert forall i :: 1 <= i < |body| ==> body[i] == r.0[i - 1];
  }

  /** The closers: for each branch, from the innermost out, a branch end and an empty command at its indent. */
  lemma {:induction false} ClosersShape(n: nat, base: int)
    ensures forall i :: 0 <= i < n ==> Closers(n, base)[2 * i] == Blank(412, n - i + base) && Closers(n, base)[2 * i + 1] == Blank(0, n - i + base)
    decreases n
  {
    if n > 0 {
      ClosersShape(n - 1, base);
      var cs := Closers(n, base);
      forall i | 1 <= i < n
        ensures cs[2 * i] == Blank(412, n - i + base) && cs[2 * i + 1] == Blank(0, n - i + base)
      {
        assert cs[2 * i] == Closers(n - 1, base)[2 * (i - 1)];
        assert cs[2 * i + 1] == Closers(n - 1, base)[2 * (i - 1) + 1];
      }
    }
  }

  /**
   * Each branch made adds one command (the `Else` before it), and closing the
   * block adds two per branch; every other command keeps its place.
   */
  lemma {:induction false} WalkLength(rest: seq<Command>, base: int, ci: nat, d: int, n: int, lastChoice: Option<Param>)
    requires Walk(rest, base, ci, d, n, lastChoice).Some?
    ensures var w := Walk(rest, base, ci, d, n, lastChoice).value;
            ci <= w.branches &&
            |w.out| == |rest| + (w.branches - ci) + (if w.closed then 2 * w.branches else 0)
    decreases |rest|
  {
    if rest != [] {
      match Act(rest[0], base, ci, d, n, lastChoice)
      case Shift => WalkLength(rest[1..], base, ci, d, n, lastChoice);
      case Open(head) => WalkLength(rest[1..], base, ci + 1, d, n, lastChoice);
      case Finish(head) =>
        ReindentMeans(rest[1..], base, ci);
    }
  }

  /** Commands each shifted right by `shift`, in order. */
  function Shifted(cs: seq<Command>, shift: int): seq<Command> {
    seq(|cs|, i requires 0 <= i < |cs| => cs[i].(indent := cs[i].indent + shift))
  }

  /**
   * A run of commands that open and close nothing (none is a `When` at the
   * base indent, nor a `Branch End` there with the default past the choices)
   * comes out of the walk in order, each shifted right by `ci - 1`, ahead of
   * the walk of what follows the run.
   */
  lemma WalkShiftsRun(rest: seq<Command>, base: int, ci: nat, d: int, n: int, lastChoice: Option<Param>, k: nat)
    requires k <= |rest|
    requires forall i :: 0 <= i < k ==> rest[i].indent != base || !(rest[i].code == 402 || (rest[i].code == 403 && d > n))
    ensures Walk(rest, base, ci, d, n, lastChoice) == Behind(Shifted(rest[..k], ci - 1), Walk(rest[k..], base, ci, d, n, lastChoice))
    ensures Walk(rest, base, ci, d, n, lastChoice).Some? ==>
              var out := Walk(rest, base, ci, d, n, lastChoice).value.out;
              k <= |out| && forall i :: 0 <= i < k ==> out[i] == rest[i].(indent := rest[i].indent + ci - 1)
  {
    ShiftRun(rest, base, ci, d, n, lastChoice, k);
    var after := Walk(rest[k..], base, ci, d, n, lastChoice);
    if after.Some? {
      assert Walk(rest, base, ci, d, n, lastChoice).value.out == Shifted(rest[..k], ci - 1) + after.value.out;
    }
  }

  /** The equation of `WalkShiftsRun`, by induction on the run. */
  lemma {:induction false} ShiftRun(rest: seq<Command>, base: int, ci: nat, d: int, n: int, lastChoice: Option<Param>, k: nat)
    requires k <= |rest|
    requires forall i :: 0 <= i < k ==> rest[i].indent != base || !(rest[i].code == 402 || (rest[i].code == 403 && d > n))
    ensures Walk(rest, base, ci, d, n, lastChoice) == Behind(Shifted(rest[..k], ci - 1), Walk(rest[k..], base, ci, d, n, lastChoice))
    decreases k
  {
    if k == 0 {
      assert rest[..0] == [] && rest[0..] == rest;
      assert Shifted(rest[..0], ci - 1) == [];
      BehindNothing(Walk(rest, base, ci, d, n, lastChoice));
    } else {
      var tail := rest[1..];
      assert tail[..k - 1] == rest[1..k] && tail[k - 1..] == rest[k..];
      ShiftRun(tail, base, ci, d, n, lastChoice, k - 1);
      ShiftRunStep(rest, base, ci, d, n, lastChoice, k);
    }
  }

  lemma ShiftRunStep(rest: seq<Command>, base: int, ci: nat, d: int, n: int, lastChoice: Option<Param>, k: nat)
    requires 0 < k <= |rest|
    requires rest[0].indent != base || !(rest[0].code == 402 || (rest[0].code == 403 && d > n))
    requires Walk(rest[1..], base, ci, d, n, lastChoice) == Behind(Shifted(rest[1..k], ci - 1), Walk(rest[k..], base, ci, d, n, lastChoice))
    ensures Walk(rest, base, ci, d, n, lastChoice) == Behind(Shifted(rest[..k], ci - 1), Walk(rest[k..], base, ci, d, n, lastChoice))
  {
    ShiftOne(rest, base, ci, d, n, lastChoice);
    assert rest[..k][1..] == rest[1..k];
    BehindShifted(rest[..k], ci - 1, Walk(rest[k..], base, ci, d, n, lastChoice));
  }

  lemma BehindShifted(cs: seq<Command>, shift: int, r: Option<Walked>)
    requires cs != []
    ensures Behind([cs[0].(indent := cs[0].indent + shift)], Behind(Shifted(cs[1..], shift), r)) == Behind(Shifted(cs, shift), r)
  {
    BehindTwice([cs[0].(indent := cs[0].indent + shift)], Shifted(cs[1..], shift), r);
    ShiftedCons(cs, shift);
  }

  /** A command the walk shifts goes out in front of the walk of the rest. */
  lemma ShiftOne(rest: seq<Command>, base: int, ci: nat, d: int, n: int, lastChoice: Option<Param>)
    requires rest != []
    requires rest[0].indent != base || !(rest[0].code == 402 || (rest[0].code == 403 && d > n))
    ensures Walk(rest, base, ci, d, n, lastChoice) ==
            Behind([rest[0].(indent := rest[0].indent + ci - 1)], Walk(rest[1..], base, ci, d, n, lastChoice))
  {
    assert Act(rest[0], base, ci, d, n, lastChoice).Shift?;
  }

  lemma ShiftedCons(cs: seq<Command>, shift: int)
    requires cs != []
    ensures Shifted(cs, shift) == [cs[0].(indent := cs[0].indent + shift)] + Shifted(cs[1..], shift)
  {
  }

  /** The commands before the choice stay; the choice becomes the script call and the next command the first branch. */
  lemma ChoicesFront(list: seq<Command>, index: nat, src: Source, mid: int, eid: int, pid: int, count: int)
    requires index < |list| && IsChoiceCommand(list[index])
    ensures index + 1 == |list| ==> Choices(list, index, src, mid, eid, pid, count).None?
    ensures Choices(list, index, src, mid, eid, pid, count).Some? ==>
              var out := Choices(list, index, src, mid, eid, pid, count).value;
              |out| >= index + 2 && out[..index] == list[..index] &&
              out[index] == Command(355, list[index].indent, [Str(ShowChoicesAsWritten(src, mid, eid, pid, count))]) &&
              out[index + 1] == Command(111, list[index + 1].indent, TestParams(1))
  {
  }
}
