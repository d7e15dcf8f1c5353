/**
 * Laying a stored message out as display lines (`Game_Message#load_text`,
 * `add_line`, `get_color`, `slice_escape_characters`, `too_wide?`).
 *
 * The body's line breaks become `[line]` markers (in the stored record, not
 * a copy), the body is split into whitespace-separated words, and each word
 * is appended to the current line followed by one space. A word that would
 * make the line too wide goes to a new line first; every piece after a
 * `[line]` marker starts a new line. Every fourth line starts a new page,
 * which begins with the colour code last seen (and, when names are shown
 * as text, with the speaker's name on a line of its own).
 */
module Layout {
  import opened Wrappers
  import opened RubyString
  import opened Parser

  const Esc: char := '\U{1B}'

  // ---------------------------------------------------------------------------
  // Escape characters
  // ---------------------------------------------------------------------------

  /** `gsub(/\\/) { "\e" }`: every backslash becomes an escape character. */
  function EscapeBackslashes(s: string): (r: string)
    ensures |r| == |s|
    ensures forall i :: 0 <= i < |s| ==> r[i] == (if s[i] == '\\' then Esc else s[i])
  {
    if s == [] then [] else [if s[0] == '\\' then Esc else s[0]] + EscapeBackslashes(s[1..])
  }

  /** `gsub(/\e\e/) { "\\" }`: left to right, each pair of escape characters becomes one backslash. */
  function CollapseEscPairs(s: string): (r: string)
    ensures |r| <= |s|
    decreases |s|
  {
    if |s| >= 2 && s[0] == Esc && s[1] == Esc then "\\" + CollapseEscPairs(s[2..])
    else if s == [] then []
    else [s[0]] + CollapseEscPairs(s[1..])
  }

  /**
   * The escape conversion of `convert_escape_characters` that does not read
   * game state: `\` starts an escape code and `\\` stands for a backslash.
   */
  function Convert(s: string): (r: string)
    ensures |r| <= |s|
  {
    CollapseEscPairs(EscapeBackslashes(s))
  }

  /** How an author writes text that is to show literally: each backslash doubled. */
  function DoubleBackslashes(s: string): (r: string)
    ensures |r| >= |s|
  {
    if s == [] then [] else (if s[0] == '\\' then "\\\\" else [s[0]]) + DoubleBackslashes(s[1..])
  }

  /** Length of a `[\w+]` argument at the head of `s`, or 0 when there is none. */
  function BracketArg(s: string): (k: nat)
    ensures k <= |s|
    ensures k > 0 ==> k >= 3 && s[0] == '[' && s[k - 1] == ']' && AllWordChars(s[1..k - 1])
  {
    if s != [] && s[0] == '[' then
      var w := WordRun(s[1..]);
      if w > 0 && 1 + w < |s| && s[1 + w] == ']' then
        assert s[1..2 + w - 1] == s[1..][..w];
        2 + w
      else 0
    else 0
  }

  /** Length of a colour code `\eC` or `\eC[\w+]` (either case) at the head of `s`, or 0. */
  function ColorCodeAt(s: string): (k: nat)
    ensures k <= |s|
    ensures k > 0 ==> k >= 2 && s[0] == Esc && Lower(s[1]) == 'c'
  {
    if |s| >= 2 && s[0] == Esc && Lower(s[1]) == 'c' then 2 + BracketArg(s[2..]) else 0
  }

  /** The last colour code the left-to-right scan of `gsub(/\eC(?:\[\w+?\])?/i)` finds. */
  function LastColorCode(s: string): (c: Option<string>)
    ensures c.Some? ==> c.value != [] && ColorCodeAt(c.value) == |c.value|
    decreases |s|
  {
    if s == [] then None
    else
      var k := ColorCodeAt(s);
      if k == 0 then LastColorCode(s[1..])
      else
        match LastColorCode(s[k..])
        case Some(later) => Some(later)
        case None =>
          assert ColorCodeAt(s[..k]) == k by {
            if k > 2 { assert BracketArg(s[..k][2..]) == BracketArg(s[2..]) by { assert s[..k][2..] == s[2..][..k - 2]; BracketArgPrefix(s[2..], k - 2); } }
          }
          Some(s[..k])
  }

  /** A bracket argument is found again in any prefix that holds it. */
  lemma BracketArgPrefix(s: string, n: nat)
    requires BracketArg(s) <= n <= |s| && BracketArg(s) > 0
    ensures BracketArg(s[..n]) == BracketArg(s)
  {
    var w := WordRun(s[1..]);
    WordRunPrefix(s[1..], n - 1);
    assert s[..n][1..] == s[1..][..n - 1];
  }

  lemma {:induction false} WordRunPrefix(s: string, n: nat)
    requires WordRun(s) < n <= |s|
    ensures WordRun(s[..n]) == WordRun(s)
  {
    if s != [] && IsWordChar(s[0]) {
      assert s[..n][1..] == s[1..][..n - 1];
      WordRunPrefix(s[1..], n - 1);
    }
  }

  /** `get_color`: the last colour code in the converted text, if any. */
  function GetColor(text: string): (c: Option<string>)
    ensures c.Some? ==> |c.value| >= 2 && c.value[0] == Esc && Lower(c.value[1]) == 'c' && ColorCodeAt(c.value) == |c.value|
  {
    LastColorCode(Convert(text))
  }

  /** Length of an escape code `\e\w` with an optional `[\w+]` at the head of `s`, or 0. */
  function EscapeCodeAt(s: string): (k: nat)
    ensures k <= |s|
    ensures k > 0 ==> k >= 2 && s[0] == Esc && IsWordChar(s[1])
  {
    if |s| >= 2 && s[0] == Esc && IsWordChar(s[1]) then 2 + BracketArg(s[2..]) else 0
  }

  /** `gsub(/\e(\w)(\[(\w+)\])?/) {""}`: every escape code removed. */
  function RemoveEscapeCodes(s: string): (r: string)
    ensures |r| <= |s|
    decreases |s|
  {
    if s == [] then []
    else if EscapeCodeAt(s) > 0 then RemoveEscapeCodes(s[EscapeCodeAt(s)..])
    else [s[0]] + RemoveEscapeCodes(s[1..])
  }

  /** `slice_escape_characters`: the text as measured, without its escape codes. */
  function Slice(text: string): (r: string)
    ensures |r| <= |text|
  {
    RemoveEscapeCodes(Convert(text))
  }

  // ---------------------------------------------------------------------------
  // Width and lines
  // ---------------------------------------------------------------------------

  /** The room a face graphic takes from the message width. */
  const FaceAllowance: int := 112

  /**
   * What the layout depends on besides the text: the width of a string as the
   * window's font measures it, the window's content width, the face file
   * shown, and the name line that opens each page when names are shown as text.
   */
  datatype Env = Env(measure: string -> nat, width: int, faceName: string, nameLine: Option<string>)

  /** `too_wide?`: the escape-free text is wider than the window, less the face's room if a face is shown. */
  predicate TooWide(text: string, env: Env): (b: bool)
    ensures !b ==> env.measure(Slice(text)) <= env.width
    ensures !b && env.faceName != [] ==> env.measure(Slice(text)) + FaceAllowance <= env.width
  {
    env.measure(Slice(text)) > env.width - (if env.faceName == [] then 0 else FaceAllowance)
  }

  function Last(lines: seq<string>): string
    requires lines != []
  {
    lines[|lines| - 1]
  }

  /**
   * `add_line`: a new empty line. At a page start (an index that is a
   * multiple of 4) the name line comes first when there is one, and the line
   * that follows is seeded with the colour code.
   */
  function AddLine(lines: seq<string>, cc: string, nameLine: Option<string>): (r: seq<string>)
    requires lines != []
    ensures |lines| < |r| && r[..|lines|] == lines
    ensures |lines| % 4 != 0 ==> r == lines + [""]
    ensures |lines| % 4 == 0 && nameLine.None? ==> r == lines + [cc]
    ensures |lines| % 4 == 0 && nameLine.Some? ==> r == lines + [nameLine.value, cc]
  {
    if |lines| % 4 == 0 then
      match nameLine
      case None => lines + [cc]
      case Some(n) => lines + [n, cc]
    else lines + [""]
  }

  /** `lines[i] << piece` on the last line. */
  function AppendToLast(lines: seq<string>, piece: string): (r: seq<string>)
    requires lines != []
    ensures |r| == |lines| && r[..|r| - 1] == lines[..|lines| - 1]
    ensures Last(r) == Last(lines) + piece
  {
    lines[..|lines| - 1] + [Last(lines) + piece]
  }

  /** The lines built so far and the colour code in effect. */
  datatype Layout = Layout(lines: seq<string>, cc: string)

  /** One piece: a new line first if forced or if it would not fit, then the piece and a space. */
  function PlacePiece(st: Layout, v: string, forced: bool, env: Env): (r: Layout)
    requires st.lines != []
    ensures r.cc == st.cc && |st.lines| <= |r.lines|
    ensures |r.lines| == |st.lines| <==> !forced && !TooWide(Last(st.lines) + v, env)
    ensures |r.lines| == |st.lines| ==> Last(r.lines) == Last(st.lines) + v + " "
    ensures |r.lines| > |st.lines| ==> Last(r.lines) == v + " " || Last(r.lines) == st.cc + v + " "
  {
    var lines := if forced || TooWide(Last(st.lines) + v, env) then AddLine(st.lines, st.cc, env.nameLine) else st.lines;
    Layout(AppendToLast(lines, v + " "), st.cc)
  }

  /** The pieces of a word split at its `[line]` markers; each piece after the first is forced onto a new line. */
  function PlaceSegments(st: Layout, segs: seq<string>, started: bool, env: Env): (r: Layout)
    requires st.lines != []
    ensures r.cc == st.cc
    ensures |r.lines| >= |st.lines| + (if segs == [] then 0 else if started then |segs| else |segs| - 1)
    decreases |segs|
  {
    if segs == [] then st
    else PlaceSegments(PlacePiece(st, segs[0], started, env), segs[1..], true, env)
  }

  /** What a fresh line starts with: nothing, or one whole colour code. */
  predicate Seed(s: string) {
    ColorCodeAt(s) == |s|
  }

  /** The colour code in effect after a word: its own last one, or the one before. */
  function ColorAfter(w: string, cc: string): (r: string)
    ensures Seed(cc) ==> Seed(r)
    ensures GetColor(w).None? ==> r == cc
  {
    match GetColor(w)
    case Some(c) => c
    case None => cc
  }

  /** One word of the body. */
  function PlaceWord(st: Layout, w: string, env: Env): (r: Layout)
    requires st.lines != []
    ensures |st.lines| + ForcedBreaks(w) <= |r.lines|
    ensures r.cc == ColorAfter(w, st.cc)
  {
    var st1 := st.(cc := ColorAfter(w, st.cc));
    if HasMarker(w) then PlaceSegments(st1, SplitOnMarker(w), false, env)
    else PlacePiece(st1, w, false, env)
  }

  /** The words of the body, in order. */
  function PlaceWords(st: Layout, words: seq<string>, env: Env): (r: Layout)
    requires st.lines != []
    ensures |st.lines| + TotalForcedBreaks(words) <= |r.lines|
    decreases |words|
  {
    if words == [] then st
    else PlaceWords(PlaceWord(st, words[0], env), words[1..], env)
  }

  // ---------------------------------------------------------------------------
  // load_text
  // ---------------------------------------------------------------------------

  /** Whether the speaker's name goes in the name box or on the first line of each page. */
  datatype NameStyle = Box | TextStyle

  /** `\c[0]`, the colour reset the name line ends with. */
  const ColorReset: string := "\\c[0]"

  /** Why `load_text` fails: names shown as text, but the message has none. */
  datatype LayoutError = NoName

  /** Why `text(key)` fails: the key has no record, or `load_text` failed. */
  datatype ShowError = NoText(key: string) | Unnamed

  /** What `load_text` sets up: the lines, the name for the name box, position and background. */
  datatype Message = Message(lines: seq<string>, name: Option<string>, position: nat, background: nat)

  /**
   * The face file that decides the face allowance: the record's own, unless
   * an actor or party member is named, whose face (game state, given here as
   * `gameFace`) is used instead.
   */
  function FaceFile(rec: Record, gameFace: string): string {
    if rec.face.actor.Some? || rec.face.party.Some? then gameFace else rec.face.file
  }

  /** The lines `load_text` starts from, and the name line pages begin with. */
  function Start(rec: Record, name: bool, style: NameStyle): (r: Result<(seq<string>, Option<string>), LayoutError>)
    ensures r.Err? <==> name && style == TextStyle && rec.face.name == []
    ensures r.Ok? ==> r.value.0 != [] && Last(r.value.0) == ""
    ensures r.Ok? && r.value.1.Some? ==> r.value.0[0] == r.value.1.value && r.value.1 == MessageName(rec, name, style)
  {
    if name && style == TextStyle then
      if rec.face.name == [] then Err(NoName)
      else Ok(([rec.face.name + ColorReset, ""], Some(rec.face.name + ColorReset)))
    else Ok(([""], None))
  }

  /**
   * `@name` after `load_text` with `name` set: the record's name, `nil` when it
   * is empty; in text style it has `\c[0]` appended, and it is the first line.
   */
  function MessageName(rec: Record, name: bool, style: NameStyle): (n: Option<string>)
    ensures n.None? <==> !name || rec.face.name == []
    ensures n.Some? ==> |n.value| >= |rec.face.name| && n.value[..|rec.face.name|] == rec.face.name
  {
    if name && rec.face.name != [] then Some(if style == TextStyle then rec.face.name + ColorReset else rec.face.name)
    else None
  }

  /** The layout of a record, as a function of the record and the window. */
  function Lay(rec: Record, name: bool, style: NameStyle, measure: string -> nat, width: int, gameFace: string)
    : (r: Result<Message, LayoutError>)
    ensures r.Err? <==> name && style == TextStyle && rec.face.name == []
    ensures r.Ok? ==> r.value.lines != [] && r.value.name == MessageName(rec, name, style) &&
                      r.value.position == rec.position && r.value.background == rec.background
  {
    match Start(rec, name, style)
    case Err(e) => Err(e)
    case Ok((lines, nameLine)) =>
      var env := Env(measure, width, FaceFile(rec, gameFace), nameLine);
      var laid := PlaceWords(Layout(lines, ""), SplitOnSpace(MarkLineBreaks(rec.body)), env);
      Ok(Message(laid.lines, MessageName(rec, name, style), rec.position, rec.background))
  }

  /** `add_line`, on the growing line list and the index of its last line. */
  method AddLineAt(lines: seq<string>, i: nat, cc: string, nameLine: Option<string>)
    returns (lines': seq<string>, i': nat)
    requires lines != [] && i == |lines| - 1
    ensures lines' == AddLine(lines, cc, nameLine) && i' == |lines'| - 1
  {
    lines', i' := lines, i + 1;
    lines' := lines' + [""];
    if i' % 4 == 0 {
      if nameLine.Some? {
        lines' := lines'[..i'] + [nameLine.value];
        i' := i' + 1;
        lines' := lines' + [""];
      }
      assert lines'[i'] + cc == cc;
      lines' := lines'[..i'] + [lines'[i'] + cc];
    }
  }

  /** `i = add_line(...)` if forced or too wide, then `lines[i] << "#{v} "`. */
  method PlacePieceAt(lines: seq<string>, i: nat, cc: string, v: string, forced: bool, env: Env)
    returns (lines': seq<string>, i': nat)
    requires lines != [] && i == |lines| - 1
    ensures Layout(lines', cc) == PlacePiece(Layout(lines, cc), v, forced, env) && i' == |lines'| - 1
  {
    lines', i' := lines, i;
    if forced || TooWide(lines[i] + v, env) {
      lines', i' := AddLineAt(lines, i, cc, env.nameLine);
    }
    lines' := lines'[..i'] + [lines'[i'] + (v + " ")];
  }

  /** The inner loop over the pieces of a word split at its `[line]` markers. */
  method PlaceSegmentsAt(lines0: seq<string>, i0: nat, cc: string, segs: seq<string>, env: Env)
    returns (lines: seq<string>, i: nat)
    requires lines0 != [] && i0 == |lines0| - 1
    ensures Layout(lines, cc) == PlaceSegments(Layout(lines0, cc), segs, false, env) && i == |lines| - 1
  {
    lines, i := lines0, i0;
    var l := 0;
    while l < |segs|
      invariant 0 <= l <= |segs| && lines != [] && i == |lines| - 1
      invariant PlaceSegments(Layout(lines0, cc), segs, false, env) ==
                PlaceSegments(Layout(lines, cc), segs[l..], l > 0, env)
    {
      assert segs[l..][1..] == segs[l + 1..];
      lines, i := PlacePieceAt(lines, i, cc, segs[l], l > 0, env);
      l := l + 1;
    }
  }

  /**
   * The word loop of `load_text`: the lines, the index `i` of the last one,
   * and the colour code `cc`, updated word by word.
   */
  method LayWords(start: seq<string>, words: seq<string>, env: Env) returns (lines: seq<string>)
    requires start != []
    ensures lines == PlaceWords(Layout(start, ""), words, env).lines
  {
    lines := start;
    var i := |start| - 1;
    var cc := "";
    var k := 0;
    while k < |words|
      invariant 0 <= k <= |words| && lines != [] && i == |lines| - 1
      invariant PlaceWords(Layout(start, ""), words, env) == PlaceWords(Layout(lines, cc), words[k..], env)
    {
      var w := words[k];
      assert words[k..][1..] == words[k + 1..];
      cc := ColorAfter(w, cc);
      if HasMarker(w) {
        lines, i := PlaceSegmentsAt(lines, i, cc, SplitOnMarker(w), env);
      } else {
        lines, i := PlacePieceAt(lines, i, cc, w, false, env);
      }
      k := k + 1;
    }
  }

  /** `text(key)`: lays the stored message out, turning its line breaks into markers in the table itself. */
  method ShowText(store: TextStore, key: string, name: bool, style: NameStyle,
                  measure: string -> nat, width: int, gameFace: string)
    returns (r: Result<Message, ShowError>)
    modifies store
    ensures key !in old(store.records) ==> r == Err(NoText(key)) && store.Snapshot() == old(store.Snapshot())
    ensures key in old(store.records) ==>
              var rec := old(store.records)[key];
              match Lay(rec, name, style, measure, width, gameFace)
              case Err(e) => r == Err(Unnamed) && store.Snapshot() == old(store.Snapshot())
              case Ok(m) =>
                r == Ok(m) && store.keys == old(store.keys) && store.cursor == old(store.cursor) &&
                store.records == old(store.records)[key := rec.(body := MarkLineBreaks(rec.body))]
  {
    if key !in store.records {
      return Err(NoText(key));
    }
    var rec := store.records[key];
    var start := Start(rec, name, style);
    if start.Err? {
      return Err(Unnamed);
    }
    var body := MarkLineBreaks(rec.body);
    store.Store(key, rec.(body := body));
    var env := Env(measure, width, FaceFile(rec, gameFace), start.value.1);
    var lines := LayWords(start.value.0, SplitOnSpace(body), env);
    r := Ok(Message(lines, MessageName(rec, name, style), rec.position, rec.background));
  }

  // ---------------------------------------------------------------------------
  // Properties
  // ---------------------------------------------------------------------------

  /**
   * Showing a message a second time lays it out as the first time did: the
   * markers left in the stored body are not line breaks any more.
   */
  lemma ShowAgainSameLayout(rec: Record, name: bool, style: NameStyle, measure: string -> nat, width: int, gameFace: string)
    ensures Lay(rec.(body := MarkLineBreaks(rec.body)), name, style, measure, width, gameFace) ==
            Lay(rec, name, style, measure, width, gameFace)
  {
    MarkLineBreaksIdempotent(rec.body);
  }

  /**
   * With names shown as text, the message's name is its first line, ending
   * in the colour reset; in the name box it is the record's name as it is.
   */
  lemma NameOfMessage(rec: Record, name: bool, style: NameStyle, measure: string -> nat, width: int, gameFace: string)
    requires name && rec.face.name != []
    ensures var r := Lay(rec, name, style, measure, width, gameFace);
            r.Ok? && (style == Box ==> r.value.name == Some(rec.face.name)) &&
            (style == TextStyle ==> r.value.name == Some(r.value.lines[0]) && r.value.lines[0] == rec.face.name + ColorReset)
  {
    var (lines, nameLine) := Start(rec, name, style).value;
    var env := Env(measure, width, FaceFile(rec, gameFace), nameLine);
    var laid := PlaceWords(Layout(lines, ""), SplitOnSpace(MarkLineBreaks(rec.body)), env);
    assert Lay(rec, name, style, measure, width, gameFace) == Ok(Message(laid.lines, MessageName(rec, name, style), rec.position, rec.background));
    if style == TextStyle {
      EarlierLinesKept(Layout(lines, ""), SplitOnSpace(MarkLineBreaks(rec.body)), env);
      assert laid.lines[0] == laid.lines[..1][0];
    }
  }

  /** A doubled backslash shows as one backslash: converting what an author doubled gives the text back. */
  lemma {:induction false} ConvertDoubled(s: string)
    requires forall i :: 0 <= i < |s| ==> s[i] != Esc
    ensures Convert(DoubleBackslashes(s)) == s
    decreases |s|
  {
    if s != [] {
      ConvertDoubled(s[1..]);
      var head := if s[0] == '\\' then "\\\\" else [s[0]];
      EscapeAppend(head, DoubleBackslashes(s[1..]));
      var e := EscapeBackslashes(head);
      var rest := EscapeBackslashes(DoubleBackslashes(s[1..]));
      if s[0] == '\\' {
        assert e == [Esc, Esc];
        assert (e + rest)[2..] == rest;
      } else {
        assert e == [s[0]];
        assert (e + rest)[1..] == rest;
      }
    }
  }

  lemma EscapeAppend(a: string, b: string)
    ensures EscapeBackslashes(a + b) == EscapeBackslashes(a) + EscapeBackslashes(b)
  {
    var l, r := EscapeBackslashes(a + b), EscapeBackslashes(a) + EscapeBackslashes(b);
    assert |l| == |r|;
    forall i | 0 <= i < |l| ensures l[i] == r[i] {
      if i < |a| {
        assert (a + b)[i] == a[i];
      } else {
        assert (a + b)[i] == b[i - |a|];
      }
    }
  }

  /** Text without backslashes or escape characters holds no escape code, so it is measured as written. */
  lemma {:induction false} SlicePlain(s: string)
    requires forall i :: 0 <= i < |s| ==> s[i] != '\\' && s[i] != Esc
    ensures Slice(s) == s && GetColor(s).None?
  {
    PlainConverted(s);
    PlainNoCodes(s);
  }

  lemma {:induction false} PlainConverted(s: string)
    requires forall i :: 0 <= i < |s| ==> s[i] != '\\' && s[i] != Esc
    ensures Convert(s) == s
    decreases |s|
  {
    if s != [] {
      PlainConverted(s[1..]);
      EscapeAppend([s[0]], s[1..]);
      assert [s[0]] + s[1..] == s;
      assert EscapeBackslashes(s)[1..] == EscapeBackslashes(s[1..]);
    }
  }

  lemma {:induction false} PlainNoCodes(s: string)
    requires forall i :: 0 <= i < |s| ==> s[i] != Esc
    ensures RemoveEscapeCodes(s) == s && LastColorCode(s).None?
    decreases |s|
  {
    if s != [] {
      PlainNoCodes(s[1..]);
    }
  }

  /** `\c[n]` (or `\C[n]`) on its own is the colour code `get_color` reports. */
  lemma ColorOfCode(letter: char, arg: string)
    requires letter == 'c' || letter == 'C'
    requires arg != [] && AllWordChars(arg)
    ensures GetColor(['\\', letter, '['] + arg + "]") == Some([Esc, letter, '['] + arg + "]")
  {
    var conv := [Esc, letter, '['] + arg + "]";
    CodeConverted(letter, arg);
    CodeFound(conv, letter, arg);
  }

  lemma CodeConverted(letter: char, arg: string)
    requires letter == 'c' || letter == 'C'
    requires AllWordChars(arg)
    ensures Convert(['\\', letter, '['] + arg + "]") == [Esc, letter, '['] + arg + "]"
  {
    var code := ['\\', letter, '['] + arg + "]";
    var tail := [letter, '['] + arg + "]";
    assert code == ['\\'] + tail;
    EscapeAppend(['\\'], tail);
    forall i | 0 <= i < |tail| ensures tail[i] != '\\' && tail[i] != Esc {
      if i >= 2 && i < 2 + |arg| { assert tail[i] == arg[i - 2]; }
    }
    EscapeIdentity(tail);
    PlainNoPairs(tail);
    assert EscapeBackslashes(code) == [Esc] + tail;
    assert ([Esc] + tail)[1..] == tail;
  }

  lemma EscapeIdentity(s: string)
    requires forall i :: 0 <= i < |s| ==> s[i] != '\\'
    ensures EscapeBackslashes(s) == s
  {
  }

  lemma CodeFound(conv: string, letter: char, arg: string)
    requires letter == 'c' || letter == 'C'
    requires arg != [] && AllWordChars(arg)
    requires conv == [Esc, letter, '['] + arg + "]"
    ensures LastColorCode(conv) == Some(conv)
  {
    assert conv[2..][1..] == arg + "]";
    WordRunOfWord(arg, "]");
    assert BracketArg(conv[2..]) == |arg| + 2;
    assert ColorCodeAt(conv) == |conv|;
    assert conv[|conv|..] == [];
    assert conv[..|conv|] == conv;
  }

  /** Text with no escape character has no pair to collapse. */
  lemma {:induction false} PlainNoPairs(s: string)
    requires forall i :: 0 <= i < |s| ==> s[i] != Esc
    ensures CollapseEscPairs(s) == s
    decreases |s|
  {
    if s != [] {
      PlainNoPairs(s[1..]);
    }
  }

  /** A face takes room: text too wide without a face is too wide with one. */
  lemma FaceNarrows(text: string, env: Env, face: string)
    requires TooWide(text, env.(faceName := []))
    ensures TooWide(text, env.(faceName := face))
  {
  }

  /** Words each followed by one space, as the layout appends them. */
  function Spaced(words: seq<string>): string {
    if words == [] then [] else (words[0] + " ") + Spaced(words[1..])
  }

  /** Nothing is too wide in this window. */
  ghost predicate AllFits(env: Env) {
    forall t :: !TooWide(t, env)
  }

  /**
   * When everything fits and no word holds a `[line]` marker, the words go
   * onto the current line, each followed by one space, and no line is added.
   */
  lemma {:induction false} FitsOnOneLine(front: seq<string>, l: string, cc: string, words: seq<string>, env: Env)
    requires AllFits(env)
    requires forall i :: 0 <= i < |words| ==> !HasMarker(words[i])
    ensures PlaceWords(Layout(front + [l], cc), words, env).lines == front + [l + Spaced(words)]
    decreases |words|
  {
    if words == [] {
      assert l + Spaced(words) == l;
    } else {
      var w := words[0];
      var cc1 := ColorAfter(w, cc);
      assert !TooWide(Last(front + [l]) + w, env);
      assert PlaceWord(Layout(front + [l], cc), w, env) == Layout(front + [l + (w + " ")], cc1) by {
        assert AppendToLast(front + [l], w + " ") == front + [l + (w + " ")];
      }
      FitsOnOneLine(front, l + (w + " "), cc1, words[1..], env);
      AppendAssoc(l, w + " ", Spaced(words[1..]));
    }
  }

  /** The lines a word forces: one for each piece after the first between its `[line]` markers. */
  function ForcedBreaks(w: string): nat {
    if HasMarker(w) && SplitOnMarker(w) != [] then |SplitOnMarker(w)| - 1 else 0
  }

  function TotalForcedBreaks(words: seq<string>): nat {
    if words == [] then 0 else ForcedBreaks(words[0]) + TotalForcedBreaks(words[1..])
  }

  /** With every piece after the first forced down, the pieces of a word take |segs| - 1 new lines. */
  lemma {:induction false} SegmentLines(st: Layout, segs: seq<string>, started: bool, env: Env)
    requires st.lines != [] && AllFits(env) && env.nameLine.None?
    ensures |PlaceSegments(st, segs, started, env).lines| ==
            |st.lines| + (if segs == [] then 0 else if started then |segs| else |segs| - 1)
    decreases |segs|
  {
    if segs != [] {
      assert !TooWide(Last(st.lines) + segs[0], env);
      SegmentLines(PlacePiece(st, segs[0], started, env), segs[1..], true, env);
    }
  }

  /**
   * When everything fits and names go in the name box, the layout has one
   * line more than it started with for every forced break: each piece after
   * a `[line]` marker begins a line, and nothing else does.
   */
  lemma {:induction false} LineCount(st: Layout, words: seq<string>, env: Env)
    requires st.lines != [] && AllFits(env) && env.nameLine.None?
    ensures |PlaceWords(st, words, env).lines| == |st.lines| + TotalForcedBreaks(words)
    decreases |words|
  {
    if words != [] {
      var w := words[0];
      var st1 := st.(cc := ColorAfter(w, st.cc));
      if HasMarker(w) {
        SegmentLines(st1, SplitOnMarker(w), false, env);
      } else {
        assert !TooWide(Last(st1.lines) + w, env);
      }
      LineCount(PlaceWord(st, w, env), words[1..], env);
    }
  }

  /** Adding to the last line adds to the text of all lines. */
  lemma ConcatAppendToLast(lines: seq<string>, piece: string)
    requires lines != []
    ensures Concat(AppendToLast(lines, piece)) == Concat(lines) + piece
  {
    var front := lines[..|lines| - 1];
    assert lines == front + [Last(lines)];
    ConcatAppend(front, [Last(lines)]);
    ConcatAppend(front, [Last(lines) + piece]);
    AppendAssoc(Concat(front), Last(lines), piece);
  }

  /**
   * In a layout without colour codes or markers, and with names in the name
   * box, the lines together hold exactly the words, each followed by a space,
   * however they are broken.
   */
  lemma {:induction false} LayoutKeepsWords(lines: seq<string>, words: seq<string>, env: Env)
    requires lines != [] && env.nameLine.None?
    requires forall i :: 0 <= i < |words| ==> !HasMarker(words[i]) && GetColor(words[i]).None?
    ensures Concat(PlaceWords(Layout(lines, ""), words, env).lines) == Concat(lines) + Spaced(words)
    decreases |words|
  {
    if words == [] {
      assert Concat(lines) + Spaced(words) == Concat(lines);
    } else {
      var w := words[0];
      var grown := if TooWide(Last(lines) + w, env) then AddLine(lines, "", None) else lines;
      assert Concat(grown) == Concat(lines) by {
        if grown != lines {
          ConcatAppend(lines, [""]);
        }
      }
      ConcatAppendToLast(grown, w + " ");
      LayoutKeepsWords(AppendToLast(grown, w + " "), words[1..], env);
      AppendAssoc(Concat(lines), w + " ", Spaced(words[1..]));
    }
  }

  /** The words with the spaces after them removed. */
  lemma {:induction false} SpacedWithoutSpace(words: seq<string>)
    requires forall i :: 0 <= i < |words| ==> NoSpace(words[i])
    ensures WithoutSpace(Spaced(words)) == Concat(words)
    decreases |words|
  {
    if words != [] {
      var w, rest := words[0], words[1..];
      assert NoSpace(w);
      SpacedWithoutSpace(rest);
      calc {
        WithoutSpace(Spaced(words));
        WithoutSpace((w + " ") + Spaced(rest));
        { WithoutSpaceAppend(w + " ", Spaced(rest)); }
        WithoutSpace(w + " ") + WithoutSpace(Spaced(rest));
        { WithoutSpaceAppend(w, " "); WithoutSpaceOfNoSpace(w); assert WithoutSpace(" ") == []; }
        w + Concat(rest);
      }
    }
  }

  /**
   * For a one-line body with no escape codes and no `[line]` markers, shown
   * with its name in the name box, the non-blank characters of the displayed
   * lines are exactly those of the body: wrapping loses and adds nothing.
   */
  lemma LayoutKeepsText(rec: Record, measure: string -> nat, width: int, gameFace: string)
    requires forall i :: 0 <= i < |rec.body| ==> rec.body[i] != '\n' && rec.body[i] != '\r'
    requires forall w :: w in SplitOnSpace(rec.body) ==> !HasMarker(w) && GetColor(w).None?
    ensures Lay(rec, true, Box, measure, width, gameFace).Ok?
    ensures WithoutSpace(Concat(Lay(rec, true, Box, measure, width, gameFace).value.lines)) == WithoutSpace(rec.body)
  {
    NoBreaksUnchanged(rec.body);
    var words := SplitOnSpace(rec.body);
    var env := Env(measure, width, FaceFile(rec, gameFace), None);
    var laid := PlaceWords(Layout([""], ""), words, env);
    assert Lay(rec, true, Box, measure, width, gameFace).value.lines == laid.lines;
    WordsKeepText(rec.body, words, env);
  }

  lemma WordsKeepText(body: string, words: seq<string>, env: Env)
    requires words == SplitOnSpace(body) && env.nameLine.None?
    requires forall w :: w in words ==> !HasMarker(w) && GetColor(w).None?
    ensures WithoutSpace(Concat(PlaceWords(Layout([""], ""), words, env).lines)) == WithoutSpace(body)
  {
    assert forall i :: 0 <= i < |words| ==> words[i] in words;
    LayoutKeepsWords([""], words, env);
    assert Concat([""]) == [];
    assert [] + Spaced(words) == Spaced(words);
    SpacedWithoutSpace(words);
    SplitOnSpaceKeepsText(body);
  }

  /** `after` keeps every line of `before` but its last, and has at least as many lines. */
  predicate EarlierLinesOf(before: seq<string>, after: seq<string>) {
    before != [] && |before| <= |after| && after[..|before| - 1] == before[..|before| - 1]
  }

  lemma EarlierLinesTrans(a: seq<string>, b: seq<string>, c: seq<string>)
    requires EarlierLinesOf(a, b) && EarlierLinesOf(b, c)
    ensures EarlierLinesOf(a, c)
  {
    assert c[..|a| - 1] == c[..|b| - 1][..|a| - 1];
    assert b[..|a| - 1] == b[..|b| - 1][..|a| - 1];
  }

  /** Only the last line is ever written to: the lines before it are kept as they are. */
  lemma {:induction false} EarlierLinesKept(st: Layout, words: seq<string>, env: Env)
    requires st.lines != []
    ensures EarlierLinesOf(st.lines, PlaceWords(st, words, env).lines)
    decreases |words|
  {
    if words != [] {
      var st1 := PlaceWord(st, words[0], env);
      WordKeepsEarlierLines(st, words[0], env);
      EarlierLinesKept(st1, words[1..], env);
      EarlierLinesTrans(st.lines, st1.lines, PlaceWords(st1, words[1..], env).lines);
    }
  }

  lemma WordKeepsEarlierLines(st: Layout, w: string, env: Env)
    requires st.lines != []
    ensures EarlierLinesOf(st.lines, PlaceWord(st, w, env).lines)
  {
    var st1 := st.(cc := ColorAfter(w, st.cc));
    if HasMarker(w) {
      SegmentsKeepEarlierLines(st1, SplitOnMarker(w), false, env);
    } else {
      PieceKeepsEarlierLines(st1, w, false, env);
    }
  }

  lemma {:induction false} SegmentsKeepEarlierLines(st: Layout, segs: seq<string>, started: bool, env: Env)
    requires st.lines != []
    ensures EarlierLinesOf(st.lines, PlaceSegments(st, segs, started, env).lines)
    decreases |segs|
  {
    if segs != [] {
      var st1 := PlacePiece(st, segs[0], started, env);
      PieceKeepsEarlierLines(st, segs[0], started, env);
      SegmentsKeepEarlierLines(st1, segs[1..], true, env);
      EarlierLinesTrans(st.lines, st1.lines, PlaceSegments(st1, segs[1..], true, env).lines);
    }
  }

  lemma PieceKeepsEarlierLines(st: Layout, v: string, forced: bool, env: Env)
    requires st.lines != []
    ensures EarlierLinesOf(st.lines, PlacePiece(st, v, forced, env).lines)
  {
    var grown := if forced || TooWide(Last(st.lines) + v, env) then AddLine(st.lines, st.cc, env.nameLine) else st.lines;
    assert grown[..|st.lines|] == st.lines;
    var r := AppendToLast(grown, v + " ");
    assert r[..|grown| - 1] == grown[..|grown| - 1];
    assert r[..|st.lines| - 1] == r[..|grown| - 1][..|st.lines| - 1];
    assert st.lines[..|st.lines| - 1] == grown[..|st.lines|][..|st.lines| - 1];
  }

  // ---------------------------------------------------------------------------
  // Wrapping
  // ---------------------------------------------------------------------------

  /**
   * A line as `load_text` leaves it: the name line; a fresh line not yet
   * written to; a fresh line holding a single piece and its space (the one
   * case that may be too wide); or a line that fits the window once its
   * trailing space is left off.
   */
  ghost predicate WellPlaced(l: string, env: Env) {
    env.nameLine == Some(l) || Seed(l) || LonePiece(l) || (l != [] && !TooWide(l[..|l| - 1], env))
  }

  /** A seed, then one piece without whitespace, then a space. */
  ghost predicate LonePiece(l: string) {
    exists s, v :: Seed(s) && NoSpace(v) && l == s + v + " "
  }

  /** Every line from `from` on is well placed. */
  ghost predicate PlacedFrom(lines: seq<string>, from: nat, env: Env) {
    forall j :: from <= j < |lines| ==> WellPlaced(lines[j], env)
  }

  /**
   * A piece goes on the line it fits on, or on a fresh line of its own: the
   * line it was added to is well placed, and so is any line added for it.
   */
  lemma PiecePlaced(st: Layout, v: string, forced: bool, env: Env)
    requires st.lines != [] && Seed(st.cc) && NoSpace(v) && WellPlaced(Last(st.lines), env)
    ensures PlacedFrom(PlacePiece(st, v, forced, env).lines, |st.lines| - 1, env)
  {
    var r := PlacePiece(st, v, forced, env).lines;
    if |r| == |st.lines| {
      var l := Last(r);
      assert l[..|l| - 1] == Last(st.lines) + v;
    } else {
      var grown := AddLine(st.lines, st.cc, env.nameLine);
      assert r == AppendToLast(grown, v + " ");
      forall j | |st.lines| - 1 <= j < |r| ensures WellPlaced(r[j], env) {
        if j == |r| - 1 {
          var seed := if Last(r) == v + " " then "" else st.cc;
          assert Seed(seed) && Last(r) == seed + v + " ";
        } else if j == |st.lines| - 1 {
          assert r[j] == grown[j] == st.lines[j];
        } else {
          assert r[j] == grown[j] && env.nameLine == Some(grown[j]);
        }
      }
    }
  }

  /** Lines well placed before a step and still there after it stay well placed. */
  lemma PlacedJoin(a: seq<string>, b: seq<string>, from: nat, env: Env)
    requires from < |a| && PlacedFrom(a, from, env) && EarlierLinesOf(a, b) && PlacedFrom(b, |a| - 1, env)
    ensures PlacedFrom(b, from, env)
  {
    forall j | from <= j < |a| - 1 ensures WellPlaced(b[j], env) {
      assert b[j] == b[..|a| - 1][j] == a[..|a| - 1][j] == a[j];
    }
  }

  lemma {:induction false} SegmentsPlaced(st: Layout, segs: seq<string>, started: bool, env: Env)
    requires st.lines != [] && Seed(st.cc) && WellPlaced(Last(st.lines), env)
    requires forall i :: 0 <= i < |segs| ==> NoSpace(segs[i])
    ensures PlacedFrom(PlaceSegments(st, segs, started, env).lines, |st.lines| - 1, env)
    decreases |segs|
  {
    if segs == [] {
    } else {
      var st1 := PlacePiece(st, segs[0], started, env);
      PiecePlaced(st, segs[0], started, env);
      SegmentsPlaced(st1, segs[1..], true, env);
      SegmentsKeepEarlierLines(st1, segs[1..], true, env);
      PlacedJoin(st1.lines, PlaceSegments(st1, segs[1..], true, env).lines, |st.lines| - 1, env);
    }
  }

  lemma WordPlaced(st: Layout, w: string, env: Env)
    requires st.lines != [] && Seed(st.cc) && NoSpace(w) && WellPlaced(Last(st.lines), env)
    ensures PlacedFrom(PlaceWord(st, w, env).lines, |st.lines| - 1, env)
  {
    var st1 := st.(cc := ColorAfter(w, st.cc));
    if HasMarker(w) {
      SplitOnMarkerNoSpace(w);
      SegmentsPlaced(st1, SplitOnMarker(w), false, env);
    } else {
      PiecePlaced(st1, w, false, env);
    }
  }

  /**
   * The wrap promise of `load_text`: from the line it starts on, every line
   * is the name line, a fresh line, a line that fits the window, or a fresh
   * line holding one piece too wide to fit anywhere. A piece that would make
   * a line too wide is never added to it.
   */
  lemma {:induction false} WordsPlaced(st: Layout, words: seq<string>, env: Env)
    requires st.lines != [] && Seed(st.cc) && WellPlaced(Last(st.lines), env)
    requires forall i :: 0 <= i < |words| ==> NoSpace(words[i])
    ensures PlacedFrom(PlaceWords(st, words, env).lines, |st.lines| - 1, env)
    decreases |words|
  {
    if words == [] {
    } else {
      var st1 := PlaceWord(st, words[0], env);
      WordPlaced(st, words[0], env);
      WordsPlaced(st1, words[1..], env);
      EarlierLinesKept(st1, words[1..], env);
      PlacedJoin(st1.lines, PlaceWords(st1, words[1..], env).lines, |st.lines| - 1, env);
    }
  }

  /**
   * Every line of a laid-out message is well placed, for any font measure
   * and window width: only a lone piece on a fresh line can be too wide.
   */
  lemma LaidOutPlaced(rec: Record, name: bool, style: NameStyle, measure: string -> nat, width: int, gameFace: string)
    ensures var env := Env(measure, width, FaceFile(rec, gameFace), if style == TextStyle then MessageName(rec, name, style) else None);
            Lay(rec, name, style, measure, width, gameFace).Ok? ==>
              PlacedFrom(Lay(rec, name, style, measure, width, gameFace).value.lines, 0, env)
  {
    var env := Env(measure, width, FaceFile(rec, gameFace), if style == TextStyle then MessageName(rec, name, style) else None);
    var start := Start(rec, name, style);
    if start.Ok? {
      var lines := start.value.0;
      StartPlaced(rec, name, style, env);
      var words := SplitOnSpace(MarkLineBreaks(rec.body));
      var laid := PlaceWords(Layout(lines, ""), words, env);
      assert env.nameLine == start.value.1;
      assert Lay(rec, name, style, measure, width, gameFace).value.lines == laid.lines;
      StartedPlaced(lines, words, env);
    }
  }

  /** The lines `load_text` starts from are well placed, and the last is blank. */
  lemma StartPlaced(rec: Record, name: bool, style: NameStyle, env: Env)
    requires Start(rec, name, style).Ok?
    requires env.nameLine == (if style == TextStyle then MessageName(rec, name, style) else None)
    ensures PlacedFrom(Start(rec, name, style).value.0, 0, env) && Last(Start(rec, name, style).value.0) == ""
  {
    assert Seed("");
  }

  lemma StartedPlaced(lines: seq<string>, words: seq<string>, env: Env)
    requires lines != [] && PlacedFrom(lines, 0, env)
    requires forall i :: 0 <= i < |words| ==> NoSpace(words[i])
    ensures PlacedFrom(PlaceWords(Layout(lines, ""), words, env).lines, 0, env)
  {
    assert Seed("");
    WordsPlaced(Layout(lines, ""), words, env);
    EarlierLinesKept(Layout(lines, ""), words, env);
    PlacedJoin(lines, PlaceWords(Layout(lines, ""), words, env).lines, 0, env);
  }
}
