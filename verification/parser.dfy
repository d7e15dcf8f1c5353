/**
 * Building the text table from tag files (`DataManager.create_text`).
 *
 * Every file is read line by line (each line keeps its "\n"). Blank and
 * comment lines are skipped; a line matching a tag runs that tag's handler on
 * the record of the current key; any other line is appended to the body of
 * the current key's record. The table keeps its keys in insertion order, as
 * a Ruby hash does.
 */
module Parser {
  import opened Wrappers
  import opened RubyString
  import opened Tags

  /** Face file, face index, actor face, party face and speaker name of a message. */
  datatype FaceInfo = FaceInfo(file: string, index: nat, actor: Option<nat>, party: Option<nat>, name: string)

  /** The record stored for a key: face and name, message body, then position and background. */
  datatype Record = Record(face: FaceInfo, body: string, position: nat, background: nat)

  /** The record a `[Key]` line stores: no face, empty body, bottom position, normal background. */
  const FreshRecord: Record := Record(FaceInfo("", 0, None, None, ""), "", 2, 0)

  /** The configured `Faces` table: a speaker name to its face file and index. */
  type FaceTable = map<string, (string, nat)>

  /** Why loading stops. */
  datatype Failure =
    | NoCursor              // a tag other than `[Key]` before any key
    | StaleCursor(key: string)  // the current key has no record (the table was cleared)
    | UnknownFace(name: string) // `[DFace]` or `[FName]` with a name `Faces` lacks

  /** A table of records whose keys are listed in insertion order. */
  datatype Table = Table(keys: seq<string>, records: map<string, Record>)

  const EmptyTable: Table := Table([], map[])

  /** The key list holds each key of the map exactly once. */
  predicate WellFormed(t: Table) {
    (forall k :: k in t.records ==> k in t.keys) &&
    (forall i :: 0 <= i < |t.keys| ==> t.keys[i] in t.records) &&
    (forall i, j :: 0 <= i < j < |t.keys| ==> t.keys[i] != t.keys[j])
  }

  /**
   * Hash assignment: a new key goes to the end of the order, an existing key
   * keeps its place and gets the new record.
   */
  function Put(t: Table, k: string, r: Record): (u: Table)
    ensures u.records == t.records[k := r]
    ensures WellFormed(t) ==> WellFormed(u)
    ensures k in t.records ==> u.keys == t.keys
    ensures k !in t.records ==> u.keys == t.keys + [k]
  {
    if k in t.records then Table(t.keys, t.records[k := r])
    else Table(t.keys + [k], t.records[k := r])
  }

  /** The loader's state: the table and the key cursor. */
  datatype State = State(table: Table, cursor: Option<string>)

  /** The record the cursor points at, or why there is none. */
  function Current(s: State): (r: Result<Record, Failure>)
    ensures r.Ok? <==> s.cursor.Some? && s.cursor.value in s.table.records
    ensures r.Ok? ==> r.value == s.table.records[s.cursor.value]
    ensures r == Err(NoCursor) <==> s.cursor.None?
  {
    match s.cursor
    case None => Err(NoCursor)
    case Some(k) => if k in s.table.records then Ok(s.table.records[k]) else Err(StaleCursor(k))
  }

  /** The handler of a tag other than `[Key]`, applied to the current record. */
  function ApplyTag(rec: Record, t: Tag, faces: FaceTable): (r: Result<Record, Failure>)
    requires !t.Key?
    ensures r.Ok? ==> r.value.body == rec.body
    ensures r.Err? <==> (t.DFace? || t.FName?) && t.name !in faces
    ensures r.Err? ==> r.error == UnknownFace(t.name)
  {
    match t
    case Face(file, index) => Ok(rec.(face := rec.face.(file := file, index := index)))
    case AFace(actor) => Ok(rec.(face := rec.face.(actor := Some(actor))))
    case PFace(member) => Ok(rec.(face := rec.face.(party := Some(member))))
    case DFace(name) =>
      if name in faces then Ok(rec.(face := rec.face.(file := faces[name].0, index := faces[name].1)))
      else Err(UnknownFace(name))
    case Name(name) => Ok(rec.(face := rec.face.(name := name)))
    case FName(name) =>
      if name in faces then Ok(rec.(face := rec.face.(name := name, file := faces[name].0, index := faces[name].1)))
      else Err(UnknownFace(name))
    case Position(position) => Ok(rec.(position := position))
    case Background(background) => Ok(rec.(background := background))
  }

  /** A body line joins the body it follows with a "\n" of its own. */
  function AppendLine(body: string, line: string): string {
    if body == [] then line else body + ("\n" + line)
  }

  /** A tag line other than `[Key]`: its handler edits the current record. */
  function TagStep(s: State, t: Tag, faces: FaceTable): (r: Result<State, Failure>)
    requires !t.Key?
    ensures r.Ok? <==> Current(s).Ok? && ApplyTag(Current(s).value, t, faces).Ok?
    ensures r.Ok? ==> r.value.cursor == s.cursor && r.value.table.keys == s.table.keys &&
                      r.value.table.records.Keys == s.table.records.Keys
  {
    match Current(s)
    case Err(e) => Err(e)
    case Ok(rec) =>
      match ApplyTag(rec, t, faces)
      case Err(e) => Err(e)
      case Ok(rec') => Ok(s.(table := Put(s.table, s.cursor.value, rec')))
  }

  /** A line that is neither skipped nor a tag: appended to the current body, if there is a key. */
  function BodyStep(s: State, line: string): (r: Result<State, Failure>)
    ensures r.Err? <==> s.cursor.Some? && s.cursor.value !in s.table.records
    ensures r.Ok? ==> r.value.cursor == s.cursor && r.value.table.keys == s.table.keys &&
                      r.value.table.records.Keys == s.table.records.Keys
  {
    if s.cursor.None? then Ok(s)
    else
      match Current(s)
      case Err(e) => Err(e)
      case Ok(rec) => Ok(s.(table := Put(s.table, s.cursor.value, rec.(body := AppendLine(rec.body, line)))))
  }

  /** One line of a text file. */
  function Step(s: State, line: string, faces: FaceTable): (r: Result<State, Failure>)
    ensures r.Ok? && WellFormed(s.table) ==> WellFormed(r.value.table)
  {
    if IsSkipped(line) then Ok(s)
    else match ParseTag(line)
      case Some(Key(k)) => Ok(State(Put(s.table, k, FreshRecord), Some(k)))
      case Some(t) => TagStep(s, t, faces)
      case None => BodyStep(s, line)
  }

  /** Continue from an outcome with more lines. */
  function Then(r: Result<State, Failure>, lines: seq<string>, faces: FaceTable): Result<State, Failure> {
    match r
    case Err(e) => Err(e)
    case Ok(s) => ParseLines(s, lines, faces)
  }

  /** The lines of one file, in order; the first failure stops loading. */
  function ParseLines(s: State, lines: seq<string>, faces: FaceTable): (r: Result<State, Failure>)
    ensures r.Ok? && WellFormed(s.table) ==> WellFormed(r.value.table)
    decreases |lines|
  {
    if lines == [] then Ok(s)
    else
      match Step(s, lines[0], faces)
      case Err(e) => Err(e)
      case Ok(s1) => ParseLines(s1, lines[1..], faces)
  }

  /** The files in the order they are visited; the cursor carries over from file to file. */
  function ParseFiles(s: State, files: seq<string>, faces: FaceTable): (r: Result<State, Failure>)
    ensures r.Ok? && WellFormed(s.table) ==> WellFormed(r.value.table)
    decreases |files|
  {
    if files == [] then Ok(s)
    else
      match ParseLines(s, ReadLines(files[0]), faces)
      case Err(e) => Err(e)
      case Ok(s1) => ParseFiles(s1, files[1..], faces)
  }

  /** All lines of all files, in order. */
  function AllLines(files: seq<string>): seq<string> {
    if files == [] then [] else ReadLines(files[0]) + AllLines(files[1..])
  }

  /** The method's failure and final state agree with the outcome `r`. */
  predicate Reached(r: Result<State, Failure>, s: State, failure: Option<Failure>) {
    match r
    case Ok(s1) => failure.None? && s == s1
    case Err(e) => failure == Some(e)
  }

  /** The text table of `create_text` and the key cursor its tag handlers share. */
  class TextStore {
    var keys: seq<string>
    var records: map<string, Record>
    var cursor: Option<string>

    function Snapshot(): State
      reads this
    {
      State(Table(keys, records), cursor)
    }

    constructor()
      ensures Snapshot() == State(EmptyTable, None)
    {
      keys := [];
      records := map[];
      cursor := None;
    }

    /** Empty the table; the cursor is left as it was. */
    method Clear()
      modifies this
      ensures Snapshot() == State(EmptyTable, old(cursor))
    {
      keys := [];
      records := map[];
    }

    /** Hash assignment into the table. */
    method Store(k: string, r: Record)
      modifies this
      ensures Snapshot() == old(Snapshot()).(table := Put(old(Snapshot()).table, k, r))
    {
      if k !in records {
        keys := keys + [k];
      }
      records := records[k := r];
    }

    /** One line: skip it, run its tag's handler, or append it to the current body. */
    method ReadLine(line: string, faces: FaceTable) returns (failure: Option<Failure>)
      modifies this
      ensures Reached(Step(old(Snapshot()), line, faces), Snapshot(), failure)
    {
      failure := None;
      if IsSkipped(line) {
        return;
      }
      var tag := ParseTag(line);
      match tag {
        case Some(Key(k)) =>
          Store(k, FreshRecord);
          cursor := Some(k);
        case Some(t) =>
          failure := RunHandler(t, faces);
        case None =>
          failure := AppendBody(line);
      }
    }

    /** The handler of a tag other than `[Key]`, run on the current key's record. */
    method RunHandler(t: Tag, faces: FaceTable) returns (failure: Option<Failure>)
      requires !t.Key?
      modifies this
      ensures Reached(TagStep(old(Snapshot()), t, faces), Snapshot(), failure)
    {
      if cursor.None? {
        return Some(NoCursor);
      }
      var k := cursor.value;
      if k !in records {
        return Some(StaleCursor(k));
      }
      var updated := ApplyTag(records[k], t, faces);
      match updated {
        case Err(e) => return Some(e);
        case Ok(rec) =>
          Store(k, rec);
          return None;
      }
    }

    /** A text line goes to the end of the current key's body; with no key it is dropped. */
    method AppendBody(line: string) returns (failure: Option<Failure>)
      modifies this
      ensures Reached(BodyStep(old(Snapshot()), line), Snapshot(), failure)
    {
      if cursor.None? {
        return None;
      }
      var k := cursor.value;
      if k !in records {
        return Some(StaleCursor(k));
      }
      var rec := records[k];
      Store(k, rec.(body := AppendLine(rec.body, line)));
      return None;
    }

    /** The lines of one file, stopping at the first failure. */
    method ReadFile(text: string, faces: FaceTable) returns (failure: Option<Failure>)
      modifies this
      ensures Reached(ParseLines(old(Snapshot()), ReadLines(text), faces), Snapshot(), failure)
    {
      var lines := ReadLines(text);
      var i := 0;
      while i < |lines|
        invariant 0 <= i <= |lines|
        invariant ParseLines(old(Snapshot()), lines, faces) == ParseLines(Snapshot(), lines[i..], faces)
      {
        assert lines[i..][1..] == lines[i + 1..];
        failure := ReadLine(lines[i], faces);
        if failure.Some? {
          return;
        }
        i := i + 1;
      }
      failure := None;
    }

    /** `create_text`: a fresh table filled from every file in turn. */
    method CreateText(files: seq<string>, faces: FaceTable) returns (failure: Option<Failure>)
      modifies this
      ensures Reached(ParseFiles(State(EmptyTable, old(cursor)), files, faces), Snapshot(), failure)
    {
      Clear();
      var i := 0;
      while i < |files|
        invariant 0 <= i <= |files|
        invariant ParseFiles(State(EmptyTable, old(cursor)), files, faces) == ParseFiles(Snapshot(), files[i..], faces)
      {
        assert files[i..][1..] == files[i + 1..];
        failure := ReadFile(files[i], faces);
        if failure.Some? {
          return;
        }
        i := i + 1;
      }
      failure := None;
    }
  }

  // ---------------------------------------------------------------------------
  // Properties
  // ---------------------------------------------------------------------------

  /** Feeding `a + b` is feeding `a`, then `b` from wherever `a` left off. */
  lemma {:induction false} ParseLinesAppend(s: State, a: seq<string>, b: seq<string>, faces: FaceTable)
    ensures ParseLines(s, a + b, faces) == Then(ParseLines(s, a, faces), b, faces)
    decreases |a|
  {
    if a == [] {
      assert a + b == b;
    } else {
      assert (a + b)[0] == a[0] && (a + b)[1..] == a[1..] + b;
      match Step(s, a[0], faces)
      case Err(e) =>
      case Ok(s1) => ParseLinesAppend(s1, a[1..], b, faces);
    }
  }

  /**
   * Reading several files is reading all their lines as one stream: nothing
   * is reset at a file boundary, so the cursor of one file carries into the next.
   */
  lemma {:induction false} ParseFilesIsOneStream(s: State, files: seq<string>, faces: FaceTable)
    ensures ParseFiles(s, files, faces) == ParseLines(s, AllLines(files), faces)
    decreases |files|
  {
    if files != [] {
      ParseLinesAppend(s, ReadLines(files[0]), AllLines(files[1..]), faces);
      match ParseLines(s, ReadLines(files[0]), faces)
      case Err(e) =>
      case Ok(s1) => ParseFilesIsOneStream(s1, files[1..], faces);
    }
  }

  /** A blank or comment line, wherever it stands, makes no difference. */
  lemma SkippedLineIgnored(s: State, a: seq<string>, line: string, b: seq<string>, faces: FaceTable)
    requires IsSkipped(line)
    ensures ParseLines(s, a + [line] + b, faces) == ParseLines(s, a + b, faces)
  {
    assert a + [line] + b == a + ([line] + b);
    ParseLinesAppend(s, a, [line] + b, faces);
    ParseLinesAppend(s, a, b, faces);
    match ParseLines(s, a, faces)
    case Err(e) =>
    case Ok(s1) =>
      assert ([line] + b)[0] == line && ([line] + b)[1..] == b;
  }

  /**
   * A `[Key]` line stores a fresh record under its key (a key seen before
   * keeps its place in the order but loses its old record) and makes it the
   * current key.
   */
  lemma KeyLineStep(s: State, line: string, k: string, faces: FaceTable)
    requires ParseTag(line) == Some(Key(k))
    ensures Step(s, line, faces) == Ok(State(Put(s.table, k, FreshRecord), Some(k)))
  {
    TagLineNotSkipped(line);
  }

  /**
   * The handler of any other tag edits only the current record's face, name
   * or options: every body, the key order and the cursor stay as they were.
   */
  lemma TagLineKeepsBodies(s: State, line: string, t: Tag, faces: FaceTable)
    requires WellFormed(s.table) && ParseTag(line) == Some(t) && !t.Key?
    requires Step(s, line, faces).Ok?
    ensures Step(s, line, faces).value.table.keys == s.table.keys
    ensures Step(s, line, faces).value.cursor == s.cursor
    ensures forall k :: k in s.table.records ==>
              k in Step(s, line, faces).value.table.records &&
              Step(s, line, faces).value.table.records[k].body == s.table.records[k].body
  {
    TagLineNotSkipped(line);
    assert Step(s, line, faces) == TagStep(s, t, faces);
  }

  /** A line that is neither skipped nor a tag. */
  predicate IsBodyLine(line: string) {
    !IsSkipped(line) && ParseTag(line).None?
  }

  /** Body lines joined with "\n" (each line still ends with its own "\n"). */
  function Joined(lines: seq<string>): (body: string)
    ensures |lines| == 1 ==> body == lines[0]
    ensures |lines| >= 2 ==> body != []
  {
    if lines == [] then []
    else if |lines| == 1 then lines[0]
    else Joined(lines[..|lines| - 1]) + ("\n" + lines[|lines| - 1])
  }

  /** Storing twice under one key is storing the second record. */
  lemma PutTwice(t: Table, k: string, r1: Record, r2: Record)
    ensures Put(Put(t, k, r1), k, r2) == Put(t, k, r2)
  {
  }

  /**
   * A `[Key]` line followed by text lines stores, under that key, a fresh
   * record whose body is those lines joined with "\n".
   */
  lemma {:induction false} MessageBody(s: State, keyLine: string, k: string, lines: seq<string>, faces: FaceTable)
    requires ParseTag(keyLine) == Some(Key(k))
    requires forall i :: 0 <= i < |lines| ==> IsBodyLine(lines[i])
    ensures ParseLines(s, [keyLine] + lines, faces) ==
            Ok(State(Put(s.table, k, FreshRecord.(body := Joined(lines))), Some(k)))
    decreases |lines|
  {
    KeyLineStep(s, keyLine, k, faces);
    if lines == [] {
      assert [keyLine] + lines == [keyLine];
      assert ParseLines(s, [keyLine], faces) == ParseLines(State(Put(s.table, k, FreshRecord), Some(k)), [], faces);
      assert FreshRecord.(body := Joined(lines)) == FreshRecord;
    } else {
      var n := |lines| - 1;
      var front := lines[..n];
      var line := lines[n];
      assert [keyLine] + lines == [keyLine] + front + [line];
      assert front + [line] == lines;
      MessageBody(s, keyLine, k, front, faces);
      assert front == [] || Joined(front) != [] by {
        if |front| == 1 {
          assert IsBodyLine(lines[0]) && front[0] == lines[0];
          assert SkipSpace(front[0]) != [];
        }
      }
      BodyLineAfter(s, keyLine, k, front, line, faces);
    }
  }

  /** The step of `MessageBody`: one more text line is joined to the body. */
  lemma BodyLineAfter(s: State, keyLine: string, k: string, front: seq<string>, line: string, faces: FaceTable)
    requires ParseLines(s, [keyLine] + front, faces) == Ok(State(Put(s.table, k, FreshRecord.(body := Joined(front))), Some(k)))
    requires IsBodyLine(line) && (front == [] || Joined(front) != [])
    ensures ParseLines(s, [keyLine] + front + [line], faces) ==
            Ok(State(Put(s.table, k, FreshRecord.(body := Joined(front + [line]))), Some(k)))
  {
    ParseLinesAppend(s, [keyLine] + front, [line], faces);
    assert line != [] by { assert SkipSpace(line) != []; }
    JoinedStep(front, line);
    BodyLineAppends(s.table, k, FreshRecord.(body := Joined(front)), line, faces);
    PutTwice(s.table, k, FreshRecord.(body := Joined(front)), FreshRecord.(body := Joined(front + [line])));
  }

  /** One more line joins the lines before it with a "\n" of its own. */
  lemma JoinedStep(front: seq<string>, line: string)
    requires line != [] && (front == [] || Joined(front) != [])
    ensures AppendLine(Joined(front), line) == Joined(front + [line])
  {
    var lines := front + [line];
    assert lines[..|lines| - 1] == front;
  }

  /** A text line after a `[Key]` line is appended to that key's body. */
  lemma BodyLineAppends(t: Table, k: string, rec: Record, line: string, faces: FaceTable)
    requires IsBodyLine(line)
    ensures ParseLines(State(Put(t, k, rec), Some(k)), [line], faces) ==
            Ok(State(Put(Put(t, k, rec), k, rec.(body := AppendLine(rec.body, line))), Some(k)))
  {
    var s1 := State(Put(t, k, rec), Some(k));
    assert Step(s1, line, faces) == BodyStep(s1, line);
  }

  /** Text lines before the first `[Key]` (and blank or comment lines) are dropped. */
  lemma {:induction false} OrphanLinesDropped(s: State, lines: seq<string>, faces: FaceTable)
    requires s.cursor.None?
    requires forall i :: 0 <= i < |lines| ==> IsSkipped(lines[i]) || IsBodyLine(lines[i])
    ensures ParseLines(s, lines, faces) == Ok(s)
    decreases |lines|
  {
    if lines != [] {
      assert Step(s, lines[0], faces) == Ok(s);
      OrphanLinesDropped(s, lines[1..], faces);
    }
  }

  /**
   * When the current key has no record (its table was emptied), the first
   * line after any blank or comment lines fails unless it declares a key.
   */
  lemma {:induction false} StaleCursorFails(s: State, skipped: seq<string>, line: string, rest: seq<string>, faces: FaceTable)
    requires s.cursor.Some? && s.cursor.value !in s.table.records
    requires forall i :: 0 <= i < |skipped| ==> IsSkipped(skipped[i])
    requires !IsSkipped(line) && (ParseTag(line).None? || !ParseTag(line).value.Key?)
    ensures ParseLines(s, skipped + [line] + rest, faces) == Err(StaleCursor(s.cursor.value))
    decreases |skipped|
  {
    if skipped == [] {
      assert skipped + [line] + rest == [line] + rest;
      assert ([line] + rest)[1..] == rest;
    } else {
      assert (skipped + [line] + rest)[1..] == skipped[1..] + [line] + rest;
      assert Step(s, skipped[0], faces) == Ok(s);
      StaleCursorFails(s, skipped[1..], line, rest, faces);
    }
  }

  /** The key a line declares, if it is a `[Key]` line. */
  function KeyOf(line: string): set<string> {
    match ParseTag(line)
    case Some(Key(k)) => {k}
    case _ => {}
  }

  /** The keys the lines declare. */
  function Declared(lines: seq<string>): set<string> {
    if lines == [] then {} else KeyOf(lines[0]) + Declared(lines[1..])
  }

  lemma StepKeys(s: State, line: string, faces: FaceTable)
    requires Step(s, line, faces).Ok?
    ensures Step(s, line, faces).value.table.records.Keys == s.table.records.Keys + KeyOf(line)
  {
    if !IsSkipped(line) {
      match ParseTag(line)
      case Some(Key(k)) =>
      case Some(t) => assert Step(s, line, faces) == TagStep(s, t, faces);
      case None =>
    } else {
      assert ParseTag(line).Some? ==> !IsSkipped(line) by {
        if ParseTag(line).Some? { TagLineNotSkipped(line); }
      }
    }
  }

  /**
   * After loading, the table holds exactly the keys it held before plus the
   * keys the lines declare.
   */
  lemma {:induction false} KeysAreDeclared(s: State, lines: seq<string>, faces: FaceTable)
    requires ParseLines(s, lines, faces).Ok?
    ensures ParseLines(s, lines, faces).value.table.records.Keys == s.table.records.Keys + Declared(lines)
    decreases |lines|
  {
    if lines != [] {
      StepKeys(s, lines[0], faces);
      KeysAreDeclared(Step(s, lines[0], faces).value, lines[1..], faces);
    }
  }

  /** A key is declared exactly when some line is a `[Key]` line for it. */
  lemma {:induction false} DeclaredMeans(lines: seq<string>, k: string)
    ensures k in Declared(lines) <==> exists i :: 0 <= i < |lines| && ParseTag(lines[i]) == Some(Key(k))
    decreases |lines|
  {
    if lines != [] {
      DeclaredMeans(lines[1..], k);
      if k in Declared(lines[1..]) {
        var i :| 0 <= i < |lines[1..]| && ParseTag(lines[1..][i]) == Some(Key(k));
        assert ParseTag(lines[i + 1]) == Some(Key(k));
      }
      if exists i :: 0 <= i < |lines| && ParseTag(lines[i]) == Some(Key(k)) {
        var i :| 0 <= i < |lines| && ParseTag(lines[i]) == Some(Key(k));
        if i > 0 {
          assert ParseTag(lines[1..][i - 1]) == Some(Key(k));
        }
      }
    }
  }
}
