/**
 * The extractor's database text emitters (`extract_actor_text` and its eight
 * siblings): for every object of one database list, a banner comment and one
 * `[Key] <Type>_<id>_<getter>` entry per overridden getter, holding the
 * getter's value. Parsed back, each such key is the one the Database addon's
 * getter of that object looks up, and it reads the object's own value.
 */
module Emitters {
  import opened Wrappers
  import opened RubyString
  import opened Tags
  import opened Parser
  import Lookup
  import Database
  import Choices

  /** The nine database lists the extractor writes text files for. */
  datatype Kind = Actors | Armors | Classes | Enemies | Items | Maps | Skills | States | Weapons

  /** The class name after `RPG::`, which starts every key of the list. */
  function TypeName(k: Kind): (name: string)
    ensures name != [] && AllWordChars(name) && 'A' <= name[0] <= 'Z'
  {
    match k
    case Actors => "Actor"
    case Armors => "Armor"
    case Classes => "Class"
    case Enemies => "Enemy"
    case Items => "Item"
    case Maps => "Map"
    case Skills => "Skill"
    case States => "State"
    case Weapons => "Weapon"
  }

  /** The word of the banner comment: the item banner says "Items". */
  function BannerName(k: Kind): string {
    if k == Items then "Items" else TypeName(k)
  }

  /** The row of the override table that holds the list's class. */
  function OverrideRow(k: Kind): (i: nat)
    ensures i < |Database.Overrides|
  {
    match k
    case Actors => 0
    case Classes => 1
    case Skills => 2
    case Items => 3
    case Weapons => 4
    case Armors => 5
    case Enemies => 6
    case States => 7
    case Maps => 8
  }

  /** A Ruby method name as the override table lists them: a lower-case letter, then word characters. */
  predicate IsGetterName(m: string) {
    m != [] && 'a' <= m[0] <= 'z' && AllWordChars(m)
  }

  /** `Override['RPG::<Type>']`: the getters whose text the list's file holds. */
  function Getters(k: Kind): (ms: seq<string>)
    ensures forall i :: 0 <= i < |ms| ==> IsGetterName(ms[i])
  {
    Database.Overrides[OverrideRow(k)].methods
  }

  /**
   * A database object: its id and what its getters return (`a.send(m)`); a
   * getter missing from the map returns `nil`.
   */
  datatype Entity = Entity(id: nat, values: map<string, string>)

  /** `"#{a.send(m)}"`: `nil` interpolates as the empty string. */
  function Value(e: Entity, m: string): string {
    if m in e.values then e.values[m] else ""
  }

  /** The key of one getter of one object. */
  function EntryKey(k: Kind, id: nat, m: string): string {
    TypeName(k) + "_" + IntToString(id) + "_" + m
  }

  /** What every key of object `id` starts with. */
  function KeyPrefix(k: Kind, id: nat): string {
    TypeName(k) + "_" + IntToString(id) + "_"
  }

  // ---------------------------------------------------------------------------
  // The text a list becomes
  // ---------------------------------------------------------------------------

  const Rule := "#-----------------------------\n"

  /** The middle line of the banner, naming the object. */
  function BannerLine(k: Kind, id: nat): string {
    "# " + BannerName(k) + " " + IntToString(id) + "\n"
  }

  function Banner(k: Kind, id: nat): string {
    Rule + BannerLine(k, id) + Rule
  }

  /** One entry: the key line, the value line and a blank line. */
  function KeyEntry(k: Kind, id: nat, m: string, v: string): string {
    "[Key] " + EntryKey(k, id, m) + "\n" + v + "\n" + "\n"
  }

  /** The entries of the getters `ms` of one object, in order. */
  function Entries(k: Kind, e: Entity, ms: seq<string>): (text: string)
    ensures text == [] || EndsLine(text)
  {
    if ms == [] then ""
    else
      var m := ms[|ms| - 1];
      Entries(k, e, ms[..|ms| - 1]) + KeyEntry(k, e.id, m, Value(e, m))
  }

  /** One object's block: banner, entries, and a closing blank line. */
  function EntityText(k: Kind, e: Entity): (text: string)
    ensures EndsLine(text)
  {
    Banner(k, e.id) + Entries(k, e, Getters(k)) + "\n"
  }

  /** The text of one slot of a list: `next unless a` skips a `nil` slot. */
  function SlotText(k: Kind, slot: Option<Entity>): (text: string)
    ensures text == [] || EndsLine(text)
  {
    if slot.Some? then EntityText(k, slot.value) else ""
  }

  /** The file text of a list: the blocks of its objects in order. */
  function DatabaseText(k: Kind, data: seq<Option<Entity>>): (text: string)
    ensures text == [] || EndsLine(text)
  {
    if data == [] then ""
    else DatabaseText(k, data[..|data| - 1]) + SlotText(k, data[|data| - 1])
  }

  /**
   * `extract_<type>_text` up to writing the file: the text is built by
   * appending, object by object and getter by getter.
   */
  method Emit(k: Kind, data: seq<Option<Entity>>) returns (text: string)
    ensures text == DatabaseText(k, data)
  {
    text := "";
    var i := 0;
    while i < |data|
      invariant 0 <= i <= |data|
      invariant text == DatabaseText(k, data[..i])
    {
      DatabaseTextSnoc(k, data, i);
      if data[i].Some? {
        text := EmitEntity(k, data[i].value, text);
      }
      i := i + 1;
    }
    assert data[..i] == data;
  }

  /** The body of the outer loop for one object: its banner, its entries, a blank line. */
  method EmitEntity(k: Kind, e: Entity, before: string) returns (text: string)
    ensures text == before + EntityText(k, e)
  {
    text := before;
    text := text + Rule;
    text := text + BannerLine(k, e.id);
    text := text + Rule;
    ghost var head := text;
    var ms := Getters(k);
    var j := 0;
    while j < |ms|
      invariant 0 <= j <= |ms|
      invariant text == head + Entries(k, e, ms[..j])
    {
      EntriesSnoc(k, e, ms, j);
      Append3(head, Entries(k, e, ms[..j]), KeyEntry(k, e.id, ms[j], Value(e, ms[j])));
      text := text + KeyEntry(k, e.id, ms[j], Value(e, ms[j]));
      j := j + 1;
    }
    assert ms[..j] == ms;
    text := text + "\n";
    BlockAppended(k, e, before, head, text);
  }

  lemma Append3(a: string, b: string, c: string)
    ensures a + b + c == a + (b + c)
  {
  }

  lemma EntriesSnoc(k: Kind, e: Entity, ms: seq<string>, j: nat)
    requires j < |ms|
    ensures Entries(k, e, ms[..j + 1]) == Entries(k, e, ms[..j]) + KeyEntry(k, e.id, ms[j], Value(e, ms[j]))
  {
    assert ms[..j + 1][..j] == ms[..j];
  }

  lemma DatabaseTextSnoc(k: Kind, data: seq<Option<Entity>>, i: nat)
    requires i < |data|
    ensures DatabaseText(k, data[..i + 1]) == DatabaseText(k, data[..i]) + SlotText(k, data[i])
  {
    assert data[..i + 1][..i] == data[..i];
  }

  /** The banner, entries and closing line appended to the text so far make the next block. */
  lemma BlockAppended(k: Kind, e: Entity, before: string, head: string, text: string)
    requires head == before + Rule + BannerLine(k, e.id) + Rule
    requires text == head + Entries(k, e, Getters(k)) + "\n"
    ensures text == before + EntityText(k, e)
  {
    Append4(before, Rule, BannerLine(k, e.id), Rule);
    Append4(before, Banner(k, e.id), Entries(k, e, Getters(k)), "\n");
  }

  lemma Append4(a: string, b: string, c: string, d: string)
    ensures a + b + c + d == a + (b + c + d)
  {
  }

  // ---------------------------------------------------------------------------
  // Which list each emitter reads
  // ---------------------------------------------------------------------------

  /** The editor's loaded database lists, `Data_Actors` and the rest, by kind. */
  type Lists = Kind -> seq<Option<Entity>>

  /** The list each emitter reads as written: the weapon emitter reads `Data_Armors`. */
  function ListOfAsWritten(d: Lists, k: Kind): seq<Option<Entity>> {
    if k == Weapons then d(Armors) else d(k)
  }

  /** The text of the file for `k`, with the weapon file written from the armor list. */
  function FileTextAsWritten(d: Lists, k: Kind): (t: string)
    ensures k != Weapons ==> t == DatabaseText(k, d(k))
    ensures k == Weapons ==> t == DatabaseText(Weapons, d(Armors))
  {
    DatabaseText(k, ListOfAsWritten(d, k))
  }

  /** The extractor run for one list, reading the list the file is named after. */
  method ExtractText(d: Lists, k: Kind) returns (text: string)
    ensures text == DatabaseText(k, d(k))
  {
    text := Emit(k, d(k));
  }

  /**
   * The weapon file as written holds armor text under weapon keys: with no
   * weapons and one armor, it is the armor's block, where an empty file was
   * meant.
   */
  lemma WeaponFileFromArmors(d: Lists, armor: Entity)
    requires d(Weapons) == [] && d(Armors) == [Some(armor)]
    ensures FileTextAsWritten(d, Weapons) == EntityText(Weapons, armor)
    ensures DatabaseText(Weapons, d(Weapons)) == []
    ensures FileTextAsWritten(d, Weapons) != DatabaseText(Weapons, d(Weapons))
  {
    OneBlock(Weapons, d(Armors), armor);
  }

  /** A list of one object is that object's block. */
  lemma OneBlock(k: Kind, data: seq<Option<Entity>>, e: Entity)
    requires data == [Some(e)]
    ensures DatabaseText(k, data) == EntityText(k, e)
  {
    assert data[..0] == [];
    assert DatabaseText(k, data) == "" + EntityText(k, e);
  }

  /** Every other emitter reads the list it is named after. */
  lemma OtherListsAsWritten(d: Lists, k: Kind)
    requires k != Weapons
    ensures FileTextAsWritten(d, k) == DatabaseText(k, d(k))
  {
  }

  // ---------------------------------------------------------------------------
  // Keys
  // ---------------------------------------------------------------------------

  lemma AppendWordChars(a: string, b: string)
    requires AllWordChars(a) && AllWordChars(b)
    ensures AllWordChars(a + b)
  {
    assert forall i :: |a| <= i < |a + b| ==> (a + b)[i] == b[i - |a|];
  }

  /** A key is a run of word characters starting with a capital: a plain `[Key]` operand. */
  lemma KeyPlain(k: Kind, id: nat, m: string)
    requires AllWordChars(m)
    ensures EntryKey(k, id, m) != [] && !IsSpace(EntryKey(k, id, m)[0]) && NoNewline(EntryKey(k, id, m))
    ensures EntryKey(k, id, m) == KeyPrefix(k, id) + m
  {
    NatToStringValue(id);
    AppendWordChars(TypeName(k), "_");
    AppendWordChars(TypeName(k) + "_", IntToString(id));
    AppendWordChars(TypeName(k) + "_" + IntToString(id), "_");
    AppendWordChars(TypeName(k) + "_" + IntToString(id) + "_", m);
    assert EntryKey(k, id, m)[0] == TypeName(k)[0];
  }

  /**
   * The text a key line carries is the key the Database addon builds for that
   * object's getter: `"#{klass_name}_#{id}_#{getter}"` of class `RPG::<Type>`.
   */
  lemma KeyIsOverrideKey(k: Kind, id: nat, m: string)
    ensures Database.KlassName(Database.Overrides[OverrideRow(k)].klass) == TypeName(k)
    ensures EntryKey(k, id, m) == Database.OverrideKey(TypeName(k), Some(id), m)
  {
    assert Database.Overrides[OverrideRow(k)].klass == "RPG::" + TypeName(k);
    Database.RpgKlassName(TypeName(k));
  }

  /** Only keys of object `a` start with the prefix of object `a`. */
  lemma PrefixNamesId(k: Kind, a: nat, b: nat, m: string)
    requires m == [] || !IsDigit(m[0])
    ensures StartsWith(EntryKey(k, b, m), KeyPrefix(k, a)) ==> a == b
  {
    if StartsWith(EntryKey(k, b, m), KeyPrefix(k, a)) {
      NatToStringValue(a);
      NatToStringValue(b);
      PrefixDigits(TypeName(k) + "_", IntToString(a), IntToString(b), m);
    }
  }

  /** A prefix `t`, digits and "_" that starts `t`, other digits, "_" and `m` repeats those digits. */
  lemma PrefixDigits(t: string, A: string, B: string, m: string)
    requires AllDigits(A) && AllDigits(B) && (m == [] || !IsDigit(m[0]))
    requires StartsWith(t + B + "_" + m, t + A + "_")
    ensures A == B
  {
    var key := t + B + "_" + m;
    var P := t + A + "_";
    assert key == t + (B + ("_" + m));
    assert P == t + (A + "_");
    var x := key[|t|..];
    var rest := x[|A| + 1..];
    AfterPrefix(key, t, B + ("_" + m));
    PrefixedBy(key, P, t, A + "_");
    assert x == A + ("_" + rest) by {
      assert x == x[..|A| + 1] + rest;
    }
    SameDigits(A, B, "_" + rest, "_" + m);
  }

  lemma AfterPrefix(key: string, p: string, x: string)
    requires key == p + x
    ensures key[|p|..] == x
  {
  }

  lemma PrefixedBy(key: string, P: string, p: string, y: string)
    requires P == p + y && |P| <= |key| && key[..|P|] == P
    ensures key[|p|..][..|y|] == y
  {
    assert key[|p|..][..|y|] == key[..|P|][|p|..];
  }

  /** Two digit runs each followed by a non-digit, spelling the same text, are the same run. */
  lemma SameDigits(A: string, B: string, r: string, q: string)
    requires AllDigits(A) && AllDigits(B)
    requires r != [] && !IsDigit(r[0]) && q != [] && !IsDigit(q[0])
    requires A + r == B + q
    ensures A == B
  {
    DigitRunOfDigits(A, r);
    DigitRunOfDigits(B, q);
  }

  lemma PrefixCancel(p: string, x: string, y: string)
    ensures p + x == p + y ==> x == y
  {
    assert x == (p + x)[|p|..] && y == (p + y)[|p|..];
  }

  // ---------------------------------------------------------------------------
  // Parsing the text back
  // ---------------------------------------------------------------------------

  /** A value that reads back as one text line: no line break, not blank, not a comment, not a tag. */
  predicate PlainValue(v: string) {
    NoNewline(v) && IsBodyLine(v + "\n")
  }

  /** Every value the list's getters return is plain. */
  predicate PlainList(k: Kind, data: seq<Option<Entity>>) {
    forall i, m :: 0 <= i < |data| && data[i].Some? && m in Getters(k) ==> PlainValue(Value(data[i].value, m))
  }

  /** What the parser stores for a value line. */
  function Stored(v: string): Record {
    FreshRecord.(body := v + "\n")
  }

  /** The table after filing the entries of `ms`, in order. */
  function FiledEntity(t: Table, k: Kind, e: Entity, ms: seq<string>): Table {
    if ms == [] then t
    else
      var m := ms[|ms| - 1];
      Put(FiledEntity(t, k, e, ms[..|ms| - 1]), EntryKey(k, e.id, m), Stored(Value(e, m)))
  }

  /** The table after filing the blocks of a whole list. */
  function Filed(t: Table, k: Kind, data: seq<Option<Entity>>): Table {
    if data == [] then t
    else FiledSlot(Filed(t, k, data[..|data| - 1]), k, data[|data| - 1])
  }

  /** The table after filing one slot's block, if any. */
  function FiledSlot(t: Table, k: Kind, slot: Option<Entity>): Table {
    if slot.Some? then FiledEntity(t, k, slot.value, Getters(k)) else t
  }

  lemma {:induction false} SkippedLines(s: State, lines: seq<string>, faces: FaceTable)
    requires forall i :: 0 <= i < |lines| ==> IsSkipped(lines[i])
    ensures ParseLines(s, lines, faces) == Ok(s)
    decreases |lines|
  {
    if lines != [] {
      SkippedLineIgnored(s, [], lines[0], lines[1..], faces);
      assert [] + [lines[0]] + lines[1..] == lines;
      assert [] + lines[1..] == lines[1..];
      SkippedLines(s, lines[1..], faces);
    }
  }

  lemma BlankSkipped()
    ensures IsSkipped("\n")
  {
    assert SkipSpace("\n") == [];
  }

  /** An entry reads as its key line, its value line and a blank line. */
  lemma KeyEntryLines(k: Kind, id: nat, m: string, v: string)
    requires AllWordChars(m) && NoNewline(v)
    ensures ReadLines(KeyEntry(k, id, m, v)) == ["[Key] " + EntryKey(k, id, m) + "\n", v + "\n", "\n"]
    ensures ParseTag("[Key] " + EntryKey(k, id, m) + "\n") == Some(Key(EntryKey(k, id, m)))
  {
    var key := EntryKey(k, id, m);
    var keyLine := "[Key] " + key + "\n";
    KeyPlain(k, id, m);
    Choices.KeyLineIsLine(key);
    Choices.KeyLineTag(key);
    Choices.TextLine(v);
    Choices.TextLine("");
    assert KeyEntry(k, id, m, v) == keyLine + (v + "\n") + "\n" + "";
    Choices.ThreeLines(keyLine, v + "\n", "\n", "");
  }

  /** One entry files its value under its key, wherever the parser stands. */
  lemma KeyEntryParses(s: State, k: Kind, id: nat, m: string, v: string, faces: FaceTable)
    requires AllWordChars(m) && PlainValue(v)
    ensures ParseLines(s, ReadLines(KeyEntry(k, id, m, v)), faces) ==
            Ok(State(Put(s.table, EntryKey(k, id, m), Stored(v)), Some(EntryKey(k, id, m))))
  {
    var key := EntryKey(k, id, m);
    var keyLine := "[Key] " + key + "\n";
    KeyEntryLines(k, id, m, v);
    assert [keyLine, v + "\n", "\n"] == [keyLine] + [v + "\n"] + ["\n"];
    ParseLinesAppend(s, [keyLine] + [v + "\n"], ["\n"], faces);
    MessageBody(s, keyLine, key, [v + "\n"], faces);
    BlankSkipped();
    SkippedLines(State(Put(s.table, key, Stored(v)), Some(key)), ["\n"], faces);
  }

  /** Reading a text in two parts, the first ending in a line break. */
  lemma ParseTwo(s: State, a: string, b: string, faces: FaceTable)
    requires a == [] || EndsLine(a)
    ensures ParseLines(s, ReadLines(a + b), faces) == Then(ParseLines(s, ReadLines(a), faces), ReadLines(b), faces)
  {
    ReadLinesAppend(a, b);
    ParseLinesAppend(s, ReadLines(a), ReadLines(b), faces);
  }

  lemma {:induction false} EntriesParse(s: State, k: Kind, e: Entity, ms: seq<string>, faces: FaceTable)
    requires forall m :: m in ms ==> IsGetterName(m) && PlainValue(Value(e, m))
    ensures ParseLines(s, ReadLines(Entries(k, e, ms)), faces).Ok?
    ensures ParseLines(s, ReadLines(Entries(k, e, ms)), faces).value.table == FiledEntity(s.table, k, e, ms)
    decreases |ms|
  {
    if ms != [] {
      var front := ms[..|ms| - 1];
      var m := ms[|ms| - 1];
      assert forall x :: x in front ==> x in ms;
      EntriesParse(s, k, e, front, faces);
      ParseTwo(s, Entries(k, e, front), KeyEntry(k, e.id, m, Value(e, m)), faces);
      var s1 := ParseLines(s, ReadLines(Entries(k, e, front)), faces).value;
      KeyEntryParses(s1, k, e.id, m, Value(e, m), faces);
    }
  }

  /** The banner's three lines are comments, which the parser passes over. */
  lemma BannerSkipped(s: State, k: Kind, id: nat, rest: string, faces: FaceTable)
    ensures ParseLines(s, ReadLines(Banner(k, id) + rest), faces) == ParseLines(s, ReadLines(rest), faces)
  {
    var line := BannerLine(k, id);
    BannerLineIsComment(k, id);
    RuleIsComment();
    Choices.ThreeLines(Rule, line, Rule, rest);
    SkippedLines(s, [Rule, line, Rule], faces);
    ParseLinesAppend(s, [Rule, line, Rule], ReadLines(rest), faces);
  }

  lemma RuleIsComment()
    ensures IsLine(Rule) && EndsLine(Rule) && IsSkipped(Rule)
  {
    assert Rule[..1] == "#";
    assert Rule == Rule[..|Rule| - 1] + "\n";
    Choices.TextLine(Rule[..|Rule| - 1]);
  }

  lemma BannerLineIsComment(k: Kind, id: nat)
    ensures IsLine(BannerLine(k, id)) && EndsLine(BannerLine(k, id)) && IsSkipped(BannerLine(k, id))
  {
    var line := BannerLine(k, id);
    var text := "# " + BannerName(k) + " " + IntToString(id);
    assert line[..1] == "#";
    NatToStringValue(id);
    assert NoNewline(text) by {
      assert forall i :: 0 <= i < |IntToString(id)| ==> IsDigit(IntToString(id)[i]);
    }
    Choices.TextLine(text);
  }

  /** A closing blank line changes nothing. */
  lemma ClosingLine(s: State, text: string, faces: FaceTable)
    requires text == [] || EndsLine(text)
    ensures ParseLines(s, ReadLines(text + "\n"), faces) == ParseLines(s, ReadLines(text), faces)
  {
    ParseTwo(s, text, "\n", faces);
    ReadLinesOfLine("\n");
    BlankSkipped();
    var r := ParseLines(s, ReadLines(text), faces);
    if r.Ok? {
      SkippedLines(r.value, ["\n"], faces);
    }
  }

  /** One object's block files the values of all its getters. */
  lemma EntityParses(s: State, k: Kind, e: Entity, faces: FaceTable)
    requires forall m :: m in Getters(k) ==> PlainValue(Value(e, m))
    ensures ParseLines(s, ReadLines(EntityText(k, e)), faces).Ok?
    ensures ParseLines(s, ReadLines(EntityText(k, e)), faces).value.table == FiledEntity(s.table, k, e, Getters(k))
  {
    var entries := Entries(k, e, Getters(k));
    Append3(Banner(k, e.id), entries, "\n");
    BannerSkipped(s, k, e.id, entries + "\n", faces);
    ClosingLine(s, entries, faces);
    EntriesParse(s, k, e, Getters(k), faces);
  }

  lemma PlainListFront(k: Kind, data: seq<Option<Entity>>)
    requires data != [] && PlainList(k, data)
    ensures PlainList(k, data[..|data| - 1])
  {
    var front := data[..|data| - 1];
    forall i, m | 0 <= i < |front| && front[i].Some? && m in Getters(k)
      ensures PlainValue(Value(front[i].value, m))
    {
      assert front[i] == data[i];
    }
  }

  /**
   * Parsing a list's file, from any parser state, succeeds and files every
   * getter value of every object under its key.
   */
  lemma {:induction false} DatabaseTextParses(s: State, k: Kind, data: seq<Option<Entity>>, faces: FaceTable)
    requires PlainList(k, data)
    ensures ParseLines(s, ReadLines(DatabaseText(k, data)), faces).Ok?
    ensures ParseLines(s, ReadLines(DatabaseText(k, data)), faces).value.table == Filed(s.table, k, data)
    decreases |data|
  {
    if data != [] {
      var front := data[..|data| - 1];
      var last := data[|data| - 1];
      PlainListFront(k, data);
      DatabaseTextParses(s, k, front, faces);
      LastBlockParses(s, k, data, faces);
    }
  }

  /** The step of `DatabaseTextParses`: the last slot's block, if any, is filed after the others. */
  lemma LastBlockParses(s: State, k: Kind, data: seq<Option<Entity>>, faces: FaceTable)
    requires data != [] && PlainList(k, data)
    requires ParseLines(s, ReadLines(DatabaseText(k, data[..|data| - 1])), faces).Ok?
    requires ParseLines(s, ReadLines(DatabaseText(k, data[..|data| - 1])), faces).value.table == Filed(s.table, k, data[..|data| - 1])
    ensures ParseLines(s, ReadLines(DatabaseText(k, data)), faces).Ok?
    ensures ParseLines(s, ReadLines(DatabaseText(k, data)), faces).value.table == Filed(s.table, k, data)
  {
    var front := data[..|data| - 1];
    var last := data[|data| - 1];
    ParseTwo(s, DatabaseText(k, front), SlotText(k, last), faces);
    PlainLast(k, data);
    SlotParses(ParseLines(s, ReadLines(DatabaseText(k, front)), faces).value, k, last, faces);
  }

  lemma PlainLast(k: Kind, data: seq<Option<Entity>>)
    requires data != [] && PlainList(k, data)
    ensures data[|data| - 1].Some? ==> forall m :: m in Getters(k) ==> PlainValue(Value(data[|data| - 1].value, m))
  {
  }

  /** One slot's text files its object's values, or nothing for a `nil` slot. */
  lemma SlotParses(s: State, k: Kind, slot: Option<Entity>, faces: FaceTable)
    requires slot.Some? ==> forall m :: m in Getters(k) ==> PlainValue(Value(slot.value, m))
    ensures ParseLines(s, ReadLines(SlotText(k, slot)), faces).Ok?
    ensures ParseLines(s, ReadLines(SlotText(k, slot)), faces).value.table == FiledSlot(s.table, k, slot)
  {
    if slot.Some? {
      EntityParses(s, k, slot.value, faces);
    }
  }

  // ---------------------------------------------------------------------------
  // What the filed table holds
  // ---------------------------------------------------------------------------

  /** `t` holds the record `r` under `key`. */
  predicate HoldsAt(t: Table, key: string, r: Record) {
    key in t.records && t.records[key] == r
  }

  /** Each getter's key holds that getter's value. */
  lemma {:induction false} FiledEntityAt(t: Table, k: Kind, e: Entity, ms: seq<string>, m: string)
    requires m in ms
    ensures HoldsAt(FiledEntity(t, k, e, ms), EntryKey(k, e.id, m), Stored(Value(e, m)))
    decreases |ms|
  {
    var front := ms[..|ms| - 1];
    var last := ms[|ms| - 1];
    var before := FiledEntity(t, k, e, front);
    if last != m {
      PrefixCancel(KeyPrefix(k, e.id), last, m);
      assert m in front by {
        assert ms == front + [last];
      }
      FiledEntityAt(t, k, e, front, m);
      PutKeeps(before, EntryKey(k, e.id, last), Stored(Value(e, last)), EntryKey(k, e.id, m), Stored(Value(e, m)));
    }
  }

  /** A `Put` under another key keeps what a key holds. */
  lemma PutKeeps(t: Table, key': string, r': Record, key: string, r: Record)
    requires key' != key && HoldsAt(t, key, r)
    ensures HoldsAt(Put(t, key', r'), key, r)
  {
  }

  /** A key outside the object's prefix is left as it was. */
  lemma {:induction false} FiledEntityOther(t: Table, k: Kind, e: Entity, ms: seq<string>, key: string)
    requires !StartsWith(key, KeyPrefix(k, e.id))
    ensures key in FiledEntity(t, k, e, ms).records <==> key in t.records
    ensures key in t.records ==> FiledEntity(t, k, e, ms).records[key] == t.records[key]
    decreases |ms|
  {
    if ms != [] {
      var m := ms[|ms| - 1];
      assert EntryKey(k, e.id, m) == KeyPrefix(k, e.id) + m;
      assert StartsWith(EntryKey(k, e.id, m), KeyPrefix(k, e.id)) by {
        assert (KeyPrefix(k, e.id) + m)[..|KeyPrefix(k, e.id)|] == KeyPrefix(k, e.id);
      }
      FiledEntityOther(t, k, e, ms[..|ms| - 1], key);
    }
  }

  /** No object after slot `i` has the id of the object in slot `i`. */
  predicate LastOfId(data: seq<Option<Entity>>, i: nat)
    requires i < |data| && data[i].Some?
  {
    forall j :: i < j < |data| && data[j].Some? ==> data[j].value.id != data[i].value.id
  }

  lemma LastOfIdFront(data: seq<Option<Entity>>, i: nat)
    requires i < |data| - 1 && data[i].Some? && LastOfId(data, i)
    ensures LastOfId(data[..|data| - 1], i)
  {
    var front := data[..|data| - 1];
    forall j | i < j < |front| && front[j].Some? ensures front[j].value.id != front[i].value.id {
      assert front[j] == data[j] && front[i] == data[i];
    }
  }

  /**
   * In the filed table, the key of getter `m` of the object in slot `i` holds
   * that object's value, unless a later object has the same id.
   */
  lemma {:induction false} FiledAt(t: Table, k: Kind, data: seq<Option<Entity>>, i: nat, m: string)
    requires i < |data| && data[i].Some? && m in Getters(k)
    requires LastOfId(data, i)
    ensures HoldsAt(Filed(t, k, data), EntryKey(k, data[i].value.id, m), Stored(Value(data[i].value, m)))
    decreases |data|
  {
    var n := |data| - 1;
    var front := data[..n];
    var e := data[i].value;
    if i == n {
      FiledEntityAt(Filed(t, k, front), k, e, Getters(k), m);
    } else {
      assert front[i] == data[i];
      LastOfIdFront(data, i);
      FiledAt(t, k, front, i, m);
      LaterSlotKeeps(Filed(t, k, front), k, data[n], e, m);
    }
  }

  /** A slot after the object, holding no object of the same id, keeps its getter's entry. */
  lemma LaterSlotKeeps(t: Table, k: Kind, slot: Option<Entity>, e: Entity, m: string)
    requires m in Getters(k)
    requires slot.Some? ==> slot.value.id != e.id
    requires HoldsAt(t, EntryKey(k, e.id, m), Stored(Value(e, m)))
    ensures HoldsAt(FiledSlot(t, k, slot), EntryKey(k, e.id, m), Stored(Value(e, m)))
  {
    if slot.Some? {
      GetterNotDigit(k, m);
      PrefixNamesId(k, slot.value.id, e.id, m);
    }
    SlotKeeps(t, k, slot, EntryKey(k, e.id, m), Stored(Value(e, m)));
  }

  /** A getter name does not start with a digit. */
  lemma GetterNotDigit(k: Kind, m: string)
    requires m in Getters(k)
    ensures m != [] && !IsDigit(m[0])
  {
    var i :| 0 <= i < |Getters(k)| && Getters(k)[i] == m;
    assert IsGetterName(Getters(k)[i]);
  }

  /** Filing a slot keeps what the table holds under a key outside the slot's object. */
  lemma SlotKeeps(t: Table, k: Kind, slot: Option<Entity>, key: string, r: Record)
    requires HoldsAt(t, key, r)
    requires slot.Some? ==> !StartsWith(key, KeyPrefix(k, slot.value.id))
    ensures HoldsAt(FiledSlot(t, k, slot), key, r)
  {
    if slot.Some? {
      FiledEntityOther(t, k, slot.value, Getters(k), key);
    }
  }

  // ---------------------------------------------------------------------------
  // The round trip to the Database addon
  // ---------------------------------------------------------------------------

  /** A blank value makes a blank line. */
  lemma LStripBlanks(v: string)
    ensures LStrip(v) == [] ==> LStrip(v + "\n") == []
  {
    if LStrip(v) == [] {
      LStripSuffix(v);
      assert v[..|v|] == v;
      assert AllStripSpace(v + "\n") by {
        assert forall i :: 0 <= i < |v| ==> (v + "\n")[i] == v[i];
      }
      assert v + "\n" + [] == v + "\n";
      LStripAfterBlanks(v + "\n", []);
    }
  }

  /** The leading blanks of a value that is not blank are those of its line. */
  lemma LStripLine(v: string)
    requires LStrip(v) != []
    ensures LStrip(v + "\n") == LStrip(v) + "\n"
  {
    var l := LStrip(v);
    LStripSuffix(v);
    var sp := v[..|v| - |l|];
    assert v + "\n" == sp + (l + "\n");
    LStripAfterBlanks(sp, l + "\n");
  }

  lemma RStripNewline(l: string)
    ensures RStrip(l + "\n") == RStrip(l)
  {
    assert (l + "\n")[..|l|] == l;
  }

  /** A plain value read back from its line and stripped is the value stripped. */
  lemma StoredStrips(v: string)
    requires PlainValue(v)
    ensures Strip(Stored(v).body) == Strip(v)
  {
    LStripBlanks(v);
    if LStrip(v) != [] {
      LStripLine(v);
    }
    RStripNewline(LStrip(v));
  }

  /**
   * After the file of a list is loaded, with no override on the key, the
   * overridden getter `m` of the object in slot `i` gives that object's own
   * value, stripped.
   */
  lemma EmittedGetter(k: Kind, data: seq<Option<Entity>>, i: nat, m: string, faces: FaceTable,
                      fuel: nat, original: Database.Original, field: Option<string>)
    requires PlainList(k, data)
    requires i < |data| && data[i].Some? && m in Getters(k)
    requires LastOfId(data, i)
    ensures var r := ParseLines(State(EmptyTable, None), ReadLines(DatabaseText(k, data)), faces);
            r.Ok? &&
            Database.Getter(Lookup.Globals(Some(r.value.table.records), None), fuel,
                            Database.OverrideKey(Database.KlassName(Database.Overrides[OverrideRow(k)].klass), Some(data[i].value.id), m),
                            original, field)
              == Lookup.Found(Strip(Value(data[i].value, m)))
  {
    var e := data[i].value;
    DatabaseTextParses(State(EmptyTable, None), k, data, faces);
    FiledAt(EmptyTable, k, data, i, m);
    KeyIsOverrideKey(k, e.id, m);
    var r := ParseLines(State(EmptyTable, None), ReadLines(DatabaseText(k, data)), faces);
    var g := Lookup.Globals(Some(r.value.table.records), None);
    Database.LoadedKeyWins(g, fuel, EntryKey(k, e.id, m), original, field);
    StoredStrips(Value(e, m));
  }

  /**
   * The weapon file as written, once loaded, makes weapon `id`'s getters read
   * the values of the armor with that id.
   */
  lemma WeaponGetterReadsArmor(d: Lists, i: nat, m: string, faces: FaceTable,
                               fuel: nat, original: Database.Original, field: Option<string>)
    requires PlainList(Weapons, d(Armors))
    requires i < |d(Armors)| && d(Armors)[i].Some? && m in Getters(Weapons)
    requires LastOfId(d(Armors), i)
    ensures var r := ParseLines(State(EmptyTable, None), ReadLines(FileTextAsWritten(d, Weapons)), faces);
            r.Ok? &&
            Database.Getter(Lookup.Globals(Some(r.value.table.records), None), fuel,
                            Database.OverrideKey(TypeName(Weapons), Some(d(Armors)[i].value.id), m), original, field)
              == Lookup.Found(Strip(Value(d(Armors)[i].value, m)))
  {
    EmittedGetter(Weapons, d(Armors), i, m, faces, fuel, original, field);
    KeyIsOverrideKey(Weapons, d(Armors)[i].value.id, m);
  }
}
