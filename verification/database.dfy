/**
 * The Database addon: getters of database objects (names, descriptions,
 * messages) and the system vocabulary read their text from External Text
 * when a key for them is loaded, and keep their own value otherwise.
 *
 * The override key of a getter is `<Class>_<id>_<method>`, or
 * `<Class>_<method>` for an object without an id, where `<Class>` is the
 * last `::` segment of the configured class name.
 */
module Database {
  import opened Wrappers
  import opened RubyString
  import opened Lookup

  /** A configured class and the getters of it that read External Text. */
  datatype OverrideEntry = OverrideEntry(klass: string, methods: seq<string>)

  /** The configured overrides, in order. */
  const Overrides: seq<OverrideEntry> := [
    OverrideEntry("RPG::Actor", ["name", "nickname", "description"]),
    OverrideEntry("RPG::Class", ["name"]),
    OverrideEntry("RPG::Skill", ["name", "description", "message1", "message2"]),
    OverrideEntry("RPG::Item", ["name", "description"]),
    OverrideEntry("RPG::Weapon", ["name", "description"]),
    OverrideEntry("RPG::Armor", ["name", "description"]),
    OverrideEntry("RPG::Enemy", ["name"]),
    OverrideEntry("RPG::State", ["name", "message1", "message2", "message3", "message4"]),
    OverrideEntry("RPG::Map", ["display_name"])
  ]

  /** The least External Text version the addon loads after. */
  const RequiredVersion := "3.1.0"

  // ---------------------------------------------------------------------------
  // Class name and override key
  // ---------------------------------------------------------------------------

  /** `\w+::\w+` matches at the start of `s`; the result is the length of its first word. */
  function PairAt(s: string): (w: nat)
    ensures w > 0 ==> w + 2 < |s| && AllWordChars(s[..w]) && s[w] == ':' && s[w + 1] == ':' && IsWordChar(s[w + 2])
  {
    var w := WordRun(s);
    if 0 < w && w + 2 < |s| && s[w] == ':' && s[w + 1] == ':' && IsWordChar(s[w + 2]) then w else 0
  }

  /**
   * `gsub!(/(\w+)::(\w+)/)` scanning the class name: the pairs of words it
   * removes, in order, and what is left.
   */
  function PairScan(s: string): (r: (seq<string>, string))
    ensures |r.1| <= |s|
    decreases |s|
  {
    if s == [] then ([], [])
    else
      var w := PairAt(s);
      if w > 0 then
        var v := WordRun(s[w + 2..]);
        var rest := PairScan(s[w + 2 + v..]);
        ([s[..w], s[w + 2..w + 2 + v]] + rest.0, rest.1)
      else
        var rest := PairScan(s[1..]);
        (rest.0, [s[0]] + rest.1)
  }

  /** `klass_name`: the last entry of the chain of removed words and leftover text (`nil`, read as "", when there is none). */
  function KlassName(k: string): (n: string)
    ensures n == [] ==> PairScan(k) == ([], [])
  {
    var scan := PairScan(k);
    var chain := scan.0 + (if scan.1 == [] then [] else [scan.1]);
    if chain == [] then [] else chain[|chain| - 1]
  }

  /** The key an overridden getter reads. */
  function OverrideKey(klassName: string, id: Option<int>, getter: string): (key: string)
    ensures StartsWith(key, klassName + "_") && EndsWith(key, "_" + getter)
    ensures id.Some? ==> OccursAt(key, "_" + IntToString(id.value) + "_", |klassName|)
  {
    var key := match id
      case Some(n) => klassName + "_" + IntToString(n) + "_" + getter
      case None => klassName + "_" + getter;
    assert key[..|klassName + "_"|] == klassName + "_";
    assert key[|key| - |"_" + getter|..] == "_" + getter;
    assert id.Some? ==> key[|klassName|..|klassName| + |"_" + IntToString(id.value) + "_"|] == "_" + IntToString(id.value) + "_";
    key
  }

  // ---------------------------------------------------------------------------
  // Getters and vocabulary
  // ---------------------------------------------------------------------------

  /** What the getter the addon replaced gives: its value (perhaps `nil`), or an error. */
  datatype Original = Returns(value: Option<string>) | Raises

  /** `text || fallback`: loaded text wins, `nil` falls back. */
  function OrElse(o: Outcome, fallback: Option<string>): (r: Outcome)
    ensures o.Found? || o.TooDeep? ==> r == o
    ensures o.Nil? && fallback.Some? ==> r == Found(fallback.value)
    ensures o.Nil? && fallback.None? ==> r == Nil
  {
    match o
    case Nil => if fallback.Some? then Found(fallback.value) else Nil
    case _ => o
  }

  /**
   * An overridden getter: the text of its key, else what the original getter
   * gives, or the instance variable of the same name when that raises.
   */
  function Getter(g: Globals, fuel: nat, key: string, original: Original, field: Option<string>): (o: Outcome)
    ensures GetText(g, key, fuel).Found? ==> o == GetText(g, key, fuel)
    ensures o.Nil? ==> GetText(g, key, fuel).Nil?
    ensures original.Returns? && original.value.Some? && GetText(g, key, fuel).Nil? ==> o == Found(original.value.value)
  {
    OrElse(GetText(g, key, fuel), match original case Returns(v) => v case Raises => field)
  }

  /** `@basic[i]` and the like: `nil` past the end of the stored array. */
  function At(defaults: seq<string>, i: nat): (d: Option<string>)
    ensures d.Some? <==> i < |defaults|
  {
    if i < |defaults| then Some(defaults[i]) else None
  }

  /** One vocabulary array: the text of each fixed key, or the stored term at its index. */
  function Terms(g: Globals, fuel: nat, keys: seq<string>, defaults: seq<string>): (r: seq<Outcome>)
    ensures |r| == |keys|
  {
    seq(|keys|, i requires 0 <= i < |keys| => OrElse(GetText(g, keys[i], fuel), At(defaults, i)))
  }

  /** The keys `basic` reads, as written: the first has a trailing space. */
  const BasicKeysAsWritten: seq<string> := [
    "System_Level ", "System_Level_short", "System_HP", "System_HP_short",
    "System_MP", "System_MP_short", "System_TP", "System_TP_short"
  ]

  /** The keys `basic` is meant to read, the ones the extractor writes. */
  const BasicKeys: seq<string> := [
    "System_Level", "System_Level_short", "System_HP", "System_HP_short",
    "System_MP", "System_MP_short", "System_TP", "System_TP_short"
  ]

  const ParamKeys: seq<string> := [
    "System_MHP", "System_MMP", "System_ATK", "System_DEF",
    "System_MAT", "System_MDF", "System_AGI", "System_LUK"
  ]

  const EtypeKeys: seq<string> := [
    "System_etype_0", "System_etype_1", "System_etype_2", "System_etype_3", "System_etype_4"
  ]

  const CommandKeys: seq<string> := [
    "System_Fight", "System_Escape", "System_Attack", "System_Defend",
    "System_Item", "System_Skill", "System_Equip", "System_Status",
    "System_Sort", "System_Save", "System_Exit_Game", "System_(not_used)",
    "System_Weapon", "System_Armor", "System_Key_Item", "System_Change_Equipment",
    "System_Ultimate_Equipment", "System_Remove_All", "System_New_Game", "System_Continue",
    "System_Shut_Down", "System_Go_to_Title", "System_Cancel"
  ]

  /** `Terms#basic` as written. */
  function BasicAsWritten(g: Globals, fuel: nat, basic: seq<string>): (r: seq<Outcome>)
    ensures |r| == 8
  {
    Terms(g, fuel, BasicKeysAsWritten, basic)
  }

  /** `Terms#basic` reading the keys the extractor writes. */
  function Basic(g: Globals, fuel: nat, basic: seq<string>): (r: seq<Outcome>)
    ensures |r| == 8
  {
    Terms(g, fuel, BasicKeys, basic)
  }

  /** `Terms#params`. */
  function Params(g: Globals, fuel: nat, params: seq<string>): (r: seq<Outcome>)
    ensures |r| == 8
  {
    Terms(g, fuel, ParamKeys, params)
  }

  /** `Terms#etypes`. */
  function Etypes(g: Globals, fuel: nat, etypes: seq<string>): (r: seq<Outcome>)
    ensures |r| == 5
  {
    Terms(g, fuel, EtypeKeys, etypes)
  }

  /** `Terms#commands`. */
  function Commands(g: Globals, fuel: nat, commands: seq<string>): (r: seq<Outcome>)
    ensures |r| == 23
  {
    Terms(g, fuel, CommandKeys, commands)
  }

  /** The addon loads only after External Text of at least the required version, compared as strings. */
  function Loads(imported: Option<string>): bool {
    imported.Some? && !LessThan(imported.value, RequiredVersion)
  }

  // ---------------------------------------------------------------------------
  // Properties
  // ---------------------------------------------------------------------------

  /** A run of word characters gives no pair and is left whole. */
  lemma {:induction false} PlainScan(a: string)
    requires AllWordChars(a)
    ensures PairScan(a) == ([], a)
    decreases |a|
  {
    if a != [] {
      WordRunOfWord(a, []);
      assert a + [] == a;
      PlainScan(a[1..]);
      assert [a[0]] + a[1..] == a;
    }
  }

  /** A plain class name is its own short name. */
  lemma KlassNamePlain(a: string)
    requires a != [] && AllWordChars(a)
    ensures KlassName(a) == a
  {
    PlainScan(a);
  }

  /** `Outer::Inner` has the short name `Inner`. */
  lemma KlassNameQualified(a: string, b: string)
    requires a != [] && b != [] && AllWordChars(a) && AllWordChars(b)
    ensures KlassName(a + "::" + b) == b
  {
    var s := a + "::" + b;
    WordRunOfWord(a, "::" + b);
    assert s == a + ("::" + b);
    assert PairAt(s) == |a|;
    assert s[..|a|] == a && s[|a| + 2..] == b;
    WordRunOfWord(b, []);
    assert b + [] == b;
    assert s[|a| + 2 + |b|..] == [] && s[|a| + 2..|a| + 2 + |b|] == b;
    assert WordRun(s[|a| + 2..]) == |b|;
    assert PairScan(s[|a| + 2 + |b|..]) == ([], []);
    assert PairScan(s) == ([a, b] + [], []);
  }

  /** A configured `RPG::<Name>` class makes its keys with `<Name>`. */
  lemma RpgKlassName(name: string)
    requires name != [] && AllWordChars(name)
    ensures KlassName("RPG::" + name) == name
  {
    KlassNameQualified("RPG", name);
    assert "RPG" + "::" + name == "RPG::" + name;
  }

  /** A loaded key wins over the getter's own value. */
  lemma LoadedKeyWins(g: Globals, fuel: nat, key: string, original: Original, field: Option<string>)
    requires g.table.Some? && key in g.table.value
    requires g.overrides.None? || key !in g.overrides.value
    ensures Getter(g, fuel, key, original, field) == Found(Strip(g.table.value[key].body))
  {
    NotOverridden(g, key, fuel);
  }

  /** Before any text is loaded, a getter gives what it gave without the addon. */
  lemma UnloadedGetter(g: Globals, fuel: nat, key: string, v: string, field: Option<string>)
    requires g.table.None?
    ensures Getter(g, fuel, key, Returns(Some(v)), field) == Found(v)
    ensures Getter(g, fuel, key, Raises, field) == if field.Some? then Found(field.value) else Nil
  {
    NoTableNoText(g, key, fuel);
  }

  /** Before any text is loaded, every vocabulary array is the stored one. */
  lemma UnloadedTerms(g: Globals, fuel: nat, keys: seq<string>, defaults: seq<string>)
    requires g.table.None? && |defaults| == |keys|
    ensures forall i :: 0 <= i < |keys| ==> Terms(g, fuel, keys, defaults)[i] == Found(defaults[i])
  {
    forall i | 0 <= i < |keys| ensures Terms(g, fuel, keys, defaults)[i] == Found(defaults[i]) {
      NoTableNoText(g, keys[i], fuel);
    }
  }

  /** A vocabulary entry whose key is loaded is that text; the others are untouched. */
  lemma TermLoaded(g: Globals, fuel: nat, keys: seq<string>, defaults: seq<string>, i: nat)
    requires i < |keys| && g.table.Some? && keys[i] in g.table.value
    requires g.overrides.None? || keys[i] !in g.overrides.value
    ensures Terms(g, fuel, keys, defaults)[i] == Found(Strip(g.table.value[keys[i]].body))
  {
    NotOverridden(g, keys[i], fuel);
  }

  /**
   * As written, `basic` never reads the level term the extractor writes under
   * `System_Level`: with that key loaded and `"System_Level "` absent, the
   * stored term is kept.
   */
  lemma LevelTermMissedAsWritten(g: Globals, fuel: nat, basic: seq<string>)
    requires g.table.Some? && "System_Level" in g.table.value && "System_Level " !in g.table.value
    requires g.overrides.None? || "System_Level " !in g.overrides.value
    requires |basic| == 8
    ensures BasicAsWritten(g, fuel, basic)[0] == Found(basic[0])
    ensures BasicKeysAsWritten[0] != "System_Level"
  {
    NotOverridden(g, "System_Level ", fuel);
    assert BasicKeysAsWritten[0][12] == ' ';
  }

  /** With the key the extractor writes, the level term is read from the text. */
  lemma LevelTermRead(g: Globals, fuel: nat, basic: seq<string>)
    requires g.table.Some? && "System_Level" in g.table.value
    requires g.overrides.None? || "System_Level" !in g.overrides.value
    ensures Basic(g, fuel, basic)[0] == Found(Strip(g.table.value["System_Level"].body))
  {
    TermLoaded(g, fuel, BasicKeys, basic, 0);
  }

  /** The gate compares strings: the required version itself and later 3.x patch levels load. */
  lemma GateAcceptsRequired()
    ensures Loads(Some("3.1.0")) && Loads(Some("3.1.2")) && Loads(Some("3.2.0"))
    ensures !Loads(None) && !Loads(Some("3.0.9"))
  {
    assert !LessThan("3.1.0", "3.1.0") by { LessThanIrreflexive("3.1.0"); }
    assert LessThan("3.1.0", "3.1.2");
    assert LessThan("3.1.0", "3.2.0");
    assert LessThan("3.0.9", "3.1.0");
  }

}
