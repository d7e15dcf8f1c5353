/**
 * Looking text up by key (`SES::ExternalText.get_text`), the per-save
 * override table kept by `Game_System`, and the key indirection an override
 * stores (`TextWrapper` built from a key alone).
 *
 * An override of `k` holds another key, `target`; its string form is the
 * text of `target` (which may itself be overridden) or, failing that,
 * "Missing Key: target.". Following overrides re-enters the lookup, so a
 * cycle of overrides never ends in the source; here each hop spends one unit
 * of `fuel` and running out of it is reported as `TooDeep`.
 */
module Lookup {
  import opened Wrappers
  import opened RubyString
  import opened Parser

  /** The outcome of a lookup: some text, `nil`, or an override chain longer than the fuel. */
  datatype Outcome = Found(text: string) | Nil | TooDeep

  /** The global game state a lookup reads: the loaded table, if any, and the overrides, if a save exists. */
  datatype Globals = Globals(table: Option<map<string, Record>>, overrides: Option<map<string, string>>)

  /** The text of a key whose body is stored: the body with outer whitespace stripped. */
  function StoredText(records: map<string, Record>, key: string): (o: Outcome)
    ensures o.TooDeep? == false
    ensures o.Found? <==> key in records
    ensures o.Found? ==> o.text == Strip(records[key].body)
  {
    if key in records then Found(Strip(records[key].body)) else Nil
  }

  /** The string form of an override naming `target`. */
  function MissingKey(target: string): string {
    "Missing Key: " + target + "."
  }

  /** `get_text(key)`. */
  function GetText(g: Globals, key: string, fuel: nat): (o: Outcome)
    ensures o.Nil? <==> g.table.None? ||
                        ((g.overrides.None? || key !in g.overrides.value) && key !in g.table.value)
    decreases fuel, 1
  {
    match g.table
    case None => Nil
    case Some(records) =>
      if g.overrides.Some? && key in g.overrides.value then
        WrapperText(g, g.overrides.value[key], fuel)
      else StoredText(records, key)
  }

  /** `TextWrapper#to_s` for a wrapper of the key `target`: its text, or the missing-key notice. */
  function WrapperText(g: Globals, target: string, fuel: nat): (o: Outcome)
    ensures !o.Nil?
    ensures fuel > 0 && GetText(g, target, fuel - 1).Nil? ==> o == Found(MissingKey(target))
    decreases fuel, 0
  {
    if fuel == 0 then TooDeep
    else
      match GetText(g, target, fuel - 1)
      case Found(t) => Found(t)
      case Nil => Found(MissingKey(target))
      case TooDeep => TooDeep
  }

  /**
   * `Game_Interpreter#get_text`: the lookup stripped once more; `nil` has no
   * `strip`, so a missing key is an error.
   */
  function InterpreterGetText(g: Globals, key: string, fuel: nat): (r: Result<string, Outcome>)
    ensures r.Ok? <==> GetText(g, key, fuel).Found?
  {
    match GetText(g, key, fuel)
    case Found(t) => Ok(Strip(t))
    case Nil => Err(Nil)
    case TooDeep => Err(TooDeep)
  }

  /** Following overrides from `key` reaches a key without an override within `n` hops. */
  predicate ResolvesWithin(overrides: map<string, string>, key: string, n: nat)
    decreases n
  {
    key !in overrides || (n > 0 && ResolvesWithin(overrides, overrides[key], n - 1))
  }

  /** `Game_System`'s override table. */
  class OverrideTable {
    var overrides: map<string, string>

    constructor()
      ensures overrides == map[]
    {
      overrides := map[];
    }

    /** `add_override(key, target)`: `key` now reads as the text of `target`. */
    method AddOverride(key: string, target: string)
      modifies this
      ensures overrides == old(overrides)[key := target]
    {
      overrides := overrides[key := target];
    }

    /** `delete_override(key)`. */
    method DeleteOverride(key: string)
      modifies this
      ensures overrides == old(overrides) - {key}
    {
      overrides := overrides - {key};
    }

    /** `get_override(key)`: the key the override of `key` names, if there is one. */
    method GetOverride(key: string) returns (target: Option<string>)
      ensures target.Some? <==> key in overrides
      ensures target.Some? ==> target.value == overrides[key]
    {
      if key in overrides {
        target := Some(overrides[key]);
      } else {
        target := None;
      }
    }
  }

  // ---------------------------------------------------------------------------
  // Properties
  // ---------------------------------------------------------------------------

  /** Before the table is loaded, every lookup is `nil`. */
  lemma NoTableNoText(g: Globals, key: string, fuel: nat)
    requires g.table.None?
    ensures GetText(g, key, fuel) == Nil
  {
  }

  /**
   * Without an override, a key reads as its stored body stripped of outer
   * whitespace, or `nil` when the table lacks it.
   */
  lemma NotOverridden(g: Globals, key: string, fuel: nat)
    requires g.table.Some?
    requires g.overrides.None? || key !in g.overrides.value
    ensures key in g.table.value ==> GetText(g, key, fuel) == Found(Strip(g.table.value[key].body))
    ensures key !in g.table.value ==> GetText(g, key, fuel) == Nil
  {
  }

  /**
   * After `add_override(k, target)`, `k` reads as `target` does (in the new
   * override table), or as the missing-key notice when `target` is `nil`,
   * whatever `k` read as before.
   */
  lemma AddThenGet(table: map<string, Record>, overrides: map<string, string>, k: string, target: string, fuel: nat)
    ensures var g := Globals(Some(table), Some(overrides[k := target]));
            GetText(g, k, fuel + 1) ==
              match GetText(g, target, fuel)
              case Found(t) => Found(t)
              case Nil => Found(MissingKey(target))
              case TooDeep => TooDeep
  {
  }

  /** A lookup with fuel to spare gives the same answer with more fuel. */
  lemma {:induction false} MoreFuel(g: Globals, key: string, fuel: nat, more: nat)
    requires fuel <= more
    requires !GetText(g, key, fuel).TooDeep?
    ensures GetText(g, key, more) == GetText(g, key, fuel)
    decreases fuel
  {
    if g.table.Some? && g.overrides.Some? && key in g.overrides.value {
      var target := g.overrides.value[key];
      assert fuel > 0;
      MoreFuel(g, target, fuel - 1, more - 1);
    }
  }

  /** When every override chain from `key` ends within `n` hops, `n` units of fuel suffice. */
  lemma {:induction false} AcyclicResolves(g: Globals, key: string, n: nat)
    requires g.table.Some? && g.overrides.Some?
    requires ResolvesWithin(g.overrides.value, key, n)
    ensures !GetText(g, key, n).TooDeep?
    decreases n
  {
    if key in g.overrides.value {
      AcyclicResolves(g, g.overrides.value[key], n - 1);
    }
  }

  /** An override cycle never resolves, however much fuel is given (the source overflows its stack). */
  lemma {:induction false} CycleNeverResolves(g: Globals, a: string, b: string, fuel: nat)
    requires g.table.Some? && g.overrides.Some?
    requires a in g.overrides.value && g.overrides.value[a] == b
    requires b in g.overrides.value && g.overrides.value[b] == a
    ensures GetText(g, a, fuel) == TooDeep && GetText(g, b, fuel) == TooDeep
    decreases fuel
  {
    if fuel > 0 {
      CycleNeverResolves(g, a, b, fuel - 1);
    }
  }

  /** `delete_override` of a key without an override changes nothing. */
  lemma DeleteAbsent(overrides: map<string, string>, key: string)
    requires key !in overrides
    ensures overrides - {key} == overrides
  {
  }

  /** `strip` of stripped text changes nothing. */
  lemma StripIdempotent(s: string)
    ensures Strip(Strip(s)) == Strip(s)
  {
    var t := Strip(s);
    assert LStrip(t) == t;
    assert RStrip(t) == t;
  }

  /**
   * For a key whose text is stored (not reached through an override), the
   * interpreter's extra `strip` changes nothing.
   */
  lemma InterpreterMatchesLookup(g: Globals, key: string, fuel: nat)
    requires g.table.Some? && key in g.table.value
    requires g.overrides.None? || key !in g.overrides.value
    ensures InterpreterGetText(g, key, fuel) == Ok(Strip(g.table.value[key].body))
  {
    StripIdempotent(g.table.value[key].body);
  }
}
