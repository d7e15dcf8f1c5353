/**
 * Block selection (`Game_Interpreter#get_block`, `block_text`,
 * `block_text_us`): showing, one message after another, the texts whose keys
 * match a pattern, skipping the first `from` matches and stopping after `to`
 * of them.
 *
 * Showing a text (`text(k)`) is a message-window call; here the walk returns
 * the keys it would show, in the order it would show them.
 */
module Blocks {
  import opened RubyString
  import opened Parser

  /**
   * What a key is matched against: a `String` matches keys containing it; a
   * `Regexp` is an opaque test on the key.
   */
  datatype Pattern = Substring(sub: string) | Regex(matches: string -> bool)

  predicate Matches(k: string, p: Pattern) {
    match p
    case Substring(sub) => Contains(k, sub)
    case Regex(m) => m(k)
  }

  /** The keys that match, in the order given. */
  function Matching(keys: seq<string>, p: Pattern): (m: seq<string>)
    ensures |m| <= |keys|
  {
    if keys == [] then []
    else if Matches(keys[0], p) then [keys[0]] + Matching(keys[1..], p)
    else Matching(keys[1..], p)
  }

  /**
   * The keys a block shows: the matches after the first `from` of them, and
   * at most `to` of those when `to` is not negative. A negative `from` is
   * never counted down to zero, so nothing is shown.
   */
  function Select(keys: seq<string>, p: Pattern, from: int, to: int): (shown: seq<string>)
    ensures 0 <= to ==> |shown| <= to
  {
    var m := Matching(keys, p);
    if from < 0 || from >= |m| then []
    else if to < 0 || to >= |m| - from then m[from..]
    else m[from..from + to]
  }

  /** A key matches, and is one of the keys, exactly when the filter keeps it. */
  lemma {:induction false} MatchingMembers(keys: seq<string>, p: Pattern)
    ensures forall k :: k in Matching(keys, p) <==> k in keys && Matches(k, p)
    decreases |keys|
  {
    if keys != [] {
      MatchingMembers(keys[1..], p);
      assert keys == [keys[0]] + keys[1..];
    }
  }

  /** Only matching keys are shown. */
  lemma SelectMembers(keys: seq<string>, p: Pattern, from: int, to: int)
    ensures forall k :: k in Select(keys, p, from, to) ==> k in keys && Matches(k, p)
  {
    MatchingMembers(keys, p);
    var m := Matching(keys, p);
    forall k | k in Select(keys, p, from, to) ensures k in m {
      var j :| 0 <= j < |Select(keys, p, from, to)| && Select(keys, p, from, to)[j] == k;
      assert k == m[from + j];
    }
  }

  /** `get_block(text, key, from, to)`. */
  method GetBlock(keys: seq<string>, p: Pattern, from: int, to: int) returns (shown: seq<string>)
    ensures shown == Select(keys, p, from, to)
  {
    shown := [];
    var skip, left := from, to;
    var i := 0;
    while i < |keys| && left != 0
      invariant 0 <= i <= |keys|
      invariant shown + Select(keys[i..], p, skip, left) == Select(keys, p, from, to)
    {
      var k := keys[i];
      assert keys[i..][1..] == keys[i + 1..];
      if Matches(k, p) {
        if skip == 0 {
          ShowFirst(keys[i..], p, left);
          Regroup(shown, k, Select(keys[i + 1..], p, skip, left - 1));
          shown := shown + [k];
          left := left - 1;
        } else {
          SkipFirst(keys[i..], p, skip, left);
          skip := skip - 1;
        }
      } else {
        PassOver(keys[i..], p, skip, left);
      }
      i := i + 1;
    }
    if left == 0 {
      NothingLeft(keys[i..], p, skip);
    } else {
      assert keys[i..] == [];
    }
    assert shown + [] == shown;
  }

  lemma Regroup(shown: seq<string>, k: string, rest: seq<string>)
    ensures shown + ([k] + rest) == (shown + [k]) + rest
  {
  }

  /** With no shows left, nothing more is shown. */
  lemma NothingLeft(keys: seq<string>, p: Pattern, from: int)
    ensures Select(keys, p, from, 0) == []
  {
  }

  /** A match met when no more are to be skipped is shown, and one fewer remains. */
  lemma ShowFirst(keys: seq<string>, p: Pattern, to: int)
    requires keys != [] && Matches(keys[0], p) && to != 0
    ensures Select(keys, p, 0, to) == [keys[0]] + Select(keys[1..], p, 0, to - 1)
  {
    var m := Matching(keys[1..], p);
    assert Matching(keys, p) == [keys[0]] + m;
    if 0 <= to < |m| + 1 {
      assert ([keys[0]] + m)[0..to] == [keys[0]] + m[0..to - 1];
    }
  }

  /** A key that does not match is passed over. */
  lemma PassOver(keys: seq<string>, p: Pattern, from: int, to: int)
    requires keys != [] && !Matches(keys[0], p)
    ensures Select(keys, p, from, to) == Select(keys[1..], p, from, to)
  {
  }

  /** A match met while some are still to be skipped is skipped and counted. */
  lemma SkipFirst(keys: seq<string>, p: Pattern, from: int, to: int)
    requires keys != [] && Matches(keys[0], p) && from != 0
    ensures Select(keys, p, from, to) == Select(keys[1..], p, from - 1, to)
  {
    var m := Matching(keys[1..], p);
    assert Matching(keys, p) == [keys[0]] + m;
    if 0 < from <= |m| {
      assert ([keys[0]] + m)[from..] == m[from - 1..];
      if 0 <= to < |m| - from + 1 {
        assert ([keys[0]] + m)[from..from + to] == m[from - 1..from - 1 + to];
      }
    }
  }

  // ---------------------------------------------------------------------------
  // Key order
  // ---------------------------------------------------------------------------

  /** `AtMost` is a total preorder, so sorting by it is well defined. */
  lemma AtMostTotal(a: string, b: string)
    ensures AtMost(a, b) || AtMost(b, a)
  {
    if LessThan(b, a) {
      LessThanAsymmetric(b, a);
    }
  }

  lemma AtMostTransitive(a: string, b: string, c: string)
    requires AtMost(a, b) && AtMost(b, c)
    ensures AtMost(a, c)
  {
    if LessThan(c, a) {
      LessThanTotal(a, b);
      if LessThan(a, b) {
        LessThanTransitive(c, a, b);
      }
    }
  }

  predicate Sorted(s: seq<string>) {
    forall i, j :: 0 <= i < j < |s| ==> AtMost(s[i], s[j])
  }

  /** `x` placed before the first key it does not exceed. */
  function Insert(x: string, s: seq<string>): (r: seq<string>)
    ensures multiset(r) == multiset(s) + multiset{x}
    ensures |r| == |s| + 1
  {
    if s == [] then [x]
    else if AtMost(x, s[0]) then [x] + s
    else
      assert s == [s[0]] + s[1..];
      [s[0]] + Insert(x, s[1..])
  }

  /** `Array#sort` on keys: byte-wise lexicographic order. */
  function Sort(s: seq<string>): (r: seq<string>)
    ensures multiset(r) == multiset(s)
  {
    if s == [] then []
    else
      assert s == [s[0]] + s[1..];
      Insert(s[0], Sort(s[1..]))
  }

  lemma {:induction false} InsertSorted(x: string, s: seq<string>)
    requires Sorted(s)
    ensures Sorted(Insert(x, s))
    decreases |s|
  {
    if s != [] && !AtMost(x, s[0]) {
      var rest := Insert(x, s[1..]);
      InsertSorted(x, s[1..]);
      AtMostTotal(x, s[0]);
      forall j | 0 <= j < |rest| ensures AtMost(s[0], rest[j]) {
        assert rest[j] in multiset(rest);
        if rest[j] != x {
          assert rest[j] in multiset(s[1..]);
          var k :| 0 <= k < |s[1..]| && s[1..][k] == rest[j];
          assert s[k + 1] == rest[j];
        }
      }
      var r := [s[0]] + rest;
      forall i, j | 0 <= i < j < |r| ensures AtMost(r[i], r[j]) {
        if i == 0 {
          assert r[j] == rest[j - 1];
        } else {
          assert r[i] == rest[i - 1] && r[j] == rest[j - 1];
        }
      }
    } else if s != [] {
      var r := [x] + s;
      forall i, j | 0 <= i < j < |r| ensures AtMost(r[i], r[j]) {
        if i == 0 {
          if j > 1 {
            AtMostTransitive(x, s[0], s[j - 1]);
          }
        } else {
          assert r[i] == s[i - 1] && r[j] == s[j - 1];
        }
      }
    }
  }

  /** The sorted keys are in order and are the same keys. */
  lemma {:induction false} SortSorts(s: seq<string>)
    ensures Sorted(Sort(s)) && multiset(Sort(s)) == multiset(s)
    decreases |s|
  {
    if s != [] {
      SortSorts(s[1..]);
      InsertSorted(s[0], Sort(s[1..]));
    }
  }

  // ---------------------------------------------------------------------------
  // block_text and block_text_us
  // ---------------------------------------------------------------------------

  /** `block_text(key, from, to)`: the selection walks the keys in sorted order. */
  method BlockText(store: TextStore, p: Pattern, from: int, to: int) returns (shown: seq<string>)
    ensures shown == Select(Sort(store.keys), p, from, to)
  {
    shown := GetBlock(Sort(store.keys), p, from, to);
  }

  /** `block_text_us(key, from, to)`: the selection walks the keys in the order they were declared. */
  method BlockTextUnsorted(store: TextStore, p: Pattern, from: int, to: int) returns (shown: seq<string>)
    ensures shown == Select(store.keys, p, from, to)
  {
    shown := GetBlock(store.keys, p, from, to);
  }

  /** A subsequence of the keys in order: what a filter and a slice keep. */
  lemma {:induction false} MatchingSorted(keys: seq<string>, p: Pattern)
    requires Sorted(keys)
    ensures Sorted(Matching(keys, p))
    decreases |keys|
  {
    if keys != [] {
      MatchingSorted(keys[1..], p);
      if Matches(keys[0], p) {
        var m := Matching(keys[1..], p);
        var r := [keys[0]] + m;
        forall i, j | 0 <= i < j < |r| ensures AtMost(r[i], r[j]) {
          assert r[j] == m[j - 1];
          if i == 0 {
            MatchingMembers(keys[1..], p);
            assert m[j - 1] in keys[1..];
            var k :| 0 <= k < |keys[1..]| && keys[1..][k] == m[j - 1];
            assert keys[k + 1] == m[j - 1];
          } else {
            assert r[i] == m[i - 1];
          }
        }
      }
    }
  }

  /** `block_text` shows its texts in key order. */
  lemma BlockTextInOrder(keys: seq<string>, p: Pattern, from: int, to: int)
    ensures Sorted(Select(Sort(keys), p, from, to))
  {
    SortSorts(keys);
    MatchingSorted(Sort(keys), p);
    var m := Matching(Sort(keys), p);
    var shown := Select(Sort(keys), p, from, to);
    forall i, j | 0 <= i < j < |shown| ensures AtMost(shown[i], shown[j]) {
      assert shown[i] == m[from + i] && shown[j] == m[from + j];
    }
  }

  /** Both walks meet the same matching keys: only the order differs. */
  lemma SameKeysEitherOrder(keys: seq<string>, p: Pattern)
    ensures forall k :: k in Matching(Sort(keys), p) <==> k in Matching(keys, p)
  {
    SortSorts(keys);
    MatchingMembers(keys, p);
    MatchingMembers(Sort(keys), p);
    forall k ensures k in Sort(keys) <==> k in keys {
      assert k in Sort(keys) <==> k in multiset(Sort(keys));
    }
  }

  /** Every match is shown when nothing is skipped and `to` is negative. */
  lemma AllMatchesShown(keys: seq<string>, p: Pattern, to: int)
    requires to < 0
    ensures Select(keys, p, 0, to) == Matching(keys, p)
  {
  }

  /** A negative `from` shows nothing. */
  lemma NegativeFromShowsNothing(keys: seq<string>, p: Pattern, from: int, to: int)
    requires from < 0
    ensures Select(keys, p, from, to) == []
  {
  }
}
