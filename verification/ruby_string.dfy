/**
 * The pieces of Ruby 1.9 string behaviour the text pipeline relies on:
 * the `\s`, `\w` and `\d` character classes, `strip`, `readlines`,
 * `split(/\s+/)`, the `[line]` split used by the message layout, `include?`,
 * `start_with?`, `Integer#to_s` and `String#to_i` on a digit run.
 * Strings are sequences of characters; case-insensitive matching folds
 * ASCII letters only.
 */
module RubyString {

  /** `\s` in a Ruby 1.9 regular expression: space, tab, LF, FF and CR, but not VT. */
  predicate IsSpace(c: char) {
    c == ' ' || c == '\t' || c == '\n' || c == '\U{C}' || c == '\r'
  }

  /** The whitespace `String#strip` removes: the `\s` characters and VT. */
  predicate IsStripSpace(c: char) {
    IsSpace(c) || c == '\U{B}'
  }

  /** `\w` in a Ruby 1.9 regular expression. */
  predicate IsWordChar(c: char) {
    ('a' <= c <= 'z') || ('A' <= c <= 'Z') || ('0' <= c <= '9') || c == '_'
  }

  /** `\d` in a Ruby 1.9 regular expression. */
  predicate IsDigit(c: char) {
    '0' <= c <= '9'
  }

  predicate AllWordChars(s: string) {
    forall i :: 0 <= i < |s| ==> IsWordChar(s[i])
  }

  predicate AllDigits(s: string) {
    forall i :: 0 <= i < |s| ==> IsDigit(s[i])
  }

  predicate AllSpace(s: string) {
    forall i :: 0 <= i < |s| ==> IsSpace(s[i])
  }

  predicate AllStripSpace(s: string) {
    forall i :: 0 <= i < |s| ==> IsStripSpace(s[i])
  }

  predicate NoSpace(s: string) {
    forall i :: 0 <= i < |s| ==> !IsSpace(s[i])
  }

  predicate NoNewline(s: string) {
    forall i :: 0 <= i < |s| ==> s[i] != '\n'
  }

  /** ASCII lower-casing, as `downcase` and the `/i` flag apply it to ASCII letters. */
  function Lower(c: char): (d: char)
    ensures 'A' <= c <= 'Z' ==> 'a' <= d <= 'z'
    ensures !('A' <= c <= 'Z') ==> d == c
  {
    if 'A' <= c <= 'Z' then (c as int + 32) as char else c
  }

  function LowerString(s: string): (r: string)
    ensures |r| == |s|
    ensures forall i :: 0 <= i < |s| ==> r[i] == Lower(s[i])
  {
    if s == [] then [] else [Lower(s[0])] + LowerString(s[1..])
  }

  predicate StartsWith(s: string, p: string) {
    |p| <= |s| && s[..|p|] == p
  }

  /** Prefix test with ASCII case folding, as a `/^prefix/i` regular expression does it. */
  predicate StartsWithIgnoringCase(s: string, p: string) {
    |p| <= |s| && forall i :: 0 <= i < |p| ==> Lower(s[i]) == Lower(p[i])
  }

  predicate EndsWith(s: string, p: string) {
    |p| <= |s| && s[|s| - |p|..] == p
  }

  /** `sub` occurs in `s` starting at index `i`. */
  predicate OccursAt(s: string, sub: string, i: int) {
    0 <= i <= |s| - |sub| && s[i..i + |sub|] == sub
  }

  /** `String#include?`. */
  predicate Contains(s: string, sub: string) {
    exists i | 0 <= i <= |s| - |sub| :: OccursAt(s, sub, i)
  }

  /** Concatenation of a list of strings. */
  function Concat(ss: seq<string>): (r: string)
    ensures |ss| == 1 ==> r == ss[0]
  {
    if ss == [] then [] else ss[0] + Concat(ss[1..])
  }

  lemma {:induction false} ConcatAppend(a: seq<string>, b: seq<string>)
    ensures Concat(a + b) == Concat(a) + Concat(b)
  {
    if a != [] {
      assert (a + b)[1..] == a[1..] + b;
      ConcatAppend(a[1..], b);
    } else {
      assert a + b == b;
    }
  }

  // ---------------------------------------------------------------------------
  // strip
  // ---------------------------------------------------------------------------

  /** `\s*` at the start of a regular expression: skips the leading `\s` characters. */
  function SkipSpace(s: string): (r: string)
    ensures |r| <= |s|
    ensures r == [] || !IsSpace(r[0])
  {
    if s != [] && IsSpace(s[0]) then SkipSpace(s[1..]) else s
  }

  /** `\s*` skips exactly a leading run of blanks. */
  lemma {:induction false} SkipSpaceAfterBlanks(sp: string, t: string)
    requires AllSpace(sp) && (t == [] || !IsSpace(t[0]))
    ensures SkipSpace(sp + t) == t
  {
    if sp != [] {
      assert (sp + t)[1..] == sp[1..] + t;
      SkipSpaceAfterBlanks(sp[1..], t);
    } else {
      assert sp + t == t;
    }
  }

  /** `lstrip`: drops the leading whitespace. */
  function LStrip(s: string): (r: string)
    ensures |r| <= |s|
    ensures r == [] || !IsStripSpace(r[0])
  {
    if s != [] && IsStripSpace(s[0]) then LStrip(s[1..]) else s
  }

  /** `lstrip` drops exactly a leading run of whitespace. */
  lemma {:induction false} LStripAfterBlanks(sp: string, t: string)
    requires AllStripSpace(sp) && (t == [] || !IsStripSpace(t[0]))
    ensures LStrip(sp + t) == t
  {
    if sp != [] {
      assert (sp + t)[1..] == sp[1..] + t;
      LStripAfterBlanks(sp[1..], t);
    } else {
      assert sp + t == t;
    }
  }

  /** What `lstrip` drops is whitespace, and what it keeps is the rest of `s`. */
  lemma {:induction false} LStripSuffix(s: string)
    ensures LStrip(s) == s[|s| - |LStrip(s)|..]
    ensures AllStripSpace(s[..|s| - |LStrip(s)|])
  {
    if s != [] && IsStripSpace(s[0]) {
      LStripSuffix(s[1..]);
      var n := |s| - |LStrip(s)|;
      assert s[1..][n - 1..] == s[n..];
      assert forall i :: 1 <= i < n ==> s[..n][i] == s[1..][..n - 1][i - 1];
    } else {
      assert s[..0] == [];
    }
  }

  /** Characters `rstrip` removes in Ruby 1.9: whitespace and NUL. */
  predicate IsTrailingJunk(c: char) {
    IsStripSpace(c) || c == '\0'
  }

  /** `rstrip`: drops the trailing whitespace and NUL characters. */
  function RStrip(s: string): (r: string)
    ensures |r| <= |s| && r == s[..|r|]
    ensures r == [] || !IsTrailingJunk(r[|r| - 1])
    ensures forall i :: |r| <= i < |s| ==> IsTrailingJunk(s[i])
  {
    if s != [] && IsTrailingJunk(s[|s| - 1]) then RStrip(s[..|s| - 1]) else s
  }

  /** `strip`. */
  function Strip(s: string): (r: string)
    ensures |r| <= |s|
    ensures r == [] || (!IsStripSpace(r[0]) && !IsTrailingJunk(r[|r| - 1]))
  {
    RStrip(LStrip(s))
  }

  /** What `strip` keeps is the part of `s` after its leading whitespace. */
  lemma StripInside(s: string)
    ensures OccursAt(s, Strip(s), |s| - |LStrip(s)|)
  {
    LStripSuffix(s);
    var l := LStrip(s);
    var r := RStrip(l);
    assert s[|s| - |l|..|s| - |l| + |r|] == l[..|r|];
  }

  // ---------------------------------------------------------------------------
  // readlines
  // ---------------------------------------------------------------------------

  /** A single line as `readlines` yields it: not empty, and a "\n" only at its end. */
  predicate IsLine(l: string) {
    l != [] && forall i :: 0 <= i < |l| - 1 ==> l[i] != '\n'
  }

  /** A line that carries its "\n" terminator. */
  predicate EndsLine(l: string) {
    l != [] && l[|l| - 1] == '\n'
  }

  /**
   * `IO#readlines`: the lines of `s`, each keeping its "\n" terminator; the
   * last one is unterminated when `s` does not end in "\n".
   */
  function ReadLines(s: string): (ls: seq<string>)
    ensures ls == [] <==> s == []
    decreases |s|
  {
    if s == [] then []
    else
      var rest := ReadLines(s[1..]);
      if s[0] == '\n' || rest == [] then [[s[0]]] + rest
      else [[s[0]] + rest[0]] + rest[1..]
  }

  /** The lines add back up to the text. */
  lemma {:induction false} ReadLinesConcat(s: string)
    ensures Concat(ReadLines(s)) == s
    decreases |s|
  {
    if s != [] {
      var rest := ReadLines(s[1..]);
      ReadLinesConcat(s[1..]);
      if !(s[0] == '\n' || rest == []) {
        assert Concat(rest) == rest[0] + Concat(rest[1..]);
        assert ([[s[0]] + rest[0]] + rest[1..])[1..] == rest[1..];
      } else {
        assert ([[s[0]]] + rest)[1..] == rest;
      }
    }
  }

  /** Every line is a line, and every line but the last ends with "\n". */
  lemma {:induction false} ReadLinesAreLines(s: string)
    ensures forall i :: 0 <= i < |ReadLines(s)| ==> IsLine(ReadLines(s)[i])
    ensures forall i :: 0 <= i < |ReadLines(s)| - 1 ==> EndsLine(ReadLines(s)[i])
    decreases |s|
  {
    if s != [] {
      var rest := ReadLines(s[1..]);
      ReadLinesAreLines(s[1..]);
      var ls := ReadLines(s);
      if s[0] == '\n' || rest == [] {
        assert ls == [[s[0]]] + rest;
        assert IsLine(ls[0]);
        assert forall i :: 1 <= i < |ls| ==> ls[i] == rest[i - 1];
      } else {
        var first := [s[0]] + rest[0];
        assert ls == [first] + rest[1..];
        assert IsLine(first) by {
          forall i | 0 <= i < |first| - 1 ensures first[i] != '\n' {
            if i > 0 { assert first[i] == rest[0][i - 1]; }
          }
        }
        assert EndsLine(rest[0]) ==> EndsLine(first);
        assert forall i :: 1 <= i < |ls| ==> ls[i] == rest[i];
      }
    }
  }

  /** Reading lines distributes over text whose first part ends a line. */
  lemma {:induction false} ReadLinesAppend(a: string, b: string)
    requires a == [] || EndsLine(a)
    ensures ReadLines(a + b) == ReadLines(a) + ReadLines(b)
    decreases |a|
  {
    if a == [] {
      assert a + b == b;
    } else {
      var c, a' := a[0], a[1..];
      assert a + b == [c] + (a' + b) && a == [c] + a';
      ReadLinesAppend(a', b);
      var r, rb := ReadLines(a'), ReadLines(b);
      if c != '\n' {
        assert a' != [] && r != [];
        calc {
          ReadLines(a + b);
          { ReadLinesCons(c, a' + b); }
          [[c] + (r + rb)[0]] + (r + rb)[1..];
          { assert (r + rb)[0] == r[0] && (r + rb)[1..] == r[1..] + rb; }
          [[c] + r[0]] + (r[1..] + rb);
          { AppendAssoc([[c] + r[0]], r[1..], rb); }
          ([[c] + r[0]] + r[1..]) + rb;
          { ReadLinesCons(c, a'); }
          ReadLines(a) + rb;
        }
      } else {
        calc {
          ReadLines(a + b);
          { ReadLinesCons(c, a' + b); }
          [[c]] + (r + rb);
          { AppendAssoc([[c]], r, rb); }
          ([[c]] + r) + rb;
          { ReadLinesCons(c, a'); }
          ReadLines(a) + rb;
        }
      }
    }
  }

  lemma AppendAssoc<T>(x: seq<T>, y: seq<T>, z: seq<T>)
    ensures x + (y + z) == (x + y) + z
  {
  }

  /** One more character in front: a new line, or a longer first line. */
  lemma ReadLinesCons(c: char, t: string)
    ensures t == [] || c == '\n' ==> ReadLines([c] + t) == [[c]] + ReadLines(t)
    ensures t != [] && c != '\n' ==>
      ReadLines([c] + t) == [[c] + ReadLines(t)[0]] + ReadLines(t)[1..]
  {
    assert ([c] + t)[1..] == t;
  }

  /** A whole terminated line in front is the first line read. */
  lemma ReadLinesFront(l: string, rest: string)
    requires IsLine(l) && EndsLine(l)
    ensures ReadLines(l + rest) == [l] + ReadLines(rest)
  {
    ReadLinesOfLine(l);
    ReadLinesAppend(l, rest);
  }

  /** A single line reads back as itself. */
  lemma {:induction false} ReadLinesOfLine(l: string)
    requires IsLine(l)
    ensures ReadLines(l) == [l]
    decreases |l|
  {
    if |l| > 1 {
      assert l[0] != '\n';
      assert IsLine(l[1..]) by {
        forall i | 0 <= i < |l[1..]| - 1 ensures l[1..][i] != '\n' {
          assert l[1..][i] == l[i + 1];
        }
      }
      ReadLinesOfLine(l[1..]);
      assert [l[0]] + l[1..] == l;
    } else {
      assert l[1..] == [] && [l[0]] == l;
    }
  }

  // ---------------------------------------------------------------------------
  // split(/\s+/)
  // ---------------------------------------------------------------------------

  /**
   * The fields between the whitespace runs of `s`, trailing empty ones kept
   * (what `split(/\s+/, -1)` returns). Defined one character at a time: a
   * non-space character extends the first field; a whitespace character
   * opens a new field unless the next character is whitespace too.
   */
  function SpaceFields(s: string): (r: seq<string>)
    ensures |r| >= 1
    ensures r[0] == [] <==> s == [] || IsSpace(s[0])
    decreases |s|
  {
    if s == [] then [[]]
    else
      var rest := SpaceFields(s[1..]);
      if !IsSpace(s[0]) then [[s[0]] + rest[0]] + rest[1..]
      else if |s| > 1 && IsSpace(s[1]) then rest
      else [[]] + rest
  }

  /** No field holds whitespace, and only the first and the last can be empty. */
  lemma {:induction false} SpaceFieldsShape(s: string)
    ensures forall i :: 0 <= i < |SpaceFields(s)| ==> NoSpace(SpaceFields(s)[i])
    ensures forall i :: 1 <= i < |SpaceFields(s)| - 1 ==> SpaceFields(s)[i] != []
    decreases |s|
  {
    if s != [] {
      SpaceFieldsShape(s[1..]);
      var rest, r := SpaceFields(s[1..]), SpaceFields(s);
      if !IsSpace(s[0]) {
        var first := [s[0]] + rest[0];
        assert r == [first] + rest[1..];
        assert NoSpace(first) by {
          forall i | 0 <= i < |first| ensures !IsSpace(first[i]) {
            if i > 0 { assert first[i] == rest[0][i - 1]; }
          }
        }
        assert forall i :: 1 <= i < |r| ==> r[i] == rest[i];
      } else if !(|s| > 1 && IsSpace(s[1])) {
        assert r == [[]] + rest;
        assert forall i :: 1 <= i < |r| ==> r[i] == rest[i - 1];
      }
    }
  }

  /** Drops the empty strings at the end of a list, as `split` does. */
  function DropTrailingEmpty(ss: seq<string>): (r: seq<string>)
    ensures |r| <= |ss| && r == ss[..|r|]
    ensures r == [] || r[|r| - 1] != []
    ensures forall i :: |r| <= i < |ss| ==> ss[i] == []
  {
    if ss != [] && ss[|ss| - 1] == [] then DropTrailingEmpty(ss[..|ss| - 1]) else ss
  }

  /**
   * `split(/\s+/)`: the words of `s`. A leading empty word appears when `s`
   * starts with whitespace (and has a word after it); there are no others.
   */
  function SplitOnSpace(s: string): (ws: seq<string>)
    ensures forall i :: 0 <= i < |ws| ==> NoSpace(ws[i])
    ensures forall i :: 1 <= i < |ws| ==> ws[i] != []
    ensures |ws| > 0 && ws[0] == [] ==> s != [] && IsSpace(s[0])
  {
    SpaceFieldsShape(s);
    DropTrailingEmpty(SpaceFields(s))
  }

  /** Whitespace removed: what the words of `split(/\s+/)` add up to. */
  function WithoutSpace(s: string): string {
    if s == [] then []
    else if IsSpace(s[0]) then WithoutSpace(s[1..])
    else [s[0]] + WithoutSpace(s[1..])
  }

  lemma {:induction false} ConcatDropTrailingEmpty(ss: seq<string>)
    ensures Concat(DropTrailingEmpty(ss)) == Concat(ss)
  {
    var r := DropTrailingEmpty(ss);
    assert ss == r + ss[|r|..];
    ConcatAppend(r, ss[|r|..]);
    ConcatOfEmpties(ss[|r|..]);
  }

  lemma {:induction false} ConcatOfEmpties(ss: seq<string>)
    requires forall i :: 0 <= i < |ss| ==> ss[i] == []
    ensures Concat(ss) == []
  {
    if ss != [] {
      ConcatOfEmpties(ss[1..]);
    }
  }

  lemma {:induction false} ConcatSpaceFields(s: string)
    ensures Concat(SpaceFields(s)) == WithoutSpace(s)
    decreases |s|
  {
    if s != [] {
      var rest := SpaceFields(s[1..]);
      ConcatSpaceFields(s[1..]);
      if !IsSpace(s[0]) {
        var r := SpaceFields(s);
        assert r[0] == [s[0]] + rest[0] && r[1..] == rest[1..];
        assert Concat(rest) == rest[0] + Concat(rest[1..]);
        AppendAssoc([s[0]], rest[0], Concat(rest[1..]));
      } else if !(|s| > 1 && IsSpace(s[1])) {
        assert ([[]] + rest)[1..] == rest;
      }
    }
  }

  lemma {:induction false} WithoutSpaceAppend(a: string, b: string)
    ensures WithoutSpace(a + b) == WithoutSpace(a) + WithoutSpace(b)
    decreases |a|
  {
    if a == [] {
      assert a + b == b;
    } else {
      assert (a + b)[1..] == a[1..] + b;
      WithoutSpaceAppend(a[1..], b);
    }
  }

  lemma {:induction false} WithoutSpaceOfNoSpace(s: string)
    requires NoSpace(s)
    ensures WithoutSpace(s) == s
    decreases |s|
  {
    if s != [] {
      WithoutSpaceOfNoSpace(s[1..]);
    }
  }

  /** The words of `split(/\s+/)` are exactly the text with its whitespace removed. */
  lemma SplitOnSpaceKeepsText(s: string)
    ensures Concat(SplitOnSpace(s)) == WithoutSpace(s)
  {
    ConcatDropTrailingEmpty(SpaceFields(s));
    ConcatSpaceFields(s);
  }

  // ---------------------------------------------------------------------------
  // [line] markers
  // ---------------------------------------------------------------------------

  const LineMarker: string := "[line]"

  /** A `[line]` marker, in any letter case, starts at the head of `s`. */
  predicate MarkerAt(s: string) {
    StartsWithIgnoringCase(s, LineMarker)
  }

  /** `w[/\[line\]/i]`: the word holds a line marker. */
  predicate HasMarker(s: string) {
    exists i :: 0 <= i < |s| && MarkerAt(s[i..])
  }

  /** Length of the leading text that contains no line marker. */
  function MarkerFreeRun(s: string): (k: nat)
    ensures k <= |s|
    ensures forall i :: 0 <= i < k ==> !MarkerAt(s[i..])
    ensures k < |s| ==> MarkerAt(s[k..])
  {
    if s == [] || MarkerAt(s) then 0
    else
      var k := 1 + MarkerFreeRun(s[1..]);
      assert forall i :: 1 <= i < k ==> s[i..] == s[1..][i - 1..];
      k
  }

  /** The pieces between the line markers of `s`, trailing empty ones kept. */
  function MarkerFields(s: string): (r: seq<string>)
    ensures |r| >= 1
    decreases |s|
  {
    var k := MarkerFreeRun(s);
    if k == |s| then [s] else [s[..k]] + MarkerFields(s[k + |LineMarker|..])
  }

  /** `split(/\[line\]/i)`: the pieces of a word between its line markers. */
  function SplitOnMarker(s: string): (r: seq<string>)
    ensures r == [] || r[|r| - 1] != []
  {
    DropTrailingEmpty(MarkerFields(s))
  }

  /** The pieces of a word without whitespace between its line markers have none either. */
  lemma SplitOnMarkerNoSpace(s: string)
    requires NoSpace(s)
    ensures forall i :: 0 <= i < |SplitOnMarker(s)| ==> NoSpace(SplitOnMarker(s)[i])
  {
    MarkerFieldsNoSpace(s);
  }

  lemma {:induction false} MarkerFieldsNoSpace(s: string)
    requires NoSpace(s)
    ensures forall i :: 0 <= i < |MarkerFields(s)| ==> NoSpace(MarkerFields(s)[i])
    decreases |s|
  {
    var k := MarkerFreeRun(s);
    if k < |s| {
      var t := s[k + |LineMarker|..];
      NoSpaceSlice(s, k + |LineMarker|, |s|);
      NoSpaceSlice(s, 0, k);
      MarkerFieldsNoSpace(t);
      assert MarkerFields(s) == [s[..k]] + MarkerFields(t);
      ConsNoSpace(s[..k], MarkerFields(t));
    }
  }

  lemma ConsNoSpace(head: string, tail: seq<string>)
    requires NoSpace(head) && forall i :: 0 <= i < |tail| ==> NoSpace(tail[i])
    ensures forall i :: 0 <= i < |[head] + tail| ==> NoSpace(([head] + tail)[i])
  {
    forall i | 1 <= i < |[head] + tail| ensures NoSpace(([head] + tail)[i]) {
      assert ([head] + tail)[i] == tail[i - 1];
    }
  }

  lemma NoSpaceSlice(s: string, a: nat, b: nat)
    requires NoSpace(s) && a <= b <= |s|
    ensures NoSpace(s[a..b])
  {
    assert forall i :: 0 <= i < b - a ==> s[a..b][i] == s[a + i];
  }

  /** `gsub(/[\r\n]+/) { '[line]' }`: every run of line breaks becomes one marker. */
  function MarkLineBreaks(s: string): (r: string)
    ensures forall i :: 0 <= i < |r| ==> r[i] != '\n' && r[i] != '\r'
    decreases |s|
  {
    if s == [] then []
    else if s[0] == '\n' || s[0] == '\r' then LineMarker + MarkLineBreaks(s[BreakRun(s)..])
    else [s[0]] + MarkLineBreaks(s[1..])
  }

  /** Length of the leading run of CR and LF characters. */
  function BreakRun(s: string): (k: nat)
    ensures k <= |s|
    ensures s != [] && (s[0] == '\n' || s[0] == '\r') ==> k > 0
  {
    if s != [] && (s[0] == '\n' || s[0] == '\r') then 1 + BreakRun(s[1..]) else 0
  }

  /** With no line breaks left, marking them again changes nothing. */
  lemma {:induction false} MarkLineBreaksIdempotent(s: string)
    ensures MarkLineBreaks(MarkLineBreaks(s)) == MarkLineBreaks(s)
  {
    NoBreaksUnchanged(MarkLineBreaks(s));
  }

  lemma {:induction false} NoBreaksUnchanged(s: string)
    requires forall i :: 0 <= i < |s| ==> s[i] != '\n' && s[i] != '\r'
    ensures MarkLineBreaks(s) == s
  {
    if s != [] {
      NoBreaksUnchanged(s[1..]);
    }
  }

  // ---------------------------------------------------------------------------
  // numbers
  // ---------------------------------------------------------------------------

  function DigitChar(d: nat): (c: char)
    requires d < 10
    ensures IsDigit(c)
  {
    "0123456789"[d]
  }

  /** `Integer#to_s` for a natural number. */
  function NatToString(n: nat): (s: string)
    ensures s != []
    decreases n
  {
    if n < 10 then [DigitChar(n)] else NatToString(n / 10) + [DigitChar(n % 10)]
  }

  /** `to_i` reads back what `to_s` writes for a natural number. */
  lemma {:induction false} NatToStringValue(n: nat)
    ensures AllDigits(NatToString(n)) && DigitsValue(NatToString(n)) == n
    decreases n
  {
    if n >= 10 {
      NatToStringValue(n / 10);
      var s := NatToString(n);
      assert s[..|s| - 1] == NatToString(n / 10);
    }
  }

  /** `Integer#to_s`. */
  function IntToString(n: int): (s: string)
    ensures s != []
  {
    if n >= 0 then NatToString(n) else "-" + NatToString(-n)
  }

  /** The value of a run of decimal digits, as `to_i` reads it. */
  function DigitsValue(s: string): nat
    requires AllDigits(s)
  {
    if s == [] then 0
    else
      assert IsDigit(s[|s| - 1]);
      10 * DigitsValue(s[..|s| - 1]) + (s[|s| - 1] as int - '0' as int)
  }

  /** Length of the leading run of decimal digits. */
  function DigitRun(s: string): (k: nat)
    ensures k <= |s| && AllDigits(s[..k])
    ensures k < |s| ==> !IsDigit(s[k])
  {
    if s == [] || !IsDigit(s[0]) then 0
    else
      var k := 1 + DigitRun(s[1..]);
      assert s[..k] == [s[0]] + s[1..][..k - 1];
      k
  }

  /** A digit run is as long as the digits that start `d + t` when `t` starts with none. */
  lemma {:induction false} DigitRunOfDigits(d: string, t: string)
    requires AllDigits(d) && (t == [] || !IsDigit(t[0]))
    ensures DigitRun(d + t) == |d| && (d + t)[..|d|] == d
  {
    if d != [] {
      assert (d + t)[1..] == d[1..] + t;
      DigitRunOfDigits(d[1..], t);
    } else {
      assert d + t == t;
    }
  }

  /** Length of the leading run of word characters. */
  function WordRun(s: string): (k: nat)
    ensures k <= |s| && AllWordChars(s[..k])
    ensures k < |s| ==> !IsWordChar(s[k])
  {
    if s == [] || !IsWordChar(s[0]) then 0
    else
      var k := 1 + WordRun(s[1..]);
      assert s[..k] == [s[0]] + s[1..][..k - 1];
      k
  }

  /** The word-character run of `w + t` is `w` when `t` does not go on with a word character. */
  lemma {:induction false} WordRunOfWord(w: string, t: string)
    requires AllWordChars(w) && (t == [] || !IsWordChar(t[0]))
    ensures WordRun(w + t) == |w|
    decreases |w|
  {
    if w != [] {
      assert (w + t)[1..] == w[1..] + t;
      WordRunOfWord(w[1..], t);
    } else {
      assert w + t == t;
    }
  }

  /** Lexicographic order on strings, as `String#<` compares them. */
  predicate LessThan(a: string, b: string)
    decreases |a|
  {
    if a == [] then b != []
    else if b == [] then false
    else if a[0] != b[0] then a[0] < b[0]
    else LessThan(a[1..], b[1..])
  }

  lemma {:induction false} LessThanIrreflexive(a: string)
    ensures !LessThan(a, a)
    decreases |a|
  {
    if a != [] {
      LessThanIrreflexive(a[1..]);
    }
  }

  lemma {:induction false} LessThanAsymmetric(a: string, b: string)
    requires LessThan(a, b)
    ensures !LessThan(b, a)
    decreases |a|
  {
    if a != [] && b != [] && a[0] == b[0] {
      LessThanAsymmetric(a[1..], b[1..]);
    }
  }

  lemma {:induction false} LessThanTransitive(a: string, b: string, c: string)
    requires LessThan(a, b) && LessThan(b, c)
    ensures LessThan(a, c)
    decreases |a|
  {
    if a != [] && a[0] == b[0] && b[0] == c[0] {
      LessThanTransitive(a[1..], b[1..], c[1..]);
    }
  }

  lemma {:induction false} LessThanTotal(a: string, b: string)
    ensures a == b || LessThan(a, b) || LessThan(b, a)
    decreases |a|
  {
    if a != [] && b != [] && a[0] == b[0] {
      LessThanTotal(a[1..], b[1..]);
      if a[1..] == b[1..] {
        assert a == [a[0]] + a[1..] && b == [b[0]] + b[1..];
      }
    }
  }

  /** Lexicographic order on strings, as `sort` orders keys. */
  predicate AtMost(a: string, b: string) {
    !LessThan(b, a)
  }
}
