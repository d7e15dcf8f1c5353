/**
 * Recognising a line of a text file: comment and blank lines, and the tag
 * table (`[Key]`, `[Face]`, `[AFace]`, `[PFace]`, `[DFace]`, `[Name]`,
 * `[FName]`, `[Position]`, `[Background]`). Each tag is a regular expression
 * anchored at the start of the line; here each is written out as a prefix
 * test followed by the argument pattern it captures. All tags ignore letter
 * case except `[FName]`.
 */
module Tags {
  import opened Wrappers
  import opened RubyString

  /** The tag a line matched, with the arguments its handler receives. */
  datatype Tag =
    | Key(key: string)
    | Face(file: string, index: nat)
    | AFace(actor: nat)
    | PFace(member: nat)
    | DFace(name: string)
    | Name(name: string)
    | FName(name: string)
    | Position(position: nat)
    | Background(background: nat)

  /**
   * The line is blank, or its first non-blank characters start a `#` or `//`
   * comment. (Stated for one line as `readlines` yields it.)
   */
  predicate IsSkipped(line: string) {
    var t := SkipSpace(line);
    t == [] || StartsWith(t, "#") || StartsWith(t, "//")
  }

  /** `r` up to, not including, its first "\n". */
  function UpToNewline(r: string): (t: string)
    ensures |t| <= |r| && t == r[..|t|]
    ensures NoNewline(t)
    ensures |t| < |r| ==> r[|t|] == '\n'
  {
    if r == [] || r[0] == '\n' then []
    else
      var t := [r[0]] + UpToNewline(r[1..]);
      assert r[..|t|] == [r[0]] + r[1..][..|t| - 1];
      t
  }

  /**
   * The capture of `\s*(.+)` at the start of `r`. The greedy `\s*` gives back
   * whitespace only when nothing but whitespace and line breaks follow, so
   * the capture is the rest of the line after the leading blanks, or else
   * the last blank before the line break.
   */
  function RestOfLine(r: string): (a: Option<string>)
    ensures a.Some? ==> a.value != [] && NoNewline(a.value)
    decreases |r|
  {
    if r == [] then None
    else if IsSpace(r[0]) && RestOfLine(r[1..]).Some? then RestOfLine(r[1..])
    else if r[0] != '\n' then Some(UpToNewline(r))
    else None
  }

  /** `\s*\d` matches at the start of `r`. */
  predicate DigitFollows(r: string) {
    var t := SkipSpace(r);
    t != [] && IsDigit(t[0])
  }

  /** The capture of `\s*(\d+)`, read with `to_i`. */
  function DigitsArg(r: string): (a: Option<nat>)
    ensures a.Some? <==> DigitFollows(r)
  {
    var t := SkipSpace(r);
    if t != [] && IsDigit(t[0]) then Some(DigitsValue(t[..DigitRun(t)])) else None
  }

  /**
   * The capture of `\s*(W0|W1|...)` under `/i`, as the index of the first
   * alternative that matches (the handlers map the alternatives to 0, 1, 2).
   */
  function KeywordArg(r: string, words: seq<string>): (a: Option<nat>)
    ensures a.Some? ==> a.value < |words| && StartsWithIgnoringCase(SkipSpace(r), words[a.value])
    ensures a.None? ==> forall i :: 0 <= i < |words| ==> !StartsWithIgnoringCase(SkipSpace(r), words[i])
  {
    if words == [] then None
    else if StartsWithIgnoringCase(SkipSpace(r), words[0]) then Some(0)
    else
      match KeywordArg(r, words[1..])
      case None => None
      case Some(i) => Some(i + 1)
  }

  /** A comma at `c` followed by optional whitespace and a digit, as `,(?:\s*)(\d+)` needs. */
  predicate FaceCommaAt(r: string, c: nat) {
    c < |r| && r[c] == ',' && DigitFollows(r[c + 1..])
  }

  /** The last comma before `hi` (and after the first character) that `FaceCommaAt` accepts. */
  function LastFaceComma(r: string, hi: nat): (c: Option<nat>)
    requires hi <= |r|
    ensures c.Some? ==> 1 <= c.value < hi && FaceCommaAt(r, c.value)
    ensures c.Some? ==> forall j :: c.value < j < hi ==> !FaceCommaAt(r, j)
    ensures c.None? ==> forall j :: 1 <= j < hi ==> !FaceCommaAt(r, j)
  {
    if hi <= 1 then None
    else if FaceCommaAt(r, hi - 1) then Some(hi - 1)
    else LastFaceComma(r, hi - 1)
  }

  /**
   * `(.+),(?:\s*)(\d+)` at the start of `r`: the greedy `.+` runs to the last
   * suitable comma on the line.
   */
  function FaceAt(r: string): Option<(string, nat)> {
    match LastFaceComma(r, |UpToNewline(r)|)
    case None => None
    case Some(c) => Some((r[..c], DigitsArg(r[c + 1..]).value))
  }

  /** The captures of `\s*(.+),(?:\s*)(\d+)` at the start of `r`. */
  function FaceArgs(r: string): Option<(string, nat)>
    decreases |r|
  {
    if r != [] && IsSpace(r[0]) && FaceArgs(r[1..]).Some? then FaceArgs(r[1..])
    else FaceAt(r)
  }

  const PositionWords: seq<string> := ["Top", "Center", "Bottom"]
  const BackgroundWords: seq<string> := ["Normal", "Dim", "Transparent"]

  /**
   * What follows the tag at the start of `line`, if the line starts with it
   * (ignoring letter case unless `exact`).
   */
  function AfterTag(line: string, tag: string, exact: bool): (rest: Option<string>)
    requires tag != [] && tag[0] == '['
    ensures rest.Some? ==> |tag| <= |line| && rest.value == line[|tag|..] && line[0] == '['
    ensures rest.Some? <==> if exact then StartsWith(line, tag) else StartsWithIgnoringCase(line, tag)
  {
    if exact && StartsWith(line, tag) then
      Some(line[|tag|..])
    else if !exact && StartsWithIgnoringCase(line, tag) then
      assert Lower(line[0]) == Lower(tag[0]);
      Some(line[|tag|..])
    else None
  }

  /** The captures that follow a tag: the text of `\s*(.+)` and the rest. */
  function TextAfter(line: string, tag: string, exact: bool): (a: Option<string>)
    requires tag != [] && tag[0] == '['
    ensures a.Some? ==> line != [] && line[0] == '['
  {
    match AfterTag(line, tag, exact)
    case None => None
    case Some(rest) => RestOfLine(rest)
  }

  function DigitsAfter(line: string, tag: string): (a: Option<nat>)
    requires tag != [] && tag[0] == '['
    ensures a.Some? ==> line != [] && line[0] == '['
  {
    match AfterTag(line, tag, false)
    case None => None
    case Some(rest) => DigitsArg(rest)
  }

  function KeywordAfter(line: string, tag: string, words: seq<string>): (a: Option<nat>)
    requires tag != [] && tag[0] == '['
    ensures a.Some? ==> line != [] && line[0] == '[' && a.value < |words|
  {
    match AfterTag(line, tag, false)
    case None => None
    case Some(rest) => KeywordArg(rest, words)
  }

  function FaceAfter(line: string): (a: Option<(string, nat)>)
    ensures a.Some? ==> line != [] && line[0] == '['
  {
    match AfterTag(line, "[Face]", false)
    case None => None
    case Some(rest) => FaceArgs(rest)
  }

  /**
   * The tag the line matches, if any. The table is tried in order and the
   * first tag whose whole pattern matches wins (its handler clears the line,
   * so no later tag can match it).
   */
  function ParseTag(line: string): (t: Option<Tag>)
    ensures t.Some? ==> line != [] && line[0] == '['
  {
    if TextAfter(line, "[Key]", false).Some? then
      Some(Key(TextAfter(line, "[Key]", false).value))
    else if FaceAfter(line).Some? then
      Some(Face(FaceAfter(line).value.0, FaceAfter(line).value.1))
    else if DigitsAfter(line, "[AFace]").Some? then
      Some(AFace(DigitsAfter(line, "[AFace]").value))
    else if DigitsAfter(line, "[PFace]").Some? then
      Some(PFace(DigitsAfter(line, "[PFace]").value))
    else if TextAfter(line, "[DFace]", false).Some? then
      Some(DFace(TextAfter(line, "[DFace]", false).value))
    else if TextAfter(line, "[Name]", false).Some? then
      Some(Name(TextAfter(line, "[Name]", false).value))
    else if TextAfter(line, "[FName]", true).Some? then
      Some(FName(TextAfter(line, "[FName]", true).value))
    else if KeywordAfter(line, "[Position]", PositionWords).Some? then
      Some(Position(KeywordAfter(line, "[Position]", PositionWords).value))
    else if KeywordAfter(line, "[Background]", BackgroundWords).Some? then
      Some(Background(KeywordAfter(line, "[Background]", BackgroundWords).value))
    else None
  }

  // ---------------------------------------------------------------------------
  // Properties
  // ---------------------------------------------------------------------------

  /** A tag line starts with `[`, so it is never taken for a comment or a blank line. */
  lemma TagLineNotSkipped(line: string)
    requires ParseTag(line).Some?
    ensures !IsSkipped(line)
  {
    assert SkipSpace(line) == line;
  }

  lemma {:induction false} UpToNewlineOfLine(k: string, eol: string)
    requires NoNewline(k) && (eol == [] || eol[0] == '\n')
    ensures UpToNewline(k + eol) == k
    decreases |k|
  {
    if k == [] {
      assert k + eol == eol;
    } else {
      assert (k + eol)[1..] == k[1..] + eol;
      UpToNewlineOfLine(k[1..], eol);
    }
  }

  /** `\s*(.+)` captures everything after the blanks up to the end of the line. */
  lemma {:induction false} RestOfLineAfterBlanks(sp: string, k: string, eol: string)
    requires AllSpace(sp) && k != [] && !IsSpace(k[0]) && NoNewline(k)
    requires eol == [] || eol[0] == '\n'
    ensures RestOfLine(sp + k + eol) == Some(k)
    decreases |sp|
  {
    if sp == [] {
      assert sp + k + eol == k + eol;
      UpToNewlineOfLine(k, eol);
    } else {
      assert (sp + k + eol)[1..] == sp[1..] + k + eol;
      RestOfLineAfterBlanks(sp[1..], k, eol);
    }
  }

  /**
   * A `[Key]` line, in any letter case and with any blanks before the key,
   * declares exactly the rest of the line as the key.
   */
  lemma KeyLine(tag: string, sp: string, k: string, eol: string)
    requires |tag| == 5 && StartsWithIgnoringCase(tag, "[Key]")
    requires AllSpace(sp) && k != [] && !IsSpace(k[0]) && NoNewline(k)
    requires eol == [] || eol == "\n"
    ensures ParseTag(tag + (sp + k + eol)) == Some(Key(k))
  {
    var line := tag + (sp + k + eol);
    assert line[5..] == sp + k + eol;
    assert line[..5] == tag;
    RestOfLineAfterBlanks(sp, k, eol);
  }

  /** An `[FName]` line spelled exactly so sets the name and looks up its face. */
  lemma FNameLine(sp: string, n: string, eol: string)
    requires AllSpace(sp) && n != [] && !IsSpace(n[0]) && NoNewline(n)
    requires eol == [] || eol == "\n"
    ensures ParseTag("[FName]" + (sp + n + eol)) == Some(FName(n))
  {
    var rest := sp + n + eol;
    var line := "[FName]" + rest;
    assert line[..7] == "[FName]";
    assert TextAfter(line, "[Key]", false) == None by { assert Lower(line[1]) != Lower("[Key]"[1]); }
    assert FaceAfter(line) == None by { assert Lower(line[2]) != Lower("[Face]"[2]); }
    assert DigitsAfter(line, "[AFace]") == None by { assert Lower(line[1]) != Lower("[AFace]"[1]); }
    assert DigitsAfter(line, "[PFace]") == None by { assert Lower(line[1]) != Lower("[PFace]"[1]); }
    assert TextAfter(line, "[DFace]", false) == None by { assert Lower(line[1]) != Lower("[DFace]"[1]); }
    assert TextAfter(line, "[Name]", false) == None by { assert Lower(line[1]) != Lower("[Name]"[1]); }
    assert TextAfter(line, "[FName]", true) == Some(n) by {
      assert line[7..] == rest;
      RestOfLineAfterBlanks(sp, n, eol);
    }
  }

  /** The same line in lower case matches no tag, so it is text. */
  lemma LowerCaseFNameIsText()
    ensures ParseTag("[fname] Ralph\n") == None
  {
    var low := "[fname] Ralph\n";
    assert TextAfter(low, "[Key]", false) == None by { assert Lower(low[1]) != Lower("[Key]"[1]); }
    assert FaceAfter(low) == None by { assert Lower(low[2]) != Lower("[Face]"[2]); }
    assert DigitsAfter(low, "[AFace]") == None by { assert Lower(low[1]) != Lower("[AFace]"[1]); }
    assert DigitsAfter(low, "[PFace]") == None by { assert Lower(low[1]) != Lower("[PFace]"[1]); }
    assert TextAfter(low, "[DFace]", false) == None by { assert Lower(low[1]) != Lower("[DFace]"[1]); }
    assert TextAfter(low, "[Name]", false) == None by { assert Lower(low[1]) != Lower("[Name]"[1]); }
    assert TextAfter(low, "[FName]", true) == None by { assert low[1] != "[FName]"[1]; }
    assert KeywordAfter(low, "[Position]", PositionWords) == None by {
      assert Lower(low[1]) != Lower("[Position]"[1]);
    }
    assert KeywordAfter(low, "[Background]", BackgroundWords) == None by {
      assert Lower(low[1]) != Lower("[Background]"[1]);
    }
  }

  /** A `[Name]` line in any letter case sets the speaker's name. */
  lemma NameLine(tag: string, sp: string, n: string, eol: string)
    requires |tag| == 6 && StartsWithIgnoringCase(tag, "[Name]")
    requires AllSpace(sp) && n != [] && !IsSpace(n[0]) && NoNewline(n)
    requires eol == [] || eol == "\n"
    ensures ParseTag(tag + (sp + n + eol)) == Some(Name(n))
  {
    var rest := sp + n + eol;
    var line := tag + rest;
    assert line[..6] == tag;
    assert Lower(line[1]) == 'n' by { assert Lower(tag[1]) == Lower("[Name]"[1]); }
    assert TextAfter(line, "[Key]", false) == None by { assert Lower("[Key]"[1]) == 'k'; }
    assert FaceAfter(line) == None by { assert Lower("[Face]"[1]) == 'f'; }
    assert DigitsAfter(line, "[AFace]") == None by { assert Lower("[AFace]"[1]) == 'a'; }
    assert DigitsAfter(line, "[PFace]") == None by { assert Lower("[PFace]"[1]) == 'p'; }
    assert TextAfter(line, "[DFace]", false) == None by { assert Lower("[DFace]"[1]) == 'd'; }
    assert TextAfter(line, "[Name]", false) == Some(n) by {
      assert line[6..] == rest;
      RestOfLineAfterBlanks(sp, n, eol);
    }
  }

  /** A comma that no later suitable comma follows is the one `FaceAt` splits at. */
  lemma LastFaceCommaIs(r: string, c: nat, hi: nat)
    requires hi <= |r| && 1 <= c < hi && FaceCommaAt(r, c)
    requires forall j :: c < j < hi ==> r[j] != ','
    ensures LastFaceComma(r, hi) == Some(c)
  {
    var found := LastFaceComma(r, hi);
    assert found.Some?;
  }

  /** The greedy `\s*` in front of the face arguments skips all the blanks. */
  lemma {:induction false} FaceArgsAfterBlanks(sp: string, r: string)
    requires AllSpace(sp) && r != [] && !IsSpace(r[0]) && FaceAt(r).Some?
    ensures FaceArgs(sp + r) == FaceAt(r)
    decreases |sp|
  {
    if sp == [] {
      assert sp + r == r;
    } else {
      assert (sp + r)[1..] == sp[1..] + r;
      FaceArgsAfterBlanks(sp[1..], r);
    }
  }

  /**
   * A `[Face]` line sets the face file to everything up to the last comma
   * that digits follow, and the face index to the value of those digits.
   */
  lemma FaceLine(sp: string, file: string, sp2: string, digits: string, eol: string)
    requires AllSpace(sp) && file != [] && !IsSpace(file[0]) && NoNewline(file)
    requires AllSpace(sp2) && NoNewline(sp2) && digits != [] && AllDigits(digits)
    requires eol == [] || eol == "\n"
    ensures ParseTag("[Face]" + (sp + (file + ("," + (sp2 + (digits + eol)))))) ==
            Some(Face(file, DigitsValue(digits)))
  {
    var r := file + ("," + (sp2 + (digits + eol)));
    var rest := sp + r;
    var line := "[Face]" + rest;
    FaceAtSplit(file, sp2, digits, eol);
    FaceArgsAfterBlanks(sp, r);
    assert line[..6] == "[Face]" && line[6..] == rest;
    assert TextAfter(line, "[Key]", false) == None by { assert Lower(line[1]) != Lower("[Key]"[1]); }
  }

  lemma FaceAtSplit(file: string, sp2: string, digits: string, eol: string)
    requires file != [] && NoNewline(file)
    requires AllSpace(sp2) && NoNewline(sp2) && digits != [] && AllDigits(digits)
    requires eol == [] || eol == "\n"
    ensures FaceAt(file + ("," + (sp2 + (digits + eol)))) == Some((file, DigitsValue(digits)))
  {
    var tail := sp2 + (digits + eol);
    var r := file + ("," + tail);
    var c := |file|;
    FaceLineEnd(file, sp2, digits, eol);
    assert r[c] == ',' && r[c + 1..] == tail;
    DigitsAfterComma(sp2, digits, eol);
    NoCommaInArgs(tail, sp2, digits, eol);
    CommaBeforeArgs(r, c, tail, |sp2| + |digits|, |UpToNewline(r)|);
    assert r[..c] == file;
  }

  lemma FaceLineEnd(file: string, sp2: string, digits: string, eol: string)
    requires NoNewline(file) && NoNewline(sp2) && AllDigits(digits)
    requires eol == [] || eol == "\n"
    ensures |UpToNewline(file + ("," + (sp2 + (digits + eol))))| == |file| + 1 + |sp2| + |digits|
  {
    var c := |file|;
    var body := file + ("," + (sp2 + digits));
    assert file + ("," + (sp2 + (digits + eol))) == body + eol;
    forall i | 0 <= i < |body| ensures body[i] != '\n' {
      if i < c {
        assert body[i] == file[i];
      } else if i > c && i < c + 1 + |sp2| {
        assert body[i] == sp2[i - c - 1];
      } else if i >= c + 1 + |sp2| {
        assert body[i] == digits[i - c - 1 - |sp2|];
      }
    }
    UpToNewlineOfLine(body, eol);
  }

  /** Neither the blanks nor the digits after the face comma hold a comma. */
  lemma NoCommaInArgs(tail: string, sp2: string, digits: string, eol: string)
    requires tail == sp2 + (digits + eol) && AllSpace(sp2) && AllDigits(digits)
    ensures forall k :: 0 <= k < |sp2| + |digits| ==> tail[k] != ','
  {
    forall k | 0 <= k < |sp2| + |digits| ensures tail[k] != ',' {
      if k < |sp2| {
        assert tail[k] == sp2[k];
      } else {
        assert tail[k] == (digits + eol)[k - |sp2|] == digits[k - |sp2|];
      }
    }
  }

  lemma CommaBeforeArgs(r: string, c: nat, tail: string, m: nat, hi: nat)
    requires 1 <= c < |r| && r[c] == ',' && r[c + 1..] == tail && m <= |tail|
    requires DigitFollows(tail) && hi == c + 1 + m
    requires forall k :: 0 <= k < m ==> tail[k] != ','
    ensures LastFaceComma(r, hi) == Some(c)
  {
    forall j | c < j < hi ensures r[j] != ',' {
      assert r[j] == tail[j - c - 1];
    }
    LastFaceCommaIs(r, c, hi);
  }

  lemma DigitsAfterComma(sp2: string, digits: string, eol: string)
    requires AllSpace(sp2) && digits != [] && AllDigits(digits)
    requires eol == [] || eol == "\n"
    ensures DigitsArg(sp2 + (digits + eol)) == Some(DigitsValue(digits))
  {
    SkipSpaceAfterBlanks(sp2, digits + eol);
    DigitRunOfDigits(digits, eol);
  }
}
