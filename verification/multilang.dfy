/**
 * MultiLang: one text file per language, each loaded into a table of its
 * own, and the player's choice of language remembered in `Game.ini` as a
 * `Language=<name>` entry.
 *
 * `Game.ini` is modelled as an object holding its text; reading and writing
 * the file are reading and assigning that text.
 */
module MultiLang {
  import opened Wrappers
  import opened RubyString
  import opened Parser
  import opened Lookup

  /** The least External Text version MultiLang loads after. */
  const RequiredVersion := "3.0.0"

  /** The help text shown when the text has no `Language Select` key. */
  const DefaultHelp := "Select a language from the list."

  // ---------------------------------------------------------------------------
  // Language=(\w+)
  // ---------------------------------------------------------------------------

  /** `Language=` followed by a word character starts `s`. */
  predicate MatchAtStart(s: string) {
    9 < |s| && s[..9] == "Language=" && IsWordChar(s[9])
  }

  /** `s =~ /Language=(\w+)/`: the name the leftmost match captures. */
  function FirstLanguage(s: string): (r: Option<string>)
    ensures r.Some? ==> r.value != [] && AllWordChars(r.value)
    decreases |s|
  {
    if s == [] then None
    else if MatchAtStart(s) then
      var k := WordRun(s[9..]);
      assert s[9..][..k] == s[9..9 + k];
      Some(s[9..9 + k])
    else FirstLanguage(s[1..])
  }

  /** `gsub(/Language=(\w+)/) { "Language=#{lang}" }`. */
  function ReplaceLanguage(s: string, lang: string): (r: string)
    ensures r == [] <==> s == []
    decreases |s|
  {
    if s == [] then []
    else if MatchAtStart(s) then "Language=" + lang + ReplaceLanguage(s[9 + WordRun(s[9..])..], lang)
    else [s[0]] + ReplaceLanguage(s[1..], lang)
  }

  /**
   * The language `check_language` settles on for the lines of `Game.ini`:
   * the name on the last line whose first `Language=` entry names a listed
   * language, or the first listed language when no line does.
   */
  function Choose(languages: seq<string>, lines: seq<string>): (r: Option<string>)
    ensures r.Some? ==> r.value in languages
    ensures r.None? <==> languages == []
    decreases |lines|
  {
    if lines == [] then (if languages == [] then None else Some(languages[0]))
    else
      var named := FirstLanguage(lines[|lines| - 1]);
      if named.Some? && named.value in languages then named
      else Choose(languages, lines[..|lines| - 1])
  }

  /** An entry appended as a line of its own is found in the result, after the text kept in front. */
  lemma EntryAppended(lines: string, e: string)
    ensures Contains(lines + (e + "\n"), e)
    ensures (lines + (e + "\n"))[..|lines|] == lines
  {
    assert OccursAt(lines + (e + "\n"), e, |lines|);
  }

  /** The text `set_language` writes, as written: the entry is appended right after the last character. */
  function SetLanguageTextAsWritten(ini: string, lang: string): (t: string)
    ensures Contains(t, "Language=" + lang)
    ensures |ReplaceLanguage(ini, lang)| <= |t| && t[..|ReplaceLanguage(ini, lang)|] == ReplaceLanguage(ini, lang)
  {
    var lines := ReplaceLanguage(ini, lang);
    if Contains(lines, "Language=" + lang) then lines
    else
      EntryAppended(lines, "Language=" + lang);
      lines + ("Language=" + lang + "\n")
  }

  /** The text `set_language` is meant to write: an appended entry starts a line of its own. */
  function SetLanguageText(ini: string, lang: string): (t: string)
    ensures Contains(t, "Language=" + lang)
    ensures |ReplaceLanguage(ini, lang)| <= |t| && t[..|ReplaceLanguage(ini, lang)|] == ReplaceLanguage(ini, lang)
  {
    var lines := ReplaceLanguage(ini, lang);
    if Contains(lines, "Language=" + lang) then lines
    else if lines == [] || EndsLine(lines) then
      EntryAppended(lines, "Language=" + lang);
      lines + ("Language=" + lang + "\n")
    else
      EntryAppended(lines + "\n", "Language=" + lang);
      assert lines + "\n" + ("Language=" + lang + "\n") == lines + ("\n" + ("Language=" + lang + "\n"));
      lines + ("\n" + ("Language=" + lang + "\n"))
  }

  /** `Game.ini`. */
  class GameIni {
    var text: string

    constructor(text: string)
      ensures this.text == text
    {
      this.text := text;
    }

    /** `check_language`: each line in turn, a listed name replacing the current choice. */
    method CheckLanguage(languages: seq<string>) returns (language: Option<string>)
      ensures language == Choose(languages, ReadLines(text))
    {
      language := if languages == [] then None else Some(languages[0]);
      var lines := ReadLines(text);
      var i := 0;
      while i < |lines|
        invariant 0 <= i <= |lines|
        invariant language == Choose(languages, lines[..i])
      {
        assert lines[..i + 1][..i] == lines[..i];
        var named := FirstLanguage(lines[i]);
        if named.Some? && named.value in languages {
          language := named;
        }
        i := i + 1;
      }
      assert lines[..i] == lines;
    }

    /**
     * `set_language(language)`: rewrite every entry to the new name, and append
     * one, right after the last character, when none says it.
     */
    method SetLanguage(lang: string)
      modifies this
      ensures text == SetLanguageTextAsWritten(old(text), lang)
    {
      var lines := ReplaceLanguage(text, lang);
      var entry := "Language=" + lang;
      if !Contains(lines, entry) {
        lines := lines + (entry + "\n");
      }
      text := lines;
    }
  }

  // ---------------------------------------------------------------------------
  // Per-language tables
  // ---------------------------------------------------------------------------

  /**
   * The tables of the language files in turn, each filled from an empty
   * table; the key cursor carries over from one file to the next.
   */
  function LanguageTables(cursor: Option<string>, texts: seq<string>, faces: FaceTable): (r: Result<(seq<Table>, Option<string>), Failure>)
    ensures r.Ok? ==> |r.value.0| == |texts|
    decreases |texts|
  {
    if texts == [] then Ok(([], cursor))
    else
      match ParseLines(State(EmptyTable, cursor), ReadLines(texts[0]), faces)
      case Err(e) => Err(e)
      case Ok(s1) =>
        match LanguageTables(s1.cursor, texts[1..], faces)
        case Err(e) => Err(e)
        case Ok(rest) => Ok(([s1.table] + rest.0, rest.1))
  }

  /** Tables already made, put in front of the outcome for the files still to read. */
  function After(tables: seq<Table>, r: Result<(seq<Table>, Option<string>), Failure>): Result<(seq<Table>, Option<string>), Failure> {
    match r
    case Err(e) => Err(e)
    case Ok(rest) => Ok((tables + rest.0, rest.1))
  }

  /** `create_text`: each language's file parsed into a cleared table and that table kept. */
  method CreateText(store: TextStore, texts: seq<string>, faces: FaceTable) returns (tables: seq<Table>, failure: Option<Failure>)
    modifies store
    ensures Made(LanguageTables(old(store.cursor), texts, faces), tables, store.cursor, failure)
  {
    tables := [];
    var i := 0;
    assert texts[0..] == texts;
    AfterNothing(LanguageTables(store.cursor, texts, faces));
    while i < |texts|
      invariant 0 <= i <= |texts|
      invariant LanguageTables(old(store.cursor), texts, faces) == After(tables, LanguageTables(store.cursor, texts[i..], faces))
    {
      TablesStep(store.cursor, texts, i, faces);
      ghost var done := tables;
      store.Clear();
      failure := store.ReadFile(texts[i], faces);
      if failure.Some? {
        return;
      }
      var t := store.Snapshot().table;
      tables := tables + [t];
      AfterAfter(done, t, LanguageTables(store.cursor, texts[i + 1..], faces));
      i := i + 1;
    }
    AfterEnd(tables, store.cursor, texts[i..], faces);
    failure := None;
  }

  /** The method's tables, cursor and failure agree with the outcome `r`. */
  predicate Made(r: Result<(seq<Table>, Option<string>), Failure>, tables: seq<Table>, cursor: Option<string>, failure: Option<Failure>) {
    match r
    case Ok(v) => failure.None? && tables == v.0 && cursor == v.1
    case Err(e) => failure == Some(e)
  }

  lemma AfterEnd(tables: seq<Table>, cursor: Option<string>, texts: seq<string>, faces: FaceTable)
    requires texts == []
    ensures After(tables, LanguageTables(cursor, texts, faces)) == Ok((tables, cursor))
  {
    assert tables + [] == tables;
  }

  lemma TablesStep(cursor: Option<string>, texts: seq<string>, i: nat, faces: FaceTable)
    requires i < |texts|
    ensures LanguageTables(cursor, texts[i..], faces) ==
      match ParseLines(State(EmptyTable, cursor), ReadLines(texts[i]), faces)
      case Err(e) => Err(e)
      case Ok(s1) => After([s1.table], LanguageTables(s1.cursor, texts[i + 1..], faces))
  {
    assert texts[i..][1..] == texts[i + 1..];
  }

  lemma AfterNothing(r: Result<(seq<Table>, Option<string>), Failure>)
    ensures After([], r) == r
  {
    if r.Ok? {
      assert [] + r.value.0 == r.value.0;
    }
  }

  lemma AfterAfter(tables: seq<Table>, t: Table, r: Result<(seq<Table>, Option<string>), Failure>)
    ensures After(tables, After([t], r)) == After(tables + [t], r)
  {
    if r.Ok? {
      assert tables + ([t] + r.value.0) == tables + [t] + r.value.0;
    }
  }

  /** `visible_line_number`: at most 8 languages are shown at once. */
  function VisibleLineNumber(languages: seq<string>): (n: nat)
    ensures n <= 8 && n <= |languages|
    ensures n == 8 || n == |languages|
  {
    if |languages| < 8 then |languages| else 8
  }

  /** `set_help_text`: the `Language Select` text, or the default prompt. */
  function HelpText(g: Globals, fuel: nat): (o: Outcome)
    ensures !o.Nil?
    ensures GetText(g, "Language Select", fuel).Nil? ==> o == Found(DefaultHelp)
    ensures GetText(g, "Language Select", fuel).Found? ==> o == GetText(g, "Language Select", fuel)
  {
    match GetText(g, "Language Select", fuel)
    case Nil => Found(DefaultHelp)
    case other => other
  }

  /** MultiLang loads only after External Text of at least the required version, compared as strings. */
  function Loads(imported: Option<string>): bool {
    imported.Some? && !LessThan(imported.value, RequiredVersion)
  }

  // ---------------------------------------------------------------------------
  // Properties of the text rewrites
  // ---------------------------------------------------------------------------

  /** The rewrite never changes the first character. */
  lemma ReplaceHead(t: string, lang: string)
    requires t != []
    ensures ReplaceLanguage(t, lang)[0] == t[0]
  {
  }

  /** A rewritten text starting with `u`, which has no `L`, began with `u` and had no entry there. */
  lemma {:induction false} ReplaceKeepsPrefix(t: string, u: string, lang: string)
    requires forall i :: 0 <= i < |u| ==> u[i] != 'L'
    requires StartsWith(ReplaceLanguage(t, lang), u)
    ensures StartsWith(t, u) && ReplaceLanguage(t, lang) == u + ReplaceLanguage(t[|u|..], lang)
    decreases |u|
  {
    if u != [] {
      ReplaceNoMatchFirst(t, u, lang);
      ReplaceKeepsPrefix(t[1..], u[1..], lang);
      PrefixRejoined(t, u, ReplaceLanguage(t[|u|..], lang));
    } else {
      assert t[..0] == [];
    }
  }

  /** The first step of `ReplaceKeepsPrefix`: `t` does not start with an entry, so its first character is copied. */
  lemma ReplaceNoMatchFirst(t: string, u: string, lang: string)
    requires u != [] && u[0] != 'L'
    requires StartsWith(ReplaceLanguage(t, lang), u)
    ensures t != [] && t[0] == u[0]
    ensures ReplaceLanguage(t, lang) == [t[0]] + ReplaceLanguage(t[1..], lang)
    ensures StartsWith(ReplaceLanguage(t[1..], lang), u[1..])
  {
    var r := ReplaceLanguage(t, lang);
    assert r[0] == u[0];
    ReplaceHead(t, lang);
    assert !MatchAtStart(t);
    assert r[1..|u|] == ReplaceLanguage(t[1..], lang)[..|u| - 1];
  }

  /** The first character in front of the rest of the prefix and of the rewritten rest. */
  lemma PrefixRejoined(t: string, u: string, rest: string)
    requires t != [] && u != [] && t[0] == u[0]
    requires StartsWith(t[1..], u[1..])
    ensures StartsWith(t, u)
    ensures t[1..][|u[1..]|..] == t[|u|..]
  {
    assert t[..|u|] == [t[0]] + t[1..][..|u| - 1];
  }

  /**
   * After the rewrite, the first entry of a line names the new language when
   * the line had an entry, and there is none when it had none.
   */
  lemma {:induction false} ReplacedFirst(l: string, lang: string)
    requires lang != [] && AllWordChars(lang)
    ensures FirstLanguage(ReplaceLanguage(l, lang)) == if FirstLanguage(l).Some? then Some(lang) else None
    decreases |l|
  {
    if l == [] {
    } else if MatchAtStart(l) {
      ReplacedEntryFirst(l, lang);
    } else {
      ReplacedFirst(l[1..], lang);
      var out := ReplaceLanguage(l, lang);
      assert out == [l[0]] + ReplaceLanguage(l[1..], lang);
      EntryNotMade(l, lang);
      assert out[1..] == ReplaceLanguage(l[1..], lang);
    }
  }

  /** The step of `ReplacedFirst` for a line that starts with an entry: the rewritten entry comes first. */
  lemma ReplacedEntryFirst(l: string, lang: string)
    requires lang != [] && AllWordChars(lang) && MatchAtStart(l)
    ensures FirstLanguage(ReplaceLanguage(l, lang)) == Some(lang)
  {
    var w := WordRun(l[9..]);
    var rest := l[9 + w..];
    var tail := ReplaceLanguage(rest, lang);
    assert rest != [] ==> !IsWordChar(rest[0]) by {
      if rest != [] { assert rest[0] == l[9..][w]; }
    }
    if rest != [] {
      ReplaceHead(rest, lang);
    }
    EntryBeforeNonWord(lang, tail);
  }

  /** An entry for `lang` followed by no word character names exactly `lang`. */
  lemma EntryBeforeNonWord(lang: string, tail: string)
    requires lang != [] && AllWordChars(lang)
    requires tail == [] || !IsWordChar(tail[0])
    ensures FirstLanguage("Language=" + lang + tail) == Some(lang)
  {
    var out := "Language=" + lang + tail;
    assert out[9..] == lang + tail;
    WordRunOfWord(lang, tail);
    assert MatchAtStart(out);
    assert out[9..9 + |lang|] == lang;
  }

  /** An entry at the start of a rewritten text that keeps its first character was there before. */
  lemma EntryNotMade(l: string, lang: string)
    requires l != []
    ensures MatchAtStart([l[0]] + ReplaceLanguage(l[1..], lang)) ==> MatchAtStart(l)
  {
    var out := [l[0]] + ReplaceLanguage(l[1..], lang);
    var t := l[1..];
    if MatchAtStart(out) {
      var u := "anguage=";
      assert StartsWith(ReplaceLanguage(t, lang), u) by {
        assert ReplaceLanguage(t, lang)[..8] == out[1..9];
      }
      ReplaceKeepsPrefix(t, u, lang);
      var r9 := ReplaceLanguage(t[8..], lang);
      assert out[9..] == r9;
      ReplaceHead(t[8..], lang);
      assert l[..9] == [l[0]] + t[..8];
      assert l[9] == t[8..][0];
    }
  }

  /** An entry at the start of `a` is one at the start of `a + b`. */
  lemma MatchExtends(a: string, b: string)
    ensures MatchAtStart(a) ==> MatchAtStart(a + b)
  {
    if MatchAtStart(a) {
      assert (a + b)[..10] == a[..10];
    }
  }

  /** A text without an entry is left as it is. */
  lemma {:induction false} ReplaceWithoutEntry(s: string, lang: string)
    requires FirstLanguage(s).None?
    ensures ReplaceLanguage(s, lang) == s
    decreases |s|
  {
    if s != [] {
      ReplaceWithoutEntry(s[1..], lang);
      assert [s[0]] + s[1..] == s;
    }
  }

  /** `a + b` has a line break where `a` ends. */
  predicate Seam(a: string, b: string) {
    (a != [] && a[|a| - 1] == '\n') || (b != [] && b[0] == '\n')
  }

  /** A word run stops at the first character that is not a word character. */
  lemma {:induction false} WordRunAppend(x: string, y: string)
    requires WordRun(x) < |x| || y == [] || !IsWordChar(y[0])
    ensures WordRun(x + y) == WordRun(x)
  {
    var k := WordRun(x);
    if k < |x| {
      var t := x[k..] + y;
      assert t[0] == x[k];
      assert x[..k] + t == x + y;
      WordRunOfWord(x[..k], t);
    } else {
      assert x[..k] == x;
      WordRunOfWord(x, y);
    }
  }

  /** An entry at the start of `a + b` lies inside `a`: entries do not cross a line break. */
  lemma MatchInside(a: string, b: string)
    requires a != [] && Seam(a, b) && MatchAtStart(a + b)
    ensures MatchAtStart(a)
    ensures WordRun((a + b)[9..]) == WordRun(a[9..])
    ensures 9 + WordRun(a[9..]) <= |a|
    ensures (a + b)[9 + WordRun(a[9..])..] == a[9 + WordRun(a[9..])..] + b
    ensures (a + b)[9..9 + WordRun(a[9..])] == a[9..9 + WordRun(a[9..])]
    ensures a[9 + WordRun(a[9..])..] == [] || Seam(a[9 + WordRun(a[9..])..], b)
  {
    var s := a + b;
    var n := if a[|a| - 1] == '\n' then |a| - 1 else |a|;
    assert s[n] == '\n';
    assert n >= 10 by {
      forall j | 0 <= j < 10 ensures s[j] != '\n' {
        if j < 9 { assert s[j] == s[..9][j]; }
      }
    }
    assert s[..10] == a[..10];
    assert s[9..] == a[9..] + b;
    var w := WordRun(a[9..]);
    if n < |a| {
      assert a[9..][n - 9] == '\n';
      assert WordRun(a[9..]) <= n - 9;
    }
    WordRunAppend(a[9..], b);
    SliceInFront(a, b, 9, 9 + w);
    SuffixInFront(a, b, 9 + w);
  }

  lemma SliceInFront(a: string, b: string, i: nat, j: nat)
    requires i <= j <= |a|
    ensures (a + b)[i..j] == a[i..j]
  {
  }

  lemma SuffixInFront(a: string, b: string, i: nat)
    requires i <= |a|
    ensures (a + b)[i..] == a[i..] + b
  {
  }

  /** The rewrite works line by line: text up to a line break is rewritten on its own. */
  lemma {:induction false} ReplaceAppend(a: string, b: string, lang: string)
    requires a == [] || Seam(a, b)
    ensures ReplaceLanguage(a + b, lang) == ReplaceLanguage(a, lang) + ReplaceLanguage(b, lang)
    decreases |a|
  {
    if a == [] {
      assert a + b == b;
    } else if MatchAtStart(a + b) {
      MatchInside(a, b);
      var w := WordRun(a[9..]);
      ReplaceAppend(a[9 + w..], b, lang);
    } else {
      MatchExtends(a, b);
      assert (a + b)[1..] == a[1..] + b;
      ReplaceAppend(a[1..], b, lang);
    }
  }

  /** The first entry of text split at a line break is the first one of its first part, if any. */
  lemma {:induction false} FirstLanguageAppend(a: string, b: string)
    requires a == [] || Seam(a, b)
    ensures FirstLanguage(a + b) == if FirstLanguage(a).Some? then FirstLanguage(a) else FirstLanguage(b)
    decreases |a|
  {
    if a == [] {
      assert a + b == b;
    } else if MatchAtStart(a + b) {
      MatchInside(a, b);
    } else {
      MatchExtends(a, b);
      assert (a + b)[1..] == a[1..] + b;
      FirstLanguageAppend(a[1..], b);
    }
  }

  /** The rewrite keeps line breaks where they are. */
  lemma ReplaceNoNewline(s: string, lang: string)
    requires NoNewline(s) && AllWordChars(lang)
    ensures NoNewline(ReplaceLanguage(s, lang))
    decreases |s|
  {
    if s != [] {
      if MatchAtStart(s) {
        var rest := s[9 + WordRun(s[9..])..];
        assert forall i :: 0 <= i < |rest| ==> rest[i] == s[9 + WordRun(s[9..]) + i];
        ReplaceNoNewline(rest, lang);
        var out := "Language=" + lang + ReplaceLanguage(rest, lang);
        forall i | 0 <= i < |out| ensures out[i] != '\n' {
          if 9 <= i < 9 + |lang| { assert out[i] == lang[i - 9]; }
        }
      } else {
        ReplaceNoNewline(s[1..], lang);
      }
    }
  }

  /** A line is rewritten into a line, terminated when it was. */
  lemma ReplaceLine(l: string, lang: string)
    requires IsLine(l) && AllWordChars(lang)
    ensures IsLine(ReplaceLanguage(l, lang))
    ensures EndsLine(l) ==> EndsLine(ReplaceLanguage(l, lang))
  {
    var r := ReplaceLanguage(l, lang);
    if EndsLine(l) {
      var x := l[..|l| - 1];
      assert l == x + "\n";
      assert NoNewline(x) by {
        forall i | 0 <= i < |x| ensures x[i] != '\n' { assert x[i] == l[i]; }
      }
      ReplaceNoNewline(x, lang);
      ReplaceAppend(x, "\n", lang);
      assert ReplaceLanguage("\n", lang) == "\n";
    } else {
      assert NoNewline(l) by {
        forall i | 0 <= i < |l| ensures l[i] != '\n' {
          if i == |l| - 1 { assert !EndsLine(l); }
        }
      }
      ReplaceNoNewline(l, lang);
    }
  }

  /** Each line of a text, rewritten. */
  function ReplaceEach(lines: seq<string>, lang: string): (r: seq<string>)
    ensures |r| == |lines|
    ensures forall i :: 0 <= i < |lines| ==> r[i] == ReplaceLanguage(lines[i], lang)
  {
    seq(|lines|, i requires 0 <= i < |lines| => ReplaceLanguage(lines[i], lang))
  }

  /** Lines as `readlines` gives them: all lines, every one but the last terminated. */
  predicate AreLines(lines: seq<string>) {
    (forall i :: 0 <= i < |lines| ==> IsLine(lines[i])) &&
    (forall i :: 0 <= i < |lines| - 1 ==> EndsLine(lines[i]))
  }

  /** The lines of the rewritten text are the rewritten lines. */
  lemma {:induction false} ReplaceByLines(lines: seq<string>, lang: string)
    requires AreLines(lines) && AllWordChars(lang)
    ensures ReadLines(ReplaceLanguage(Concat(lines), lang)) == ReplaceEach(lines, lang)
    decreases |lines|
  {
    if lines != [] {
      var l, rest := lines[0], lines[1..];
      assert IsLine(l);
      ReplaceLine(l, lang);
      var rl := ReplaceLanguage(l, lang);
      if rest == [] {
        assert Concat(lines) == l;
        ReadLinesOfLine(rl);
      } else {
        assert EndsLine(l);
        assert AreLines(rest) by {
          assert forall i :: 0 <= i < |rest| ==> rest[i] == lines[i + 1];
        }
        ReplaceByLines(rest, lang);
        ReplaceAppend(l, Concat(rest), lang);
        ReadLinesAppend(rl, ReplaceLanguage(Concat(rest), lang));
        ReadLinesOfLine(rl);
        assert ReplaceEach(lines, lang) == [rl] + ReplaceEach(rest, lang);
      }
    }
  }

  /** An entry anywhere in the text is an entry on some line. */
  lemma {:induction false} EntryOnSomeLine(lines: seq<string>)
    requires AreLines(lines) && FirstLanguage(Concat(lines)).Some?
    ensures exists j :: 0 <= j < |lines| && FirstLanguage(lines[j]).Some?
    decreases |lines|
  {
    var l, rest := lines[0], lines[1..];
    if rest == [] {
      assert Concat(lines) == l;
      assert FirstLanguage(lines[0]).Some?;
    } else {
      assert EndsLine(l);
      FirstLanguageAppend(l, Concat(rest));
      if FirstLanguage(l).None? {
        assert AreLines(rest) by {
          assert forall i :: 0 <= i < |rest| ==> rest[i] == lines[i + 1];
        }
        EntryOnSomeLine(rest);
        var j :| 0 <= j < |rest| && FirstLanguage(rest[j]).Some?;
        assert lines[j + 1] == rest[j];
      }
    }
  }

  /** An occurrence of `Language=<lang>` is an entry. */
  lemma {:induction false} OccurrenceIsEntry(s: string, lang: string, i: nat)
    requires lang != [] && AllWordChars(lang) && OccursAt(s, "Language=" + lang, i)
    ensures FirstLanguage(s).Some?
    decreases i
  {
    if i == 0 {
      assert s[..9] == ("Language=" + lang)[..9];
      assert s[9] == lang[0];
    } else if !MatchAtStart(s) {
      assert s[1..][i - 1..i - 1 + |"Language=" + lang|] == s[i..i + |"Language=" + lang|];
      OccurrenceIsEntry(s[1..], lang, i - 1);
    }
  }

  /** When every line's entry names `lang` and one line has one, `lang` is chosen. */
  lemma {:induction false} ChooseUniform(languages: seq<string>, lines: seq<string>, lang: string, j: nat)
    requires lang in languages && j < |lines| && FirstLanguage(lines[j]) == Some(lang)
    requires forall i :: 0 <= i < |lines| ==> FirstLanguage(lines[i]).None? || FirstLanguage(lines[i]) == Some(lang)
    ensures Choose(languages, lines) == Some(lang)
    decreases |lines|
  {
    var last := |lines| - 1;
    if FirstLanguage(lines[last]).None? {
      assert j < last;
      var init := lines[..last];
      assert init[j] == lines[j];
      assert forall i :: 0 <= i < |init| ==> init[i] == lines[i];
      ChooseUniform(languages, init, lang, j);
    }
  }

  /** A last line naming a listed language decides. */
  lemma ChooseLast(languages: seq<string>, lines: seq<string>, line: string, lang: string)
    requires lang in languages && FirstLanguage(line) == Some(lang)
    ensures Choose(languages, lines + [line]) == Some(lang)
  {
    assert (lines + [line])[|lines|] == line;
  }

  /** The entry line `set_language` appends names the language. */
  lemma EntryLine(lang: string)
    requires lang != [] && AllWordChars(lang)
    ensures IsLine("Language=" + lang + "\n") && FirstLanguage("Language=" + lang + "\n") == Some(lang)
  {
    var e := "Language=" + lang + "\n";
    assert e[9..] == lang + "\n";
    WordRunOfWord(lang, "\n");
    assert MatchAtStart(e);
    assert e[9..9 + |lang|] == lang;
    assert forall i :: 9 <= i < |e| - 1 ==> e[i] == lang[i - 9];
  }

  /**
   * The choice is remembered: after `set_language(lang)`, `check_language`
   * chooses `lang`, for any `Game.ini`.
   */
  lemma RoundTrip(languages: seq<string>, ini: string, lang: string)
    requires lang in languages && lang != [] && AllWordChars(lang)
    ensures Choose(languages, ReadLines(SetLanguageText(ini, lang))) == Some(lang)
  {
    var lines := ReadLines(ini);
    ReadLinesConcat(ini);
    ReadLinesAreLines(ini);
    var replaced := ReplaceLanguage(ini, lang);
    var entry := "Language=" + lang + "\n";
    EntryLine(lang);
    if Contains(replaced, "Language=" + lang) {
      ReplaceByLines(lines, lang);
      var out := ReadLines(replaced);
      assert out == ReplaceEach(lines, lang);
      var i :| 0 <= i <= |replaced| - |"Language=" + lang| && OccursAt(replaced, "Language=" + lang, i);
      OccurrenceIsEntry(replaced, lang, i);
      ReadLinesConcat(replaced);
      ReadLinesAreLines(replaced);
      EntryOnSomeLine(out);
      var j :| 0 <= j < |out| && FirstLanguage(out[j]).Some?;
      forall k | 0 <= k < |out| ensures FirstLanguage(out[k]).None? || FirstLanguage(out[k]) == Some(lang) {
        ReplacedFirst(lines[k], lang);
      }
      ChooseUniform(languages, out, lang, j);
    } else {
      var front := if replaced == [] || EndsLine(replaced) then replaced else replaced + "\n";
      assert SetLanguageText(ini, lang) == front + entry;
      assert front == [] || EndsLine(front);
      ReadLinesAppend(front, entry);
      ReadLinesOfLine(entry);
      ChooseLast(languages, ReadLines(front), entry, lang);
    }
  }

  /**
   * As written, the round trip holds whenever the rewritten `Game.ini` already
   * names the language or ends its last line: the appended entry then starts
   * a line of its own.
   */
  lemma RoundTripAsWritten(languages: seq<string>, ini: string, lang: string)
    requires lang in languages && lang != [] && AllWordChars(lang)
    requires var lines := ReplaceLanguage(ini, lang);
             Contains(lines, "Language=" + lang) || lines == [] || EndsLine(lines)
    ensures Choose(languages, ReadLines(SetLanguageTextAsWritten(ini, lang))) == Some(lang)
  {
    assert SetLanguageTextAsWritten(ini, lang) == SetLanguageText(ini, lang);
    RoundTrip(languages, ini, lang);
  }

  /**
   * As written, the round trip fails for a `Game.ini` ending in a bare
   * `Language=`: the entry is glued to it and the line's first entry reads
   * `Language`, so the first listed language is chosen instead.
   */
  lemma RoundTripFailsAsWritten()
    ensures Choose(["English", "French"], ReadLines(SetLanguageTextAsWritten("Language=", "French"))) == Some("English")
  {
    var ini := "Language=";
    NoEntryInShort(ini);
    ReplaceWithoutEntry(ini, "French");
    var out := ini + ("Language=" + "French" + "\n");
    assert SetLanguageTextAsWritten(ini, "French") == out;
    GluedLine("French");
    ReadLinesOfLine(out);
    assert "Language" !in ["English", "French"];
    assert [out][..0] == [];
  }

  /** A `Language=` entry glued after a bare `Language=` makes one line whose first entry names `Language`. */
  lemma GluedLine(lang: string)
    requires NoNewline(lang)
    ensures IsLine("Language=" + ("Language=" + lang + "\n"))
    ensures FirstLanguage("Language=" + ("Language=" + lang + "\n")) == Some("Language")
  {
    var tail := "=" + lang + "\n";
    var out := "Language=" + ("Language=" + lang + "\n");
    assert out == "Language=" + ("Language" + tail);
    assert out[9..] == "Language" + tail;
    WordRunOfWord("Language", tail);
    assert MatchAtStart(out);
    assert out[9..17] == "Language";
    forall i | 0 <= i < |out| - 1 ensures out[i] != '\n' {
      if i >= 18 {
        assert out[i] == lang[i - 18];
      }
    }
  }

  /** Text shorter than an entry has none. */
  lemma {:induction false} NoEntryInShort(s: string)
    requires |s| < 10
    ensures FirstLanguage(s).None?
    decreases |s|
  {
    if s != [] {
      NoEntryInShort(s[1..]);
    }
  }

  // ---------------------------------------------------------------------------
  // Properties of the per-language tables
  // ---------------------------------------------------------------------------

  /** Each language's table holds exactly the keys its own file declares. */
  lemma {:induction false} TablesHoldOwnKeys(cursor: Option<string>, texts: seq<string>, faces: FaceTable)
    requires LanguageTables(cursor, texts, faces).Ok?
    ensures forall i :: 0 <= i < |texts| ==>
      LanguageTables(cursor, texts, faces).value.0[i].records.Keys == Declared(ReadLines(texts[i]))
    decreases |texts|
  {
    if texts != [] {
      var s0 := State(EmptyTable, cursor);
      var s1 := ParseLines(s0, ReadLines(texts[0]), faces).value;
      KeysAreDeclared(s0, ReadLines(texts[0]), faces);
      assert s0.table.records.Keys == {};
      TablesHoldOwnKeys(s1.cursor, texts[1..], faces);
      var all := LanguageTables(cursor, texts, faces).value.0;
      var rest := LanguageTables(s1.cursor, texts[1..], faces).value.0;
      assert all == [s1.table] + rest;
      forall i | 1 <= i < |texts| ensures all[i].records.Keys == Declared(ReadLines(texts[i])) {
        assert all[i] == rest[i - 1] && texts[i] == texts[1..][i - 1];
      }
    }
  }

  /** Every per-language table keeps its key list and its map in step. */
  lemma {:induction false} TablesWellFormed(cursor: Option<string>, texts: seq<string>, faces: FaceTable)
    requires LanguageTables(cursor, texts, faces).Ok?
    ensures forall i :: 0 <= i < |texts| ==> WellFormed(LanguageTables(cursor, texts, faces).value.0[i])
    decreases |texts|
  {
    if texts != [] {
      var s0 := State(EmptyTable, cursor);
      var s1 := ParseLines(s0, ReadLines(texts[0]), faces).value;
      TablesWellFormed(s1.cursor, texts[1..], faces);
      var all := LanguageTables(cursor, texts, faces).value.0;
      var rest := LanguageTables(s1.cursor, texts[1..], faces).value.0;
      assert all == [s1.table] + rest;
      forall i | 1 <= i < |texts| ensures WellFormed(all[i]) {
        assert all[i] == rest[i - 1];
      }
    }
  }

  /** The gate compares strings: 3.0.0 and later 3.x versions load, older ones and a missing one do not. */
  lemma GateAcceptsRequired()
    ensures Loads(Some("3.0.0")) && Loads(Some("3.1.0"))
    ensures !Loads(None) && !Loads(Some("2.9.9"))
  {
    LessThanIrreflexive("3.0.0");
    assert LessThan("3.0.0", "3.1.0");
    assert LessThan("2.9.9", "3.0.0");
  }
}
