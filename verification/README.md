# External Text, modelled in Dafny

External Text (SES) is an RGSS3 script for RPG Maker VX Ace. It moves a
game's dialogue out of the event editor and into tagged text files, and it
has three add-ons. This project models its core and proves properties of
that model:

- **Tag-file parser** (`DataManager.create_text`). It reads every line of
  every file under `Data/Text`, skips comments and blank lines, and runs the
  first tag whose pattern matches (`[Key]`, `[Face]`, `[AFace]`, `[PFace]`,
  `[DFace]`, `[Name]`, `[FName]`, `[Position]`, `[Background]`). Any other
  line joins the body of the message under the current key.
  - Modules: `Tags`, `Parser`. `Parser.TextStore` is the table and the key
    cursor that the parser updates in place.
- **Lookup and overrides** (`ExternalText.get_text`, `TextWrapper`,
  `Game_System#add_override` / `delete_override` / `get_override`,
  `Game_Interpreter#get_text`).
  - Module: `Lookup`. `Lookup.OverrideTable` is the system's override hash.
- **Message layout** (`Game_Message#load_text`, `add_line`, the colour and
  escape-code helpers, `too_wide?`, `Game_Interpreter#text`).
  - Module: `Layout`. Text measuring and the window width are parameters.
- **Block selection** (`block_text`, `block_text_us`, `get_block`).
  - Module: `Blocks`.
- **Database add-on**. It gives the database getters and the vocabulary
  (`Terms`) text from the table, with the stock value as a fallback.
  - Module: `Database`.
- **MultiLang add-on**. It picks a language from `Game.ini`, rewrites
  `Game.ini`, and builds one table per language.
  - Module: `MultiLang`. `MultiLang.GameIni` holds the text of `Game.ini`.
- **Extractor add-on**. It rewrites events and writes text files.
  - `Choices`: `extract_choices`, which rewrites a Show Choices block in
    place.
  - `ShowText`: the Show Text rewrite and the text-entry header.
  - `Emitters`: the database text emitters.
  - `TablePack`: `Table._load` / `_dump`.

Shared modules:

- `RubyString` holds the Ruby string operations the code relies on: `strip`,
  `lines`, `split`, line-break marking and integer formatting.
- `Wrappers` holds `Option` and `Result`.
- `Commands` holds the event command and the `EventPage` class whose command
  list the extractor edits.

Most files hold value-level functions with lemmas. Where the source updates
state, the model has a class with `modifies` clauses and methods with loops:

- the parser's table and cursor;
- the override hash;
- `Game.ini`;
- the event pages the extractor edits.

Each such method is proved against a specification function, and the lemmas
are about those functions.

### Where the model follows the code rather than the documented intent

- **Overrides.** An override is a key reference, not a literal string.
  `add_override` wraps its value in a `TextWrapper` with no object. Reading
  the override therefore yields the target key's text. When the target key
  is missing it yields `Missing Key: <target>.`. A chain of overrides is
  followed, and a cycle never resolves.
- **`text(key)` skips overrides.** It reads `$game_text` directly, so
  overrides do not apply to it. A missing key fails inside `load_text`
  instead of showing the fallback message.
- **`[Default Choice]`.** The extractor writes a `[Default Choice] n` line,
  but the parser has no such tag. The line matches no tag pattern, so it
  becomes the first body line of the choice entry.
- **Orphan lines.** Body lines read before any `[Key]` are dropped.
- **Stale cursor.** A non-`[Key]` line read while the cursor names a key
  that is absent from the table is an error. This happens after MultiLang
  starts a fresh table for the next language.
- **Choice keys.** `extract_choices` always files the entry under the Map
  form of the key (`Map m Event e Page p Choice n`), also for a common event,
  whose caller passes -1 for the map and the page (`Map -1 Event 5 Page 0
  Choice 1`). The call it inserts names the key form of its event type, and
  a troop's call is spelled `show choices(`. `Choices.ExtractChoices` and
  `Choices.RewriteChoice` write both as the code does; the corrected keys and
  call appear only in the lemmas named in the findings below.
- **Appended language entry.** `set_language` appends `Language=x` straight
  after the last character of `Game.ini`. `MultiLang.GameIni.SetLanguage`
  does the same; the corrected text appears only in `MultiLang.RoundTrip`.

## Model

| member | source | states |
|---|---|---|
| Tags.ParseTag | lib/external-text.rb:330-396 | A recognised tag line starts with `[`. Patterns are tried in table order and the first that matches wins. `[FName]` is case-sensitive and every other tag ignores case. |
| Tags.KeywordArg | lib/external-text.rb:383-395 | `[Position]`/`[Background]` give the index of the word that follows, in any case, when one of the listed words follows. When none follows, the tag does not match. |
| Tags.DigitsArg | lib/external-text.rb:355-363 | `[AFace]`/`[PFace]` match exactly when a digit follows the blanks. |
| Tags.LastFaceComma | lib/external-text.rb:349 | The greedy `(.+),` takes the last comma before the digits. No comma after it is followed by digits. |
| Tags.AfterTag | lib/external-text.rb:332 | A tag prefix is found exactly when the line starts with it, ignoring case unless the tag is exact. |
| Tags.TagLineNotSkipped | lib/external-text.rb:513-519 | A line that parses as a tag is never a comment or blank line. |
| Tags.KeyLine | lib/external-text.rb:332-347 | `[Key]` in any letter case, then blanks, then a key, parses to `Key` of exactly that key. |
| Tags.FNameLine | lib/external-text.rb:376-381 | `[FName] n` parses to `FName(n)`. |
| Tags.LowerCaseFNameIsText | lib/external-text.rb:376 | `[fname] Ralph` matches no tag, because the FName pattern has no case flag. |
| Tags.NameLine | lib/external-text.rb:371-374 | `[Name]` in any case, then a name, parses to `Name` of that name. |
| Tags.FaceLine | lib/external-text.rb:349-353 | `[Face] file, digits` parses to `Face(file, value of digits)`. |
| Tags.FaceAtSplit | lib/external-text.rb:349 | The face arguments split at the comma into the file name and the index. |
| Tags.LastFaceCommaIs | lib/external-text.rb:349 | A comma with no later comma before the limit is the one the pattern splits at. |
| Tags.FaceArgsAfterBlanks | lib/external-text.rb:349 | Blanks between `[Face]` and the file name are skipped. |
| Tags.RestOfLineAfterBlanks | lib/external-text.rb:332 | `\s*(.+)` captures the text after the blanks, up to the line end. |
| Tags.UpToNewlineOfLine | lib/external-text.rb:332 | `.` stops at the newline. |
| Tags.DigitsAfterComma | lib/external-text.rb:349 | `(?:\s*)(\d+)` after the comma reads the decimal value of the digits. |
| Parser.Put | lib/external-text.rb:335-346 | Storing a record sets exactly that key. A new key goes to the end of the key order and an existing key keeps its place. Well-formedness is kept. |
| Parser.Current | lib/external-text.rb:520-523 | The current record exists exactly when the cursor is set and names a stored key. A missing cursor is its own error. |
| Parser.ApplyTag | lib/external-text.rb:349-395 | A non-Key tag never changes the body. It fails exactly for `[DFace]`/`[FName]` naming a face not in `Faces`. |
| Parser.TagStep | lib/external-text.rb:514-519 | A tag succeeds exactly when there is a current record and its handler succeeds. It keeps the cursor and the keys. |
| Parser.BodyStep | lib/external-text.rb:520-523 | A body line fails exactly when the cursor names a key that is not stored. It keeps the cursor and the keys. |
| Parser.Step | lib/external-text.rb:513-524 | One line step keeps the table well-formed. |
| Parser.ParseLines | lib/external-text.rb:512-524 | Parsing a line sequence keeps the table well-formed. |
| Parser.ParseFiles | lib/external-text.rb:509-526 | Parsing all files keeps the table well-formed. |
| Parser.TextStore.constructor | lib/external-text.rb:509 | A new store is the empty table with no cursor. |
| Parser.TextStore.Clear | lib/external-text.rb:509 | Clearing empties the table and keeps the cursor. |
| Parser.TextStore.Store | lib/external-text.rb:335-346 | Storing is `Put` on the table, and nothing else changes. |
| Parser.TextStore.ReadLine | lib/external-text.rb:513-524 | Reading one line brings the store to the state `Step` gives, or to the failure `Step` reports. |
| Parser.TextStore.RunHandler | lib/external-text.rb:514-519 | Running a tag's handler brings the store to the state of the tag step. |
| Parser.TextStore.AppendBody | lib/external-text.rb:520-523 | A body line joins the current record, with a newline before it unless the body is empty. A missing cursor drops the line and a stale cursor fails. |
| Parser.TextStore.ReadFile | lib/external-text.rb:511-525 | Reading a file's text gives the state `ParseLines` gives for its lines. |
| Parser.TextStore.CreateText | lib/external-text.rb:508-530 | Reading all files gives the state `ParseFiles` gives from an empty table and the old cursor. |
| Parser.ParseLinesAppend | lib/external-text.rb:512 | Parsing two line runs is parsing the first, then the second from where the first left off. |
| Parser.ParseFilesIsOneStream | lib/external-text.rb:510-511 | Parsing several files is parsing their lines as one stream, with the cursor carried across files. |
| Parser.SkippedLineIgnored | lib/external-text.rb:513 | A comment or blank line anywhere changes nothing. |
| Parser.KeyLineStep | lib/external-text.rb:332-347 | A `[Key]` line stores a fresh default record under the key and moves the cursor to it, replacing any earlier record. |
| Parser.TagLineKeepsBodies | lib/external-text.rb:349-395 | A non-Key tag keeps the key order, the cursor and every body. |
| Parser.MessageBody | lib/external-text.rb:520-523 | A key line followed by body lines stores those lines joined by newlines as the body. |
| Parser.BodyLineAfter | lib/external-text.rb:520-523 | One more body line extends the stored body by that line. |
| Parser.JoinedStep | lib/external-text.rb:521 | Appending a line with its newline separator is joining one more line. |
| Parser.BodyLineAppends | lib/external-text.rb:520-523 | A body line under a cursor appends to that record's body only. |
| Parser.PutTwice | lib/external-text.rb:335 | A second store under a key replaces the first. |
| Parser.Joined | lib/external-text.rb:521-522 | One body line is itself, and two or more give a non-empty body. |
| Parser.OrphanLinesDropped | lib/external-text.rb:520 | Before any key, body lines are dropped and the state is unchanged. |
| Parser.StaleCursorFails | lib/external-text.rb:520-523 | A body or tag line under a cursor whose key is gone fails with that key. |
| Parser.StepKeys | lib/external-text.rb:332-347 | A step adds to the table's keys exactly the key its line declares. |
| Parser.KeysAreDeclared | lib/external-text.rb:508-530 | After a successful parse, the table's keys are the old keys plus the keys declared by `[Key]` lines. |
| Parser.DeclaredMeans | lib/external-text.rb:332 | A key is declared exactly when some line parses to `[Key]` with it. |
| Lookup.StoredText | lib/external-text.rb:423-425 | A stored key is found with its body stripped. An absent key is nil. |
| Lookup.GetText | lib/external-text.rb:419-427 | The lookup is nil exactly when no table is loaded, or when the key has neither an override nor a stored record. |
| Lookup.WrapperText | lib/external-text.rb:488-490 | The string form of an override is never nil. When its target has no text it is `Missing Key: target.`. |
| Lookup.InterpreterGetText | lib/external-text.rb:805-807 | The interpreter's `get_text` succeeds exactly when the lookup finds text. |
| Lookup.OverrideTable.constructor | lib/external-text.rb:559-562 | A new system has no overrides. |
| Lookup.OverrideTable.AddOverride | lib/external-text.rb:569-571 | Adding sets the override for the key to the target, and nothing else changes. |
| Lookup.OverrideTable.DeleteOverride | lib/external-text.rb:577-579 | Deleting removes exactly that key. |
| Lookup.OverrideTable.GetOverride | lib/external-text.rb:586-588 | The override is returned exactly when one is set. |
| Lookup.NoTableNoText | lib/external-text.rb:420 | Without a loaded table every lookup is nil. |
| Lookup.NotOverridden | lib/external-text.rb:419-428 | A key that is not overridden reads its stripped stored body, or nil when absent. |
| Lookup.AddThenGet | lib/external-text.rb:466-490 | An overridden key reads the target's text, or `Missing Key: target.` when the target has none. |
| Lookup.MoreFuel | lib/external-text.rb:419-428 | A lookup that resolves gives the same result with any deeper recursion bound. |
| Lookup.AcyclicResolves | lib/external-text.rb:419-428 | An override chain that ends within n links resolves within n steps. |
| Lookup.CycleNeverResolves | lib/external-text.rb:419-428 | Two overrides naming each other never resolve. |
| Lookup.DeleteAbsent | lib/external-text.rb:577-579 | Deleting an absent override changes nothing. |
| Lookup.StripIdempotent | lib/external-text.rb:424 | Stripping twice is stripping once. |
| Lookup.InterpreterMatchesLookup | lib/external-text.rb:805-807 | For a stored, non-overridden key, the interpreter returns the stripped body. |
| Layout.EscapeBackslashes | lib/external-text.rb:633 | Every backslash becomes the escape character and every other character is kept. |
| Layout.Convert | lib/external-text.rb:631-634 | The conversion never lengthens the text. |
| Layout.BracketArg | lib/external-text.rb:656 | A bracket argument is `[`, word characters, `]`. |
| Layout.ColorCodeAt | lib/external-text.rb:656 | A colour code is the escape character, `c` or `C`, then its argument. |
| Layout.LastColorCode | lib/external-text.rb:654-658 | The colour found is a whole colour code. |
| Layout.GetColor | lib/external-text.rb:654-658 | A colour found is a whole colour code: the escape character, `c` or `C`, and its argument. |
| Layout.EscapeCodeAt | lib/external-text.rb:726 | An escape code is the escape character and a word character. |
| Layout.RemoveEscapeCodes | lib/external-text.rb:725-727 | Removing codes never lengthens the text. |
| Layout.Slice | lib/external-text.rb:725-727 | The measured text is never longer than the text. |
| Layout.TooWide | lib/external-text.rb:733-744 | A text that is not too wide fits the window, and leaves the 112-pixel face allowance free when a face is shown. |
| Layout.AddLine | lib/external-text.rb:604-617 | Earlier lines are kept. Inside a box a blank line is added. At a box boundary the colour line is added, preceded by the name line when there is one. |
| Layout.AppendToLast | lib/external-text.rb:699-707 | Only the last line changes, and it gains the piece. |
| Layout.PlacePiece | lib/external-text.rb:699-707 | A line is added exactly when the piece is forced onto a new line or would make the current line too wide. With no line added, the piece and a space go on the current line. With one added, the new last line is the seed (blank or the carried colour) and the piece and a space. |
| Layout.PlaceSegments | lib/external-text.rb:698-702 | Every piece after the first starts a new line, so the line count grows by at least the number of those pieces. The carried colour is kept. |
| Layout.PlaceWord | lib/external-text.rb:697-708 | A word adds at least one line per forced break, and the colour carried on is the word's last colour code or the one before. |
| Layout.PlaceWords | lib/external-text.rb:696-709 | The words add at least one line per forced break; how the other lines break is `WordsPlaced`. |
| Layout.WordsPlaced | lib/external-text.rb:696-709 | For any font measure and width, every line from the starting one on is the name line, a fresh line, a fresh line holding one piece, or a line that fits the window once its trailing space is left off. |
| Layout.PiecePlaced | lib/external-text.rb:699-707 | Placing one piece keeps the line it goes on and any line added for it well placed in that sense. |
| Layout.SegmentsPlaced | lib/external-text.rb:698-702 | The same for the pieces of a word split at its `[line]` markers. |
| Layout.WordPlaced | lib/external-text.rb:697-708 | The same for one word. |
| Layout.LaidOutPlaced | lib/external-text.rb:666-711 | Every line of a laid-out message is well placed: only a single piece on a fresh line can be too wide. |
| Layout.ColorAfter | lib/external-text.rb:697 | The colour carried on is a seed when the one before was, and unchanged by a word without a colour code. |
| Layout.AddLineAt | lib/external-text.rb:604-617 | The in-place line adder gives exactly `AddLine`, with the index on the last line. |
| Layout.PlacePieceAt | lib/external-text.rb:700-701 | The in-place step gives exactly `PlacePiece`. |
| Layout.PlaceSegmentsAt | lib/external-text.rb:698-702 | The loop over segments gives exactly `PlaceSegments`. |
| Layout.LayWords | lib/external-text.rb:696-709 | The loop over words gives the lines of `PlaceWords`. |
| Layout.Start | lib/external-text.rb:685-693 | It fails exactly when names are shown as text and the message has none. Otherwise the last line is empty, and a name line is the first line and the message name. |
| Layout.MessageName | lib/external-text.rb:685-690 | The name is nil exactly when names are off or the record has none. Otherwise it starts with the record's name. |
| Layout.Lay | lib/external-text.rb:666-711 | It fails exactly when names are shown as text and the message has none. Otherwise there is at least one line, and the name, position and background are the record's. The wrap promise is `LaidOutPlaced`. |
| Layout.NameOfMessage | lib/external-text.rb:687-690 | With names shown as text, the message name is its first line, ending in `\c[0]`. In the name box it is the record's name. |
| Layout.ShowText | lib/external-text.rb:834-836 | A missing key fails and changes nothing. A layout error reports the failure. Otherwise the laid-out message is returned and only the stored body changes, to its line-break-marked form. |
| Layout.ShowAgainSameLayout | lib/external-text.rb:695 | Showing a message a second time, after its body was marked, lays it out the same way. |
| Layout.ConvertDoubled | lib/external-text.rb:633-634 | Converting a text whose backslashes were doubled gives back the text. |
| Layout.EscapeAppend | lib/external-text.rb:633 | Escaping distributes over concatenation. |
| Layout.SlicePlain | lib/external-text.rb:725-727 | A text with no codes is unchanged by slicing and has no colour. |
| Layout.PlainConverted | lib/external-text.rb:633-634 | A text with no backslash or escape is unchanged by conversion. |
| Layout.PlainNoCodes | lib/external-text.rb:725-727 | A text with no escape has no code to remove and no colour. |
| Layout.ColorOfCode | lib/external-text.rb:654-658 | `\c[n]` written in a message is found as its colour. |
| Layout.CodeConverted | lib/external-text.rb:633 | Conversion turns `\c[n]` into its escape form. |
| Layout.EscapeIdentity | lib/external-text.rb:633 | Text without backslashes is unchanged by escaping. |
| Layout.CodeFound | lib/external-text.rb:656 | A colour code on its own is its own last colour. |
| Layout.PlainNoPairs | lib/external-text.rb:634 | A text without escapes has no doubled escape to collapse. |
| Layout.FaceNarrows | lib/external-text.rb:741-742 | A text too wide without a face is too wide with one. |
| Layout.FitsOnOneLine | lib/external-text.rb:696-709 | When everything fits and no word breaks a line, the words go onto the current line, separated by spaces. |
| Layout.SegmentLines | lib/external-text.rb:698-702 | When everything fits, each forced break adds exactly one line. |
| Layout.LineCount | lib/external-text.rb:695-709 | When everything fits, the line count grows by the number of forced breaks. |
| Layout.ConcatAppendToLast | lib/external-text.rb:701 | Appending to the last line appends to the text. |
| Layout.LayoutKeepsWords | lib/external-text.rb:696-709 | The laid-out lines hold exactly the words, separated by spaces. |
| Layout.SpacedWithoutSpace | lib/external-text.rb:696 | Words joined by spaces, with the spaces removed, are the words. |
| Layout.LayoutKeepsText | lib/external-text.rb:666-711 | A single-line body lays out without error, and the lines hold its text apart from spacing. |
| Layout.WordsKeepText | lib/external-text.rb:695-709 | Laying out the split body keeps every non-space character. |
| Layout.EarlierLinesTrans | lib/external-text.rb:696-709 | "Lines before the last are kept" is transitive. |
| Layout.EarlierLinesKept | lib/external-text.rb:696-709 | Layout only ever writes to the last line or adds lines. |
| Layout.WordKeepsEarlierLines | lib/external-text.rb:697-708 | Placing one word keeps the lines before the last. |
| Layout.SegmentsKeepEarlierLines | lib/external-text.rb:698-702 | Placing segments keeps the lines before the last. |
| Layout.PieceKeepsEarlierLines | lib/external-text.rb:700-701 | Placing a piece keeps the lines before the last. |
| Blocks.Matching | lib/external-text.rb:781-797 | The matching keys are drawn from the keys. |
| Blocks.Select | lib/external-text.rb:780-799 | A non-negative `to` bounds the number of keys shown. |
| Blocks.MatchingMembers | lib/external-text.rb:784-791 | A key is matching exactly when it is a key and matches the pattern. |
| Blocks.SelectMembers | lib/external-text.rb:780-799 | Every key shown is a matching key. |
| Blocks.GetBlock | lib/external-text.rb:780-799 | The loop shows exactly `Select`. |
| Blocks.NothingLeft | lib/external-text.rb:782 | With `to` at zero nothing is shown. |
| Blocks.ShowFirst | lib/external-text.rb:784-787 | With no keys left to skip, a matching first key is shown and `to` counts down. |
| Blocks.PassOver | lib/external-text.rb:784 | A key that does not match is passed over. |
| Blocks.SkipFirst | lib/external-text.rb:788 | A matching key is skipped while `from` counts down. |
| Blocks.AtMostTotal | lib/external-text.rb:759 | The key order used for sorting is total. |
| Blocks.AtMostTransitive | lib/external-text.rb:759 | The key order used for sorting is transitive. |
| Blocks.Insert | lib/external-text.rb:759 | Insertion adds exactly one copy of the key. |
| Blocks.Sort | lib/external-text.rb:759 | Sorting is a permutation. |
| Blocks.InsertSorted | lib/external-text.rb:759 | Insertion keeps a sorted list sorted. |
| Blocks.SortSorts | lib/external-text.rb:759 | Sorting gives a sorted permutation. |
| Blocks.BlockText | lib/external-text.rb:758-760 | `block_text` shows the selection from the sorted keys. |
| Blocks.BlockTextUnsorted | lib/external-text.rb:769-771 | `block_text_us` shows the selection from the keys in table order. |
| Blocks.MatchingSorted | lib/external-text.rb:758-760 | Filtering a sorted key list keeps it sorted. |
| Blocks.BlockTextInOrder | lib/external-text.rb:758-760 | `block_text` shows its keys in sorted order. |
| Blocks.SameKeysEitherOrder | lib/external-text.rb:758-771 | Sorted or not, the same keys match. |
| Blocks.AllMatchesShown | lib/external-text.rb:780-799 | With no skip and a negative `to`, every matching key is shown. |
| Blocks.NegativeFromShowsNothing | lib/external-text.rb:785-788 | A negative `from` never reaches zero, so nothing is shown. |
| Database.PairAt | lib/addons/external-text-database/external-text-database.rb:207 | A `word::word` pair is found only where word characters, `::` and a word character stand. |
| Database.PairScan | lib/addons/external-text-database/external-text-database.rb:207-211 | What is left after removing the pairs is no longer than the name. |
| Database.KlassName | lib/addons/external-text-database/external-text-database.rb:207-214 | An empty class name comes only from a name made wholly of pairs. |
| Database.OverrideKey | lib/addons/external-text-database/external-text-database.rb:223-228 | The generated key starts with the class name and ends with the getter, and the id sits between them when present. |
| Database.OrElse | lib/addons/external-text-database/external-text-database.rb:229-230 | Found text wins. Nil falls back to the stock value when there is one. |
| Database.Getter | lib/addons/external-text-database/external-text-database.rb:229-230 | Text found under the key wins. The getter is nil only when the lookup is, and otherwise falls back to the original value. |
| Database.At | lib/addons/external-text-database/external-text-database.rb:134-143 | A stock vocabulary entry exists exactly for an index within the list. |
| Database.Terms | lib/addons/external-text-database/external-text-database.rb:134-197 | A vocabulary list has one entry per key. |
| Database.BasicAsWritten | lib/addons/external-text-database/external-text-database.rb:134-143 | `basic` gives eight entries, the first read under `System_Level ` with its trailing space. |
| Database.Basic | lib/addons/external-text-database/external-text-database.rb:134-143 | `basic`, read under the keys the extractor writes, gives eight entries. |
| Database.Params | lib/addons/external-text-database/external-text-database.rb:148-157 | `params` gives eight entries. |
| Database.Etypes | lib/addons/external-text-database/external-text-database.rb:162-168 | `etypes` gives five entries. |
| Database.Commands | lib/addons/external-text-database/external-text-database.rb:173-197 | `commands` gives twenty-three entries. |
| Database.PlainScan | lib/addons/external-text-database/external-text-database.rb:207-211 | A name with no `::` has no pairs. |
| Database.KlassNamePlain | lib/addons/external-text-database/external-text-database.rb:207-215 | A plain class name is its own name. |
| Database.KlassNameQualified | lib/addons/external-text-database/external-text-database.rb:207-215 | `A::B` gives `B`. |
| Database.RpgKlassName | lib/addons/external-text-database/external-text-database.rb:103-111 | `RPG::Actor` and the other Override classes give their bare names. |
| Database.LoadedKeyWins | lib/addons/external-text-database/external-text-database.rb:229-230 | A getter whose key is stored reads the stripped stored text. |
| Database.UnloadedGetter | lib/addons/external-text-database/external-text-database.rb:229-230 | Without a table a getter reads the original method, or the field when that method raises. |
| Database.UnloadedTerms | lib/addons/external-text-database/external-text-database.rb:134-197 | Without a table every vocabulary entry is the stock value. |
| Database.TermLoaded | lib/addons/external-text-database/external-text-database.rb:134-197 | A stored vocabulary key is read from the table. |
| Database.LevelTermMissedAsWritten | lib/addons/external-text-database/external-text-database.rb:135 | With `System_Level` stored, `basic[0]` as written still gives the stock value. |
| Database.LevelTermRead | lib/addons/external-text-database/external-text-database.rb:135 | With the key corrected, `basic[0]` reads the stored `System_Level`. |
| Database.GateAcceptsRequired | lib/addons/external-text-database/external-text-database.rb:118-124 | The add-on loads with External Text 3.1.0 or later, and not without it or with an older version. |
| MultiLang.FirstLanguage | lib/addons/multi-lang/multi-lang.rb:97-98 | A language read from `Language=` is a non-empty run of word characters. |
| MultiLang.ReplaceLanguage | lib/addons/multi-lang/multi-lang.rb:163 | The rewrite is empty exactly when the text is. |
| MultiLang.Choose | lib/addons/multi-lang/multi-lang.rb:93-103 | The chosen language is always one of the languages. None is chosen exactly when there are no languages. |
| MultiLang.GameIni.constructor | lib/addons/multi-lang/multi-lang.rb:95 | The ini holds the given text. |
| MultiLang.GameIni.CheckLanguage | lib/addons/multi-lang/multi-lang.rb:93-103 | The loop over the ini lines chooses exactly `Choose`. |
| MultiLang.GameIni.SetLanguage | lib/addons/multi-lang/multi-lang.rb:161-165 | The ini becomes the text with every entry renamed, and with `Language=x` and a newline appended right after its last character when no entry names x. |
| MultiLang.LanguageTables | lib/addons/multi-lang/multi-lang.rb:109-134 | One table is built per language file. |
| MultiLang.CreateText | lib/addons/multi-lang/multi-lang.rb:109-134 | The loop builds the tables `LanguageTables` gives, or stops with its failure. |
| MultiLang.TablesStep | lib/addons/multi-lang/multi-lang.rb:113-127 | Each language file is parsed from an empty table, with the cursor carried over from the previous file. |
| MultiLang.VisibleLineNumber | lib/addons/multi-lang/multi-lang.rb:186-188 | The list shows eight lines, or fewer when there are fewer languages. |
| MultiLang.HelpText | lib/addons/multi-lang/multi-lang.rb:261-264 | The help text is the `Language Select` text, or the default when that key is missing. It is never nil. |
| MultiLang.ReplaceHead | lib/addons/multi-lang/multi-lang.rb:163 | The rewrite keeps the first character. |
| MultiLang.ReplaceKeepsPrefix | lib/addons/multi-lang/multi-lang.rb:163 | A rewritten prefix without `L` is the original prefix, with the rest rewritten. |
| MultiLang.ReplacedFirst | lib/addons/multi-lang/multi-lang.rb:97-98 | After the rewrite, the first entry names the new language exactly when there was an entry. |
| MultiLang.ReplaceWithoutEntry | lib/addons/multi-lang/multi-lang.rb:163 | Text with no `Language=word` is not changed. |
| MultiLang.ReplaceAppend | lib/addons/multi-lang/multi-lang.rb:163 | The rewrite works piece by piece across a seam no match can cross. |
| MultiLang.FirstLanguageAppend | lib/addons/multi-lang/multi-lang.rb:97-98 | The first entry of a joined text is the first entry of the first piece, else that of the second. |
| MultiLang.ReplaceNoNewline | lib/addons/multi-lang/multi-lang.rb:163 | The rewrite adds no newline. |
| MultiLang.ReplaceLine | lib/addons/multi-lang/multi-lang.rb:163 | The rewrite keeps a line a line. |
| MultiLang.ReplaceEach | lib/addons/multi-lang/multi-lang.rb:163 | Each line is rewritten on its own. |
| MultiLang.ReplaceByLines | lib/addons/multi-lang/multi-lang.rb:163 | Rewriting the file is rewriting each of its lines. |
| MultiLang.EntryOnSomeLine | lib/addons/multi-lang/multi-lang.rb:96-98 | An entry in the file is an entry on one of its lines. |
| MultiLang.OccurrenceIsEntry | lib/addons/multi-lang/multi-lang.rb:164 | Text containing `Language=lang` has an entry. |
| MultiLang.ChooseUniform | lib/addons/multi-lang/multi-lang.rb:93-103 | When every entry names the same known language, that language is chosen. |
| MultiLang.ChooseLast | lib/addons/multi-lang/multi-lang.rb:93-103 | A last line naming a known language decides the choice. |
| MultiLang.EntryLine | lib/addons/multi-lang/multi-lang.rb:164 | The appended line is an entry for the language. |
| MultiLang.RoundTrip | lib/addons/multi-lang/multi-lang.rb:161-164 | With the appended line on a line of its own, setting a language and checking again gives that language. |
| MultiLang.RoundTripFailsAsWritten | lib/addons/multi-lang/multi-lang.rb:164 | As written, an ini ending in `Language=` set to French is read back as English. |
| MultiLang.RoundTripAsWritten | lib/addons/multi-lang/multi-lang.rb:161-164 | As written, the round trip holds when the rewritten ini already names the language, is empty, or ends its last line. |
| MultiLang.SetLanguageTextAsWritten | lib/addons/multi-lang/multi-lang.rb:162-164 | The written ini contains an entry for the language and starts with the rewritten text. |
| MultiLang.SetLanguageText | lib/addons/multi-lang/multi-lang.rb:162-164 | The corrected ini contains an entry for the language and starts with the rewritten text. |
| MultiLang.GluedLine | lib/addons/multi-lang/multi-lang.rb:164 | The appended entry glued to `Language=` reads as the language `Language`. |
| MultiLang.NoEntryInShort | lib/addons/multi-lang/multi-lang.rb:97 | A text shorter than ten characters has no entry. |
| MultiLang.TablesHoldOwnKeys | lib/addons/multi-lang/multi-lang.rb:109-134 | Each language's table holds exactly the keys its file declares. |
| MultiLang.TablesWellFormed | lib/addons/multi-lang/multi-lang.rb:109-134 | Each language's table is well-formed. |
| MultiLang.GateAcceptsRequired | lib/addons/multi-lang/multi-lang.rb:78-83 | The add-on loads with External Text 3.0.0 or later. |
| Choices.Closers | lib/addons/extractor/enelvon_external_text_extractor.rb:142-150 | Closing n branches adds two commands per branch. |
| Choices.Reindent | lib/addons/extractor/enelvon_external_text_extractor.rb:138-141 | When the body ends, the body and the rest make up the list, and the rest starts with a command at or below the base. |
| Choices.Close | lib/addons/extractor/enelvon_external_text_extractor.rb:136-152 | A closed block holds k branches and grows by two commands per branch. |
| Choices.Act | lib/addons/extractor/enelvon_external_text_extractor.rb:124-152 | A command is shifted exactly when it is not a `When` at the base, nor a `Branch End` at the base with the default past the choices. Otherwise it becomes an `Else` and a branch one deeper. A `When` at the base tests choice `ci + 1` and finishes the block exactly when the default is one of the choices and its choice is the last one. A qualifying `Branch End` finishes the block, testing the default choice. |
| Choices.Walk | lib/addons/extractor/enelvon_external_text_extractor.rb:123-183 | The walk never loses commands. An unclosed walk adds one command per branch made. |
| Choices.WalkShiftsRun | lib/addons/extractor/enelvon_external_text_extractor.rb:123-183 | A run of commands that are neither a `When` nor a qualifying `Branch End` at the base comes out in order, each shifted right by `ci - 1`, in front of the walk of what follows. |
| Choices.Choices | lib/addons/extractor/enelvon_external_text_extractor.rb:104-183 | A choice with nothing after it fails. Otherwise the list does not shrink, the front is kept, and the choice becomes the call as written. |
| Choices.ExtractChoices | lib/addons/extractor/enelvon_external_text_extractor.rb:95-185 | The entry text is always filed under the Map-form key, as at 99-100, whatever the event type. The rewrite fails exactly when `Choices` does, and otherwise leaves the list `Choices` gives. |
| Choices.RewriteChoice | lib/addons/extractor/enelvon_external_text_extractor.rb:104-183 | The in-place rewrite fails exactly when `Choices` does, and otherwise leaves its list. The inserted call is the one written for the event type, `show choices(` for a troop. |
| Choices.ChoicesAre | lib/addons/extractor/enelvon_external_text_extractor.rb:104-183 | The rewrite is the call and the first branch test, followed by the walk over the rest. |
| Choices.ChoiceEntry | lib/addons/extractor/enelvon_external_text_extractor.rb:96-103 | The text built is the key line, the default line and one line per choice. |
| Choices.AppendChoices | lib/addons/extractor/enelvon_external_text_extractor.rb:103 | The loop appends each choice on its own line. |
| Choices.WalkCommands | lib/addons/extractor/enelvon_external_text_extractor.rb:123-183 | The loop fails exactly when `Walk` does, and otherwise leaves the front and the walked rest. |
| Choices.WalkOne | lib/addons/extractor/enelvon_external_text_extractor.rb:124-182 | One pass of the loop body keeps the walk invariant and moves on, or closes the block and leaves exactly the list `Walk` gives, failing exactly when it does. |
| Choices.CloseAt | lib/addons/extractor/enelvon_external_text_extractor.rb:136-152 | Closing at the end branch leaves the list `Close` gives. |
| Choices.CloseBlock | lib/addons/extractor/enelvon_external_text_extractor.rb:136-152 | Closing re-indents the body and inserts the closers after it. |
| Choices.ReindentBody | lib/addons/extractor/enelvon_external_text_extractor.rb:138-141 | The loop re-indents the deeper commands up to the first one at or below the base. It fails when there is none. |
| Choices.InsertClosers | lib/addons/extractor/enelvon_external_text_extractor.rb:142-150 | The closers are inserted at the position. |
| Choices.ChoiceKeyPlain | lib/addons/extractor/enelvon_external_text_extractor.rb:99-100 | A choice key is one line with no leading blank, so it reads back as a key. |
| Choices.NoTagOpensWithDe | lib/external-text.rb:330-396 | No tag pattern matches a line starting `[De`. |
| Choices.DefaultLineIsBody | lib/addons/extractor/enelvon_external_text_extractor.rb:101-102 | The `[Default Choice]` line is read as a body line. |
| Choices.ChoiceTextParses | lib/addons/extractor/enelvon_external_text_extractor.rb:99-103 | A choice entry parses to a record under its key whose body is the default line followed by the choices. |
| Choices.ChoiceLinesRead | lib/addons/extractor/enelvon_external_text_extractor.rb:103 | The choice lines read back as one line per choice. |
| Choices.KeyLineTag | lib/addons/extractor/enelvon_external_text_extractor.rb:99-100 | The entry's key line parses to `Key` of exactly that key. |
| Choices.CallNamesEntryKey | lib/addons/extractor/enelvon_external_text_extractor.rb:106-117 | With the key corrected, the inserted call names the entry's key. |
| Choices.ChoiceEntryFound | lib/addons/extractor/enelvon_external_text_extractor.rb:99-117 | With the key corrected, the key the call names is in the table after parsing. |
| Choices.CommonChoiceLostAsWritten | lib/addons/extractor/enelvon_external_text_extractor.rb:99-112 | As written, the common-event call's key is not in the table after parsing. |
| Choices.TroopCallMisspelledAsWritten | lib/addons/extractor/enelvon_external_text_extractor.rb:115 | As written, the troop call does not start with `show_choices(`. |
| Choices.MapChoiceFoundAsWritten | lib/addons/extractor/enelvon_external_text_extractor.rb:99-108 | As written, a map event's call is spelled right and names the key its entry is filed under. |
| Choices.ReindentMeans | lib/addons/extractor/enelvon_external_text_extractor.rb:138-141 | Re-indenting fails exactly when every later command is deeper. Otherwise it shifts exactly the deeper run and stops at the first command at or below the base. |
| Choices.ClosersShape | lib/addons/extractor/enelvon_external_text_extractor.rb:142-150 | The closers alternate Branch End and empty commands, with indents counting down to the base. |
| Choices.WalkLength | lib/addons/extractor/enelvon_external_text_extractor.rb:123-183 | The walked list grows by one test per branch, plus the closers when the block is closed. |
| Choices.ChoicesFront | lib/addons/extractor/enelvon_external_text_extractor.rb:104-121 | A choice with nothing after it fails. Otherwise the commands before it are kept, it becomes the script call, and the next command becomes the first branch test. |
| ShowText.TextRanges | lib/addons/extractor/enelvon_external_text_extractor.rb:349-361 | The recorded positions are exactly the Show Text commands, in order. |
| ShowText.Rewritten | lib/addons/extractor/enelvon_external_text_extractor.rb:375-388 | The rewritten list is never longer than the list. |
| ShowText.AfterText | lib/addons/extractor/enelvon_external_text_extractor.rb:383-386 | After a Show Text, the rewrite needs at least one more command and never lengthens the list. |
| ShowText.RewriteTexts | lib/addons/extractor/enelvon_external_text_extractor.rb:375-388 | The rewrite fails exactly when `Rewritten` does, and otherwise leaves its list. |
| ShowText.RewriteStep | lib/addons/extractor/enelvon_external_text_extractor.rb:377-386 | One range step keeps the walk invariant, or fails only when the whole rewrite fails. |
| ShowText.DeleteLines | lib/addons/extractor/enelvon_external_text_extractor.rb:383-386 | The loop deletes the run of text lines after the position, and only those. |
| ShowText.ReplaceText | lib/addons/extractor/enelvon_external_text_extractor.rb:378-386 | The command becomes the `text` call and the text lines after it are deleted. |
| ShowText.Numbered | lib/addons/extractor/enelvon_external_text_extractor.rb:378-382 | Numbering keeps the length of the list. |
| ShowText.Deleted | lib/addons/extractor/enelvon_external_text_extractor.rb:383-386 | One deletion flag per command. |
| ShowText.RewrittenIsReference | lib/addons/extractor/enelvon_external_text_extractor.rb:375-388 | The rewrite equals the reference: number every Show Text and drop every text line that follows one. |
| ShowText.AfterTextIsReference | lib/addons/extractor/enelvon_external_text_extractor.rb:375-388 | After a Show Text the rewrite equals the reference. |
| ShowText.NumberedAt | lib/addons/extractor/enelvon_external_text_extractor.rb:378-382 | The j-th Show Text becomes the call for text number n + j. Other commands are kept. |
| ShowText.DeletedMeans | lib/addons/extractor/enelvon_external_text_extractor.rb:383-386 | A command is deleted exactly when it is a text line in a run after a Show Text. |
| ShowText.DanglesMeans | lib/addons/extractor/enelvon_external_text_extractor.rb:383-386 | The rewrite runs off the list exactly when the list ends inside such a run. |
| ShowText.TextEntry | lib/addons/extractor/enelvon_external_text_extractor.rb:349-358 | The entry is the header followed by one line per text line. |
| ShowText.Header | lib/addons/extractor/enelvon_external_text_extractor.rb:353-358 | The header starts with a blank line and the key line ended by a newline. |
| ShowText.HeaderAsWritten | lib/addons/extractor/enelvon_external_text_extractor.rb:233-238 | The header starts with the key line. For a map event it is the ended header. |
| ShowText.TextKeyPlain | lib/addons/extractor/enelvon_external_text_extractor.rb:353-354 | A text key is one line with no leading blank. |
| ShowText.CallNamesKey | lib/addons/extractor/enelvon_external_text_extractor.rb:380-381 | The inserted call names exactly the entry's key. |
| ShowText.HeaderKeyLine | lib/addons/extractor/enelvon_external_text_extractor.rb:353-354 | The header's key line reads back as exactly the entry's key. |
| ShowText.MapHeaderEnded | lib/addons/extractor/enelvon_external_text_extractor.rb:353-354 | The Map header, as written, is the corrected header. |
| ShowText.RunOnHeader | lib/addons/extractor/enelvon_external_text_extractor.rb:233-238 | As written, the common-event and troop header puts the next tag on the key line. |
| ShowText.KeyLineSwallowsOptions | lib/addons/extractor/enelvon_external_text_extractor.rb:233-238 | As written, the common-event and troop key reads back with `[Background] …` attached, so it differs from the key the call names. |
| Emitters.TypeName | lib/addons/extractor/enelvon_external_text_extractor.rb:22-31 | Each kind's type name is a capitalised word. |
| Emitters.OverrideRow | lib/addons/extractor/enelvon_external_text_extractor.rb:22-31 | Each kind has a row in the Override table. |
| Emitters.Getters | lib/addons/extractor/enelvon_external_text_extractor.rb:22-31 | Every getter name is a word. |
| Emitters.DatabaseText | lib/addons/extractor/enelvon_external_text_extractor.rb:42-59 | An emitted file is empty or ends with a newline. |
| Emitters.Emit | lib/addons/extractor/enelvon_external_text_extractor.rb:43-53 | The loop emits exactly `DatabaseText`. |
| Emitters.EmitEntity | lib/addons/extractor/enelvon_external_text_extractor.rb:46-52 | One entity appends its banner and entries. |
| Emitters.ExtractText | lib/addons/extractor/enelvon_external_text_extractor.rb:587-599 | With the weapon list corrected, each kind's file is the text of its own list. |
| Emitters.WeaponFileFromArmors | lib/addons/extractor/enelvon_external_text_extractor.rb:740-748 | As written, the weapons file holds the armors. |
| Emitters.FileTextAsWritten | lib/addons/extractor/enelvon_external_text_extractor.rb:740-748 | Every file is written from its own list, except the weapon file, which is written from the armors. |
| Emitters.KeyPlain | lib/addons/extractor/enelvon_external_text_extractor.rb:50 | An entry key is one line, with no leading blank, made of the prefix and the getter. |
| Emitters.KeyIsOverrideKey | lib/addons/extractor/enelvon_external_text_extractor.rb:50 | The emitted key is the key the database add-on generates for that class, id and getter. |
| Emitters.PrefixNamesId | lib/addons/extractor/enelvon_external_text_extractor.rb:50 | A key's prefix fixes the id, so entries of different ids never collide. |
| Emitters.KeyEntryParses | lib/addons/extractor/enelvon_external_text_extractor.rb:50 | One emitted entry parses to its key with the value as body. |
| Emitters.EntityParses | lib/addons/extractor/enelvon_external_text_extractor.rb:46-52 | An entity's block parses to its entries. |
| Emitters.EntriesParse | lib/addons/extractor/enelvon_external_text_extractor.rb:49-51 | The entries of one entity parse to exactly those keys, each holding its value. |
| Emitters.BannerSkipped | lib/addons/extractor/enelvon_external_text_extractor.rb:46-48 | The banner comment lines of a block add nothing to the table. |
| Emitters.KeyEntryLines | lib/addons/extractor/enelvon_external_text_extractor.rb:50 | One entry is read back as three lines: the key line, the value line and a blank line. |
| Emitters.FiledEntityOther | lib/addons/extractor/enelvon_external_text_extractor.rb:49-51 | Filing an entity leaves every key outside its id's prefix as it was. |
| Emitters.OneBlock | lib/addons/extractor/enelvon_external_text_extractor.rb:44-53 | A list of one entity emits that entity's block. |
| Emitters.OtherListsAsWritten | lib/addons/extractor/enelvon_external_text_extractor.rb:42-81 | Every emitter other than the weapon one reads its own list. |
| Emitters.DatabaseTextParses | lib/addons/extractor/enelvon_external_text_extractor.rb:42-59 | An emitted file parses without error to the table filed from its entities. |
| Emitters.FiledAt | lib/addons/extractor/enelvon_external_text_extractor.rb:44-53 | The last entity with an id holds its values under its keys. |
| Emitters.StoredStrips | lib/external-text.rb:424 | A stored plain value reads back as the stripped value. |
| Emitters.EmittedGetter | lib/addons/external-text-database/external-text-database.rb:223-230 | After parsing an emitted file, each getter of the last entity with an id reads its own value, stripped. |
| Emitters.WeaponGetterReadsArmor | lib/addons/extractor/enelvon_external_text_extractor.rb:742 | As written, weapon getters read the armors' values. |
| TablePack.Dump | lib/addons/extractor/enelvon_external_text_extractor.rb:856-859 | The dump is twenty header bytes plus two bytes per cell. |
| TablePack.Load | lib/addons/extractor/enelvon_external_text_extractor.rb:849-854 | Loading succeeds exactly with at least twenty bytes, and reads one cell per whole 16-bit word. |
| TablePack.LoadDump | lib/addons/extractor/enelvon_external_text_extractor.rb:849-859 | Loading a dump restores the sizes modulo 2^32 and the cells modulo 2^16. |
| TablePack.LoadDumpFitting | lib/addons/extractor/enelvon_external_text_extractor.rb:849-859 | A table whose values fit their fields comes back unchanged. |
| TablePack.NegativeCellChanges | lib/addons/extractor/enelvon_external_text_extractor.rb:851 | A cell of -1 comes back as 65535. |
| TablePack.DumpLoad | lib/addons/extractor/enelvon_external_text_extractor.rb:849-859 | Dumping a loaded even-length byte string gives it back exactly when its fifth word is the product of the dimensions. |
| TablePack.CellsRead | lib/addons/extractor/enelvon_external_text_extractor.rb:851 | Packed cells read back as their low 16 bits. |
| TablePack.ReadCellsPack | lib/addons/extractor/enelvon_external_text_extractor.rb:858 | Cells read from an even byte run pack back into it. |
| TablePack.Word32Read | lib/addons/extractor/enelvon_external_text_extractor.rb:851 | A packed 32-bit word reads back modulo 2^32. |
| TablePack.Word16Read | lib/addons/extractor/enelvon_external_text_extractor.rb:858 | A packed 16-bit word reads back modulo 2^16. |
| TablePack.Read32Word | lib/addons/extractor/enelvon_external_text_extractor.rb:851 | A 32-bit word read from four bytes packs back into them. |
| TablePack.Word32Low | lib/addons/extractor/enelvon_external_text_extractor.rb:858 | Packing keeps only the low 32 bits. |
| RubyString.Strip | lib/external-text.rb:424 | The stripped text has no leading whitespace, VT included, and no trailing whitespace or NUL. |
| RubyString.RStrip | lib/external-text.rb:424 | Right-stripping removes exactly the trailing blanks and NULs. |
| RubyString.LStrip | lib/external-text.rb:424 | Left-stripping leaves no leading blank. |
| RubyString.SkipSpace | lib/external-text.rb:513 | `\s*` skips the leading space, tab, LF, FF and CR, but not VT. |
| RubyString.StripInside | lib/external-text.rb:424 | The stripped text is the part of the text that follows its leading blanks. |
| RubyString.ReadLines | lib/external-text.rb:511 | `readlines` gives no lines exactly for the empty text. |
| RubyString.ReadLinesConcat | lib/external-text.rb:511 | The lines join back into the text. |
| RubyString.ReadLinesAreLines | lib/external-text.rb:511 | Each line holds at most one newline, at its end, and every line but the last ends with one. |
| RubyString.ReadLinesAppend | lib/external-text.rb:511 | Reading two texts, the first ending its last line, is reading each in turn. |
| RubyString.SplitOnSpace | lib/external-text.rb:696 | `split(/\s+/)` gives words without blanks. Only the first may be empty, and only when the text starts with a blank. |
| RubyString.SplitOnSpaceKeepsText | lib/external-text.rb:696 | The words hold every non-blank character of the text. |
| RubyString.DropTrailingEmpty | lib/external-text.rb:696 | `split` drops exactly the trailing empty fields. |
| RubyString.MarkLineBreaks | lib/external-text.rb:695 | After marking, no CR or LF is left. |
| RubyString.MarkLineBreaksIdempotent | lib/external-text.rb:695 | Marking twice is marking once. |
| RubyString.NoBreaksUnchanged | lib/external-text.rb:695 | A text with no CR or LF is unchanged by marking. |
| RubyString.SplitOnMarker | lib/external-text.rb:699 | `split(/\[line\]/i)` never ends with an empty field. |
| RubyString.SplitOnMarkerNoSpace | lib/external-text.rb:699 | The pieces of a word without whitespace have none either. |
| RubyString.NatToStringValue | lib/addons/extractor/enelvon_external_text_extractor.rb:50 | An id interpolated into a key is a digit string whose value is the id. |
| RubyString.LessThanIrreflexive | lib/addons/multi-lang/multi-lang.rb:79-80 | The version comparison never puts a string below itself. |
| RubyString.LessThanAsymmetric | lib/addons/multi-lang/multi-lang.rb:79-80 | The version comparison is asymmetric. |
| RubyString.LessThanTransitive | lib/external-text.rb:759 | String order is transitive. |
| RubyString.LessThanTotal | lib/external-text.rb:759 | Any two different strings are ordered one way or the other. |

## Left out

- Face lookup through `$game_actors` / `$game_party` (667-678) reads game state. `[AFace]`/`[PFace]` are stored but not resolved, and `text`'s follow-up `setup_*` calls and `wait_for_message` are left out.
- File I/O, `Marshal`, `load_data`, directory walking and the editor's window toolkit are not modelled. File contents are `string` parameters and event lists are values or `EventPage` objects.
- The vocabulary extractor (`extract_vocab_text`) writes its text from a Zlib-packed script archive. Decompression is not modelled, so that emitter is left out.
- The system-text emitter (`extract_system_text`) is a fixed list of lines. Only the one key it shares with the database add-on, `System_Level`, is modelled.
- The scrolling-text rewrites (code 105/405) are left out. The common-event branch of that rewrite reads an undefined variable (`p`, 272-281), so it has no defined behaviour to model.
- The scan loop writes its entry text and recodes 404 commands to 412 as it goes. The model splits this into separate functions for the entry header (`ShowText.TextEntry`) and the Show Text rewrite. The interleaving and the 404 to 412 recoding are not modelled.
- `scrolling_text` (816-828) is not modelled beyond the layout it shares with `text`. Its display loop and the waits around it are interpreter suspension.
- `show_choices` itself, the interpreter command that displays a choice list from a key, is not part of this model.
- When an extractor rewrite fails, the source raises partway through with the page partly edited. The model reports the failure and states nothing about that partial page.
- `convert_escape_characters` is modelled only for its backslash-to-escape and doubled-escape steps. The `\V`, `\N`, `\P`, `\G` and `\T` substitutions (635-644) read game state and are left out.
- `Lookup.GetText`: an override chain is followed only up to a fuel bound. Exhausting the bound gives `TooDeep`, which stands for Ruby's stack overflow on a cyclic chain.
- `Blocks.Select`: the key pattern is a Ruby `Regexp`. Here it is a predicate parameter with no regex semantics.
- `Layout.Lay`: text width comes from the window's font, so it is a `measure` parameter. The wrap lemmas hold for every measure; the line-count lemmas assume that everything fits.
- Tag patterns with `/i` and the `[line]` marker split fold only ASCII letter case. Ruby's case-insensitive regex on UTF-8 text also folds other letters, such as the Kelvin sign to `k`.
- `Emitters.DatabaseTextParses`: the round trip is proved only for plain values. A plain value is one line that does not start with a blank, `#`, `//` or a tag. Other values change shape when the tag file is read back.
- `Emitters.EmittedGetter`: proved for the last entity with a given id, because a later entity with the same id overwrites the earlier one's keys.
- `MultiLang.GameIni.SetLanguage`: it models the rewrite of `Game.ini` but not the reload of `$game_text` that follows.
- `Layout.Lay`: with names off, `load_text` leaves `@name` as the message's `clear` set it, the empty string. The model gives `None`.
- Record ids are `nat`. The database never uses negative ids.
- Both the database add-on and the extractor declare an `Override` table with the same content. The model holds it once, as `Database.Overrides`.

## Findings

| source | as written | input that shows it | evidently intended | confidence | as-written member | corrected member |
|---|---|---|---|---|---|---|
| lib/addons/extractor/enelvon_external_text_extractor.rb:233 | The common-event and troop Show Text header ends its `[Key]` line without a newline (also at 637). | A Show Text with no face and the Normal background. The key line reads `[Key] Common Event 1 Text 1[Background] Normal`. | End the key line with a newline, as the Map branch does at 353-354. | not executed | ShowText.KeyLineSwallowsOptions | ShowText.HeaderKeyLine |
| lib/addons/external-text-database/external-text-database.rb:135 | `basic[0]` looks up `System_Level ` with a trailing space. | A table holding `System_Level`, which the extractor writes at 528. The level term still shows the stock value. | Look up `System_Level`. | not executed | Database.LevelTermMissedAsWritten | Database.LevelTermRead |
| lib/addons/multi-lang/multi-lang.rb:164 | `set_language` appends `Language=x` without first ending the last line. | A `Game.ini` ending in `Language=` with French selected. It reads back as English. | Start the appended entry on a new line. | not executed | MultiLang.RoundTripFailsAsWritten | MultiLang.RoundTrip |
| lib/addons/extractor/enelvon_external_text_extractor.rb:742 | `extract_weapon_text` iterates `Data_Armors`. | One armor and no weapons. `Weapons.txt` holds `Weapon_1_name` with the armor's name. | Iterate `Data_Weapons`. | not executed | Emitters.WeaponGetterReadsArmor | Emitters.EmittedGetter |
| lib/addons/extractor/enelvon_external_text_extractor.rb:99 | The choice entry's key is always in the Map form, while the common-event call names `Common Event e Choice n`. | A common event with one Show Choices. The key its call names is not in the table. | Write the entry under the key the call names. | not executed | Choices.CommonChoiceLostAsWritten | Choices.ChoiceEntryFound |
| lib/addons/extractor/enelvon_external_text_extractor.rb:115 | The troop call is written `show choices(`, with a space. | Any troop page with a Show Choices. The call does not name `show_choices`. | Write `show_choices(`. | not executed | Choices.TroopCallMisspelledAsWritten | Choices.CallNamesEntryKey |
