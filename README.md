# kcc diagnostic beautifier, modelled in Dafny

This project models the core of kcc, a g++ wrapper that rewrites compiler
diagnostics so they are easier to read. The model covers five parts.

- **The line classifier** (`GccParser`, `ParserProperties`).
  - It cuts a diagnostic line at lone colons and at a line-final comma.
  - It strips each piece.
  - It reads the pieces as file, line number, optional column, kind and
    message, and stores them in an attribute dictionary that lives on the
    parser object.
  - It collects the quoted code fragments (`‘…’`) of the message.
  - It also holds the balanced-bracket scanner `_next_token`.
- **The beautifier** (`GccBeautifier`, `BeautifierProperties`,
  `BeautifierExamples`).
  - Its message hook also reads each fragment's `[with T = X, …]` clause.
  - `build` rewrites every fragment: with-clause substitution, collapsing
    `> >`, dropping `std::` and `__gnu_cxx::`, the stream and string
    typedefs, and default container arguments.
  - From the moderate level up, it also strips system-header locations and
    `boost::`, and suppresses `error:` lines.
  - It splices the rewritten fragments back into the line, then suppresses
    redundant include-chain lines.
- **The POSIX escape builder** (`PosixBuilder`). A string plus a table from
  offsets to SGR codes, rendered by splicing one escape sequence per offset.
- **The colour helpers** `color` and `color_only` (`Colors`).
- **The message helpers** `highlight_line`, `message`, `notify`, `warn` and
  `error` (`ErrMsg`).

`Text` models the Python string operations the core relies on: `strip`,
`startswith`, `in`, `find`, `replace`, `join` and `split()`. `Wrappers`
holds `Option` and `Result`.

## How the model is organised

**Objects with state are classes.**

- `GccParser.Parser` keeps the current line and the attribute dictionary.
  `ParseLine` updates them in place.
- `GccBeautifier.Beautifier` holds its parser, its level and the line being
  rewritten. `Build` updates the line and each fragment's formatted text.
- `PosixBuilder.Builder` holds the string and the code table. `Insert` and
  `Update` modify the table.

**Each method is proved against a pure function.** Examples:

| method | specification function |
|---|---|
| `ParseLine` | `Classify` |
| `Build` | `BuildSpec` |
| `Result` | `Layout` |
| `_parse_with_stmts` | `WithTokens` |
| `_compact_typedefs` | `CompactTypes` |
| `_parse_templates` | `TemplatesUpTo` |
| `_next_token` | `TokenAt` |

The promised behaviour is then proved about those functions as lemmas.

**Regular expressions are written out as scanners.** They cover the
separator split, the file, system-file, linker, line-number and message
patterns, the quoted-code pattern and the with-clause pattern.

**Python exceptions that escape `parse_line` become a `Failure` result.**
The three cases are:

- `int()` of a malformed number (`ValueError`);
- indexing past the last piece (`IndexError`);
- a with-entry that does not hold exactly one `=` (the `ValueError` of
  unpacking `entry.split("=")` into two names).

The dictionary is left as Python leaves it at the point of the exception.

**Two of the source's claims do not hold, and lemmas record both.**

- The parser's docstring says that reusing one parser and building a fresh
  one per line give identical results. They do not: fields a line does not
  set keep the previous line's values (`ReuseIsNotFresh`). Worse, `parse_line`
  returns the parser's own dictionary, so with a reused parser every collected
  result is one and the same dictionary and shows the last line's fields.
- With-clause keys are replaced as plain substrings. So the docstring's
  first example, `Type<T> [with T = int]`, becomes `intype<int>` and not
  `Type<int>` (`WithExample`). The source marks this with a TODO.

The model follows the code in both cases.

## Model

| member | source | states |
|---|---|---|
| GccParser.Parser.constructor | kaedenn/gcc/parser.py:56-82 | A new parser holds the given line and the default dictionary: raw line, no type, empty file, line and column -1, empty message. |
| GccParser.Parser.ParseLine | kaedenn/gcc/parser.py:118-169 | A non-empty argument replaces the stored line. The stored line ends up stripped. The dictionary and the returned value (dictionary or escaped exception) are those of the classification of the stripped line, starting from the old dictionary. |
| GccParser.Parser.ParseSegments | kaedenn/gcc/parser.py:125-143 | On the stripped pieces, the object's new dictionary and outcome agree with the classification of those pieces. The stored line is untouched. |
| GccParser.Parser.ParseFields | kaedenn/gcc/parser.py:144-168 | The dispatch on the piece after the file name (linker reference, line number and kind, free text) updates the dictionary exactly as the dispatch specification says. |
| GccParser.Parser.ParseErrorFields | kaedenn/gcc/parser.py:149-156 | Error lines take the kind at piece 2, or a column at piece 2 and the kind at piece 3. A missing piece 3 raises an index error. |
| GccParser.Segments | kaedenn/gcc/parser.py:124 | There is one stripped piece per piece of the separator split, in order. |
| GccParser.SplitRejoin | kaedenn/gcc/parser.py:69 | For text without a final comma separator, joining the split pieces with ":" gives the text back. The split loses only the separators. |
| GccParser.SplitNone | kaedenn/gcc/parser.py:69 | A text with no colon and no comma is a single piece. |
| GccParser.SplitAtColon | kaedenn/gcc/parser.py:69 | A lone colon splits the pieces of `a:b` into those of `a` followed by those of `b`. |
| GccParser.ParseInt | kaedenn/gcc/parser.py:148 | `int()` succeeds exactly on a non-empty all-digit piece, with a non-negative value. Otherwise it is a value error. |
| GccParser.SysFileMatch | kaedenn/gcc/parser.py:63-64 | A system-header match starts with `/usr/include/` and has at least two more characters. |
| GccParser.IndexOf | kaedenn/gcc/parser.py:90-93 | The index found holds the character and is its first occurrence. None means the character is absent. |
| GccParser.QuotedSpansWellFormed | kaedenn/gcc/parser.py:70 | Every quoted fragment found is non-empty and contains no right quote, as the pattern requires. |
| GccParser.NoQuotedSpans | kaedenn/gcc/parser.py:90-91 | A text without a left quote has no quoted fragments. |
| GccParser.QuotedSpansStep | kaedenn/gcc/parser.py:90-94 | Text before the first left quote is skipped. A well-formed quoted fragment is returned whole, without its quotes, followed by the fragments after it. |
| GccParser.ParseMessage | kaedenn/gcc/parser.py:84-102 | The message text is the pieces joined with ": ". The code list is empty exactly when there are no pieces. No code carries with-tokens or formatted text yet. |
| GccParser.BaseMessageParser | kaedenn/gcc/parser.py:84-102 | The base parser's message hook never fails. |
| GccParser.OneQuotedCode | kaedenn/gcc/parser.py:90-94 | A message with one quoted fragment yields exactly that fragment, without its quotes, as its only code. |
| GccParser.UnquotedMessage | kaedenn/gcc/parser.py:95-101 | Without quoted fragments, the one code is the pieces joined with ":". A leading "candidates are" piece is dropped. |
| GccParser.Record | kaedenn/gcc/parser.py:146 | On success the hook's message is stored. On failure the dictionary is unchanged and the failure is reported. |
| GccParser.NormalizeFirst | kaedenn/gcc/parser.py:132-135 | A first piece with neither an "In file included from" nor a "from" prefix is left unchanged. |
| GccParser.Scan | kaedenn/gcc/parser.py:104-116 | Where the bracket scan stops, the character is a delimiter (`,` or `=`). |
| GccParser.ScanFrom | kaedenn/gcc/parser.py:104-116 | A scan resumed at `i` with the counters of `t[..i]` stops at `j` exactly when `j` is the first top-level delimiter from `i` on and no bracket closed one it never opened. |
| GccParser.ScanStops | kaedenn/gcc/parser.py:104-116 | A scan from the start stops at `j` if and only if `j` is the first top-level delimiter and no closing bracket underflows a counter before it. |
| GccParser.ScanStep | kaedenn/gcc/parser.py:108-116 | One character of the scan: stop at a delimiter with all counters at zero, give up when a closer underflows, otherwise move on. |
| GccParser.NextToken | kaedenn/gcc/parser.py:104-116 | The loop returns the stripped text up to the first top-level delimiter after `begin`. It returns nothing when the text runs out or a closer has no opener. |
| ParserProperties.SplitJoined | kaedenn/gcc/parser.py:69 | Pieces without colons or commas split back exactly from their ":"-join. This is the converse of `SplitRejoin`. |
| ParserProperties.PlainFileKept | kaedenn/gcc/parser.py:132-143 | A plain file name survives prefix removal, matches the file pattern and does not match the system-header pattern. |
| ParserProperties.NumberFacts | kaedenn/gcc/parser.py:144-148 | A number is not a linker reference, starts with a digit, parses to its decimal value, and is none of the kinds. |
| ParserProperties.FivePieces | kaedenn/gcc/parser.py:124 | "f:n:c: kind: m" splits into exactly its five fields, stripped. |
| ParserProperties.FourPieces | kaedenn/gcc/parser.py:124 | "f:n: kind: m" splits into exactly its four fields, stripped. |
| ParserProperties.ClassifyFile | kaedenn/gcc/parser.py:138-143 | A line whose first piece is a plain file records that file as a non-system file and dispatches on the second piece. |
| ParserProperties.ErrorWithColumn | kaedenn/gcc/parser.py:147-156 | "file:line:column: error: message" reads back file, line, column, the error type and the message text. |
| ParserProperties.ErrorWithoutColumn | kaedenn/gcc/parser.py:147-152 | "file:line: error: message" reads back file, line, the error type and the message. The column keeps its old value. |
| ParserProperties.KindWithoutColumn | kaedenn/gcc/parser.py:157-162 | "file:line: warning: m" and "file:line: note: m" read back the warning or note type, the line and the message, unless m is itself "error". |
| ParserProperties.WarningWithColumnIsNote | kaedenn/gcc/parser.py:147-165 | "file:line:column: warning: m" is classified as a note. Its message is the column, the kind and the text, because only error lines are looked for a column. |
| ParserProperties.NoteWithoutKind | kaedenn/gcc/parser.py:163-165 | "file:line: text" with text that is not a kind is a note whose message is the text. |
| ParserProperties.FreeTextNote | kaedenn/gcc/parser.py:166-168 | "file: text", where the text is neither a line number nor a linker reference, is a note whose message is the text. The line keeps its old value. |
| ParserProperties.LinkerWarning | kaedenn/gcc/parser.py:144-146 | "file:(.section+0xoffset): text" is a warning whose message is the text after the reference. |
| ParserProperties.Collect2Message | kaedenn/gcc/parser.py:136-137 | "collect2: text" sets only the raw line and the message type. Every other field keeps its previous value. |
| ParserProperties.TrailingComma | kaedenn/gcc/parser.py:69 | A comma at the end of the line splits off an empty last piece. |
| ParserProperties.IncludedFromKeepsFile | kaedenn/gcc/parser.py:132-133 | The four words "In file included from" in front of a file name are dropped. |
| ParserProperties.IncludedFrom | kaedenn/gcc/parser.py:132-165 | "In file included from file:line," is a note on that file and line with an empty message text. |
| ParserProperties.FromKeepsFile | kaedenn/gcc/parser.py:134-135 | The "from " in front of a continued include line's file name is dropped. |
| ParserProperties.FromLine | kaedenn/gcc/parser.py:134-165 | "from file:line:" is a note on that file and line with an empty message text. |
| ParserProperties.LineNumberOnly | kaedenn/gcc/parser.py:147-157 | "file:line" alone stores the line number, then fails with an index error on the missing third piece. |
| ParserProperties.MalformedLineNumber | kaedenn/gcc/parser.py:147-148 | A digit-led piece that is not a number fails with a value error. Only the raw line, the file and the non-system flag are updated, because they are set before `int()` runs. |
| ParserProperties.ReuseIsNotFresh | kaedenn/gcc/parser.py:41-50 | Reusing a parser after an error line keeps that line's file for a following "collect2" line, while a fresh parser reports none. The docstring's two usages differ. |
| GccBeautifier.WithAt | kaedenn/gcc/beautifier.py:150 | A with-clause match at the head of a text starts with "[with", has a body without ']' and ends at a ']'. |
| GccBeautifier.SearchWith | kaedenn/gcc/beautifier.py:153 | A match found by the search ends at a ']' inside the text. |
| GccBeautifier.RemoveWith | kaedenn/gcc/beautifier.py:213 | Removing with-clauses never lengthens the text. |
| GccBeautifier.RemoveSysFiles | kaedenn/gcc/beautifier.py:222 | Removing system-header locations never lengthens the line. |
| GccBeautifier.ParseEntries | kaedenn/gcc/beautifier.py:157-170 | The comma/depth loop over the body plus "," yields the pairs of the body's top-level entries, or the first entry's unpacking failure. |
| GccBeautifier.ParseWithStmts | kaedenn/gcc/beautifier.py:152-171 | `_parse_with_stmts` computes the with-tokens of a code fragment. |
| GccBeautifier.AttachEach | kaedenn/gcc/beautifier.py:196-200 | When every clause parses, every code keeps its text and carries the with-tokens of its own clause. |
| GccBeautifier.ParseMessageWithTokens | kaedenn/gcc/beautifier.py:196-200 | The override keeps the base parser's message text and codes, in order, and attaches with-tokens to every code. |
| GccBeautifier.CollapseClosers | kaedenn/gcc/beautifier.py:215-216 | After the loop no "> >" is left and the text is no longer than before. |
| GccBeautifier.CompactTypedefs | kaedenn/gcc/beautifier.py:173-182 | The nested loop applies every typedef rule, for "char" and "wchar_t", in table order. |
| GccBeautifier.RewriteRules | kaedenn/gcc/beautifier.py:190-193 | A container's rules, filled with the argument, are applied in order. |
| GccBeautifier.RewriteContainer | kaedenn/gcc/beautifier.py:186-193 | A container present in the text has its rules applied with the token after its first occurrence, unless the token is missing or empty. |
| GccBeautifier.ParseTemplates | kaedenn/gcc/beautifier.py:184-194 | The loop applies every container of the table in written order; `TemplateProperties.VectorTemplate` and `TemplateProperties.StackTemplate` state its result for vectors and stacks of any element type. |
| GccBeautifier.TierOf | kaedenn/gcc/beautifier.py:208-221 | The normal flag is set exactly when the level is at least LV_NORMAL, and the moderate flag exactly when it is at least LV_MODERATE. What the levels then do is stated by `NoneIsIdentity`, `LevelsAboveModerateAgree` and `ModerateSuppressesErrors`. |
| GccBeautifier.RunStopped | kaedenn/gcc/beautifier.py:223-224 | After the loop has returned early, later codes change nothing. |
| GccBeautifier.Beautifier.constructor | kaedenn/gcc/beautifier.py:100-108 | The beautifier starts with a fresh parser on the line, using the with-token hook, with the given level and the line as the result. |
| GccBeautifier.Beautifier.NormalizeCode | kaedenn/gcc/beautifier.py:209-220 | The normal-level rewriting of one fragment equals its specification: substitution, clause removal, strip, closer collapse, namespace removal, typedefs, containers. |
| GccBeautifier.Beautifier.RewriteCode | kaedenn/gcc/beautifier.py:205-227 | One pass of the build loop over a code. It gives the new line, the code's formatted text, and whether `build` returns early. |
| GccBeautifier.Beautifier.RewriteCodes | kaedenn/gcc/beautifier.py:205-227 | The build loop over all codes, stopping at an early return, matches the specification of the whole loop. |
| GccBeautifier.Beautifier.Build | kaedenn/gcc/beautifier.py:202-234 | `build` returns the specified output, leaves the specified line, and stores every code's formatted text in the parser's dictionary. Nothing else in the dictionary changes. |
| BeautifierProperties.BuildOutputShape | kaedenn/gcc/beautifier.py:228-234 | Above LV_NONE the output is either empty or a stripped line starting with none of the redundant prefixes. |
| BeautifierProperties.NoneIsIdentity | kaedenn/gcc/beautifier.py:204 | LV_NONE returns the line as given and touches no code. |
| BeautifierProperties.LevelsAboveModerateAgree | kaedenn/gcc/beautifier.py:63-69 | LV_HIGH and LV_ALL behave exactly as LV_MODERATE. |
| BeautifierProperties.ModerateSuppressesErrors | kaedenn/gcc/beautifier.py:221-224 | From LV_MODERATE up, a line with at least one code that starts with "error: " once system locations are gone is suppressed. |
| BeautifierProperties.ErrorsWithoutCodesSurvive | kaedenn/gcc/beautifier.py:205-224 | From LV_MODERATE up, a stripped "error: " line without codes is returned unchanged, because the test sits inside the per-code loop. |
| BeautifierProperties.BodyRoundTrip | kaedenn/gcc/beautifier.py:157-170 | The entries of a body written as `k1 = v1, k2 = v2, …` parse back to exactly those pairs, in order. Keys and values may hold brackets and commas, as long as their brackets bring the depth counters back to zero, each comma sits inside brackets, and they hold no '=' or ']'. |
| BeautifierProperties.EntriesInside | kaedenn/gcc/beautifier.py:160-170 | Text that meets no comma while every depth counter is zero joins the current entry whole, and the counters move by its brackets. |
| BeautifierProperties.PairOfCount | kaedenn/gcc/beautifier.py:162-164 | Unpacking `entry.split("=")` into key and value succeeds exactly when the entry holds one '='. Otherwise it is a `ValueError`. |
| BeautifierProperties.SearchNone | kaedenn/gcc/beautifier.py:153 | `re.search` of the with-clause pattern finds nothing exactly when the pattern matches at no position. |
| BeautifierProperties.WithClauseRoundTrip | kaedenn/gcc/beautifier.py:152-171 | A clause `[with k1 = v1, k2 = v2, …]` reads back its pairs, in order, whatever follows it and whatever '['-free text precedes it. This includes values such as `map<int, char>`, whose commas sit inside brackets. |
| BeautifierProperties.NoClauseNoPairs | kaedenn/gcc/beautifier.py:153-155 | A fragment where the with-clause pattern matches at no position has no with-tokens. Other '[' characters, such as array bounds, are allowed. |
| BeautifierProperties.MalformedEntryFails | kaedenn/gcc/beautifier.py:160-164 | An entry without '=' or with several makes the whole clause fail with `ValueError`, whatever follows it. This holds after any number of well-formed pairs, which are lost too. |
| BeautifierProperties.PairOfEntry | kaedenn/gcc/beautifier.py:162-164 | A rendered `key = value` entry, with or without a leading space, unpacks to its stripped key and value. |
| BeautifierExamples.WithExample | kaedenn/gcc/beautifier.py:15-17 | The normal level turns `Type<T> [with T = int]` into `intype<int>`, not the documented `Type<int>`, because keys are replaced as substrings. |
| BeautifierExamples.SubstituteClobbers | kaedenn/gcc/beautifier.py:210-212 | Substituting T by int in `Type<T> [with T = int]` also rewrites the T of Type. |
| BeautifierExamples.WithTokensExample | kaedenn/gcc/beautifier.py:15-17 | The clause of the documentation's first example reads back as the single pair T = int. |
| BeautifierExamples.NestedClauseExample | kaedenn/gcc/beautifier.py:160-170 | `f(T, U) [with T = map<int, char>, U = X]` gives the two pairs T = `map<int, char>` and U = X. The comma inside the angle brackets does not split an entry. |
| BeautifierExamples.TwoEqualsExample | kaedenn/gcc/beautifier.py:162 | `f [with T = a = b]` fails with `ValueError`, since the entry has two '='. |
| BeautifierExamples.LaterEntryExample | kaedenn/gcc/beautifier.py:160-164 | `f [with T = int, U]` fails with `ValueError`, and the good pair before it is not returned. |
| BeautifierExamples.ArrayBoundExample | kaedenn/gcc/beautifier.py:153-155 | `int a[3]` has no with-tokens. |
| BeautifierExamples.ClosersExample | kaedenn/gcc/beautifier.py:26-29 | `Type<T, U<V> >` becomes `Type<T, U<V>>`. |
| BeautifierExamples.StringExample | kaedenn/gcc/beautifier.py:34-36 | `basic_string<char, char_traits<char>, allocator<char>>` becomes `string`. |
| BeautifierExamples.IostreamExample | kaedenn/gcc/beautifier.py:114 | `basic_iostream<char, char_traits<char>>` becomes `iostream`, as the table says. |
| BeautifierExamples.WideIostreamExample | kaedenn/gcc/beautifier.py:31-32 | The `wchar_t` variation: `basic_iostream<wchar_t, char_traits<wchar_t>>` becomes `wiostream`. The `char` spelling tried first does not occur in it, and the short name gains the "w" prefix. |
| BeautifierExamples.CompactEntry | kaedenn/gcc/beautifier.py:173-182 | A message that is exactly entry t's spelling for character type j becomes that entry's short name, `w`-prefixed for `wchar_t`. This holds when no spelling tried earlier occurs in it; the later entries leave the short name alone. |
| BeautifierExamples.VectorExample | kaedenn/gcc/beautifier.py:44-46 | `vector<int, allocator<int>>` becomes `vector<int>`. |
| BeautifierExamples.StackExample | kaedenn/gcc/beautifier.py:48-50 | `stack<int, deque<int, allocator<int>>>` becomes `stack<int>`: the deque rule runs first, then the stack rule. |
| TemplateProperties.VectorTemplate | kaedenn/gcc/beautifier.py:184-194 | For every element type T, `vector<T, allocator<T>>` becomes `vector<T>`: the vector rule rewrites it and no later container matches. T is a bracket-free word without ',' or '=', not padded, and naming no container. |
| TemplateProperties.StackTemplate | kaedenn/gcc/beautifier.py:184-194 | For every such T, `stack<T, deque<T, allocator<T>>>` becomes `stack<T>`. The deque rule runs first and gives `stack<T, deque<T>>`, and the stack rule then shortens that. |
| BeautifierExamples.SysLocationRemoved | kaedenn/gcc/beautifier.py:221-222 | A leading `/usr/include/path:line: ` location is removed whole. |
| BeautifierExamples.SysFileExample | kaedenn/gcc/beautifier.py:57-61 | The documented system-header line loses its location and keeps the note. |
| PosixBuilder.Escape | kaedenn/colors/_posix_builder.py:8-9 | An escape is ESC, '[', the codes joined with ';', then 'm'. |
| PosixBuilder.Normalize | kaedenn/colors/_posix_builder.py:12-13 | A non-negative index is kept. A negative one lands inside the string or at its end. |
| PosixBuilder.NormalizeModulo | kaedenn/colors/_posix_builder.py:12-13 | The `while index < 0` loop puts a negative index where Python's modulo by len+1 does. |
| PosixBuilder.EndAndStart | kaedenn/colors/_posix_builder.py:12-13 | -1 is the end of the string and -(len+1) is its start. |
| PosixBuilder.Added | kaedenn/colors/_posix_builder.py:14-18 | Inserting keeps every other offset's codes. The offset gains the code, and the codes it already held keep their place in front. |
| PosixBuilder.Builder.constructor | kaedenn/colors/_posix_builder.py:4-6 | A new builder holds the string and an empty table. |
| PosixBuilder.Builder.Insert | kaedenn/colors/_posix_builder.py:11-18 | The table becomes the insertion of the code at the normalised offset. The string is unchanged and each offset's codes stay free of duplicates. |
| PosixBuilder.Builder.Update | kaedenn/colors/_posix_builder.py:20-23 | Every code of every entry is inserted in turn. The string is unchanged and the table stays free of duplicates. |
| PosixBuilder.UpdateStoresEveryCode | kaedenn/colors/_posix_builder.py:20-23 | After `update`, every code of every entry is stored at that entry's normalised offset. |
| PosixBuilder.AddedWellFormed | kaedenn/colors/_posix_builder.py:14-18 | Inserting never stores a code twice at one offset. |
| PosixBuilder.Builder.Result | kaedenn/colors/_posix_builder.py:25-29 | With every offset inside the string, the splicing loop (highest offset first) gives the reference layout: each character preceded by its offset's escape, and the end escape last. |
| PosixBuilder.RenderLayout | kaedenn/colors/_posix_builder.py:26-29 | Inserting the escapes in descending offset order agrees with the left-to-right reference layout. |
| PosixBuilder.ConcatChars | kaedenn/colors/_posix_builder.py:26-29 | `"".join(list(s))` is s. |
| PosixBuilder.LayoutAtStart | kaedenn/colors/_posix_builder.py:25-29 | A single escape at offset 0 goes in front of the whole string. |
| PosixBuilder.LayoutEnds | kaedenn/colors/_posix_builder.py:25-29 | Escapes at offsets 0 and len of a non-empty string frame it. |
| Colors.AppendNew | kaedenn/colors/_posix_builder.py:14-16 | Appending a code that is not yet present adds exactly that code. |
| Colors.Dedup | kaedenn/colors/__init__.py:13-14 | Repeated inserts at one offset keep exactly the codes given, each once, never more of them. |
| Colors.DedupDistinct | kaedenn/colors/__init__.py:13-14 | Repeated inserts at one offset store each code at most once. |
| Colors.DedupOfDistinct | kaedenn/colors/__init__.py:13-14 | Codes without repeats are stored exactly as given, in order. |
| Colors.InsertColors | kaedenn/colors/__init__.py:13-14 | The insert loop leaves the string alone and stores the colours' first occurrences at offset 0, and nothing else. |
| Colors.ColorLayout | kaedenn/colors/__init__.py:11-15 | The builder's table after the colours renders as one escape of the colours in front of the string, or the bare string without colours. |
| Colors.Color | kaedenn/colors/__init__.py:11-15 | `color(s, *colors)` is one escape of the distinct colours followed by s, or s itself when no colour is given. |
| Colors.ColorOnlyLayout | kaedenn/colors/__init__.py:17-22 | The reset goes at the end of the string, and the rendered table is the colours, s and one reset. |
| Colors.ColorOnly | kaedenn/colors/__init__.py:17-22 | `color_only` returns the colour escape, s and a reset escape. For an empty s, both share one escape. |
| Colors.ColorOnlyEmpty | kaedenn/colors/__init__.py:17-22 | For the empty string the reset joins the colours' escape once, at its end, unless it is already one of them. |
| ErrMsg.HighlightLine | kaedenn/errmsg.py:15-19 | A non-empty line is wrapped in its colour's escape and a reset escape. An empty line gives one escape holding the colour and the reset, or the colour alone when the two coincide. |
| ErrMsg.HighlightLayout | kaedenn/errmsg.py:15-19 | The builder table of `highlight_line` renders as the colour, the line and the reset. |
| ErrMsg.Message | kaedenn/errmsg.py:21 | `message` highlights the text in brown. |
| ErrMsg.Notify | kaedenn/errmsg.py:22 | `notify` highlights the text in blue. |
| ErrMsg.Warn | kaedenn/errmsg.py:23 | `warn` highlights the text in green. |
| ErrMsg.Error | kaedenn/errmsg.py:24 | `error` highlights the text in red. |

## Left out

- Word wrapping. The model builds the beautifier as with `wrap = False`, though the source's default is `wrap = True`. Wrapping is `textwrap.TextWrapper.fill` of the standard library, and the `width` argument is not modelled.
- Regular expressions. There is no general regex engine: only the patterns the core uses are modelled, each as a scanner.
- Text. Lines are read as decoded Unicode text, one `char` per code point, as with Python 2 `unicode` strings. On undecoded byte strings the quoted-code pattern `u"\u2018[^\u2019]+\u2019"` (kaedenn/gcc/parser.py:70) would find nothing, while `QuotedSpans` finds the fragments.
- Whitespace. `strip` and `split` treat only the ASCII whitespace characters as whitespace. Python also strips Unicode whitespace (such as U+00A0 and U+2028).
- The zero-piece branch of `parse_line` (kaedenn/gcc/parser.py:125-126). `re.split` always returns at least one piece, so the branch cannot run and has no counterpart.
- GccParser.Parser.ParseLine: returns a copy of the dictionary, where `parse_line` returns the parser's own dictionary `self._attributes` (kaedenn/gcc/parser.py:126, 131, 169). The aliasing is not modelled: results collected from a reused parser stay distinct values here, while in Python they are all the same object and show the last line's fields, and a later `build` (kaedenn/gcc/beautifier.py:205-207) writes `formatted` into the dictionary a caller already holds.
- GccParser.NormalizeFirst: its contract states only when the first piece is left alone. The two prefix rewrites are stated by `IncludedFromKeepsFile` and `FromKeepsFile` for plain file names.
- Python `int()`. A piece that reaches `int()` (kaedenn/gcc/parser.py:148) starts with an ASCII digit and is stripped, so leading signs and surrounding whitespace never arise. A piece such as `10 abc` or `1_0` does reach it. Python 2 raises `ValueError` for both, and so does `ParseInt`, which accepts exactly the non-empty all-digit strings.
- GccParser.ParseInt: accepts only the ASCII digits 0-9. Python 2 `int()` on `unicode` text also accepts other decimal digits, so a piece such as `1\u0662` (which passes the `[0-9]+` line pattern of kaedenn/gcc/parser.py:65, tested at kaedenn/gcc/parser.py:147) is 12 in Python and a `ValueError` in the model.
- The platform code table. `_posix_codes` is not part of this model: the colour values (`RESET`, `BROWN`, `BLUE`, `GREEN`, `RED`) are the fields of a `Palette` parameter.
- Platform selection. The `os.name` test and the fallback builder `_fake_builder` are not modelled. The model is the POSIX builder.
- Builder codes. They are modelled as the strings the builder stores. `str(code)` of a non-string code, and the membership test against it, are left out.
- PosixBuilder.Builder.Update: the dictionary argument is an ordered sequence of (offset, codes) entries, standing for Python's dict iteration order.
- PosixBuilder.Builder.Result: the layout equation holds only while every stored offset is at most the string's length. Larger offsets, which Python's `list.insert` clamps to the end, are only related to the splicing loop.
- The command-line driver. `_gcc.py` and the formatter `formatter.py` are not part of this model.
- GccBeautifier.CompactTypedefs, GccBeautifier.ParseTemplates and BeautifierExamples.StackExample iterate `_str_types` and `_replacements` in the order the source writes them. Both are Python 2 dicts (the implicit relative import at kaedenn/colors/__init__.py:5 shows the source is Python 2), so the real order is the interpreter's hash order. Results that depend on the order are proved for written order only. `StackExample` and `TemplateProperties.StackTemplate` need deque to come before stack.
- BeautifierProperties.WithClauseRoundTrip: stated for text before the clause that holds no '['. An earlier '[' that starts no clause, such as an array bound, is not covered by the general lemma; `ArrayBoundExample` shows one such line on its own.
- TemplateProperties.VectorTemplate and TemplateProperties.StackTemplate: stated for element types without brackets, commas or padding that name no container. Nested element types such as `vector<vector<int>>` are not covered.
- Documentation discrepancy. The module's documentation says `basic_iostream<char, char_traits<char>>` becomes `istream`, but the table maps it to `iostream`. The model follows the table (`IostreamExample`).
