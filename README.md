# gjson `Get` in Dafny

This project models the core of an early version of gjson. That version is a
single Go file, `gjson.go`, whose one function `Get(json, path)` answers a
dotted path over a JSON document without parsing the document. It makes one
forward scan of the bytes and returns a `Result`. The model covers:

- **the path splitter**: a path becomes `part{wild, key}` records, cut at
  every unescaped `.`. A `\` makes the next byte literal. An unescaped `*` or
  `?` makes the part a glob pattern;
- **the scan**: the first delimiter, then rounds from `read_key`. Each round
  reads a key (an array frame makes up the decimal index instead), compares it
  with the part for the current depth and reads the value token. It then
  answers, descends (pushing a frame), or skips the value ("squash") and reads
  on to the next `,`. A `]` or `}` answers a `#` part with the frame's count,
  or pops the frame;
- **`unescape`**: the string escapes of section 7 of RFC 8259, with `\uXXXX`
  written out as UTF-8. Any malformed input gives the empty string;
- **`wildcardMatch` / `deepMatch`**: the byte-wise glob matcher;
- **the `Result` accessors** `String`, `Exists`, `Value` and `Less`, and
  `stringLessInsensitive`.

Bytes are `Byte = c: char | c as int < 256`, so Dafny string literals can
stand for Go strings. `float64` is a `real`. `strconv.ParseFloat` and
`strconv.FormatFloat` are function parameters (`parse`, `format`).

## Layout

| module | file | contents |
|---|---|---|
| `Text` | `text.dfy` | byte strings, ASCII lower-casing, byte-wise order |
| `Results` | `results.dfy` | `Type`, `Result` and its accessors, `Less`, `stringLessInsensitive` |
| `Wildcard` | `wildcard.dfy` | `Glob` (the reference) and the two matcher loops |
| `Escapes` | `escapes.dfy` | `Decode` (the reference) and the `unescape` loop |
| `Paths` | `paths.dfy` | the splitter loop, the loop-shaped `SplitFrom`, the token grouping reference `Parts`, escaping |
| `Scanner` | `scanner.dfy` | the inner scan loops: seek, escape-aware quote search, value classification, squash, decimal keys |
| `Search` | `search.dfy` | frames, one round (`Round`), the walk (`Walk`), `Query`, and the `Get` method with its loops |
| `Shapes` | `shapes.dfy` | what every answer looks like; empty, blank and non-container documents |
| `Documents` | `documents.dfy` | JSON trees, their compact rendering, and the tree lookup `LookupIn` |
| `Agreement` | `agreement.dfy` | the scan over a rendered tree answers what `LookupIn` answers |
| `GetExamples` | `getexamples.dfy` | the six examples in the comment above `Get` |

Every loop of the source is a `method` with a `while` loop and invariants.
Each method is proved equal to a recursive specification function that
follows the same steps (`Seek`/`Find`, `FindQuote`/`QuoteEnd`,
`Squash`/`SquashEnd`, `Scan`/`ScanValue`, `ReadToComma`/`ToComma`,
`Step`/`Round`, `Rounds`/`Walk`, `Get`/`Query`, `SplitPath`/`Split`,
`Unescape`/`Unescaped`, `DeepMatch`/`Glob`, `StringLessInsensitive`/`FoldedLess`).
The properties are then proved about those functions. They are compared with
independent references: the token grouping `Parts` for the splitter, `Glob`
for the matcher, `Decode` for `unescape`, `FoldedLess` for the
case-insensitive order, and `LookupIn` on a tree for the scan.

`unescape` takes a flag `upperHex`, and so do `readstr`, every round of the
scan, `Query` and `Get`, which pass it down. `upperHex = false` is the code
as written: it rejects the hex digits `A`-`F` (see "Findings").
`upperHex = true` is the corrected digit test.

## Model

| member | source | states |
|---|---|---|
| `Paths.SplitPath` | gjson.go:134-176 | the splitting loop, escape mode and its jump back included, returns the parts of `Split(path)` |
| `Paths.SplitFromIsGroup` | gjson.go:134-176 | whenever the loop finishes, its parts are the runs of literal bytes between unescaped dots, each wild exactly when it holds an unescaped `*` or `?` |
| `Paths.SplitIsParts` | gjson.go:134-176 | a path that splits gives the reference grouping `Parts(path)` |
| `Paths.SplitFailsOnlyAtFinalSeparator` | gjson.go:150-157 | the splitter fails (the source reads past the end) only if the last token of the path is an unescaped `.` |
| `Paths.SplitFailsExactly` | gjson.go:134-176 | the splitter fails exactly when the last byte of the path is an unescaped `.` and the part it closes holds an escaped byte (`a\b.` fails, `a.` and `a\b.\` split) |
| `Paths.SplitsUnlessFinalSeparator` | gjson.go:134-176 | a path whose last token is not an unescaped `.` always splits |
| `Paths.TrailingDotAfterEscape` | gjson.go:155-157 | `a\b.` does not split: the source reads past its end |
| `Paths.TrailingDotPath` | gjson.go:166-176 | without an escape, a final `.` gives a final empty part: `a.` splits into `a` and `` |
| `Paths.DanglingBackslashSplits` | gjson.go:136-166 | the tokens of `a\b.\` end in a separator, yet it splits into `ab` and an empty part: the `.` after the escape is not the last byte, and the final `\` is dropped |
| `Paths.PartCount` | gjson.go:166-176 | a path has one more part than it has unescaped dots |
| `Paths.GroupCount` | gjson.go:166-176 | the grouping gives one part per separator plus one |
| `Paths.EscapedPathRoundTrip` | gjson.go:136-165 | escaping every special byte of each key and joining the keys with `.` splits back into exactly those keys, none of them wild |
| `Paths.EscapedPathSplits` | gjson.go:136-165 | such a path never hits the failing case |
| `Paths.TokensOfEscape` | gjson.go:136-149 | an escaped key is read as its bytes, each literal |
| `Paths.GroupEscapedPath` | gjson.go:150-157 | the literal keys joined by separators group into the keys |
| `Paths.EscapedPathEnd` | gjson.go:150-157 | an escaped path whose last key is not empty does not end in a separator |
| `Paths.PlainPathSplit` | gjson.go:166-176 | a path without `\` splits into parts whose keys, joined with `.`, give the path back; no key holds a `.`; each part is wild exactly when its key holds `*` or `?` |
| `Paths.SplitDotted` | gjson.go:166-176 | `a.b`, with neither key holding `\` or `.`, splits into `a` and `b`, each wild when it holds a wildcard |
| `Paths.SplitSingle` | gjson.go:172-176 | a key without `\` or `.` is a path of one part |
| `Paths.SplitFromRun` | gjson.go:166-175 | a run of bytes without `\` or `.` joins the current part, and marks it wild when it holds a wildcard |
| `Paths.SplitFromOrdinary` | gjson.go:166-175 | a run of bytes that are not special joins the current part as it is |
| `Paths.EscapeTestWildcards` | gjson_test.go:95 | `test.keyk\*.key\?` splits into three parts that are not wild: `test`, `keyk*`, `key?` |
| `Paths.EscapeTestDot` | gjson_test.go:94 | `test.key\.v` splits into `test` and `key.v` |
| `Paths.WildPartExample` | gjson.go:172-176 | `child*.2` splits into a wild `child*` and a literal `2` |
| `Wildcard.WildcardMatch` | gjson.go:620-625 | `wildcardMatch` decides `Glob(str, pattern)`: `*` matches any run of bytes, `?` any one byte |
| `Wildcard.DeepMatch` | gjson.go:626-645 | the `deepMatch` loop with its two recursive branches at `*` decides the same |
| `Wildcard.StarMatchesAll` | gjson.go:621-623 | the shortcut for the pattern `*` agrees with the matcher |
| `Wildcard.LiteralPatternIsEquality` | gjson.go:629-632 | a pattern without wildcards matches exactly the string equal to it |
| `Wildcard.NoStarMatchesSameLength` | gjson.go:633-644 | without `*`, only strings of the pattern's length match |
| `Wildcard.NoStarMatchesBytewise` | gjson.go:629-632 | without `*`, every pattern byte other than `?` equals the string byte at its place |
| `Wildcard.QuestionMarksMatchLength` | gjson.go:633-636 | a pattern of `?` only matches exactly the strings of its length |
| `Wildcard.TrailingStarMatchesExtensions` | gjson.go:637-639 | a pattern with `*` added at the end matches every extension of a string that the pattern matched |
| `Wildcard.DocumentationPatterns` | gjson.go:120-121 | `child*` and `c?ildren` match `children` |
| `Wildcard.RejectedPatterns` | gjson.go:629-636 | `c?ildrem` does not match `children`, and `child?` does not match `child` |
| `Escapes.Unescape` | gjson.go:495-552 | the `unescape` loop returns the decoding of its input, with the hex digits that `upperHex` admits, or the empty string when decoding fails |
| `Escapes.ReadHex4` | gjson.go:533-545 | the code point loop reads four hex digits into a value below 0x10000, or fails |
| `Escapes.DecodeIdentity` | gjson.go:499-500 | bytes without `\` and without control bytes decode to themselves |
| `Escapes.UnescapeIdentity` | gjson.go:495-552 | `unescape` is the identity on such input |
| `Escapes.DecodeConcat` | gjson.go:497-550 | decoding works escape by escape: a prefix that decodes on its own decodes the same in front of any rest |
| `Escapes.ControlByteRejected` | gjson.go:501-502 | a byte below 0x20 anywhere in the input makes decoding fail |
| `Escapes.TrailingBackslashRejected` | gjson.go:503-507 | a lone `\` after well-formed input makes decoding fail |
| `Escapes.UnknownEscapeRejected` | gjson.go:508-510 | an escape letter outside `\ / b f n r t " u` makes decoding fail |
| `Escapes.BadUnicodeEscapeRejected` | gjson.go:527-545 | `\u` not followed by four hex digits makes decoding fail |
| `Escapes.SimpleEscapeIsOneByte` | gjson.go:511-526 | every one-letter escape stands for one byte, so the decoding stays defined |
| `Escapes.EncodeRuneRoundTrip` | gjson.go:546 | the UTF-8 bytes written for a code point that is not a surrogate decode back to it |
| `Escapes.UnescapeLetterEscapes` | gjson_test.go:367 | `\/\b\f` decodes to `/`, backspace, form feed |
| `Escapes.UnescapeControlByte` | gjson_test.go:366 | `\\` followed by a NUL byte gives the empty string |
| `Escapes.UnescapeQuoteEscape` | gjson_test.go:283 | `B\\\"R` decodes to `B\"R` |
| `Escapes.UnicodeEscapeExample` | gjson.go:527-546 | `caf\u00e9` decodes to `caf` and the two UTF-8 bytes of U+00E9 |
| `Escapes.UppercaseHexRejectedAsWritten` | gjson.go:540-543 | as written, `\u00C9` is rejected while `\u00e9` is accepted |
| `Escapes.HexCaseInsensitive` | gjson.go:538-543 | corrected, upper- and lower-case digits give the same value |
| `Escapes.UppercaseHexAccepted` | gjson.go:540-543 | corrected, `\u00C9` decodes to U+00C9 |
| `Escapes.UppercaseHexUnescaped` | gjson.go:540-546 | corrected, `unescape` turns `\u00C9` into the UTF-8 bytes C3 89 |
| `Scanner.Seek` | gjson.go:188-201 | the loop that skips to the first byte of a class stops at `Find`, the first such byte, or at the end |
| `Scanner.FindIsFirst` | gjson.go:268-271 | no byte before the one `Find` stops at is of the class |
| `Scanner.CountBackslashes` | gjson.go:229-236 | the inner loop counts the backslashes that run up to the one before the quote |
| `Scanner.ClosesIffEvenBackslashes` | gjson.go:227-242 | a `"` ends a string exactly when an even number of backslashes stands before it |
| `Scanner.FindQuote` | gjson.go:224-243 | the escape-aware loop stops at `QuoteEnd`, the first quote that closes the string |
| `Scanner.QuoteEndIsFirst` | gjson.go:226-243 | no quote before it closes the string |
| `Scanner.ReadString` | gjson.go:215-248 | `readstr` gives the key and the index after its closing quote; the bytes are unescaped, with the digits `upperHex` admits, when the key holds a `\` |
| `Scanner.ReadPlainString` | gjson.go:218-223 | a string without `"` or `\` is read back as it is |
| `Scanner.Scan` | gjson.go:264-319 | the value scan classifies the first byte that is not ignored: a string, a number up to the next stop byte, an array, a word of lower-case letters, or an object |
| `Scanner.FoundValue` | gjson.go:268-319 | which token each first byte gives, and where the token ends |
| `Scanner.Squash` | gjson.go:326-371 | the squash loop stops at `SquashEnd`, after the close that brings the nesting depth to zero, with strings skipped |
| `Scanner.SquashEndCloses` | gjson.go:337-342 | a squash that stops inside the document stops just after a `}` or `]` |
| `Scanner.SquashStep` | gjson.go:334-342 | outside strings, each byte moves the nesting depth |
| `Scanner.SquashQuote` | gjson.go:343-367 | a string inside a squashed block is skipped to its closing quote |
| `Scanner.DecimalRoundTrip` | gjson.go:207-209 | the index key of an array element reads back as the counter |
| `Scanner.DecimalInjective` | gjson.go:207-209 | different elements get different index keys |
| `Search.Start` | gjson.go:187-201 | the first byte above space must open an object or an array |
| `Search.Count` | gjson.go:476-477 | a `#` answer is a Number with no raw text, and it exists |
| `Search.NextKey` | gjson.go:206-252 | an array frame makes up the decimal index and increments its count; an object frame reads the next quoted key |
| `Search.Answer` | gjson.go:376-433 | the switch on the value class: a block gives its squashed text as JSON, a word gives Null, True or False, a string its contents, a number its text and the parse of that text |
| `Search.ReadToComma` | gjson.go:472-491 | reading on stops at `,` for the next round; a close answers `#` with the count, ends the search at depth zero, or pops the frame |
| `Search.ProceedFrom` | gjson.go:264-470 | the rest of a round: hit, descend (pushing the frame with its count reset), or skip the value |
| `Search.Step` | gjson.go:206-491 | one round from `read_key` to the next `goto read_key` or an answer |
| `Search.Rounds` | gjson.go:206-491 | the rounds until one answers give `Walk` |
| `Search.Get` | gjson.go:123-491 | `Get` returns `Query(json, path, parse, upperHex)`: nothing for an empty path, otherwise the walk from the first delimiter with the split parts; keys and string values are unescaped with the same `upperHex` |
| `Search.QueryStarts` | gjson.go:179-203 | `Query` is the walk from the first delimiter, with one frame on the stack |
| `Shapes.QueryShaped` | gjson.go:376-491 | every answer is nothing, a count, a string, a number whose raw text comes from the input, a word from the input, or a block from its opening byte to a close or to the end |
| `Shapes.FoundIffExists` | gjson.go:59-61 | `Exists()` holds exactly when `Get` found something, a found `null` included |
| `Shapes.EmptyPath` | gjson.go:129-131 | an empty path gives nothing |
| `Shapes.NotAContainer` | gjson.go:194-197 | a document whose first byte above space opens neither an object nor an array gives nothing |
| `Shapes.BlankDocument` | gjson.go:188-201 | so does a blank document |
| `Shapes.EndsBeforeValue` | gjson.go:321-324 | a document that ends after a key, before its value, gives nothing |
| `Documents.CountElems` | gjson.go:475-477 | on a tree, `#` as the last part counts the elements of the array |
| `Documents.FirstMember` | gjson.go:257-262 | the last part answers with the value of the first member whose key it matches |
| `Documents.FirstMemberBelow` | gjson.go:437-443 | a part before the last descends into the first matching member, and that member's answer is the object's |
| `Documents.FirstElem` | gjson.go:207-209 | the last part answers with the first element whose index it matches |
| `Agreement.QueryAgrees` | gjson.go:123-491 | over the compact rendering of a tree, the scan answers what `LookupIn` answers, whenever that lookup is defined, for either value of `upperHex` (such trees hold no escapes) |
| `Agreement.QueryGives` | gjson.go:123-491 | the same, for a path split into given parts whose lookup gives a given result |
| `Agreement.ContainerWalk` | gjson.go:206-491 | the scan over a rendered container gives the container's lookup, or goes on after its close when the lookup finds nothing |
| `Agreement.Descend` | gjson.go:437-443 | descending into a rendered container gives its lookup, or goes on in the level above after its close |
| `Agreement.SquashBlock` | gjson.go:326-371 | squashing a rendered container stops just after its own close |
| `Agreement.HitRendered` | gjson.go:376-433 | the answer built for a rendered value is `Expected` of that value |
| `Agreement.ArrayCount` | gjson.go:475-477 | `#` on an array with elements gives their number |
| `Agreement.ArrayIndex` | gjson.go:207-209 | the decimal index `n` gives element `n` |
| `Agreement.FirstKeyWins` | gjson.go:257-262 | with duplicate keys, a one-part path gives the value of the first matching member |
| `GetExamples.NameLast` | gjson.go:111-116 | `name.last` gives the last name as a string |
| `GetExamples.Age` | gjson.go:111-117 | `age` gives a Number with its text as raw and its parse as value |
| `GetExamples.ChildrenCount` | gjson.go:111-118 | `children.#` gives 3 |
| `GetExamples.ChildrenOne` | gjson.go:111-119 | `children.1` gives the second child |
| `GetExamples.ChildStarTwo` | gjson.go:111-120 | `child*.2` gives the third child |
| `GetExamples.CQuestionZero` | gjson.go:111-121 | `c?ildren.0` gives the first child |
| `GetExamples.EscapedValue` | gjson.go:395-426 | on `{"a":"\u00C9"}`, path `a` answers a String whose contents are what `unescape` makes of the six escape bytes |
| `GetExamples.UpperEscapeAsWritten` | gjson.go:423 | as written, that answer is the empty string |
| `GetExamples.UpperEscapeCorrected` | gjson.go:423 | with the corrected digits, it is the bytes C3 89 of U+00C9 |
| `GetExamples.EmptyObjectReadsOn` | gjson.go:206-252 | on `{"a":{},"b":1}`, path `a.b` answers the number 1: inside the empty object the key search steps over the `}` to the key `b` |
| `GetExamples.EmptyArrayDocument` | gjson.go:302-313 | on the document `[]`, path `#` answers nothing: the `]` is read as a word to the end of the input, so no close is met |
| `GetExamples.EmptyArrayCountsOne` | gjson.go:472-477 | on `{"a":[]}`, path `a.#` answers the count 1: the `]` is taken as element `0` and the following `}` ends the array |
| `Results.StringAgreesWithValue` | gjson.go:37-86 | `String()` and `Value()` describe a result the same way: nil and "null" exactly for Null, the booleans and their words, the formatted number, the string or raw text |
| `Results.LessOrdersTypes` | gjson.go:560-566 | values of different types are ordered by type alone: Null < False < Number < String < True < JSON |
| `Results.LessIrreflexive` | gjson.go:560-578 | no result is less than itself, either way of comparing strings |
| `Results.LessAsymmetric` | gjson.go:560-578 | `Less` never holds both ways |
| `Results.LessTransitive` | gjson.go:560-578 | `Less` is transitive |
| `Results.CaseSensitiveStringsTotal` | gjson.go:570-573 | of two different strings compared by case, one is less |
| `Results.StringLessInsensitive` | gjson.go:580-615 | the comparison loop decides the byte-wise order of the ASCII-lower-cased strings |
| `Results.FoldedFirstDifference` | gjson.go:581-613 | the first byte whose lower-cased forms differ decides |
| `Results.FoldedSame` | gjson.go:614 | strings equal once lower-cased are ordered neither way |
| `Results.LessTypeExamples` | gjson_test.go:375-388 | the type and number cases of the unit test of `Less` |
| `Results.LessStringExamples` | gjson_test.go:383-385 | the string cases: `ABC` is less than `abc` by case, not without it |
| `Results.FoldedLessFirstLetterExamples` | gjson_test.go:389-396 | the unit test cases that differ in the first letter |
| `Results.FoldedLessCaseOnly` | gjson_test.go:397 | `abcde` is not less than `ABCDE` without case |
| `Results.FoldedLessSelf` | gjson_test.go:400 | `ABCDE` is not less than itself |
| `Results.FoldedLessDigitPrefix` | gjson_test.go:402-404 | strings equal once lower-cased after a common digit prefix |
| `Results.FoldedLessDigitAbove` | gjson_test.go:408 | `124Abcde` is not less than `123abcde` |
| `Results.FoldedLessDigitBelow` | gjson_test.go:412 | `124Abcde` is less than `125abcde` |
| `Text.LexLessTransitive` | gjson.go:569 | Go's byte-wise string order is transitive |
| `Text.LexLessTotal` | gjson.go:569 | of two different strings, one is less |
| `Text.LexLessAtFirstDifference` | gjson.go:569 | the first differing byte decides the order |

## Left out

- Float64 arithmetic: numbers are `real`. `strconv.ParseFloat` and `strconv.FormatFloat` are parameters. The model does not say what they compute, or that a parse failure gives 0.
- `Search.Get`: requires that a non-empty path splits. A path whose escaped part is closed by a final `.` (e.g. `a\b.`) makes the source read past the end of the path and panic. `Split` returns `None` there, and `Paths.SplitFailsExactly` says exactly which paths those are.
- The frame's `key` field is not kept. The source overwrites it at every `read_key` before reading it, so it carries nothing between rounds.
- `Documents.LookupIn`: the tree reference covers only `Good` documents. These have no empty object or array, no escaped string or key, number text that starts with a sign or digit, and no blanks (the compact rendering). On other documents `Get` answers things that no tree lookup describes. In an empty object the key search steps over the `}` and reads the next key of the enclosing object, so `{"a":{},"b":1}` with path `a.b` answers 1 (`GetExamples.EmptyObjectReadsOn`). In an empty array the `]` is read as a word-like element.
- `Documents.LookupIn`: it is `None`, and `Agreement.QueryAgrees` says nothing, when a part before the last matches a scalar. The source then pushes a frame for the scalar and reads the bytes after it as its members.
- `Agreement.ArrayCount`: stated only for arrays with elements. In an empty array the scan takes the `]` for an element and reads it as a word up to the next byte outside `a`-`z`. When a close follows, `#` answers 1: `{"a":[]}` with path `a.#` gives `Count(1)` (`GetExamples.EmptyArrayCountsOne`). When the `]` ends the input, no close is seen, so on the document `[]` the path `#` answers nothing (`GetExamples.EmptyArrayDocument`).
- `Agreement.QueryAgrees`: covers only the compact rendering. The spaced document in the comment above `Get` is not rendered. `GetExamples` uses its compact form with the same keys and values.
- Popping a frame: the parent frame comes back as it was pushed, with count 0. After a failed descent into an array element, the later elements are keyed from `0` again (`[{"x":1},{"y":2}]` with `0.y` gives 2). This is modelled as written, in `Search` and in `Documents.LookupElems`.
- `Escapes.EncodeRuneRoundTrip`: stated for code points that are not surrogates. For surrogates Go's `string(rune)` writes U+FFFD, which `EncodeRune` also does; there is no round trip to state.
- Later gjson APIs (`GetBytes`, `GetMany`, `ForEach`, `Array`, `Map`, `Parse`, queries `#[...]`, modifiers) are not part of this version of the file. The tests that use them are left out.
- The command-line tool under `cmd/` and the fuzzing entry point in `gjson_fuzz.go` are not part of this model.

## Findings

| source | as written | input that shows it | evidently intended | confidence | as-written member | corrected member |
|---|---|---|---|---|---|---|
| gjson.go:542 | the third digit case repeats the test for `a`-`f`, so an upper-case hex digit ends `unescape` with the empty string | `"\u00C9"` unescapes to the empty string, while `"\u00e9"` gives U+00E9; so `Get` on `{"a":"\u00C9"}` with path `a` answers an empty string (`GetExamples.UpperEscapeAsWritten`) | `A`-`F` accepted with the values 10-15, as section 7 of RFC 8259 allows | not executed | `Escapes.UppercaseHexRejectedAsWritten` | `Escapes.UppercaseHexAccepted` |
