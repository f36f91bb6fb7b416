# lib-json-md-table in Dafny

A model of the pipeline that turns tabular data into a Markdown table. The
data can be CSV text, a CSV array, or an array of flat JSON records.

The pipeline has three stages:

1. **Normalise** the input into a *CSV array*: a header row of names followed by body rows.
   - `parseCsv` and `parseCsvBody` split CSV text on line breaks. Each line is split on every comma not preceded by a backslash.
   - `jsonToCsv` discovers headers from the records' keys. Discovery runs only when a record's key count differs from the header count. Then the record's keys not yet among the headers are appended in key order, and every row already emitted gets one null per new header. A record with as many keys as there are headers adds none, even when its keys are new.
2. **Build** a *table descriptor* with `csvToTable`. It selects columns (`columns`, `exclude`), broadcasts the alignment and stringifies the cells.
3. **Render** the descriptor. `printTable` writes one space around each cell. `prettyPrintTable` pads every column to its widest cell, using the column's alignment, and stretches the `---` of the separator row.

The public entry point `generateMarkdownTable` inspects its arguments, picks the normaliser and renders the result.

Modules:
- `Text` (`text.dfy`): the JavaScript string built-ins the library relies on:
  - `join`, `padStart`/`padEnd`, `repeat`;
  - `replace` with a string pattern;
  - integer `toString`.
- `Csv` (`csv.dfy`):
  - `src/csv.ts`: the splitter, both parsers and `jsonToCsv`;
  - `JsonToCsv` is a method whose loops update the rows in place;
  - it is proved equal to the closed form `JsonCsv`.
- `Markdown` (`markdown.dfy`), for `src/md.ts`:
  - `CsvToTable`, which copies the rows and calls `ExcludeInPlace`, the `exclude` loop;
  - `ColSizes`, which holds the running maximum over an array;
  - `PrettyPrintTable`, which takes rows off the front.

  Each of these is a method proved equal to a specification function. The properties are lemmas about those functions.
- `Entry` (`entry.dfy`): `src/index.ts`.
  - The argument shapes that `instanceof Array` and `typeof` tell apart are the `Arg` datatype.
  - The call's outcome is a `Result`. It holds the table text, or one of two failures:
    - `unsupported parameters`, the thrown error;
    - the `TypeError` raised when the pretty renderer reads `length` of an absent cell.

The model follows the code as written. In some places the library's own test files expect something else:
- **Default alignment.** It is `center` (`src/md.ts:21`). The descriptor fixture at `test/md.unit.test.ts:16` expects `left` for a call without options.
- **`exclude`, name at index 0.** A name at index 0 is kept, because `if (index)` is false for 0.
- **`exclude`, missing name.** A name that is not found removes the *last* header, because `splice(-1, 1)` does that (`src/md.ts:27-28`).
- **Options that do not exist.** There is no `minWidth` or `margin` option, although the fixtures at `test/md.unit.test.ts:22-27` carry both.
- **Centring.** A centred cell is padded in front up to `ceil(width / 2)`, then behind up to the width (`src/md.ts:88-89`). For a width of 15, the cell `aaaa` therefore gets 4 spaces in front and 7 behind. `test/md.unit.test.ts:150-151` expects 5 in front and 6 behind, not counting the space the line writes around every cell.

## Model

| member | source | states |
|---|---|---|
| Csv.Split | src/csv.ts:8-9 | `split` never yields an empty list, even for the empty text |
| Csv.SplitJoin | src/csv.ts:7-9 | joining the pieces with the separator gives the text back |
| Csv.SplitSeparated | src/csv.ts:7-9 | no piece holds a separating character, and each separator that was removed did separate |
| Csv.JoinSplit | src/csv.ts:7-9 | splitting a joined list of separated pieces gives exactly those pieces |
| Csv.SplitCharacterised | src/csv.ts:7-9 | the pieces of a text are exactly the separated list that joins back to it (both directions) |
| Csv.SplitCount | src/csv.ts:13-14 | there is one more piece than there are separating characters |
| Csv.LineCount | src/csv.ts:13 | there is one more line than there are line breaks |
| Csv.LinesSeparated | src/csv.ts:13 | any non-empty list of lines without line breaks is separated |
| Csv.LinesIgnorePrev | src/csv.ts:13 | splitting on line breaks has no look-behind |
| Csv.SplitPrefix | src/csv.ts:8-9 | a leading piece with no separating character stays glued to the first piece of the rest |
| Csv.SplitAtCut | src/csv.ts:8-9 | a leading separator opens an empty first piece |
| Csv.ParseCsvBody | src/csv.ts:12-15 | there is one row per line (line breaks + 1), and row k holds the fields of line k |
| Csv.ParseCsvAgreesWithBody | src/csv.ts:6-15 | `parseCsv` gives the same rows as `parseCsvBody`, with the first taken as the header |
| Csv.ParseCsvBodyRoundTrip | src/csv.ts:12-15 | every cell is a string; joining the fields with `,` and the lines with `\n` rebuilds the input |
| Csv.HeaderLineSplits | src/csv.ts:7-8 | a first line without line breaks is split off whole, and the rest is split as its own text |
| Csv.ParseHeaderLine | src/csv.ts:6-15 | `parseCsv` of a joined header line, `\n` and a body equals that header with `parseCsvBody` of the body |
| Csv.ParseFirstLine | src/csv.ts:6-9 | a text whose first line is split off and whose other lines are those of a second text parses into that line's fields over the second text's rows |
| Csv.Keys | src/csv.ts:22 | `Object.keys` gives one key per property |
| Csv.CollectMissing | src/csv.ts:25-26 | the loop collects exactly the keys not among the headers, in key order |
| Csv.AppendNulls | src/csv.ts:27 | every row emitted so far is extended by exactly one null per new header, and no row is added or lost |
| Csv.JsonToCsv | src/csv.ts:17-35 | the nested loops, including the in-place back-fill of earlier rows, produce exactly `JsonCsv` |
| Csv.BackFill | src/csv.ts:27 | padding each emitted row with one null per new header keeps every cell as specified |
| Csv.PushRow | src/csv.ts:31 | the row pushed for a record is its value, or null, under each current header |
| Csv.EmittedAll | src/csv.ts:34 | once all records are processed, the rows are the body of `JsonCsv` |
| Csv.HeadersGrow | src/csv.ts:23-28 | the header row only grows, at its end |
| Csv.MissingKeys | src/csv.ts:25-26 | the missing keys are exactly the record keys not yet used, never more than the keys |
| Csv.MissingDistinct | src/csv.ts:26 | keys without repeats give missing keys without repeats |
| Csv.HeadersDistinct | src/csv.ts:22-28 | without explicit headers, the discovered header row has no repeated name |
| Csv.RecordKeysKnown | src/csv.ts:23-28 | after discovery runs for a record, all its keys are headers, and the old headers stay in front |
| Csv.EqualCountKeepsHeaders | src/csv.ts:23 | discovery is skipped when the key count equals the header count |
| Csv.EqualCountDropsKey | src/csv.ts:23 | so for `[{a: 1}, {b: 2}]` the header is `a`, and the second row holds null |
| Csv.ExplicitHeaders | src/csv.ts:18-31 | with given headers, the header row is fixed and every cell is the record's value, or null |
| Csv.ThreeRecordsHeaders | src/csv.ts:21-29 | new keys are appended in the order they turn up (`a`, then `c`, then `b`) |
| Csv.BackFilledExample | src/csv.ts:17-35 | the three records give header `a,c,b` and rows back-filled with null |
| Markdown.Stringify | src/md.ts:35-36 | `toString` is absent exactly for null, and strings are kept |
| Markdown.IndexOf | src/md.ts:27-31 | -1 iff the name is absent, otherwise the first index holding it |
| Markdown.CsvToTable | src/md.ts:20-39 | the copy, exclude loop and row mapping produce exactly `BuildTable` |
| Markdown.ExcludeInPlace | src/md.ts:26-29 | the loop over `exclude` leaves exactly the headers that excluding each name in turn gives |
| Markdown.ExcludeOneCases | src/md.ts:26-29 | a name at index 0 is kept; a name found later is removed at its first index; an absent name removes the last header |
| Markdown.SpliceRemoves | src/md.ts:28 | `splice(i, 1)` removes at most one element, and adds none |
| Markdown.ExcludeAllRemoves | src/md.ts:26-29 | `exclude` leaves a sub-multiset with at most one header fewer per excluded name |
| Markdown.DefaultTable | src/md.ts:25-36 | without columns or exclude, the headers are the CSV header; each cell is the stringified value, absent iff null |
| Markdown.FirstIndex | src/md.ts:27-31 | `indexOf` finds an index exactly when it holds the name and no earlier index does |
| Markdown.SelectedTable | src/md.ts:31-36 | with a selection, each cell is the value at the header's first index in the CSV header. It is null when the name is missing, the row is shorter, or the value is empty |
| Markdown.AlignmentBroadcast | src/md.ts:21-32 | an alignment array is kept as given; a single alignment (default center) is repeated once per header |
| Markdown.SeparatorToken | src/md.ts:60-69 | the token is `---` with a colon on each aligned side: left for left/center, right for center/right |
| Markdown.LineAvoids | src/md.ts:43 | a rendered line holds no line break if its cells hold none |
| Markdown.RenderLines | src/md.ts:42-44 | splitting the rendering on `\n` gives back one line per row |
| Markdown.CompactLines | src/md.ts:41-45 | the compact text has 2 + rows lines: the header line, the separator line, then each row with absent cells written as "" |
| Markdown.CompactGridIsTextGrid | src/md.ts:41-72 | without absent cells, the compact renderer writes the same cells as the pretty renderer starts from |
| Markdown.ColSizes | src/md.ts:74-81 | the array has one width per cell of the first row, and each width is the column's maximum cell length |
| Markdown.ColWidthBound | src/md.ts:77 | every cell of a column fits its width |
| Markdown.ColWidthAttained | src/md.ts:76-77 | a nonzero width is the length of some cell of the column |
| Markdown.Widths | src/md.ts:74-81 | there is one width per header, none narrower than the column's separator token |
| Markdown.PadColumnShape | src/md.ts:83-93 | padding is spaces, the cell, spaces, to exactly the width. The lead is 0 for left, the whole gap for right, and up to `ceil(width/2)` for center. An over-long cell is unchanged |
| Markdown.ReplaceDashes | src/md.ts:52 | replacing the first `---` of a token keeps its colons around the new dash run |
| Markdown.SeparatorRow | src/md.ts:52 | each stretched separator cell is the token resized to the column width |
| Markdown.PrettyPrintTable | src/md.ts:47-56 | taking the rows off the front and padding them produces exactly `PrettyText` |
| Markdown.PrettyWidths | src/md.ts:74-81 | a column is at least as wide as its header, its separator token and each of its body cells, so at least 4 (5 for center), and its width is the length of one of those cells |
| Markdown.PaddedWidths | src/md.ts:51-53 | every padded header cell, every stretched separator cell and every padded body cell is exactly as wide as its column |
| Markdown.SeparatorKeepsColons | src/md.ts:52-69 | a stretched separator cell is all dashes, with a colon at the first and/or last position matching the alignment |
| Markdown.PrettyLines | src/md.ts:55 | the pretty text has 2 + rows lines: the padded header, the separator, then each padded row |
| Markdown.StackedLines | src/md.ts:55 | rows whose cells hold no line break render as exactly one line each, in order |
| Markdown.PadAvoids | src/md.ts:83-93 | padding a cell adds no line break |
| Markdown.ResizedAvoids | src/md.ts:52 | a stretched separator cell holds no line break |
| Markdown.CompactExample | src/md.ts:41-45 | the 3x2 table aligned left/center/right renders compactly exactly as the library's own fixture: one space around each cell and the bare tokens `:---`, `:---:`, `---:` |
| Markdown.PrettyExampleWidths | src/md.ts:74-81 | the example's widths are 4, 5 and 4 |
| Markdown.PrettyExample | src/md.ts:47-56 | the example's pretty text is exactly the library's own fixture: cells padded behind (left), on both sides (center) and in front (right) to widths 4, 5, 4 |
| Markdown.PadExample | src/md.ts:83-93 | a one-character cell, padded to the example's widths |
| Entry.ToCsv | src/index.ts:57-73 | normalisation fails iff neither of the first two arguments is data, and then with `unsupported parameters` |
| Entry.OutputMode | src/index.ts:76-81 | `pretty` selects the padded renderer, otherwise the compact one; only the padded one fails, on an absent cell |
| Entry.TrueMeansPrettyCsv | src/index.ts:76-80 | `generateTableFromCSV` gives the same result for options `true` as for `{ pretty: true }` |
| Entry.TrueMeansPretty | src/index.ts:57-77 | after headers and data, options `true` behave exactly as `{ pretty: true }` |
| Entry.TrueAfterDataMeansPretty | src/index.ts:57-77 | in the two-argument call `generateMarkdownTable(data, true)`, `true` behaves exactly as `{ pretty: true }` |
| Entry.TextsOfTextRow | src/index.ts:62 | a header list as a row has string cells, which read back as the list |
| Entry.HeadersWithRows | src/index.ts:61-68 | headers with an array body give the same result as the CSV array with the headers as its first row |
| Entry.HeadersWithText | src/index.ts:63-66 | headers with a text body give the same result as the text with the joined header line in front |
| Entry.SameCsvSameTable | src/index.ts:57-81 | two calls whose data normalise into the same CSV array under the same options give the same result |
| Entry.HeaderTextCsv | src/index.ts:63-66 | headers with a text body normalise into the same CSV array as the text with the joined header line in front |
| Entry.TextWithOptions | src/index.ts:59-66 | a text followed by options is parsed whole with `parseCsv`, and the options are the second argument |
| Entry.UnsupportedExactly | src/index.ts:71-72 | the call fails with `unsupported parameters` iff neither of the first two arguments is data |

## Left out

- JavaScript regular expressions are not modelled in general. The splitter states the two patterns the code uses directly: `'\n'`, and `/(?<!\\),/` (a comma not preceded by a backslash).
- `Object.keys` order: a record is a sequence of distinct key/value pairs in key order. JavaScript's rule that integer-like keys come first is not modelled.
- Text length: every width and every padding counts Unicode scalar values, as Dafny strings do. JavaScript's `length`, `padStart` and `padEnd` count UTF-16 code units. A cell holding a character outside the Basic Multilingual Plane (an emoji, say) is therefore one unit shorter per such character in the model. Its column width and padding differ from the code's: `"😀"` padded left to 4 gets three spaces here and two in JavaScript.
- Numbers are integers. Fractions, `NaN`, infinities and the exponent notation of `toString` for large magnitudes are not modelled.
- Record lookup sees only the record's own pairs. Inherited properties (`jsonRow['constructor']`) are not modelled.
- Aliasing: `csvToTable` splices the caller's own `columns` array when one is given. The model returns the headers as a value and does not capture the change to the caller's array.
- Aliasing: `jsonToCsv` shares `usedHeaders` with the header row of its result. The model has the same final header row, but does not model the sharing.
- Markdown.PrettyPrintTable: requires one alignment per header and no row wider than the headers. With other shapes the code pads with `undefined` widths or alignments; those shapes are left out.
- Entry.GenerateMarkdownTable: requires the argument shapes the TypeScript overloads admit. It excludes headers that are not a string array, a string array as the data argument in either position, a record array after headers unless it is empty, and a CSV array whose first row is not all strings.
- Entry.HeadersWithText: requires names without line breaks whose fields split back exactly. Only for such names is the joined header line a CSV line.
- Entry: the options argument is a `TableOptions` value, `true` or absent. Options with other field types, and TypeScript's `Omit<..., 'pretty'>` typing, are not modelled.
- `minWidth` and `margin` options do not exist in the code and are not modelled.
