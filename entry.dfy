/** The public entry point of src/index.ts: `generateMarkdownTable` looks at
    the shapes of its arguments, normalises the data into a CSV array, and
    `generateTableFromCSV` builds the table and renders it. */
module Entry {
  import opened Text
  import opened Csv
  import opened Markdown

  /** One argument as the `instanceof Array` / `typeof` tests see it. An array
      is written by what it holds: rows (arrays), names (a `CSVHeader`) or
      records; the empty array may be written as any of the three. */
  datatype Arg =
    | Textual(text: string)
    | RowArray(rows: seq<Row>)
    | NameArray(names: seq<string>)
    | RecordArray(records: seq<Record>)
    | OptionsArg(options: TableOptions)
    | TrueArg
    | Undefined

  /** The errors a call can end in: the `throw` of line 72, and the
      `TypeError` of reading `length` on an absent cell when pretty-printing. */
  datatype Failure = UnsupportedParameters | AbsentCellLength

  const NoOptions := TableOptions(None, None, false, None)
  const PrettyOnly := TableOptions(None, None, true, None)

  /** `isData`: an array or a string. */
  predicate IsData(a: Arg)
  {
    a.Textual? || a.RowArray? || a.NameArray? || a.RecordArray?
  }

  predicate IsOptions(a: Arg)
  {
    a.OptionsArg? || a.TrueArg? || a.Undefined?
  }

  /** `options === true ? { pretty: true } : options`, with `csvToTable`'s
      default `{}` for `undefined`. */
  function ResolveOptions(a: Arg): TableOptions
    requires IsOptions(a)
  {
    match a
    case TrueArg => PrettyOnly
    case OptionsArg(o) => o
    case Undefined => NoOptions
  }

  /** The descriptor is shaped for the renderer the options choose. */
  predicate Renderable(csv: CSV, options: Arg)
    requires IsOptions(options)
  {
    ResolveOptions(options).pretty ==> WellShaped(BuildTable(csv, ResolveOptions(options)))
  }

  /** `generateTableFromCSV(csv, options)`. */
  function GenerateTableFromCsv(csv: CSV, options: Arg): Result<string, Failure>
    requires IsOptions(options) && Renderable(csv, options)
  {
    var opts := ResolveOptions(options);
    var table := BuildTable(csv, opts);
    if opts.pretty then
      if NoAbsentCell(table) then Ok(PrettyText(table)) else Err(AbsentCellLength)
    else Ok(PrintTable(table))
  }

  /** The header row of a CSV array whose first row holds only strings. */
  predicate TextOnly(row: Row)
  {
    forall i :: 0 <= i < |row| ==> row[i].Str?
  }

  /** The argument shapes the overload signatures admit: headers go with a
      string or an array of rows (or the empty array), and a CSV array has
      a header row of strings. Options in the third place are read only
      when the second argument is data. */
  predicate FitsOverloads(first: Arg, second: Arg, third: Arg)
  {
    if IsData(second) then
      first.NameArray? && !second.NameArray? &&
      (second.RecordArray? ==> second.records == []) && IsOptions(third)
    else
      !first.NameArray? && (first.RowArray? && |first.rows| > 0 ==> TextOnly(first.rows[0]))
  }

  /** The options in force: the third argument when the second is data, else the second. */
  function OptionsOf(second: Arg, third: Arg): Arg
  {
    if IsData(second) then third else second
  }

  /** Lines 57-73: the CSV array the data is normalised into, or the `throw`. */
  function ToCsv(first: Arg, second: Arg, third: Arg): (r: Result<CSV, Failure>)
    requires FitsOverloads(first, second, third)
    ensures r.Err? <==> !IsData(first) && !IsData(second)
    ensures r.Err? ==> r.error == UnsupportedParameters
  {
    if IsData(second) then
      match second
      case RowArray(rows) => Ok(CSV(first.names, rows))
      case Textual(text) => Ok(CSV(first.names, ParseCsvBody(text)))
      case RecordArray(_) => Ok(CSV(first.names, []))
    else
      match first
      case Textual(text) => Ok(ParseCsv(text))
      case RowArray(rows) =>
        if |rows| > 0 then Ok(CSV(Texts(rows[0]), rows[1..])) else Ok(JsonCsv([], None))
      case RecordArray(records) => Ok(JsonCsv(records, None))
      case _ => Err(UnsupportedParameters)
  }

  /** Whatever the data is normalised into can be rendered as the options ask. */
  predicate Callable(first: Arg, second: Arg, third: Arg)
  {
    FitsOverloads(first, second, third) &&
    (ToCsv(first, second, third).Ok? ==> Renderable(ToCsv(first, second, third).value, OptionsOf(second, third)))
  }

  /** `generateMarkdownTable(dataOrHeaders, dataOrOptions, options)`. */
  function GenerateMarkdownTable(first: Arg, second: Arg, third: Arg): Result<string, Failure>
    requires Callable(first, second, third)
  {
    RenderCsv(ToCsv(first, second, third), OptionsOf(second, third))
  }

  /** The normalised data handed on to `generateTableFromCSV`, or the failure. */
  function RenderCsv(r: Result<CSV, Failure>, options: Arg): Result<string, Failure>
    requires IsOptions(options) && (r.Ok? ==> Renderable(r.value, options))
  {
    match r
    case Err(e) => Err(e)
    case Ok(csv) => GenerateTableFromCsv(csv, options)
  }

  // ---------------------------------------------------------------------
  // Properties of the entry point
  // ---------------------------------------------------------------------

  /** `pretty` picks the padded renderer, otherwise the compact one; only
      the padded renderer can fail, on an absent cell. */
  lemma OutputMode(csv: CSV, options: Arg)
    requires IsOptions(options) && Renderable(csv, options)
    ensures var opts := ResolveOptions(options);
            var table := BuildTable(csv, opts);
            var r := GenerateTableFromCsv(csv, options);
            (r.Err? <==> opts.pretty && !NoAbsentCell(table)) &&
            (r.Err? ==> r.error == AbsentCellLength) &&
            (r.Ok? && opts.pretty ==> r.value == PrettyText(table)) &&
            (!opts.pretty ==> r == Ok(PrintTable(table)))
  {
  }

  /** `generateTableFromCSV` reads options `true` exactly as `{ pretty: true }`. */
  lemma TrueMeansPrettyCsv(csv: CSV)
    requires Renderable(csv, TrueArg)
    ensures Renderable(csv, OptionsArg(PrettyOnly))
    ensures GenerateTableFromCsv(csv, TrueArg) == GenerateTableFromCsv(csv, OptionsArg(PrettyOnly))
  {
  }

  /** Options `true` after headers and data mean exactly `{ pretty: true }`. */
  lemma TrueMeansPretty(first: Arg, second: Arg)
    requires Callable(first, second, TrueArg) && IsData(second)
    ensures Callable(first, second, OptionsArg(PrettyOnly))
    ensures GenerateMarkdownTable(first, second, TrueArg) ==
            GenerateMarkdownTable(first, second, OptionsArg(PrettyOnly))
  {
  }

  /** Options `true` straight after the data, as in `generateMarkdownTable(data, true)`,
      mean exactly `{ pretty: true }`. */
  lemma TrueAfterDataMeansPretty(first: Arg)
    requires Callable(first, TrueArg, Undefined)
    ensures Callable(first, OptionsArg(PrettyOnly), Undefined)
    ensures GenerateMarkdownTable(first, TrueArg, Undefined) ==
            GenerateMarkdownTable(first, OptionsArg(PrettyOnly), Undefined)
  {
    if ToCsv(first, TrueArg, Undefined).Ok? {
      TrueMeansPrettyCsv(ToCsv(first, TrueArg, Undefined).value);
    }
  }

  lemma TextsOfTextRow(names: seq<string>)
    ensures TextOnly(TextRow(names)) && Texts(TextRow(names)) == names
  {
  }

  /** Headers with an array body give the same table as the CSV array that
      has the headers as its first row. */
  lemma HeadersWithRows(names: seq<string>, rows: seq<Row>, options: Arg)
    requires Callable(NameArray(names), RowArray(rows), options)
    ensures Callable(RowArray([TextRow(names)] + rows), options, Undefined)
    ensures GenerateMarkdownTable(NameArray(names), RowArray(rows), options) ==
            GenerateMarkdownTable(RowArray([TextRow(names)] + rows), options, Undefined)
  {
    TextsOfTextRow(names);
    assert ([TextRow(names)] + rows)[1..] == rows;
  }

  /** Headers with a string body give the same table as the CSV text with
      the header line put in front (names that hold no line break, no
      unescaped comma, and, but for the last, do not end in a backslash). */
  lemma HeadersWithText(names: seq<string>, text: string, options: Arg)
    requires Callable(NameArray(names), Textual(text), options)
    requires Separated(names, Comma, None)
    requires forall i :: 0 <= i < |names| ==> '\n' !in names[i]
    ensures Callable(Textual(Join(names, ",") + "\n" + text), options, Undefined)
    ensures GenerateMarkdownTable(NameArray(names), Textual(text), options) ==
            GenerateMarkdownTable(Textual(Join(names, ",") + "\n" + text), options, Undefined)
  {
    HeaderTextCsv(names, text, options);
    SameCsvSameTable(NameArray(names), Textual(text), options,
                     Textual(Join(names, ",") + "\n" + text), options, Undefined);
  }

  /** The CSV text with the header line in front normalises into the
      same CSV array as the headers with the text. */
  lemma HeaderTextCsv(names: seq<string>, text: string, options: Arg)
    requires FitsOverloads(NameArray(names), Textual(text), options)
    requires Separated(names, Comma, None)
    requires forall i :: 0 <= i < |names| ==> '\n' !in names[i]
    ensures FitsOverloads(Textual(Join(names, ",") + "\n" + text), options, Undefined)
    ensures ToCsv(NameArray(names), Textual(text), options) ==
            ToCsv(Textual(Join(names, ",") + "\n" + text), options, Undefined)
    ensures OptionsOf(Textual(text), options) == OptionsOf(options, Undefined)
  {
    ParseHeaderLine(names, text);
    TextWithOptions(Join(names, ",") + "\n" + text, options);
  }

  /** A CSV text with options after it is parsed whole. */
  lemma TextWithOptions(t: string, options: Arg)
    requires IsOptions(options)
    ensures FitsOverloads(Textual(t), options, Undefined)
    ensures ToCsv(Textual(t), options, Undefined) == Ok(ParseCsv(t))
    ensures OptionsOf(options, Undefined) == options
  {
  }

  /** Two calls that normalise their data into the same CSV array under
      the same options produce the same table. */
  lemma SameCsvSameTable(first: Arg, second: Arg, third: Arg, first': Arg, second': Arg, third': Arg)
    requires Callable(first, second, third) && FitsOverloads(first', second', third')
    requires ToCsv(first, second, third) == ToCsv(first', second', third')
    requires OptionsOf(second, third) == OptionsOf(second', third')
    ensures Callable(first', second', third')
    ensures GenerateMarkdownTable(first, second, third) == GenerateMarkdownTable(first', second', third')
  {
  }

  /** The one hard failure: neither argument is data. */
  lemma UnsupportedExactly(first: Arg, second: Arg, third: Arg)
    requires Callable(first, second, third)
    ensures GenerateMarkdownTable(first, second, third) == Err(UnsupportedParameters) <==>
            !IsData(first) && !IsData(second)
  {
  }
}
