/** The table builder and the two renderers of src/md.ts: a CSV array and
    options become a table descriptor, and a descriptor becomes the text of
    a Markdown pipe table, either compact or with padded columns. */
module Markdown {
  import opened Text
  import opened Csv

  datatype Alignment = Left | Center | Right

  /** The `alignment` option: one value for every column, or one per column. */
  datatype AlignmentOption = One(alignment: Alignment) | PerColumn(alignments: seq<Alignment>)

  /** `MarkdownTableOptions`; a given array counts as given even when empty. */
  datatype TableOptions = TableOptions(
    columns: Option<seq<string>>,
    exclude: Option<seq<string>>,
    pretty: bool,
    alignment: Option<AlignmentOption>)

  /** `MarkdownTable`; a body cell is None where the source holds null or undefined. */
  datatype MarkdownTable = MarkdownTable(
    headers: seq<string>,
    alignment: seq<Alignment>,
    rows: seq<seq<Option<string>>>)

  // ---------------------------------------------------------------------
  // csvToTable
  // ---------------------------------------------------------------------

  /** `col?.toString()`: absent for null, the text of the value otherwise. */
  function Stringify(c: Cell): (r: Option<string>)
    ensures r.None? <==> c.Null?
    ensures c.Str? ==> r == Some(c.s)
  {
    match c
    case Str(s) => Some(s)
    case Num(n) => Some(IntToString(n))
    case Bool(b) => Some(if b then "true" else "false")
    case Null => None
  }

  /** `xs.indexOf(x)`: the first index holding `x`, or -1. */
  function IndexOf(xs: seq<string>, x: string): (i: int)
    ensures -1 <= i < |xs|
    ensures i == -1 <==> x !in xs
    ensures 0 <= i ==> xs[i] == x && x !in xs[..i]
    decreases |xs|
  {
    if xs == [] then -1
    else if xs[0] == x then 0
    else
      var j := IndexOf(xs[1..], x);
      if j == -1 then -1 else j + 1
  }

  /** `xs.splice(start, 1)` on a copy: a negative start counts from the end. */
  function Splice(xs: seq<string>, start: int): seq<string>
  {
    var s := if start < 0 then (if |xs| + start < 0 then 0 else |xs| + start)
             else (if start > |xs| then |xs| else start);
    if s < |xs| then xs[..s] + xs[s + 1..] else xs
  }

  /** One pass of the `exclude` loop: `if (index) headers.splice(index, 1)`. */
  function ExcludeOne(headers: seq<string>, col: string): seq<string>
  {
    var index := IndexOf(headers, col);
    if index != 0 then Splice(headers, index) else headers
  }

  /** The headers once the first names of `exclude` have been processed in turn. */
  function ExcludeAll(headers: seq<string>, exclude: seq<string>): seq<string>
    decreases |exclude|
  {
    if exclude == [] then headers
    else ExcludeOne(ExcludeAll(headers, exclude[..|exclude| - 1]), exclude[|exclude| - 1])
  }

  /** The output columns: `columns` or the header row, with `exclude` removed. */
  function ResolveHeaders(csv: CSV, options: TableOptions): seq<string>
  {
    var base := if options.columns.Some? then options.columns.value else csv.header;
    ExcludeAll(base, options.exclude.GetOr([]))
  }

  /** The per-column alignment: an array as given, else the value (default center) once per column. */
  function Alignments(option: Option<AlignmentOption>, n: nat): seq<Alignment>
  {
    match option
    case Some(PerColumn(a)) => a
    case Some(One(a)) => seq(n, _ => a)
    case None => seq(n, _ => Center)
  }

  /** A row cell by position, stringified: `row.map(col => col?.toString())`. */
  function PositionalRow(row: Row): seq<Option<string>>
  {
    seq(|row|, i requires 0 <= i < |row| => Stringify(row[i]))
  }

  /** `row[i]?.toString() || null`: absent out of range, for null, and for "". */
  function CellAt(row: Row, i: int): Option<string>
  {
    if 0 <= i < |row| && Stringify(row[i]) != Some("") then Stringify(row[i]) else None
  }

  /** A row projected through the header indexes. */
  function LookedUpRow(row: Row, indexes: seq<int>): seq<Option<string>>
  {
    seq(|indexes|, j requires 0 <= j < |indexes| => CellAt(row, indexes[j]))
  }

  /** Whether neither `columns` nor `exclude` was given (the positional path). */
  predicate Unselected(options: TableOptions)
  {
    options.exclude.None? && options.columns.None?
  }

  /** The descriptor `csvToTable` builds. */
  function BuildTable(csv: CSV, options: TableOptions): MarkdownTable
  {
    var headers := ResolveHeaders(csv, options);
    var indexes := seq(|headers|, j requires 0 <= j < |headers| => IndexOf(csv.header, headers[j]));
    var rows :=
      if Unselected(options) then seq(|csv.body|, k requires 0 <= k < |csv.body| => PositionalRow(csv.body[k]))
      else seq(|csv.body|, k requires 0 <= k < |csv.body| => LookedUpRow(csv.body[k], indexes));
    MarkdownTable(headers, Alignments(options.alignment, |headers|), rows)
  }

  /** `csvToTable(csv, options)`: the `exclude` names are spliced out of the
      header list in place, one after the other. */
  method CsvToTable(csv: CSV, options: TableOptions) returns (table: MarkdownTable)
    ensures table == BuildTable(csv, options)
  {
    var base := if options.columns.Some? then options.columns.value else csv.header;
    var headers := ExcludeInPlace(base, options.exclude.GetOr([]));
    var headerIndexes := seq(|headers|, j requires 0 <= j < |headers| => IndexOf(csv.header, headers[j]));
    var alignment := Alignments(options.alignment, |headers|);
    var rows :=
      if Unselected(options) then seq(|csv.body|, k requires 0 <= k < |csv.body| => PositionalRow(csv.body[k]))
      else seq(|csv.body|, k requires 0 <= k < |csv.body| => LookedUpRow(csv.body[k], headerIndexes));
    table := MarkdownTable(headers, alignment, rows);
  }

  /** The `exclude` loop of lines 26-29: each name found at a non-zero index
      (or not found, index -1) is spliced out of the header list. */
  method ExcludeInPlace(base: seq<string>, exclude: seq<string>) returns (headers: seq<string>)
    ensures headers == ExcludeAll(base, exclude)
  {
    headers := base;
    for e := 0 to |exclude|
      invariant headers == ExcludeAll(base, exclude[..e])
    {
      assert exclude[..e + 1][..e] == exclude[..e];
      var index := IndexOf(headers, exclude[e]);
      if index != 0 {
        headers := Splice(headers, index);
      }
    }
    assert exclude[..|exclude|] == exclude;
  }

  // ---------------------------------------------------------------------
  // getTableRows, printTable
  // ---------------------------------------------------------------------

  /** The separator cell for an alignment: a `---` run with a colon on the
      side (or sides) the column is aligned to. */
  function SeparatorToken(a: Alignment): (t: string)
    ensures t == SepPrefix(a) + "---" + SepSuffix(a)
    ensures (t[0] == ':') == (a != Right) && (t[|t| - 1] == ':') == (a != Left)
  {
    match a
    case Left => ":---"
    case Center => ":---:"
    case Right => "---:"
  }

  function SepPrefix(a: Alignment): string
  {
    if a == Right then "" else ":"
  }

  function SepSuffix(a: Alignment): string
  {
    if a == Left then "" else ":"
  }

  function Present(cells: seq<string>): seq<Option<string>>
  {
    seq(|cells|, i requires 0 <= i < |cells| => Some(cells[i]))
  }

  function Separators(alignment: seq<Alignment>): seq<string>
  {
    seq(|alignment|, i requires 0 <= i < |alignment| => SeparatorToken(alignment[i]))
  }

  /** `getTableRows`: the header row, the separator row, then the body rows. */
  function GetTableRows(table: MarkdownTable): seq<seq<Option<string>>>
  {
    [Present(table.headers), Present(Separators(table.alignment))] + table.rows
  }

  /** One output line: `| ${row.join(' | ')} |`. */
  function Line(cells: seq<string>): string
  {
    "| " + Join(cells, " | ") + " |"
  }

  /** The lines of a grid joined by `\n`, with no trailing newline. */
  function Render(grid: seq<seq<string>>): string
  {
    Join(seq(|grid|, k requires 0 <= k < |grid| => Line(grid[k])), "\n")
  }

  /** `join` writes null and undefined as "". */
  function CellText(cell: Option<string>): string
  {
    cell.GetOr("")
  }

  function RowText(row: seq<Option<string>>): seq<string>
  {
    seq(|row|, i requires 0 <= i < |row| => CellText(row[i]))
  }

  function CompactGrid(table: MarkdownTable): seq<seq<string>>
  {
    var g := GetTableRows(table);
    seq(|g|, k requires 0 <= k < |g| => RowText(g[k]))
  }

  /** `printTable`: every cell padded by one space, no width alignment. */
  function PrintTable(table: MarkdownTable): string
  {
    Render(CompactGrid(table))
  }

  // ---------------------------------------------------------------------
  // getColSize, padColumn, prettyPrintTable
  // ---------------------------------------------------------------------

  /** Widest cell of column `i` over the rows that have one. */
  function ColWidth(rows: seq<seq<string>>, i: nat): nat
    decreases |rows|
  {
    if rows == [] then 0
    else
      var last := rows[|rows| - 1];
      var w := ColWidth(rows[..|rows| - 1], i);
      if i < |last| && |last[i]| > w then |last[i]| else w
  }

  /** `getColSize(rows)`: the nested loops of lines 75-78 raise a running
      maximum per column in an array; cells beyond the first row's width
      are ignored, since the comparison with `undefined` fails. */
  method ColSizes(rows: seq<seq<string>>) returns (sizes: seq<nat>)
    requires |rows| > 0
    ensures |sizes| == |rows[0]|
    ensures forall i :: 0 <= i < |sizes| ==> sizes[i] == ColWidth(rows, i)
  {
    var result := new nat[|rows[0]|](_ => 0);
    for r := 0 to |rows|
      invariant forall i :: 0 <= i < result.Length ==> result[i] == ColWidth(rows[..r], i)
    {
      var row := rows[r];
      assert rows[..r + 1][..r] == rows[..r];
      for i := 0 to |row|
        invariant forall k :: 0 <= k < result.Length ==>
                    result[k] == if k < i then ColWidth(rows[..r + 1], k) else ColWidth(rows[..r], k)
      {
        if i < result.Length && |row[i]| > result[i] {
          result[i] := |row[i]|;
        }
      }
    }
    assert rows[..|rows|] == rows;
    sizes := result[..];
  }

  /** `padColumn(column, length, alignment)`; `Math.ceil(length / 2)` is `(length + 1) / 2`. */
  function PadColumn(column: string, length: nat, a: Alignment): string
  {
    match a
    case Left => PadEnd(column, length)
    case Center => PadEnd(PadStart(column, (length + 1) / 2), length)
    case Right => PadStart(column, length)
  }

  /** The separator token with its `---` stretched so that the cell is `w` wide. */
  function Resized(a: Alignment, w: nat): string
    requires w >= |SeparatorToken(a)|
  {
    SepPrefix(a) + Repeat('-', w - |SepPrefix(a)| - |SepSuffix(a)|) + SepSuffix(a)
  }

  /** The descriptor's widths are defined: one alignment per header, no row wider. */
  predicate WellShaped(table: MarkdownTable)
  {
    |table.alignment| == |table.headers| &&
    forall k :: 0 <= k < |table.rows| ==> |table.rows[k]| <= |table.headers|
  }

  /** `col.length` is read on every cell, so none may be null or undefined. */
  predicate NoAbsentCell(table: MarkdownTable)
  {
    forall k, i :: 0 <= k < |table.rows| && 0 <= i < |table.rows[k]| ==> table.rows[k][i].Some?
  }

  /** The rows of `getTableRows` as text, for a table without absent cells.
      The ensures spell the body out row by row so that proofs need not unfold it. */
  function TextGrid(table: MarkdownTable): (g: seq<seq<string>>)
    requires NoAbsentCell(table)
    ensures |g| == |table.rows| + 2
    ensures g[0] == table.headers && g[1] == Separators(table.alignment)
    ensures forall k :: 0 <= k < |table.rows| ==>
              |g[k + 2]| == |table.rows[k]| &&
              forall i :: 0 <= i < |table.rows[k]| ==> Some(g[k + 2][i]) == table.rows[k][i]
  {
    [table.headers, Separators(table.alignment)] +
    seq(|table.rows|, k requires 0 <= k < |table.rows| =>
          seq(|table.rows[k]|, i requires 0 <= i < |table.rows[k]| => table.rows[k][i].value))
  }

  /** Every cell of column `i` fits in the column's width. */
  lemma {:induction false} ColWidthBound(rows: seq<seq<string>>, i: nat, r: nat)
    requires r < |rows| && i < |rows[r]|
    ensures |rows[r][i]| <= ColWidth(rows, i)
    decreases |rows|
  {
    if r < |rows| - 1 {
      ColWidthBound(rows[..|rows| - 1], i, r);
    }
  }

  /** The column width is the length of one of the column's cells, or 0. */
  lemma {:induction false} ColWidthAttained(rows: seq<seq<string>>, i: nat)
    ensures ColWidth(rows, i) == 0 ||
            exists r :: 0 <= r < |rows| && i < |rows[r]| && |rows[r][i]| == ColWidth(rows, i)
    decreases |rows|
  {
    if rows != [] {
      var init := rows[..|rows| - 1];
      ColWidthAttained(init, i);
      if ColWidth(rows, i) == ColWidth(init, i) && ColWidth(init, i) != 0 {
        var r :| 0 <= r < |init| && i < |init[r]| && |init[r][i]| == ColWidth(init, i);
        assert rows[r] == init[r];
      }
    }
  }

  /** The widths of the pretty table: no column is narrower than its separator token. */
  function Widths(table: MarkdownTable): (w: seq<nat>)
    requires WellShaped(table) && NoAbsentCell(table)
    ensures |w| == |table.headers|
    ensures forall i :: 0 <= i < |w| ==> w[i] >= |SeparatorToken(table.alignment[i])|
  {
    var g := TextGrid(table);
    var w := seq(|table.headers|, i requires 0 <= i < |table.headers| => ColWidth(g, i));
    assert forall i :: 0 <= i < |w| ==> w[i] >= |SeparatorToken(table.alignment[i])| by {
      forall i | 0 <= i < |w| ensures w[i] >= |SeparatorToken(table.alignment[i])| {
        ColWidthBound(g, i, 1);
      }
    }
    w
  }

  /** One row with every cell padded to its column's width and alignment. */
  function PadRow(row: seq<string>, w: seq<nat>, a: seq<Alignment>): (r: seq<string>)
    requires |row| <= |w| && |row| <= |a|
    ensures |r| == |row|
  {
    seq(|row|, i requires 0 <= i < |row| => PadColumn(row[i], w[i], a[i]))
  }

  /** Every row padded. */
  function PadRows(rows: seq<seq<string>>, w: seq<nat>, a: seq<Alignment>): (r: seq<seq<string>>)
    requires forall k :: 0 <= k < |rows| ==> |rows[k]| <= |w| && |rows[k]| <= |a|
    ensures |r| == |rows|
    ensures forall k :: 0 <= k < |rows| ==> |r[k]| == |rows[k]|
  {
    seq(|rows|, k requires 0 <= k < |rows| => PadRow(rows[k], w, a))
  }

  /** The header row, padded. */
  function PrettyHeader(table: MarkdownTable): seq<string>
    requires WellShaped(table) && NoAbsentCell(table)
  {
    PadRow(table.headers, Widths(table), table.alignment)
  }

  /** The separator row, stretched. */
  function PrettySeparator(table: MarkdownTable): seq<string>
    requires WellShaped(table) && NoAbsentCell(table)
  {
    var w := Widths(table);
    seq(|table.headers|, i requires 0 <= i < |table.headers| => Resized(table.alignment[i], w[i]))
  }

  /** The body rows, padded. */
  function PrettyBody(table: MarkdownTable): (b: seq<seq<string>>)
    requires WellShaped(table) && NoAbsentCell(table)
    ensures |b| == |table.rows|
    ensures forall k :: 0 <= k < |b| ==> |b[k]| == |table.rows[k]|
  {
    PadRows(TextGrid(table)[2..], Widths(table), table.alignment)
  }

  /** The cells `prettyPrintTable` writes, row by row. */
  function PrettyGrid(table: MarkdownTable): seq<seq<string>>
    requires WellShaped(table) && NoAbsentCell(table)
  {
    [PrettyHeader(table), PrettySeparator(table)] + PrettyBody(table)
  }

  function PrettyText(table: MarkdownTable): string
    requires WellShaped(table) && NoAbsentCell(table)
  {
    Render(PrettyGrid(table))
  }

  /** Replacing the `---` of a separator token keeps its colons. */
  lemma ReplaceDashes(a: Alignment, dashes: string)
    ensures ReplaceFirst(SeparatorToken(a), "---", dashes) == SepPrefix(a) + dashes + SepSuffix(a)
  {
    var t := SeparatorToken(a);
    if a == Right {
      assert t[..3] == "---";
    } else {
      assert t[..3][0] == ':';
      assert t[1..][..3] == "---";
      assert t[1..][3..] == SepSuffix(a);
    }
  }

  /** `prettyPrintTable(table)`: widths from `getColSize`, then the rows are
      taken off the front one at a time (`rows.shift()`) and padded. */
  method PrettyPrintTable(table: MarkdownTable) returns (text: string)
    requires WellShaped(table) && NoAbsentCell(table)
    ensures text == PrettyText(table)
  {
    var rows := TextGrid(table);
    ghost var grid := rows;
    var colSizes := ColSizes(rows);
    assert colSizes == Widths(table);
    var a := table.alignment;
    var headerRow := rows[0];
    rows := rows[1..];
    var headers := PadRow(headerRow, colSizes, a);
    var sepRow := rows[0];
    rows := rows[1..];
    assert rows == grid[2..];
    var separator := SeparatorRow(sepRow, colSizes, a);
    assert separator == PrettySeparator(table);
    var body := PadRows(rows, colSizes, a);
    text := Render([headers, separator] + body);
  }

  /** Line 52: every separator token has its `---` replaced by the dash run
      that makes it as wide as its column. */
  function SeparatorRow(sepRow: seq<string>, colSizes: seq<nat>, a: seq<Alignment>): (r: seq<string>)
    requires |sepRow| == |colSizes| == |a|
    requires forall i :: 0 <= i < |a| ==> sepRow[i] == SeparatorToken(a[i]) && colSizes[i] >= |sepRow[i]|
    ensures |r| == |a|
    ensures forall i :: 0 <= i < |a| ==> r[i] == Resized(a[i], colSizes[i])
  {
    var r := seq(|sepRow|, i requires 0 <= i < |sepRow| =>
                   ReplaceFirst(sepRow[i], "---", Repeat('-', colSizes[i] - (|sepRow[i]| - 3))));
    assert forall i :: 0 <= i < |a| ==> r[i] == Resized(a[i], colSizes[i]) by {
      forall i | 0 <= i < |a| ensures r[i] == Resized(a[i], colSizes[i]) {
        ReplaceDashes(a[i], Repeat('-', colSizes[i] - (|sepRow[i]| - 3)));
      }
    }
    r
  }

  // ---------------------------------------------------------------------
  // Properties of the builder
  // ---------------------------------------------------------------------

  /** The `exclude` step as written: a name found at index 1 or later loses
      its first occurrence; a name at index 0 is kept (`if (index)` is false
      for 0); a name that is not found removes the last header
      (`splice(-1, 1)`). */
  lemma ExcludeOneCases(headers: seq<string>, col: string)
    ensures headers != [] && headers[0] == col ==> ExcludeOne(headers, col) == headers
    ensures forall i :: 1 <= i < |headers| && headers[i] == col && col !in headers[..i] ==>
              ExcludeOne(headers, col) == headers[..i] + headers[i + 1..]
    ensures col !in headers ==>
              ExcludeOne(headers, col) == if headers == [] then [] else headers[..|headers| - 1]
  {
    forall i | 1 <= i < |headers| && headers[i] == col && col !in headers[..i]
      ensures ExcludeOne(headers, col) == headers[..i] + headers[i + 1..]
    {
      FirstIndex(headers, col, i);
    }
    if col !in headers && headers != [] {
      assert headers[..|headers| - 1] + headers[|headers|..] == headers[..|headers| - 1];
    }
  }

  /** `splice` only ever takes a name away. */
  lemma SpliceRemoves(xs: seq<string>, start: int)
    ensures multiset(Splice(xs, start)) <= multiset(xs)
    ensures |xs| - 1 <= |Splice(xs, start)| <= |xs|
  {
    var s := if start < 0 then (if |xs| + start < 0 then 0 else |xs| + start)
             else (if start > |xs| then |xs| else start);
    if s < |xs| {
      assert xs == xs[..s] + [xs[s]] + xs[s + 1..];
    }
  }

  /** Excluding removes at most one header per name and adds none. */
  lemma {:induction false} ExcludeAllRemoves(headers: seq<string>, exclude: seq<string>)
    ensures multiset(ExcludeAll(headers, exclude)) <= multiset(headers)
    ensures |headers| - |exclude| <= |ExcludeAll(headers, exclude)| <= |headers|
    decreases |exclude|
  {
    if exclude != [] {
      var before := ExcludeAll(headers, exclude[..|exclude| - 1]);
      ExcludeAllRemoves(headers, exclude[..|exclude| - 1]);
      SpliceRemoves(before, IndexOf(before, exclude[|exclude| - 1]));
    }
  }

  /** With neither `columns` nor `exclude`, the headers are the input header
      row in order, and each row is the input row with every cell
      stringified; absent stays absent and nothing else becomes absent. */
  lemma DefaultTable(csv: CSV, options: TableOptions)
    requires Unselected(options)
    ensures var t := BuildTable(csv, options);
            t.headers == csv.header && |t.rows| == |csv.body| &&
            forall k :: 0 <= k < |t.rows| ==>
              |t.rows[k]| == |csv.body[k]| &&
              forall i :: 0 <= i < |t.rows[k]| ==>
                t.rows[k][i] == Stringify(csv.body[k][i]) && (t.rows[k][i].None? <==> csv.body[k][i].Null?)
  {
  }

  /** With `columns` or `exclude`, every row has one cell per output column,
      read at the first index of that column's name in the input header row;
      it is absent when the name is not there, the row is too short, or the
      value stringifies to absent or to "". */
  lemma SelectedTable(csv: CSV, options: TableOptions, k: nat, j: nat)
    requires !Unselected(options)
    requires k < |csv.body| && j < |ResolveHeaders(csv, options)|
    ensures var t := BuildTable(csv, options);
            var name := t.headers[j];
            var row := csv.body[k];
            |t.rows| == |csv.body| && |t.rows[k]| == |t.headers| &&
            (name !in csv.header ==> t.rows[k][j] == None) &&
            forall i :: 0 <= i < |csv.header| && csv.header[i] == name && name !in csv.header[..i] ==>
              t.rows[k][j] == if i < |row| && Stringify(row[i]) != Some("") then Stringify(row[i]) else None
  {
    var t := BuildTable(csv, options);
    var name := t.headers[j];
    var idx := IndexOf(csv.header, name);
    assert t.rows[k][j] == CellAt(csv.body[k], idx);
    forall i | 0 <= i < |csv.header| && csv.header[i] == name && name !in csv.header[..i]
      ensures idx == i
    {
      FirstIndex(csv.header, name, i);
    }
  }

  /** The first index holding `x` is the one `indexOf` finds. */
  lemma FirstIndex(xs: seq<string>, x: string, i: nat)
    requires i < |xs| && xs[i] == x && x !in xs[..i]
    ensures IndexOf(xs, x) == i
  {
  }

  /** A scalar alignment (center when none is given) is repeated once per
      output column; an array is used as it is. */
  lemma AlignmentBroadcast(csv: CSV, options: TableOptions)
    ensures var t := BuildTable(csv, options);
            match options.alignment
            case None =>
              |t.alignment| == |t.headers| && forall i :: 0 <= i < |t.alignment| ==> t.alignment[i] == Center
            case Some(given) =>
              if given.PerColumn? then t.alignment == given.alignments
              else |t.alignment| == |t.headers| && forall i :: 0 <= i < |t.alignment| ==> t.alignment[i] == given.alignment
  {
  }

  // ---------------------------------------------------------------------
  // Properties of the renderers
  // ---------------------------------------------------------------------

  /** A line holds no line break when its cells hold none. */
  lemma LineAvoids(cells: seq<string>)
    requires forall i :: 0 <= i < |cells| ==> '\n' !in cells[i]
    ensures '\n' !in Line(cells)
  {
    JoinAvoids(cells, " | ", '\n');
  }

  /** A rendered grid splits back into exactly its lines, one per row. */
  lemma RenderLines(grid: seq<seq<string>>)
    requires |grid| > 0
    requires forall k, i :: 0 <= k < |grid| && 0 <= i < |grid[k]| ==> '\n' !in grid[k][i]
    ensures SplitLines(Render(grid)) == seq(|grid|, k requires 0 <= k < |grid| => Line(grid[k]))
  {
    var lines := seq(|grid|, k requires 0 <= k < |grid| => Line(grid[k]));
    forall k | 0 <= k < |lines| ensures '\n' !in lines[k] {
      LineAvoids(grid[k]);
    }
    LinesSeparated(lines, None);
    JoinSplit(lines, LineBreak, None);
  }

  predicate NoLineBreaks(table: MarkdownTable)
  {
    (forall i :: 0 <= i < |table.headers| ==> '\n' !in table.headers[i]) &&
    forall k, i :: 0 <= k < |table.rows| && 0 <= i < |table.rows[k]| ==> '\n' !in CellText(table.rows[k][i])
  }

  /** Compact output has the header line, the separator line and one line per
      body row, each `| c1 | ... | cn |` with absent cells written as "". */
  lemma CompactLines(table: MarkdownTable)
    requires NoLineBreaks(table)
    ensures var lines := SplitLines(PrintTable(table));
            |lines| == 2 + |table.rows| &&
            lines[0] == Line(table.headers) &&
            lines[1] == Line(Separators(table.alignment)) &&
            forall k :: 0 <= k < |table.rows| ==>
              lines[k + 2] == Line(RowText(table.rows[k]))
  {
    var g := CompactGrid(table);
    assert g[0] == table.headers;
    assert g[1] == Separators(table.alignment);
    forall k, i | 0 <= k < |g| && 0 <= i < |g[k]| ensures '\n' !in g[k][i] {
      if k == 1 {
        assert g[1][i] == SeparatorToken(table.alignment[i]);
      }
    }
    forall k | 0 <= k < |table.rows|
      ensures g[k + 2] == RowText(table.rows[k])
    {
    }
    RenderLines(g);
  }

  /** How far `padColumn` moves its text right, when the text fits. */
  function Lead(a: Alignment, len: nat, width: nat): nat
    requires len <= width
  {
    match a
    case Left => 0
    case Right => width - len
    case Center => if len < (width + 1) / 2 then (width + 1) / 2 - len else 0
  }

  /** Left puts the spaces after the text, right before it, center first
      pads to `ceil(width / 2)` in front and then fills up behind; a text that
      fits comes out exactly `width` long, and taking the spaces off again
      gives the text back. A text that does not fit is left as it is. */
  lemma PadColumnShape(column: string, width: nat, a: Alignment)
    ensures |column| <= width ==>
              var lead := Lead(a, |column|, width);
              lead + |column| <= width &&
              PadColumn(column, width, a) == Spaces(lead) + column + Spaces(width - |column| - lead) &&
              PadColumn(column, width, a)[lead..lead + |column|] == column
    ensures |column| >= width ==> PadColumn(column, width, a) == column
  {
    if |column| <= width && a == Center {
      var half := (width + 1) / 2;
      var p := PadStart(column, half);
      var lead := Lead(a, |column|, width);
      assert p == Spaces(lead) + column;
      if |p| < width {
        assert Spaces(lead) + column + Spaces(width - |p|) == p + Spaces(width - |p|);
      } else {
        assert |p| == width && width - |column| - lead == 0;
        assert Spaces(0) == "";
        assert p + "" == p;
      }
    }
    if |column| <= width {
      var lead := Lead(a, |column|, width);
      var r := PadColumn(column, width, a);
      assert r == Spaces(lead) + column + Spaces(width - |column| - lead);
      assert r[lead..lead + |column|] == column;
    }
  }

  /** A column of the pretty table is as wide as the widest of its header,
      separator token and body cells, so at least 4, and 5 for a centred column. */
  lemma PrettyWidths(table: MarkdownTable, i: nat)
    requires WellShaped(table) && NoAbsentCell(table)
    requires i < |table.headers|
    ensures var w := Widths(table)[i];
            w >= |table.headers[i]| && w >= |SeparatorToken(table.alignment[i])| &&
            w >= (if table.alignment[i] == Center then 5 else 4) &&
            (forall k :: 0 <= k < |table.rows| && i < |table.rows[k]| ==> w >= |table.rows[k][i].value|) &&
            (w == |table.headers[i]| || w == |SeparatorToken(table.alignment[i])| ||
             exists k :: 0 <= k < |table.rows| && i < |table.rows[k]| && w == |table.rows[k][i].value|)
  {
    ColWidthBound(TextGrid(table), i, 0);
    ColWidthBound(TextGrid(table), i, 1);
    forall k | 0 <= k < |table.rows| && i < |table.rows[k]|
      ensures Widths(table)[i] >= |table.rows[k][i].value|
    {
      BodyCellBound(table, k, i);
    }
    WidthAttained(table, i);
  }

  lemma BodyCellBound(table: MarkdownTable, k: nat, i: nat)
    requires WellShaped(table) && NoAbsentCell(table)
    requires k < |table.rows| && i < |table.rows[k]|
    ensures |table.rows[k][i].value| <= Widths(table)[i]
  {
    CellFits(table, k, i);
    assert Some(TextGrid(table)[k + 2][i]) == table.rows[k][i];
  }

  /** The width of a column is the length of one of its cells. */
  lemma WidthAttained(table: MarkdownTable, i: nat)
    requires WellShaped(table) && NoAbsentCell(table)
    requires i < |table.headers|
    ensures Widths(table)[i] == |table.headers[i]| || Widths(table)[i] == |SeparatorToken(table.alignment[i])| ||
            exists k :: 0 <= k < |table.rows| && i < |table.rows[k]| && Widths(table)[i] == |table.rows[k][i].value|
  {
    ColWidthAttained(TextGrid(table), i);
    if Widths(table)[i] != |table.headers[i]| && Widths(table)[i] != |SeparatorToken(table.alignment[i])| {
      var r :| 0 <= r < |TextGrid(table)| && i < |TextGrid(table)[r]| &&
               |TextGrid(table)[r][i]| == Widths(table)[i];
      GridCell(table, r, i);
    }
  }

  /** Cell `i` of row `r` of the text grid: a header, a separator token or a body cell. */
  lemma GridCell(table: MarkdownTable, r: nat, i: nat)
    requires WellShaped(table) && NoAbsentCell(table)
    requires i < |table.headers| && r < |TextGrid(table)| && i < |TextGrid(table)[r]|
    ensures r == 0 ==> |TextGrid(table)[r][i]| == |table.headers[i]|
    ensures r == 1 ==> |TextGrid(table)[r][i]| == |SeparatorToken(table.alignment[i])|
    ensures r >= 2 ==> i < |table.rows[r - 2]| && |TextGrid(table)[r][i]| == |table.rows[r - 2][i].value|
  {
    if r >= 2 {
      assert Some(TextGrid(table)[r][i]) == table.rows[r - 2][i];
    }
  }

  /** Every cell of the pretty table is exactly as wide as its column. */
  lemma PaddedWidths(table: MarkdownTable, i: nat)
    requires WellShaped(table) && NoAbsentCell(table)
    requires i < |table.headers|
    ensures var w := Widths(table)[i];
            |PrettyHeader(table)[i]| == w && |PrettySeparator(table)[i]| == w &&
            forall k :: 0 <= k < |table.rows| && i < |table.rows[k]| ==> |PrettyBody(table)[k][i]| == w
  {
    HeaderWidth(table, i);
    forall k | 0 <= k < |table.rows| && i < |table.rows[k]|
      ensures |PrettyBody(table)[k][i]| == Widths(table)[i]
    {
      BodyCellWidth(table, k, i);
    }
  }

  lemma HeaderWidth(table: MarkdownTable, i: nat)
    requires WellShaped(table) && NoAbsentCell(table)
    requires i < |table.headers|
    ensures |PrettyHeader(table)[i]| == Widths(table)[i]
  {
    ColWidthBound(TextGrid(table), i, 0);
    PadRowWidth(table.headers, Widths(table), table.alignment, i);
  }

  lemma BodyCellWidth(table: MarkdownTable, k: nat, i: nat)
    requires WellShaped(table) && NoAbsentCell(table)
    requires k < |table.rows| && i < |table.rows[k]|
    ensures i < |PrettyBody(table)[k]| && |PrettyBody(table)[k][i]| == Widths(table)[i]
  {
    BodyRow(table, k);
    CellFits(table, k, i);
    PadRowWidth(TextGrid(table)[k + 2], Widths(table), table.alignment, i);
  }

  /** A body cell of the text grid is no wider than its column. */
  lemma CellFits(table: MarkdownTable, k: nat, i: nat)
    requires WellShaped(table) && NoAbsentCell(table)
    requires k < |table.rows| && i < |table.rows[k]|
    ensures i < |TextGrid(table)[k + 2]| && |TextGrid(table)[k + 2][i]| <= Widths(table)[i]
  {
    ColWidthBound(TextGrid(table), i, k + 2);
  }

  /** Body row `k` of the pretty table is row `k + 2` of the text grid, padded. */
  lemma BodyRow(table: MarkdownTable, k: nat)
    requires WellShaped(table) && NoAbsentCell(table) && k < |table.rows|
    ensures |TextGrid(table)[k + 2]| <= |Widths(table)|
    ensures PrettyBody(table)[k] == PadRow(TextGrid(table)[k + 2], Widths(table), table.alignment)
  {
    assert TextGrid(table)[2..][k] == TextGrid(table)[k + 2];
  }

  /** A padded cell is as wide as its column when it was no wider. */
  lemma PadRowWidth(row: seq<string>, w: seq<nat>, a: seq<Alignment>, i: nat)
    requires |row| <= |w| && |row| <= |a| && i < |row| && |row[i]| <= w[i]
    ensures |PadRow(row, w, a)[i]| == w[i]
  {
    PadColumnShape(row[i], w[i], a[i]);
  }

  /** The stretched separator keeps its colons: one in front unless the
      column is right aligned, one behind unless it is left aligned, dashes
      everywhere else. */
  lemma SeparatorKeepsColons(table: MarkdownTable, i: nat, p: nat)
    requires WellShaped(table) && NoAbsentCell(table)
    requires i < |table.headers| && p < Widths(table)[i]
    ensures var a := table.alignment[i];
            var w := Widths(table)[i];
            PrettySeparator(table)[i][p] ==
              if p == 0 && a != Right then ':'
              else if p == w - 1 && a != Left then ':'
              else '-'
  {
  }

  /** Pretty output too has the header line, the separator line and one line
      per body row, each made of the padded cells. */
  lemma PrettyLines(table: MarkdownTable)
    requires WellShaped(table) && NoAbsentCell(table) && NoLineBreaks(table)
    ensures var lines := SplitLines(PrettyText(table));
            |lines| == 2 + |table.rows| &&
            lines[0] == Line(PrettyHeader(table)) &&
            lines[1] == Line(PrettySeparator(table)) &&
            forall k :: 0 <= k < |table.rows| ==> lines[k + 2] == Line(PrettyBody(table)[k])
  {
    HeaderAvoids(table);
    SeparatorAvoids(table);
    BodyAvoids(table);
    StackedLines(PrettyHeader(table), PrettySeparator(table), PrettyBody(table));
  }

  /** A header row, a separator row and body rows whose cells hold no line
      break render as exactly one line each. */
  lemma StackedLines(h: seq<string>, s: seq<string>, b: seq<seq<string>>)
    requires forall i :: 0 <= i < |h| ==> '\n' !in h[i]
    requires forall i :: 0 <= i < |s| ==> '\n' !in s[i]
    requires forall k, i :: 0 <= k < |b| && 0 <= i < |b[k]| ==> '\n' !in b[k][i]
    ensures var lines := SplitLines(Render([h, s] + b));
            |lines| == 2 + |b| && lines[0] == Line(h) && lines[1] == Line(s) &&
            forall k :: 0 <= k < |b| ==> lines[k + 2] == Line(b[k])
  {
    var g := [h, s] + b;
    forall k, i | 0 <= k < |g| && 0 <= i < |g[k]| ensures '\n' !in g[k][i] {
      if k >= 2 {
        assert g[k] == b[k - 2];
      }
    }
    RenderLines(g);
  }

  /** Padding adds only spaces. */
  lemma PadAvoids(c: string, w: nat, a: Alignment)
    requires '\n' !in c
    ensures '\n' !in PadColumn(c, w, a)
  {
    PadColumnShape(c, w, a);
    if |c| <= w {
      var lead := Lead(a, |c|, w);
      assert '\n' !in Spaces(lead) && '\n' !in Spaces(w - |c| - lead);
    }
  }

  lemma HeaderAvoids(table: MarkdownTable)
    requires WellShaped(table) && NoAbsentCell(table) && NoLineBreaks(table)
    ensures forall i :: 0 <= i < |PrettyHeader(table)| ==> '\n' !in PrettyHeader(table)[i]
  {
    forall i | 0 <= i < |table.headers| ensures '\n' !in PrettyHeader(table)[i] {
      PadAvoids(table.headers[i], Widths(table)[i], table.alignment[i]);
    }
  }

  lemma SeparatorAvoids(table: MarkdownTable)
    requires WellShaped(table) && NoAbsentCell(table)
    ensures forall i :: 0 <= i < |PrettySeparator(table)| ==> '\n' !in PrettySeparator(table)[i]
  {
    forall i | 0 <= i < |table.headers| ensures '\n' !in PrettySeparator(table)[i] {
      ResizedAvoids(table.alignment[i], Widths(table)[i]);
    }
  }

  /** A stretched separator token is colons and dashes. */
  lemma ResizedAvoids(a: Alignment, w: nat)
    requires w >= |SeparatorToken(a)|
    ensures '\n' !in Resized(a, w)
  {
    assert '\n' !in Repeat('-', w - |SepPrefix(a)| - |SepSuffix(a)|);
  }

  lemma BodyAvoids(table: MarkdownTable)
    requires WellShaped(table) && NoAbsentCell(table) && NoLineBreaks(table)
    ensures forall k, i :: 0 <= k < |PrettyBody(table)| && 0 <= i < |PrettyBody(table)[k]| ==>
              '\n' !in PrettyBody(table)[k][i]
  {
    forall k, i | 0 <= k < |table.rows| && 0 <= i < |table.rows[k]| ensures '\n' !in PrettyBody(table)[k][i] {
      BodyCellAvoids(table, k, i);
    }
  }

  lemma BodyCellAvoids(table: MarkdownTable, k: nat, i: nat)
    requires WellShaped(table) && NoAbsentCell(table) && NoLineBreaks(table)
    requires k < |table.rows| && i < |table.rows[k]|
    ensures '\n' !in PrettyBody(table)[k][i]
  {
    BodyRow(table, k);
    CellFits(table, k, i);
    assert Some(TextGrid(table)[k + 2][i]) == table.rows[k][i];
    assert CellText(table.rows[k][i]) == TextGrid(table)[k + 2][i];
    PadAvoids(TextGrid(table)[k + 2][i], Widths(table)[i], table.alignment[i]);
  }

  // ---------------------------------------------------------------------
  // A worked example: three columns aligned left, center and right
  // ---------------------------------------------------------------------

  const Table3x2 := MarkdownTable(["a", "b", "c"], [Left, Center, Right],
                                  [[Some("1"), Some("2"), Some("3")], [Some("4"), Some("5"), Some("6")]])

  /** The separator tokens of the example's three alignments. */
  lemma Separators3x2()
    ensures Separators(Table3x2.alignment) == [":---", ":---:", "---:"]
  {
    var s := Separators(Table3x2.alignment);
    assert |s| == 3;
    assert s[0] == ":---" && s[1] == ":---:" && s[2] == "---:";
  }

  /** Without absent cells the compact rendering writes the same cells as
      the text grid the pretty rendering starts from. */
  lemma CompactGridIsTextGrid(table: MarkdownTable)
    requires NoAbsentCell(table)
    ensures CompactGrid(table) == TextGrid(table)
  {
    var c := CompactGrid(table);
    var t := TextGrid(table);
    PresentText(table.headers);
    PresentText(Separators(table.alignment));
    forall k | 0 <= k < |c| ensures c[k] == t[k] {
      if k >= 2 {
        BodyRowText(table, k - 2);
      }
    }
  }

  lemma PresentText(cells: seq<string>)
    ensures RowText(Present(cells)) == cells
  {
  }

  lemma BodyRowText(table: MarkdownTable, k: nat)
    requires NoAbsentCell(table) && k < |table.rows|
    ensures RowText(table.rows[k]) == TextGrid(table)[k + 2]
  {
    var t := TextGrid(table)[k + 2];
    forall i | 0 <= i < |t| ensures CellText(table.rows[k][i]) == t[i] {
      assert Some(t[i]) == table.rows[k][i];
    }
  }

  /** The compact rendering pads by one space and writes the bare tokens. */
  lemma CompactExample()
    ensures PrintTable(Table3x2) ==
            "| a | b | c |" + "\n" + "| :--- | :---: | ---: |" + "\n" +
            "| 1 | 2 | 3 |" + "\n" + "| 4 | 5 | 6 |"
  {
    CompactGrid3x2();
    CompactLines3x2();
  }

  /** The cells of the compact rendering of the example. */
  lemma CompactGrid3x2()
    ensures CompactGrid(Table3x2) == [["a", "b", "c"], [":---", ":---:", "---:"], ["1", "2", "3"], ["4", "5", "6"]]
  {
    Grid3x2();
    CompactGridIsTextGrid(Table3x2);
  }

  /** The compact lines of the example. */
  lemma CompactLines3x2()
    ensures Render([["a", "b", "c"], [":---", ":---:", "---:"], ["1", "2", "3"], ["4", "5", "6"]]) ==
            "| a | b | c |" + "\n" + "| :--- | :---: | ---: |" + "\n" +
            "| 1 | 2 | 3 |" + "\n" + "| 4 | 5 | 6 |"
  {
    CompactHeaderLine();
    SeparatorLine3x2();
    CompactBodyLine1();
    CompactBodyLine2();
    LinesExample(["a", "b", "c"], [":---", ":---:", "---:"], ["1", "2", "3"], ["4", "5", "6"],
                 "| a | b | c |", "| :--- | :---: | ---: |", "| 1 | 2 | 3 |", "| 4 | 5 | 6 |");
  }

  /** Four lines joined by line breaks. */
  lemma LinesExample(r0: seq<string>, r1: seq<string>, r2: seq<string>, r3: seq<string>,
                     l0: string, l1: string, l2: string, l3: string)
    requires Line(r0) == l0 && Line(r1) == l1 && Line(r2) == l2 && Line(r3) == l3
    ensures Render([r0, r1, r2, r3]) == l0 + "\n" + l1 + "\n" + l2 + "\n" + l3
  {
    var g := [r0, r1, r2, r3];
    assert seq(|g|, k requires 0 <= k < |g| => Line(g[k])) == [l0, l1, l2, l3];
    Join4(l0, l1, l2, l3, "\n");
  }

  /** Joining four parts. */
  lemma Join4(a: string, b: string, c: string, d: string, sep: string)
    ensures Join([a, b, c, d], sep) == a + sep + b + sep + c + sep + d
  {
    assert [c, d][1..] == [d];
    assert Join([c, d], sep) == c + sep + d;
    assert [b, c, d][1..] == [c, d];
    assert Join([b, c, d], sep) == b + sep + (c + sep + d);
    assert [a, b, c, d][1..] == [b, c, d];
    assert Join([a, b, c, d], sep) == a + sep + (b + sep + (c + sep + d));
  }

  /** A line of three cells. */
  lemma Line3(x: string, y: string, z: string)
    ensures Line([x, y, z]) == "| " + x + " | " + y + " | " + z + " |"
  {
    JoinCons(x, [y, z], " | ");
    assert [x, y, z] == [x] + [y, z];
    JoinCons(y, [z], " | ");
    assert [y, z] == [y] + [z];
  }

  /** Padding a one-character cell in the example's columns. */
  lemma PadExample(c: string)
    requires |c| == 1
    ensures PadColumn(c, 4, Left) == c + "   "
    ensures PadColumn(c, 5, Center) == "  " + c + "  "
    ensures PadColumn(c, 4, Right) == "   " + c
  {
    assert Spaces(3) == "   ";
    assert Spaces(2) == "  ";
    assert PadStart(c, 3) == "  " + c;
  }

  /** The text grid of the example. */
  lemma Grid3x2()
    ensures WellShaped(Table3x2) && NoAbsentCell(Table3x2)
    ensures TextGrid(Table3x2) ==
            [["a", "b", "c"], [":---", ":---:", "---:"], ["1", "2", "3"], ["4", "5", "6"]]
  {
    Separators3x2();
    var g := TextGrid(Table3x2);
    assert g[2] == ["1", "2", "3"];
    assert g[3] == ["4", "5", "6"];
  }

  /** A column of a four-row grid is as wide as its cell in the second row
      when no other cell of the column is wider. */
  lemma WidestInSecondRow(r0: seq<string>, r1: seq<string>, r2: seq<string>, r3: seq<string>, i: nat)
    requires i < |r1|
    requires i < |r0| ==> |r0[i]| <= |r1[i]|
    requires i < |r2| ==> |r2[i]| <= |r1[i]|
    requires i < |r3| ==> |r3[i]| <= |r1[i]|
    ensures ColWidth([r0, r1, r2, r3], i) == |r1[i]|
  {
    var rows := [r0, r1, r2, r3];
    ColWidthAttained(rows, i);
    ColWidthBound(rows, i, 1);
    forall q | 0 <= q < 4 && i < |rows[q]| ensures |rows[q][i]| <= |r1[i]| {
      if q == 0 {
        assert rows[q] == r0;
      } else if q == 2 {
        assert rows[q] == r2;
      } else if q == 3 {
        assert rows[q] == r3;
      }
    }
  }

  /** The pretty widths are those of the separator tokens, the widest cells. */
  lemma PrettyExampleWidths()
    ensures WellShaped(Table3x2) && NoAbsentCell(Table3x2)
    ensures Widths(Table3x2) == [4, 5, 4]
  {
    Grid3x2();
    var r0, r1, r2, r3 := ["a", "b", "c"], [":---", ":---:", "---:"], ["1", "2", "3"], ["4", "5", "6"];
    WidestInSecondRow(r0, r1, r2, r3, 0);
    WidestInSecondRow(r0, r1, r2, r3, 1);
    WidestInSecondRow(r0, r1, r2, r3, 2);
    ExampleWidthsAre(ColWidth([r0, r1, r2, r3], 0), ColWidth([r0, r1, r2, r3], 1), ColWidth([r0, r1, r2, r3], 2));
  }

  /** The widths of the example table are the column widths of its text grid. */
  lemma ExampleWidthsAre(w0: nat, w1: nat, w2: nat)
    requires WellShaped(Table3x2) && NoAbsentCell(Table3x2)
    requires TextGrid(Table3x2) == [["a", "b", "c"], [":---", ":---:", "---:"], ["1", "2", "3"], ["4", "5", "6"]]
    requires w0 == ColWidth(TextGrid(Table3x2), 0) && w1 == ColWidth(TextGrid(Table3x2), 1)
    requires w2 == ColWidth(TextGrid(Table3x2), 2)
    ensures Widths(Table3x2) == [w0, w1, w2]
  {
  }

  /** The padded header row of the example. */
  lemma PrettyHeader3x2()
    ensures WellShaped(Table3x2) && NoAbsentCell(Table3x2)
    ensures PrettyHeader(Table3x2) == ["a   ", "  b  ", "   c"]
  {
    PrettyExampleWidths();
    PadRow3("a", "b", "c");
    PaddedLetters();
  }

  /** The stretched separator row of the example. */
  lemma PrettySeparator3x2()
    ensures WellShaped(Table3x2) && NoAbsentCell(Table3x2)
    ensures PrettySeparator(Table3x2) == [":---", ":---:", "---:"]
  {
    PrettyExampleWidths();
    ResizedTokens();
  }

  /** At the widths of its own token each separator is that token. */
  lemma ResizedTokens()
    ensures Resized(Left, 4) == ":---" && Resized(Center, 5) == ":---:" && Resized(Right, 4) == "---:"
  {
    assert Repeat('-', 3) == "---";
  }

  /** The body rows of the example, before padding is worked out. */
  lemma PrettyBodyRows3x2()
    ensures WellShaped(Table3x2) && NoAbsentCell(Table3x2)
    ensures PrettyBody(Table3x2) ==
            [PadRow(["1", "2", "3"], [4, 5, 4], [Left, Center, Right]),
             PadRow(["4", "5", "6"], [4, 5, 4], [Left, Center, Right])]
  {
    PrettyExampleWidths();
    Grid3x2();
    var g := TextGrid(Table3x2);
    assert g[2..] == [["1", "2", "3"], ["4", "5", "6"]];
  }

  /** The padded body rows of the example. */
  lemma PrettyBody3x2()
    ensures WellShaped(Table3x2) && NoAbsentCell(Table3x2)
    ensures PrettyBody(Table3x2) == [["1   ", "  2  ", "   3"], ["4   ", "  5  ", "   6"]]
  {
    PrettyBodyRows3x2();
    PadRow3("1", "2", "3");
    PadRow3("4", "5", "6");
    PaddedDigits();
  }

  /** Three one-character cells padded to the widths 4, 5, 4 of the example. */
  lemma PadRow3(x: string, y: string, z: string)
    requires |x| == 1 && |y| == 1 && |z| == 1
    ensures PadRow([x, y, z], [4, 5, 4], [Left, Center, Right]) == [x + "   ", "  " + y + "  ", "   " + z]
  {
    PadExample(x);
    PadExample(y);
    PadExample(z);
  }

  lemma PaddedLetters()
    ensures ["a" + "   ", "  " + "b" + "  ", "   " + "c"] == ["a   ", "  b  ", "   c"]
  {
    assert "a" + "   " == "a   ";
    assert "  " + "b" + "  " == "  b  ";
    assert "   " + "c" == "   c";
  }

  lemma PaddedDigits()
    ensures ["1" + "   ", "  " + "2" + "  ", "   " + "3"] == ["1   ", "  2  ", "   3"]
    ensures ["4" + "   ", "  " + "5" + "  ", "   " + "6"] == ["4   ", "  5  ", "   6"]
  {
    assert "1" + "   " == "1   ";
    assert "  " + "2" + "  " == "  2  ";
    assert "   " + "3" == "   3";
    assert "4" + "   " == "4   ";
    assert "  " + "5" + "  " == "  5  ";
    assert "   " + "6" == "   6";
  }

  /** The pretty rendering pads left-aligned cells behind, right-aligned
      ones in front and centred ones on both sides. */
  lemma PrettyExample()
    ensures WellShaped(Table3x2) && NoAbsentCell(Table3x2)
    ensures PrettyText(Table3x2) ==
            "| a    |   b   |    c |" + "\n" + "| :--- | :---: | ---: |" + "\n" +
            "| 1    |   2   |    3 |" + "\n" + "| 4    |   5   |    6 |"
  {
    PrettyGrid3x2();
    PrettyLines3x2();
  }

  /** The padded cells of the example. */
  lemma PrettyGrid3x2()
    ensures WellShaped(Table3x2) && NoAbsentCell(Table3x2)
    ensures PrettyGrid(Table3x2) ==
            [["a   ", "  b  ", "   c"], [":---", ":---:", "---:"], ["1   ", "  2  ", "   3"], ["4   ", "  5  ", "   6"]]
  {
    PrettyHeader3x2();
    PrettySeparator3x2();
    PrettyBody3x2();
  }

  /** The padded lines of the example. */
  lemma PrettyLines3x2()
    ensures Render([["a   ", "  b  ", "   c"], [":---", ":---:", "---:"], ["1   ", "  2  ", "   3"], ["4   ", "  5  ", "   6"]]) ==
            "| a    |   b   |    c |" + "\n" + "| :--- | :---: | ---: |" + "\n" +
            "| 1    |   2   |    3 |" + "\n" + "| 4    |   5   |    6 |"
  {
    PrettyHeaderLine();
    SeparatorLine3x2();
    PrettyBodyLine1();
    PrettyBodyLine2();
    LinesExample(["a   ", "  b  ", "   c"], [":---", ":---:", "---:"],
                 ["1   ", "  2  ", "   3"], ["4   ", "  5  ", "   6"],
                 "| a    |   b   |    c |", "| :--- | :---: | ---: |",
                 "| 1    |   2   |    3 |", "| 4    |   5   |    6 |");
  }

  lemma CompactHeaderLine()
    ensures Line(["a", "b", "c"]) == "| a | b | c |"
  {
    Line3("a", "b", "c");
  }

  lemma SeparatorLine3x2()
    ensures Line([":---", ":---:", "---:"]) == "| :--- | :---: | ---: |"
  {
    Line3(":---", ":---:", "---:");
  }

  lemma PrettyHeaderLine()
    ensures Line(["a   ", "  b  ", "   c"]) == "| a    |   b   |    c |"
  {
    Line3("a   ", "  b  ", "   c");
  }

  lemma CompactBodyLine1()
    ensures Line(["1", "2", "3"]) == "| 1 | 2 | 3 |"
  {
    Line3("1", "2", "3");
  }

  lemma CompactBodyLine2()
    ensures Line(["4", "5", "6"]) == "| 4 | 5 | 6 |"
  {
    Line3("4", "5", "6");
  }

  lemma PrettyBodyLine1()
    ensures Line(["1   ", "  2  ", "   3"]) == "| 1    |   2   |    3 |"
  {
    Line3("1   ", "  2  ", "   3");
  }

  lemma PrettyBodyLine2()
    ensures Line(["4   ", "  5  ", "   6"]) == "| 4    |   5   |    6 |"
  {
    Line3("4   ", "  5  ", "   6");
  }
}
