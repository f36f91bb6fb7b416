/** The CSV helpers of src/csv.ts: splitting delimited text into rows and
    fields, and turning a list of flat records into a CSV array whose header
    row is discovered from the records' keys. */
module Csv {
  import opened Text

  /** A CSV cell: `string | number | boolean | null`; numbers are integers here. */
  datatype Cell = Str(s: string) | Num(n: int) | Bool(b: bool) | Null

  type Row = seq<Cell>
  type CSVHeader = seq<string>
  type CSVBody = seq<Row>

  /** `[CSVHeader, ...CSVBody]`: a header row of names followed by the data rows. */
  datatype CSV = CSV(header: CSVHeader, body: CSVBody)

  /** A flat JSON object: its own keys, in `Object.keys` order, with their values. */
  type Record = seq<(string, Cell)>

  /** A row of text cells, as the splitter produces it. The ensures spell
      the body out pointwise so that proofs need not unfold it. */
  function TextRow(fields: seq<string>): (row: Row)
    ensures |row| == |fields|
    ensures forall i :: 0 <= i < |row| ==> row[i] == Str(fields[i])
  {
    seq(|fields|, i requires 0 <= i < |fields| => Str(fields[i]))
  }

  /** The whole CSV array, header row first. */
  function AsRows(csv: CSV): seq<Row>
  {
    [TextRow(csv.header)] + csv.body
  }

  // ---------------------------------------------------------------------
  // Splitting: `split('\n')` and `split(/(?<!\\),/)`
  // ---------------------------------------------------------------------

  datatype Delim = LineBreak | Comma

  function SepChar(d: Delim): char
  {
    match d
    case LineBreak => '\n'
    case Comma => ','
  }

  /** Whether character `c`, preceded by `prev` (None at the start of the
      text), separates two pieces: every line break does; a comma does unless
      the character before it is a backslash (the look-behind `(?<!\\)`). */
  predicate Cuts(d: Delim, prev: Option<char>, c: char)
  {
    c == SepChar(d) && (d == Comma ==> prev != Some('\\'))
  }

  /** The pieces of `s` between separating characters; the separators are
      dropped and every other character (a backslash included) is kept. */
  function Split(s: string, d: Delim, prev: Option<char>): (parts: seq<string>)
    ensures |parts| > 0
    decreases |s|
  {
    if s == [] then [""]
    else
      var rest := Split(s[1..], d, Some(s[0]));
      if Cuts(d, prev, s[0]) then [""] + rest
      else [[s[0]] + rest[0]] + rest[1..]
  }

  function SplitLines(s: string): seq<string>
  {
    Split(s, LineBreak, None)
  }

  function SplitFields(line: string): seq<string>
  {
    Split(line, Comma, None)
  }

  /** Number of separating characters in `s`. */
  function CountCuts(s: string, d: Delim, prev: Option<char>): nat
    decreases |s|
  {
    if s == [] then 0
    else (if Cuts(d, prev, s[0]) then 1 else 0) + CountCuts(s[1..], d, Some(s[0]))
  }

  /** The character just before the end of `f`, when `f` follows `prev`. */
  function LastBefore(prev: Option<char>, f: string): Option<char>
  {
    if f == [] then prev else Some(f[|f| - 1])
  }

  /** No character of `f` (which follows `prev`) is a separating one. */
  predicate NoCutIn(d: Delim, prev: Option<char>, f: string)
  {
    forall q :: 0 <= q < |f| ==> !Cuts(d, LastBefore(prev, f[..q]), f[q])
  }

  /** `parts`, joined by the separator, is split back exactly into `parts`:
      no part holds a separating character, and the separator written after
      each part but the last does separate (a field must not end in a
      backslash, or the comma after it would be escaped). */
  predicate Separated(parts: seq<string>, d: Delim, prev: Option<char>)
    decreases |parts|
  {
    |parts| > 0 && NoCutIn(d, prev, parts[0]) &&
    (|parts| > 1 ==>
       Cuts(d, LastBefore(prev, parts[0]), SepChar(d)) &&
       Separated(parts[1..], d, Some(SepChar(d))))
  }

  lemma LastBeforeCons(prev: Option<char>, c: char, f: string)
    ensures LastBefore(prev, [c] + f) == LastBefore(Some(c), f)
  {
  }

  /** There is one more piece than there are separating characters. */
  lemma {:induction false} SplitCount(s: string, d: Delim, prev: Option<char>)
    ensures |Split(s, d, prev)| == CountCuts(s, d, prev) + 1
    decreases |s|
  {
    if s != [] {
      SplitCount(s[1..], d, Some(s[0]));
    }
  }

  /** Every line break separates, so lines are one more than line breaks. */
  lemma {:induction false} LineCount(s: string, prev: Option<char>)
    ensures |Split(s, LineBreak, prev)| == Count(s, '\n') + 1
    decreases |s|
  {
    if s != [] {
      LineCount(s[1..], Some(s[0]));
    }
  }

  /** Joining the pieces with the separator gives the text back. */
  lemma {:induction false} SplitJoin(s: string, d: Delim, prev: Option<char>)
    ensures Join(Split(s, d, prev), [SepChar(d)]) == s
    decreases |s|
  {
    if s != [] {
      SplitJoin(s[1..], d, Some(s[0]));
      SplitJoinStep(s, d, prev);
    }
  }

  /** One step of `SplitJoin`: the first character either separates or
      joins the first piece of the rest. */
  lemma SplitJoinStep(s: string, d: Delim, prev: Option<char>)
    requires s != []
    requires Join(Split(s[1..], d, Some(s[0])), [SepChar(d)]) == s[1..]
    ensures Join(Split(s, d, prev), [SepChar(d)]) == s
  {
    var sep := [SepChar(d)];
    var rest := Split(s[1..], d, Some(s[0]));
    var c := [s[0]];
    assert s == c + s[1..];
    if Cuts(d, prev, s[0]) {
      JoinCons("", rest, sep);
      assert "" + sep == c;
    } else {
      var r0 := rest[0];
      var r1 := rest[1..];
      assert Split(s, d, prev) == [c + r0] + r1;
      assert [r0] + r1 == rest;
      JoinCons(c + r0, r1, sep);
      JoinCons(r0, r1, sep);
      if r1 != [] {
        var j := Join(r1, sep);
        AppendAssoc(r0, sep, j);
        AppendAssoc(c + r0, sep, j);
        AppendAssoc(c, r0, sep + j);
      }
    }
  }

  /** The pieces never hold a separating character. */
  lemma {:induction false} SplitSeparated(s: string, d: Delim, prev: Option<char>)
    ensures Separated(Split(s, d, prev), d, prev)
    decreases |s|
  {
    if s != [] {
      var rest := Split(s[1..], d, Some(s[0]));
      SplitSeparated(s[1..], d, Some(s[0]));
      if Cuts(d, prev, s[0]) {
        assert ([""] + rest)[1..] == rest;
      } else {
        var f := [s[0]] + rest[0];
        var parts := [f] + rest[1..];
        assert parts[1..] == rest[1..];
        forall q | 0 <= q < |f|
          ensures !Cuts(d, LastBefore(prev, f[..q]), f[q])
        {
          if q > 0 {
            assert f[..q] == [s[0]] + rest[0][..q - 1];
            LastBeforeCons(prev, s[0], rest[0][..q - 1]);
            assert f[q] == rest[0][q - 1];
          }
        }
        LastBeforeCons(prev, s[0], rest[0]);
      }
    }
  }

  /** Splitting a text that starts with a piece free of separators. */
  lemma {:induction false} SplitPrefix(f: string, t: string, d: Delim, prev: Option<char>)
    requires NoCutIn(d, prev, f)
    ensures var r := Split(t, d, LastBefore(prev, f));
            Split(f + t, d, prev) == [f + r[0]] + r[1..]
    decreases |f|
  {
    if f == [] {
      assert f + t == t;
      var r := Split(t, d, prev);
      assert f + r[0] == r[0];
      assert [r[0]] + r[1..] == r;
    } else {
      var g := f[1..];
      assert f == [f[0]] + g;
      AppendAssoc([f[0]], g, t);
      assert f + t == [f[0]] + (g + t);
      assert (f + t)[1..] == g + t;
      assert !Cuts(d, LastBefore(prev, f[..0]), f[0]);
      forall q | 0 <= q < |g|
        ensures !Cuts(d, LastBefore(Some(f[0]), g[..q]), g[q])
      {
        assert f[..q + 1] == [f[0]] + g[..q];
        LastBeforeCons(prev, f[0], g[..q]);
        assert g[q] == f[q + 1];
      }
      var R := Split(g + t, d, Some(f[0]));
      assert Split(f + t, d, prev) == [[f[0]] + R[0]] + R[1..];
      SplitPrefix(g, t, d, Some(f[0]));
      assert f == [f[0]] + g;
      LastBeforeCons(prev, f[0], g);
      var S := Split(t, d, LastBefore(prev, f));
      assert R == [g + S[0]] + S[1..];
      AppendAssoc([f[0]], g, S[0]);
      assert [f[0]] + R[0] == f + S[0];
    }
  }

  lemma SplitAtCut(j: string, d: Delim, prev: Option<char>)
    requires Cuts(d, prev, SepChar(d))
    ensures Split([SepChar(d)] + j, d, prev) == [""] + Split(j, d, Some(SepChar(d)))
  {
    assert ([SepChar(d)] + j)[1..] == j;
  }

  /** Splitting undoes joining whenever the parts are separated. */
  lemma {:induction false} JoinSplit(parts: seq<string>, d: Delim, prev: Option<char>)
    requires Separated(parts, d, prev)
    ensures Split(Join(parts, [SepChar(d)]), d, prev) == parts
    decreases |parts|
  {
    var p := parts[0];
    var sep := [SepChar(d)];
    if |parts| == 1 {
      SplitPrefix(p, "", d, prev);
      assert p + "" == p;
    } else {
      var ps := parts[1..];
      assert parts == [p] + ps;
      JoinCons(p, ps, sep);
      var j := Join(ps, sep);
      SplitPrefix(p, sep + j, d, prev);
      JoinSplit(ps, d, Some(SepChar(d)));
      SplitAtCut(j, d, LastBefore(prev, p));
      AppendAssoc(p, sep, j);
      assert Join(parts, sep) == p + (sep + j);
      assert p + "" == p;
    }
  }

  /** The pieces of a text are exactly the separated sequences that join to it. */
  lemma SplitCharacterised(s: string, parts: seq<string>, d: Delim, prev: Option<char>)
    ensures parts == Split(s, d, prev) <==>
            Separated(parts, d, prev) && Join(parts, [SepChar(d)]) == s
  {
    if parts == Split(s, d, prev) {
      SplitSeparated(s, d, prev);
      SplitJoin(s, d, prev);
    }
    if Separated(parts, d, prev) && Join(parts, [SepChar(d)]) == s {
      JoinSplit(parts, d, prev);
    }
  }

  /** For lines the side condition is only that no part holds a line break. */
  lemma {:induction false} LinesSeparated(parts: seq<string>, prev: Option<char>)
    requires |parts| > 0
    requires forall k :: 0 <= k < |parts| ==> '\n' !in parts[k]
    ensures Separated(parts, LineBreak, prev)
    decreases |parts|
  {
    var f := parts[0];
    forall q | 0 <= q < |f| ensures !Cuts(LineBreak, LastBefore(prev, f[..q]), f[q]) {
      assert f[q] in f;
    }
    if |parts| > 1 {
      LinesSeparated(parts[1..], Some('\n'));
    }
  }

  // ---------------------------------------------------------------------
  // parseCsv / parseCsvBody
  // ---------------------------------------------------------------------

  /** `parseCsvBody`: every line of `data` becomes a row of its fields. */
  function ParseCsvBody(data: string): (rows: CSVBody)
    ensures |rows| == |SplitLines(data)| == Count(data, '\n') + 1
    ensures forall k :: 0 <= k < |rows| ==> rows[k] == TextRow(SplitFields(SplitLines(data)[k]))
  {
    var lines := SplitLines(data);
    LineCount(data, None);
    seq(|lines|, k requires 0 <= k < |lines| => TextRow(SplitFields(lines[k])))
  }

  /** `parseCsv`: the first line gives the header names, the others the rows. */
  function ParseCsv(data: string): CSV
  {
    var lines := SplitLines(data);
    CSV(SplitFields(lines[0]),
        seq(|lines| - 1, k requires 0 <= k < |lines| - 1 => TextRow(SplitFields(lines[k + 1]))))
  }

  /** Both parsers produce the same rows for the same text. */
  lemma ParseCsvAgreesWithBody(data: string)
    ensures AsRows(ParseCsv(data)) == ParseCsvBody(data)
  {
  }

  /** Line splitting does not look behind: the preceding character is irrelevant. */
  lemma {:induction false} LinesIgnorePrev(s: string, p: Option<char>, q: Option<char>)
    ensures Split(s, LineBreak, p) == Split(s, LineBreak, q)
    decreases |s|
  {
    if s != [] {
      LinesIgnorePrev(s[1..], Some(s[0]), Some(s[0]));
    }
  }

  /** A first line free of line breaks is split off whole. */
  lemma HeaderLineSplits(head: string, text: string)
    requires '\n' !in head
    ensures SplitLines(head + "\n" + text) == [head] + SplitLines(text)
  {
    LinesSeparated([head], None);
    assert NoCutIn(LineBreak, None, head);
    SplitPrefix(head, "\n" + text, LineBreak, None);
    var r := Split("\n" + text, LineBreak, LastBefore(None, head));
    SplitAtCut(text, LineBreak, LastBefore(None, head));
    assert r == [""] + Split(text, LineBreak, Some('\n'));
    LinesIgnorePrev(text, Some('\n'), None);
    assert head + "\n" + text == head + ("\n" + text);
    assert head + r[0] == head;
  }

  /** Reading the header row from the text or taking it as given agree:
      `parseCsv` of the names joined by `,`, a line break and then the body
      text, is the names followed by `parseCsvBody` of the body text. */
  lemma ParseHeaderLine(names: seq<string>, text: string)
    requires Separated(names, Comma, None)
    requires forall i :: 0 <= i < |names| ==> '\n' !in names[i]
    ensures ParseCsv(Join(names, ",") + "\n" + text) == CSV(names, ParseCsvBody(text))
  {
    var head := Join(names, ",");
    JoinAvoids(names, ",", '\n');
    HeaderLineSplits(head, text);
    JoinSplit(names, Comma, None);
    ParseFirstLine(head + "\n" + text, head, text);
  }

  /** A text whose lines are `head` and then those of `rest` parses into the
      fields of `head` over the rows of `rest`. */
  lemma ParseFirstLine(data: string, head: string, rest: string)
    requires SplitLines(data) == [head] + SplitLines(rest)
    ensures ParseCsv(data) == CSV(SplitFields(head), ParseCsvBody(rest))
  {
    var lines := SplitLines(data);
    var body := SplitLines(rest);
    forall k | 0 <= k < |lines| - 1
      ensures lines[k + 1] == body[k]
    {
    }
  }

  /** The text of a row that the splitter produced. */
  function Texts(row: Row): seq<string>
    requires forall i :: 0 <= i < |row| ==> row[i].Str?
  {
    seq(|row|, i requires 0 <= i < |row| => row[i].s)
  }

  /** Joining each row's fields with `,` and the rows with `\n` gives the
      parsed text back: the backslash before an escaped comma stays in its field. */
  lemma ParseCsvBodyRoundTrip(data: string)
    ensures var rows := ParseCsvBody(data);
            (forall k, i :: 0 <= k < |rows| && 0 <= i < |rows[k]| ==> rows[k][i].Str?) &&
            Join(seq(|rows|, k requires 0 <= k < |rows| => Join(Texts(rows[k]), ",")), "\n") == data
  {
    var lines := SplitLines(data);
    var rows := ParseCsvBody(data);
    var joined := seq(|rows|, k requires 0 <= k < |rows| => Join(Texts(rows[k]), ","));
    forall k | 0 <= k < |rows| ensures joined[k] == lines[k] {
      assert Texts(rows[k]) == SplitFields(lines[k]);
      SplitJoin(lines[k], Comma, None);
    }
    assert joined == lines;
    SplitJoin(data, LineBreak, None);
  }

  // ---------------------------------------------------------------------
  // jsonToCsv
  // ---------------------------------------------------------------------

  /** `Object.keys(record)`. */
  function Keys(rec: Record): (keys: seq<string>)
    ensures |keys| == |rec|
  {
    seq(|rec|, i requires 0 <= i < |rec| => rec[i].0)
  }

  /** `record[key] ?? null`. */
  function Lookup(rec: Record, key: string): Cell
    decreases |rec|
  {
    if rec == [] then Null
    else if rec[0].0 == key then rec[0].1
    else Lookup(rec[1..], key)
  }

  /** The keys not yet among the headers, in key order (the inner `for` of line 26). */
  function Missing(used: seq<string>, keys: seq<string>): seq<string>
    decreases |keys|
  {
    if keys == [] then []
    else Missing(used, keys[..|keys| - 1]) +
         (if keys[|keys| - 1] in used then [] else [keys[|keys| - 1]])
  }

  /** The headers after looking at one record without explicit headers:
      discovery only runs when the key count differs from the header count. */
  function Discover(used: seq<string>, rec: Record): seq<string>
  {
    var keys := Keys(rec);
    if |used| != |keys| then used + Missing(used, keys) else used
  }

  /** The header row once the first `n` records have been looked at. */
  function HeadersAfter(data: seq<Record>, n: nat, headers: Option<CSVHeader>): CSVHeader
    requires n <= |data|
    decreases n
  {
    match headers
    case Some(h) => h
    case None => if n == 0 then [] else Discover(HeadersAfter(data, n - 1, None), data[n - 1])
  }

  /** The cell `jsonToCsv` leaves for record `k` under header `j` of `hs`:
      its value (or null) if the header was known once the record was looked
      at, and a back-filled null if it was discovered later. */
  function Expected(data: seq<Record>, headers: Option<CSVHeader>, k: nat, hs: CSVHeader, j: nat): Cell
    requires k < |data| && j < |hs|
  {
    if j < |KnownAt(data, headers, k)| then Lookup(data[k], hs[j]) else Null
  }

  /** The header row right after record `k` was looked at. */
  function KnownAt(data: seq<Record>, headers: Option<CSVHeader>, k: nat): CSVHeader
    requires k < |data|
  {
    HeadersAfter(data, k + 1, headers)
  }

  /** The CSV array `jsonToCsv` returns, in closed form. */
  function JsonCsv(data: seq<Record>, headers: Option<CSVHeader>): CSV
  {
    var hs := HeadersAfter(data, |data|, headers);
    CSV(hs, seq(|data|, k requires 0 <= k < |data| =>
                  seq(|hs|, j requires 0 <= j < |hs| => Expected(data, headers, k, hs, j))))
  }

  /** The rows emitted for the first `|rows|` records, against header row `hs`:
      every row is exactly as wide as the header row. */
  ghost predicate Emitted(data: seq<Record>, headers: Option<CSVHeader>, rows: CSVBody, hs: CSVHeader)
  {
    |rows| <= |data| &&
    forall k :: 0 <= k < |rows| ==>
      |rows[k]| == |hs| &&
      forall j :: 0 <= j < |hs| ==> rows[k][j] == Expected(data, headers, k, hs, j)
  }

  /** Padding every emitted row with one null per new header keeps them in step. */
  lemma BackFill(data: seq<Record>, headers: Option<CSVHeader>, rows: CSVBody, hs: CSVHeader,
                 extra: seq<string>, padded: CSVBody)
    requires Emitted(data, headers, rows, hs)
    requires forall k :: 0 <= k < |rows| ==> |KnownAt(data, headers, k)| <= |hs|
    requires |padded| == |rows|
    requires forall k :: 0 <= k < |rows| ==> padded[k] == rows[k] + seq(|extra|, _ => Null)
    ensures Emitted(data, headers, padded, hs + extra)
  {
    forall k, j | 0 <= k < |padded| && 0 <= j < |hs + extra|
      ensures padded[k][j] == Expected(data, headers, k, hs + extra, j)
    {
      if j < |hs| {
        assert padded[k][j] == rows[k][j];
        assert (hs + extra)[j] == hs[j];
      }
    }
  }

  /** The row pushed for record `n` fits the header row known after it. */
  lemma PushRow(data: seq<Record>, headers: Option<CSVHeader>, rows: CSVBody, n: nat)
    requires n < |data| && |rows| == n
    requires Emitted(data, headers, rows, HeadersAfter(data, n + 1, headers))
    ensures var hs := HeadersAfter(data, n + 1, headers);
            Emitted(data, headers,
                    rows + [seq(|hs|, j requires 0 <= j < |hs| => Lookup(data[n], hs[j]))], hs)
  {
  }

  /** Line 26: the keys not among the headers, collected in key order. */
  method CollectMissing(used: seq<string>, keys: seq<string>) returns (missing: seq<string>)
    ensures missing == Missing(used, keys)
  {
    missing := [];
    for i := 0 to |keys|
      invariant missing == Missing(used, keys[..i])
    {
      assert keys[..i + 1][..i] == keys[..i];
      if keys[i] !in used {
        missing := missing + [keys[i]];
      }
    }
    assert keys[..|keys|] == keys;
  }

  /** Line 27: every row emitted so far gets one null per new header. */
  method AppendNulls(rows: CSVBody, count: nat) returns (padded: CSVBody)
    ensures |padded| == |rows|
    ensures forall k :: 0 <= k < |rows| ==> padded[k] == rows[k] + seq(count, _ => Null)
  {
    var nulls := seq(count, _ => Null);
    padded := rows;
    for i := 0 to |rows|
      invariant |padded| == |rows|
      invariant forall k :: 0 <= k < i ==> padded[k] == rows[k] + nulls
      invariant forall k :: i <= k < |rows| ==> padded[k] == rows[k]
    {
      padded := padded[i := padded[i] + nulls];
    }
  }

  /** `jsonToCsv(data, headers)`: the loop of lines 21-32, back-filling the
      rows already emitted with nulls, in place, whenever new keys turn up. */
  method JsonToCsv(data: seq<Record>, headers: Option<CSVHeader>) returns (csv: CSV)
    ensures csv == JsonCsv(data, headers)
  {
    var usedHeaders: CSVHeader := if headers.Some? then headers.value else [];
    var result: CSVBody := [];
    for n := 0 to |data|
      invariant usedHeaders == HeadersAfter(data, n, headers)
      invariant |result| == n
      invariant Emitted(data, headers, result, usedHeaders)
    {
      var jsonRow := data[n];
      var keys := Keys(jsonRow);
      if headers.None? && |usedHeaders| != |keys| {
        var missing := CollectMissing(usedHeaders, keys);
        ghost var before := result;
        result := AppendNulls(result, |missing|);
        forall k | 0 <= k < n ensures |KnownAt(data, headers, k)| <= |usedHeaders| {
          HeadersGrow(data, k + 1, n, headers);
        }
        BackFill(data, headers, before, usedHeaders, missing, result);
        usedHeaders := usedHeaders + missing;
      }
      PushRow(data, headers, result, n);
      result := result + [seq(|usedHeaders|, j requires 0 <= j < |usedHeaders| => Lookup(jsonRow, usedHeaders[j]))];
    }
    EmittedAll(data, headers, result);
    csv := CSV(usedHeaders, result);
  }

  lemma EmittedAll(data: seq<Record>, headers: Option<CSVHeader>, rows: CSVBody)
    requires |rows| == |data| && Emitted(data, headers, rows, HeadersAfter(data, |data|, headers))
    ensures CSV(HeadersAfter(data, |data|, headers), rows) == JsonCsv(data, headers)
  {
    var hs := HeadersAfter(data, |data|, headers);
    var body := JsonCsv(data, headers).body;
    forall k | 0 <= k < |data| ensures rows[k] == body[k] {
      assert |rows[k]| == |body[k]|;
      forall j | 0 <= j < |hs| ensures rows[k][j] == body[k][j] {
      }
    }
  }

  /** The header row only ever grows at its end. */
  lemma {:induction false} HeadersGrow(data: seq<Record>, n: nat, m: nat, headers: Option<CSVHeader>)
    requires n <= m <= |data|
    ensures HeadersAfter(data, n, headers) <= HeadersAfter(data, m, headers)
    decreases m
  {
    if n < m && headers.None? {
      HeadersGrow(data, n, m - 1, headers);
    }
  }

  /** Membership in the missing keys, and their number: exactly the record's
      keys not yet used, never more than there are keys. */
  lemma {:induction false} MissingKeys(used: seq<string>, keys: seq<string>)
    ensures forall x :: x in Missing(used, keys) <==> x in keys && x !in used
    ensures |Missing(used, keys)| <= |keys|
    decreases |keys|
  {
    if keys != [] {
      var init := keys[..|keys| - 1];
      MissingKeys(used, init);
      assert keys == init + [keys[|keys| - 1]];
    }
  }

  /** No name occurs twice. */
  predicate Distinct(xs: seq<string>)
  {
    forall i, j :: 0 <= i < j < |xs| ==> xs[i] != xs[j]
  }

  /** The missing keys of a record hold no name twice. */
  lemma {:induction false} MissingDistinct(used: seq<string>, keys: seq<string>)
    requires Distinct(keys)
    ensures Distinct(Missing(used, keys))
    decreases |keys|
  {
    if keys != [] {
      var init := keys[..|keys| - 1];
      var last := keys[|keys| - 1];
      assert Distinct(init);
      MissingDistinct(used, init);
      MissingKeys(used, init);
      assert last !in init by {
        forall i | 0 <= i < |init| ensures init[i] != last {
          assert init[i] == keys[i];
        }
      }
    }
  }

  /** Without explicit headers, and with records whose keys are distinct
      (as `Object.keys` always is), the discovered header row holds no name twice. */
  lemma {:induction false} HeadersDistinct(data: seq<Record>, n: nat)
    requires n <= |data|
    requires forall k :: 0 <= k < |data| ==> Distinct(Keys(data[k]))
    ensures Distinct(HeadersAfter(data, n, None))
    decreases n
  {
    if n > 0 {
      var used := HeadersAfter(data, n - 1, None);
      var keys := Keys(data[n - 1]);
      HeadersDistinct(data, n - 1);
      if |used| != |keys| {
        var extra := Missing(used, keys);
        MissingDistinct(used, keys);
        MissingKeys(used, keys);
        var hs := used + extra;
        forall i, j | 0 <= i < j < |hs| ensures hs[i] != hs[j] {
          if j >= |used| && i < |used| {
            assert hs[j] == extra[j - |used|];
            assert hs[j] !in used;
          }
        }
      }
    }
  }

  /** A record whose key count differs from the header count has all its
      keys in the header row afterwards, after the earlier headers. */
  lemma RecordKeysKnown(data: seq<Record>, n: nat)
    requires n < |data|
    requires |Keys(data[n])| != |HeadersAfter(data, n, None)|
    ensures HeadersAfter(data, n, None) <= HeadersAfter(data, n + 1, None)
    ensures forall x :: x in Keys(data[n]) ==> x in HeadersAfter(data, n + 1, None)
  {
    MissingKeys(HeadersAfter(data, n, None), Keys(data[n]));
  }

  /** Discovery is skipped when the key count equals the header count, even
      if the keys differ: the header row stays as it was. */
  lemma EqualCountKeepsHeaders(data: seq<Record>, n: nat)
    requires n < |data|
    requires |Keys(data[n])| == |HeadersAfter(data, n, None)|
    ensures HeadersAfter(data, n + 1, None) == HeadersAfter(data, n, None)
  {
  }

  /** Concretely: from `[{a: 1}, {b: 2}]` the key `b` is never discovered. */
  lemma EqualCountDropsKey()
    ensures JsonCsv(TwoRecords, None) == CSV(["a"], [[Num(1)], [Null]])
  {
    TwoRecordsHeaders();
    var csv := JsonCsv(TwoRecords, None);
    assert csv.body[0] == [Num(1)] by {
      assert Expected(TwoRecords, None, 0, ["a"], 0) == Lookup(TwoRecords[0], "a") == Num(1);
    }
    assert csv.body[1] == [Null] by {
      assert Expected(TwoRecords, None, 1, ["a"], 0) == Lookup(TwoRecords[1], "a") == Null;
    }
  }

  /** The records `{a: 1}`, `{b: 2}`. */
  const TwoRecords: seq<Record> := [[("a", Num(1))], [("b", Num(2))]]

  /** The second record has as many keys as there are headers, so its key is not looked at. */
  lemma TwoRecordsHeaders()
    ensures HeadersAfter(TwoRecords, 1, None) == ["a"]
    ensures HeadersAfter(TwoRecords, 2, None) == ["a"]
  {
    assert HeadersAfter(TwoRecords, 1, None) == ["a"] by {
      assert Keys(TwoRecords[0]) == ["a"];
      assert Missing([], ["a"]) == ["a"];
    }
    assert |Keys(TwoRecords[1])| == 1;
  }

  /** With explicit headers the header row is fixed and every cell is the
      record's value under that header, or null. */
  lemma ExplicitHeaders(data: seq<Record>, h: CSVHeader)
    ensures var csv := JsonCsv(data, Some(h));
            csv.header == h && |csv.body| == |data| &&
            forall k :: 0 <= k < |data| ==>
              |csv.body[k]| == |h| &&
              forall j :: 0 <= j < |h| ==> csv.body[k][j] == Lookup(data[k], h[j])
  {
  }

  /** The records `{a: 1}`, `{a: 2, c: 3}`, `{a: 4, b: 5, c: 6}`. */
  const ThreeRecords: seq<Record> :=
    [[("a", Num(1))], [("a", Num(2)), ("c", Num(3))],
     [("a", Num(4)), ("b", Num(5)), ("c", Num(6))]]

  /** New keys are appended in the order they turn up: the header row of
      the three records grows from `a` to `a, c` to `a, c, b`. */
  lemma ThreeRecordsHeaders()
    ensures HeadersAfter(ThreeRecords, 1, None) == ["a"]
    ensures HeadersAfter(ThreeRecords, 2, None) == ["a", "c"]
    ensures HeadersAfter(ThreeRecords, 3, None) == ["a", "c", "b"]
  {
    FirstDiscovery();
    SecondDiscovery();
    ThirdDiscovery();
  }

  lemma FirstDiscovery()
    ensures Discover([], ThreeRecords[0]) == ["a"]
  {
    assert Keys(ThreeRecords[0]) == ["a"];
    assert Missing([], ["a"]) == ["a"];
  }

  lemma SecondDiscovery()
    ensures Discover(["a"], ThreeRecords[1]) == ["a", "c"]
  {
    assert Keys(ThreeRecords[1]) == ["a", "c"];
    assert Missing(["a"], ["a"]) == [];
    assert Missing(["a"], ["a", "c"]) == ["c"];
  }

  lemma ThirdDiscovery()
    ensures Discover(["a", "c"], ThreeRecords[2]) == ["a", "c", "b"]
  {
    assert Keys(ThreeRecords[2]) == ["a", "b", "c"];
    assert Missing(["a", "c"], ["a"]) == [];
    assert Missing(["a", "c"], ["a", "b"]) == ["b"];
    assert Missing(["a", "c"], ["a", "b", "c"]) == ["b"];
  }

  /** Earlier rows are back-filled with nulls for the keys found later. */
  lemma BackFilledExample()
    ensures JsonCsv(ThreeRecords, None) ==
            CSV(["a", "c", "b"],
                [[Num(1), Null, Null], [Num(2), Num(3), Null], [Num(4), Num(6), Num(5)]])
  {
    ThreeRecordsHeaders();
    FirstRecordCells();
    SecondRecordCells();
    ThirdRecordCells();
    var csv := JsonCsv(ThreeRecords, None);
    JsonCsvRow(ThreeRecords, 0, Num(1), Null, Null);
    JsonCsvRow(ThreeRecords, 1, Num(2), Num(3), Null);
    JsonCsvRow(ThreeRecords, 2, Num(4), Num(6), Num(5));
    assert csv.body == [csv.body[0], csv.body[1], csv.body[2]];
  }

  /** A row of a three-column result is given by its three expected cells. */
  lemma JsonCsvRow(data: seq<Record>, k: nat, c0: Cell, c1: Cell, c2: Cell)
    requires k < |data|
    requires var hs := HeadersAfter(data, |data|, None);
             |hs| == 3 && Expected(data, None, k, hs, 0) == c0 &&
             Expected(data, None, k, hs, 1) == c1 && Expected(data, None, k, hs, 2) == c2
    ensures JsonCsv(data, None).body[k] == [c0, c1, c2]
  {
  }

  lemma FirstRecordCells()
    ensures Expected(ThreeRecords, None, 0, ["a", "c", "b"], 0) == Num(1)
    ensures Expected(ThreeRecords, None, 0, ["a", "c", "b"], 1) == Null
    ensures Expected(ThreeRecords, None, 0, ["a", "c", "b"], 2) == Null
  {
    FirstDiscovery();
    assert Lookup(ThreeRecords[0], "a") == Num(1);
  }

  lemma SecondRecordCells()
    ensures Expected(ThreeRecords, None, 1, ["a", "c", "b"], 0) == Num(2)
    ensures Expected(ThreeRecords, None, 1, ["a", "c", "b"], 1) == Num(3)
    ensures Expected(ThreeRecords, None, 1, ["a", "c", "b"], 2) == Null
  {
    FirstDiscovery();
    SecondDiscovery();
    assert Lookup(ThreeRecords[1], "a") == Num(2) && Lookup(ThreeRecords[1], "c") == Num(3);
  }

  lemma ThirdRecordCells()
    ensures Expected(ThreeRecords, None, 2, ["a", "c", "b"], 0) == Num(4)
    ensures Expected(ThreeRecords, None, 2, ["a", "c", "b"], 1) == Num(6)
    ensures Expected(ThreeRecords, None, 2, ["a", "c", "b"], 2) == Num(5)
  {
    ThreeRecordsHeaders();
    assert Lookup(ThreeRecords[2], "a") == Num(4) && Lookup(ThreeRecords[2], "c") == Num(6);
    assert Lookup(ThreeRecords[2], "b") == Num(5);
  }
}
