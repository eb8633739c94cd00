/** Exporting results. `csvEscape` (app.js:1720-1729) turns one value into
    cell text, quoting it when it holds a quote, a comma or a newline;
    `toCsv` (app.js:1704-1718) writes a header line of the first row's keys
    and one line per row, joined with CRLF. The lemmas read the emitted lines
    back with the loader's own splitter. */
module CsvExport {
  import opened JsString
  import opened Seqs
  import opened Csv
  import opened PropertyOrder

  /** `str.replace(/"/g, '""')`. */
  function DoubleQuotes(s: string): (r: string)
    ensures |r| >= |s|
  {
    if s == [] then []
    else (if s[0] == '"' then "\"\"" else [s[0]]) + DoubleQuotes(s[1..])
  }

  /** `/[",\n]/.test(str)`. */
  predicate NeedsQuoting(s: string) {
    Contains(s, '"') || Contains(s, ',') || Contains(s, '\n')
  }

  /** The text half of `csvEscape`: quoted, with quotes doubled, when it needs
      quoting; unchanged otherwise. */
  function EscapeText(s: string): (r: string)
    ensures NeedsQuoting(s) ==> |r| >= 2 && r[0] == '"' && r[|r| - 1] == '"'
    ensures !NeedsQuoting(s) ==> r == s
  {
    if NeedsQuoting(s) then "\"" + DoubleQuotes(s) + "\"" else s
  }

  /** The text a value stands for in the export: nothing for `null` and
      `undefined`, `String(value)` otherwise. */
  function CellText(v: JsValue): (r: string)
    ensures v.Str? ==> r == v.s
    ensures v.Null? || v.Undefined? ==> r == []
  {
    if v.Null? || v.Undefined? then [] else ToJsString(v)
  }

  /** `csvEscape(value)`. */
  function CsvEscape(v: JsValue): (r: string)
    ensures v.Null? || v.Undefined? ==> r == []
  {
    if v.Null? || v.Undefined? then ""
    else
      var str := ToJsString(v);
      if NeedsQuoting(str) then "\"" + DoubleQuotes(str) + "\"" else str
  }

  /** Escaping a value is escaping the text it stands for. */
  lemma CsvEscapeIsEscapeText(v: JsValue)
    ensures CsvEscape(v) == EscapeText(CellText(v))
  {
  }

  /** Booleans and integers are never quoted. */
  lemma {:induction false} PlainNumbersUnquoted(v: JsValue)
    requires v.Bool? || v.Int?
    ensures CsvEscape(v) == ToJsString(v)
  {
    var str := ToJsString(v);
    if v.Int? {
      DecimalHasNoMark(v.i);
    }
    assert !NeedsQuoting(str);
  }

  lemma DecimalHasNoMark(i: int)
    ensures forall k :: 0 <= k < |IntToDecimal(i)| ==>
      IntToDecimal(i)[k] != '"' && IntToDecimal(i)[k] != ',' && IntToDecimal(i)[k] != '\n'
  {
    var d := IntToDecimal(i);
    assert forall k :: 0 <= k < |d| ==> IsDigit(d[k]) || d[k] == '-' by {
      if i < 0 {
        assert forall k :: 1 <= k < |d| ==> d[k] == d[1..][k - 1];
      }
    }
  }

  // --- reading an escaped cell back -----------------------------------

  /** Inside quotes, doubled quotes followed by the closing quote read as the
      original text, and the scan leaves the quotes, under either rule. */
  lemma {:induction false} InsideScan(x: string, st: CellScan, rule: QuoteRule)
    requires st.inside
    ensures ScanCells(DoubleQuotes(x) + "\"", st, rule) == st.(current := st.current + x, inside := false)
    decreases |x|
  {
    if x == [] {
      InsideClose(st, rule);
    } else {
      InsideCons(x, st, rule);
      InsideScan(x[1..], st.(current := st.current + [x[0]]), rule);
      AppendHead(st.current, x);
    }
  }

  /** The closing quote ends the quoted stretch. */
  lemma InsideClose(st: CellScan, rule: QuoteRule)
    requires st.inside
    ensures ScanCells(DoubleQuotes([]) + "\"", st, rule) == st.(current := st.current + [], inside := false)
  {
    assert DoubleQuotes([]) + "\"" == "\"";
    assert AdvanceCell("\"", st, rule) == (st.(inside := false), 1);
    assert st.current + [] == st.current;
  }

  /** Inside quotes, the written form of the first character reads as it. */
  lemma InsideCons(x: string, st: CellScan, rule: QuoteRule)
    requires st.inside && x != []
    ensures ScanCells(DoubleQuotes(x) + "\"", st, rule)
            == ScanCells(DoubleQuotes(x[1..]) + "\"", st.(current := st.current + [x[0]]), rule)
  {
    var tail := DoubleQuotes(x[1..]) + "\"";
    assert DoubleQuotes(x) + "\"" == Doubled(x[0]) + tail;
    InsideStep(x[0], tail, st, rule);
  }

  lemma AppendHead(a: string, x: string)
    requires x != []
    ensures a + [x[0]] + x[1..] == a + x
  {
    assert [x[0]] + x[1..] == x;
  }

  /** One character as `DoubleQuotes` writes it. */
  function Doubled(c: char): string {
    if c == '"' then "\"\"" else [c]
  }

  /** Inside quotes, a written character is read as itself. */
  lemma InsideStep(c: char, tail: string, st: CellScan, rule: QuoteRule)
    requires st.inside
    ensures ScanCells(Doubled(c) + tail, st, rule) == ScanCells(tail, st.(current := st.current + [c]), rule)
  {
    var rest := Doubled(c) + tail;
    var next := st.(current := st.current + [c]);
    if c == '"' {
      assert rest[..2] == "\"\"";
      assert AdvanceCell(rest, st, rule) == (next, 2);
      assert rest[2..] == tail;
    } else {
      assert rest[0] == c;
      assert AdvanceCell(rest, st, rule) == (next, 1);
      assert rest[1..] == tail;
    }
  }

  /** `"` + doubled text + `"`. */
  function Quoted(s: string): string {
    "\"" + DoubleQuotes(s) + "\""
  }

  /** Read under RFC 4180, a quoted part is the text it quotes. */
  lemma QuotedReadsAsStrict(s: string)
    ensures ReadsAs(Quoted(s), s, PairsInsideQuotes)
  {
    forall done: seq<string>
      ensures ScanCells(Quoted(s), CellScan(done, "", false), PairsInsideQuotes) == CellScan(done, s, false)
    {
      var st := CellScan(done, "", false);
      var rest := Quoted(s);
      assert AdvanceCell(rest, st, PairsInsideQuotes) == (st.(inside := true), 1);
      assert rest[1..] == DoubleQuotes(s) + "\"";
      InsideScan(s, st.(inside := true), PairsInsideQuotes);
      assert "" + s == s;
    }
  }

  /** Text made only of quotes, the empty text included. */
  predicate AllQuotes(s: string) {
    forall i :: 0 <= i < |s| ==> s[i] == '"'
  }

  /** What `splitCsvLine` reads from `Quoted(s)`: the opening quote pairs with
      a leading quote of the text, so text made only of quotes gains one. */
  function ReadBack(s: string): (r: string)
    ensures !AllQuotes(s) ==> r == s
    ensures AllQuotes(s) ==> r == s + "\""
  {
    if AllQuotes(s) then s + "\"" else s
  }

  lemma {:induction false} OutsideScan(s: string, st: CellScan)
    requires !st.inside
    ensures ScanCells(Quoted(s), st, PairsAnywhere) == st.(current := st.current + ReadBack(s))
    decreases |s|
  {
    if s == [] {
      assert Quoted(s) == "\"\"" + [];
      OutsidePair([], st);
    } else if s[0] == '"' {
      OutsideLeadingQuote(s, st);
      OutsideScan(s[1..], st.(current := st.current + ['"']));
      ReadBackLeadingQuote(s);
      AppendQuote(st.current, ReadBack(s[1..]));
    } else {
      OutsideOther(s, st);
    }
  }

  /** A leading quote of the text pairs with the opening quote. */
  lemma OutsideLeadingQuote(s: string, st: CellScan)
    requires !st.inside && s != [] && s[0] == '"'
    ensures ScanCells(Quoted(s), st, PairsAnywhere)
            == ScanCells(Quoted(s[1..]), st.(current := st.current + ['"']), PairsAnywhere)
  {
    QuotedLeadingQuote(s);
    OutsidePair(Quoted(s[1..]), st);
  }

  lemma AppendQuote(a: string, r: string)
    ensures a + ['"'] + r == a + ("\"" + r)
  {
  }

  lemma QuotedLeadingQuote(s: string)
    requires s != [] && s[0] == '"'
    ensures Quoted(s) == "\"\"" + Quoted(s[1..])
  {
    assert DoubleQuotes(s) == "\"\"" + DoubleQuotes(s[1..]);
  }

  /** Any other first character leaves the opening quote to open the field. */
  lemma OutsideOther(s: string, st: CellScan)
    requires !st.inside && s != [] && s[0] != '"'
    ensures ScanCells(Quoted(s), st, PairsAnywhere) == st.(current := st.current + ReadBack(s))
  {
    var tail := DoubleQuotes(s) + "\"";
    assert Quoted(s) == "\"" + tail;
    assert tail[0] == s[0];
    OutsideOpen(tail, st);
    InsideScan(s, st.(inside := true), PairsAnywhere);
    assert ReadBack(s) == s by {
      assert !AllQuotes(s) by {
        assert s[0] != '"';
      }
    }
  }

  /** Outside quotes `splitCsvLine` reads a doubled quote as a literal quote. */
  lemma OutsidePair(tail: string, st: CellScan)
    requires !st.inside
    ensures ScanCells("\"\"" + tail, st, PairsAnywhere)
            == ScanCells(tail, st.(current := st.current + ['"']), PairsAnywhere)
  {
    var rest := "\"\"" + tail;
    assert rest[0] == '"' && rest[1] == '"';
    assert rest[2..] == tail;
  }

  /** A quote not followed by another opens a quoted stretch. */
  lemma OutsideOpen(tail: string, st: CellScan)
    requires !st.inside && tail != [] && tail[0] != '"'
    ensures ScanCells("\"" + tail, st, PairsAnywhere) == ScanCells(tail, st.(inside := true), PairsAnywhere)
  {
    var rest := "\"" + tail;
    assert rest[0] == '"' && rest[1] == tail[0];
    assert rest[1..] == tail;
  }

  lemma ReadBackLeadingQuote(s: string)
    requires s != [] && s[0] == '"'
    ensures ReadBack(s) == "\"" + ReadBack(s[1..])
  {
    assert s == "\"" + s[1..];
    if !AllQuotes(s) {
      var i :| 0 <= i < |s| && s[i] != '"';
      assert s[1..][i - 1] == s[i];
    }
  }

  /** Read by `splitCsvLine`, a quoted part is `ReadBack` of the text it quotes. */
  lemma QuotedReadsAsWritten(s: string)
    ensures ReadsAs(Quoted(s), ReadBack(s), PairsAnywhere)
  {
    forall done: seq<string>
      ensures ScanCells(Quoted(s), CellScan(done, "", false), PairsAnywhere) == CellScan(done, ReadBack(s), false)
    {
      OutsideScan(s, CellScan(done, "", false));
      assert "" + ReadBack(s) == ReadBack(s);
    }
  }

  /** An escaped cell reads back as the cell under RFC 4180. */
  lemma EscapedReadsAsStrict(s: string)
    ensures ReadsAs(EscapeText(s), s, PairsInsideQuotes)
  {
    if NeedsQuoting(s) {
      QuotedReadsAsStrict(s);
    } else {
      PlainReadsAs(s, PairsInsideQuotes);
    }
  }

  /** An escaped cell reads back as `ReadBack` of the cell under `splitCsvLine`
      when it was quoted, and as the cell when it was not. */
  lemma EscapedReadsAsWritten(s: string)
    ensures ReadsAs(EscapeText(s), if NeedsQuoting(s) then ReadBack(s) else s, PairsAnywhere)
  {
    if NeedsQuoting(s) {
      QuotedReadsAsWritten(s);
    } else {
      PlainReadsAs(s, PairsAnywhere);
    }
  }

  /** A cell made only of quotes is one that `splitCsvLine` misreads. */
  predicate Misread(s: string) {
    s != [] && AllQuotes(s)
  }

  lemma ReadBackOfEscaped(s: string)
    requires !Misread(s)
    ensures (if NeedsQuoting(s) then ReadBack(s) else s) == s
  {
    if s == [] {
      assert !NeedsQuoting(s);
    }
  }

  /** Reading back a line of escaped cells. */
  function EscapedLine(cells: seq<string>): string {
    Join(Map(EscapeText, cells), ",")
  }

  lemma FinishTrimmed(cells: seq<string>)
    requires |cells| >= 1 && AllTrimmed(cells)
    ensures FinishCells(CellScan(Map(Trim, cells[..|cells| - 1]), cells[|cells| - 1], false)) == cells
  {
    var n := |cells| - 1;
    forall i | 0 <= i < n ensures Trim(cells[..n][i]) == cells[i] {
      TrimmedIsFixed(cells[i]);
    }
    TrimmedIsFixed(cells[n]);
    assert Map(Trim, cells[..n]) + [Trim(cells[n])] == cells;
  }

  /** Trimmed cells, escaped and joined with commas, split back into the same
      cells under RFC 4180. */
  lemma EscapedLineStrict(cells: seq<string>)
    requires |cells| >= 1 && AllTrimmed(cells)
    ensures SplitCsvLineStrict(EscapedLine(cells)) == cells
  {
    var parts := Map(EscapeText, cells);
    forall i | 0 <= i < |parts| ensures ReadsAs(parts[i], cells[i], PairsInsideQuotes) {
      EscapedReadsAsStrict(cells[i]);
    }
    SplitJoined(parts, cells, PairsInsideQuotes);
    FinishTrimmed(cells);
  }

  /** `splitCsvLine` reads them back too, unless a cell is made only of quotes. */
  lemma EscapedLineAsWritten(cells: seq<string>)
    requires |cells| >= 1 && AllTrimmed(cells)
    requires forall i :: 0 <= i < |cells| ==> !Misread(cells[i])
    ensures SplitCsvLine(EscapedLine(cells)) == cells
  {
    var parts := Map(EscapeText, cells);
    forall i | 0 <= i < |parts| ensures ReadsAs(parts[i], cells[i], PairsAnywhere) {
      EscapedReadsAsWritten(cells[i]);
      ReadBackOfEscaped(cells[i]);
    }
    SplitJoined(parts, cells, PairsAnywhere);
    FinishTrimmed(cells);
  }

  /** A cell made only of quotes comes back with one quote more: the cell `"`
      is written `""""` and read as `""`. */
  lemma MisreadCell(s: string)
    requires Misread(s)
    ensures SplitCsvLine(EscapedLine([s])) == [s + "\""]
    ensures SplitCsvLineStrict(EscapedLine([s])) == [s]
  {
    assert Contains(s, '"') by {
      assert s[0] == '"';
    }
    var read := s + "\"";
    assert Map(EscapeText, [s]) == [Quoted(s)];
    QuotedReadsAsWritten(s);
    assert ScanCells(Quoted(s), CellStart, PairsAnywhere) == CellScan([], read, false);
    assert IsTrimmed(read) by {
      assert read[0] == '"' && read[|read| - 1] == '"';
    }
    TrimmedIsFixed(read);
    EscapedLineStrict([s]) by {
      assert IsTrimmed(s) by {
        assert s[0] == '"' && s[|s| - 1] == '"';
      }
    }
  }

  // --- whole export ----------------------------------------------------

  /** A result row: its keys in insertion order and its field values. A key
      not among the fields reads as `undefined`. */
  datatype ExportRow = ExportRow(order: seq<string>, fields: map<string, JsValue>)

  /** `row[header]`. */
  function FieldOf(row: ExportRow, header: string): (v: JsValue)
    ensures header !in row.fields ==> v.Undefined?
  {
    if header in row.fields then row.fields[header] else Undefined
  }

  /** The headers `toCsv` writes: the first row's `Object.keys`, or the
      supplied header keys when there are no rows. */
  function Headers(rows: seq<ExportRow>, headerKeys: seq<string>): seq<string> {
    if |rows| > 0 then ObjectKeys(rows[0].order) else headerKeys
  }

  /** The texts of one row under the headers, in header order. */
  function RowTexts(headers: seq<string>, row: ExportRow): (texts: seq<string>)
    ensures |texts| == |headers|
    ensures forall j :: 0 <= j < |headers| ==> texts[j] == CellText(FieldOf(row, headers[j]))
  {
    if headers == [] then []
    else
      var n := |headers| - 1;
      RowTexts(headers[..n], row) + [CellText(FieldOf(row, headers[n]))]
  }

  /** `values.join(',')` for one row. */
  function RowLine(headers: seq<string>, row: ExportRow): (line: string)
    ensures line == EscapedLine(RowTexts(headers, row))
  {
    var cells := Map((h: string) => CsvEscape(FieldOf(row, h)), headers);
    assert cells == Map(EscapeText, RowTexts(headers, row)) by {
      forall j | 0 <= j < |headers| ensures cells[j] == EscapeText(RowTexts(headers, row)[j]) {
        CsvEscapeIsEscapeText(FieldOf(row, headers[j]));
      }
    }
    Join(cells, ",")
  }

  /** The row lines, one per row, in order. */
  function RowLines(headers: seq<string>, rows: seq<ExportRow>): (lines: seq<string>)
    ensures |lines| == |rows|
    ensures forall i :: 0 <= i < |rows| ==> lines[i] == RowLine(headers, rows[i])
  {
    if rows == [] then []
    else
      var n := |rows| - 1;
      RowLines(headers, rows[..n]) + [RowLine(headers, rows[n])]
  }

  /** The `lines` array of `toCsv`: the header line, then the row lines. */
  function ExportLines(rows: seq<ExportRow>, headerKeys: seq<string>): seq<string> {
    var headers := Headers(rows, headerKeys);
    [Join(headers, ",")] + RowLines(headers, rows)
  }

  /** `toCsv(rows, headerKeys)`: nothing when there are no headers. */
  function ToCsv(rows: seq<ExportRow>, headerKeys: seq<string>): (csv: string)
    ensures Headers(rows, headerKeys) == [] ==> csv == []
  {
    var headers := Headers(rows, headerKeys);
    if headers == [] then "" else Join(ExportLines(rows, headerKeys), "\r\n")
  }

  /** With headers, the export is one header line and one line per row, each
      row line reading back, under RFC 4180, as the row's texts in header
      order, and the header line as the headers when they need no quoting. */
  lemma ToCsvReadsBack(rows: seq<ExportRow>, headerKeys: seq<string>, i: nat)
    requires Headers(rows, headerKeys) != [] && i < |rows|
    requires AllTrimmed(RowTexts(Headers(rows, headerKeys), rows[i]))
    ensures var lines := ExportLines(rows, headerKeys);
      && ToCsv(rows, headerKeys) == Join(lines, "\r\n")
      && |lines| == |rows| + 1
      && SplitCsvLineStrict(lines[i + 1]) == RowTexts(Headers(rows, headerKeys), rows[i])
  {
    var headers := Headers(rows, headerKeys);
    var lines := ExportLines(rows, headerKeys);
    var texts := RowTexts(headers, rows[i]);
    assert lines[i + 1] == EscapedLine(texts) by {
      assert lines[i + 1] == RowLines(headers, rows)[i];
    }
    EscapedLineStrict(texts);
  }

  /** The loader's own splitter reads a row line back as well, provided no
      cell text is made only of quotes. */
  lemma ToCsvReadsBackAsWritten(rows: seq<ExportRow>, headerKeys: seq<string>, i: nat)
    requires Headers(rows, headerKeys) != [] && i < |rows|
    requires AllTrimmed(RowTexts(Headers(rows, headerKeys), rows[i]))
    requires forall j :: 0 <= j < |Headers(rows, headerKeys)| ==> !Misread(RowTexts(Headers(rows, headerKeys), rows[i])[j])
    ensures SplitCsvLine(ExportLines(rows, headerKeys)[i + 1]) == RowTexts(Headers(rows, headerKeys), rows[i])
  {
    var headers := Headers(rows, headerKeys);
    var lines := ExportLines(rows, headerKeys);
    var texts := RowTexts(headers, rows[i]);
    assert lines[i + 1] == EscapedLine(texts) by {
      assert lines[i + 1] == RowLines(headers, rows)[i];
    }
    EscapedLineAsWritten(texts);
  }

  /** Headers are written without escaping: plain headers read back as the
      headers themselves. */
  lemma HeaderLineReadsBack(rows: seq<ExportRow>, headerKeys: seq<string>)
    requires Headers(rows, headerKeys) != []
    requires forall j :: 0 <= j < |Headers(rows, headerKeys)| ==> PlainCell(Headers(rows, headerKeys)[j])
    ensures SplitCsvLine(ExportLines(rows, headerKeys)[0]) == Headers(rows, headerKeys)
  {
    var headers := Headers(rows, headerKeys);
    SplitPlainLine(headers, PairsAnywhere);
    forall j | 0 <= j < |headers| ensures Trim(headers[j]) == headers[j] {
      TrimmedIsFixed(headers[j]);
    }
    assert Map(Trim, headers) == headers;
  }

  /** Supplied header keys are ignored once there is a row: a first row with
      no keys yields an empty export. */
  lemma FirstRowWithoutKeys(rows: seq<ExportRow>, headerKeys: seq<string>)
    requires |rows| > 0 && rows[0].order == []
    ensures ToCsv(rows, headerKeys) == []
  {
    assert Filter(IsArrayIndex, rows[0].order) == [];
    assert Filter(IsNamedKey, rows[0].order) == [];
  }
}
