/** Loading the stimulus table. `splitCsvLine` (app.js:209-233) splits one
    line into trimmed cells; `parseCsv` (app.js:154-207) drops a leading byte
    order mark, normalises line breaks, cuts the text into lines at newlines
    outside quotes and turns every non-blank line after the header into a
    record keyed by the header cells. */
module Csv {
  import opened JsString
  import opened Rows
  import opened Seqs

  /** Where a doubled quote `""` stands for one literal quote. `splitCsvLine`
      reads it so wherever it occurs; section 2 of RFC 4180 only inside a
      quoted field. */
  datatype QuoteRule = PairsAnywhere | PairsInsideQuotes

  /** The loop state of `splitCsvLine`: the cells pushed so far, the cell
      being read and whether the scan is inside quotes. */
  datatype CellScan = CellScan(done: seq<string>, current: string, inside: bool)

  const CellStart: CellScan := CellScan([], "", false)

  /** One iteration of the loop: the next state and how many characters it
      consumed. */
  function AdvanceCell(rest: string, st: CellScan, rule: QuoteRule): (r: (CellScan, nat))
    requires rest != []
    ensures 1 <= r.1 <= |rest|
  {
    if rest[0] == '"' && |rest| > 1 && rest[1] == '"' && (rule == PairsAnywhere || st.inside) then
      (st.(current := st.current + ['"']), 2)
    else if rest[0] == '"' then
      (st.(inside := !st.inside), 1)
    else if rest[0] == ',' && !st.inside then
      (CellScan(st.done + [Trim(st.current)], "", st.inside), 1)
    else
      (st.(current := st.current + [rest[0]]), 1)
  }

  /** The loop over the characters still to read. */
  function ScanCells(rest: string, st: CellScan, rule: QuoteRule): CellScan
    decreases |rest|
  {
    if rest == [] then st
    else
      var (next, used) := AdvanceCell(rest, st, rule);
      ScanCells(rest[used..], next, rule)
  }

  /** After the loop: the cell being read is pushed, trimmed. */
  function FinishCells(st: CellScan): (cells: seq<string>)
    ensures |cells| == |st.done| + 1
  {
    st.done + [Trim(st.current)]
  }

  /** `splitCsvLine(line)`. */
  function SplitCsvLine(line: string): (cells: seq<string>)
    ensures |cells| >= 1
  {
    FinishCells(ScanCells(line, CellStart, PairsAnywhere))
  }

  /** `splitCsvLine` with a doubled quote read as a literal quote only inside
      a quoted field, as RFC 4180 reads it. */
  function SplitCsvLineStrict(line: string): (cells: seq<string>)
    ensures |cells| >= 1
  {
    FinishCells(ScanCells(line, CellStart, PairsInsideQuotes))
  }

  lemma TrimmedIsFixed(s: string)
    requires IsTrimmed(s)
    ensures Trim(s) == s
  {
    TrimOfPadded([], s, []);
    assert [] + s + [] == s;
  }

  ghost predicate AllTrimmed(cells: seq<string>) {
    forall i :: 0 <= i < |cells| ==> IsTrimmed(cells[i])
  }

  lemma {:induction false} ScanCellsTrimmed(rest: string, st: CellScan, rule: QuoteRule)
    requires AllTrimmed(st.done)
    ensures AllTrimmed(ScanCells(rest, st, rule).done)
    decreases |rest|
  {
    if rest != [] {
      var (next, used) := AdvanceCell(rest, st, rule);
      TrimSpec(st.current);
      assert AllTrimmed(next.done);
      ScanCellsTrimmed(rest[used..], next, rule);
    }
  }

  /** Every cell `splitCsvLine` returns is trimmed. */
  lemma SplitCsvLineTrimmed(line: string)
    ensures AllTrimmed(SplitCsvLine(line))
  {
    var st := ScanCells(line, CellStart, PairsAnywhere);
    ScanCellsTrimmed(line, CellStart, PairsAnywhere);
    TrimSpec(st.current);
  }

  /** Reading `a + b` is reading `a` and then `b`, provided no doubled quote
      straddles the boundary. */
  lemma {:induction false} ScanCellsAppend(a: string, b: string, st: CellScan, rule: QuoteRule)
    requires a == [] || b == [] || a[|a| - 1] != '"' || b[0] != '"'
    ensures ScanCells(a + b, st, rule) == ScanCells(b, ScanCells(a, st, rule), rule)
    decreases |a|
  {
    if a == [] {
      assert a + b == b;
    } else {
      var (next, used) := AdvanceCell(a, st, rule);
      AdvanceCellAppend(a, b, st, rule);
      assert (a + b)[used..] == a[used..] + b;
      ScanCellsAppend(a[used..], b, next, rule);
    }
  }

  lemma AdvanceCellAppend(a: string, b: string, st: CellScan, rule: QuoteRule)
    requires a != []
    requires b == [] || a[|a| - 1] != '"' || b[0] != '"'
    ensures AdvanceCell(a + b, st, rule) == AdvanceCell(a, st, rule)
  {
    assert (a + b)[0] == a[0];
    if |a| > 1 {
      assert (a + b)[1] == a[1];
    }
  }

  /** Text without quotes or commas is appended to the current cell as is. */
  lemma {:induction false} ScanCellsPlain(s: string, st: CellScan, rule: QuoteRule)
    requires forall i :: 0 <= i < |s| ==> s[i] != '"' && s[i] != ','
    ensures ScanCells(s, st, rule) == st.(current := st.current + s)
    decreases |s|
  {
    if s == [] {
      assert st.current + s == st.current;
    } else {
      ScanCellsPlain(s[1..], st.(current := st.current + [s[0]]), rule);
      assert st.current + [s[0]] + s[1..] == st.current + s;
    }
  }

  /** `part` is read as the cell `cell`, whatever the cells before it. */
  ghost predicate ReadsAs(part: string, cell: string, rule: QuoteRule) {
    forall done: seq<string> {:trigger CellScan(done, "", false)} ::
      ScanCells(part, CellScan(done, "", false), rule) == CellScan(done, cell, false)
  }

  /** Parts that each read as a cell, joined with commas, split back into
      those cells, trimmed. */
  lemma {:induction false} SplitJoined(parts: seq<string>, cells: seq<string>, rule: QuoteRule)
    requires |parts| == |cells| >= 1
    requires forall i :: 0 <= i < |parts| ==> ReadsAs(parts[i], cells[i], rule)
    ensures ScanCells(Join(parts, ","), CellStart, rule)
            == CellScan(Map(Trim, cells[..|cells| - 1]), cells[|cells| - 1], false)
    decreases |parts|
  {
    var n := |parts| - 1;
    assert ReadsAs(parts[n], cells[n], rule);
    if n == 0 {
      assert ScanCells(parts[0], CellScan([], "", false), rule) == CellScan([], cells[0], false);
      assert Map(Trim, cells[..0]) == [];
    } else {
      SplitJoined(parts[..n], cells[..n], rule);
      assert cells[..n][..n - 1] == cells[..n - 1];
      SplitJoinedStep(parts, cells, rule);
    }
  }

  lemma SplitJoinedStep(parts: seq<string>, cells: seq<string>, rule: QuoteRule)
    requires |parts| == |cells| >= 2
    requires ReadsAs(parts[|parts| - 1], cells[|parts| - 1], rule)
    requires var n := |parts| - 1;
      ScanCells(Join(parts[..n], ","), CellStart, rule) == CellScan(Map(Trim, cells[..n - 1]), cells[n - 1], false)
    ensures ScanCells(Join(parts, ","), CellStart, rule)
            == CellScan(Map(Trim, cells[..|cells| - 1]), cells[|cells| - 1], false)
  {
    var n := |parts| - 1;
    var init := Join(parts[..n], ",");
    var before := CellScan(Map(Trim, cells[..n - 1]), cells[n - 1], false);
    var done := Map(Trim, cells[..n - 1]) + [Trim(cells[n - 1])];
    assert Join(parts, ",") == init + "," + parts[n] by {
      assert parts[..n] + [parts[n]] == parts;
    }
    assert ScanCells(init + ",", CellStart, rule) == CellScan(done, "", false) by {
      ScanCellsAppend(init, ",", CellStart, rule);
    }
    assert ScanCells(init + "," + parts[n], CellStart, rule) == CellScan(done, cells[n], false) by {
      ScanCellsAppend(init + ",", parts[n], CellStart, rule);
    }
    assert done == Map(Trim, cells[..n]);
  }

  /** Cells without quotes or commas, joined with commas, split back into the
      same cells, trimmed: every comma outside quotes ends a cell. */
  lemma SplitPlainLine(cells: seq<string>, rule: QuoteRule)
    requires |cells| >= 1
    requires forall i, j :: 0 <= i < |cells| && 0 <= j < |cells[i]| ==> cells[i][j] != '"' && cells[i][j] != ','
    ensures FinishCells(ScanCells(Join(cells, ","), CellStart, rule)) == Map(Trim, cells)
  {
    forall i | 0 <= i < |cells| ensures ReadsAs(cells[i], cells[i], rule) {
      PlainReadsAs(cells[i], rule);
    }
    SplitJoined(cells, cells, rule);
    assert Map(Trim, cells[..|cells| - 1]) + [Trim(cells[|cells| - 1])] == Map(Trim, cells);
  }

  /** An empty quoted field, `""`, is read as one literal quote. */
  lemma EmptyQuotedFieldAsWritten()
    ensures ReadsAs("\"\"", "\"", PairsAnywhere)
  {
    forall done: seq<string>
      ensures ScanCells("\"\"", CellScan(done, "", false), PairsAnywhere) == CellScan(done, "\"", false)
    {
      var st := CellScan(done, "", false);
      assert st.current + ['"'] == "\"";
      assert AdvanceCell("\"\"", st, PairsAnywhere) == (CellScan(done, "\"", false), 2);
    }
  }

  /** Read as RFC 4180 reads it, the same field is empty. */
  lemma EmptyQuotedFieldStrict()
    ensures ReadsAs("\"\"", "", PairsInsideQuotes)
  {
    forall done: seq<string>
      ensures ScanCells("\"\"", CellScan(done, "", false), PairsInsideQuotes) == CellScan(done, "", false)
    {
      var st := CellScan(done, "", false);
      assert AdvanceCell("\"\"", st, PairsInsideQuotes) == (CellScan(done, "", true), 1);
      assert AdvanceCell("\"", CellScan(done, "", true), PairsInsideQuotes) == (CellScan(done, "", false), 1);
    }
  }

  /** So in a line `a,"",b` the middle cell is a quote where RFC 4180 reads
      an empty cell. */
  lemma EmptyQuotedFieldLine(a: string, b: string)
    requires PlainCell(a) && PlainCell(b)
    ensures SplitCsvLine(a + ",\"\"," + b) == [a, "\"", b]
  {
    EmptyQuotedFieldAsWritten();
    ThreeCellLine(a, "\"\"", "\"", b, PairsAnywhere);
    assert a + "," + "\"\"" + "," + b == a + ",\"\"," + b;
  }

  lemma EmptyQuotedFieldLineStrict(a: string, b: string)
    requires PlainCell(a) && PlainCell(b)
    ensures SplitCsvLineStrict(a + ",\"\"," + b) == [a, "", b]
  {
    EmptyQuotedFieldStrict();
    ThreeCellLine(a, "\"\"", "", b, PairsInsideQuotes);
    assert a + "," + "\"\"" + "," + b == a + ",\"\"," + b;
  }

  /** A line of two plain cells around a part that reads as a trimmed cell. */
  lemma ThreeCellLine(a: string, part: string, cell: string, b: string, rule: QuoteRule)
    requires PlainCell(a) && PlainCell(b) && IsTrimmed(cell)
    requires ReadsAs(part, cell, rule)
    ensures FinishCells(ScanCells(a + "," + part + "," + b, CellStart, rule)) == [a, cell, b]
  {
    var cells := [a, cell, b];
    assert a + "," + part + "," + b == Join([a, part, b], ",") by {
      JoinThree(a, part, b);
    }
    assert ScanCells(Join([a, part, b], ","), CellStart, rule) == CellScan(Map(Trim, cells[..2]), b, false) by {
      PlainReadsAs(a, rule);
      PlainReadsAs(b, rule);
      SplitJoined([a, part, b], cells, rule);
    }
    assert Map(Trim, cells[..2]) == [a, cell] by {
      TrimmedIsFixed(a);
      TrimmedIsFixed(cell);
    }
    TrimmedIsFixed(b);
  }

  /** A cell that needs no quoting and survives trimming. */
  predicate PlainCell(s: string) {
    IsTrimmed(s) && forall i :: 0 <= i < |s| ==> s[i] != '"' && s[i] != ','
  }

  lemma JoinThree(a: string, b: string, c: string)
    ensures Join([a, b, c], ",") == a + "," + b + "," + c
  {
    assert [a, b, c][..2] == [a, b];
    assert [a, b][..1] == [a];
  }

  /** A part without quotes or commas reads as itself. */
  lemma PlainReadsAs(part: string, rule: QuoteRule)
    requires forall i :: 0 <= i < |part| ==> part[i] != '"' && part[i] != ','
    ensures ReadsAs(part, part, rule)
  {
    forall done: seq<string> ensures ScanCells(part, CellScan(done, "", false), rule) == CellScan(done, part, false) {
      ScanCellsPlain(part, CellScan(done, "", false), rule);
      assert "" + part == part;
    }
  }

  /** `text.replace(/^[\uFEFF]/, '')`: one leading byte order mark is dropped. */
  function StripBom(text: string): (r: string)
    ensures text != [] && text[0] == '\U{FEFF}' ==> text == ['\U{FEFF}'] + r
    ensures (text == [] || text[0] != '\U{FEFF}') ==> r == text
  {
    if text != [] && text[0] == '\U{FEFF}' then text[1..] else text
  }

  /** `text.replace(/\r\n/g, '\n')`. */
  function ReplaceCrLf(s: string): (r: string)
    ensures |r| <= |s|
  {
    if |s| >= 2 && s[0] == '\r' && s[1] == '\n' then "\n" + ReplaceCrLf(s[2..])
    else if s == [] then []
    else [s[0]] + ReplaceCrLf(s[1..])
  }

  /** `text.replace(/\r/g, '\n')`. */
  function ReplaceCr(s: string): (r: string)
    ensures |r| == |s|
    ensures forall i :: 0 <= i < |s| ==> r[i] == (if s[i] == '\r' then '\n' else s[i])
  {
    seq(|s|, i requires 0 <= i < |s| => if s[i] == '\r' then '\n' else s[i])
  }

  /** The two replacements in the order `parseCsv` applies them. */
  function NormalizeNewlines(s: string): (r: string)
    ensures forall i :: 0 <= i < |r| ==> r[i] != '\r'
  {
    ReplaceCr(ReplaceCrLf(s))
  }

  /** The reference reading of a line break: a `\r\n` pair and a lone `\r`
      each become one `\n`, in a single pass from the left. */
  function OnePassNewlines(s: string): string {
    if s == [] then []
    else if s[0] == '\r' && |s| >= 2 && s[1] == '\n' then "\n" + OnePassNewlines(s[2..])
    else if s[0] == '\r' then "\n" + OnePassNewlines(s[1..])
    else [s[0]] + OnePassNewlines(s[1..])
  }

  /** The two global replacements agree with the single pass. */
  lemma {:induction false} NormalizeIsOnePass(s: string)
    ensures NormalizeNewlines(s) == OnePassNewlines(s)
  {
    if s != [] {
      var k := if s[0] == '\r' && |s| >= 2 && s[1] == '\n' then 2 else 1;
      NormalizeIsOnePass(s[k..]);
      var head := if k == 2 then "\n" else [s[0]];
      assert ReplaceCrLf(s) == head + ReplaceCrLf(s[k..]);
      assert ReplaceCr(head + ReplaceCrLf(s[k..])) == ReplaceCr(head) + ReplaceCr(ReplaceCrLf(s[k..]));
    }
  }

  /** Text without carriage returns is left as it is. */
  lemma {:induction false} NormalizeWithoutCr(s: string)
    requires forall i :: 0 <= i < |s| ==> s[i] != '\r'
    ensures NormalizeNewlines(s) == s
  {
    NormalizeIsOnePass(s);
    OnePassWithoutCr(s);
  }

  lemma {:induction false} OnePassWithoutCr(s: string)
    requires forall i :: 0 <= i < |s| ==> s[i] != '\r'
    ensures OnePassNewlines(s) == s
  {
    if s != [] {
      OnePassWithoutCr(s[1..]);
      assert [s[0]] + s[1..] == s;
    }
  }

  /** The loop state of the line cutter in `parseCsv`: the lines pushed so
      far, the line being read and whether the scan is inside quotes. */
  datatype LineScan = LineScan(rows: seq<string>, buffer: string, inside: bool)

  const LineStart: LineScan := LineScan([], "", false)

  /** One iteration: a doubled quote is kept as two characters and does not
      toggle; a single quote is kept and toggles; a newline outside quotes
      ends the line. */
  function AdvanceLine(rest: string, st: LineScan): (r: (LineScan, nat))
    requires rest != []
    ensures 1 <= r.1 <= |rest|
  {
    if rest[0] == '"' && |rest| > 1 && rest[1] == '"' then
      (st.(buffer := st.buffer + "\"\""), 2)
    else if rest[0] == '"' then
      (LineScan(st.rows, st.buffer + ['"'], !st.inside), 1)
    else if rest[0] == '\n' && !st.inside then
      (LineScan(st.rows + [st.buffer], "", st.inside), 1)
    else
      (st.(buffer := st.buffer + [rest[0]]), 1)
  }

  function ScanLines(rest: string, st: LineScan): LineScan
    decreases |rest|
  {
    if rest == [] then st
    else
      var (next, used) := AdvanceLine(rest, st);
      ScanLines(rest[used..], next)
  }

  /** The lines of the normalised text; a last line is kept only when it is
      not empty. */
  function SplitLines(text: string): seq<string> {
    var st := ScanLines(text, LineStart);
    if |st.buffer| > 0 then st.rows + [st.buffer] else st.rows
  }

  /** What the line cutter has read so far, newlines put back. */
  function Emitted(st: LineScan): string {
    Join(st.rows + [st.buffer], "\n")
  }

  lemma JoinSnoc(xs: seq<string>, y: string, sep: string)
    ensures Join(xs + [y], sep) == if xs == [] then y else Join(xs, sep) + sep + y
  {
    if xs != [] {
      assert (xs + [y])[..|xs|] == xs;
    }
  }

  /** Growing the last line grows the joined text by as much. */
  lemma JoinGrowLast(xs: seq<string>, b: string, t: string, sep: string)
    ensures Join(xs + [b + t], sep) == Join(xs + [b], sep) + t
  {
    JoinSnoc(xs, b, sep);
    JoinSnoc(xs, b + t, sep);
  }

  /** Ending the line puts the newline back. */
  lemma JoinEndLine(xs: seq<string>, b: string)
    ensures Join(xs + [b] + [""], "\n") == Join(xs + [b], "\n") + "\n"
  {
    JoinSnoc(xs + [b], "", "\n");
  }

  lemma AdvanceLineEmits(rest: string, st: LineScan)
    requires rest != []
    ensures Emitted(AdvanceLine(rest, st).0) == Emitted(st) + rest[..AdvanceLine(rest, st).1]
  {
    if rest[0] == '"' && |rest| > 1 && rest[1] == '"' {
      assert rest[..2] == "\"\"";
      JoinGrowLast(st.rows, st.buffer, "\"\"", "\n");
    } else if rest[0] == '"' {
      assert rest[..1] == ['"'];
      JoinGrowLast(st.rows, st.buffer, ['"'], "\n");
    } else if rest[0] == '\n' && !st.inside {
      assert rest[..1] == "\n";
      JoinEndLine(st.rows, st.buffer);
    } else {
      assert rest[..1] == [rest[0]];
      JoinGrowLast(st.rows, st.buffer, [rest[0]], "\n");
    }
  }

  lemma {:induction false} ScanLinesEmits(rest: string, st: LineScan)
    ensures Emitted(ScanLines(rest, st)) == Emitted(st) + rest
    decreases |rest|
  {
    if rest == [] {
      assert Emitted(st) + rest == Emitted(st);
    } else {
      var step := AdvanceLine(rest, st);
      AdvanceLineEmits(rest, st);
      ScanLinesEmits(rest[step.1..], step.0);
      assert rest[..step.1] + rest[step.1..] == rest;
    }
  }

  /** Putting a newline between the lines gives the text back, but for a
      final newline, which ends the last line and starts none. */
  lemma SplitLinesRejoin(text: string)
    ensures text == Join(SplitLines(text), "\n") || text == Join(SplitLines(text), "\n") + "\n"
  {
    var st := ScanLines(text, LineStart);
    ScanLinesEmits(text, LineStart);
    assert Emitted(LineStart) == "";
    assert text == Join(st.rows + [st.buffer], "\n");
    if |st.buffer| == 0 {
      JoinSnoc(st.rows, st.buffer, "\n");
      if st.rows != [] {
        assert Join(st.rows, "\n") + "\n" + st.buffer == Join(st.rows, "\n") + "\n";
      }
    }
  }

  /** Reading a stretch without quotes, then the rest, is reading the rest
      from where the stretch left off. */
  lemma {:induction false} ScanLinesAppend(x: string, y: string, st: LineScan)
    requires '"' !in x
    ensures ScanLines(x + y, st) == ScanLines(y, ScanLines(x, st))
    decreases |x|
  {
    if x != [] {
      assert x[0] in x;
      var next := if x[0] == '\n' && !st.inside then LineScan(st.rows + [st.buffer], "", st.inside)
                  else st.(buffer := st.buffer + [x[0]]);
      assert AdvanceLine(x, st) == (next, 1);
      assert AdvanceLine(x + y, st) == (next, 1);
      assert ScanLines(x, st) == ScanLines(x[1..], next);
      assert ScanLines(x + y, st) == ScanLines((x + y)[1..], next);
      assert (x + y)[1..] == x[1..] + y;
      assert '"' !in x[1..] by {
        assert forall k :: 0 <= k < |x[1..]| ==> x[1..][k] == x[k + 1];
      }
      ScanLinesAppend(x[1..], y, next);
    } else {
      assert x + y == y;
    }
  }

  /** Characters other than quotes, and newlines only inside quotes, are
      added to the current line. */
  lemma {:induction false} ScanLinesWord(w: string, st: LineScan)
    requires '"' !in w
    requires !st.inside ==> '\n' !in w
    ensures ScanLines(w, st) == st.(buffer := st.buffer + w)
    decreases |w|
  {
    if w != [] {
      assert w[0] in w;
      assert forall k :: 0 <= k < |w[1..]| ==> w[1..][k] == w[k + 1];
      var next := st.(buffer := st.buffer + [w[0]]);
      assert AdvanceLine(w, st) == (next, 1);
      ScanLinesWord(w[1..], next);
      assert st.buffer + [w[0]] + w[1..] == st.buffer + w;
    }
  }

  /** A quote that does not start a doubled quote is kept and toggles. */
  lemma ScanLinesLoneQuote(y: string, st: LineScan)
    requires y == [] || y[0] != '"'
    ensures ScanLines(['"'] + y, st) == ScanLines(y, LineScan(st.rows, st.buffer + ['"'], !st.inside))
  {
    assert (['"'] + y)[1..] == y;
  }

  /** A newline outside quotes ends the current line. */
  lemma ScanLinesNewline(y: string, st: LineScan)
    requires !st.inside
    ensures ScanLines("\n" + y, st) == ScanLines(y, LineScan(st.rows + [st.buffer], "", false))
  {
    assert ("\n" + y)[1..] == y;
  }

  /** A line without quotes and newlines. */
  predicate PlainLine(l: string) {
    '"' !in l && '\n' !in l
  }

  lemma {:induction false} JoinLacks(ls: seq<string>, c: char)
    requires forall i :: 0 <= i < |ls| ==> c !in ls[i]
    requires c != '\n'
    ensures c !in Join(ls, "\n")
  {
    if |ls| > 1 {
      JoinLacks(ls[..|ls| - 1], c);
    }
  }

  /** Newlines outside quotes cut the text: lines without quotes joined by
      newlines are read back one for one, when the last one is not empty. */
  lemma {:induction false} SplitLinesOfPlainLines(ls: seq<string>)
    requires forall i :: 0 <= i < |ls| ==> PlainLine(ls[i])
    requires ls != [] ==> ls[|ls| - 1] != []
    ensures SplitLines(Join(ls, "\n")) == ls
  {
    if ls != [] {
      ScanPlainLines(ls);
    }
  }

  lemma {:induction false} ScanPlainLines(ls: seq<string>)
    requires ls != []
    requires forall i :: 0 <= i < |ls| ==> PlainLine(ls[i])
    ensures ScanLines(Join(ls, "\n"), LineStart) == LineScan(ls[..|ls| - 1], ls[|ls| - 1], false)
  {
    var last := ls[|ls| - 1];
    if |ls| == 1 {
      ScanLinesWord(last, LineStart);
      assert [] + last == last;
    } else {
      var init := ls[..|ls| - 1];
      assert forall i :: 0 <= i < |init| ==> init[i] == ls[i];
      ScanPlainLines(init);
      JoinLacks(init, '"');
      JoinLast(ls);
      ScanNextPlainLine(Join(init, "\n"), init, last);
    }
  }

  lemma JoinLast(ls: seq<string>)
    requires |ls| > 1
    ensures Join(ls, "\n") == Join(ls[..|ls| - 1], "\n") + ("\n" + ls[|ls| - 1])
  {
    var init := ls[..|ls| - 1];
    assert Join(ls, "\n") == Join(init, "\n") + "\n" + ls[|ls| - 1];
  }

  /** One more plain line after lines already cut. */
  lemma ScanNextPlainLine(before: string, init: seq<string>, last: string)
    requires init != [] && PlainLine(last) && '"' !in before
    requires ScanLines(before, LineStart) == LineScan(init[..|init| - 1], init[|init| - 1], false)
    ensures ScanLines(before + ("\n" + last), LineStart) == LineScan(init, last, false)
  {
    ScanLinesAppend(before, "\n" + last, LineStart);
    ScanAfterNewline(init, last);
  }

  lemma ScanAfterNewline(init: seq<string>, last: string)
    requires init != [] && PlainLine(last)
    ensures ScanLines("\n" + last, LineScan(init[..|init| - 1], init[|init| - 1], false)) == LineScan(init, last, false)
  {
    ScanLinesNewline(last, LineScan(init[..|init| - 1], init[|init| - 1], false));
    assert init[..|init| - 1] + [init[|init| - 1]] == init;
    ScanLinesWord(last, LineScan(init, "", false));
    assert "" + last == last;
  }

  /** A quoted stretch without quotes inside, followed by something other
      than a quote, is added to the current line whatever it holds. */
  lemma ScanQuoted(b: string, rest: string, st: LineScan)
    requires !st.inside && '"' !in b && b != []
    requires rest == [] || rest[0] != '"'
    ensures ScanLines(['"'] + (b + (['"'] + rest)), st)
         == ScanLines(rest, st.(buffer := st.buffer + ['"'] + b + ['"']))
  {
    assert b[0] in b;
    var open := LineScan(st.rows, st.buffer + ['"'], true);
    ScanLinesLoneQuote(b + (['"'] + rest), st);
    ScanLinesAppend(b, ['"'] + rest, open);
    ScanLinesWord(b, open);
    ScanLinesLoneQuote(rest, open.(buffer := open.buffer + b));
  }

  /** A newline between an opening and a closing quote does not cut the
      line: a line holding one quoted stretch, followed by a newline and a
      plain line, is read as those two lines. */
  lemma SplitLinesQuotedNewline(a: string, b: string, c: string, d: string)
    requires PlainLine(a) && PlainLine(c) && PlainLine(d) && d != []
    requires '"' !in b && b != []
    ensures var q := a + "\"" + b + "\"" + c;
      SplitLines(q + "\n" + d) == [q, d]
  {
    var q := a + "\"" + b + "\"" + c;
    var r5 := "\n" + d;
    var r4 := c + r5;
    assert r4 != [] && r4[0] != '"' by {
      if c != [] { assert c[0] in c; }
    }
    var r1 := ['"'] + (b + (['"'] + r4));
    assert q + "\n" + d == a + r1;
    ScanLinesAppend(a, r1, LineStart);
    ScanLinesWord(a, LineStart);
    assert [] + a == a;
    ScanQuoted(b, r4, LineScan([], a, false));
    var s3 := LineScan([], a + ['"'] + b + ['"'], false);
    ScanLinesAppend(c, r5, s3);
    ScanLinesWord(c, s3);
    assert a + ['"'] + b + ['"'] + c == q;
    ScanLinesNewline(d, LineScan([], q, false));
    assert [] + [q] == [q];
    ScanLinesWord(d, LineScan([q], "", false));
    assert "" + d == d;
  }

  /** The record a data line becomes: every header is a key, with the cell
      at the same position, or `''` past the last cell; a header that occurs
      twice keeps its later cell. */
  function MakeRecord(headers: seq<string>, values: seq<string>): (record: Row)
    ensures record.Keys == set h | h in headers
  {
    if headers == [] then map[]
    else
      var n := |headers| - 1;
      MakeRecord(headers[..n], values)[headers[n] := CellAt(values, n)]
  }

  function CellAt(values: seq<string>, i: nat): string {
    if i < |values| then values[i] else ""
  }

  /** The value of a header is the cell under its last occurrence. */
  lemma {:induction false} MakeRecordAt(headers: seq<string>, values: seq<string>, j: nat)
    requires j < |headers|
    requires forall k :: j < k < |headers| ==> headers[k] != headers[j]
    ensures MakeRecord(headers, values)[headers[j]] == CellAt(values, j)
  {
    var n := |headers| - 1;
    if j < n {
      assert headers[..n][j] == headers[j];
      MakeRecordAt(headers[..n], values, j);
    }
  }

  /** A record built from trimmed cells holds trimmed values only. */
  lemma MakeRecordTrimmed(headers: seq<string>, values: seq<string>)
    requires AllTrimmed(values)
    ensures forall k :: k in MakeRecord(headers, values) ==> IsTrimmed(MakeRecord(headers, values)[k])
  {
    MakeRecordValues(headers, values);
  }

  lemma {:induction false} MakeRecordValues(headers: seq<string>, values: seq<string>)
    ensures forall k :: k in MakeRecord(headers, values) ==>
      exists j :: 0 <= j < |headers| && MakeRecord(headers, values)[k] == CellAt(values, j)
  {
    if headers != [] {
      MakeRecordValues(headers[..|headers| - 1], values);
    }
  }

  predicate HasContent(line: string) {
    Trim(line) != []
  }

  /** The lines `parseCsv` reads. */
  function Lines(text: string): seq<string> {
    SplitLines(NormalizeNewlines(StripBom(text)))
  }

  /** `parseCsv(text)`. */
  function ParseCsv(text: string): (records: seq<Row>)
  {
    if Trim(StripBom(text)) == [] then [] else ParseLines(Lines(text))
  }

  /** The part of `parseCsv` after the lines are cut: no header line, or an
      empty one, gives no records. */
  function ParseLines(lines: seq<string>): seq<Row> {
    if lines == [] || lines[0] == [] then []
    else DataRecords(SplitCsvLine(lines[0]), Filter(HasContent, lines[1..]))
  }

  /** One record per data line, built from that line's cells. */
  function DataRecords(headers: seq<string>, data: seq<string>): (records: seq<Row>)
    ensures |records| == |data|
    ensures forall i :: 0 <= i < |data| ==> records[i] == MakeRecord(headers, SplitCsvLine(data[i]))
  {
    if data == [] then []
    else
      var n := |data| - 1;
      DataRecords(headers, data[..n]) + [MakeRecord(headers, SplitCsvLine(data[n]))]
  }

  /** Every value in every record is trimmed. */
  lemma DataRecordsTrimmed(headers: seq<string>, data: seq<string>, i: nat, k: string)
    requires i < |data| && k in DataRecords(headers, data)[i]
    ensures IsTrimmed(DataRecords(headers, data)[i][k])
  {
    SplitCsvLineTrimmed(data[i]);
    MakeRecordTrimmed(headers, SplitCsvLine(data[i]));
  }

  /** Blank text gives no records. */
  lemma ParseCsvBlank(text: string)
    requires AllWhitespace(StripBom(text))
    ensures ParseCsv(text) == []
  {
    var cleaned := StripBom(text);
    TrimOfPadded(cleaned, [], []);
    assert cleaned + [] + [] == cleaned;
  }

  /** Otherwise, when the first line is not empty, its cells are the headers
      and every non-blank line after it gives one record, in order. */
  lemma ParseCsvRecords(text: string)
    requires Trim(StripBom(text)) != [] && Lines(text) != [] && Lines(text)[0] != []
    ensures ParseCsv(text) == DataRecords(SplitCsvLine(Lines(text)[0]), Filter(HasContent, Lines(text)[1..]))
  {
  }
}
