/** The Findings Matrix of an audit: its table rows, none of which may disappear. */
module FindingsMatrix {
  import opened MarkdownTable
  import opened Text

  /** A parsed row: identifier, class `A` to `D`, and whether it blocks the ADR. */
  datatype Row = Row(id: string, severity: char, blocks: bool)

  /** What is wrong with the matrix, or with the body row at a position (from 1). */
  datatype MatrixError =
    | NoHeader
    | NotATable(width: nat)
    | Truncated(position: nat)
    | NoIdentifier(position: nat)
    | BadClass(position: nat)
    | BadBlocks(position: nat)

  /** Where the three columns are, and how wide the header is. */
  datatype Columns = Columns(finding: nat, severity: nat, blocks: nat, width: nat)

  ghost predicate InWidth(columns: Columns) {
    columns.finding < columns.width && columns.severity < columns.width && columns.blocks < columns.width
  }

  function Without(s: string, dropped: set<char>): string {
    if s == [] then []
    else (if s[0] in dropped then [] else [s[0]]) + Without(s[1..], dropped)
  }

  /** `_normalized_cell`. */
  function NormalizedCell(value: string): string {
    LowerAll(Strip(Without(value, {'`', '*', '_'})))
  }

  /** `_normalize_markdown_scalar`: without a list marker, then without one pair of backticks. */
  function Scalar(value: string): string {
    var s := Strip(value);
    var t := if "- " <= s || "* " <= s then Strip(s[2..]) else s;
    if |t| >= 2 && t[0] == '`' && t[|t| - 1] == '`' then Strip(t[1..|t| - 1]) else t
  }

  function IndexOf(cells: seq<string>, cell: string): (r: Option<nat>)
    ensures r.Some? ==> r.value < |cells| && cells[r.value] == cell && cell !in cells[..r.value]
    ensures r.None? ==> cell !in cells
  {
    if cells == [] then None
    else if cells[0] == cell then Some(0)
    else
      var later := IndexOf(cells[1..], cell);
      if later.None? then None else
        assert cells[..later.value + 1] == [cells[0]] + cells[1..][..later.value];
        Some(later.value + 1)
  }

  function Headers(row: seq<string>): seq<string> {
    seq(|row|, k requires 0 <= k < |row| => NormalizedCell(row[k]))
  }

  /** The columns of a row that declares all three of them. */
  function ColumnsOf(row: seq<string>): (r: Option<Columns>)
    ensures r.Some? ==> InWidth(r.value) && r.value.width == |row|
  {
    var headers := Headers(row);
    var finding, severity, blocks :=
      IndexOf(headers, "finding"), IndexOf(headers, "class"), IndexOf(headers, "blocks adr");
    if finding.None? || severity.None? || blocks.None? then None
    else Some(Columns(finding.value, severity.value, blocks.value, |row|))
  }

  /** `:?-{least,}:?`. */
  predicate Dashes(cell: string, least: nat) {
    var open := if ":" <= cell then cell[1..] else cell;
    var bare := if EndsWith(open, ":") then open[..|open| - 1] else open;
    |bare| >= least && forall i :: 0 <= i < |bare| ==> bare[i] == '-'
  }

  predicate IsDelimiterRow(cells: seq<string>) {
    cells != [] && forall k :: 0 <= k < |cells| ==> Dashes(Strip(cells[k]), 1)
  }

  predicate IsPipeLine(line: string) {
    "|" <= Strip(line)
  }

  // -------------------------------------------------------------- body rows

  /** A row that makes a claim: not empty, and not all dashes. */
  predicate IsData(row: seq<string>) {
    exists k :: 0 <= k < |row| && Strip(row[k]) != [] && !Dashes(Strip(row[k]), 3)
  }

  datatype Reading = Skipped | Read(row: Row) | Refused(error: MatrixError)

  /** One body row. */
  function ReadRow(row: seq<string>, columns: Columns, position: nat): Reading
    requires InWidth(columns)
  {
    if !IsData(row) then Skipped
    else if |row| < columns.width then Refused(Truncated(position))
    else
      var id := Scalar(row[columns.finding]);
      var severity := UpperAll(Scalar(row[columns.severity]));
      var blocks := UpperAll(Scalar(row[columns.blocks]));
      if id == [] then Refused(NoIdentifier(position))
      else if |severity| != 1 || !('A' <= severity[0] <= 'D') then Refused(BadClass(position))
      else if blocks !in {"YES", "NO"} then Refused(BadBlocks(position))
      else Read(Row(id, severity[0], blocks == "YES"))
  }

  /** The rows read and the errors, in order, of the body rows from `position` on. */
  function ReadBody(body: seq<seq<string>>, columns: Columns, position: nat): (seq<Row>, seq<MatrixError>)
    requires InWidth(columns)
  {
    if body == [] then ([], [])
    else
      var (rows, errors) := ReadBody(body[1..], columns, position + 1);
      match ReadRow(body[0], columns, position)
      case Skipped => (rows, errors)
      case Read(row) => ([row] + rows, errors)
      case Refused(error) => (rows, [error] + errors)
  }

  // ------------------------------------------------------------- the matrix

  /** Number of leading table lines: where the rendered table ends. */
  function PipeRun(lines: seq<string>): (n: nat)
    ensures n <= |lines| && (forall i :: 0 <= i < n ==> IsPipeLine(lines[i])) && (n < |lines| ==> !IsPipeLine(lines[n]))
  {
    if lines == [] || !IsPipeLine(lines[0]) then 0 else 1 + PipeRun(lines[1..])
  }

  function CellsOf(lines: seq<string>): (r: seq<seq<string>>)
    ensures |r| == |lines| && forall i :: 0 <= i < |r| ==> r[i] == Cells(lines[i])
  {
    seq(|lines|, i requires 0 <= i < |lines| => Cells(lines[i]))
  }

  predicate IsHeader(line: string) {
    IsPipeLine(line) && ColumnsOf(Cells(line)).Some?
  }

  /** Reading on from the header line the lines start with. */
  function Table(lines: seq<string>): (seq<Row>, seq<MatrixError>)
    requires lines != [] && IsHeader(lines[0])
  {
    var columns := ColumnsOf(Cells(lines[0])).value;
    if |lines| == 1 || !IsDelimiterRow(Cells(lines[1])) || |Cells(lines[1])| != columns.width then
      ([], [NotATable(columns.width)])
    else
      ReadBody(CellsOf(lines[2..2 + PipeRun(lines[2..])]), columns, 1)
  }

  function Matrix(lines: seq<string>): (seq<Row>, seq<MatrixError>) {
    if lines == [] then ([], [NoHeader])
    else if IsHeader(lines[0]) then Table(lines)
    else Matrix(lines[1..])
  }

  /** `_finding_matrix_rows`, on the rendered lines of the section. */
  method MatrixRows(lines: seq<string>) returns (rows: seq<Row>, errors: seq<MatrixError>)
    ensures (rows, errors) == Matrix(lines)
  {
    hide IsPipeLine, ColumnsOf, IsDelimiterRow, Table;
    var index := 0;
    while index < |lines|
      invariant 0 <= index <= |lines|
      invariant Matrix(lines[index..]) == Matrix(lines)
    {
      MatrixStep(lines, index);
      if IsPipeLine(lines[index]) {
        var row := MarkdownCells(lines[index]);
        if ColumnsOf(row).Some? {
          rows, errors := ReadTable(lines[index..]);
          return;
        }
      }
      index := index + 1;
    }
    assert lines[index..] == [];
    return [], [NoHeader];
  }

  lemma MatrixStep(lines: seq<string>, index: nat)
    requires index < |lines|
    ensures Matrix(lines[index..])
            == if IsHeader(lines[index]) then Table(lines[index..]) else Matrix(lines[index + 1..])
  {
    hide IsHeader, Table;
    assert lines[index..][1..] == lines[index + 1..];
  }

  /** The rest of it, once a header is found: delimiter check, body, rows. */
  method ReadTable(lines: seq<string>) returns (rows: seq<Row>, errors: seq<MatrixError>)
    requires lines != [] && IsHeader(lines[0])
    ensures (rows, errors) == Table(lines)
  {
    hide IsPipeLine, ColumnsOf, IsDelimiterRow, Cells, ReadBody, PipeRun;
    var row := MarkdownCells(lines[0]);
    var columns := ColumnsOf(row).value;
    var delimiter: seq<string> := [];
    if |lines| > 1 {
      delimiter := MarkdownCells(lines[1]);
    }
    if !IsDelimiterRow(delimiter) || |delimiter| != columns.width {
      assert |lines| == 1 ==> delimiter == [];
      return [], [NotATable(columns.width)];
    }
    assert |lines| > 1 by { NoDelimiter(); }
    var body := CollectBody(lines[2..]);
    rows, errors := ReadRows(body, columns);
    assert lines[2..][..PipeRun(lines[2..])] == lines[2..2 + PipeRun(lines[2..])];
  }

  lemma NoDelimiter()
    ensures !IsDelimiterRow([])
  {
  }

  method CollectBody(lines: seq<string>) returns (body: seq<seq<string>>)
    ensures body == CellsOf(lines[..PipeRun(lines)])
  {
    hide IsPipeLine, Cells;
    body := [];
    var i := 0;
    while i < |lines| && IsPipeLine(lines[i])
      invariant 0 <= i <= |lines| && |body| == i
      invariant forall k :: 0 <= k < i ==> IsPipeLine(lines[k]) && body[k] == Cells(lines[k])
    {
      var cells := MarkdownCells(lines[i]);
      body := body + [cells];
      i := i + 1;
    }
    PipeRunIs(lines, i);
  }

  lemma PipeRunIs(lines: seq<string>, n: nat)
    requires n <= |lines| && (n < |lines| ==> !IsPipeLine(lines[n]))
    requires forall i :: 0 <= i < n ==> IsPipeLine(lines[i])
    ensures PipeRun(lines) == n
  {
    hide IsPipeLine, PipeRun;
    var m := PipeRun(lines);
    if m < n {
      assert false;
    } else if n < m {
      assert false;
    }
  }

  /** The loop over the body with its offset counted from one. */
  method ReadRows(body: seq<seq<string>>, columns: Columns) returns (rows: seq<Row>, errors: seq<MatrixError>)
    requires InWidth(columns)
    ensures (rows, errors) == ReadBody(body, columns, 1)
  {
    hide IsData, Scalar, UpperAll, ReadBody;
    rows, errors := [], [];
    var i := 0;
    ghost var (allRows, allErrors) := ReadBody(body, columns, 1);
    assert body[0..] == body;
    while i < |body|
      invariant 0 <= i <= |body|
      invariant rows + ReadBody(body[i..], columns, i + 1).0 == allRows
      invariant errors + ReadBody(body[i..], columns, i + 1).1 == allErrors
    {
      var candidate := body[i];
      ReadBodyStep(body, columns, i);
      ghost var later := ReadBody(body[i + 1..], columns, i + 2);
      i := i + 1;
      if !IsData(candidate) {
        continue;
      }
      if |candidate| < columns.width {
        assert errors + ([Truncated(i)] + later.1) == (errors + [Truncated(i)]) + later.1;
        errors := errors + [Truncated(i)];
        continue;
      }
      var id := Scalar(candidate[columns.finding]);
      var severity := UpperAll(Scalar(candidate[columns.severity]));
      var blocks := UpperAll(Scalar(candidate[columns.blocks]));
      if id == [] {
        assert errors + ([NoIdentifier(i)] + later.1) == (errors + [NoIdentifier(i)]) + later.1;
        errors := errors + [NoIdentifier(i)];
        continue;
      }
      if |severity| != 1 || !('A' <= severity[0] <= 'D') {
        assert errors + ([BadClass(i)] + later.1) == (errors + [BadClass(i)]) + later.1;
        errors := errors + [BadClass(i)];
        continue;
      }
      if blocks !in {"YES", "NO"} {
        assert errors + ([BadBlocks(i)] + later.1) == (errors + [BadBlocks(i)]) + later.1;
        errors := errors + [BadBlocks(i)];
        continue;
      }
      var read := Row(id, severity[0], blocks == "YES");
      assert rows + ([read] + later.0) == (rows + [read]) + later.0;
      rows := rows + [read];
    }
    ReadBodyStep(body, columns, i);
    assert rows + [] == rows && errors + [] == errors;
  }

  lemma ReadBodyStep(body: seq<seq<string>>, columns: Columns, i: nat)
    requires i <= |body| && InWidth(columns)
    ensures ReadBody(body[i..], columns, i + 1)
            == if i == |body| then ([], [])
               else
                 var (rows, errors) := ReadBody(body[i + 1..], columns, i + 2);
                 match ReadRow(body[i], columns, i + 1)
                 case Skipped => (rows, errors)
                 case Read(row) => ([row] + rows, errors)
                 case Refused(error) => (rows, [error] + errors)
  {
    hide ReadRow;
    if i < |body| {
      assert body[i..][1..] == body[i + 1..];
    }
  }

  // -------------------------------------------------- no row is ever dropped

  /** A row of the declared width with an identifier, a class and a yes or no. */
  predicate WellFormed(row: seq<string>, columns: Columns)
    requires InWidth(columns)
  {
    && |row| >= columns.width && Scalar(row[columns.finding]) != []
    && UpperAll(Scalar(row[columns.severity])) in {"A", "B", "C", "D"}
    && UpperAll(Scalar(row[columns.blocks])) in {"YES", "NO"}
  }

  /** The row a well-formed table row stands for. */
  ghost predicate StandsFor(cells: seq<string>, row: Row, columns: Columns)
    requires InWidth(columns)
  {
    && WellFormed(cells, columns) && row.id == Scalar(cells[columns.finding])
    && [row.severity] == UpperAll(Scalar(cells[columns.severity]))
    && (row.blocks <==> UpperAll(Scalar(cells[columns.blocks])) == "YES")
  }

  function DataRows(body: seq<seq<string>>): seq<seq<string>> {
    if body == [] then [] else (if IsData(body[0]) then [body[0]] else []) + DataRows(body[1..])
  }

  lemma ReadRowMeans(cells: seq<string>, columns: Columns, position: nat)
    requires InWidth(columns)
    ensures var reading := ReadRow(cells, columns, position);
            && (reading.Skipped? <==> !IsData(cells))
            && (reading.Read? <==> IsData(cells) && WellFormed(cells, columns))
            && (reading.Read? ==> StandsFor(cells, reading.row, columns))
  {
    hide IsData, Scalar, UpperAll;
    if IsData(cells) && |cells| >= columns.width {
      var severity := UpperAll(Scalar(cells[columns.severity]));
      assert |severity| == 1 && 'A' <= severity[0] <= 'D' <==> severity in {"A", "B", "C", "D"} by {
        if |severity| == 1 {
          assert severity == [severity[0]];
        }
      }
    }
  }

  /** Every row has a class from `A` to `D`. */
  ghost predicate Classed(rows: seq<Row>) {
    forall k :: 0 <= k < |rows| ==> 'A' <= rows[k].severity <= 'D'
  }

  lemma {:induction false} BodyClassed(body: seq<seq<string>>, columns: Columns, position: nat)
    requires InWidth(columns)
    ensures Classed(ReadBody(body, columns, position).0)
  {
    hide IsData, Scalar;
    if body != [] {
      BodyClassed(body[1..], columns, position + 1);
    }
  }

  lemma {:induction false} MatrixClassed(lines: seq<string>)
    ensures Classed(Matrix(lines).0)
  {
    hide IsPipeLine, ColumnsOf, IsDelimiterRow, Cells, ReadBody, PipeRun;
    if lines == [] {
    } else if IsHeader(lines[0]) {
      if |lines| > 1 {
        BodyClassed(CellsOf(lines[2..2 + PipeRun(lines[2..])]), ColumnsOf(Cells(lines[0])).value, 1);
      }
    } else {
      MatrixClassed(lines[1..]);
    }
  }

  /** Every data row of the body is read or reported, none twice; without errors
      the rows read are the data rows, in order and with their own cells. */
  lemma {:induction false} NoRowDropped(body: seq<seq<string>>, columns: Columns, position: nat)
    requires InWidth(columns)
    ensures var (rows, errors) := ReadBody(body, columns, position);
            && |rows| + |errors| == |DataRows(body)|
            && (errors == [] <==> forall k :: 0 <= k < |DataRows(body)| ==> WellFormed(DataRows(body)[k], columns))
            && (errors == [] ==> forall k :: 0 <= k < |rows| ==> StandsFor(DataRows(body)[k], rows[k], columns))
  {
    hide ReadRow, IsData, WellFormed, StandsFor;
    if body != [] {
      var data, later := DataRows(body), DataRows(body[1..]);
      NoRowDropped(body[1..], columns, position + 1);
      ReadRowMeans(body[0], columns, position);
      if IsData(body[0]) {
        assert data == [body[0]] + later && data[0] == body[0];
        assert forall k :: 0 < k < |data| ==> data[k] == later[k - 1];
        assert forall k :: 0 <= k < |later| ==> data[k + 1] == later[k];
      } else {
        assert data == later;
      }
    }
  }

  /** The body under the header line `h`: the table lines up to the first other line. */
  function BodyUnder(lines: seq<string>, h: nat): seq<seq<string>>
    requires h + 2 <= |lines|
  {
    CellsOf(lines[h + 2..h + 2 + PipeRun(lines[h + 2..])])
  }

  lemma HeaderHasColumns(line: string)
    requires IsHeader(line)
    ensures ColumnsOf(Cells(line)).Some?
  {
  }

  /** `rows` are all the data rows, in order, of the rendered table with header line `h`. */
  ghost predicate ReadsTable(lines: seq<string>, h: nat, rows: seq<Row>) {
    && h + 1 < |lines| && IsHeader(lines[h])
    && var columns, data := ColumnsOf(Cells(lines[h])).value, DataRows(BodyUnder(lines, h));
    && IsDelimiterRow(Cells(lines[h + 1])) && |Cells(lines[h + 1])| == columns.width
    && |rows| == |data| && forall k :: 0 <= k < |rows| ==> StandsFor(data[k], rows[k], columns)
  }

  lemma TableSound(lines: seq<string>)
    requires lines != [] && IsHeader(lines[0]) && Table(lines).1 == []
    ensures ReadsTable(lines, 0, Table(lines).0)
  {
    hide IsHeader, IsDelimiterRow, StandsFor, WellFormed, ReadBody, DataRows, Cells, PipeRun, ColumnsOf;
    HeaderHasColumns(lines[0]);
    NoRowDropped(BodyUnder(lines, 0), ColumnsOf(Cells(lines[0])).value, 1);
  }

  lemma ReadsTableLater(lines: seq<string>, h: nat, rows: seq<Row>)
    requires lines != [] && ReadsTable(lines[1..], h, rows)
    ensures ReadsTable(lines, h + 1, rows)
  {
    hide IsHeader, IsDelimiterRow, StandsFor, DataRows, Cells, PipeRun, ColumnsOf;
    assert lines[1..][h + 2..] == lines[h + 3..];
    assert BodyUnder(lines[1..], h) == BodyUnder(lines, h + 1);
  }

  /** A matrix without errors is the table under the first header line: it has its
      delimiter row, and its rows are all the data rows of its body, in order. */
  lemma {:induction false} MatrixSound(lines: seq<string>) returns (h: nat)
    requires Matrix(lines).1 == []
    ensures h < |lines| && forall i :: 0 <= i < h ==> !IsHeader(lines[i])
    ensures ReadsTable(lines, h, Matrix(lines).0)
  {
    hide IsHeader, Table, ReadsTable;
    if IsHeader(lines[0]) {
      h := 0;
      TableSound(lines);
    } else {
      var later := MatrixSound(lines[1..]);
      h := later + 1;
      ReadsTableLater(lines, later, Matrix(lines).0);
      assert forall i :: 0 < i < h ==> lines[i] == lines[1..][i - 1];
    }
  }
}
