/** A Findings Matrix as it is printed, and what reading it gives back. */
module MatrixPrinting {
  import opened FindingsMatrix
  import opened MarkdownTable
  import opened Text

  // ---------------------------------------------------------------- columns

  /** The first cell that reads `name`, in any case and without emphasis, is the `k`-th. */
  predicate FirstReading(row: seq<string>, name: string, k: nat) {
    && k < |row| && LowerAll(Strip(Without(row[k], {'`', '*', '_'}))) == name
    && forall i :: 0 <= i < k ==> LowerAll(Strip(Without(row[i], {'`', '*', '_'}))) != name
  }

  lemma FirstIndex(row: seq<string>, name: string)
    ensures forall k: nat :: FirstReading(row, name, k) <==> IndexOf(Headers(row), name) == Some(k)
  {
    hide LowerAll, Strip, Without, IndexOf;
    var headers := Headers(row);
    assert forall k :: 0 <= k < |row| ==> headers[k] == LowerAll(Strip(Without(row[k], {'`', '*', '_'})));
    var r := IndexOf(headers, name);
    forall k: nat ensures FirstReading(row, name, k) <==> r == Some(k) {
      if FirstReading(row, name, k) {
        assert headers[k] == name && name in headers;
        var before := headers[..r.value];
        assert forall i :: 0 <= i < |before| ==> before[i] == headers[i] && before[i] in before;
      }
      if r == Some(k) {
        assert forall i :: 0 <= i < k ==> headers[i] == headers[..k][i];
      }
    }
  }

  /** A row is a header exactly when it has the three names, and its columns are
      those where they are first read. */
  lemma ColumnsExactly(row: seq<string>, columns: Columns)
    ensures ColumnsOf(row) == Some(columns)
            <==> FirstReading(row, "finding", columns.finding) && FirstReading(row, "class", columns.severity)
                 && FirstReading(row, "blocks adr", columns.blocks) && columns.width == |row|
  {
    hide FirstReading, IndexOf, Headers;
    FirstIndex(row, "finding");
    FirstIndex(row, "class");
    FirstIndex(row, "blocks adr");
  }

  // -------------------------------------------------- dashes and data rows

  function Minus(n: nat): (r: string)
    ensures |r| == n && forall i :: 0 <= i < n ==> r[i] == '-'
  {
    seq(n, _ => '-')
  }

  /** Dashes, with a colon at either end or not. */
  ghost predicate DashShape(cell: string, least: nat) {
    exists open, close, n: nat :: Framed(cell, open, close, n) && n >= least
  }

  predicate Framed(cell: string, open: string, close: string, n: nat) {
    open in {"", ":"} && close in {"", ":"} && cell == open + Minus(n) + close
  }

  lemma DashesExactly(cell: string, least: nat)
    requires least > 0
    ensures Dashes(cell, least) <==> DashShape(cell, least)
  {
    hide Dashes, DashShape;
    if Dashes(cell, least) {
      DashesFramed(cell, least);
    }
    if DashShape(cell, least) {
      ShapeReads(cell, least);
    }
  }

  lemma DashesFramed(cell: string, least: nat)
    requires Dashes(cell, least)
    ensures DashShape(cell, least)
  {
    var o := if ":" <= cell then ":" else "";
    var open := cell[|o|..];
    var c := if EndsWith(open, ":") then ":" else "";
    var bare := open[..|open| - |c|];
    assert open == bare + c;
    assert cell == o + bare + c;
    AllMinus(bare);
    assert Framed(cell, o, c, |bare|);
  }

  lemma AllMinus(bare: string)
    requires forall i :: 0 <= i < |bare| ==> bare[i] == '-'
    ensures bare == Minus(|bare|)
  {
  }

  lemma ShapeReads(cell: string, least: nat)
    requires least > 0 && DashShape(cell, least)
    ensures Dashes(cell, least)
  {
    var o, c, n: nat :| Framed(cell, o, c, n) && n >= least;
    FramedReads(o, c, n);
  }

  lemma FramedReads(o: string, c: string, n: nat)
    requires o in {"", ":"} && c in {"", ":"} && n > 0
    ensures var cell := o + Minus(n) + c;
            var open := if ":" <= cell then cell[1..] else cell;
            open == Minus(n) + c && (if EndsWith(open, ":") then open[..|open| - 1] else open) == Minus(n)
  {
    var cell := o + Minus(n) + c;
    assert cell[|o|] == '-';
    var open := Minus(n) + c;
    assert open[n - 1] == '-';
    assert ":" <= cell <==> o == ":";
    assert EndsWith(open, ":") <==> c == ":" by {
      assert EndsWith(open, ":") ==> open[|open| - 1..][0] == ':';
    }
  }

  /** A row makes a claim exactly when some cell of it is neither blank nor a line of
      three dashes or more; a delimiter row has dashes, one at least, in every cell. */
  lemma DataExactly(row: seq<string>)
    ensures IsData(row) <==> exists cell :: cell in row && Strip(cell) != "" && !DashShape(Strip(cell), 3)
    ensures IsDelimiterRow(row) <==> row != [] && forall cell :: cell in row ==> DashShape(Strip(cell), 1)
  {
    hide Dashes, DashShape, Strip;
    forall k | 0 <= k < |row|
      ensures Dashes(Strip(row[k]), 3) <==> DashShape(Strip(row[k]), 3)
      ensures Dashes(Strip(row[k]), 1) <==> DashShape(Strip(row[k]), 1)
    {
      DashesExactly(Strip(row[k]), 3);
      DashesExactly(Strip(row[k]), 1);
    }
    if exists cell :: cell in row && Strip(cell) != "" && !DashShape(Strip(cell), 3) {
      var cell :| cell in row && Strip(cell) != "" && !DashShape(Strip(cell), 3);
      var k :| 0 <= k < |row| && row[k] == cell;
    }
    if IsDelimiterRow(row) {
      forall cell | cell in row ensures DashShape(Strip(cell), 1) {
        var k :| 0 <= k < |row| && row[k] == cell;
      }
    }
  }

  // ------------------------------------------------------------ as printed

  const HEADER := ["Finding", "Class", "Blocks ADR"]
  const DASHES := ["---", "---", "---"]

  function Printable(row: Row): seq<string> {
    [row.id, [row.severity], if row.blocks then "YES" else "NO"]
  }

  /** An identifier that a cell can hold and that reads as itself. */
  ghost predicate Readable(row: Row) {
    && row.id != [] && Trimmed(row.id) && Sealed(row.id) && Scalar(row.id) == row.id
    && 'A' <= row.severity <= 'D'
  }

  function PrintRows(rows: seq<Row>): (r: seq<string>)
    ensures |r| == |rows| && forall i :: 0 <= i < |r| ==> r[i] == Print(Printable(rows[i]))
  {
    seq(|rows|, i requires 0 <= i < |rows| => Print(Printable(rows[i])))
  }

  function PrintMatrix(rows: seq<Row>): seq<string> {
    [Print(HEADER), Print(DASHES)] + PrintRows(rows)
  }

  lemma HeaderReads()
    ensures FirstReading(HEADER, "finding", 0) && FirstReading(HEADER, "class", 1)
    ensures FirstReading(HEADER, "blocks adr", 2)
  {
    hide Without, Strip;
    HeaderWords();
  }

  lemma HeaderWords()
    ensures LowerAll(Strip(Without("Finding", {'`', '*', '_'}))) == "finding"
    ensures LowerAll(Strip(Without("Class", {'`', '*', '_'}))) == "class"
    ensures LowerAll(Strip(Without("Blocks ADR", {'`', '*', '_'}))) == "blocks adr"
  {
    hide Without, Strip;
    NothingDropped("Finding");
    NothingDropped("Class");
    NothingDropped("Blocks ADR");
    assert Trimmed("Finding") && Trimmed("Class") && Trimmed("Blocks ADR");
    assert LowerAll("Finding") == "finding" && LowerAll("Class") == "class" && LowerAll("Blocks ADR") == "blocks adr";
  }

  lemma {:induction false} NothingDropped(s: string)
    requires forall i :: 0 <= i < |s| ==> s[i] !in {'`', '*', '_'}
    ensures Without(s, {'`', '*', '_'}) == s
  {
    if s != [] {
      NothingDropped(s[1..]);
    }
  }

  lemma CellsRead(cells: seq<string>)
    requires cells != [] && forall k :: 0 <= k < |cells| ==> Trimmed(cells[k]) && Sealed(cells[k])
    ensures Cells(Print(cells)) == cells && IsPipeLine(Print(cells))
  {
    hide Cells, Print, Sealed, Trimmed, Strip;
    RoundTripExactly(cells);
    PipeFirst(cells);
  }

  lemma PipeFirst(cells: seq<string>)
    requires cells != []
    ensures IsPipeLine(Print(cells))
  {
    hide Strip, Join;
    var line := Print(cells);
    assert line[0] == '|' && line[|line| - 1] == '|';
    PipeVisible();
    assert Strip(line) == line;
  }

  lemma PipeVisible()
    ensures !IsSpace('|')
  {
  }

  lemma PlainSealed(s: string)
    requires '|' !in s
    ensures Sealed(s)
  {
  }

  lemma RowCellsRead(row: Row)
    requires Readable(row)
    ensures Cells(Print(Printable(row))) == Printable(row) && IsPipeLine(Print(Printable(row)))
  {
    hide Cells, Print, Scalar, Sealed;
    PlainSealed([row.severity]);
    PlainSealed("YES");
    PlainSealed("NO");
    LetterVisible(row.severity);
    assert Trimmed("YES") && Trimmed("NO");
    CellsRead(Printable(row));
  }

  lemma LetterVisible(c: char)
    requires 'A' <= c <= 'D'
    ensures !IsSpace(c) && Trimmed([c])
  {
  }

  lemma ScalarPlain(s: string)
    requires s != [] && Trimmed(s) && s[0] !in {'-', '*', '`'}
    ensures Scalar(s) == s
  {
    hide Strip, Trimmed;
  }

  lemma FlagReads()
    ensures UpperAll(Scalar("YES")) == "YES" && UpperAll(Scalar("NO")) == "NO"
  {
    hide Scalar;
    assert Trimmed("YES") && Trimmed("NO");
    ScalarPlain("YES");
    ScalarPlain("NO");
    assert UpperAll("YES") == "YES" && UpperAll("NO") == "NO";
  }

  lemma ClassReads(c: char)
    requires 'A' <= c <= 'D'
    ensures UpperAll(Scalar([c])) == [c] && Strip([c]) == [c] && !Dashes([c], 3)
  {
    hide Scalar, Strip;
    LetterVisible(c);
    ScalarPlain([c]);
    assert UpperAll([c]) == [c];
  }

  lemma PrintedRowReads(row: Row, position: nat)
    requires Readable(row)
    ensures ReadRow(Printable(row), Columns(0, 1, 2, 3), position) == Read(row)
  {
    hide Scalar, Strip, Sealed, UpperAll, Dashes, Trimmed;
    var cells := Printable(row);
    ClassReads(row.severity);
    FlagReads();
    assert cells[1] == [row.severity];
    assert IsData(cells);
  }

  lemma {:induction false} PrintedBodyReads(rows: seq<Row>, position: nat)
    requires forall i :: 0 <= i < |rows| ==> Readable(rows[i])
    ensures ReadBody(CellsOf(PrintRows(rows)), Columns(0, 1, 2, 3), position) == (rows, [])
  {
    hide Readable, Printable, Print, Cells, ReadRow;
    var body := CellsOf(PrintRows(rows));
    if rows != [] {
      RowCellsRead(rows[0]);
      PrintedRowReads(rows[0], position);
      PrintedBodyReads(rows[1..], position + 1);
      assert body[0] == Printable(rows[0]);
      assert body[1..] == CellsOf(PrintRows(rows[1..]));
      assert rows == [rows[0]] + rows[1..];
    }
  }

  lemma WordsTrimmed()
    ensures Trimmed("---") && Trimmed("Finding") && Trimmed("Class") && Trimmed("Blocks ADR")
  {
  }

  lemma DelimiterMarks()
    ensures IsDelimiterRow(DASHES)
  {
    hide Strip, Trimmed;
    WordsTrimmed();
    assert Dashes("---", 1);
  }

  lemma DelimiterReads()
    ensures Cells(Print(DASHES)) == DASHES && Cells(Print(HEADER)) == HEADER && IsPipeLine(Print(HEADER))
  {
    hide Cells, Print, Strip, Trimmed, Sealed, IsPipeLine;
    WordsTrimmed();
    PlainSealed("---");
    PlainSealed("Finding");
    PlainSealed("Class");
    PlainSealed("Blocks ADR");
    CellsRead(DASHES);
    CellsRead(HEADER);
  }

  /** Reading a printed matrix gives back its rows and no error, wherever it stands
      in a text that has no other header before it, up to the next line that is no
      table line. */
  lemma {:induction false} MatrixRoundTrip(before: seq<string>, rows: seq<Row>, after: seq<string>)
    requires forall i :: 0 <= i < |rows| ==> Readable(rows[i])
    requires forall i :: 0 <= i < |before| ==> !IsHeader(before[i])
    requires after != [] ==> !IsPipeLine(after[0])
    ensures Matrix(before + PrintMatrix(rows) + after) == (rows, [])
  {
    hide Readable, Print, Cells, ReadBody, IsHeader, IsPipeLine, IsDelimiterRow, Table, PrintMatrix;
    var lines := before + PrintMatrix(rows) + after;
    if before != [] {
      assert lines[1..] == before[1..] + PrintMatrix(rows) + after;
      MatrixRoundTrip(before[1..], rows, after);
    } else {
      assert lines == PrintMatrix(rows) + after;
      PrintedTableReads(rows, after);
    }
  }

  lemma MatrixParts(rows: seq<Row>, after: seq<string>)
    ensures var lines := PrintMatrix(rows) + after;
            |lines| >= 2 && lines[0] == Print(HEADER) && lines[1] == Print(DASHES)
            && lines[2..] == PrintRows(rows) + after && lines[2..2 + |rows|] == PrintRows(rows)
  {
    hide Print, PrintRows;
  }

  lemma PrintedRun(rows: seq<Row>, after: seq<string>)
    requires forall i :: 0 <= i < |rows| ==> Readable(rows[i])
    requires after != [] ==> !IsPipeLine(after[0])
    ensures PipeRun(PrintRows(rows) + after) == |rows|
  {
    hide Readable, Print, Cells, IsPipeLine, Printable, PipeRun;
    var rest := PrintRows(rows) + after;
    forall i | 0 <= i < |rows| ensures IsPipeLine(rest[i]) {
      RowCellsRead(rows[i]);
      assert rest[i] == PrintRows(rows)[i];
    }
    PipeRunIs(rest, |rows|);
  }

  lemma TableReads(lines: seq<string>, columns: Columns, n: nat)
    requires |lines| >= 2 && IsPipeLine(lines[0]) && ColumnsOf(Cells(lines[0])) == Some(columns)
    requires IsDelimiterRow(Cells(lines[1])) && |Cells(lines[1])| == columns.width && PipeRun(lines[2..]) == n
    ensures n <= |lines| - 2 && Table(lines) == ReadBody(CellsOf(lines[2..2 + n]), columns, 1)
  {
    hide Cells, ReadBody, IsPipeLine, IsDelimiterRow, ColumnsOf, PipeRun;
  }

  lemma PrintedTableReads(rows: seq<Row>, after: seq<string>)
    requires forall i :: 0 <= i < |rows| ==> Readable(rows[i])
    requires after != [] ==> !IsPipeLine(after[0])
    ensures var lines := PrintMatrix(rows) + after;
            lines != [] && IsHeader(lines[0]) && Table(lines) == (rows, [])
  {
    hide Readable, Print, Cells, ReadBody, IsPipeLine, IsDelimiterRow, ColumnsOf, PipeRun, PrintMatrix, PrintRows,
      Table, FirstReading;
    HeaderReads();
    ColumnsExactly(HEADER, Columns(0, 1, 2, 3));
    DelimiterReads();
    DelimiterMarks();
    MatrixParts(rows, after);
    PrintedRun(rows, after);
    TableReads(PrintMatrix(rows) + after, Columns(0, 1, 2, 3), |rows|);
    PrintedBodyReads(rows, 1);
  }
}
