/** The cell tokenizer of the audit validator: one line of a Markdown table into
    its cells, where a pipe behind an odd run of backslashes does not end a cell. */
module MarkdownTable {
  import opened Text

  /** Length of the run of backslashes `s` ends with. */
  function TailRun(s: string): (n: nat)
    ensures n <= |s|
  {
    if s != [] && s[|s| - 1] == '\\' then 1 + TailRun(s[..|s| - 1]) else 0
  }

  predicate Escaping(s: string) {
    TailRun(s) % 2 == 1
  }

  /** The pieces between the cell-ending pipes of `content`, `current` being read. */
  function RawCells(content: string, current: string): (r: seq<string>)
    ensures |r| >= 1
    decreases |content|
  {
    if content == [] then [current]
    else if content[0] == '|' && !Escaping(current) then [current] + RawCells(content[1..], [])
    else RawCells(content[1..], current + [content[0]])
  }

  /** What lies between the outer pipes of a stripped table line. */
  function Content(stripped: string): string
    requires "|" <= stripped
  {
    var content := stripped[1..];
    if EndsWith(content, "|") then content[..|content| - 1] else content
  }

  function Cells(line: string): seq<string> {
    var stripped := Strip(line);
    if "|" <= stripped then StripEach(RawCells(Content(stripped), [])) else []
  }

  /** `_markdown_cells`. */
  method MarkdownCells(line: string) returns (cells: seq<string>)
    ensures cells == Cells(line)
  {
    hide Strip, TailRun, RawCells, Content;
    var stripped := Strip(line);
    if !("|" <= stripped) {
      return [];
    }
    var content := Content(stripped);
    ghost var raws: seq<string> := [];
    cells := [];
    var current, i := "", 0;
    while i < |content|
      invariant 0 <= i <= |content|
      invariant raws + RawCells(content[i..], current) == RawCells(content, [])
      invariant cells == StripEach(raws)
    {
      RawCellsStep(content, i, current);
      var escaped := false;
      if content[i] == '|' {
        var backslashes := CountBackslashes(current);
        escaped := backslashes % 2 == 1;
      }
      if content[i] == '|' && !escaped {
        StripOneMore(raws, current);
        assert raws + RawCells(content[i..], current) == (raws + [current]) + RawCells(content[i + 1..], []);
        cells := cells + [Strip(current)];
        raws := raws + [current];
        current := [];
      } else {
        current := current + [content[i]];
      }
      i := i + 1;
    }
    RawCellsEnd(content, current);
    StripOneMore(raws, current);
    cells := cells + [Strip(current)];
  }

  lemma StripOneMore(raws: seq<string>, raw: string)
    ensures StripEach(raws + [raw]) == StripEach(raws) + [Strip(raw)]
  {
    hide Strip;
  }

  /** The inner loop: backslashes from the end of `current` backwards. */
  method CountBackslashes(current: string) returns (n: nat)
    ensures n == TailRun(current)
  {
    n := 0;
    var i := |current|;
    assert current[..i] == current;
    while i > 0 && current[i - 1] == '\\'
      invariant 0 <= i <= |current|
      invariant n + TailRun(current[..i]) == TailRun(current)
    {
      assert current[..i][..i - 1] == current[..i - 1];
      n, i := n + 1, i - 1;
    }
  }

  lemma RawCellsStep(content: string, i: nat, current: string)
    requires i < |content|
    ensures RawCells(content[i..], current)
            == if content[i] == '|' && !Escaping(current) then [current] + RawCells(content[i + 1..], [])
               else RawCells(content[i + 1..], current + [content[i]])
  {
    hide Escaping;
    assert content[i..][1..] == content[i + 1..];
  }

  lemma RawCellsEnd(content: string, current: string)
    ensures RawCells(content[|content|..], current) == [current]
  {
  }

  // --------------------------------------------------- what the tokenizer does

  /** Every pipe in a piece is escaped. */
  ghost predicate Sealed(raw: string) {
    forall i :: 0 <= i < |raw| && raw[i] == '|' ==> Escaping(raw[..i])
  }

  function Join(raws: seq<string>): string
    requires raws != []
  {
    if |raws| == 1 then raws[0] else raws[0] + "|" + Join(raws[1..])
  }

  /** `raws` is `content` cut at its unescaped pipes, and only there. */
  ghost predicate Splits(raws: seq<string>, content: string) {
    && raws != [] && Join(raws) == content
    && (forall k :: 0 <= k < |raws| ==> Sealed(raws[k]))
    && forall k :: 0 <= k < |raws| - 1 ==> !Escaping(raws[k])
  }

  lemma SealedGrows(current: string, c: char)
    requires Sealed(current) && (c == '|' ==> Escaping(current))
    ensures Sealed(current + [c])
  {
    hide Escaping;
    var grown := current + [c];
    forall i | 0 <= i < |grown| && grown[i] == '|' ensures Escaping(grown[..i]) {
      if i < |current| {
        assert grown[..i] == current[..i];
      } else {
        assert grown[..i] == current;
      }
    }
  }

  lemma SplitsCons(raw: string, raws: seq<string>, content: string)
    requires Splits(raws, content) && Sealed(raw) && !Escaping(raw)
    ensures Splits([raw] + raws, raw + "|" + content)
  {
    hide Sealed, Escaping;
    assert ([raw] + raws)[1..] == raws;
  }

  lemma {:induction false} RawCellsSplit(content: string, current: string)
    requires Sealed(current)
    ensures Splits(RawCells(content, current), current + content)
    decreases |content|
  {
    hide Sealed, Escaping, Splits;
    if content == [] {
      assert current + content == current;
      OneCell(current);
    } else if content[0] == '|' && !Escaping(current) {
      NothingSealed();
      RawCellsSplit(content[1..], []);
      assert [] + content[1..] == content[1..];
      SplitsCons(current, RawCells(content[1..], []), content[1..]);
      assert current + "|" + content[1..] == current + content;
    } else {
      SealedGrows(current, content[0]);
      RawCellsSplit(content[1..], current + [content[0]]);
      assert current + [content[0]] + content[1..] == current + content;
    }
  }

  lemma OneCell(raw: string)
    requires Sealed(raw)
    ensures Splits([raw], raw)
  {
    hide Sealed, Escaping;
  }

  lemma NothingSealed()
    ensures Sealed([])
  {
  }

  lemma JoinHead(raws: seq<string>)
    requires raws != []
    ensures raws[0] <= Join(raws)
    ensures |raws| > 1 ==> |Join(raws)| > |raws[0]| && Join(raws)[|raws[0]|] == '|'
                           && Join(raws)[|raws[0]| + 1..] == Join(raws[1..])
    ensures |raws| == 1 ==> Join(raws) == raws[0]
  {
    if |raws| > 1 {
      var joined := raws[0] + "|" + Join(raws[1..]);
      assert joined[|raws[0]| + 1..] == Join(raws[1..]);
    }
  }

  lemma LongerNotSealed(raws: seq<string>, raw: string, content: string)
    requires Splits(raws, content) && raw <= content && |raws[0]| < |raw|
    ensures !Sealed(raw)
  {
    hide Escaping;
    JoinHead(raws);
    assert raw[|raws[0]|] == '|' && raw[..|raws[0]|] == raws[0];
  }

  lemma SameHead(a: seq<string>, b: seq<string>, content: string)
    requires Splits(a, content) && Splits(b, content)
    ensures a[0] == b[0]
  {
    hide Sealed, Escaping;
    JoinHead(a);
    JoinHead(b);
    if |a[0]| < |b[0]| {
      LongerNotSealed(a, b[0], content);
    } else if |b[0]| < |a[0]| {
      LongerNotSealed(b, a[0], content);
    }
  }

  /** There is one way to cut a line at its unescaped pipes. */
  lemma {:induction false} SplitsUnique(a: seq<string>, b: seq<string>, content: string)
    requires Splits(a, content) && Splits(b, content)
    ensures a == b
    decreases |a|
  {
    hide Sealed, Escaping;
    JoinHead(a);
    JoinHead(b);
    SameHead(a, b, content);
    if |a| > 1 && |b| > 1 {
      SplitsUnique(a[1..], b[1..], content[|a[0]| + 1..]);
      assert a == [a[0]] + a[1..] && b == [b[0]] + b[1..];
    }
  }

  /** The cells of a table line are the stripped pieces between its unescaped
      pipes; no other division of the line would do. */
  lemma CellsDivide(line: string, raws: seq<string>)
    requires "|" <= Strip(line)
    requires Splits(raws, Content(Strip(line)))
    ensures Cells(line) == StripEach(raws)
  {
    hide Splits, Strip;
    var content := Content(Strip(line));
    NothingSealed();
    RawCellsSplit(content, []);
    assert [] + content == content;
    SplitsUnique(raws, RawCells(content, []), content);
  }

  // ---------------------------------------------------------------- cell count

  /** The pipe at `i` ends a cell: an even run of backslashes lies before it. */
  predicate Cut(content: string, i: nat) {
    i < |content| && content[i] == '|' && !Escaping(content[..i])
  }

  function CutsFrom(content: string, i: nat): nat
    decreases |content| - i
  {
    if i >= |content| then 0 else (if Cut(content, i) then 1 else 0) + CutsFrom(content, i + 1)
  }

  lemma {:induction false} TailRunBehind(front: string, s: string)
    requires front == [] || front[|front| - 1] != '\\'
    ensures TailRun(front + s) == TailRun(s)
  {
    if s == [] {
      assert front + s == front;
    } else if s[|s| - 1] == '\\' {
      assert (front + s)[..|front + s| - 1] == front + s[..|s| - 1];
      TailRunBehind(front, s[..|s| - 1]);
    }
  }

  lemma {:induction false} CountCells(front: string, current: string, content: string)
    requires front == [] || front[|front| - 1] == '|'
    ensures |RawCells(content, current)| == 1 + CutsFrom(front + current + content, |front + current|)
    decreases |content|
  {
    hide TailRun;
    var whole, i := front + current + content, |front + current|;
    if content != [] {
      assert whole[..i] == front + current && whole[i] == content[0];
      TailRunBehind(front, current);
      if content[0] == '|' && !Escaping(current) {
        var longer := front + current + "|";
        assert longer + [] + content[1..] == whole && |longer + []| == i + 1;
        CountCells(longer, [], content[1..]);
      } else {
        assert front + (current + [content[0]]) + content[1..] == whole;
        CountCells(front, current + [content[0]], content[1..]);
      }
    }
  }

  /** A table line has one cell more than it has unescaped pipes between its ends. */
  lemma CellCount(line: string)
    requires "|" <= Strip(line)
    ensures |Cells(line)| == 1 + CutsFrom(Content(Strip(line)), 0)
  {
    hide RawCells, Strip, CutsFrom;
    var content := Content(Strip(line));
    CountCells([], [], content);
    assert [] + [] + content == content;
  }

  // ---------------------------------------------------------------- round trip

  /** `| c1 | ... | cn |`. */
  function Print(cells: seq<string>): string
    requires cells != []
  {
    "|" + Join(Padded(cells)) + "|"
  }

  function Padded(cells: seq<string>): (r: seq<string>)
    ensures |r| == |cells| && forall k :: 0 <= k < |r| ==> r[k] == " " + cells[k] + " "
  {
    seq(|cells|, k requires 0 <= k < |cells| => " " + cells[k] + " ")
  }

  lemma StripPadded(cell: string)
    requires Trimmed(cell)
    ensures Strip(" " + cell + " ") == cell
  {
    hide TrimRight, TrimLeft;
    var s := " " + cell + " ";
    assert IsSpace(' ');
    if cell == [] {
      TrimRightIs(s, 0);
      TrimLeftIs([], 0);
    } else {
      TrimRightIs(s, |cell| + 1);
      assert s[..|cell| + 1] == " " + cell;
      TrimLeftIs(" " + cell, 1);
    }
  }

  lemma PaddedSealed(cell: string)
    requires Sealed(cell)
    ensures Sealed(" " + cell + " ") && !Escaping(" " + cell + " ")
  {
    var s := " " + cell + " ";
    forall i | 0 <= i < |s| && s[i] == '|' ensures Escaping(s[..i]) {
      assert s[..i] == " " + cell[..i - 1];
      TailRunBehind(" ", cell[..i - 1]);
    }
  }

  lemma PaddedSplits(cells: seq<string>)
    requires cells != [] && forall k :: 0 <= k < |cells| ==> Sealed(cells[k])
    ensures Splits(Padded(cells), Join(Padded(cells)))
  {
    hide Sealed, Escaping, Join;
    var raws := Padded(cells);
    forall k | 0 <= k < |raws| ensures Sealed(raws[k]) && !Escaping(raws[k]) {
      PaddedSealed(cells[k]);
    }
  }

  lemma PrintContent(cells: seq<string>)
    requires cells != []
    ensures Strip(Print(cells)) == Print(cells)
    ensures Content(Print(cells)) == Join(Padded(cells))
  {
    hide Strip, Join;
    var line := Print(cells);
    assert line[0] == line[|line| - 1] == '|';
    assert line[1..] == Join(Padded(cells)) + "|";
  }

  lemma CellsOfPrint(cells: seq<string>)
    requires cells != []
    requires forall k :: 0 <= k < |cells| ==> Trimmed(cells[k]) && Sealed(cells[k])
    ensures Cells(Print(cells)) == cells
  {
    hide Sealed, Escaping, Join, Strip, Splits;
    var raws := Padded(cells);
    PrintContent(cells);
    PaddedSplits(cells);
    CellsDivide(Print(cells), raws);
    forall k | 0 <= k < |cells| ensures Strip(raws[k]) == cells[k] {
      StripPadded(cells[k]);
    }
    assert StripEach(raws) == cells;
  }

  lemma {:induction false} CutsFewerLater(s: string, i: nat, j: nat)
    requires i <= j <= |s|
    ensures CutsFrom(s, i) >= CutsFrom(s, j)
    ensures (exists p: nat :: i <= p < j && Cut(s, p)) ==> CutsFrom(s, i) >= 1 + CutsFrom(s, j)
    decreases j - i
  {
    hide Cut;
    if i < j {
      CutsFewerLater(s, i + 1, j);
    }
  }

  lemma LooseCut(front: string, cell: string, s: string)
    requires front + " " + cell <= s && !Sealed(cell)
    ensures exists p: nat :: |front| <= p <= |front| + |cell| && Cut(s, p)
  {
    hide TailRun;
    var i: nat :| i < |cell| && cell[i] == '|' && !Escaping(cell[..i]);
    var p := |front| + 1 + i;
    assert s[..p] == (front + " ") + cell[..i];
    TailRunBehind(front + " ", cell[..i]);
    assert Cut(s, p);
  }

  lemma SeparatorCuts(front: string, cell: string, s: string)
    requires front + " " + cell + " |" <= s
    ensures var j := |front| + |cell| + 2; CutsFrom(s, j) == 1 + CutsFrom(s, j + 1)
  {
    var before := front + " " + cell + " ";
    assert s[..|before|] == before;
    assert Cut(s, |before|);
  }

  lemma {:induction false} LooseCuts(front: string, cells: seq<string>)
    requires cells != []
    ensures CutsFrom(front + Join(Padded(cells)), |front|) >= |cells| - 1
    ensures (exists k :: 0 <= k < |cells| && !Sealed(cells[k]))
            ==> CutsFrom(front + Join(Padded(cells)), |front|) >= |cells|
    decreases |cells|
  {
    hide Sealed, TailRun, Join, CutsFrom, Cut;
    var raws := Padded(cells);
    var s, raw := front + Join(raws), " " + cells[0] + " ";
    var i, j := |front|, |front + raw|;
    JoinHead(raws);
    assert s[..j] == front + raw && s[..j - 1] == front + " " + cells[0];
    CutsFewerLater(s, i, j);
    if !Sealed(cells[0]) {
      LooseCut(front, cells[0], s);
    }
    if |cells| > 1 {
      assert Padded(cells[1..]) == raws[1..];
      assert s == front + raw + "|" + Join(raws[1..]) by {
        assert Join(raws) == raw + "|" + Join(raws[1..]);
      }
      SeparatorCuts(front, cells[0], s);
      LooseCuts(front + raw + "|", cells[1..]);
    }
  }

  /** Tokenizing undoes printing exactly for trimmed cells whose every pipe is
      escaped within its cell. */
  lemma RoundTripExactly(cells: seq<string>)
    requires cells != []
    ensures Cells(Print(cells)) == cells
            <==> forall k :: 0 <= k < |cells| ==> Trimmed(cells[k]) && Sealed(cells[k])
  {
    hide Sealed, Strip, Join, RawCells, Content, CutsFrom, Print;
    PrintContent(cells);
    assert "|" <= Print(cells) by { PrintStarts(cells); }
    var back := Cells(Print(cells));
    if back == cells {
      CellCount(Print(cells));
      LooseCuts([], cells);
      assert [] + Join(Padded(cells)) == Join(Padded(cells));
      assert forall k :: 0 <= k < |cells| ==> Trimmed(back[k]);
    } else if forall k :: 0 <= k < |cells| ==> Trimmed(cells[k]) && Sealed(cells[k]) {
      CellsOfPrint(cells);
    }
  }

  lemma PrintStarts(cells: seq<string>)
    requires cells != []
    ensures "|" <= Print(cells)
  {
  }
}
