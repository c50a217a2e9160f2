/** Findings, matrix and verdict of an audit against each other. */
module AuditVerdict {
  import opened FindingsMatrix
  import opened Text

  // ---------------------------------------------------------------- the verdict

  datatype Verdict = ReadyForAdr | ReadyWithMinorFindings | ConditionalReady | RevisionRequired | NotReady

  /** How far a verdict is from letting the decision go ahead. */
  function Caution(verdict: Verdict): nat {
    match verdict
    case ReadyForAdr => 0
    case ReadyWithMinorFindings => 1
    case ConditionalReady => 2
    case RevisionRequired => 3
    case NotReady => 4
  }

  datatype VerdictIssue =
    | InMatrix(error: MatrixError)
    | NeedsBlocking
    | NeedsFinding
    | NeedsClassB
    | MustBlock(id: string)
    | MayNotBlock(id: string)
    | HighestWants(severity: char)
    | NotReadyWantsD
    | RevisionWantsC
    | MinorWantsAOrB

  ghost predicate IsHighest(rows: seq<Row>, severity: char) {
    && (exists k :: 0 <= k < |rows| && rows[k].severity == severity)
    && forall k :: 0 <= k < |rows| ==> rows[k].severity <= severity
  }

  /** The verdicts the highest class leaves open. */
  ghost predicate Allowed(rows: seq<Row>, verdict: Verdict) {
    match verdict
    case ReadyForAdr => rows == [] || IsHighest(rows, 'A')
    case ReadyWithMinorFindings => IsHighest(rows, 'A') || IsHighest(rows, 'B')
    case ConditionalReady => IsHighest(rows, 'B')
    case RevisionRequired => IsHighest(rows, 'C')
    case NotReady => IsHighest(rows, 'D')
  }

  /** Exactly the findings of class C and D block the ADR. */
  ghost predicate BlocksProperly(rows: seq<Row>) {
    forall k :: 0 <= k < |rows| ==> (rows[k].blocks <==> rows[k].severity in {'C', 'D'})
  }

  /** `any` over the rows: blocking ones, and ones of class B. */
  method AnyBlocks(rows: seq<Row>) returns (found: bool)
    ensures found <==> exists k :: 0 <= k < |rows| && rows[k].blocks
  {
    found := false;
    for i := 0 to |rows|
      invariant found <==> exists k :: 0 <= k < i && rows[k].blocks
    {
      found := found || rows[i].blocks;
    }
  }

  method AnyOfClass(rows: seq<Row>, severity: char) returns (found: bool)
    ensures found <==> exists k :: 0 <= k < |rows| && rows[k].severity == severity
  {
    found := false;
    for i := 0 to |rows|
      invariant found <==> exists k :: 0 <= k < i && rows[k].severity == severity
    {
      found := found || rows[i].severity == severity;
    }
  }

  method Highest(rows: seq<Row>) returns (highest: char)
    requires rows != []
    ensures IsHighest(rows, highest)
  {
    highest := rows[0].severity;
    for i := 1 to |rows|
      invariant exists k :: 0 <= k < |rows| && rows[k].severity == highest
      invariant forall k :: 0 <= k < i ==> rows[k].severity <= highest
    {
      if rows[i].severity > highest {
        highest := rows[i].severity;
      }
    }
  }

  /** The per-row part: class against the blocking flag. */
  method BlockingIssues(rows: seq<Row>) returns (issues: seq<VerdictIssue>)
    requires Classed(rows)
    ensures issues == [] <==> BlocksProperly(rows)
  {
    issues := [];
    for i := 0 to |rows|
      invariant issues == [] <==> BlocksProperly(rows[..i])
    {
      var row := rows[i];
      ghost var before := issues;
      if row.severity in {'C', 'D'} && !row.blocks {
        issues := issues + [MustBlock(row.id)];
      }
      if row.severity in {'A', 'B'} && row.blocks {
        issues := issues + [MayNotBlock(row.id)];
      }
      assert rows[..i + 1] == rows[..i] + [row] && rows[..i + 1][i] == row;
      assert BlocksProperly(rows[..i + 1]) <==> BlocksProperly(rows[..i]) && BlocksProperly([row]) by {
        assert [row][0] == row;
        assert forall k :: 0 <= k < i ==> rows[..i + 1][k] == rows[..i][k];
      }
      assert before == issues <==> BlocksProperly([row]);
    }
    assert rows[..|rows|] == rows;
  }

  /** The part that compares the verdict with the highest class. */
  method HighestIssues(verdict: Verdict, highest: char) returns (issues: seq<VerdictIssue>)
    requires 'A' <= highest <= 'D'
    ensures issues == [] <==> match highest
                              case 'A' => verdict in {ReadyForAdr, ReadyWithMinorFindings}
                              case 'B' => verdict in {ReadyWithMinorFindings, ConditionalReady}
                              case 'C' => verdict == RevisionRequired
                              case _ => verdict == NotReady
  {
    issues := [];
    if (highest == 'D' && verdict != NotReady) || (highest == 'C' && verdict != RevisionRequired)
      || (highest == 'B' && verdict !in {ReadyWithMinorFindings, ConditionalReady})
      || (highest == 'A' && verdict !in {ReadyForAdr, ReadyWithMinorFindings})
    {
      issues := issues + [HighestWants(highest)];
    }
    if verdict == NotReady && highest != 'D' {
      issues := issues + [NotReadyWantsD];
    }
    if verdict == RevisionRequired && highest != 'C' {
      issues := issues + [RevisionWantsC];
    }
    if verdict in {ReadyWithMinorFindings, ConditionalReady} && highest !in {'A', 'B'} {
      issues := issues + [MinorWantsAOrB];
    }
  }

  /** `_validate_verdict_consistency`: silent exactly when the blocking flags follow
      the classes and the verdict is one the highest class leaves open. */
  method VerdictIssues(selected: Option<Verdict>, rows: seq<Row>, errors: seq<MatrixError>)
      returns (issues: seq<VerdictIssue>)
    requires Classed(rows)
    ensures errors != [] ==> issues == seq(|errors|, k requires 0 <= k < |errors| => InMatrix(errors[k]))
    ensures errors == [] ==>
      (issues == [] <==> selected.None? || (BlocksProperly(rows) && Allowed(rows, selected.value)))
  {
    if errors != [] {
      return seq(|errors|, k requires 0 <= k < |errors| => InMatrix(errors[k]));
    }
    if selected.None? {
      return [];
    }
    var verdict := selected.value;
    issues := [];
    var blocking := AnyBlocks(rows);
    if verdict in {RevisionRequired, NotReady} && !blocking {
      issues := issues + [NeedsBlocking];
    }
    if verdict == ReadyWithMinorFindings && rows == [] {
      issues := issues + [NeedsFinding];
    }
    var ofClassB := AnyOfClass(rows, 'B');
    if verdict == ConditionalReady && !ofClassB {
      issues := issues + [NeedsClassB];
    }
    if rows == [] {
      return;
    }
    var highest := Highest(rows);
    HighestUnique(rows, highest);
    ghost var early := issues;
    var flags := BlockingIssues(rows);
    var ranks := HighestIssues(verdict, highest);
    assert BlocksProperly(rows) && ranks == [] ==> early == [] by {
      var k :| 0 <= k < |rows| && rows[k].severity == highest;
      assert highest in {'C', 'D'} && BlocksProperly(rows) ==> rows[k].blocks;
    }
    issues := issues + flags + ranks;
  }

  lemma HighestUnique(rows: seq<Row>, highest: char)
    requires IsHighest(rows, highest)
    ensures forall other :: IsHighest(rows, other) <==> other == highest
  {
  }

  /** The verdict follows from the highest class alone: on two sets of findings
      with the same highest class the same verdicts are open. */
  lemma OnlyHighestCounts(rows: seq<Row>, others: seq<Row>, highest: char, verdict: Verdict)
    requires IsHighest(rows, highest) && IsHighest(others, highest)
    ensures Allowed(rows, verdict) <==> Allowed(others, verdict)
  {
    HighestUnique(rows, highest);
    HighestUnique(others, highest);
    assert rows != [] && others != [];
  }

  lemma {:induction false} SomeHighest(rows: seq<Row>)
    requires rows != []
    ensures exists severity :: IsHighest(rows, severity)
  {
    if |rows| == 1 {
      assert IsHighest(rows, rows[0].severity);
    } else {
      SomeHighest(rows[1..]);
      var later :| IsHighest(rows[1..], later);
      var k :| 0 <= k < |rows[1..]| && rows[1..][k].severity == later;
      assert rows[k + 1].severity == later;
      assert forall j :: 0 < j < |rows| ==> rows[j] == rows[1..][j - 1];
      var severity := if rows[0].severity > later then rows[0].severity else later;
      assert IsHighest(rows, severity);
    }
  }

  /** Adding findings never makes the audit more ready: whatever verdict is open
      afterwards, one at most as cautious was open before; and whatever was open
      before, one at least as cautious is open afterwards. */
  lemma FindingsNeverHelp(rows: seq<Row>, more: seq<Row>)
    requires Classed(more) && forall k :: 0 <= k < |rows| ==> rows[k] in more
    ensures forall after :: Allowed(more, after) ==>
              exists before :: Allowed(rows, before) && Caution(before) <= Caution(after)
    ensures forall before :: Allowed(rows, before) ==>
              exists after :: Allowed(more, after) && Caution(before) <= Caution(after)
  {
    hide IsHighest;
    if rows == [] {
      assert Allowed(rows, ReadyForAdr);
      SomeOpen(more);
      assert forall before :: Allowed(rows, before) ==> before == ReadyForAdr by { EmptyHasNoHighest(); }
    } else {
      assert rows[0] in more;
      SomeHighest(rows);
      SomeHighest(more);
      var low :| IsHighest(rows, low);
      var high :| IsHighest(more, high);
      HighestUnique(rows, low);
      HighestUnique(more, high);
      HighestRises(rows, more, low, high);
      OpenAt(rows, low);
      OpenAt(more, high);
    }
  }

  lemma HighestRises(rows: seq<Row>, more: seq<Row>, low: char, high: char)
    requires Classed(more) && forall k :: 0 <= k < |rows| ==> rows[k] in more
    requires IsHighest(rows, low) && IsHighest(more, high)
    ensures 'A' <= low <= high <= 'D'
  {
    var k :| 0 <= k < |rows| && rows[k].severity == low;
    var j :| 0 <= j < |more| && more[j] == rows[k];
  }

  lemma EmptyHasNoHighest()
    ensures forall severity :: !IsHighest([], severity)
  {
  }

  /** The least and the most cautious verdict open under a highest class. */
  lemma OpenAt(rows: seq<Row>, highest: char)
    requires IsHighest(rows, highest) && 'A' <= highest <= 'D'
    ensures forall verdict :: Allowed(rows, verdict) <==> match highest
                                case 'A' => Caution(verdict) <= 1
                                case 'B' => 1 <= Caution(verdict) <= 2
                                case 'C' => Caution(verdict) == 3
                                case _ => Caution(verdict) == 4
    ensures Allowed(rows, match highest case 'A' => ReadyForAdr case 'B' => ReadyWithMinorFindings
                                        case 'C' => RevisionRequired case _ => NotReady)
    ensures Allowed(rows, match highest case 'A' => ReadyWithMinorFindings case 'B' => ConditionalReady
                                        case 'C' => RevisionRequired case _ => NotReady)
  {
    HighestUnique(rows, highest);
  }

  lemma SomeOpen(rows: seq<Row>)
    requires Classed(rows)
    ensures exists verdict :: Allowed(rows, verdict)
  {
    if rows == [] {
      assert Allowed(rows, ReadyForAdr);
    } else {
      SomeHighest(rows);
      var highest :| IsHighest(rows, highest);
      HighestRises(rows, rows, highest, highest);
      OpenAt(rows, highest);
    }
  }

  /** Each single row bounds the verdict by its class. */
  lemma RowBindsVerdict(rows: seq<Row>, verdict: Verdict, j: nat)
    requires Classed(rows) && BlocksProperly(rows) && Allowed(rows, verdict) && j < |rows|
    ensures rows[j].severity == 'D' ==> verdict == NotReady
    ensures rows[j].severity == 'C' ==> Caution(verdict) >= Caution(RevisionRequired)
    ensures rows[j].severity == 'B' ==> Caution(verdict) >= Caution(ReadyWithMinorFindings)
    ensures rows[j].blocks <==> rows[j].severity in {'C', 'D'}
  {
    SomeHighest(rows);
    var highest :| IsHighest(rows, highest);
    HighestRises(rows, rows, highest, highest);
    OpenAt(rows, highest);
  }
}
