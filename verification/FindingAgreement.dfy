/** What it means that the record check finds nothing to complain about. */
module FindingAgreement {
  import opened AuditVerdict
  import opened FindingRecords
  import opened FindingsMatrix
  import opened Text

  // ---------------------------------------------------- what silence amounts to

  /** A record without flaw: no field twice, none missing, values as prescribed. */
  ghost predicate Flawless(record: Record) {
    NoRepeats(Labels(record.fields)) && Sound(Fields(record.fields))
  }

  ghost predicate Agrees(record: Record, row: Row) {
    && UpperAll(row.id) == record.id
    && Sound(Fields(record.fields))
    && SameSeverity(Fields(record.fields), row) && SameBlocking(Fields(record.fields), row)
  }

  ghost predicate HasRow(record: Record, rows: seq<Row>) {
    exists j :: 0 <= j < |rows| && Agrees(record, rows[j])
  }

  ghost predicate HasRecord(row: Row, records: seq<Record>) {
    exists k :: 0 <= k < |records| && Agrees(records[k], row)
  }

  /** Records and rows say the same: flawless records under distinct identifiers,
      rows under distinct identifiers, and each has its counterpart. */
  ghost predicate Consistent(records: seq<Record>, rows: seq<Row>) {
    && NoRepeats(Ids(records)) && NoRepeats(RowIds(rows))
    && (forall k :: 0 <= k < |records| ==> Flawless(records[k]))
    && (forall k :: 0 <= k < |records| ==> HasRow(records[k], rows))
    && forall j :: 0 <= j < |rows| ==> HasRecord(rows[j], records)
  }

  lemma UniqueStep(records: seq<Record>)
    requires records != []
    ensures var last := |records| - 1;
            Unique(records) == Unique(records[..last])[records[last].id := Fields(records[last].fields)]
  {
    hide Fields, Ids;
  }

  lemma {:induction false} UniqueOfDistinct(records: seq<Record>, k: nat)
    requires NoRepeats(Ids(records)) && k < |records|
    ensures records[k].id in Unique(records) && Unique(records)[records[k].id] == Fields(records[k].fields)
  {
    hide Fields, Unique, NoRepeats;
    var last := |records| - 1;
    UniqueStep(records);
    if k < last {
      DistinctAt(Ids(records), k, last);
      FewerDistinct(records);
      UniqueOfDistinct(records[..last], k);
    }
  }

  lemma FewerDistinct(records: seq<Record>)
    requires NoRepeats(Ids(records)) && records != []
    ensures NoRepeats(Ids(records[..|records| - 1]))
  {
    var fewer := Ids(records[..|records| - 1]);
    assert forall k :: 0 <= k < |fewer| ==> fewer[k] == Ids(records)[k];
  }

  lemma RepeatsSomewhere(s: seq<string>)
    requires !NoRepeats(s)
    ensures exists x :: Repeats(s, x) && x in s
  {
    var j, k :| 0 <= j < k < |s| && s[j] == s[k];
    assert Repeats(s, s[j]);
  }

  lemma NoneRepeat(s: seq<string>)
    requires NoRepeats(s)
    ensures forall x :: !Repeats(s, x)
  {
  }

  /** No complaint is due exactly when records and rows are consistent. */
  lemma SilentExactly(records: seq<Record>, rows: seq<Row>)
    ensures (forall issue :: !Due(issue, records, rows)) <==> Consistent(records, rows)
  {
    if forall issue :: !Due(issue, records, rows) {
      SilentMeansConsistent(records, rows);
    }
    if Consistent(records, rows) {
      forall issue ensures !Due(issue, records, rows) {
        ConsistentIsSilent(issue, records, rows);
      }
    }
  }

  lemma RepeatedRecordDue(records: seq<Record>, rows: seq<Row>)
    requires !NoRepeats(Ids(records))
    ensures exists issue :: Due(issue, records, rows)
  {
    hide Repeats, NoRepeats, Unique;
    RepeatsSomewhere(Ids(records));
    var x :| Repeats(Ids(records), x);
    assert Due(RepeatedRecord(x), records, rows);
  }

  lemma RepeatedRowDue(records: seq<Record>, rows: seq<Row>)
    requires !NoRepeats(RowIds(rows))
    ensures exists issue :: Due(issue, records, rows)
  {
    hide Repeats, NoRepeats, Unique;
    RepeatsSomewhere(RowIds(rows));
    var x :| Repeats(RowIds(rows), x);
    assert Due(RepeatedRow(x), records, rows);
  }

  lemma RepeatedFieldDue(records: seq<Record>, rows: seq<Row>, k: nat)
    requires k < |records| && !NoRepeats(Labels(records[k].fields))
    ensures exists issue :: Due(issue, records, rows)
  {
    hide Repeats, NoRepeats, Unique;
    RepeatsSomewhere(Labels(records[k].fields));
    var x :| Repeats(Labels(records[k].fields), x);
    assert Due(RepeatedField(records[k].id, x), records, rows);
  }

  lemma NoFieldRepeated(records: seq<Record>, id: string)
    requires forall k :: 0 <= k < |records| ==> NoRepeats(Labels(records[k].fields))
    ensures !FieldRepeated(records, id)
  {
    hide Repeats, NoRepeats;
    forall k | 0 <= k < |records| ensures forall x :: !Repeats(Labels(records[k].fields), x) {
      NoneRepeat(Labels(records[k].fields));
    }
  }

  lemma SilentDistinct(records: seq<Record>, rows: seq<Row>)
    requires forall issue :: !Due(issue, records, rows)
    ensures NoRepeats(Ids(records)) && NoRepeats(RowIds(rows))
    ensures forall k :: 0 <= k < |records| ==> NoRepeats(Labels(records[k].fields))
  {
    hide NoRepeats, Due;
    if !NoRepeats(Ids(records)) {
      RepeatedRecordDue(records, rows);
    }
    if !NoRepeats(RowIds(rows)) {
      RepeatedRowDue(records, rows);
    }
    forall k | 0 <= k < |records| ensures NoRepeats(Labels(records[k].fields)) {
      if !NoRepeats(Labels(records[k].fields)) {
        RepeatedFieldDue(records, rows, k);
      }
    }
  }

  lemma SilentRecord(records: seq<Record>, rows: seq<Row>, id: string)
    requires forall issue :: !Due(issue, records, rows)
    requires id in Unique(records) && !FieldRepeated(records, id)
    ensures Comparable(records, id) && id in RowIds(rows)
  {
    hide Unique, Complete, SeverityGood, BlockingGood, FieldRepeated;
    assert !Due(Incomplete(id), records, rows);
    assert !Due(BadSeverity(id), records, rows);
    assert !Due(BadBlocking(id), records, rows);
    assert !Due(NotInMatrix(id), records, rows);
  }

  lemma SilentRow(records: seq<Record>, rows: seq<Row>, j: nat)
    requires forall issue :: !Due(issue, records, rows)
    requires j < |rows|
    ensures var id := UpperAll(rows[j].id);
            id in Unique(records) && (Comparable(records, id) ==>
              SameSeverity(Unique(records)[id], rows[j]) && SameBlocking(Unique(records)[id], rows[j]))
  {
    hide Unique, Comparable, SameSeverity, SameBlocking, UpperAll;
    assert !Due(NoRecord(rows[j].id), records, rows);
    assert !Due(SeverityDiffers(rows[j].id), records, rows);
    assert !Due(BlockingDiffers(rows[j].id), records, rows);
  }

  lemma SilentMeansConsistent(records: seq<Record>, rows: seq<Row>)
    requires forall issue :: !Due(issue, records, rows)
    ensures Consistent(records, rows)
  {
    hide Due, Unique, Sound, NoRepeats, FieldRepeated, SameSeverity, SameBlocking, Fields, UpperAll;
    SilentDistinct(records, rows);
    forall k | 0 <= k < |records| ensures Flawless(records[k]) && HasRow(records[k], rows) {
      SilentRecordAgrees(records, rows, k);
    }
    forall j | 0 <= j < |rows| ensures HasRecord(rows[j], records) {
      SilentRowAgrees(records, rows, j);
    }
  }

  lemma SilentRecordAgrees(records: seq<Record>, rows: seq<Row>, k: nat)
    requires forall issue :: !Due(issue, records, rows)
    requires k < |records|
    ensures Flawless(records[k]) && HasRow(records[k], rows)
  {
    hide Due, Unique, Sound, NoRepeats, FieldRepeated, SameSeverity, SameBlocking, Fields, UpperAll;
    var id := records[k].id;
    SilentDistinct(records, rows);
    UniqueOfDistinct(records, k);
    NoFieldRepeated(records, id);
    SilentRecord(records, rows, id);
    var j :| 0 <= j < |RowIds(rows)| && RowIds(rows)[j] == id;
    SilentRow(records, rows, j);
    assert Agrees(records[k], rows[j]);
  }

  lemma SilentRowAgrees(records: seq<Record>, rows: seq<Row>, j: nat)
    requires forall issue :: !Due(issue, records, rows)
    requires j < |rows|
    ensures HasRecord(rows[j], records)
  {
    hide Due, Unique, Sound, NoRepeats, FieldRepeated, SameSeverity, SameBlocking, Fields, UpperAll;
    var id := UpperAll(rows[j].id);
    SilentRow(records, rows, j);
    assert id in Ids(records);
    var k :| 0 <= k < |Ids(records)| && Ids(records)[k] == id;
    SilentDistinct(records, rows);
    UniqueOfDistinct(records, k);
    NoFieldRepeated(records, id);
    SilentRecord(records, rows, id);
    assert Agrees(records[k], rows[j]);
  }

  lemma ConsistentRecord(records: seq<Record>, rows: seq<Row>, id: string)
    requires Consistent(records, rows) && id in Unique(records)
    ensures Comparable(records, id) && id in RowIds(rows)
  {
    hide Fields, UpperAll, Repeats, NoRepeats, Complete, FieldRepeated, Sound, SameSeverity, SameBlocking, HasRecord;
    var k :| 0 <= k < |Ids(records)| && Ids(records)[k] == id;
    UniqueOfDistinct(records, k);
    assert Flawless(records[k]);
    var j := RowOf(records[k], rows);
    assert RowIds(rows)[j] == id;
    NoFieldRepeated(records, id);
  }

  lemma ConsistentRow(records: seq<Record>, rows: seq<Row>, j: nat)
    requires Consistent(records, rows) && j < |rows|
    ensures var id := UpperAll(rows[j].id);
            id in Unique(records) && Sound(Unique(records)[id])
            && SameSeverity(Unique(records)[id], rows[j]) && SameBlocking(Unique(records)[id], rows[j])
  {
    hide Fields, UpperAll, Repeats, NoRepeats, SameSeverity, SameBlocking, Sound, Flawless, HasRow;
    var k := RecordOf(rows[j], records);
    UniqueOfDistinct(records, k);
  }

  lemma ConsistentIsSilent(issue: RecordIssue, records: seq<Record>, rows: seq<Row>)
    requires Consistent(records, rows)
    ensures !Due(issue, records, rows)
  {
    hide Unique, UpperAll, Repeats, NoRepeats, SameSeverity, SameBlocking, FieldRepeated, Complete, SeverityGood,
      BlockingGood, Flawless, HasRow, HasRecord;
    if OnRow(issue) {
      forall j | 0 <= j < |rows| && rows[j].id == issue.id ensures !RowIssueAt(issue, records, rows[j]) {
        ConsistentRow(records, rows, j);
      }
    } else if issue.RepeatedField? {
      forall k | 0 <= k < |records| ensures !Repeats(Labels(records[k].fields), issue.name) {
        assert Flawless(records[k]) && NoRepeats(Labels(records[k].fields)) by { FlawlessNoRepeats(records[k]); }
        NoneRepeat(Labels(records[k].fields));
      }
    } else {
      NoneRepeat(Ids(records));
      NoneRepeat(RowIds(rows));
      if issue.id in Unique(records) {
        ConsistentRecord(records, rows, issue.id);
      }
    }
  }

  lemma FlawlessNoRepeats(record: Record)
    requires Flawless(record)
    ensures NoRepeats(Labels(record.fields))
  {
  }

  lemma AgreesOnId(record: Record, row: Row)
    requires Agrees(record, row)
    ensures UpperAll(row.id) == record.id
  {
  }

  lemma DistinctAt(s: seq<string>, j: nat, k: nat)
    requires NoRepeats(s) && j < k < |s|
    ensures s[j] != s[k]
  {
  }

  lemma SameIndex(s: seq<string>, j: nat, k: nat)
    requires NoRepeats(s) && j < |s| && k < |s| && s[j] == s[k]
    ensures j == k
  {
  }

  ghost predicate Pairs(pairing: seq<nat>, records: seq<Record>, rows: seq<Row>) {
    |pairing| <= |records|
    && forall k :: 0 <= k < |pairing| ==> pairing[k] < |rows| && Agrees(records[k], rows[pairing[k]])
  }

  lemma PairsDistinct(pairing: seq<nat>, records: seq<Record>, rows: seq<Row>, j: nat, k: nat)
    requires Pairs(pairing, records, rows) && NoRepeats(Ids(records)) && j < k < |pairing|
    ensures pairing[j] != pairing[k]
  {
    hide Agrees, NoRepeats;
    AgreesOnId(records[j], rows[pairing[j]]);
    AgreesOnId(records[k], rows[pairing[k]]);
    DistinctAt(Ids(records), j, k);
  }

  lemma PairsOnto(pairing: seq<nat>, records: seq<Record>, rows: seq<Row>, j: nat, k: nat)
    requires Pairs(pairing, records, rows) && NoRepeats(RowIds(rows))
    requires j < |rows| && k < |pairing| && Agrees(records[k], rows[j])
    ensures pairing[k] == j
  {
    hide Agrees, NoRepeats;
    AgreesOnId(records[k], rows[j]);
    AgreesOnId(records[k], rows[pairing[k]]);
    SameIndex(RowIds(rows), j, pairing[k]);
  }

  lemma RowOf(record: Record, rows: seq<Row>) returns (j: nat)
    requires HasRow(record, rows)
    ensures j < |rows| && Agrees(record, rows[j])
  {
    hide Agrees;
    j :| j < |rows| && Agrees(record, rows[j]);
  }

  lemma RecordOf(row: Row, records: seq<Record>) returns (k: nat)
    requires HasRecord(row, records)
    ensures k < |records| && Agrees(records[k], row)
  {
    hide Agrees;
    k :| k < |records| && Agrees(records[k], row);
  }

  /** Consistent records and rows pair off one to one, with equal class and
      equal blocking flag. */
  lemma Bijection(records: seq<Record>, rows: seq<Row>) returns (pairing: seq<nat>)
    requires Consistent(records, rows)
    ensures |pairing| == |records| && Pairs(pairing, records, rows)
    ensures forall j, k :: 0 <= j < k < |pairing| ==> pairing[j] != pairing[k]
    ensures forall j :: 0 <= j < |rows| ==> j in pairing
  {
    hide Agrees, Flawless, NoRepeats, HasRow, HasRecord;
    pairing := [];
    for k := 0 to |records|
      invariant |pairing| == k && Pairs(pairing, records, rows)
    {
      var j := RowOf(records[k], rows);
      pairing := pairing + [j];
    }
    forall j, k | 0 <= j < k < |pairing| ensures pairing[j] != pairing[k] {
      PairsDistinct(pairing, records, rows, j, k);
    }
    forall j | 0 <= j < |rows| ensures j in pairing {
      var k := RecordOf(rows[j], records);
      PairsOnto(pairing, records, rows, j, k);
    }
  }

  // --------------------------------------------------------- verdict and records

  /** An audit both validators are silent about: the class of each rendered
      finding bounds the verdict, whatever the matrix looks like. */
  lemma RecordsBindVerdict(records: seq<Record>, rows: seq<Row>, verdict: Verdict, k: nat)
    requires Consistent(records, rows) && Classed(rows)
    requires BlocksProperly(rows) && Allowed(rows, verdict)
    requires k < |records|
    ensures Complete(Fields(records[k].fields))
    ensures var severity := SeverityOf(Fields(records[k].fields));
            && (severity == "D" ==> verdict == NotReady)
            && (severity == "C" ==> Caution(verdict) >= Caution(RevisionRequired))
            && (severity == "B" ==> Caution(verdict) >= Caution(ReadyWithMinorFindings))
            && (BlockingOf(Fields(records[k].fields)) == "YES" <==> severity in {"C", "D"})
  {
    hide Fields, UpperAll, NoRepeats, Complete, SeverityOf, BlockingOf, IsHighest, Allowed, BlocksProperly, HasRow,
      HasRecord;
    assert Flawless(records[k]);
    var j := RowOf(records[k], rows);
    RowBindsVerdict(rows, verdict, j);
    assert forall c: char :: [c] == "D" <==> c == 'D';
    assert forall c: char :: [c] == "C" <==> c == 'C';
    assert forall c: char :: [c] == "B" <==> c == 'B';
  }
}
