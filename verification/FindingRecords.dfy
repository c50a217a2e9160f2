/** The finding records of an audit against the rows of its Findings Matrix. */
module FindingRecords {
  import opened AuditVerdict
  import opened FindingsMatrix
  import opened Text

  /** A rendered record: its identifier and its fields in document order. */
  datatype Record = Record(id: string, fields: seq<(string, string)>)

  const REQUIRED := [
    "evidence", "location", "category", "severity", "decision impact", "consequence if ignored", "required action",
    "blocks adr"]

  datatype RecordIssue =
    | RepeatedField(id: string, name: string)
    | RepeatedRecord(id: string)
    | RepeatedRow(id: string)
    | Incomplete(id: string)
    | BadSeverity(id: string)
    | BadBlocking(id: string)
    | NotInMatrix(id: string)
    | NoRecord(id: string)
    | SeverityDiffers(id: string)
    | BlockingDiffers(id: string)

  // -------------------------------------------------------------- reading them

  function Labels(fields: seq<(string, string)>): (r: seq<string>)
    ensures |r| == |fields| && forall k :: 0 <= k < |r| ==> r[k] == fields[k].0
  {
    seq(|fields|, k requires 0 <= k < |fields| => fields[k].0)
  }

  function Ids(records: seq<Record>): (r: seq<string>)
    ensures |r| == |records| && forall k :: 0 <= k < |r| ==> r[k] == records[k].id
  {
    seq(|records|, k requires 0 <= k < |records| => records[k].id)
  }

  /** The identifiers of the rows, in upper case. */
  function RowIds(rows: seq<Row>): (r: seq<string>)
    ensures |r| == |rows| && forall k :: 0 <= k < |r| ==> r[k] == UpperAll(rows[k].id)
  {
    seq(|rows|, k requires 0 <= k < |rows| => UpperAll(rows[k].id))
  }

  predicate Repeats(s: seq<string>, x: string) {
    exists j, k :: 0 <= j < k < |s| && s[j] == x && s[k] == x
  }

  ghost predicate NoRepeats(s: seq<string>) {
    forall j, k :: 0 <= j < k < |s| ==> s[j] != s[k]
  }

  /** `dict(fields)`: a later field overwrites an earlier one. */
  function Fields(fields: seq<(string, string)>): map<string, string> {
    if fields == [] then map[]
    else Fields(fields[..|fields| - 1])[fields[|fields| - 1].0 := fields[|fields| - 1].1]
  }

  /** `{id: dict(fields)}`: a later record overwrites an earlier one. */
  function Unique(records: seq<Record>): (r: map<string, map<string, string>>)
    ensures forall id :: id in r <==> id in Ids(records)
  {
    if records == [] then map[]
    else
      var last := |records| - 1;
      assert Ids(records) == Ids(records[..last]) + [records[last].id];
      Unique(records[..last])[records[last].id := Fields(records[last].fields)]
  }

  predicate Complete(record: map<string, string>) {
    forall k :: 0 <= k < |REQUIRED| ==> REQUIRED[k] in record && Strip(record[REQUIRED[k]]) != []
  }

  function SeverityOf(record: map<string, string>): string
    requires Complete(record)
  {
    assert REQUIRED[3] == "severity";
    UpperAll(record["severity"])
  }

  function BlockingOf(record: map<string, string>): string
    requires Complete(record)
  {
    assert REQUIRED[7] == "blocks adr";
    UpperAll(record["blocks adr"])
  }

  predicate SeverityGood(record: map<string, string>)
    requires Complete(record)
  {
    SeverityOf(record) in {"A", "B", "C", "D"}
  }

  predicate BlockingGood(record: map<string, string>)
    requires Complete(record)
  {
    BlockingOf(record) in {"YES", "NO"}
  }

  predicate Sound(record: map<string, string>) {
    Complete(record) && SeverityGood(record) && BlockingGood(record)
  }

  predicate FieldRepeated(records: seq<Record>, id: string) {
    exists k :: 0 <= k < |records| && records[k].id == id
      && exists i :: 0 <= i < |records[k].fields| && Repeats(Labels(records[k].fields), records[k].fields[i].0)
  }

  predicate SameSeverity(record: map<string, string>, row: Row)
    requires Complete(record)
  {
    SeverityOf(record) == [row.severity]
  }

  predicate SameBlocking(record: map<string, string>, row: Row)
    requires Complete(record)
  {
    BlockingOf(record) == if row.blocks then "YES" else "NO"
  }

  // ------------------------------------------------------------ the complaints

  /** When each complaint is due. */
  ghost predicate Due(issue: RecordIssue, records: seq<Record>, rows: seq<Row>) {
    var unique := Unique(records);
    match issue
    case RepeatedField(id, name) =>
      exists k :: 0 <= k < |records| && records[k].id == id && Repeats(Labels(records[k].fields), name)
    case RepeatedRecord(id) => Repeats(Ids(records), id)
    case RepeatedRow(id) => Repeats(RowIds(rows), id)
    case Incomplete(id) => id in unique && !FieldRepeated(records, id) && !Complete(unique[id])
    case BadSeverity(id) =>
      id in unique && !FieldRepeated(records, id) && Complete(unique[id]) && !SeverityGood(unique[id])
    case BadBlocking(id) =>
      id in unique && !FieldRepeated(records, id) && Complete(unique[id]) && SeverityGood(unique[id])
      && !BlockingGood(unique[id])
    case NotInMatrix(id) => id in unique && id !in RowIds(rows)
    case NoRecord(id) => exists k :: 0 <= k < |rows| && rows[k].id == id && UpperAll(id) !in unique
    case SeverityDiffers(id) =>
      exists k :: 0 <= k < |rows| && rows[k].id == id && Comparable(records, UpperAll(id))
        && !SameSeverity(unique[UpperAll(id)], rows[k])
    case BlockingDiffers(id) =>
      exists k :: 0 <= k < |rows| && rows[k].id == id && Comparable(records, UpperAll(id))
        && !SameBlocking(unique[UpperAll(id)], rows[k])
  }

  /** The `valid_records`: complete, well-valued, no field twice. */
  predicate Comparable(records: seq<Record>, id: string)
    ensures Comparable(records, id) ==> id in Unique(records) && Sound(Unique(records)[id])
  {
    id in Unique(records) && !FieldRepeated(records, id) && Sound(Unique(records)[id])
  }

  /** What occurs more than once. */
  method Repeated(s: seq<string>) returns (found: seq<string>)
    ensures forall x :: x in found <==> Repeats(s, x)
  {
    found := [];
    for i := 0 to |s|
      invariant forall x :: x in found <==> Repeats(s[..i], x)
    {
      ghost var before := found;
      assert forall x :: Repeats(s[..i + 1], x) <==> Repeats(s[..i], x) || (x == s[i] && x in s[..i]) by {
        assert s[..i + 1] == s[..i] + [s[i]];
        RepeatsMore(s[..i], s[i]);
      }
      if s[i] in s[..i] && s[i] !in found {
        found := found + [s[i]];
      }
    }
    assert s[..|s|] == s;
  }

  lemma RepeatsMore(s: seq<string>, last: string)
    ensures forall x :: Repeats(s + [last], x) <==> Repeats(s, x) || (x == last && x in s)
  {
    var longer := s + [last];
    forall x ensures Repeats(longer, x) <==> Repeats(s, x) || (x == last && x in s) {
      if Repeats(longer, x) {
        var j, k :| 0 <= j < k < |longer| && longer[j] == x && longer[k] == x;
        assert s[j] == x;
        assert k < |s| ==> s[k] == x;
      }
      if Repeats(s, x) {
        var j, k :| 0 <= j < k < |s| && s[j] == x && s[k] == x;
        assert longer[j] == x && longer[k] == x;
      } else if x == last && x in s {
        var j :| 0 <= j < |s| && s[j] == x;
        assert longer[j] == x && longer[|s|] == x;
      }
    }
  }

  /** The map of maps, built record by record and field by field. */
  method BuildUnique(records: seq<Record>) returns (unique: map<string, map<string, string>>)
    ensures unique == Unique(records)
  {
    unique := map[];
    for i := 0 to |records|
      invariant unique == Unique(records[..i])
    {
      assert records[..i + 1][..i] == records[..i] && records[..i + 1][i] == records[i];
      var fields: map<string, string> := map[];
      var own := records[i].fields;
      for j := 0 to |own|
        invariant fields == Fields(own[..j])
      {
        assert own[..j + 1][..j] == own[..j];
        fields := fields[own[j].0 := own[j].1];
      }
      assert own[..|own|] == own;
      unique := unique[records[i].id := fields];
    }
    assert records[..|records|] == records;
  }

  /** Fields that occur twice in one record, and the records they occur in. */
  method FieldIssues(records: seq<Record>, rows: seq<Row>)
      returns (issues: seq<RecordIssue>, repeated: set<string>)
    ensures forall issue :: issue in issues <==> issue.RepeatedField? && Due(issue, records, rows)
    ensures forall id :: id in repeated <==> FieldRepeated(records, id)
  {
    issues, repeated := [], {};
    for i := 0 to |records|
      invariant forall issue :: issue in issues <==> issue.RepeatedField? && Due(issue, records[..i], rows)
      invariant forall id :: id in repeated <==> FieldRepeated(records[..i], id)
    {
      var record := records[i];
      var names := Repeated(Labels(record.fields));
      var own := seq(|names|, k requires 0 <= k < |names| => RepeatedField(record.id, names[k]));
      FieldsMore(records[..i], record, rows, names);
      assert records[..i + 1] == records[..i] + [record];
      forall issue: RecordIssue | issue.RepeatedField? && issue.id == record.id && issue.name in names
        ensures issue in own
      {
        var k :| 0 <= k < |names| && names[k] == issue.name;
        assert own[k] == issue;
      }
      if own != [] {
        repeated := repeated + {record.id};
        issues := issues + own;
      }
    }
    assert records[..|records|] == records;
  }

  lemma FieldsMore(records: seq<Record>, last: Record, rows: seq<Row>, names: seq<string>)
    requires forall x :: x in names <==> Repeats(Labels(last.fields), x)
    ensures forall issue: RecordIssue :: issue.RepeatedField? ==>
              (Due(issue, records + [last], rows)
               <==> Due(issue, records, rows) || (issue.id == last.id && issue.name in names))
    ensures forall id :: FieldRepeated(records + [last], id)
                         <==> FieldRepeated(records, id) || (id == last.id && names != [])
  {
    hide Repeats, Unique;
    var more := records + [last];
    assert more[|records|] == last && forall k :: 0 <= k < |records| ==> more[k] == records[k];
    forall issue: RecordIssue | issue.RepeatedField?
      ensures Due(issue, more, rows) <==> Due(issue, records, rows) || (issue.id == last.id && issue.name in names)
    {
      if Due(issue, more, rows) {
        var k :| 0 <= k < |more| && more[k].id == issue.id && Repeats(Labels(more[k].fields), issue.name);
      }
    }
    forall id ensures FieldRepeated(more, id) <==> FieldRepeated(records, id) || (id == last.id && names != []) {
      if names != [] {
        RepeatedIsLabel(last.fields, names[0]);
      }
      if FieldRepeated(records, id) {
        var k :| 0 <= k < |records| && records[k].id == id
          && exists i :: 0 <= i < |records[k].fields| && Repeats(Labels(records[k].fields), records[k].fields[i].0);
        assert more[k] == records[k];
      }
    }
  }

  lemma RepeatedIsLabel(fields: seq<(string, string)>, name: string)
    requires Repeats(Labels(fields), name)
    ensures exists i :: 0 <= i < |fields| && fields[i].0 == name
  {
    var j, k :| 0 <= j < k < |Labels(fields)| && Labels(fields)[j] == name && Labels(fields)[k] == name;
    assert fields[j].0 == name;
  }

  /** Records and rows whose identifier occurs twice. */
  method CountIssues(records: seq<Record>, rows: seq<Row>) returns (issues: seq<RecordIssue>)
    ensures forall issue :: issue in issues
              <==> (issue.RepeatedRecord? || issue.RepeatedRow?) && Due(issue, records, rows)
  {
    hide Repeats, Unique;
    var twice := Repeated(Ids(records));
    var twiceRows := Repeated(RowIds(rows));
    issues := seq(|twice|, k requires 0 <= k < |twice| => RepeatedRecord(twice[k]))
      + seq(|twiceRows|, k requires 0 <= k < |twiceRows| => RepeatedRow(twiceRows[k]));
    forall issue: RecordIssue | (issue.RepeatedRecord? || issue.RepeatedRow?) && Due(issue, records, rows)
      ensures issue in issues
    {
      if issue.RepeatedRecord? {
        var k :| 0 <= k < |twice| && twice[k] == issue.id;
        assert issues[k] == issue;
      } else {
        var k :| 0 <= k < |twiceRows| && twiceRows[k] == issue.id;
        assert issues[|twice| + k] == issue;
      }
    }
  }

  predicate OnRecord(issue: RecordIssue) {
    issue.Incomplete? || issue.BadSeverity? || issue.BadBlocking?
  }

  /** The loop over the unique records: which are complete and well-valued. */
  method ContentIssues(records: seq<Record>, rows: seq<Row>, unique: map<string, map<string, string>>,
      repeated: set<string>) returns (issues: seq<RecordIssue>, valid: set<string>)
    requires unique == Unique(records) && forall id :: id in repeated <==> FieldRepeated(records, id)
    ensures forall issue :: issue in issues <==> OnRecord(issue) && Due(issue, records, rows)
    ensures forall id :: id in valid <==> Comparable(records, id)
  {
    hide FieldRepeated, Complete, SeverityGood, BlockingGood;
    issues, valid := [], {};
    var todo := unique.Keys;
    while todo != {}
      invariant todo <= unique.Keys
      invariant forall issue :: issue in issues <==> OnRecord(issue) && issue.id !in todo && Due(issue, records, rows)
      invariant forall id :: id in valid <==> id !in todo && Comparable(records, id)
    {
      var id :| id in todo;
      todo := todo - {id};
      if id in repeated {
        continue;
      }
      var record := unique[id];
      if !Complete(record) {
        issues := issues + [Incomplete(id)];
        continue;
      }
      if !SeverityGood(record) {
        issues := issues + [BadSeverity(id)];
        continue;
      }
      if !BlockingGood(record) {
        issues := issues + [BadBlocking(id)];
        continue;
      }
      valid := valid + {id};
    }
  }

  /** Records the matrix does not list. */
  method MissingIssues(records: seq<Record>, rows: seq<Row>, unique: map<string, map<string, string>>)
      returns (issues: seq<RecordIssue>)
    requires unique == Unique(records)
    ensures forall issue :: issue in issues <==> issue.NotInMatrix? && Due(issue, records, rows)
  {
    issues := [];
    var todo := unique.Keys;
    while todo != {}
      invariant todo <= unique.Keys
      invariant forall issue :: issue in issues
                  <==> issue.NotInMatrix? && issue.id !in todo && Due(issue, records, rows)
    {
      var id :| id in todo;
      todo := todo - {id};
      if id !in RowIds(rows) {
        issues := issues + [NotInMatrix(id)];
      }
    }
  }

  predicate OnRow(issue: RecordIssue) {
    issue.NoRecord? || issue.SeverityDiffers? || issue.BlockingDiffers?
  }

  /** The complaints about one row. */
  function RowIssuesOf(row: Row, records: seq<Record>): (r: seq<RecordIssue>)
    ensures forall issue :: issue in r ==> OnRow(issue) && issue.id == row.id
  {
    var id := UpperAll(row.id);
    if id !in Unique(records) then [NoRecord(row.id)]
    else if !Comparable(records, id) then []
    else
      var record := Unique(records)[id];
      (if SameSeverity(record, row) then [] else [SeverityDiffers(row.id)])
      + if SameBlocking(record, row) then [] else [BlockingDiffers(row.id)]
  }

  /** The loop over the rows: each against its record. */
  method RowIssues(records: seq<Record>, rows: seq<Row>, unique: map<string, map<string, string>>,
      valid: set<string>) returns (issues: seq<RecordIssue>)
    requires unique == Unique(records) && forall id :: id in valid <==> Comparable(records, id)
    ensures forall issue :: issue in issues <==> OnRow(issue) && Due(issue, records, rows)
  {
    hide Unique, Comparable, SameSeverity, SameBlocking;
    issues := [];
    for i := 0 to |rows|
      invariant forall issue :: issue in issues <==> exists k :: 0 <= k < i && issue in RowIssuesOf(rows[k], records)
    {
      var row := rows[i];
      ghost var before := issues;
      var id := UpperAll(row.id);
      if id !in unique {
        issues := issues + [NoRecord(row.id)];
      } else if id in valid {
        var record := unique[id];
        if !SameSeverity(record, row) {
          issues := issues + [SeverityDiffers(row.id)];
        }
        if !SameBlocking(record, row) {
          issues := issues + [BlockingDiffers(row.id)];
        }
      }
      assert issues == before + RowIssuesOf(row, records);
    }
    forall issue ensures issue in issues <==> OnRow(issue) && Due(issue, records, rows) {
      RowIssueDue(issue, records, rows);
    }
  }

  lemma RowIssueDue(issue: RecordIssue, records: seq<Record>, rows: seq<Row>)
    ensures (exists k :: 0 <= k < |rows| && issue in RowIssuesOf(rows[k], records))
            <==> OnRow(issue) && Due(issue, records, rows)
  {
    hide Unique, Comparable, SameSeverity, SameBlocking, UpperAll;
    if OnRow(issue) {
      forall k | 0 <= k < |rows| && rows[k].id == issue.id
        ensures issue in RowIssuesOf(rows[k], records) <==> RowIssueAt(issue, records, rows[k])
      {
      }
    }
  }

  /** `Due` at one row. */
  ghost predicate RowIssueAt(issue: RecordIssue, records: seq<Record>, row: Row) {
    var id := UpperAll(row.id);
    match issue
    case NoRecord(_) => id !in Unique(records)
    case SeverityDiffers(_) => Comparable(records, id) && !SameSeverity(Unique(records)[id], row)
    case BlockingDiffers(_) => Comparable(records, id) && !SameBlocking(Unique(records)[id], row)
    case _ => false
  }

  /** `_validate_finding_records`: with a matrix free of errors, exactly the
      complaints that are due. */
  method ValidateRecords(records: seq<Record>, rows: seq<Row>, errors: seq<MatrixError>)
      returns (issues: seq<RecordIssue>)
    ensures errors != [] ==> issues == []
    ensures errors == [] ==> forall issue :: issue in issues <==> Due(issue, records, rows)
  {
    hide Due;
    if errors != [] {
      return [];
    }
    var fields, repeated := FieldIssues(records, rows);
    var unique := BuildUnique(records);
    var counts := CountIssues(records, rows);
    var contents, valid := ContentIssues(records, rows, unique, repeated);
    var missing := MissingIssues(records, rows, unique);
    var compared := RowIssues(records, rows, unique, valid);
    issues := fields + counts + contents + missing + compared;
  }
}
