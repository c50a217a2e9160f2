/** Append-only capture of reviewer findings into the durable registry. */
module FindingCapture {
  import opened Numerals
  import opened Text

  /** One review observation; an absent field is `None`. */
  datatype Observation = Observation(
    fromReview: bool, event: Option<string>, reviewer: Option<string>, pullRequest: Option<int>,
    message: Option<string>, sourceHead: Option<string>, path: Option<string>, line: Option<int>)

  /** What is kept of a finding: its provenance and its own substance. */
  datatype Evidence = Evidence(
    reviewer: string, pullRequest: int, event: string, sourceHead: Option<string>,
    message: string, path: Option<string>, line: Option<int>)

  /** A registry record: an earlier one of any content, or a captured one. */
  datatype Finding = Earlier(id: string, content: string) | Captured(id: string, evidence: Evidence)

  datatype Capture = Malformed | Registry(findings: seq<Finding>, added: seq<string>)

  const EVENT_PREFIX := "review-comment-"

  /** Inline comments are findings; overview reviews and other sources are not. */
  predicate IsInline(o: Observation) {
    o.fromReview && o.event.Some? && EVENT_PREFIX <= o.event.value
  }

  predicate IsComplete(o: Observation) {
    && o.event.Some? && o.reviewer.Some? && Strip(o.reviewer.value) != []
    && o.pullRequest.Some? && o.message.Some? && Strip(o.message.value) != []
  }

  function IdOf(pullRequest: int, event: string): string {
    "RFD-AUTO-" + PrintInt(pullRequest) + "-" + event
  }

  function FindingOf(o: Observation): (r: Finding)
    requires IsComplete(o)
    ensures r.id == IdOf(o.pullRequest.value, o.event.value)
  {
    Captured(IdOf(o.pullRequest.value, o.event.value),
             Evidence(o.reviewer.value, o.pullRequest.value, o.event.value, o.sourceHead, o.message.value, o.path,
                       o.line))
  }

  predicate Has(findings: seq<Finding>, id: string) {
    exists k :: 0 <= k < |findings| && findings[k].id == id
  }

  /** The registry after one observation; nothing when it is malformed. */
  function Take(findings: seq<Finding>, o: Observation): (r: Option<seq<Finding>>)
    ensures r.Some? ==> findings <= r.value
  {
    if !IsInline(o) then Some(findings)
    else if !IsComplete(o) then None
    else if Has(findings, FindingOf(o).id) then Some(findings)
    else Some(findings + [FindingOf(o)])
  }

  /** The registry after all of them, in order: nothing recorded ever goes. */
  function TakeAll(findings: seq<Finding>, observations: seq<Observation>): (r: Option<seq<Finding>>)
    ensures r.Some? ==> findings <= r.value
    decreases |observations|
  {
    if observations == [] then Some(findings)
    else
      var next := Take(findings, observations[0]);
      if next.None? then None else TakeAll(next.value, observations[1..])
  }

  function Ids(findings: seq<Finding>): (r: seq<string>)
    ensures |r| == |findings| && forall k :: 0 <= k < |r| ==> r[k] == findings[k].id
  {
    seq(|findings|, k requires 0 <= k < |findings| => findings[k].id)
  }

  /** `capture_reviewer_findings`: the loop with its set of known identifiers. */
  method CaptureFindings(origin: seq<Finding>, observations: seq<Observation>) returns (result: Capture)
    ensures result == match TakeAll(origin, observations)
                      case None => Malformed
                      case Some(findings) => Registry(findings, Ids(findings[|origin|..]))
  {
    hide IsInline, IsComplete, FindingOf, Has;
    var findings := origin;
    var added: seq<string> := [];
    var existing := set k | 0 <= k < |origin| :: origin[k].id;
    Known(origin, existing);
    var i := 0;
    while i < |observations|
      invariant 0 <= i <= |observations|
      invariant TakeAll(findings, observations[i..]) == TakeAll(origin, observations)
      invariant origin <= findings && added == Ids(findings[|origin|..])
      invariant forall id :: id in existing <==> Has(findings, id)
    {
      var o := observations[i];
      TakeStep(findings, observations, i);
      i := i + 1;
      if !IsInline(o) {
        continue;
      }
      if !IsComplete(o) {
        return Malformed;
      }
      var finding := FindingOf(o);
      if finding.id in existing {
        continue;
      }
      HasMore(findings, finding);
      assert (findings + [finding])[|origin|..] == findings[|origin|..] + [finding];
      findings := findings + [finding];
      existing := existing + {finding.id};
      added := added + [finding.id];
    }
    assert observations[i..] == [];
    result := Registry(findings, added);
  }

  lemma Known(findings: seq<Finding>, existing: set<string>)
    requires existing == set k | 0 <= k < |findings| :: findings[k].id
    ensures forall id :: id in existing <==> Has(findings, id)
  {
  }

  lemma HasMore(findings: seq<Finding>, finding: Finding)
    ensures forall id :: Has(findings + [finding], id) <==> Has(findings, id) || id == finding.id
  {
    var more := findings + [finding];
    forall id ensures Has(more, id) <==> Has(findings, id) || id == finding.id {
      if Has(findings, id) {
        var k :| 0 <= k < |findings| && findings[k].id == id;
        assert more[k].id == id;
      }
      assert more[|findings|] == finding;
    }
  }

  lemma TakeStep(findings: seq<Finding>, observations: seq<Observation>, i: nat)
    requires i < |observations|
    ensures TakeAll(findings, observations[i..])
            == var next := Take(findings, observations[i]);
               if next.None? then None else TakeAll(next.value, observations[i + 1..])
  {
    hide Take;
    assert observations[i..][1..] == observations[i + 1..];
  }

  // ------------------------------------------------------------ across captures

  /** Capturing two batches is capturing them as one, failures included. */
  lemma {:induction false} CaptureComposes(findings: seq<Finding>, a: seq<Observation>, b: seq<Observation>)
    ensures TakeAll(findings, a + b)
            == var first := TakeAll(findings, a); if first.None? then None else TakeAll(first.value, b)
    decreases |a|
  {
    hide Take;
    if a == [] {
      assert a + b == b;
    } else {
      assert (a + b)[1..] == a[1..] + b;
      var next := Take(findings, a[0]);
      if next.Some? {
        CaptureComposes(next.value, a[1..], b);
      }
    }
  }

  lemma HasKept(findings: seq<Finding>, more: seq<Finding>, id: string)
    requires findings <= more && Has(findings, id)
    ensures Has(more, id)
  {
    var k :| 0 <= k < |findings| && findings[k].id == id;
    assert more[k] == findings[k];
  }

  /** No inline finding is lost: once captured, its identifier is on record. */
  lemma {:induction false} NothingLost(findings: seq<Finding>, observations: seq<Observation>, i: nat)
    requires i < |observations| && IsInline(observations[i])
    ensures TakeAll(findings, observations).Some? ==>
              IsComplete(observations[i]) && Has(TakeAll(findings, observations).value, FindingOf(observations[i]).id)
    decreases |observations|
  {
    hide IsInline, IsComplete, Has, FindingOf;
    var next := Take(findings, observations[0]);
    if next.Some? {
      if i > 0 {
        NothingLost(next.value, observations[1..], i - 1);
      } else if TakeAll(findings, observations).Some? {
        assert Has(next.value, FindingOf(observations[0]).id) by { HasMore(findings, FindingOf(observations[0])); }
        HasKept(next.value, TakeAll(findings, observations).value, FindingOf(observations[0]).id);
      }
    }
  }

  lemma {:induction false} KnownIsNoOp(findings: seq<Finding>, observations: seq<Observation>)
    requires forall k :: 0 <= k < |observations| && IsInline(observations[k]) ==>
               IsComplete(observations[k]) && Has(findings, FindingOf(observations[k]).id)
    ensures TakeAll(findings, observations) == Some(findings)
    decreases |observations|
  {
    hide IsInline, IsComplete, Has, FindingOf;
    if observations != [] {
      assert IsInline(observations[0]) ==> Has(findings, FindingOf(observations[0]).id);
      KnownIsNoOp(findings, observations[1..]);
    }
  }

  /** Capturing again what was captured changes nothing. */
  lemma CaptureIdempotent(findings: seq<Finding>, observations: seq<Observation>)
    requires TakeAll(findings, observations).Some?
    ensures var after := TakeAll(findings, observations).value;
            TakeAll(after, observations) == Some(after)
  {
    hide IsInline, IsComplete, Has, FindingOf, TakeAll;
    var after := TakeAll(findings, observations).value;
    forall k | 0 <= k < |observations| && IsInline(observations[k])
      ensures IsComplete(observations[k]) && Has(after, FindingOf(observations[k]).id)
    {
      NothingLost(findings, observations, k);
    }
    KnownIsNoOp(after, observations);
  }

  // ------------------------------------------------------------- the identifier

  lemma DashAfterNumber(n: int, event: string)
    ensures var s := PrintInt(n) + "-" + event;
            var k := |PrintInt(n)|;
            && k >= 1 && s[k] == '-' && (forall i :: 1 <= i < k ==> s[i] != '-')
            && s[..k] == PrintInt(n) && s[k + 1..] == event
  {
    hide Decimal;
    assert !IsDigit('-');
    var digits := if n < 0 then Decimal(-n) else Decimal(n);
    assert AllDigits(digits) && digits != [];
    assert forall i :: 0 <= i < |digits| ==> digits[i] != '-';
  }

  /** The identifier tells pull request and event: two findings share one only if
      they are the same event of the same pull request. */
  lemma IdInjective(m: int, e: string, n: int, f: string)
    requires IdOf(m, e) == IdOf(n, f)
    ensures m == n && e == f
  {
    hide PrintInt;
    var s, t := PrintInt(m) + "-" + e, PrintInt(n) + "-" + f;
    assert IdOf(m, e) == "RFD-AUTO-" + s && IdOf(n, f) == "RFD-AUTO-" + t;
    assert IdOf(m, e)[9..] == s && IdOf(n, f)[9..] == t;
    DashAfterNumber(m, e);
    DashAfterNumber(n, f);
    assert |PrintInt(m)| == |PrintInt(n)|;
    PrintIntInjective(m, n);
  }

  /** Distinct inline findings end up as distinct records, each with the substance
      of the observation that brought it in. */
  ghost predicate Keeps(findings: seq<Finding>, o: Observation)
    requires IsComplete(o)
  {
    exists k :: 0 <= k < |findings| && Records(findings[k], o)
  }

  /** The record carries the identity and the own substance of the observation. */
  predicate Records(finding: Finding, o: Observation)
    requires IsComplete(o)
  {
    && finding.Captured? && finding.id == "RFD-AUTO-" + PrintInt(o.pullRequest.value) + "-" + o.event.value
    && finding.evidence.reviewer == o.reviewer.value && finding.evidence.pullRequest == o.pullRequest.value
    && finding.evidence.event == o.event.value && finding.evidence.message == o.message.value
    && finding.evidence.sourceHead == o.sourceHead && finding.evidence.path == o.path && finding.evidence.line == o.line
  }

  lemma RecordsFinding(finding: Finding, o: Observation)
    requires IsComplete(o)
    ensures Records(finding, o) <==> finding == FindingOf(o)
  {
    hide PrintInt, IsComplete;
  }

  lemma {:induction false} SubstanceKept(findings: seq<Finding>, observations: seq<Observation>, i: nat)
    requires i < |observations| && IsInline(observations[i]) && IsComplete(observations[i])
    requires TakeAll(findings, observations).Some? && !Has(findings, FindingOf(observations[i]).id)
    requires forall j :: 0 <= j < i && IsInline(observations[j]) && IsComplete(observations[j]) ==>
               FindingOf(observations[j]).id != FindingOf(observations[i]).id
    ensures Keeps(TakeAll(findings, observations).value, observations[i])
    decreases |observations|
  {
    hide IsInline, IsComplete, Has, FindingOf, Records;
    var next := Take(findings, observations[0]).value;
    if i == 0 {
      RecordsFinding(next[|findings|], observations[0]);
      var all := TakeAll(findings, observations).value;
      assert all[|findings|] == next[|findings|];
    } else {
      HasMoreUnless(findings, observations[0], FindingOf(observations[i]).id);
      assert forall j :: 0 <= j < i - 1 ==> observations[1..][j] == observations[j + 1];
      SubstanceKept(next, observations[1..], i - 1);
    }
  }

  lemma HasMoreUnless(findings: seq<Finding>, o: Observation, id: string)
    requires Take(findings, o).Some? && !Has(findings, id)
    requires IsInline(o) && IsComplete(o) ==> FindingOf(o).id != id
    ensures !Has(Take(findings, o).value, id)
  {
    hide IsInline, IsComplete, Has, FindingOf;
    if IsInline(o) {
      HasMore(findings, FindingOf(o));
    }
  }

  /** And nothing is made up: every new record is that of a complete inline observation. */
  lemma {:induction false} NothingInvented(findings: seq<Finding>, observations: seq<Observation>, k: nat)
    returns (i: nat)
    requires TakeAll(findings, observations).Some? && |findings| <= k < |TakeAll(findings, observations).value|
    ensures i < |observations| && IsInline(observations[i]) && IsComplete(observations[i])
    ensures Records(TakeAll(findings, observations).value[k], observations[i])
    decreases |observations|
  {
    hide IsInline, IsComplete, Has, FindingOf, Records;
    var next := Take(findings, observations[0]).value;
    if k < |next| {
      i := 0;
      RecordsFinding(next[|findings|], observations[0]);
      assert TakeAll(findings, observations).value[k] == next[k];
    } else {
      var later := NothingInvented(next, observations[1..], k);
      i := later + 1;
    }
  }

  /** A capture is refused exactly when some inline observation is incomplete. */
  lemma {:induction false} MalformedExactly(findings: seq<Finding>, observations: seq<Observation>)
    ensures TakeAll(findings, observations).None?
            <==> exists i :: 0 <= i < |observations| && IsInline(observations[i]) && !IsComplete(observations[i])
    decreases |observations|
  {
    hide IsInline, IsComplete, Has, FindingOf;
    if observations != [] {
      var next := Take(findings, observations[0]);
      if next.Some? {
        MalformedExactly(next.value, observations[1..]);
        assert forall i :: 0 < i < |observations| ==> observations[i] == observations[1..][i - 1];
        assert forall i :: 0 <= i < |observations| - 1 ==> observations[1..][i] == observations[i + 1];
      }
    }
  }
}
