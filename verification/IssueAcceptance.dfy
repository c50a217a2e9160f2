/** Issue acceptance before a merge: registered evidence at the exact head, and the
    owner's production-only exception. */
module IssueAcceptance {
  import opened Ordering
  import opened ScopeEntries
  import opened Text

  datatype Run = Run(
    path: string, event: string, headSha: string, number: nat, id: nat, completed: bool, succeeded: bool)

  /** One producer of evidence: a workflow, and the event it must run on. */
  datatype Spec = Spec(id: string, workflow: string, event: string)

  datatype Exception = Exception(
    deferredEvidence: set<string>, deferredCriteria: set<string>, headSha: string, trustRoot: string,
    trustRootSha: string, expires: Option<int>)

  datatype Requirement = Requirement(
    issue: string, governed: seq<string>, evidence: seq<Spec>, unverifiable: set<string>, exception: Option<Exception>)

  // ------------------------------------------------------------- one producer

  datatype Status = Proven | Missing | Stale | Unavailable

  predicate IsOurs(spec: Spec, run: Run) {
    run.path == spec.workflow && run.event == spec.event
  }

  predicate IsExact(spec: Spec, head: string, run: Run) {
    IsOurs(spec, run) && run.headSha == head
  }

  function Exact(spec: Spec, head: string, runs: seq<Run>): (r: seq<Run>)
    ensures forall x :: x in r <==> x in runs && IsExact(spec, head, x)
  {
    if runs == [] then []
    else Exact(spec, head, runs[..|runs| - 1])
         + if IsExact(spec, head, runs[|runs| - 1]) then [runs[|runs| - 1]] else []
  }

  predicate Earlier(a: Run, b: Run) {
    a.number < b.number || (a.number == b.number && a.id < b.id)
  }

  /** `max` by run number and id: the first of the newest. */
  function Newest(runs: seq<Run>): (r: Run)
    requires runs != []
    ensures r in runs && forall x :: x in runs ==> !Earlier(r, x)
  {
    var last := runs[|runs| - 1];
    assert runs == runs[..|runs| - 1] + [last];
    if |runs| == 1 then last
    else
      var before := Newest(runs[..|runs| - 1]);
      if Earlier(before, last) then last else before
  }

  predicate Good(run: Run) {
    run.completed && run.succeeded
  }

  /** `_evidence_status`. */
  function EvidenceStatus(spec: Spec, runs: Option<seq<Run>>, head: string): Status {
    if runs.None? then Unavailable
    else
      var exact := Exact(spec, head, runs.value);
      if exact != [] then (if Good(Newest(exact)) then Proven else Missing)
      else if exists x :: x in runs.value && IsOurs(spec, x) && x.succeeded && x.headSha != head then Stale
      else Missing
  }

  /** Among the runs at the head none is newer than this one. */
  ghost predicate IsNewest(spec: Spec, head: string, runs: seq<Run>, run: Run) {
    run in runs && IsExact(spec, head, run) && forall x :: x in runs && IsExact(spec, head, x) ==> !Earlier(run, x)
  }

  /** All newest runs at the head came out the same way. */
  ghost predicate Decided(spec: Spec, head: string, runs: seq<Run>) {
    forall x, y :: IsNewest(spec, head, runs, x) && IsNewest(spec, head, runs, y) ==> Good(x) == Good(y)
  }

  /** With one newest run that run alone decides: an older success never masks it. */
  lemma NewestDecides(spec: Spec, head: string, runs: seq<Run>, run: Run)
    requires IsNewest(spec, head, runs, run) && Decided(spec, head, runs)
    ensures EvidenceStatus(spec, Some(runs), head) == if Good(run) then Proven else Missing
  {
    assert run in Exact(spec, head, runs);
    assert IsNewest(spec, head, runs, Newest(Exact(spec, head, runs)));
  }

  lemma NewestKept(spec: Spec, head: string, runs: seq<Run>, others: seq<Run>)
    requires multiset(runs) == multiset(others)
    ensures forall x :: IsNewest(spec, head, runs, x) <==> IsNewest(spec, head, others, x)
    ensures Decided(spec, head, runs) <==> Decided(spec, head, others)
  {
    hide IsExact;
    SameElements(runs, others);
  }

  lemma SomeNewest(spec: Spec, head: string, runs: seq<Run>)
    requires Exact(spec, head, runs) != []
    ensures IsNewest(spec, head, runs, Newest(Exact(spec, head, runs)))
  {
  }

  lemma DecidedUnordered(spec: Spec, head: string, runs: seq<Run>, others: seq<Run>)
    requires Decided(spec, head, runs) && multiset(runs) == multiset(others)
    ensures EvidenceStatus(spec, Some(runs), head) == EvidenceStatus(spec, Some(others), head)
  {
    hide IsNewest, Decided, IsExact;
    SameElements(runs, others);
    NewestKept(spec, head, runs, others);
    if Exact(spec, head, runs) != [] {
      SomeNewest(spec, head, runs);
      var newest := Newest(Exact(spec, head, runs));
      NewestDecides(spec, head, runs, newest);
      NewestDecides(spec, head, others, newest);
    } else if Exact(spec, head, others) != [] {
      assert Exact(spec, head, others)[0] in Exact(spec, head, others);
      assert false;
    }
  }

  /** The first of the newest runs is the one `max` returns. */
  lemma {:induction false} FirstWins(spec: Spec, head: string, run: Run, rest: seq<Run>)
    requires IsNewest(spec, head, [run] + rest, run)
    ensures Exact(spec, head, [run] + rest) != [] && Newest(Exact(spec, head, [run] + rest)) == run
    decreases |rest|
  {
    var runs := [run] + rest;
    if rest == [] {
      assert runs[..0] == [];
      assert Exact(spec, head, runs) == Exact(spec, head, runs[..0]) + [run];
    } else {
      var shorter := [run] + rest[..|rest| - 1];
      assert runs[..|runs| - 1] == shorter;
      assert forall x :: x in shorter ==> x in runs;
      FirstWins(spec, head, run, rest[..|rest| - 1]);
      var exact := Exact(spec, head, shorter);
      var last := runs[|runs| - 1];
      if IsExact(spec, head, last) {
        assert Exact(spec, head, runs) == exact + [last];
        assert (exact + [last])[..|exact|] == exact;
        assert last in runs && !Earlier(run, last);
      } else {
        assert Exact(spec, head, runs) == exact;
      }
    }
  }

  lemma FrontDecides(spec: Spec, head: string, runs: seq<Run>, run: Run) returns (others: seq<Run>)
    requires IsNewest(spec, head, runs, run)
    ensures multiset(others) == multiset(runs)
    ensures EvidenceStatus(spec, Some(others), head) == if Good(run) then Proven else Missing
  {
    hide IsNewest;
    assert run in runs by { IsNewestIn(spec, head, runs, run); }
    var k :| 0 <= k < |runs| && runs[k] == run;
    TakeOut(runs, k);
    others := [run] + Without(runs, k);
    NewestKept(spec, head, runs, others);
    FirstWins(spec, head, run, Without(runs, k));
  }

  lemma IsNewestIn(spec: Spec, head: string, runs: seq<Run>, run: Run)
    requires IsNewest(spec, head, runs, run)
    ensures run in runs
  {
  }

  /** The verdict on a producer is independent of the order of its runs exactly
      when the newest runs at the head agree; run ids being distinct, they do. */
  lemma OrderIndependentExactly(spec: Spec, head: string, runs: seq<Run>)
    ensures (forall others :: multiset(others) == multiset(runs) ==>
               EvidenceStatus(spec, Some(others), head) == EvidenceStatus(spec, Some(runs), head))
            <==> Decided(spec, head, runs)
  {
    hide IsNewest, EvidenceStatus;
    if Decided(spec, head, runs) {
      forall others | multiset(others) == multiset(runs)
        ensures EvidenceStatus(spec, Some(others), head) == EvidenceStatus(spec, Some(runs), head)
      {
        DecidedUnordered(spec, head, runs, others);
      }
    } else {
      var x, y :| IsNewest(spec, head, runs, x) && IsNewest(spec, head, runs, y) && Good(x) != Good(y);
      var first := FrontDecides(spec, head, runs, x);
      var second := FrontDecides(spec, head, runs, y);
    }
  }

  ghost predicate DistinctIds(runs: seq<Run>) {
    forall x, y :: x in runs && y in runs && x.id == y.id ==> x == y
  }

  lemma DistinctIdsDecide(spec: Spec, head: string, runs: seq<Run>)
    requires DistinctIds(runs)
    ensures Decided(spec, head, runs)
  {
  }

  // ----------------------------------------------------------- the whole change

  datatype Outcome =
    | NotGoverned | Ambiguous | ProducerTouched | EvidenceUnavailable | EvidenceStale | EvidenceMissing
    | Outstanding | AcceptanceProven | OtherHead | RootUnavailable | RootChanged | Expired | ProductionOnlyPending

  predicate IsBound(entry: Requirement, changed: seq<string>) {
    exists k :: 0 <= k < |changed| && MatchesAny(changed[k], entry.governed)
  }

  function Bound(registry: seq<Requirement>, changed: seq<string>): (r: seq<Requirement>)
    ensures forall x :: x in r <==> x in registry && IsBound(x, changed)
  {
    if registry == [] then []
    else (if IsBound(registry[0], changed) then [registry[0]] else []) + Bound(registry[1..], changed)
  }

  /** `{spec.id: status}`: a later specification overwrites an earlier one. */
  function Results(evidence: seq<Spec>, runsFor: Spec -> Option<seq<Run>>, head: string): map<string, Status> {
    if evidence == [] then map[]
    else
      var last := evidence[|evidence| - 1];
      Results(evidence[..|evidence| - 1], runsFor, head)[last.id := EvidenceStatus(last, runsFor(last), head)]
  }

  function Touched(entry: Requirement, changed: seq<string>): bool {
    exists k :: 0 <= k < |entry.evidence| && entry.evidence[k].workflow in changed
  }

  /** The decision once an entry is bound and its producers are untouched. */
  function DecideBound(entry: Requirement, results: map<string, Status>, head: string,
                       rootSha: string -> Option<string>, now: int): Outcome {
    var e := entry.exception;
    var deferred := if e.Some? then e.value.deferredEvidence else {};
    var deferredCriteria := if e.Some? then e.value.deferredCriteria else {};
    if exists id :: id in results && results[id] == Unavailable then EvidenceUnavailable
    else if exists id :: id in results && id !in deferred && results[id] == Stale then EvidenceStale
    else if exists id :: id in results && id !in deferred && results[id] == Missing then EvidenceMissing
    else if entry.unverifiable - deferredCriteria != {} then Outstanding
    else if e.None? then AcceptanceProven
    else if (forall id :: id in deferred ==> id in results && results[id] == Proven) && entry.unverifiable == {} then
      AcceptanceProven
    else if e.value.headSha != head then OtherHead
    else if rootSha(e.value.trustRoot).None? then RootUnavailable
    else if rootSha(e.value.trustRoot).value != e.value.trustRootSha then RootChanged
    else if e.value.expires.None? || now > e.value.expires.value then Expired
    else ProductionOnlyPending
  }

  /** `evaluate_issue_acceptance`. */
  function Evaluate(registry: seq<Requirement>, changed: seq<string>, head: string,
                    runsFor: Spec -> Option<seq<Run>>, rootSha: string -> Option<string>, now: int): Outcome {
    var bound := Bound(registry, changed);
    if bound == [] then NotGoverned
    else if |bound| > 1 then Ambiguous
    else if Touched(bound[0], changed) then ProducerTouched
    else DecideBound(bound[0], Results(bound[0].evidence, runsFor, head), head, rootSha, now)
  }

  // ------------------------------------------------------- what it comes down to

  /** What the registry reader guarantees: evidence ids once each, deferred ids among them. */
  ghost predicate Registered(entry: Requirement) {
    && (forall j, k :: 0 <= j < k < |entry.evidence| ==> entry.evidence[j].id != entry.evidence[k].id)
    && (entry.exception.Some? ==>
          forall id :: id in entry.exception.value.deferredEvidence ==>
            exists k :: 0 <= k < |entry.evidence| && entry.evidence[k].id == id)
  }

  lemma {:induction false} ResultsAre(evidence: seq<Spec>, runsFor: Spec -> Option<seq<Run>>, head: string)
    requires forall j, k :: 0 <= j < k < |evidence| ==> evidence[j].id != evidence[k].id
    ensures forall k :: 0 <= k < |evidence| ==>
              evidence[k].id in Results(evidence, runsFor, head)
              && Results(evidence, runsFor, head)[evidence[k].id]
                 == EvidenceStatus(evidence[k], runsFor(evidence[k]), head)
    ensures forall id :: id in Results(evidence, runsFor, head) ==>
              exists k :: 0 <= k < |evidence| && evidence[k].id == id
  {
    hide EvidenceStatus;
    if evidence != [] {
      var last := |evidence| - 1;
      ResultsAre(evidence[..last], runsFor, head);
      assert forall k :: 0 <= k < last ==> evidence[..last][k] == evidence[k];
      assert evidence[last].id in Results(evidence, runsFor, head);
    }
  }

  /** The evidence of a specification, with its newest run at the head. */
  predicate HasProof(spec: Spec, runsFor: Spec -> Option<seq<Run>>, head: string) {
    EvidenceStatus(spec, runsFor(spec), head) == Proven
  }

  /** What proof is: runs are available, there are some at the head, and the first
      of the newest of them completed and succeeded. */
  lemma ProofMeans(spec: Spec, runsFor: Spec -> Option<seq<Run>>, head: string)
    ensures HasProof(spec, runsFor, head) <==>
            && runsFor(spec).Some? && Exact(spec, head, runsFor(spec).value) != []
            && Good(Newest(Exact(spec, head, runsFor(spec).value)))
  {
  }

  /** Acceptance is proven exactly when one registered Issue is bound, none of its
      producers is changed, every producer has proof at the head, and nothing is
      left that cannot be verified. */
  lemma ProvenExactly(registry: seq<Requirement>, changed: seq<string>, head: string,
                      runsFor: Spec -> Option<seq<Run>>, rootSha: string -> Option<string>, now: int)
    requires forall k :: 0 <= k < |registry| ==> Registered(registry[k])
    ensures Evaluate(registry, changed, head, runsFor, rootSha, now) == AcceptanceProven
            <==> |Bound(registry, changed)| == 1 && var entry := Bound(registry, changed)[0];
                 && !Touched(entry, changed)
                 && (forall k :: 0 <= k < |entry.evidence| ==> HasProof(entry.evidence[k], runsFor, head))
                 && entry.unverifiable == {}
  {
    hide EvidenceStatus, Touched, IsBound, Registered;
    var bound := Bound(registry, changed);
    if |bound| == 1 {
      assert bound[0] in bound;
      DecidedProven(bound[0], runsFor, head, rootSha, now);
    }
  }

  function Deferred(entry: Requirement): set<string> {
    if entry.exception.Some? then entry.exception.value.deferredEvidence else {}
  }

  /** The same on the results by id. */
  lemma DecidedOnResults(entry: Requirement, results: map<string, Status>, head: string,
                         rootSha: string -> Option<string>, now: int)
    requires Deferred(entry) <= results.Keys
    ensures DecideBound(entry, results, head, rootSha, now) == AcceptanceProven
            <==> (forall id :: id in results ==> results[id] == Proven) && entry.unverifiable == {}
  {
  }

  lemma ResultsProven(entry: Requirement, runsFor: Spec -> Option<seq<Run>>, head: string)
    requires Registered(entry)
    ensures var results := Results(entry.evidence, runsFor, head);
            && Deferred(entry) <= results.Keys
            && ((forall id :: id in results ==> results[id] == Proven)
                <==> forall k :: 0 <= k < |entry.evidence| ==> HasProof(entry.evidence[k], runsFor, head))
  {
    hide EvidenceStatus, Results;
    var results := Results(entry.evidence, runsFor, head);
    ResultsAre(entry.evidence, runsFor, head);
    forall k | 0 <= k < |entry.evidence| && forall id :: id in results ==> results[id] == Proven
      ensures HasProof(entry.evidence[k], runsFor, head)
    {
      assert entry.evidence[k].id in results;
    }
  }

  lemma DecidedProven(entry: Requirement, runsFor: Spec -> Option<seq<Run>>, head: string,
                      rootSha: string -> Option<string>, now: int)
    requires Registered(entry)
    ensures DecideBound(entry, Results(entry.evidence, runsFor, head), head, rootSha, now) == AcceptanceProven
            <==> (forall k :: 0 <= k < |entry.evidence| ==> HasProof(entry.evidence[k], runsFor, head))
                 && entry.unverifiable == {}
  {
    hide HasProof, Results, DecideBound, Registered;
    ResultsProven(entry, runsFor, head);
    DecidedOnResults(entry, Results(entry.evidence, runsFor, head), head, rootSha, now);
  }

  /** The exception admits a change exactly when it is bound to this head, to the
      trust root as it is now and still running, everything not deferred is
      proven, and something deferred is outstanding. */
  lemma ProductionOnlyExactly(entry: Requirement, runsFor: Spec -> Option<seq<Run>>, head: string,
                              rootSha: string -> Option<string>, now: int)
    requires Registered(entry)
    ensures DecideBound(entry, Results(entry.evidence, runsFor, head), head, rootSha, now) == ProductionOnlyPending
            <==> entry.exception.Some? && var e := entry.exception.value;
                 && e.headSha == head && rootSha(e.trustRoot) == Some(e.trustRootSha)
                 && e.expires.Some? && now <= e.expires.value
                 && (forall k :: 0 <= k < |entry.evidence| ==>
                       EvidenceStatus(entry.evidence[k], runsFor(entry.evidence[k]), head) != Unavailable)
                 && (forall k :: 0 <= k < |entry.evidence| && entry.evidence[k].id !in e.deferredEvidence ==>
                       HasProof(entry.evidence[k], runsFor, head))
                 && entry.unverifiable <= e.deferredCriteria
                 && (entry.unverifiable != {} || DeferredOutstanding(entry, runsFor, head))
  {
    hide HasProof, Results, DecideBound, Registered, DeferredOutstanding, EvidenceStatus;
    var results := Results(entry.evidence, runsFor, head);
    ResultsProven(entry, runsFor, head);
    DeferralOnResults(entry, runsFor, head);
    PendingOnResults(entry, results, head, rootSha, now);
  }

  /** Some deferred evidence has no proof yet. */
  ghost predicate DeferredOutstanding(entry: Requirement, runsFor: Spec -> Option<seq<Run>>, head: string) {
    exists k :: 0 <= k < |entry.evidence|
                && entry.evidence[k].id in Deferred(entry) && !HasProof(entry.evidence[k], runsFor, head)
  }

  lemma PendingOnResults(entry: Requirement, results: map<string, Status>, head: string,
                         rootSha: string -> Option<string>, now: int)
    requires Deferred(entry) <= results.Keys
    ensures DecideBound(entry, results, head, rootSha, now) == ProductionOnlyPending
            <==> entry.exception.Some? && var e := entry.exception.value;
                 && e.headSha == head && rootSha(e.trustRoot) == Some(e.trustRootSha)
                 && e.expires.Some? && now <= e.expires.value
                 && (forall id :: id in results ==> results[id] != Unavailable)
                 && (forall id :: id in results && id !in e.deferredEvidence ==> results[id] == Proven)
                 && entry.unverifiable <= e.deferredCriteria
                 && (entry.unverifiable != {} || exists id :: id in e.deferredEvidence && results[id] != Proven)
  {
    if entry.exception.Some? {
      var e := entry.exception.value;
      assert forall x :: x in entry.unverifiable && x !in e.deferredCriteria
                         ==> x in entry.unverifiable - e.deferredCriteria;
    }
  }

  lemma DeferralOnResults(entry: Requirement, runsFor: Spec -> Option<seq<Run>>, head: string)
    requires Registered(entry)
    ensures var results, deferred := Results(entry.evidence, runsFor, head), Deferred(entry);
            && deferred <= results.Keys
            && ((forall id :: id in results ==> results[id] != Unavailable)
                <==> forall k :: 0 <= k < |entry.evidence| ==>
                       EvidenceStatus(entry.evidence[k], runsFor(entry.evidence[k]), head) != Unavailable)
            && ((forall id :: id in results && id !in deferred ==> results[id] == Proven)
                <==> forall k :: 0 <= k < |entry.evidence| && entry.evidence[k].id !in deferred ==>
                       HasProof(entry.evidence[k], runsFor, head))
            && ((exists id :: id in deferred && results[id] != Proven) <==> DeferredOutstanding(entry, runsFor, head))
  {
    hide EvidenceStatus, Results;
    var results := Results(entry.evidence, runsFor, head);
    ResultsAre(entry.evidence, runsFor, head);
    ResultsProven(entry, runsFor, head);
    forall k | 0 <= k < |entry.evidence|
      ensures entry.evidence[k].id in results
              && results[entry.evidence[k].id] == EvidenceStatus(entry.evidence[k], runsFor(entry.evidence[k]), head)
    {
    }
  }

  /** Two readings of the producers that list the same runs in different orders. */
  ghost predicate SameRuns(a: Option<seq<Run>>, b: Option<seq<Run>>) {
    a.Some? == b.Some? && (a.Some? ==> multiset(a.value) == multiset(b.value))
  }

  lemma {:induction false} ResultsUnordered(evidence: seq<Spec>, runsFor: Spec -> Option<seq<Run>>,
                                            others: Spec -> Option<seq<Run>>, head: string)
    requires forall spec :: SameRuns(runsFor(spec), others(spec))
    requires forall spec :: runsFor(spec).Some? ==> Decided(spec, head, runsFor(spec).value)
    ensures Results(evidence, runsFor, head) == Results(evidence, others, head)
  {
    hide EvidenceStatus, Decided;
    if evidence != [] {
      var last := evidence[|evidence| - 1];
      ResultsUnordered(evidence[..|evidence| - 1], runsFor, others, head);
      assert SameRuns(runsFor(last), others(last));
      if runsFor(last).Some? {
        DecidedUnordered(last, head, runsFor(last).value, others(last).value);
      } else {
        NoRunsNoStatus(last, head);
      }
    }
  }

  lemma NoRunsNoStatus(spec: Spec, head: string)
    ensures EvidenceStatus(spec, None, head) == Unavailable
  {
  }

  /** The whole decision does not depend on the order in which runs are listed, as
      long as the newest runs of each producer agree. */
  lemma AcceptanceUnordered(registry: seq<Requirement>, changed: seq<string>, head: string,
                            runsFor: Spec -> Option<seq<Run>>, others: Spec -> Option<seq<Run>>,
                            rootSha: string -> Option<string>, now: int)
    requires forall spec :: SameRuns(runsFor(spec), others(spec))
    requires forall spec :: runsFor(spec).Some? ==> Decided(spec, head, runsFor(spec).value)
    ensures Evaluate(registry, changed, head, runsFor, rootSha, now)
            == Evaluate(registry, changed, head, others, rootSha, now)
  {
    hide EvidenceStatus, Decided, DecideBound, SameRuns;
    var bound := Bound(registry, changed);
    if |bound| == 1 {
      ResultsUnordered(bound[0].evidence, runsFor, others, head);
    }
  }

  /** And in any case when runs carry distinct ids, as the server's do. */
  lemma DistinctIdsUnordered(registry: seq<Requirement>, changed: seq<string>, head: string,
                             runsFor: Spec -> Option<seq<Run>>, others: Spec -> Option<seq<Run>>,
                             rootSha: string -> Option<string>, now: int)
    requires forall spec :: SameRuns(runsFor(spec), others(spec))
    requires forall spec :: runsFor(spec).Some? ==> DistinctIds(runsFor(spec).value)
    ensures Evaluate(registry, changed, head, runsFor, rootSha, now)
            == Evaluate(registry, changed, head, others, rootSha, now)
  {
    hide Evaluate, SameRuns, Decided, DistinctIds;
    forall spec | runsFor(spec).Some? ensures Decided(spec, head, runsFor(spec).value) {
      DistinctIdsDecide(spec, head, runsFor(spec).value);
    }
    AcceptanceUnordered(registry, changed, head, runsFor, others, rootSha, now);
  }

  // ----------------------------------------------------- every other outcome

  /** Some changed path lies in the scope of some governed entry. */
  ghost predicate Governs(entry: Requirement, changed: seq<string>) {
    exists path, scope :: path in changed && scope in entry.governed && Matches(path, scope)
  }

  lemma GovernsExactly(entry: Requirement, changed: seq<string>)
    ensures Governs(entry, changed) <==> IsBound(entry, changed)
  {
    hide Matches;
    if Governs(entry, changed) {
      var path, scope :| path in changed && scope in entry.governed && Matches(path, scope);
      var k :| 0 <= k < |changed| && changed[k] == path;
      var i :| 0 <= i < |entry.governed| && entry.governed[i] == scope;
    }
    if IsBound(entry, changed) {
      var k :| 0 <= k < |changed| && MatchesAny(changed[k], entry.governed);
      var i :| 0 <= i < |entry.governed| && Matches(changed[k], entry.governed[i]);
    }
  }

  lemma {:induction false} BoundCount(registry: seq<Requirement>, changed: seq<string>)
    ensures |Bound(registry, changed)| > 1
            <==> exists i, j :: 0 <= i < j < |registry| && IsBound(registry[i], changed)
                                && IsBound(registry[j], changed)
    ensures Bound(registry, changed) == []
            <==> forall i :: 0 <= i < |registry| ==> !IsBound(registry[i], changed)
  {
    hide IsBound;
    if registry != [] {
      var rest := registry[1..];
      BoundCount(rest, changed);
      assert forall i :: 0 <= i < |rest| ==> rest[i] == registry[i + 1];
      assert forall i :: 0 < i < |registry| ==> registry[i] == rest[i - 1];
      if IsBound(registry[0], changed) && Bound(rest, changed) != [] {
        var j :| 0 <= j < |rest| && IsBound(rest[j], changed);
        assert IsBound(registry[j + 1], changed);
      }
    }
  }

  /** No registered Issue governs the change exactly when the decision says so, and
      more than one exactly when it is called ambiguous. */
  lemma GovernedExactly(registry: seq<Requirement>, changed: seq<string>, head: string,
                        runsFor: Spec -> Option<seq<Run>>, rootSha: string -> Option<string>, now: int)
    ensures Evaluate(registry, changed, head, runsFor, rootSha, now) == NotGoverned
            <==> forall i :: 0 <= i < |registry| ==> !Governs(registry[i], changed)
    ensures Evaluate(registry, changed, head, runsFor, rootSha, now) == Ambiguous
            <==> exists i, j :: 0 <= i < j < |registry| && Governs(registry[i], changed)
                                && Governs(registry[j], changed)
  {
    hide IsBound, Governs, Touched;
    BoundCount(registry, changed);
    forall i | 0 <= i < |registry| ensures Governs(registry[i], changed) <==> IsBound(registry[i], changed) {
      GovernsExactly(registry[i], changed);
    }
    var bound := Bound(registry, changed);
    if |bound| == 1 {
      Decides(bound[0], Results(bound[0].evidence, runsFor, head), head, rootSha, now);
    }
  }

  lemma Decides(entry: Requirement, results: map<string, Status>, head: string,
                rootSha: string -> Option<string>, now: int)
    ensures var outcome := DecideBound(entry, results, head, rootSha, now);
            !outcome.NotGoverned? && !outcome.Ambiguous? && !outcome.ProducerTouched?
  {
  }

  /** Some producer that is not deferred has that status at the head. */
  ghost predicate SomeRequired(entry: Requirement, runsFor: Spec -> Option<seq<Run>>, head: string, status: Status) {
    exists k :: 0 <= k < |entry.evidence| && entry.evidence[k].id !in Deferred(entry)
                && EvidenceStatus(entry.evidence[k], runsFor(entry.evidence[k]), head) == status
  }

  ghost predicate SomeUnavailable(entry: Requirement, runsFor: Spec -> Option<seq<Run>>) {
    exists k :: 0 <= k < |entry.evidence| && runsFor(entry.evidence[k]).None?
  }

  lemma UnavailableRuns(spec: Spec, runs: Option<seq<Run>>, head: string)
    ensures EvidenceStatus(spec, runs, head) == Unavailable <==> runs.None?
  {
  }

  /** The statuses by id are those of the producers. */
  ghost predicate StatusesOf(results: map<string, Status>, evidence: seq<Spec>, runsFor: Spec -> Option<seq<Run>>,
                             head: string) {
    && (forall k :: 0 <= k < |evidence| ==>
          evidence[k].id in results
          && results[evidence[k].id] == EvidenceStatus(evidence[k], runsFor(evidence[k]), head))
    && forall id :: id in results ==> exists k :: 0 <= k < |evidence| && evidence[k].id == id
  }

  ghost predicate SomeIs(results: map<string, Status>, except: set<string>, status: Status) {
    exists id :: id in results && id !in except && results[id] == status
  }

  lemma RequiredHas(entry: Requirement, results: map<string, Status>, runsFor: Spec -> Option<seq<Run>>, head: string,
                    status: Status)
    requires StatusesOf(results, entry.evidence, runsFor, head)
    ensures SomeIs(results, Deferred(entry), status) <==> SomeRequired(entry, runsFor, head, status)
  {
    hide EvidenceStatus, Deferred;
    if SomeIs(results, Deferred(entry), status) {
      var id :| id in results && id !in Deferred(entry) && results[id] == status;
      var k :| 0 <= k < |entry.evidence| && entry.evidence[k].id == id;
      assert results[entry.evidence[k].id] == EvidenceStatus(entry.evidence[k], runsFor(entry.evidence[k]), head);
    }
    if SomeRequired(entry, runsFor, head, status) {
      var k :| 0 <= k < |entry.evidence| && entry.evidence[k].id !in Deferred(entry)
               && EvidenceStatus(entry.evidence[k], runsFor(entry.evidence[k]), head) == status;
      assert entry.evidence[k].id in results && results[entry.evidence[k].id] == status;
    }
  }

  lemma UnavailableHas(entry: Requirement, results: map<string, Status>, runsFor: Spec -> Option<seq<Run>>,
                       head: string)
    requires StatusesOf(results, entry.evidence, runsFor, head)
    ensures SomeIs(results, {}, Unavailable) <==> SomeUnavailable(entry, runsFor)
  {
    hide EvidenceStatus;
    forall k | 0 <= k < |entry.evidence|
      ensures results[entry.evidence[k].id] == Unavailable <==> runsFor(entry.evidence[k]).None?
    {
      UnavailableRuns(entry.evidence[k], runsFor(entry.evidence[k]), head);
    }
    if SomeIs(results, {}, Unavailable) {
      var id :| id in results && results[id] == Unavailable;
      var k :| 0 <= k < |entry.evidence| && entry.evidence[k].id == id;
      assert runsFor(entry.evidence[k]).None?;
    }
    if SomeUnavailable(entry, runsFor) {
      var k :| 0 <= k < |entry.evidence| && runsFor(entry.evidence[k]).None?;
      assert entry.evidence[k].id in results && results[entry.evidence[k].id] == Unavailable;
    }
  }

  lemma ResultsStatuses(entry: Requirement, runsFor: Spec -> Option<seq<Run>>, head: string)
    requires Registered(entry)
    ensures StatusesOf(Results(entry.evidence, runsFor, head), entry.evidence, runsFor, head)
  {
    hide EvidenceStatus, Results;
    ResultsAre(entry.evidence, runsFor, head);
  }

  lemma ResultsHave(entry: Requirement, runsFor: Spec -> Option<seq<Run>>, head: string, status: Status)
    requires Registered(entry)
    ensures var results := Results(entry.evidence, runsFor, head);
            && (SomeIs(results, Deferred(entry), status) <==> SomeRequired(entry, runsFor, head, status))
            && (SomeIs(results, {}, Unavailable) <==> SomeUnavailable(entry, runsFor))
  {
    hide EvidenceStatus, Results, Deferred, Registered, SomeRequired, SomeUnavailable, SomeIs, StatusesOf;
    var results := Results(entry.evidence, runsFor, head);
    ResultsStatuses(entry, runsFor, head);
    RequiredHas(entry, results, runsFor, head, status);
    UnavailableHas(entry, results, runsFor, head);
  }

  /** What keeps a governed change waiting or fails it, in order of precedence: runs
      that cannot be read, evidence for other heads only, evidence that is absent,
      and criteria that no exception covers. */
  lemma WaitingExactly(entry: Requirement, runsFor: Spec -> Option<seq<Run>>, head: string,
                       rootSha: string -> Option<string>, now: int)
    requires Registered(entry)
    ensures var outcome := DecideBound(entry, Results(entry.evidence, runsFor, head), head, rootSha, now);
            var readable := !SomeUnavailable(entry, runsFor);
            var current := readable && !SomeRequired(entry, runsFor, head, Stale);
            var present := current && !SomeRequired(entry, runsFor, head, Missing);
            var covered := if entry.exception.Some? then entry.exception.value.deferredCriteria else {};
            && (outcome == EvidenceUnavailable <==> !readable)
            && (outcome == EvidenceStale <==> readable && !current)
            && (outcome == EvidenceMissing <==> current && !present)
            && (outcome == Outstanding <==> present && exists x :: x in entry.unverifiable && x !in covered)
  {
    hide EvidenceStatus, Results, Registered, SomeUnavailable, SomeRequired;
    ResultsHave(entry, runsFor, head, Stale);
    ResultsHave(entry, runsFor, head, Missing);
    var covered := if entry.exception.Some? then entry.exception.value.deferredCriteria else {};
    assert (exists x :: x in entry.unverifiable && x !in covered) <==> entry.unverifiable - covered != {} by {
      assert forall x :: x in entry.unverifiable && x !in covered <==> x in entry.unverifiable - covered;
    }
  }

  /** What the other statuses of a producer mean: without a run at the head, a success
      at another one is stale evidence; anything else that is no proof is missing. */
  lemma StatusExactly(spec: Spec, runs: seq<Run>, head: string)
    ensures EvidenceStatus(spec, Some(runs), head) == Stale
            <==> && (forall x :: x in runs && x.path == spec.workflow && x.event == spec.event ==> x.headSha != head)
                 && exists x :: x in runs && x.path == spec.workflow && x.event == spec.event && x.succeeded
    ensures EvidenceStatus(spec, Some(runs), head) == Proven ==>
              exists x :: && IsNewest(spec, head, runs, x) && x.completed && x.succeeded && x.path == spec.workflow
                          && x.event == spec.event && x.headSha == head
  {
    var exact := Exact(spec, head, runs);
    if exact != [] {
      SomeNewest(spec, head, runs);
      assert exact[0] in exact;
    }
  }

  /** What refuses an exception that would otherwise apply: another head, a trust
      root that cannot be read or has changed, and a date that is missing or past. */
  lemma ExceptionRefused(entry: Requirement, runsFor: Spec -> Option<seq<Run>>, head: string,
                         rootSha: string -> Option<string>, now: int)
    requires Registered(entry) && entry.exception.Some?
    requires !SomeUnavailable(entry, runsFor) && !SomeRequired(entry, runsFor, head, Stale)
    requires !SomeRequired(entry, runsFor, head, Missing)
    requires entry.unverifiable <= entry.exception.value.deferredCriteria
    requires entry.unverifiable != {} || DeferredOutstanding(entry, runsFor, head)
    ensures var outcome := DecideBound(entry, Results(entry.evidence, runsFor, head), head, rootSha, now);
            var e := entry.exception.value;
            && (outcome == OtherHead <==> e.headSha != head)
            && (outcome == RootUnavailable <==> e.headSha == head && rootSha(e.trustRoot).None?)
            && (outcome == RootChanged <==>
                e.headSha == head && rootSha(e.trustRoot).Some? && rootSha(e.trustRoot).value != e.trustRootSha)
            && (outcome == Expired <==>
                e.headSha == head && rootSha(e.trustRoot) == Some(e.trustRootSha)
                && (e.expires.None? || now > e.expires.value))
  {
    hide EvidenceStatus, Results, Registered, SomeUnavailable, SomeRequired, HasProof, DeferredOutstanding;
    ResultsHave(entry, runsFor, head, Stale);
    ResultsHave(entry, runsFor, head, Missing);
    ResultsProven(entry, runsFor, head);
    DeferralOnResults(entry, runsFor, head);
    assert entry.unverifiable - entry.exception.value.deferredCriteria == {};
  }
}
