/** Candidate admission under a moving head. The pull request lives its own life,
    and so do the evidence readers: a world gives the state of the one and the
    answers of the others at every instant, and any amount of time may pass
    between two requests. */
module CandidateAdmission {
  import opened Text

  datatype Pull = Pull(
    open: bool,
    draft: Option<bool>,
    head: string,
    baseRef: string,
    baseSha: string,
    nodeId: string,
    mergeable: Option<bool>,
    sameRepository: bool)


  /** What the evidence readers say, or that a request raised. */
  datatype Verdict = Success | Pending | Failure | Raised

  /** The flag says of changed paths that they touch the trusted preflight, of
      threads that one is unresolved, of a failed review that it blocks, and of
      the trusted proof that it is missing. */
  datatype Answer = Answer(verdict: Verdict, flag: bool)

  datatype Reader =
    | PullRequest | ChangedPaths | PreflightMode | IngressProvenance | ReviewThreads | HostileReview
    | TrustedProof | BranchPreflight | ReadyChecks | Transition

  datatype World = World(history: nat -> Pull, answers: (Reader, nat) -> Answer)

  /** The trace of one run. A polled state is thrown away; the head of a checked
      one was compared or became the evaluated head. */
  datatype Event =
    | Polled(at: nat, pull: Pull)
    | Checked(at: nat, pull: Pull)
    | Unread(at: nat)
    | Evidence(at: nat, reader: Reader, answer: Answer)
    | Admitted(at: nat, head: string)
    | MarkReady(at: nat, nodeId: string)
    | ConvertToDraft(at: nat, nodeId: string)

  datatype Exit = Zero | One | Error

  /** `safe_draft`: same repository, onto main, mergeable, with identifiers. */
  predicate SafeDraft(p: Pull) {
    p.sameRepository && p.baseRef == "main" && p.baseSha != "" && p.mergeable == Some(true) && p.nodeId != ""
  }

  predicate Mutation(e: Event) {
    e.MarkReady? || e.ConvertToDraft?
  }

  /** GitHub as one run sees it. */
  class GitHub {
    const world: World
    const delays: nat -> nat
    var asked: nat
    var now: nat
    ghost var log: seq<Event>

    constructor (world: World, delays: nat -> nat)
      ensures this.world == world && log == [] && now == 0
    {
      this.world, this.delays := world, delays;
      asked, now, log := 0, 0, [];
    }

    /** One request: time passes, and what it is answered is out of our hands. */
    method Ask(reader: Reader) returns (answer: Answer)
      modifies this`asked, this`now
      ensures now > old(now) && answer == world.answers(reader, now)
    {
      now := now + 1 + delays(asked);
      asked := asked + 1;
      answer := world.answers(reader, now);
    }
  }

  // ------------------------------------------------------------------ traces

  /** The event reports the world at its instant. */
  predicate Reports(w: World, e: Event) {
    match e
    case Polled(at, pull) => pull == w.history(at) && !w.answers(PullRequest, at).verdict.Raised?
    case Checked(at, pull) => pull == w.history(at) && !w.answers(PullRequest, at).verdict.Raised?
    case Unread(at) => w.answers(PullRequest, at).verdict.Raised?
    case Evidence(at, reader, answer) => answer == w.answers(reader, at)
    case _ => true
  }

  /** Every event does, and time moves forward. */
  ghost predicate Truthful(w: World, log: seq<Event>, now: nat) {
    && (forall i :: 0 <= i < |log| ==> log[i].at <= now && Reports(w, log[i]))
    && (forall i, j :: 0 <= i < j < |log| ==> log[i].at <= log[j].at)
  }

  /** Reads that could not tell mergeability yet. */
  ghost predicate Polls(log: seq<Event>) {
    forall i :: 0 <= i < |log| ==> log[i].Polled? && log[i].pull.mergeable.None?
  }

  /** Up to three reads, of which the last is used: the first that tells
      mergeability, or the third. */
  ghost predicate ReadOf(log: seq<Event>, pull: Pull) {
    && 1 <= |log| <= 3 && Polls(log[..|log| - 1]) && log[|log| - 1].Checked? && log[|log| - 1].pull == pull
    && (pull.mergeable.Some? || |log| == 3)
  }

  /** Up to three reads, of which the last raised. */
  ghost predicate FailedRead(log: seq<Event>) {
    1 <= |log| <= 3 && Polls(log[..|log| - 1]) && log[|log| - 1].Unread?
  }

  ghost predicate ReadResult(log: seq<Event>, pull: Option<Pull>) {
    if pull.None? then FailedRead(log) else ReadOf(log, pull.value)
  }

  lemma TruthfulMore(w: World, log: seq<Event>, before: nat, e: Event, now: nat)
    requires Truthful(w, log, before) && before <= now && e.at == now && Reports(w, e)
    ensures Truthful(w, log + [e], now)
  {
    hide Reports;
  }

  /** `read_mergeability`: up to three reads until GitHub knows mergeability. */
  method ReadMergeability(hub: GitHub) returns (pull: Option<Pull>, ghost added: seq<Event>)
    requires Truthful(hub.world, hub.log, hub.now)
    modifies hub`asked, hub`now, hub`log
    ensures Truthful(hub.world, hub.log, hub.now) && hub.log == old(hub.log) + added
    ensures ReadResult(added, pull)
  {
    added := [];
    for attempt := 0 to 3
      invariant Truthful(hub.world, hub.log, hub.now) && hub.log == old(hub.log) + added
      invariant Polls(added) && |added| == attempt <= 2
    {
      ghost var before := hub.now;
      var answer := hub.Ask(PullRequest);
      if answer.verdict.Raised? {
        TruthfulMore(hub.world, hub.log, before, Unread(hub.now), hub.now);
        hub.log := hub.log + [Unread(hub.now)];
        assert (added + [Unread(hub.now)])[..attempt] == added;
        added := added + [Unread(hub.now)];
        pull := None;
        return;
      }
      var seen := hub.world.history(hub.now);
      if seen.mergeable.Some? || attempt == 2 {
        TruthfulMore(hub.world, hub.log, before, Checked(hub.now, seen), hub.now);
        hub.log := hub.log + [Checked(hub.now, seen)];
        assert (added + [Checked(hub.now, seen)])[..attempt] == added;
        added := added + [Checked(hub.now, seen)];
        pull := Some(seen);
        return;
      }
      TruthfulMore(hub.world, hub.log, before, Polled(hub.now, seen), hub.now);
      hub.log := hub.log + [Polled(hub.now, seen)];
      added := added + [Polled(hub.now, seen)];
    }
  }

  /** One read whose head is compared with the evaluated head. */
  method HeadIs(hub: GitHub, head: string) returns (same: bool, ghost event: Event)
    requires Truthful(hub.world, hub.log, hub.now)
    modifies hub`asked, hub`now, hub`log
    ensures Truthful(hub.world, hub.log, hub.now) && hub.log == old(hub.log) + [event]
    ensures event.Checked? || event.Unread?
    ensures same <==> event.Checked? && event.pull.head == head
  {
    ghost var before := hub.now;
    var answer := hub.Ask(PullRequest);
    if answer.verdict.Raised? {
      event, same := Unread(hub.now), false;
    } else {
      event, same := Checked(hub.now, hub.world.history(hub.now)), hub.world.history(hub.now).head == head;
    }
    TruthfulMore(hub.world, hub.log, before, event, hub.now);
    hub.log := hub.log + [event];
  }

  /** One evidence reader, however many requests it makes. */
  method Consult(hub: GitHub, reader: Reader) returns (answer: Answer, ghost event: Event)
    requires Truthful(hub.world, hub.log, hub.now)
    modifies hub`asked, hub`now, hub`log
    ensures Truthful(hub.world, hub.log, hub.now) && hub.log == old(hub.log) + [event]
    ensures event == Evidence(hub.now, reader, answer)
  {
    ghost var before := hub.now;
    answer := hub.Ask(reader);
    event := Evidence(hub.now, reader, answer);
    TruthfulMore(hub.world, hub.log, before, event, hub.now);
    hub.log := hub.log + [event];
  }

  // --------------------------------------------------------- one admission

  /** The candidate touches the trusted preflight, as its changed paths told. */
  predicate Protected(log: seq<Event>) {
    |log| > 1 && log[1].Evidence? && log[1].answer.flag
  }

  /** Whom the i-th request of an admission goes to. */
  function Stage(protected: bool, i: nat): Reader {
    match i
    case 1 => ChangedPaths
    case 2 => PreflightMode
    case 3 => IngressProvenance
    case 4 => ReviewThreads
    case 5 => HostileReview
    case 7 => if protected then TrustedProof else BranchPreflight
    case _ => PullRequest
  }

  /** The answer lets the admission go on. */
  predicate Proceeds(reader: Reader, answer: Answer) {
    match reader
    case ReviewThreads => answer.verdict.Success? && !answer.flag
    case HostileReview => !answer.verdict.Raised? && !(answer.verdict.Failure? && answer.flag)
    case TrustedProof => !answer.flag && !answer.verdict.Raised?
    case _ => answer.verdict.Success?
  }

  /** The verdict of an admission that ends with this answer. */
  function OwnVerdict(reader: Reader, answer: Answer): Verdict {
    match reader
    case IngressProvenance => answer.verdict
    case HostileReview => answer.verdict
    case BranchPreflight => answer.verdict
    case TrustedProof => if answer.flag then Failure else answer.verdict
    case _ => Failure
  }

  predicate Asked(e: Event, reader: Reader) {
    if reader.PullRequest? then e.Checked? || e.Unread? else e.Evidence? && e.reader == reader
  }

  predicate Passes(e: Event, reader: Reader, head: string) {
    if reader.PullRequest? then e.Checked? && e.pull.head == head
    else e.Evidence? && e.reader == reader && Proceeds(reader, e.answer)
  }

  /** Everything so far lets the admission go on. */
  ghost predicate Going(log: seq<Event>, head: string) {
    |log| <= 9 && forall i :: 0 <= i < |log| ==> Passes(log[i], Stage(Protected(log), i), head)
  }

  /** What an admission at `head` leaves in the trace. */
  ghost predicate AdmissionTrace(log: seq<Event>, head: string) {
    && |log| == 10 && Going(log[..9], head) && log[9].Admitted? && log[9].head == head
    && (Protected(log) ==> log[7].answer.verdict.Success?)
  }

  /** What a refused one leaves: the request that decided it comes last, but for
      a trusted proof that is still followed by a look at the head. */
  ghost predicate RefusedTrace(log: seq<Event>, head: string) {
    && 1 <= |log| <= 9
    && (|| (&& Going(log[..|log| - 1], head) && Asked(log[|log| - 1], Stage(Protected(log), |log| - 1))
            && !Passes(log[|log| - 1], Stage(Protected(log), |log| - 1), head))
        || (|log| == 9 && Going(log, head) && Protected(log) && !log[7].answer.verdict.Success?))
  }

  function RefusalVerdict(log: seq<Event>, head: string): Verdict
    requires RefusedTrace(log, head)
  {
    var last := log[|log| - 1];
    if last.Evidence? then OwnVerdict(last.reader, last.answer)
    else if |log| == 9 && Passes(last, PullRequest, head) then log[7].answer.verdict
    else Failure
  }

  lemma GoOn(log: seq<Event>, e: Event, head: string)
    requires Going(log, head) && |log| < 9 && Passes(e, Stage(Protected(log), |log|), head)
    ensures Going(log + [e], head)
  {
    hide Passes;
    assert |log| > 1 ==> Protected(log + [e]) == Protected(log);
    forall i | 0 <= i < |log + [e]| ensures Passes((log + [e])[i], Stage(Protected(log + [e]), i), head) {
      assert i < |log| ==> (log + [e])[i] == log[i];
    }
  }

  lemma StopHere(log: seq<Event>, e: Event, head: string)
    requires Going(log, head) && |log| < 9 && Asked(e, Stage(Protected(log), |log|))
    requires !Passes(e, Stage(Protected(log), |log|), head)
    ensures RefusedTrace(log + [e], head)
    ensures RefusalVerdict(log + [e], head) == if e.Evidence? then OwnVerdict(e.reader, e.answer) else Failure
  {
    hide Going, Proceeds;
    assert (log + [e])[..|log|] == log;
  }

  ghost predicate AdmissionResult(log: seq<Event>, head: string, verdict: Verdict) {
    if verdict.Success? then AdmissionTrace(log, head)
    else RefusedTrace(log, head) && verdict == RefusalVerdict(log, head)
  }

  /** The next stage of an admission that is going on: an evidence reader. */
  method Hear(hub: GitHub, reader: Reader, ghost sofar: seq<Event>, ghost head: string)
    returns (answer: Answer, ghost log: seq<Event>)
    requires Truthful(hub.world, hub.log, hub.now)
    requires Going(sofar, head) && |sofar| < 9 && reader == Stage(Protected(sofar), |sofar|) && !reader.PullRequest?
    modifies hub`asked, hub`now, hub`log
    ensures Truthful(hub.world, hub.log, hub.now) && |log| == |sofar| + 1 && log[..|sofar|] == sofar
    ensures hub.log == old(hub.log) + log[|sofar|..] && log[|sofar|].Evidence? && log[|sofar|].answer == answer
    ensures if Proceeds(reader, answer) then Going(log, head)
            else RefusedTrace(log, head) && RefusalVerdict(log, head) == OwnVerdict(reader, answer)
  {
    hide Truthful, Going, RefusedTrace, RefusalVerdict, Proceeds, OwnVerdict;
    ghost var event;
    answer, event := Consult(hub, reader);
    log := sofar + [event];
    if Proceeds(reader, answer) {
      GoOn(sofar, event, head);
    } else {
      StopHere(sofar, event, head);
    }
  }

  /** The next stage: a look at the head. */
  method Recheck(hub: GitHub, head: string, ghost sofar: seq<Event>) returns (same: bool, ghost log: seq<Event>)
    requires Truthful(hub.world, hub.log, hub.now)
    requires Going(sofar, head) && |sofar| < 9 && Stage(Protected(sofar), |sofar|).PullRequest?
    modifies hub`asked, hub`now, hub`log
    ensures Truthful(hub.world, hub.log, hub.now) && |log| == |sofar| + 1 && log[..|sofar|] == sofar
    ensures hub.log == old(hub.log) + log[|sofar|..]
    ensures if same then Going(log, head) else AdmissionResult(log, head, Failure)
  {
    hide Truthful, Going, RefusedTrace, RefusalVerdict;
    ghost var event;
    same, event := HeadIs(hub, head);
    log := sofar + [event];
    if same {
      GoOn(sofar, event, head);
    } else {
      StopHere(sofar, event, head);
    }
  }

  lemma StillProtected(log: seq<Event>, sofar: seq<Event>)
    requires sofar <= log && |sofar| > 1
    ensures Protected(log) == Protected(sofar)
  {
  }

  lemma Joined(before: seq<Event>, sofar: seq<Event>, log: seq<Event>, now: seq<Event>)
    requires |sofar| <= |log| && log[..|sofar|] == sofar && now == before + sofar + log[|sofar|..]
    ensures now == before + log
  {
    assert log == sofar + log[|sofar|..];
  }

  /** The evidence readers consulted before the mid-way recheck, in order:
      changed paths, preflight mode, ingress provenance, review threads, review. */
  method ReadEvidence(hub: GitHub, ghost before: seq<Event>, ghost first: seq<Event>, ghost head: string)
    returns (verdict: Verdict, protected: bool, ghost log: seq<Event>)
    requires Truthful(hub.world, hub.log, hub.now) && hub.log == before + first
    requires |first| == 1 && Going(first, head)
    modifies hub`asked, hub`now, hub`log
    ensures Truthful(hub.world, hub.log, hub.now) && hub.log == before + log
    ensures |log| > 1 && protected == Protected(log)
    ensures if verdict.Success? then |log| == 6 && Going(log, head) else AdmissionResult(log, head, verdict)
  {
    hide Truthful, Going, RefusedTrace, RefusalVerdict, AdmissionTrace, Reports;
    ghost var sofar := first;
    var paths, mode, ingress, threads, review;
    paths, log := Hear(hub, ChangedPaths, sofar, head);
    Joined(before, sofar, log, hub.log);
    protected := paths.flag;
    if !paths.verdict.Success? {
      return Failure, protected, log;
    }
    sofar := log;
    mode, log := Hear(hub, PreflightMode, sofar, head);
    Joined(before, sofar, log, hub.log);
    StillProtected(log, sofar);
    if !mode.verdict.Success? {
      return Failure, protected, log;
    }
    sofar := log;
    ingress, log := Hear(hub, IngressProvenance, sofar, head);
    Joined(before, sofar, log, hub.log);
    StillProtected(log, sofar);
    if !ingress.verdict.Success? {
      return ingress.verdict, protected, log;
    }
    sofar := log;
    threads, log := Hear(hub, ReviewThreads, sofar, head);
    Joined(before, sofar, log, hub.log);
    StillProtected(log, sofar);
    if !threads.verdict.Success? || threads.flag {
      return Failure, protected, log;
    }
    sofar := log;
    review, log := Hear(hub, HostileReview, sofar, head);
    Joined(before, sofar, log, hub.log);
    StillProtected(log, sofar);
    if review.verdict.Raised? || (review.verdict.Failure? && review.flag) {
      return review.verdict, protected, log;
    }
    verdict := Success;
  }

  ghost method RecordAdmission(hub: GitHub, head: string) returns (event: Event)
    requires Truthful(hub.world, hub.log, hub.now)
    modifies hub`log
    ensures Truthful(hub.world, hub.log, hub.now) && hub.log == old(hub.log) + [event]
    ensures event == Admitted(hub.now, head)
  {
    event := Admitted(hub.now, head);
    TruthfulMore(hub.world, hub.log, hub.now, event, hub.now);
    hub.log := hub.log + [event];
  }

  /** The ninth request passed, and everything before it. */
  lemma Completed(log: seq<Event>, end: Event, head: string)
    requires |log| == 9 && Going(log, head)
    ensures Protected(log) ==> log[7].Evidence?
    ensures end.Admitted? && end.head == head && (Protected(log) ==> log[7].answer.verdict.Success?) ==>
              AdmissionTrace(log + [end], head)
    ensures Protected(log) && !log[7].answer.verdict.Success? ==>
              RefusedTrace(log, head) && RefusalVerdict(log, head) == log[7].answer.verdict
  {
    assert (log + [end])[..9] == log;
    assert Passes(log[7], Stage(Protected(log), 7), head) && Passes(log[8], PullRequest, head);
  }

  /** `candidate_admission` for a numbered pull request. */
  method Admit(hub: GitHub, head: string) returns (verdict: Verdict, ghost log: seq<Event>)
    requires Truthful(hub.world, hub.log, hub.now)
    modifies hub`asked, hub`now, hub`log
    ensures Truthful(hub.world, hub.log, hub.now) && hub.log == old(hub.log) + log
    ensures AdmissionResult(log, head, verdict)
  {
    hide Truthful, Going, RefusedTrace, RefusalVerdict, AdmissionTrace, Reports, Passes;
    ghost var before, sofar := hub.log, [];
    var same, protected, proof;
    NothingAsked(head);
    same, log := Recheck(hub, head, sofar);
    assert hub.log == before + log;
    if !same {
      return Failure, log;
    }
    verdict, protected, log := ReadEvidence(hub, before, log, head);
    if !verdict.Success? {
      return verdict, log;
    }
    sofar := log;
    same, log := Recheck(hub, head, sofar);
    Joined(before, sofar, log, hub.log);
    if !same {
      return Failure, log;
    }
    StillProtected(log, sofar);
    sofar := log;
    if protected {
      proof, log := Hear(hub, TrustedProof, sofar, head);
    } else {
      proof, log := Hear(hub, BranchPreflight, sofar, head);
    }
    Joined(before, sofar, log, hub.log);
    StillProtected(log, sofar);
    if protected && proof.flag {
      return Failure, log;               // the proof is missing
    }
    if proof.verdict.Raised? || (!protected && !proof.verdict.Success?) {
      return proof.verdict, log;
    }
    sofar := log;
    same, log := Recheck(hub, head, sofar);
    Joined(before, sofar, log, hub.log);
    StillProtected(log, sofar);
    if !same {
      return Failure, log;
    }
    assert log[7] == sofar[7];
    verdict := if protected then proof.verdict else Success;
    Completed(log, Admitted(hub.now, head), head);
    if verdict.Success? {
      ghost var end := RecordAdmission(hub, head);
      log := log + [end];
      assert hub.log == before + log;
    }
  }

  lemma NothingAsked(head: string)
    ensures Going([], head)
  {
  }

  // ------------------------------------------------------------- enforcement

  method Mutate(hub: GitHub, nodeId: string, draft: bool) returns (confirmed: bool, ghost event: Event)
    requires Truthful(hub.world, hub.log, hub.now)
    modifies hub`asked, hub`now, hub`log
    ensures Truthful(hub.world, hub.log, hub.now) && hub.log == old(hub.log) + [event]
    ensures event == if draft then ConvertToDraft(hub.now, nodeId) else MarkReady(hub.now, nodeId)
  {
    ghost var before := hub.now;
    var answer := hub.Ask(Transition);
    event := if draft then ConvertToDraft(hub.now, nodeId) else MarkReady(hub.now, nodeId);
    TruthfulMore(hub.world, hub.log, before, event, hub.now);
    hub.log := hub.log + [event];
    confirmed := answer.verdict.Success?;
  }

  /** One run in its parts: the first read, the admission with the ready checks if
      they are consulted, the second read, the mutation, and the read after it. */
  datatype Run = Run(first: seq<Event>, judged: seq<Event>, again: seq<Event>, done: seq<Event>, last: seq<Event>)

  function Log(r: Run): seq<Event> {
    r.first + r.judged + r.again + r.done + r.last
  }

  ghost predicate Stops(r: Run, exit: Exit, expected: Exit) {
    r.done == [] && r.last == [] && exit == expected
  }

  /** Nothing changed since the first read, and the second one shows a safe draft. */
  predicate StillSame(pr: Pull, last: Pull) {
    && SafeDraft(last) && last.open && last.draft == Some(true)
    && last.head == pr.head && last.baseSha == pr.baseSha && last.nodeId == pr.nodeId
  }

  predicate ShowsReady(pr: Pull, end: Pull) {
    end.open && end.draft == Some(false) && end.head == pr.head && end.baseSha == pr.baseSha
  }

  predicate Marks(done: seq<Event>, nodeId: string) {
    |done| == 1 && done[0].MarkReady? && done[0].nodeId == nodeId
  }

  predicate Converts(done: seq<Event>, nodeId: string) {
    |done| == 1 && done[0].ConvertToDraft? && done[0].nodeId == nodeId
  }

  /** An admitted draft is marked ready if it is still the same, and the exit tells
      whether GitHub then shows it ready. */
  ghost predicate Promoted(r: Run, pr: Pull, exit: Exit) {
    if FailedRead(r.again) then Stops(r, exit, Error)
    else
      && r.again != [] && r.again[|r.again| - 1].Checked?
      && var last := r.again[|r.again| - 1].pull;
      && ReadOf(r.again, last)
      && if !StillSame(pr, last) then Stops(r, exit, One)
         else
           && Marks(r.done, pr.nodeId)
           && if FailedRead(r.last) then exit == Error
              else
                && r.last != [] && r.last[|r.last| - 1].Checked?
                && var end := r.last[|r.last| - 1].pull;
                && ReadOf(r.last, end) && exit == if ShowsReady(pr, end) then Zero else One
  }

  /** A refused candidate is converted to draft if it is still at the evaluated head. */
  ghost predicate Returned(r: Run, pr: Pull, exit: Exit) {
    if FailedRead(r.again) then Stops(r, exit, Error)
    else
      && r.again != [] && r.again[|r.again| - 1].Checked?
      && var last := r.again[|r.again| - 1].pull;
      && ReadOf(r.again, last)
      && if last.head == "" then Stops(r, exit, Error)
         else if last.head != pr.head then Stops(r, exit, Zero)
         else if last.draft == Some(true) || last.nodeId == "" then Stops(r, exit, One)
         else Converts(r.done, last.nodeId) && r.last == [] && exit == One
  }

  ghost predicate Judged(r: Run, pr: Pull, exit: Exit) {
    if AdmissionTrace(r.judged, pr.head) then
      && pr.draft == Some(true)
      && if SafeDraft(pr) then Promoted(r, pr, exit) else r.again == [] && Stops(r, exit, One)
    else if RefusedTrace(r.judged, pr.head) then
      match RefusalVerdict(r.judged, pr.head)
      case Success => false
      case Raised => r.again == [] && Stops(r, exit, Error)
      case Pending => r.again == [] && Stops(r, exit, Zero)
      case Failure => Returned(r, pr, exit)
    else
      && pr.draft != Some(true) && |r.judged| == 11 && AdmissionTrace(r.judged[..10], pr.head)
      && r.judged[10].Evidence? && r.judged[10].reader.ReadyChecks?
      && if r.judged[10].answer.verdict in {Success, Pending} then r.again == [] && Stops(r, exit, Zero)
         else Returned(r, pr, exit)
  }

  /** The event is about an open pull request onto main, at the head it is about. */
  predicate Concerns(expected: Option<string>, pr: Pull) {
    pr.open && pr.baseRef == "main" && (expected.None? || expected.value == "" || expected.value == pr.head)
  }

  /** What one run does, whatever the world does in between. */
  ghost predicate RunFits(r: Run, expected: Option<string>, exit: Exit) {
    if FailedRead(r.first) then r.judged == r.again == [] && Stops(r, exit, Error)
    else
      && r.first != [] && r.first[|r.first| - 1].Checked?
      && var pr := r.first[|r.first| - 1].pull;
      && ReadOf(r.first, pr)
      && if pr.open && pr.baseRef == "main" && pr.head == "" then r.judged == r.again == [] && Stops(r, exit, Error)
         else if !Concerns(expected, pr) then r.judged == r.again == [] && Stops(r, exit, Zero)
         else Judged(r, pr, exit)
  }

  lemma Distinguished(log: seq<Event>, head: string)
    ensures !(AdmissionTrace(log, head) && RefusedTrace(log, head))
    ensures AdmissionTrace(log, head) ==> |log| == 10
    ensures forall e :: AdmissionTrace(log, head) ==>
              !AdmissionTrace(log + [e], head) && !RefusedTrace(log + [e], head) && (log + [e])[..10] == log
  {
    hide Going;
  }

  lemma ReadEnds(log: seq<Event>, pull: Pull)
    requires ReadOf(log, pull)
    ensures log != [] && log[|log| - 1].Checked? && log[|log| - 1].pull == pull && !FailedRead(log)
  {
  }

  /** An admitted draft: re-read, mark ready, and confirm from GitHub's state. */
  method PromoteDraft(hub: GitHub, pr: Pull, ghost r: Run) returns (exit: Exit, ghost run: Run)
    requires Truthful(hub.world, hub.log, hub.now) && r.again == r.done == r.last == []
    modifies hub`asked, hub`now, hub`log
    ensures Truthful(hub.world, hub.log, hub.now)
    ensures run.first == r.first && run.judged == r.judged && Promoted(run, pr, exit)
    ensures hub.log == old(hub.log) + (run.again + run.done + run.last)
  {
    hide Truthful, ReadOf, FailedRead, SafeDraft;
    var found, again, confirmed;
    ghost var c, k, d;
    found, c := ReadMergeability(hub);
    run := r.(again := c);
    if found.None? {
      return Error, run;
    }
    var last := found.value;
    ReadEnds(c, last);
    if !SafeDraft(last) || !last.open || last.draft != Some(true) || last.head != pr.head
       || last.baseSha != pr.baseSha || last.nodeId != pr.nodeId {
      return One, run;
    }
    confirmed, k := Mutate(hub, last.nodeId, false);
    again, d := ReadMergeability(hub);
    run := r.(again := c, done := [k], last := d);
    if again.None? {
      return Error, run;
    }
    var end := again.value;
    ReadEnds(d, end);
    exit := if !end.open || end.draft != Some(false) || end.head != pr.head || end.baseSha != pr.baseSha then One
            else Zero;
  }

  /** A refused candidate: re-read, and convert to draft unless it moved on. */
  method ReturnToDraft(hub: GitHub, pr: Pull, ghost r: Run) returns (exit: Exit, ghost run: Run)
    requires Truthful(hub.world, hub.log, hub.now) && r.again == r.done == r.last == []
    modifies hub`asked, hub`now, hub`log
    ensures Truthful(hub.world, hub.log, hub.now)
    ensures run.first == r.first && run.judged == r.judged && Returned(run, pr, exit)
    ensures hub.log == old(hub.log) + (run.again + run.done + run.last)
  {
    hide Truthful, ReadOf, FailedRead;
    var found, confirmed;
    ghost var c, k;
    found, c := ReadMergeability(hub);
    run := r.(again := c);
    if found.None? {
      return Error, run;
    }
    var last := found.value;
    ReadEnds(c, last);
    if last.head == "" {
      return Error, run;
    }
    if last.head != pr.head {
      return Zero, run;
    }
    if last.draft == Some(true) || last.nodeId == "" {
      return One, run;
    }
    confirmed, k := Mutate(hub, last.nodeId, true);
    run := r.(again := c, done := [k]);
    exit := One;
  }

  lemma JoinedRun(before: seq<Event>, run: Run, now: seq<Event>)
    requires now == before + run.first + run.judged + (run.again + run.done + run.last)
    ensures now == before + Log(run)
  {
    assert Log(run) == run.first + run.judged + (run.again + run.done + run.last);
  }

  /** `enforce_candidate_admission`: one run over one pull request event. */
  method Enforce(hub: GitHub, expected: Option<string>) returns (exit: Exit, ghost run: Run)
    requires Truthful(hub.world, hub.log, hub.now)
    modifies hub`asked, hub`now, hub`log
    ensures Truthful(hub.world, hub.log, hub.now) && hub.log == old(hub.log) + Log(run)
    ensures RunFits(run, expected, exit)
  {
    hide Truthful, ReadOf, FailedRead, SafeDraft, AdmissionTrace, RefusedTrace, RefusalVerdict, Promoted, Returned;
    ghost var before, a, b := hub.log, [], [];
    var found, verdict;
    found, a := ReadMergeability(hub);
    run := Run(a, [], [], [], []);
    assert Log(run) == a;
    if found.None? {
      return Error, run;
    }
    var pr := found.value;
    ReadEnds(a, pr);
    if !pr.open || pr.baseRef != "main" {
      return Zero, run;
    }
    if pr.head == "" {
      return Error, run;
    }
    if expected.Some? && expected.value != "" && pr.head != expected.value {
      return Zero, run;
    }
    verdict, b := Admit(hub, pr.head);
    Distinguished(b, pr.head);
    run := Run(a, b, [], [], []);
    assert Log(run) == a + b;
    if verdict.Raised? {
      return Error, run;
    }
    if verdict.Success? && pr.draft == Some(true) {
      if !SafeDraft(pr) {
        return One, run;
      }
      exit, run := PromoteDraft(hub, pr, run);
      JoinedRun(before, run, hub.log);
      return;
    }
    if verdict.Success? {
      var ready;
      ghost var event;
      ready, event := Consult(hub, ReadyChecks);
      run := Run(a, b + [event], [], [], []);
      assert Log(run) == a + b + [event];
      verdict := if ready.verdict.Raised? then Failure else ready.verdict;
    }
    if verdict.Success? || verdict.Pending? {
      return Zero, run;
    }
    assert hub.log == before + run.first + run.judged;
    exit, run := ReturnToDraft(hub, pr, run);
    JoinedRun(before, run, hub.log);
  }

  // ------------------------------------------------- what a run then implies

  predicate Says(e: Event, reader: Reader, verdict: Verdict) {
    e.Evidence? && e.reader == reader && e.answer.verdict == verdict
  }

  predicate Shows(e: Event, head: string) {
    e.Checked? && e.pull.head == head
  }

  /** What every admission at a head has in its trace: the head, shown before,
      midway and after; success by the readers of changed paths, preflight mode and
      ingress provenance; no unresolved thread and no blocking or failing review;
      and a green proof, the trusted one if the changed paths ask for it. */
  lemma AdmittedOn(log: seq<Event>, head: string)
    requires AdmissionTrace(log, head)
    ensures |log| == 10 && Shows(log[0], head) && Shows(log[6], head) && Shows(log[8], head)
    ensures Says(log[1], ChangedPaths, Success) && Says(log[2], PreflightMode, Success)
    ensures Says(log[3], IngressProvenance, Success)
    ensures Says(log[4], ReviewThreads, Success) && !log[4].answer.flag
    ensures log[5].Evidence? && log[5].reader == HostileReview && log[5].answer.verdict != Raised
            && (log[5].answer.flag ==> log[5].answer.verdict != Failure)
    ensures if log[1].answer.flag then Says(log[7], TrustedProof, Success) && !log[7].answer.flag
            else Says(log[7], BranchPreflight, Success)
    ensures log[9].Admitted? && log[9].head == head
  {
    var nine := log[..9];
    forall i | 0 <= i < 9 ensures Passes(log[i], Stage(log[1].Evidence? && log[1].answer.flag, i), head) {
      assert Passes(nine[i], Stage(Protected(nine), i), head);
    }
  }

  predicate Calm(log: seq<Event>) {
    forall i :: 0 <= i < |log| ==> !Mutation(log[i])
  }

  lemma ReadCalm(log: seq<Event>)
    requires FailedRead(log) || (log != [] && log[|log| - 1].Checked? && ReadOf(log, log[|log| - 1].pull))
    ensures Calm(log)
  {
    forall i | 0 <= i < |log| - 1 ensures log[i].Polled? {
      assert log[..|log| - 1][i] == log[i];
    }
  }

  lemma GoingCalm(log: seq<Event>, head: string)
    requires Going(log, head)
    ensures Calm(log)
  {
    forall i | 0 <= i < |log| ensures !Mutation(log[i]) {
      assert Passes(log[i], Stage(Protected(log), i), head);
    }
  }

  lemma JudgedCalm(log: seq<Event>, head: string)
    requires AdmissionTrace(log, head) || RefusedTrace(log, head)
    ensures Calm(log)
  {
    hide Going;
    if AdmissionTrace(log, head) {
      GoingCalm(log[..9], head);
      assert log == log[..9] + [log[9]];
    } else if Going(log, head) {
      GoingCalm(log, head);
    } else {
      GoingCalm(log[..|log| - 1], head);
      assert log == log[..|log| - 1] + [log[|log| - 1]];
    }
  }

  /** Outside its one place for a mutation a run only reads. */
  lemma RunCalm(r: Run, expected: Option<string>, exit: Exit)
    requires RunFits(r, expected, exit)
    ensures Calm(r.first) && Calm(r.judged) && Calm(r.again) && Calm(r.last) && |r.done| <= 1
  {
    hide AdmissionTrace, RefusedTrace, RefusalVerdict, ReadOf, FailedRead, SafeDraft;
    ReadCalm(r.first);
    if r.again != [] {
      ReadCalm(r.again);
    }
    if r.last != [] {
      ReadCalm(r.last);
    }
    if r.judged != [] {
      var head := r.first[|r.first| - 1].pull.head;
      if AdmissionTrace(r.judged, head) || RefusedTrace(r.judged, head) {
        JudgedCalm(r.judged, head);
      } else {
        JudgedCalm(r.judged[..10], head);
        assert r.judged == r.judged[..10] + [r.judged[10]];
      }
    }
  }

  lemma OnlyThere(r: Run, i: nat)
    requires Calm(r.first) && Calm(r.judged) && Calm(r.again) && Calm(r.last) && |r.done| <= 1
    requires i < |Log(r)| && Mutation(Log(r)[i])
    ensures i == |r.first| + |r.judged| + |r.again| && r.done == [Log(r)[i]]
  {
    var before := r.first + r.judged + r.again;
    var log := Log(r);
    assert forall k :: 0 <= k < |before| ==> log[k] == before[k] && !Mutation(before[k]);
    assert forall k :: |before| + |r.done| <= k < |log| ==> log[k] == r.last[k - |before| - |r.done|];
    assert r.done != [] ==> log[|before|] == r.done[0];
  }

  /** No run issues two mutations. */
  lemma AtMostOneMutation(r: Run, expected: Option<string>, exit: Exit, i: nat, j: nat)
    requires RunFits(r, expected, exit) && i < j < |Log(r)|
    ensures !(Mutation(Log(r)[i]) && Mutation(Log(r)[j]))
  {
    hide RunFits, Log, Calm;
    RunCalm(r, expected, exit);
    if Mutation(Log(r)[i]) && Mutation(Log(r)[j]) {
      OnlyThere(r, i);
      OnlyThere(r, j);
    }
  }

  /** A run that marks a pull request ready read it as a safe draft, admitted it at
      that head, read it again unchanged, and exits zero exactly when GitHub then
      shows it open and ready at that head and base. */
  lemma ReadyRun(r: Run, expected: Option<string>, exit: Exit, i: nat)
    requires RunFits(r, expected, exit) && i < |Log(r)| && Log(r)[i].MarkReady?
    ensures i == |r.first| + |r.judged| + |r.again| && r.done == [Log(r)[i]]
    ensures r.first != [] && r.first[|r.first| - 1].Checked? && r.again != [] && r.again[|r.again| - 1].Checked?
    ensures var pr, last := r.first[|r.first| - 1].pull, r.again[|r.again| - 1].pull;
            && ReadOf(r.first, pr) && ReadOf(r.again, last)
            && pr.open && pr.draft == Some(true) && SafeDraft(pr) && pr.head != "" && Concerns(expected, pr)
            && AdmissionTrace(r.judged, pr.head)
            && last.open && last.draft == Some(true) && SafeDraft(last)
            && last.head == pr.head && last.baseSha == pr.baseSha && last.nodeId == pr.nodeId
            && Log(r)[i].nodeId == pr.nodeId
            && (exit.Zero? <==> r.last != [] && r.last[|r.last| - 1].Checked?
                                && ShowsReady(pr, r.last[|r.last| - 1].pull))
  {
    hide AdmissionTrace, RefusedTrace, RefusalVerdict, ReadOf, SafeDraft, Log;
    RunCalm(r, expected, exit);
    OnlyThere(r, i);
  }

  /** A run that converts to draft was refused outright, or was admitted with ready
      checks that failed; its last read shows the evaluated head, not a draft. */
  lemma DraftRun(r: Run, expected: Option<string>, exit: Exit, i: nat)
    requires RunFits(r, expected, exit) && i < |Log(r)| && Log(r)[i].ConvertToDraft?
    ensures i == |Log(r)| - 1 && exit.One? && r.again != [] && r.again[|r.again| - 1] == Log(r)[i - 1]
    ensures r.first != [] && r.first[|r.first| - 1].Checked? && Log(r)[i - 1].Checked?
    ensures var pr, last := r.first[|r.first| - 1].pull, Log(r)[i - 1].pull;
            && pr.open && pr.baseRef == "main" && pr.head != "" && Concerns(expected, pr)
            && last.head == pr.head && last.draft != Some(true) && last.nodeId != "" && Log(r)[i].nodeId == last.nodeId
            && ((RefusedTrace(r.judged, pr.head) && RefusalVerdict(r.judged, pr.head) == Failure)
                || (|r.judged| == 11 && AdmissionTrace(r.judged[..10], pr.head) && r.judged[10].Evidence?
                    && r.judged[10].reader.ReadyChecks? && r.judged[10].answer.verdict !in {Success, Pending}))
  {
    hide AdmissionTrace, RefusedTrace, RefusalVerdict, ReadOf, SafeDraft;
    RunCalm(r, expected, exit);
    OnlyThere(r, i);
    var pr := r.first[|r.first| - 1].pull;
    NotPromoted(r, pr, exit);
  }

  lemma NotPromoted(r: Run, pr: Pull, exit: Exit)
    requires r.done != [] && r.done[0].ConvertToDraft?
    ensures !Promoted(r, pr, exit)
  {
    hide FailedRead, ReadOf, SafeDraft;
  }

  /** A refusal is due to the last answer in the trace, which ends the admission
      with its own verdict. */
  lemma RefusedOn(log: seq<Event>, head: string)
    requires RefusedTrace(log, head)
    ensures var last, verdict := log[|log| - 1], RefusalVerdict(log, head);
            && (last.Unread? || (last.Checked? && last.pull.head != head) ==> verdict == Failure)
            && (last.Evidence? && last.reader in {ChangedPaths, PreflightMode, ReviewThreads} ==>
                  verdict == Failure && (last.answer.verdict != Success || last.answer.flag))
            && (last.Evidence? && last.reader in {IngressProvenance, BranchPreflight} ==>
                  verdict == last.answer.verdict != Success)
            && (last.Evidence? && last.reader == HostileReview ==>
                  verdict == last.answer.verdict && verdict in {Failure, Raised}
                  && (verdict == Failure ==> last.answer.flag))
            && (last.Evidence? && last.reader == TrustedProof ==>
                  if last.answer.flag then verdict == Failure else verdict == Raised == last.answer.verdict)
            && (Shows(last, head) ==>
                  |log| == 9 && log[1].Evidence? && log[1].answer.flag && log[7].Evidence?
                  && log[7].reader == TrustedProof && verdict == log[7].answer.verdict && verdict in {Pending, Failure})
  {
    hide Going;
    var n := |log|;
    if n == 9 && Going(log, head) {
      GoingAt(log, head, 7);
      GoingAt(log, head, 8);
    }
  }

  lemma GoingAt(log: seq<Event>, head: string, i: nat)
    requires Going(log, head) && i < |log|
    ensures Passes(log[i], Stage(Protected(log), i), head)
  {
  }

  // --------------------------------------------------------- while time passes

  /** Pushes never restore an old head. */
  ghost predicate NoRestore(history: nat -> Pull) {
    forall i, j, k :: i <= j <= k && history(i).head == history(k).head ==> history(j).head == history(i).head
  }

  lemma Shifted(r: Run, i: nat)
    requires i < |Log(r)|
    ensures var n := |r.first|; var m := n + |r.judged|; var k := m + |r.again|;
            && (i < n ==> Log(r)[i] == r.first[i])
            && (n <= i < m ==> Log(r)[i] == r.judged[i - n])
            && (m <= i < k ==> Log(r)[i] == r.again[i - m])
            && (i == k && r.done != [] ==> Log(r)[i] == r.done[0])
  {
  }

  lemma PollsOnly(log: seq<Event>, pull: Pull, i: nat)
    requires ReadOf(log, pull) && i < |log| - 1
    ensures log[i].Polled?
  {
    assert log[..|log| - 1][i] == log[i];
  }

  lemma BeforeMutation(r: Run, pr: Pull, last: Pull, i: nat)
    requires ReadOf(r.first, pr) && AdmissionTrace(r.judged, pr.head) && ReadOf(r.again, last) && last.head == pr.head
    requires i < |r.first| + |r.judged| + |r.again| <= |Log(r)|
    ensures Log(r)[i].Checked? ==> Log(r)[i].pull.head == pr.head
    ensures Log(r)[i].Evidence? ==> |r.first| <= i < |r.first| + |r.judged|
  {
    hide AdmissionTrace, ReadOf, Log;
    Shifted(r, i);
    var n, m := |r.first|, |r.first| + |r.judged|;
    ReadEnds(r.first, pr);
    ReadEnds(r.again, last);
    if i < n - 1 {
      PollsOnly(r.first, pr, i);
    } else if n <= i < m {
      AdmittedOn(r.judged, pr.head);
      AdmittedEvent(r.judged, pr.head, i - n);
    } else if m <= i < m + |r.again| - 1 {
      PollsOnly(r.again, last, i - m);
    }
  }

  lemma AdmittedEvent(log: seq<Event>, head: string, i: nat)
    requires AdmissionTrace(log, head) && i < |log|
    ensures log[i].Checked? ==> log[i].pull.head == head
  {
    hide AdmissionTrace;
    AdmittedOn(log, head);
    assert i in {1, 2, 3, 4, 5, 7, 9} || i in {0, 6, 8};
  }

  /** Every head a ready-making run checked before its mutation was the head it
      admitted; and if pushes never restore a head, the head stood still from
      the first used read to the last one before the mutation, so every piece of
      evidence was gathered while that head was current. */
  lemma HeadStoodStill(w: World, r: Run, expected: Option<string>, exit: Exit, now: nat, mutation: nat)
    returns (head: string, from: nat, to: nat)
    requires Truthful(w, Log(r), now) && RunFits(r, expected, exit)
    requires mutation < |Log(r)| && Log(r)[mutation].MarkReady?
    ensures from < to < mutation && Log(r)[from].Checked? && Log(r)[to].Checked?
    ensures exists i :: from < i < to && Log(r)[i].Admitted? && Log(r)[i].head == head
    ensures forall i :: 0 <= i < mutation && Log(r)[i].Checked? ==> Log(r)[i].pull.head == head
    ensures forall i :: 0 <= i < mutation && Log(r)[i].Evidence? ==> from < i < to
    ensures NoRestore(w.history) ==> forall t :: Log(r)[from].at <= t <= Log(r)[to].at ==> w.history(t).head == head
    ensures NoRestore(w.history) ==>
              forall i :: 0 <= i < mutation && Log(r)[i].Evidence? ==> w.history(Log(r)[i].at).head == head
  {
    hide AdmissionTrace, ReadOf, RunFits, SafeDraft, Log;
    ReadyRun(r, expected, exit, mutation);
    var pr, last := r.first[|r.first| - 1].pull, r.again[|r.again| - 1].pull;
    head := pr.head;
    from, to := |r.first| - 1, mutation - 1;
    AdmittedOn(r.judged, head);
    Shifted(r, from);
    Shifted(r, to);
    Shifted(r, from + 10);
    forall i | 0 <= i < mutation
      ensures (Log(r)[i].Checked? ==> Log(r)[i].pull.head == head) && (Log(r)[i].Evidence? ==> from < i < to)
    {
      BeforeMutation(r, pr, last, i);
    }
    hide RunFits, ReadOf;
    assert Reports(w, Log(r)[from]) && Reports(w, Log(r)[to]);
  }

  // ------------------------------------------------------- in a steady world

  /** Nothing changes while the run lasts, and reads of the pull request succeed. */
  ghost predicate Steady(w: World, p: Pull, says: Reader -> Answer) {
    && (forall t :: w.history(t) == p) && (forall reader, t :: w.answers(reader, t) == says(reader))
    && !says(PullRequest).verdict.Raised?
  }

  /** The verdict such a candidate deserves. */
  function Deserved(says: Reader -> Answer): Verdict {
    var proof := says(if says(ChangedPaths).flag then TrustedProof else BranchPreflight);
    if says(ChangedPaths).verdict != Success || says(PreflightMode).verdict != Success then Failure
    else if says(IngressProvenance).verdict != Success then says(IngressProvenance).verdict
    else if says(ReviewThreads).verdict != Success || says(ReviewThreads).flag then Failure
    else if says(HostileReview).verdict == Raised then Raised
    else if says(HostileReview).verdict == Failure && says(HostileReview).flag then Failure
    else if says(ChangedPaths).flag && says(TrustedProof).flag then Failure
    else proof.verdict
  }

  ghost predicate AllReport(w: World, log: seq<Event>) {
    forall i :: 0 <= i < |log| ==> Reports(w, log[i])
  }

  lemma SteadyAdmitted(w: World, p: Pull, says: Reader -> Answer, log: seq<Event>)
    requires Steady(w, p, says) && AllReport(w, log) && AdmissionTrace(log, p.head)
    ensures Deserved(says) == Success
  {
    hide AdmissionTrace;
    AdmittedOn(log, p.head);
  }

  /** In a steady world an answer at some stage is what the reader always says, and
      the head is always the same. */
  lemma SteadyStage(w: World, p: Pull, says: Reader -> Answer, log: seq<Event>, i: nat, reader: Reader)
    requires Steady(w, p, says) && AllReport(w, log) && i < |log| && Asked(log[i], reader)
    ensures reader.PullRequest? ==> Passes(log[i], reader, p.head)
    ensures !reader.PullRequest? ==> log[i].Evidence? && log[i].reader == reader && log[i].answer == says(reader)
  {
    assert Reports(w, log[i]);
  }

  /** The evidence stages before the `n`-th let the admission go on. */
  predicate WellUntil(says: Reader -> Answer, n: nat) {
    && (n > 1 ==> Proceeds(ChangedPaths, says(ChangedPaths)))
    && (n > 2 ==> Proceeds(PreflightMode, says(PreflightMode)))
    && (n > 3 ==> Proceeds(IngressProvenance, says(IngressProvenance)))
    && (n > 4 ==> Proceeds(ReviewThreads, says(ReviewThreads)))
    && (n > 5 ==> Proceeds(HostileReview, says(HostileReview)))
    && (n > 7 ==> var proof := if says(ChangedPaths).flag then TrustedProof else BranchPreflight;
                  Proceeds(proof, says(proof)))
  }

  lemma SteadyGoing(w: World, p: Pull, says: Reader -> Answer, log: seq<Event>, n: nat)
    requires Steady(w, p, says) && AllReport(w, log) && n <= |log| && n <= 9
    requires Going(log[..n], p.head)
    requires |log| > 1 ==> Asked(log[1], ChangedPaths)
    ensures WellUntil(says, n) && (|log| > 1 ==> Protected(log) == says(ChangedPaths).flag)
  {
    hide Going, AllReport, Reports, Proceeds;
    if |log| > 1 {
      SteadyStage(w, p, says, log, 1, ChangedPaths);
    }
    assert n > 1 ==> Protected(log[..n]) == Protected(log);
    forall i | 1 <= i < n && i != 6 && i != 8
      ensures Proceeds(Stage(Protected(log), i), says(Stage(Protected(log), i)))
    {
      GoingAt(log[..n], p.head, i);
      SteadyStage(w, p, says, log, i, Stage(Protected(log), i));
    }
    assert Stage(Protected(log), 1) == ChangedPaths && Stage(Protected(log), 2) == PreflightMode;
    assert Stage(Protected(log), 3) == IngressProvenance && Stage(Protected(log), 4) == ReviewThreads;
    assert Stage(Protected(log), 5) == HostileReview;
    assert n > 7 ==> Stage(Protected(log), 7) == if says(ChangedPaths).flag then TrustedProof else BranchPreflight;
  }

  lemma SteadyRefused(w: World, p: Pull, says: Reader -> Answer, log: seq<Event>)
    requires Steady(w, p, says) && AllReport(w, log) && RefusedTrace(log, p.head)
    ensures Deserved(says) != Success && RefusalVerdict(log, p.head) == Deserved(says)
  {
    hide Going, AllReport, Reports;
    var n := |log| - 1;
    if Going(log, p.head) {
      GoingAt(log, p.head, n);
      assert log[..9] == log;
      GoingAt(log, p.head, 1);
      GoingAt(log, p.head, 7);
      SteadyGoing(w, p, says, log, 9);
      SteadyStage(w, p, says, log, 7, TrustedProof);
    } else {
      if n > 1 {
        GoingAt(log[..n], p.head, 1);
      }
      SteadyGoing(w, p, says, log, n);
      SteadyStage(w, p, says, log, n, Stage(Protected(log), n));
    }
  }

  ghost predicate Eligible(p: Pull, expected: Option<string>) {
    p.open && p.baseRef == "main" && p.head != "" && Concerns(expected, p)
  }

  lemma SteadyRead(w: World, p: Pull, says: Reader -> Answer, log: seq<Event>)
    requires Steady(w, p, says) && AllReport(w, log) && log != []
    ensures !FailedRead(log) && (log[|log| - 1].Checked? ==> log[|log| - 1].pull == p)
  {
    assert Reports(w, log[|log| - 1]);
  }

  lemma PartsReport(w: World, r: Run, now: nat)
    requires Truthful(w, Log(r), now)
    ensures AllReport(w, r.first) && AllReport(w, r.judged) && AllReport(w, r.again)
  {
    hide Reports;
    var n, m := |r.first|, |r.first| + |r.judged|;
    forall i | 0 <= i < n ensures Reports(w, r.first[i]) { Shifted(r, i); }
    forall i | 0 <= i < |r.judged| ensures Reports(w, r.judged[i]) { Shifted(r, i + n); }
    forall i | 0 <= i < |r.again| ensures Reports(w, r.again[i]) { Shifted(r, i + m); }
  }

  /** In a steady world a run marks the pull request ready exactly when it is a safe
      draft that deserves success, and converts it to draft exactly when it is no
      draft and deserves failure, or success with failing ready checks. */
  lemma SteadyRun(w: World, p: Pull, says: Reader -> Answer, r: Run, expected: Option<string>, exit: Exit, now: nat)
    requires Steady(w, p, says) && Truthful(w, Log(r), now) && RunFits(r, expected, exit)
    ensures r.done != [] && r.done[0].MarkReady?
            <==> Eligible(p, expected) && p.draft == Some(true) && SafeDraft(p) && Deserved(says) == Success
    ensures r.done != [] && r.done[0].ConvertToDraft?
            <==> Eligible(p, expected) && p.draft != Some(true) && p.nodeId != ""
                 && (Deserved(says) == Failure
                     || (Deserved(says) == Success && says(ReadyChecks).verdict !in {Success, Pending}))
  {
    hide Steady, AdmissionTrace, RefusedTrace, RefusalVerdict, ReadOf, FailedRead, SafeDraft, Deserved, Truthful,
      AllReport, Log;
    PartsReport(w, r, now);
    FailedSome(r.first);
    SteadyRead(w, p, says, r.first);
    if Eligible(p, expected) {
      SteadyJudged(w, p, says, r, exit);
    }
  }

  lemma FailedSome(log: seq<Event>)
    ensures FailedRead(log) ==> log != []
  {
  }

  lemma SteadyAgain(w: World, p: Pull, says: Reader -> Answer, r: Run, exit: Exit)
    requires Steady(w, p, says) && AllReport(w, r.again) && p.head != ""
    ensures Promoted(r, p, exit) ==> (r.done != [] <==> StillSame(p, p)) && (r.done != [] ==> r.done[0].MarkReady?)
    ensures Returned(r, p, exit) ==>
              && (r.done != [] <==> p.draft != Some(true) && p.nodeId != "")
              && (r.done != [] ==> r.done[0].ConvertToDraft?)
  {
    hide Steady, ReadOf, FailedRead, SafeDraft, AllReport;
    FailedSome(r.again);
    if r.again != [] {
      SteadyRead(w, p, says, r.again);
    }
  }

  lemma SteadyJudged(w: World, p: Pull, says: Reader -> Answer, r: Run, exit: Exit)
    requires Steady(w, p, says) && AllReport(w, r.judged) && AllReport(w, r.again)
    requires p.open && p.head != "" && Judged(r, p, exit)
    ensures r.done != [] && r.done[0].MarkReady? <==> p.draft == Some(true) && SafeDraft(p) && Deserved(says) == Success
    ensures r.done != [] && r.done[0].ConvertToDraft?
            <==> p.draft != Some(true) && p.nodeId != ""
                 && (Deserved(says) == Failure
                     || (Deserved(says) == Success && says(ReadyChecks).verdict !in {Success, Pending}))
  {
    hide Steady, AdmissionTrace, RefusedTrace, RefusalVerdict, SafeDraft, Deserved, AllReport, Promoted, Returned;
    SteadyAgain(w, p, says, r, exit);
    if AdmissionTrace(r.judged, p.head) {
      SteadyAdmitted(w, p, says, r.judged);
    } else if RefusedTrace(r.judged, p.head) {
      SteadyRefused(w, p, says, r.judged);
    } else {
      SteadyChecked(w, p, says, r.judged);
    }
  }

  lemma SteadyChecked(w: World, p: Pull, says: Reader -> Answer, log: seq<Event>)
    requires Steady(w, p, says) && AllReport(w, log) && |log| == 11 && AdmissionTrace(log[..10], p.head)
    requires log[10].Evidence? && log[10].reader.ReadyChecks?
    ensures Deserved(says) == Success && log[10].answer == says(ReadyChecks)
  {
    hide AdmissionTrace;
    SteadyAdmitted(w, p, says, log[..10]);
    assert Reports(w, log[10]);
  }
}
