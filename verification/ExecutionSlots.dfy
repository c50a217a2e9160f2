/** The issuer's bounded execution: request handlers, provider workers, the lease
    renewer and other issuer instances, interleaved in any order over the slot
    semaphore, the worker registry and the execution ledger. */
module ExecutionSlots {

  type Id = nat            // one admitted connection, and the worker it may start
  type Authorization = nat

  const MAX_CONCURRENT_EXECUTIONS: nat := 2

  // ------------------------------------------------------ the worker registry

  function Unlisted(entries: seq<Id>, worker: Id): (r: seq<Id>)
    ensures worker !in r
    ensures forall x :: x in r <==> x in entries && x != worker
  {
    if entries == [] then []
    else if entries[0] == worker then Unlisted(entries[1..], worker)
    else [entries[0]] + Unlisted(entries[1..], worker)
  }

  ghost predicate Distinct(entries: seq<Id>) {
    forall i, j :: 0 <= i < j < |entries| ==> entries[i] != entries[j]
  }

  /** The lock-guarded list of accepted, still tracked workers. */
  class ExecutionWorkerRegistry {
    var entries: seq<Id>

    constructor ()
      ensures entries == []
    {
      entries := [];
    }

    method Register(worker: Id)
      modifies this
      ensures entries == old(entries) + [worker]
    {
      entries := entries + [worker];
    }

    /** A worker that is already absent stays absent. */
    method Unregister(worker: Id)
      modifies this
      ensures entries == Unlisted(old(entries), worker)
    {
      var kept: seq<Id> := [];
      for i := 0 to |entries|
        invariant entries == old(entries)
        invariant kept + Unlisted(entries[i..], worker) == Unlisted(entries, worker)
      {
        assert entries[i..][1..] == entries[i + 1..];
        if entries[i] != worker {
          kept := kept + [entries[i]];
        }
      }
      entries := kept;
    }

    method Active() returns (snapshot: seq<Id>)
      ensures snapshot == entries
    {
      snapshot := entries;
    }
  }

  // --------------------------------------------------------------- the ledger

  datatype RowState = Claimed | Dispatched | Completed | Failed

  /** Which instance, and here which handler, claimed the row. */
  datatype Claimant = Here(handler: Id) | Elsewhere

  /** One durable row; `handedOff` is set with the dispatch time and never cleared. */
  datatype Row = Row(state: RowState, claimant: Claimant, handedOff: bool)

  type Ledger = map<Authorization, Row>

  predicate Active(ledger: Ledger, a: Authorization) {
    a in ledger && ledger[a].state in {Claimed, Dispatched}
  }

  predicate OwnedHere(ledger: Ledger, a: Authorization) {
    a in ledger && ledger[a].claimant.Here?
  }

  /** `fail`: refused unless the row is active and owned by this instance. */
  function FailRow(ledger: Ledger, a: Authorization): Ledger {
    if Active(ledger, a) && OwnedHere(ledger, a) then ledger[a := ledger[a].(state := Failed)] else ledger
  }

  /** `complete`: refused unless the row is dispatched and owned by this instance. */
  predicate CanComplete(ledger: Ledger, a: Authorization) {
    OwnedHere(ledger, a) && ledger[a].state == Dispatched
  }

  // ---------------------------------------------------------------- the state

  /** Where a request handler stands. */
  datatype Phase =
    | Arrived
    | Preparing            // slot acquired, nothing claimed
    | HoldsClaim           // the ledger row is claimed
    | Prepared             // the dispatch is recorded
    | Listed               // the worker is registered, not yet started
    | StartFailed          // start() raised, the worker still registered
    | Delisted             // the worker was taken off the registry again
    | Rejecting(code: nat) // an exception was caught, the slot not yet released
    | Started              // the worker runs and owns the slot now
    | Replying(code: nat)  // the slot is gone, the response not yet sent
    | Responded(code: nat)
    | Crashed              // an exception outside `Exception` escaped while the slot was held
    | Gone(started: bool)  // torn down without a response, the slot passed on or given back

  datatype WorkerPhase = Running | Finished | Detached | Ended

  datatype Handler = Handler(authorization: Authorization, phase: Phase)

  datatype State = State(
    free: nat,
    handlers: map<Id, Handler>,
    workers: map<Id, WorkerPhase>,
    registry: seq<Id>,
    renewing: seq<Id>,
    ledger: Ledger,
    stopping: bool,
    acquired: set<Id>,
    released: multiset<Id>)

  const START := State(MAX_CONCURRENT_EXECUTIONS, map[], map[], [], [], map[], false, {}, multiset{})

  datatype Step =
    | Arrive(id: Id, authorization: Authorization)
    | Acquire(id: Id)
    | Claim(id: Id)
    | PreparationFails(id: Id, code: nat)
    | RecordDispatch(id: Id)
    | ReleaseRejected(id: Id)
    | Register(id: Id)
    | Start(id: Id)
    | StartRaises(id: Id)
    | Delist(id: Id)
    | FailAndRelease(id: Id)
    | FailRaises(id: Id)
    | StartInterrupted(id: Id)
    | ReplyFails(id: Id)
    | Reply(id: Id)
    | Crash(id: Id)
    | Finish(id: Id, succeeded: bool)
    | WorkerUnregisters(id: Id)
    | WorkerReleases(id: Id)
    | RenewerSnapshot
    | RenewNext
    | Stop
    | ForeignClaim(authorization: Authorization)
    | ForeignRecovery(authorization: Authorization)

  predicate At(s: State, id: Id, phase: Phase) {
    id in s.handlers && s.handlers[id].phase == phase
  }

  predicate WorkerAt(s: State, id: Id, phase: WorkerPhase) {
    id in s.workers && s.workers[id] == phase
  }

  function Move(s: State, id: Id, phase: Phase): State
    requires id in s.handlers
  {
    s.(handlers := s.handlers[id := s.handlers[id].(phase := phase)])
  }

  function Release(s: State, id: Id): State {
    s.(free := s.free + 1, released := s.released + multiset{id})
  }

  predicate Prepares(phase: Phase) {
    phase in {Preparing, HoldsClaim}
  }

  /** Whether the handler itself, not a worker, holds a slot in this phase. */
  predicate HandlerHolds(phase: Phase) {
    phase in {Preparing, HoldsClaim, Prepared, Listed, StartFailed, Delisted, Crashed} || phase.Rejecting?
  }

  predicate ArriveStep(s: State, id: Id, a: Authorization, t: State) {
    !s.stopping && id !in s.handlers && t == s.(handlers := s.handlers[id := Handler(a, Arrived)])
  }

  predicate AcquireStep(s: State, id: Id, t: State) {
    && At(s, id, Arrived)
    && if s.free == 0 then t == Move(s, id, Replying(503))
       else t == Move(s.(free := s.free - 1, acquired := s.acquired + {id}), id, Preparing)
  }

  predicate ClaimStep(s: State, id: Id, t: State) {
    && At(s, id, Preparing)
    && var a := s.handlers[id].authorization;
    && if a in s.ledger then t == Move(s, id, Rejecting(409))
       else t == Move(s.(ledger := s.ledger[a := Row(Claimed, Here(id), false)]), id, HoldsClaim)
  }

  predicate PreparationFailsStep(s: State, id: Id, code: nat, t: State) {
    && code != 200 && id in s.handlers && Prepares(s.handlers[id].phase)
    && var ledger := if At(s, id, HoldsClaim) then FailRow(s.ledger, s.handlers[id].authorization) else s.ledger;
    && t == Move(s.(ledger := ledger), id, Rejecting(code))
  }

  predicate RecordDispatchStep(s: State, id: Id, t: State) {
    && At(s, id, HoldsClaim)
    && var a := s.handlers[id].authorization;
    && OwnedHere(s.ledger, a) && s.ledger[a].state == Claimed
    && t == Move(s.(ledger := s.ledger[a := s.ledger[a].(state := Dispatched, handedOff := true)]), id, Prepared)
  }

  predicate ReleaseRejectedStep(s: State, id: Id, t: State) {
    && id in s.handlers && s.handlers[id].phase.Rejecting?
    && t == Release(Move(s, id, Replying(s.handlers[id].phase.code)), id)
  }

  predicate RegisterStep(s: State, id: Id, t: State) {
    At(s, id, Prepared) && t == Move(s.(registry := s.registry + [id]), id, Listed)
  }

  predicate StartStep(s: State, id: Id, t: State) {
    At(s, id, Listed) && t == Move(s.(workers := s.workers[id := Running]), id, Started)
  }

  predicate StartRaisesStep(s: State, id: Id, t: State) {
    At(s, id, Listed) && t == Move(s, id, StartFailed)
  }

  predicate DelistStep(s: State, id: Id, t: State) {
    At(s, id, StartFailed) && t == Move(s.(registry := Unlisted(s.registry, id)), id, Delisted)
  }

  predicate FailAndReleaseStep(s: State, id: Id, t: State) {
    && At(s, id, Delisted)
    && var a := s.handlers[id].authorization;
    && Active(s.ledger, a) && OwnedHere(s.ledger, a)
    && t == Release(Move(s.(ledger := FailRow(s.ledger, a)), id, Replying(500)), id)
  }

  /** `fail` raises, refused or for any other reason: the slot is released all the
      same, and the exception goes through without a response. */
  predicate FailRaisesStep(s: State, id: Id, t: State) {
    At(s, id, Delisted) && t == Release(Move(s, id, Gone(false)), id)
  }

  /** An exception outside `Exception` leaves `start()` when the thread runs
      already: the handler is gone, the worker owns the slot. */
  predicate StartInterruptedStep(s: State, id: Id, t: State) {
    At(s, id, Listed) && t == Move(s.(workers := s.workers[id := Running]), id, Gone(true))
  }

  /** The response cannot be sent. */
  predicate ReplyFailsStep(s: State, id: Id, t: State) {
    && id in s.handlers
    && (s.handlers[id].phase.Started? || s.handlers[id].phase.Replying?)
    && t == Move(s, id, Gone(s.handlers[id].phase.Started?))
  }

  predicate ReplyStep(s: State, id: Id, t: State) {
    && id in s.handlers
    && (s.handlers[id].phase.Started? || s.handlers[id].phase.Replying?)
    && t == Move(s, id, Responded(if s.handlers[id].phase.Started? then 200 else s.handlers[id].phase.code))
  }

  predicate CrashStep(s: State, id: Id, t: State) {
    && id in s.handlers && HandlerHolds(s.handlers[id].phase)
    && var ledger := if At(s, id, HoldsClaim) then FailRow(s.ledger, s.handlers[id].authorization) else s.ledger;
    && t == Move(s.(ledger := ledger), id, Crashed)
  }

  predicate FinishStep(s: State, id: Id, succeeded: bool, t: State) {
    && WorkerAt(s, id, Running) && id in s.handlers
    && var a := s.handlers[id].authorization;
    && var ledger := if succeeded && CanComplete(s.ledger, a) then s.ledger[a := s.ledger[a].(state := Completed)]
                     else FailRow(s.ledger, a);
    && t == s.(workers := s.workers[id := Finished], ledger := ledger)
  }

  predicate WorkerUnregistersStep(s: State, id: Id, t: State) {
    && WorkerAt(s, id, Finished)
    && t == s.(workers := s.workers[id := Detached], registry := Unlisted(s.registry, id))
  }

  predicate WorkerReleasesStep(s: State, id: Id, t: State) {
    && WorkerAt(s, id, Detached)
    && t == Release(s.(workers := s.workers[id := Ended]), id)
  }

  predicate RenewerSnapshotStep(s: State, t: State) {
    !s.stopping && s.renewing == [] && t == s.(renewing := s.registry)
  }

  predicate RenewNextStep(s: State, t: State) {
    && s.renewing != [] && s.renewing[0] in s.handlers
    && var worker := s.renewing[0];
    && var kept := if CanComplete(s.ledger, s.handlers[worker].authorization) then s.registry
                   else Unlisted(s.registry, worker);
    && t == s.(renewing := s.renewing[1..], registry := kept)
  }

  predicate StopStep(s: State, t: State) {
    t == s.(stopping := true)
  }

  predicate ForeignClaimStep(s: State, a: Authorization, t: State) {
    a !in s.ledger && t == s.(ledger := s.ledger[a := Row(Claimed, Elsewhere, false)])
  }

  predicate ForeignRecoveryStep(s: State, a: Authorization, t: State) {
    Active(s.ledger, a) && t == s.(ledger := s.ledger[a := s.ledger[a].(state := Failed)])
  }

  /** One atomic step. A release at full capacity is what the bounded semaphore
      refuses; `SlotsReleasedOnce` shows that it is never attempted. */
  predicate Next(s: State, step: Step, t: State) {
    match step
    case Arrive(id, a) => ArriveStep(s, id, a, t)
    case Acquire(id) => AcquireStep(s, id, t)
    case Claim(id) => ClaimStep(s, id, t)
    case PreparationFails(id, code) => PreparationFailsStep(s, id, code, t)
    case RecordDispatch(id) => RecordDispatchStep(s, id, t)
    case ReleaseRejected(id) => ReleaseRejectedStep(s, id, t)
    case Register(id) => RegisterStep(s, id, t)
    case Start(id) => StartStep(s, id, t)
    case StartRaises(id) => StartRaisesStep(s, id, t)
    case Delist(id) => DelistStep(s, id, t)
    case FailAndRelease(id) => FailAndReleaseStep(s, id, t)
    case FailRaises(id) => FailRaisesStep(s, id, t)
    case StartInterrupted(id) => StartInterruptedStep(s, id, t)
    case ReplyFails(id) => ReplyFailsStep(s, id, t)
    case Reply(id) => ReplyStep(s, id, t)
    case Crash(id) => CrashStep(s, id, t)
    case Finish(id, succeeded) => FinishStep(s, id, succeeded, t)
    case WorkerUnregisters(id) => WorkerUnregistersStep(s, id, t)
    case WorkerReleases(id) => WorkerReleasesStep(s, id, t)
    case RenewerSnapshot => RenewerSnapshotStep(s, t)
    case RenewNext => RenewNextStep(s, t)
    case Stop => StopStep(s, t)
    case ForeignClaim(a) => ForeignClaimStep(s, a, t)
    case ForeignRecovery(a) => ForeignRecoveryStep(s, a, t)
  }

  /** A run: every state follows from the one before by one step. */
  ghost predicate IsRun(states: seq<State>, steps: seq<Step>) {
    && |states| == |steps| + 1 && states[0] == START
    && forall i :: 0 <= i < |steps| ==> Next(states[i], steps[i], states[i + 1])
  }

  // ------------------------------------------------------------ the invariant

  predicate WorkerHolds(s: State, id: Id) {
    id in s.workers && s.workers[id] != Ended
  }

  predicate HoldsSlot(s: State, id: Id) {
    id in s.handlers && (HandlerHolds(s.handlers[id].phase) || WorkerHolds(s, id))
  }

  function Holders(s: State): set<Id> {
    set id | id in s.handlers && HoldsSlot(s, id)
  }

  /** Phases in which the handler's own row has been dispatched. */
  predicate PastDispatch(phase: Phase) {
    phase in {Prepared, Listed, StartFailed, Delisted, Started, Responded(200), Gone(true)}
  }

  /** The row of a handler says what the handler's phase promises. */
  predicate RowFits(s: State, id: Id)
    requires id in s.handlers
  {
    var h := s.handlers[id];
    && (h.phase.HoldsClaim? || PastDispatch(h.phase) ==>
          h.authorization in s.ledger && s.ledger[h.authorization].claimant == Here(id))
    && (PastDispatch(h.phase) ==> s.ledger[h.authorization].handedOff)
  }

  /** Where a worker exists, and where one may be listed. */
  predicate WorkerFits(s: State, id: Id)
    requires id in s.handlers
  {
    var phase := s.handlers[id].phase;
    && (id in s.workers <==> phase in {Started, Responded(200), Gone(true)})
    && (phase.Replying? || phase.Rejecting? ==> phase.code != 200)
    && (id in s.registry ==>
          phase in {Listed, StartFailed, Crashed} || (id in s.workers && s.workers[id] in {Running, Finished}))
  }

  /** Every slot taken is given back exactly when its holder is through. */
  predicate SlotFits(s: State, id: Id) {
    && (HoldsSlot(s, id) ==> id in s.acquired)
    && s.released[id] == if id in s.acquired && !HoldsSlot(s, id) then 1 else 0
  }

  /** Registry, workers and ledger agree with every handler's phase. */
  ghost predicate Fits(s: State) {
    && Distinct(s.registry)
    && (forall id :: id in s.registry || id in s.renewing || id in s.workers || id in s.acquired ==> id in s.handlers)
    && (forall id :: id in s.handlers ==> RowFits(s, id) && WorkerFits(s, id))
    && (forall id :: id in s.acquired ==> s.handlers[id].phase != Arrived)
  }

  /** A row has left the claimed state once its dispatch is recorded. */
  ghost predicate RowsFit(ledger: Ledger) {
    forall a :: a in ledger && ledger[a].handedOff ==> ledger[a].state != Claimed
  }

  ghost predicate SlotsFit(s: State) {
    && s.free + |Holders(s)| == MAX_CONCURRENT_EXECUTIONS
    && forall id :: SlotFits(s, id)
  }

  ghost predicate Inv(s: State) {
    Fits(s) && SlotsFit(s)
  }

  // --------------------------------------------------- the invariant is kept

  lemma {:induction false} StillDistinct(entries: seq<Id>, worker: Id)
    requires Distinct(entries)
    ensures Distinct(Unlisted(entries, worker))
  {
    if entries != [] {
      StillDistinct(entries[1..], worker);
      assert forall i :: 0 < i < |entries| ==> entries[i] == entries[1..][i - 1];
      if entries[0] != worker {
        var rest := Unlisted(entries[1..], worker);
        assert entries[0] !in rest;
        assert forall i :: 0 <= i < |rest| ==> rest[i] in rest;
      }
    }
  }

  /** The one identity whose slot a step may take, move or give back. */
  predicate SameSlots(s: State, t: State, id: Id) {
    && (HoldsSlot(s, id) <==> HoldsSlot(t, id)) && (id in s.acquired <==> id in t.acquired)
    && s.released[id] == t.released[id]
  }

  lemma KeepsSlots(s: State, t: State)
    requires SlotsFit(s) && t.free == s.free && forall id :: SameSlots(s, t, id)
    ensures SlotsFit(t)
  {
    forall id ensures SlotFits(t, id) { assert SlotFits(s, id) && SameSlots(s, t, id); }
    assert forall id :: SameSlots(s, t, id) ==> (id in Holders(s) <==> id in Holders(t));
    assert Holders(s) == Holders(t);
  }

  lemma TakesSlot(s: State, t: State, id: Id)
    requires SlotsFit(s) && s.free > 0 && t.free == s.free - 1
    requires !HoldsSlot(s, id) && id !in s.acquired && HoldsSlot(t, id) && id in t.acquired
    requires t.released[id] == s.released[id] && forall other :: other != id ==> SameSlots(s, t, other)
    ensures SlotsFit(t)
  {
    forall x ensures SlotFits(t, x) { assert SlotFits(s, x) && (x != id ==> SameSlots(s, t, x)); }
    assert forall x :: x != id && SameSlots(s, t, x) ==> (x in Holders(s) <==> x in Holders(t));
    assert Holders(t) == Holders(s) + {id};
  }

  lemma GivesSlot(s: State, t: State, id: Id)
    requires SlotsFit(s) && t.free == s.free + 1
    requires HoldsSlot(s, id) && !HoldsSlot(t, id) && id in t.acquired
    requires t.released[id] == s.released[id] + 1 && forall other :: other != id ==> SameSlots(s, t, other)
    ensures SlotsFit(t) && s.free < MAX_CONCURRENT_EXECUTIONS
  {
    forall x ensures SlotFits(t, x) { assert SlotFits(s, x) && (x != id ==> SameSlots(s, t, x)); }
    assert forall x :: x != id && SameSlots(s, t, x) ==> (x in Holders(s) <==> x in Holders(t));
    assert Holders(t) == Holders(s) - {id} && id in Holders(s);
  }

  lemma Givable(s: State, id: Id)
    requires SlotsFit(s) && HoldsSlot(s, id)
    ensures id in s.acquired
  {
    assert SlotFits(s, id);
  }

  lemma ArriveKept(s: State, id: Id, a: Authorization, t: State)
    requires Inv(s) && ArriveStep(s, id, a, t)
    ensures Inv(t)
  {
    hide SlotsFit;
    KeepsSlots(s, t);
  }

  lemma AcquireFits(s: State, id: Id, t: State)
    requires Fits(s) && AcquireStep(s, id, t)
    ensures Fits(t)
  {
    hide Distinct;
    forall x | x in t.handlers ensures RowFits(t, x) && WorkerFits(t, x) {
      assert RowFits(s, x) && WorkerFits(s, x);
    }
  }

  lemma AcquireKept(s: State, id: Id, t: State)
    requires Inv(s) && AcquireStep(s, id, t)
    ensures Inv(t)
  {
    AcquireFits(s, id, t);
    hide SlotsFit, RowFits, Distinct;
    if s.free > 0 { TakesSlot(s, t, id); } else { KeepsSlots(s, t); }
  }

  lemma ClaimFits(s: State, id: Id, t: State)
    requires Fits(s) && ClaimStep(s, id, t)
    ensures Fits(t)
  {
    hide Distinct;
    forall x | x in t.handlers ensures RowFits(t, x) && WorkerFits(t, x) {
      assert RowFits(s, x) && WorkerFits(s, x);
    }
  }

  lemma ClaimKept(s: State, id: Id, t: State)
    requires Inv(s) && ClaimStep(s, id, t)
    ensures Inv(t)
  {
    ClaimFits(s, id, t);
    hide SlotsFit, Fits;
    KeepsSlots(s, t);
  }

  lemma PreparationFailsKept(s: State, id: Id, code: nat, t: State)
    requires Inv(s) && PreparationFailsStep(s, id, code, t)
    ensures Inv(t)
  {
    hide SlotsFit;
    KeepsSlots(s, t);
  }

  lemma RecordDispatchKept(s: State, id: Id, t: State)
    requires Inv(s) && RecordDispatchStep(s, id, t)
    ensures Inv(t)
  {
    hide SlotsFit;
    KeepsSlots(s, t);
  }

  lemma ReleaseRejectedKept(s: State, id: Id, t: State)
    requires Inv(s) && ReleaseRejectedStep(s, id, t)
    ensures Inv(t)
    ensures s.free < MAX_CONCURRENT_EXECUTIONS
  {
    hide SlotsFit;
    Givable(s, id);
    GivesSlot(s, t, id);
  }

  lemma RegisterKept(s: State, id: Id, t: State)
    requires Inv(s) && RegisterStep(s, id, t)
    ensures Inv(t)
  {
    hide SlotsFit;
    KeepsSlots(s, t);
  }

  lemma StartKept(s: State, id: Id, t: State)
    requires Inv(s) && StartStep(s, id, t)
    ensures Inv(t)
  {
    hide SlotsFit;
    KeepsSlots(s, t);
  }

  lemma StartRaisesKept(s: State, id: Id, t: State)
    requires Inv(s) && StartRaisesStep(s, id, t)
    ensures Inv(t)
  {
    hide SlotsFit;
    KeepsSlots(s, t);
  }

  lemma DelistKept(s: State, id: Id, t: State)
    requires Inv(s) && DelistStep(s, id, t)
    ensures Inv(t)
  {
    hide SlotsFit;
    KeepsSlots(s, t);
    StillDistinct(s.registry, id);
  }

  lemma FailAndReleaseKept(s: State, id: Id, t: State)
    requires Inv(s) && FailAndReleaseStep(s, id, t)
    ensures Inv(t)
    ensures s.free < MAX_CONCURRENT_EXECUTIONS
  {
    hide SlotsFit;
    Givable(s, id);
    GivesSlot(s, t, id);
  }

  lemma FailRaisesKept(s: State, id: Id, t: State)
    requires Inv(s) && FailRaisesStep(s, id, t)
    ensures Inv(t)
    ensures s.free < MAX_CONCURRENT_EXECUTIONS
  {
    hide SlotsFit;
    Givable(s, id);
    GivesSlot(s, t, id);
  }

  lemma StartInterruptedKept(s: State, id: Id, t: State)
    requires Inv(s) && StartInterruptedStep(s, id, t)
    ensures Inv(t)
  {
    hide SlotsFit;
    KeepsSlots(s, t);
  }

  lemma ReplyFailsKept(s: State, id: Id, t: State)
    requires Inv(s) && ReplyFailsStep(s, id, t)
    ensures Inv(t)
  {
    hide SlotsFit;
    KeepsSlots(s, t);
  }

  lemma ReplyKept(s: State, id: Id, t: State)
    requires Inv(s) && ReplyStep(s, id, t)
    ensures Inv(t)
  {
    hide SlotsFit;
    KeepsSlots(s, t);
  }

  lemma CrashKept(s: State, id: Id, t: State)
    requires Inv(s) && CrashStep(s, id, t)
    ensures Inv(t)
  {
    hide SlotsFit;
    KeepsSlots(s, t);
  }

  lemma FinishKept(s: State, id: Id, succeeded: bool, t: State)
    requires Inv(s) && FinishStep(s, id, succeeded, t)
    ensures Inv(t)
  {
    hide SlotsFit;
    KeepsSlots(s, t);
  }

  lemma WorkerUnregistersKept(s: State, id: Id, t: State)
    requires Inv(s) && WorkerUnregistersStep(s, id, t)
    ensures Inv(t)
  {
    hide SlotsFit;
    KeepsSlots(s, t);
    StillDistinct(s.registry, id);
  }

  lemma WorkerReleasesKept(s: State, id: Id, t: State)
    requires Inv(s) && WorkerReleasesStep(s, id, t)
    ensures Inv(t)
    ensures s.free < MAX_CONCURRENT_EXECUTIONS
  {
    hide SlotsFit;
    Givable(s, id);
    GivesSlot(s, t, id);
  }

  lemma RenewerSnapshotKept(s: State, t: State)
    requires Inv(s) && RenewerSnapshotStep(s, t)
    ensures Inv(t)
  {
    hide SlotsFit;
    KeepsSlots(s, t);
  }

  lemma RenewNextKept(s: State, t: State)
    requires Inv(s) && RenewNextStep(s, t)
    ensures Inv(t)
  {
    hide SlotsFit;
    KeepsSlots(s, t);
    StillDistinct(s.registry, s.renewing[0]);
  }

  lemma StopKept(s: State, t: State)
    requires Inv(s) && StopStep(s, t)
    ensures Inv(t)
  {
    hide SlotsFit;
    KeepsSlots(s, t);
  }

  lemma ForeignClaimKept(s: State, a: Authorization, t: State)
    requires Inv(s) && ForeignClaimStep(s, a, t)
    ensures Inv(t)
  {
    hide SlotsFit;
    KeepsSlots(s, t);
  }

  lemma ForeignRecoveryKept(s: State, a: Authorization, t: State)
    requires Inv(s) && ForeignRecoveryStep(s, a, t)
    ensures Inv(t)
  {
    hide SlotsFit;
    KeepsSlots(s, t);
  }

  /** The steps that release the semaphore. */
  predicate GivesBack(step: Step) {
    step.ReleaseRejected? || step.FailAndRelease? || step.FailRaises? || step.WorkerReleases?
  }

  lemma InvariantKept(s: State, step: Step, t: State)
    requires Inv(s) && Next(s, step, t)
    ensures Inv(t)
    ensures GivesBack(step) ==> s.free < MAX_CONCURRENT_EXECUTIONS
  {
    hide Inv, ArriveStep, AcquireStep, ClaimStep, PreparationFailsStep, RecordDispatchStep, ReleaseRejectedStep,
      RegisterStep, StartStep, StartRaisesStep, DelistStep, FailAndReleaseStep, FailRaisesStep,
      StartInterruptedStep, ReplyFailsStep, ReplyStep, CrashStep, FinishStep,
      WorkerUnregistersStep, WorkerReleasesStep, RenewerSnapshotStep, RenewNextStep, StopStep, ForeignClaimStep,
      ForeignRecoveryStep;
    match step
    case Arrive(id, a) => ArriveKept(s, id, a, t);
    case Acquire(id) => AcquireKept(s, id, t);
    case Claim(id) => ClaimKept(s, id, t);
    case PreparationFails(id, code) => PreparationFailsKept(s, id, code, t);
    case RecordDispatch(id) => RecordDispatchKept(s, id, t);
    case ReleaseRejected(id) => ReleaseRejectedKept(s, id, t);
    case Register(id) => RegisterKept(s, id, t);
    case Start(id) => StartKept(s, id, t);
    case StartRaises(id) => StartRaisesKept(s, id, t);
    case Delist(id) => DelistKept(s, id, t);
    case FailAndRelease(id) => FailAndReleaseKept(s, id, t);
    case FailRaises(id) => FailRaisesKept(s, id, t);
    case StartInterrupted(id) => StartInterruptedKept(s, id, t);
    case ReplyFails(id) => ReplyFailsKept(s, id, t);
    case Reply(id) => ReplyKept(s, id, t);
    case Crash(id) => CrashKept(s, id, t);
    case Finish(id, succeeded) => FinishKept(s, id, succeeded, t);
    case WorkerUnregisters(id) => WorkerUnregistersKept(s, id, t);
    case WorkerReleases(id) => WorkerReleasesKept(s, id, t);
    case RenewerSnapshot => RenewerSnapshotKept(s, t);
    case RenewNext => RenewNextKept(s, t);
    case Stop => StopKept(s, t);
    case ForeignClaim(a) => ForeignClaimKept(s, a, t);
    case ForeignRecovery(a) => ForeignRecoveryKept(s, a, t);
  }

  // -------------------------------------------------------- over whole runs

  lemma StartFits()
    ensures Inv(START) && RowsFit(START.ledger)
  {
    assert Holders(START) == {};
    forall id ensures SlotFits(START, id) {}
  }

  lemma {:induction false} RunInvariant(states: seq<State>, steps: seq<Step>, i: nat)
    requires IsRun(states, steps) && i < |states|
    ensures Inv(states[i]) && RowsFit(states[i].ledger)
  {
    hide Inv, Next, RowsFit;
    if i == 0 {
      StartFits();
    } else {
      RunInvariant(states, steps, i - 1);
      InvariantKept(states[i - 1], steps[i - 1], states[i]);
      RowsFitKept(states[i - 1], steps[i - 1], states[i]);
    }
  }

  lemma RowsFitKept(s: State, step: Step, t: State)
    requires Next(s, step, t) && RowsFit(s.ledger)
    ensures RowsFit(t.ledger)
  {
    hide Unlisted, HandlerHolds, Prepares;
    if !MovesLedger(step) {
      OthersKeepLedger(s, step, t);
    }
  }

  function Busy(s: State): set<Id> {
    (set id | id in s.registry) + (set id | id in s.workers && s.workers[id] == Running)
  }

  lemma SubsetSize(a: set<Id>, b: set<Id>)
    requires a <= b
    ensures |a| <= |b|
    decreases a
  {
    if a != {} {
      var x :| x in a;
      SubsetSize(a - {x}, b - {x});
    }
  }

  /** In every interleaving the free slots and the holders make up the capacity,
      and every registered or running worker is one of the holders. */
  lemma SlotsConserved(states: seq<State>, steps: seq<Step>, i: nat)
    requires IsRun(states, steps) && i < |states|
    ensures states[i].free + |Holders(states[i])| == MAX_CONCURRENT_EXECUTIONS
    ensures Busy(states[i]) <= Holders(states[i]) && |Busy(states[i])| <= MAX_CONCURRENT_EXECUTIONS
  {
    RunInvariant(states, steps, i);
    var s := states[i];
    forall id | id in Busy(s) ensures id in Holders(s) {
      assert WorkerFits(s, id);
    }
    SubsetSize(Busy(s), Holders(s));
  }

  /** No release ever exceeds the capacity, no slot is given back twice, and one
      that was taken is given back as soon as neither handler nor worker holds it. */
  lemma SlotsReleasedOnce(states: seq<State>, steps: seq<Step>, i: nat, id: Id)
    requires IsRun(states, steps) && i < |states|
    ensures states[i].released[id] <= 1
    ensures states[i].released[id] == 1 <==> id in states[i].acquired && !HoldsSlot(states[i], id)
    ensures i < |steps| && GivesBack(steps[i]) ==> states[i].free < MAX_CONCURRENT_EXECUTIONS
  {
    RunInvariant(states, steps, i);
    assert SlotFits(states[i], id);
    if i < |steps| {
      hide Inv, Next;
      InvariantKept(states[i], steps[i], states[i + 1]);
    }
  }

  /** A 200 reply leaves only when the ledger already holds this handler's own
      claim with its dispatch. */
  lemma AcknowledgedAfterDispatch(states: seq<State>, steps: seq<Step>, i: nat, id: Id)
    requires IsRun(states, steps) && i < |steps| && steps[i] == Reply(id) && At(states[i + 1], id, Responded(200))
    ensures var a := states[i].handlers[id].authorization;
            a in states[i].ledger && states[i].ledger[a].claimant == Here(id)
            && states[i].ledger[a].handedOff && states[i].ledger[a].state != Claimed
  {
    RunInvariant(states, steps, i);
    assert Next(states[i], steps[i], states[i + 1]);
    assert RowFits(states[i], id) && WorkerFits(states[i], id);
  }

  /** One authorization is acknowledged at most once and never runs twice, even
      when several requests carry it. */
  lemma OneExecutionPerAuthorization(states: seq<State>, steps: seq<Step>, i: nat, id: Id, other: Id)
    requires IsRun(states, steps) && i < |states|
    requires id in states[i].workers && other in states[i].workers
    ensures id in states[i].handlers && other in states[i].handlers
    ensures states[i].handlers[id].authorization == states[i].handlers[other].authorization ==> id == other
    ensures forall x :: At(states[i], x, Responded(200)) ==> x in states[i].workers
  {
    RunInvariant(states, steps, i);
    assert RowFits(states[i], id) && WorkerFits(states[i], id);
    assert RowFits(states[i], other) && WorkerFits(states[i], other);
    forall x | At(states[i], x, Responded(200)) ensures x in states[i].workers {
      assert WorkerFits(states[i], x);
    }
  }

  /** What becomes of one row: it stays, with its claimant and its dispatch, and
      does not change any more once completed or failed. */
  ghost predicate RowKept(before: Ledger, after: Ledger, a: Authorization) {
    && (a in before ==> a in after && after[a].claimant == before[a].claimant)
    && (a in before && before[a].handedOff ==> after[a].handedOff)
    && (a in before && before[a].state in {Completed, Failed} ==> after[a] == before[a])
  }

  lemma FailRowKeeps(ledger: Ledger, x: Authorization, a: Authorization)
    ensures RowKept(ledger, FailRow(ledger, x), a)
  {
  }

  predicate MovesLedger(step: Step) {
    || step.Claim? || step.PreparationFails? || step.RecordDispatch? || step.FailAndRelease? || step.Crash?
    || step.Finish? || step.ForeignClaim? || step.ForeignRecovery?
  }

  lemma OthersKeepLedger(s: State, step: Step, t: State)
    requires Next(s, step, t) && !MovesLedger(step)
    ensures t.ledger == s.ledger
  {
    hide Unlisted, HandlerHolds, Prepares;
  }

  lemma FinishKeepsRow(s: State, id: Id, succeeded: bool, t: State, a: Authorization)
    requires FinishStep(s, id, succeeded, t)
    ensures RowKept(s.ledger, t.ledger, a)
  {
    FailRowKeeps(s.ledger, s.handlers[id].authorization, a);
  }

  lemma ClaimKeepsRow(s: State, id: Id, t: State, a: Authorization)
    requires ClaimStep(s, id, t) || RecordDispatchStep(s, id, t)
    ensures RowKept(s.ledger, t.ledger, a)
  {
  }

  lemma ForeignKeepsRow(s: State, x: Authorization, t: State, a: Authorization)
    requires ForeignClaimStep(s, x, t) || ForeignRecoveryStep(s, x, t)
    ensures RowKept(s.ledger, t.ledger, a)
  {
  }

  lemma FailureKeepsRow(s: State, id: Id, code: nat, t: State, a: Authorization)
    requires PreparationFailsStep(s, id, code, t) || FailAndReleaseStep(s, id, t) || CrashStep(s, id, t)
    ensures RowKept(s.ledger, t.ledger, a)
  {
    hide FailRow, HandlerHolds, Prepares, RowKept;
    FailRowKeeps(s.ledger, s.handlers[id].authorization, a);
    SameRow(s.ledger, t.ledger, a);
  }

  /** In no step is a ledger row removed, changed in its claimant, robbed of its
      dispatch, or touched once completed or failed. */
  lemma RowsDurable(s: State, step: Step, t: State, a: Authorization)
    requires Next(s, step, t)
    ensures RowKept(s.ledger, t.ledger, a)
  {
    hide *;
    match step {
      case Claim(id) => StepsMean(s, step, t); ClaimKeepsRow(s, id, t, a);
      case RecordDispatch(id) => StepsMean(s, step, t); ClaimKeepsRow(s, id, t, a);
      case PreparationFails(id, code) => StepsMean(s, step, t); FailureKeepsRow(s, id, code, t, a);
      case FailAndRelease(id) => StepsMean(s, step, t); FailureKeepsRow(s, id, 0, t, a);
      case Crash(id) => StepsMean(s, step, t); FailureKeepsRow(s, id, 0, t, a);
      case Finish(id, succeeded) => StepsMean(s, step, t); FinishKeepsRow(s, id, succeeded, t, a);
      case ForeignClaim(x) => StepsMean(s, step, t); ForeignKeepsRow(s, x, t, a);
      case ForeignRecovery(x) => StepsMean(s, step, t); ForeignKeepsRow(s, x, t, a);
      case _ =>
        StepsMean(s, step, t);
        OthersKeepLedger(s, step, t);
        SameRow(s.ledger, t.ledger, a);
    }
  }

  /** Which steps move the ledger, and that each is the step it is called. */
  lemma StepsMean(s: State, step: Step, t: State)
    requires Next(s, step, t)
    ensures step.Claim? ==> ClaimStep(s, step.id, t)
    ensures step.RecordDispatch? ==> RecordDispatchStep(s, step.id, t)
    ensures step.PreparationFails? ==> PreparationFailsStep(s, step.id, step.code, t)
    ensures step.FailAndRelease? ==> FailAndReleaseStep(s, step.id, t)
    ensures step.Crash? ==> CrashStep(s, step.id, t)
    ensures step.Finish? ==> FinishStep(s, step.id, step.succeeded, t)
    ensures step.ForeignClaim? ==> ForeignClaimStep(s, step.authorization, t)
    ensures step.ForeignRecovery? ==> ForeignRecoveryStep(s, step.authorization, t)
    ensures MovesLedger(step)
            <==> step.Claim? || step.RecordDispatch? || step.PreparationFails? || step.FailAndRelease? || step.Crash?
                 || step.Finish? || step.ForeignClaim? || step.ForeignRecovery?
  {
    hide ClaimStep, RecordDispatchStep, PreparationFailsStep, FailAndReleaseStep, CrashStep, FinishStep,
      ForeignClaimStep, ForeignRecoveryStep;
  }

  lemma SameRow(before: Ledger, after: Ledger, a: Authorization)
    ensures before == after ==> RowKept(before, after, a)
  {
  }

  // ------------------------------------------------- what moves a row, and how

  /** The row of the authorization is in that state. */
  predicate RowIs(s: State, a: Authorization, state: RowState) {
    a in s.ledger && s.ledger[a].state == state
  }

  /** The row is claimed by this very handler. */
  predicate ClaimedBy(s: State, a: Authorization, id: Id) {
    a in s.ledger && s.ledger[a].claimant == Here(id)
  }

  predicate Carries(s: State, id: Id, a: Authorization) {
    id in s.handlers && s.handlers[id].authorization == a
  }

  /** A handler that holds a claim, or whose worker exists, is the claimant. */
  lemma Claimants(s: State, id: Id)
    requires Fits(s) && id in s.handlers
    ensures s.handlers[id].phase.HoldsClaim? || s.handlers[id].phase.Delisted? || id in s.workers ==>
              ClaimedBy(s, s.handlers[id].authorization, id)
    ensures s.handlers[id].phase.Delisted? || id in s.workers ==> s.ledger[s.handlers[id].authorization].handedOff
  {
    assert RowFits(s, id) && WorkerFits(s, id);
  }

  /** The provider's receipt is what completes a row: its own worker's success,
      with the row dispatched, and nothing else. */
  lemma CompletedExactly(s: State, step: Step, t: State, a: Authorization)
    requires Fits(s) && RowsFit(s.ledger) && Next(s, step, t)
    ensures !RowIs(s, a, Completed) && RowIs(t, a, Completed)
            <==> step.Finish? && step.succeeded && Carries(s, step.id, a) && ClaimedBy(s, a, step.id)
                 && RowIs(s, a, Dispatched)
  {
    hide Unlisted, HandlerHolds, Prepares, Fits, RowFits, WorkerFits;
    if !MovesLedger(step) {
      OthersKeepLedger(s, step, t);
    } else if step.Finish? {
      Claimants(s, step.id);
    }
  }

  /** What fails an active row: its own worker's or start's failure, its own
      handler's failure while it holds the bare claim, or another instance that
      recovers it. */
  lemma FailedExactly(s: State, step: Step, t: State, a: Authorization)
    requires Fits(s) && RowsFit(s.ledger) && Next(s, step, t)
    ensures !RowIs(s, a, Failed) && RowIs(t, a, Failed)
            <==> (RowIs(s, a, Claimed) || RowIs(s, a, Dispatched))
                 && ((step.Finish? && !step.succeeded && Carries(s, step.id, a) && ClaimedBy(s, a, step.id))
                     || (step.FailAndRelease? && Carries(s, step.id, a) && ClaimedBy(s, a, step.id))
                     || ((step.PreparationFails? || step.Crash?) && Carries(s, step.id, a)
                         && At(s, step.id, HoldsClaim) && ClaimedBy(s, a, step.id))
                     || step == ForeignRecovery(a))
  {
    hide Unlisted, HandlerHolds, Prepares, Fits, RowFits, WorkerFits, FinishStep, FailRow;
    if !MovesLedger(step) {
      OthersKeepLedger(s, step, t);
    } else if step.Finish? {
      FailedByFinish(s, step.id, step.succeeded, t, a);
    } else if !step.ForeignClaim? && !step.ForeignRecovery? {
      Claimants(s, step.id);
      FailRowMeans(s.ledger, s.handlers[step.id].authorization, a);
    }
  }

  lemma FailRowMeans(ledger: Ledger, x: Authorization, a: Authorization)
    ensures var r := FailRow(ledger, x);
            && (a in r <==> a in ledger)
            && (a in ledger ==> r[a].handedOff == ledger[a].handedOff)
            && (a in ledger ==> r[a].state == if a == x && Active(ledger, a) && OwnedHere(ledger, a) then Failed
                                              else ledger[a].state)
  {
  }

  lemma FailedByFinish(s: State, id: Id, succeeded: bool, t: State, a: Authorization)
    requires Fits(s) && RowsFit(s.ledger) && FinishStep(s, id, succeeded, t)
    ensures !RowIs(s, a, Failed) && RowIs(t, a, Failed)
            <==> RowIs(s, a, Dispatched) && !succeeded && Carries(s, id, a) && ClaimedBy(s, a, id)
    ensures RowIs(s, a, Claimed) ==> !(Carries(s, id, a) && ClaimedBy(s, a, id))
  {
    hide Fits;
    Claimants(s, id);
  }

  lemma FinishDispatches(s: State, id: Id, succeeded: bool, t: State, a: Authorization)
    requires FinishStep(s, id, succeeded, t)
    ensures RowIs(t, a, Dispatched) ==> RowIs(s, a, Dispatched)
    ensures a in s.ledger ==> a in t.ledger && t.ledger[a].handedOff == s.ledger[a].handedOff
  {
  }

  /** A dispatch is recorded by the claimant alone, on a bare claim. */
  lemma DispatchedExactly(s: State, step: Step, t: State, a: Authorization)
    requires Fits(s) && Next(s, step, t)
    ensures !RowIs(s, a, Dispatched) && RowIs(t, a, Dispatched)
            <==> step.RecordDispatch? && Carries(s, step.id, a) && ClaimedBy(s, a, step.id) && RowIs(s, a, Claimed)
    ensures a in s.ledger && a in t.ledger && s.ledger[a].handedOff != t.ledger[a].handedOff ==>
              !RowIs(s, a, Dispatched) && RowIs(t, a, Dispatched)
  {
    hide Unlisted, HandlerHolds, Prepares, Fits, RowFits, WorkerFits, FinishStep, FailRow;
    if !MovesLedger(step) {
      OthersKeepLedger(s, step, t);
    } else if step.Finish? {
      FinishDispatches(s, step.id, step.succeeded, t, a);
    } else if step.RecordDispatch? {
      Claimants(s, step.id);
    } else if !step.ForeignClaim? && !step.ForeignRecovery? {
      FailRowMeans(s.ledger, s.handlers[step.id].authorization, a);
      FailRowKeeps(s.ledger, s.handlers[step.id].authorization, a);
    }
  }

  /** A row comes into being claimed: by the first handler that asks for it, or by
      another instance. A handler that asks too late is answered 409. */
  lemma ClaimedExactly(s: State, step: Step, t: State, a: Authorization)
    requires Next(s, step, t)
    ensures a !in s.ledger && a in t.ledger
            <==> a !in s.ledger && ((step.Claim? && Carries(s, step.id, a)) || step == ForeignClaim(a))
    ensures a !in s.ledger && a in t.ledger ==>
              t.ledger[a] == Row(Claimed, if step.Claim? then Here(step.id) else Elsewhere, false)
    ensures step.Claim? && Carries(s, step.id, a) ==>
              (At(t, step.id, Rejecting(409)) <==> a in s.ledger) && (At(t, step.id, HoldsClaim) <==> a !in s.ledger)
  {
    hide Unlisted, HandlerHolds, Prepares;
    if !MovesLedger(step) {
      OthersKeepLedger(s, step, t);
    }
  }

  /** Over whole runs: a completed row was completed by a step of its claimant's
      worker that brought the provider's receipt, on a row it had dispatched. */
  lemma {:induction false} CompletedBySuccess(states: seq<State>, steps: seq<Step>, i: nat, a: Authorization)
    returns (k: nat, id: Id)
    requires IsRun(states, steps) && i < |states| && RowIs(states[i], a, Completed)
    ensures k < i && steps[k] == Finish(id, true) && Carries(states[k], id, a)
    ensures RowIs(states[k], a, Dispatched) && ClaimedBy(states[k], a, id) && ClaimedBy(states[i], a, id)
  {
    hide Fits, SlotsFit, RowsFit, Next;
    if i > 0 {
      RunInvariant(states, steps, i - 1);
      RowsDurable(states[i - 1], steps[i - 1], states[i], a);
      if RowIs(states[i - 1], a, Completed) {
        k, id := CompletedBySuccess(states, steps, i - 1, a);
      } else {
        CompletedExactly(states[i - 1], steps[i - 1], states[i], a);
        k, id := i - 1, steps[i - 1].id;
      }
    }
  }

  /** And every worker's end settles its row: completed on success and failed
      otherwise, unless another instance has recovered it in the meantime. */
  lemma FinishSettles(states: seq<State>, steps: seq<Step>, i: nat)
    requires IsRun(states, steps) && i < |steps| && steps[i].Finish?
    ensures var id := steps[i].id;
            && id in states[i].handlers
            && var a := states[i].handlers[id].authorization;
               && ClaimedBy(states[i], a, id)
               && (RowIs(states[i], a, Dispatched) ==>
                     RowIs(states[i + 1], a, if steps[i].succeeded then Completed else Failed))
               && (!RowIs(states[i], a, Dispatched) ==>
                     RowIs(states[i], a, Failed) || RowIs(states[i], a, Completed))
  {
    hide SlotsFit;
    RunInvariant(states, steps, i);
    var s, step, t := states[i], steps[i], states[i + 1];
    assert Next(s, step, t);
    var a := s.handlers[step.id].authorization;
    Claimants(s, step.id);
    CompletedExactly(s, step, t, a);
    FailedExactly(s, step, t, a);
  }

  /** The renewer takes a worker off the list exactly when it no longer owns a
      dispatched row, and touches no other. */
  lemma RenewalDrops(s: State, t: State, id: Id)
    requires Next(s, RenewNext, t) && s.renewing[0] in s.handlers
    ensures var worker := s.renewing[0];
            var a := s.handlers[worker].authorization;
            id in t.registry <==>
            id in s.registry && (id == worker ==> RowIs(s, a, Dispatched) && s.ledger[a].claimant.Here?)
  {
  }

  /** A request gets a slot whenever one is free, and is answered 503 otherwise. */
  lemma SlotGiven(s: State, id: Id, t: State)
    requires Next(s, Acquire(id), t)
    ensures At(t, id, Preparing) <==> s.free > 0
    ensures At(t, id, Replying(503)) <==> s.free == 0
  {
  }

  /** The handler has nothing left to do. */
  predicate Over(phase: Phase) {
    phase.Responded? || phase.Crashed? || phase.Gone?
  }

  ghost predicate Quiet(s: State) {
    && (forall id :: id in s.handlers ==> Over(s.handlers[id].phase))
    && (forall id :: id in s.workers ==> s.workers[id] == Ended)
  }

  function CrashedHandlers(s: State): set<Id> {
    set id | id in s.handlers && s.handlers[id].phase.Crashed?
  }

  /** When everything has come to rest, exactly the slots of the handlers that an
      exception outside `Exception` tore down while they held one are missing:
      none without such an exception, and with as many of them as there are slots
      every later request is answered 503. */
  lemma SlotsAtRest(states: seq<State>, steps: seq<Step>, i: nat)
    requires IsRun(states, steps) && i < |states| && Quiet(states[i])
    ensures states[i].free == MAX_CONCURRENT_EXECUTIONS - |CrashedHandlers(states[i])|
    ensures |CrashedHandlers(states[i])| == MAX_CONCURRENT_EXECUTIONS ==>
              forall id, t :: Next(states[i], Acquire(id), t) ==> At(t, id, Replying(503))
  {
    RunInvariant(states, steps, i);
    assert Holders(states[i]) == CrashedHandlers(states[i]);
  }

  lemma OneMoreStep(states: seq<State>, steps: seq<Step>, step: Step, t: State)
    requires IsRun(states, steps) && Next(states[|steps|], step, t)
    ensures IsRun(states + [t], steps + [step])
  {
    hide Next;
  }

  /** A request that is torn down while it prepares, after any run. */
  function AfterTearDown(s: State, id: Id): State
    requires s.free > 0
  {
    s.(free := s.free - 1, acquired := s.acquired + {id}, handlers := s.handlers[id := Handler(id, Crashed)])
  }

  lemma TearDown(before: seq<State>, taken: seq<Step>, id: Id) returns (states: seq<State>, steps: seq<Step>)
    requires IsRun(before, taken)
    requires var s := before[|taken|]; s.free > 0 && !s.stopping && id !in s.handlers
    ensures IsRun(states, steps) && states[|steps|] == AfterTearDown(before[|taken|], id)
  {
    var s := before[|taken|];
    var arrived := s.(handlers := s.handlers[id := Handler(id, Arrived)]);
    var preparing := Move(arrived.(free := s.free - 1, acquired := s.acquired + {id}), id, Preparing);
    OneMoreStep(before, taken, Arrive(id, id), arrived);
    states, steps := before + [arrived], taken + [Arrive(id, id)];
    OneMoreStep(states, steps, Acquire(id), preparing);
    states, steps := states + [preparing], steps + [Acquire(id)];
    OneMoreStep(states, steps, Crash(id), Move(preparing, id, Crashed));
    states, steps := states + [Move(preparing, id, Crashed)], steps + [Crash(id)];
  }

  /** It happens: two requests torn down while they prepare, and every slot is
      gone with nothing running. */
  lemma CrashKeepsSlot() returns (states: seq<State>, steps: seq<Step>)
    ensures IsRun(states, steps) && Quiet(states[|steps|])
    ensures states[|steps|].free == 0 && states[|steps|].workers == map[] && states[|steps|].ledger == map[]
  {
    hide Next;
    states, steps := TearDown([START], [], 0);
    states, steps := TearDown(states, steps, 1);
  }
}
