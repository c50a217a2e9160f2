/** The bounded retry of GitHub calls. */
module RetryBoundary {
  import opened Text

  datatype Category = Transient | NodeResolution | Transport | Permanent | Exhausted

  /** A classified failure, with the server's `Retry-After` if it sent one. */
  datatype Failure = Failure(category: Category, retryAfter: Option<real>)

  predicate Retryable(failure: Failure) {
    failure.category in {Transient, NodeResolution, Transport}
  }

  /** What one call comes to; an exception outside the classification passes through. */
  datatype Attempt<V> = Returned(value: V) | Failed(failure: Failure) | Threw

  /** What the bounded execution comes to. */
  datatype Outcome<V> =
    | Value(value: V)
    | Raised(failure: Failure)
    | Unavailable(attempts: nat, last: Failure)
    | NothingTried
    | SleepRefused
    | PassedThrough

  datatype RetryPolicy = RetryPolicy(attempts: int, baseDelay: real, maxDelay: real)

  function Doubled(base: real, n: nat): real {
    if n == 0 then base else 2.0 * Doubled(base, n - 1)
  }

  function Min(a: real, b: real): real {
    if b < a then b else a
  }

  /** `delay_seconds`. */
  function DelaySeconds(policy: RetryPolicy, attempt: int): real {
    Min(Doubled(policy.baseDelay, if attempt - 1 > 0 then attempt - 1 else 0), policy.maxDelay)
  }

  /** What is slept behind the failed attempt: the server's wish or the policy's, capped. */
  function Pause(policy: RetryPolicy, attempt: int, failure: Failure): real {
    Min(if failure.retryAfter.Some? then failure.retryAfter.value else DelaySeconds(policy, attempt), policy.maxDelay)
  }

  /** The remote side: it answers its n-th call from a script, and takes no negative sleep. */
  class Service<V> {
    const script: nat -> Attempt<V>
    var calls: nat
    var slept: seq<real>

    constructor (script: nat -> Attempt<V>)
      ensures this.script == script && calls == 0 && slept == []
    {
      this.script := script;
      calls := 0;
      slept := [];
    }

    method Call() returns (attempt: Attempt<V>)
      modifies this`calls
      ensures attempt == script(old(calls)) && calls == old(calls) + 1
    {
      attempt := script(calls);
      calls := calls + 1;
    }

    method Sleep(delay: real) returns (ok: bool)
      modifies this`slept
      ensures ok <==> delay >= 0.0
      ensures slept == if ok then old(slept) + [delay] else old(slept)
    {
      ok := delay >= 0.0;
      if ok {
        slept := slept + [delay];
      }
    }

    /** `execute_with_retry`. */
    method Execute(policy: RetryPolicy) returns (outcome: Outcome<V>)
      modifies this`calls, this`slept
      ensures var run := Run(script, old(calls), policy, 1);
              outcome == run.outcome && calls == old(calls) + run.calls && slept == old(slept) + run.slept
    {
      hide *;
      var attempt := 1;
      var lastError: Option<Failure> := None;
      ghost var whole := Run(script, calls, policy, 1);
      ghost var made: nat := 0;
      ghost var pauses: seq<real> := [];
      assert old(slept) + [] == old(slept) && [] + whole.slept == whole.slept;
      while attempt <= policy.attempts
        invariant attempt >= 1 && (attempt > 1 <==> lastError.Some?)
        invariant calls == old(calls) + made && slept == old(slept) + pauses
        invariant attempt == 1 || attempt <= policy.attempts + 1
        invariant whole ==
                  if attempt > 1 && attempt > policy.attempts then
                    Trace(Unavailable(policy.attempts, lastError.value), made, pauses)
                  else
                    var rest := Run(script, calls, policy, attempt);
                    Trace(rest.outcome, made + rest.calls, pauses + rest.slept)
        decreases policy.attempts - attempt
      {
        RunStep(script, calls, policy, attempt);
        assert pauses + [] == pauses;
        var answer := Call();
        made := made + 1;
        match answer
        case Returned(value) =>
          return Value(value);
        case Threw =>
          return PassedThrough;
        case Failed(failure) =>
          lastError := Some(failure);
          if !Retryable(failure) {
            return Raised(failure);
          }
          if attempt < policy.attempts {
            var delay := Pause(policy, attempt, failure);
            var ok := Sleep(delay);
            if !ok {
              return SleepRefused;
            }
            ghost var rest := Run(script, calls, policy, attempt + 1);
            assert pauses + ([delay] + rest.slept) == (pauses + [delay]) + rest.slept;
            assert (old(slept) + pauses) + [delay] == old(slept) + (pauses + [delay]);
            pauses := pauses + [delay];
          }
          attempt := attempt + 1;
      }
      if lastError.None? {
        RunStep(script, calls, policy, attempt);
        assert pauses + [] == pauses;
        return NothingTried;
      }
      outcome := Unavailable(policy.attempts, lastError.value);
    }
  }

  // ------------------------------------------------------------ the specification

  /** A bounded execution: its outcome, how many calls it made, what it slept. */
  datatype Trace<V> = Trace(outcome: Outcome<V>, calls: nat, slept: seq<real>)

  function Run<V>(script: nat -> Attempt<V>, from: nat, policy: RetryPolicy, attempt: nat): Trace<V>
    requires attempt >= 1
    decreases policy.attempts - attempt
  {
    if attempt > policy.attempts then Trace(NothingTried, 0, [])
    else
      match script(from)
      case Returned(value) => Trace(Value(value), 1, [])
      case Threw => Trace(PassedThrough, 1, [])
      case Failed(failure) =>
        if !Retryable(failure) then Trace(Raised(failure), 1, [])
        else if attempt == policy.attempts then Trace(Unavailable(policy.attempts, failure), 1, [])
        else
          var delay := Pause(policy, attempt, failure);
          if delay < 0.0 then Trace(SleepRefused, 1, [])
          else
            var rest := Run(script, from + 1, policy, attempt + 1);
            Trace(rest.outcome, 1 + rest.calls, [delay] + rest.slept)
  }

  lemma RunStep<V>(script: nat -> Attempt<V>, from: nat, policy: RetryPolicy, attempt: nat)
    requires attempt >= 1
    ensures var run, answer := Run(script, from, policy, attempt), script(from);
            if attempt > policy.attempts then run == Trace(NothingTried, 0, [])
            else if answer.Returned? then run == Trace(Value(answer.value), 1, [])
            else if answer.Threw? then run == Trace(PassedThrough, 1, [])
            else if !Retryable(answer.failure) then run == Trace(Raised(answer.failure), 1, [])
            else if attempt == policy.attempts then run == Trace(Unavailable(policy.attempts, answer.failure), 1, [])
            else
              var delay, rest := Pause(policy, attempt, answer.failure), Run(script, from + 1, policy, attempt + 1);
              run == if delay < 0.0 then Trace(SleepRefused, 1, [])
                     else Trace(rest.outcome, 1 + rest.calls, [delay] + rest.slept)
  {
    hide Pause, Retryable;
  }

  // ------------------------------------------------------------------- bounds

  function Sum(delays: seq<real>): real {
    if delays == [] then 0.0 else delays[0] + Sum(delays[1..])
  }

  /** Never more calls than attempts, one sleep fewer than calls, no sleep longer than the cap. */
  lemma {:induction false} RunBounded<V>(script: nat -> Attempt<V>, from: nat, policy: RetryPolicy, attempt: nat)
    requires 1 <= attempt <= policy.attempts
    ensures var run := Run(script, from, policy, attempt);
            && 1 <= run.calls <= policy.attempts - attempt + 1 && |run.slept| == run.calls - 1
            && forall i :: 0 <= i < |run.slept| ==> 0.0 <= run.slept[i] <= policy.maxDelay
    decreases policy.attempts - attempt
  {
    hide Run, DelaySeconds, Retryable;
    RunStep(script, from, policy, attempt);
    if attempt < policy.attempts {
      RunBounded(script, from + 1, policy, attempt + 1);
    }
  }

  lemma {:induction false} SumBounded(delays: seq<real>, cap: real)
    requires forall i :: 0 <= i < |delays| ==> 0.0 <= delays[i] <= cap
    ensures 0.0 <= Sum(delays) <= |delays| as real * cap
  {
    if delays != [] {
      SumBounded(delays[1..], cap);
      assert |delays| as real * cap == cap + (|delays| - 1) as real * cap;
    }
  }

  /** For any answers: at most `attempts` calls, and at most `attempts - 1` times
      the longest delay slept in all; with no attempts allowed nothing happens. */
  lemma BoundedRetry<V>(script: nat -> Attempt<V>, policy: RetryPolicy)
    ensures var run := Run(script, 0, policy, 1);
            && (policy.attempts < 1 ==> run == Trace(NothingTried, 0, []))
            && (policy.attempts >= 1 ==> 1 <= run.calls <= policy.attempts)
            && (policy.attempts >= 1 && policy.maxDelay >= 0.0 ==>
                  0.0 <= Sum(run.slept) <= (policy.attempts - 1) as real * policy.maxDelay)
  {
    hide Run, Sum;
    var run := Run(script, 0, policy, 1);
    RunStep(script, 0, policy, 1);
    if policy.attempts >= 1 {
      RunBounded(script, 0, policy, 1);
      SumBounded(run.slept, policy.maxDelay);
      if policy.maxDelay >= 0.0 {
        Scale(|run.slept|, policy.attempts - 1, policy.maxDelay);
      }
    }
  }

  lemma Scale(m: int, n: int, x: real)
    requires m <= n && x >= 0.0
    ensures m as real * x <= n as real * x
  {
    assert n as real * x - m as real * x == (n - m) as real * x;
  }

  /** These answers are all failures worth another try. */
  ghost predicate AllRetryable<V>(script: nat -> Attempt<V>, from: nat, to: nat) {
    forall k :: from <= k < to ==> script(k).Failed? && Retryable(script(k).failure)
  }

  /** The pauses behind these failures can be taken: none is negative. */
  ghost predicate PausesAllowed<V>(script: nat -> Attempt<V>, from: nat, to: nat, policy: RetryPolicy, attempt: nat) {
    forall k :: from <= k < to && script(k).Failed? ==> Pause(policy, attempt + (k - from), script(k).failure) >= 0.0
  }

  /** Unavailability is reported exactly when every attempt failed in a retryable
      way and every pause in between could be taken. */
  lemma {:induction false} UnavailableExactly<V>(script: nat -> Attempt<V>, from: nat, policy: RetryPolicy,
                                                 attempt: nat)
    requires 1 <= attempt <= policy.attempts
    ensures var last := from + (policy.attempts - attempt);
            Run(script, from, policy, attempt).outcome.Unavailable?
            <==> AllRetryable(script, from, last + 1) && PausesAllowed(script, from, last, policy, attempt)
    ensures Run(script, from, policy, attempt).outcome.Unavailable? ==>
              Run(script, from, policy, attempt).calls == policy.attempts - attempt + 1
    decreases policy.attempts - attempt
  {
    hide Pause, Retryable, Run;
    RunStep(script, from, policy, attempt);
    if attempt < policy.attempts {
      UnavailableExactly(script, from + 1, policy, attempt + 1);
    }
  }

  function Backoff(policy: RetryPolicy, attempt: nat, count: nat): seq<real>
    decreases count
  {
    if count == 0 then [] else [DelaySeconds(policy, attempt)] + Backoff(policy, attempt + 1, count - 1)
  }

  /** Without a `Retry-After` the sleeps are the capped doubling delays, in order. */
  lemma {:induction false} SleepsDouble<V>(script: nat -> Attempt<V>, from: nat, policy: RetryPolicy, attempt: nat)
    requires 1 <= attempt <= policy.attempts
    requires forall k :: script(k).Failed? ==> script(k).failure.retryAfter.None?
    ensures var run := Run(script, from, policy, attempt);
            run.slept == Backoff(policy, attempt, run.calls - 1)
    decreases policy.attempts - attempt
  {
    hide Retryable, Doubled, Run;
    RunStep(script, from, policy, attempt);
    if attempt < policy.attempts {
      RunBounded(script, from + 1, policy, attempt + 1);
      SleepsDouble(script, from + 1, policy, attempt + 1);
      assert DelaySeconds(policy, attempt) <= policy.maxDelay;
    }
  }

  /** Delays that begin with the base delay and double from attempt to attempt. */
  ghost predicate Doubling(d: nat -> real, base: real) {
    d(1) == base && forall k :: k >= 1 ==> d(k + 1) == 2.0 * d(k)
  }

  lemma {:induction false} DoublesTo(d: nat -> real, base: real, k: nat)
    requires Doubling(d, base) && k >= 1
    ensures Doubled(base, k - 1) == d(k)
  {
    if k > 1 {
      DoublesTo(d, base, k - 1);
      assert d(k - 1 + 1) == 2.0 * d(k - 1);
    }
  }

  /** What is slept behind the failure that the `k`-th call of a script ends in. */
  ghost predicate SleepsFor<V>(slept: real, answer: Attempt<V>, delay: real, cap: real) {
    && answer.Failed?
    && var wished := if answer.failure.retryAfter.Some? then answer.failure.retryAfter.value else delay;
       slept == if wished > cap then cap else wished
  }

  /** Each sleep is what the server wished for or, without a wish, the delay of that
      attempt, twice the one before; and never more than the cap. */
  lemma {:induction false} SleepsExactly<V>(script: nat -> Attempt<V>, from: nat, policy: RetryPolicy, attempt: nat,
                                            d: nat -> real)
    requires 1 <= attempt <= policy.attempts && Doubling(d, policy.baseDelay)
    ensures var slept := Run(script, from, policy, attempt).slept;
            forall i :: 0 <= i < |slept| ==> SleepsFor(slept[i], script(from + i), d(attempt + i), policy.maxDelay)
    decreases policy.attempts - attempt
  {
    hide Retryable, Doubled, Run, Doubling, SleepsFor;
    RunStep(script, from, policy, attempt);
    var slept := Run(script, from, policy, attempt).slept;
    if attempt < policy.attempts && slept != [] {
      var rest := Run(script, from + 1, policy, attempt + 1);
      SleepsExactly(script, from + 1, policy, attempt + 1, d);
      PauseIs(policy, attempt, script(from), d);
      forall i | 0 <= i < |slept| ensures SleepsFor(slept[i], script(from + i), d(attempt + i), policy.maxDelay) {
        if i > 0 {
          assert SleepsFor(rest.slept[i - 1], script(from + 1 + (i - 1)), d(attempt + 1 + (i - 1)), policy.maxDelay);
          assert from + 1 + (i - 1) == from + i && attempt + 1 + (i - 1) == attempt + i;
        }
      }
    }
  }

  lemma PauseIs<V>(policy: RetryPolicy, attempt: nat, answer: Attempt<V>, d: nat -> real)
    requires attempt >= 1 && answer.Failed? && Doubling(d, policy.baseDelay)
    ensures SleepsFor(Pause(policy, attempt, answer.failure), answer, d(attempt), policy.maxDelay)
  {
    hide Doubled, Doubling;
    DoublesTo(d, policy.baseDelay, attempt);
    assert (if attempt - 1 > 0 then attempt - 1 else 0) == attempt - 1;
  }

  /** Which answer decides, and how: every one before it is a failure worth another
      try, and it is a value, an exception, a permanent failure, the last attempt,
      or a failure behind which no pause can be taken. */
  lemma {:induction false} LastDecides<V>(script: nat -> Attempt<V>, from: nat, policy: RetryPolicy, attempt: nat)
    requires 1 <= attempt <= policy.attempts
    ensures var run := Run(script, from, policy, attempt);
            && run.calls >= 1
            && (forall k :: from <= k < from + run.calls - 1 ==> script(k).Failed? && Retryable(script(k).failure))
            && match script(from + run.calls - 1)
               case Returned(value) => run.outcome == Value(value)
               case Threw => run.outcome == PassedThrough
               case Failed(failure) =>
                 if failure.category.Permanent? || failure.category.Exhausted? then run.outcome == Raised(failure)
                 else if run.calls == policy.attempts - attempt + 1 then
                   run.outcome == Unavailable(policy.attempts, failure)
                 else run.outcome == SleepRefused
    decreases policy.attempts - attempt
  {
    hide Pause, Run;
    RunStep(script, from, policy, attempt);
    if attempt < policy.attempts {
      LastDecides(script, from + 1, policy, attempt + 1);
    }
  }

  // ------------------------------------------------------------ nested boundaries

  /** What an outer boundary sees of an inner one: what the inner raises. */
  function Seen<V>(outcome: Outcome<V>): Attempt<V> {
    match outcome
    case Value(value) => Returned(value)
    case Raised(failure) => Failed(failure)
    case Unavailable(_, last) => Failed(Failure(Exhausted, None))
    case _ => Threw
  }

  lemma {:induction false} RaisedIsFinal<V>(script: nat -> Attempt<V>, from: nat, policy: RetryPolicy, attempt: nat)
    requires attempt >= 1
    ensures var outcome := Run(script, from, policy, attempt).outcome;
            outcome.Raised? ==> !Retryable(outcome.failure)
    decreases policy.attempts - attempt
  {
    hide Retryable, Run;
    RunStep(script, from, policy, attempt);
    if attempt < policy.attempts {
      RaisedIsFinal(script, from + 1, policy, attempt + 1);
    }
  }

  /** A boundary around a boundary: every attempt of the outer one is a whole
      execution of the inner one, from wherever the answers have got to. */
  function Nested<V>(script: nat -> Attempt<V>, from: nat, inner: RetryPolicy, outer: RetryPolicy, attempt: nat)
      : (r: Trace<V>)
    requires attempt >= 1
    decreases outer.attempts - attempt
  {
    if attempt > outer.attempts then Trace(NothingTried, 0, [])
    else
      var run := Run(script, from, inner, 1);
      match Seen(run.outcome)
      case Returned(value) => Trace(Value(value), run.calls, run.slept)
      case Threw => Trace(PassedThrough, run.calls, run.slept)
      case Failed(failure) =>
        if !Retryable(failure) then Trace(Raised(failure), run.calls, run.slept)
        else if attempt == outer.attempts then Trace(Unavailable(outer.attempts, failure), run.calls, run.slept)
        else
          var delay := Pause(outer, attempt, failure);
          if delay < 0.0 then Trace(SleepRefused, run.calls, run.slept)
          else
            var rest := Nested(script, from + run.calls, inner, outer, attempt + 1);
            Trace(rest.outcome, run.calls + rest.calls, run.slept + [delay] + rest.slept)
  }

  /** Wrapping never multiplies calls: the outer boundary makes one attempt, adds
      no sleep, and what the inner one raises passes through it. */
  lemma NestingAddsNothing<V>(script: nat -> Attempt<V>, from: nat, inner: RetryPolicy, outer: RetryPolicy)
    requires outer.attempts >= 1
    ensures var once, nested := Run(script, from, inner, 1), Nested(script, from, inner, outer, 1);
            nested.calls == once.calls && nested.slept == once.slept && Seen(nested.outcome) == Seen(once.outcome)
  {
    hide Run;
    RaisedIsFinal(script, from, inner, 1);
  }
}
