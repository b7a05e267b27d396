/**
 * `core/circuit_breaker.rs`.  The mutex is released while the wrapped future runs, so one call is two
 * separate atomic steps, admission and completion, and the completions of older calls may arrive in
 * any phase.  A history is the sequence of those lock-time steps in lock order; abandoned calls simply
 * never complete.  The breaker stores three fields; the specification reads the whole history.
 */
module CircuitBreaking {
  import opened Wrappers

  const U32_RANGE: nat := 0x1_0000_0000

  type U32 = n: nat | n < U32_RANGE

  datatype Phase = Closed | Open | HalfOpen

  /** The fields behind the mutex. */
  datatype Core = Core(phase: Phase, failureCount: U32, openedAt: Option<nat>)

  /** One lock acquisition, with the clock value read under the lock. */
  datatype Event =
    | Admission(at: nat)
    | Success(at: nat)
    | Failure(at: nat)

  datatype Config = Config(failureThreshold: U32, resetTimeout: nat)

  const INITIAL := Core(Closed, 0, None)

  /** The guard block at the top of `execute`: the new fields and whether the call is rejected. */
  function AdmitStep(config: Config, core: Core, now: nat): (Core, bool) {
    if core.phase == Open then
      var elapsed := match core.openedAt case None => 0 case Some(at) => if now >= at then now - at else 0;
      if elapsed < config.resetTimeout then (core, true) else (core.(phase := HalfOpen), false)
    else (core, false)
  }

  function SuccessStep(core: Core): Core {
    core.(failureCount := 0, phase := Closed)
  }

  /** `failure_count` wraps as a release build's `u32` does. */
  function FailureStep(config: Config, core: Core, now: nat): Core {
    var count := (core.failureCount + 1) % U32_RANGE;
    if core.phase == HalfOpen || count >= config.failureThreshold
    then Core(Open, count, Some(now))
    else core.(failureCount := count)
  }

  function Step(config: Config, core: Core, event: Event): Core {
    match event
    case Admission(now) => AdmitStep(config, core, now).0
    case Success(_) => SuccessStep(core)
    case Failure(now) => FailureStep(config, core, now)
  }

  function Replay(config: Config, history: seq<Event>): Core {
    if history == [] then INITIAL
    else Step(config, Replay(config, history[..|history| - 1]), history[|history| - 1])
  }

  /** Whether the breaker, after `history`, turns away a call that takes the lock at `now`. */
  predicate Rejects(config: Config, history: seq<Event>, now: nat) {
    AdmitStep(config, Replay(config, history), now).1
  }

  // ----- the specification: functions of the whole history

  predicate Monotone(history: seq<Event>) {
    forall i, j :: 0 <= i < j < |history| ==> history[i].at <= history[j].at
  }

  /** No event is later than `now`. */
  predicate NotAfter(history: seq<Event>, now: nat) {
    forall i :: 0 <= i < |history| ==> history[i].at <= now
  }

  /** The number of failure completions since the last success. */
  function FailureRun(history: seq<Event>): nat {
    if history == [] then 0
    else
      var before := FailureRun(history[..|history| - 1]);
      match history[|history| - 1]
      case Admission(_) => before
      case Success(_) => 0
      case Failure(_) => before + 1
  }

  /** The time of the latest failure completion, 0 when there is none. */
  function LatestFailure(history: seq<Event>): nat {
    if history == [] then 0
    else if history[|history| - 1].Failure? then history[|history| - 1].at
    else LatestFailure(history[..|history| - 1])
  }

  /** No prefix ends in a run of more than `longest` failures. */
  predicate RunsAtMost(history: seq<Event>, longest: nat) {
    forall n :: 0 <= n <= |history| ==> FailureRun(history[..n]) <= longest
  }

  /** No prefix holds a run of 2^32 failures, so the counter never wraps. */
  predicate CounterFits(history: seq<Event>) {
    RunsAtMost(history, U32_RANGE - 1)
  }

  /** The run of failures that trips the breaker; a threshold of 0 behaves as 1. */
  function TripRun(config: Config): nat {
    if config.failureThreshold == 0 then 1 else config.failureThreshold
  }

  predicate OutageInForce(config: Config, history: seq<Event>, now: nat) {
    && FailureRun(history) >= TripRun(config)
    && now - LatestFailure(history) < config.resetTimeout
  }

  /** The inductive invariant tying the three fields to the history. */
  predicate Agrees(config: Config, history: seq<Event>, core: Core) {
    && core.failureCount == FailureRun(history)
    && (core.phase == Closed <==> core.failureCount < TripRun(config))
    && (core.phase != Closed ==> core.openedAt == Some(LatestFailure(history)))
    && (core.phase == HalfOpen ==> OutlastsTimeout(config, history))
  }

  /** Some event comes a reset timeout or more after the latest failure. */
  predicate OutlastsTimeout(config: Config, history: seq<Event>) {
    exists i :: 0 <= i < |history| && history[i].at - LatestFailure(history) >= config.resetTimeout
  }

  /** It stays so until the next failure, and an admission that late makes it so. */
  lemma OutlastsNext(config: Config, history: seq<Event>, event: Event)
    requires !event.Failure?
    requires OutlastsTimeout(config, history) || event.at - LatestFailure(history) >= config.resetTimeout
    ensures OutlastsTimeout(config, history + [event])
  {
    var extended := history + [event];
    HistoryNext(config, history, event);
    assert extended[|history|] == event;
    if i :| 0 <= i < |history| && history[i].at - LatestFailure(history) >= config.resetTimeout {
      assert extended[i] == history[i];
    }
  }

  lemma PrefixFacts(history: seq<Event>)
    requires Monotone(history) && CounterFits(history) && history != []
    ensures var before := history[..|history| - 1];
            Monotone(before) && CounterFits(before) && NotAfter(before, history[|history| - 1].at)
  {
    var before := history[..|history| - 1];
    forall n | 0 <= n <= |before| ensures FailureRun(before[..n]) < U32_RANGE {
      assert before[..n] == history[..n];
    }
  }

  lemma {:induction false} FieldsAgreeWithHistory(config: Config, history: seq<Event>)
    requires Monotone(history) && CounterFits(history)
    ensures Agrees(config, history, Replay(config, history))
  {
    if history != [] {
      var before, event := history[..|history| - 1], history[|history| - 1];
      PrefixFacts(history);
      FieldsAgreeWithHistory(config, before);
      assert FailureRun(history[..|history|]) < U32_RANGE && history[..|history|] == history;
      LatestFailureIsPast(before, event.at);
      if Replay(config, history).phase == HalfOpen {
        assert before + [event] == history;
        OutlastsNext(config, before, event);
      }
    }
  }

  lemma {:induction false} LatestFailureIsPast(history: seq<Event>, now: nat)
    requires NotAfter(history, now)
    ensures LatestFailure(history) <= now
  {
    if history != [] {
      LatestFailureIsPast(history[..|history| - 1], now);
    }
  }

  /**
   * In every interleaving of admissions, completions and abandoned calls, a call is rejected exactly
   * while the failures since the last success have reached the threshold and the latest of them is
   * younger than the reset timeout.
   */
  lemma BreakerRefinesHistory(config: Config, history: seq<Event>, now: nat)
    requires Monotone(history) && CounterFits(history) && NotAfter(history, now)
    ensures Rejects(config, history, now) <==> OutageInForce(config, history, now)
  {
    FieldsAgreeWithHistory(config, history);
    LatestFailureIsPast(history, now);
  }

  // ----- what is let through after the timeout

  /** Admissions alone change neither the run of failures nor the time of the latest one. */
  lemma {:induction false} AdmissionsAreNotCompletions(history: seq<Event>, arrivals: seq<Event>)
    requires forall i :: 0 <= i < |arrivals| ==> arrivals[i].Admission?
    ensures FailureRun(history + arrivals) == FailureRun(history)
    ensures LatestFailure(history + arrivals) == LatestFailure(history)
    ensures CounterFits(history) ==> CounterFits(history + arrivals)
  {
    if arrivals == [] {
      assert history + arrivals == history;
    } else {
      var whole, rest := history + arrivals, arrivals[..|arrivals| - 1];
      AdmissionsAreNotCompletions(history, rest);
      assert whole[..|whole| - 1] == history + rest;
      forall n | CounterFits(history) && 0 <= n <= |whole| ensures FailureRun(whole[..n]) < U32_RANGE {
        if n == |whole| {
          assert whole[..n] == whole && FailureRun((history + rest)[..|history + rest|]) < U32_RANGE;
          assert (history + rest)[..|history + rest|] == history + rest;
        } else {
          assert whole[..n] == (history + rest)[..n];
        }
      }
    }
  }

  /** So a single call is let through there if and only if a single call arrives. */
  lemma OneTrialIffOneArrival(config: Config, history: seq<Event>, arrivals: seq<Event>)
    requires Monotone(history + arrivals) && CounterFits(history)
    requires FailureRun(history) >= TripRun(config)
    requires forall i :: 0 <= i < |arrivals| ==>
      arrivals[i].Admission? && arrivals[i].at - LatestFailure(history) >= config.resetTimeout
    ensures AdmittedArrivals(config, history, arrivals) <= 1 <==> |arrivals| <= 1
  {
    EveryArrivalIsATrial(config, history, arrivals);
  }

  /** How many of a stretch of arrivals, no call completing meanwhile, the breaker lets through. */
  function AdmittedArrivals(config: Config, history: seq<Event>, arrivals: seq<Event>): nat {
    if arrivals == [] then 0
    else
      var rest, last := arrivals[..|arrivals| - 1], arrivals[|arrivals| - 1];
      AdmittedArrivals(config, history, rest)
      + if Rejects(config, history + rest, last.at) then 0 else 1
  }

  lemma {:induction false} EveryArrivalIsATrial(config: Config, history: seq<Event>, arrivals: seq<Event>)
    requires Monotone(history + arrivals) && CounterFits(history)
    requires FailureRun(history) >= TripRun(config)
    requires forall i :: 0 <= i < |arrivals| ==>
      arrivals[i].Admission? && arrivals[i].at - LatestFailure(history) >= config.resetTimeout
    ensures AdmittedArrivals(config, history, arrivals) == |arrivals|
  {
    if arrivals != [] {
      var rest, last := arrivals[..|arrivals| - 1], arrivals[|arrivals| - 1];
      assert history + arrivals == history + rest + [last];
      assert forall i :: 0 <= i < |history + rest| ==> (history + arrivals)[i] == (history + rest)[i];
      assert (history + arrivals)[|history + rest|] == last;
      EveryArrivalIsATrial(config, history, rest);
      AdmissionsAreNotCompletions(history, rest);
      BreakerRefinesHistory(config, history + rest, last.at);
    }
  }

  // ----- how often an outage is probed

  /** A call that fails if it is admitted. */
  datatype Call = Call(start: nat, end: nat)

  predicate NonOverlapping(calls: seq<Call>) {
    && (forall i :: 0 <= i < |calls| ==> calls[i].start <= calls[i].end)
    && (forall i, j :: 0 <= i < j < |calls| ==> calls[i].end <= calls[j].start)
  }

  /** The fields after running the calls one after another, and how many of them were admitted. */
  function RunOutage(config: Config, calls: seq<Call>): (Core, nat) {
    if calls == [] then (INITIAL, 0)
    else
      var (core, admitted) := RunOutage(config, calls[..|calls| - 1]);
      var call := calls[|calls| - 1];
      var (entered, rejected) := AdmitStep(config, core, call.start);
      if rejected then (entered, admitted) else (FailureStep(config, entered, call.end), admitted + 1)
  }

  /** How many calls starting no later than `deadline` are admitted. */
  function AdmittedBy(config: Config, calls: seq<Call>, deadline: nat): nat {
    if calls == [] then 0
    else
      var before, call := calls[..|calls| - 1], calls[|calls| - 1];
      AdmittedBy(config, before, deadline)
      + if call.start <= deadline && RunOutage(config, calls).1 > RunOutage(config, before).1 then 1 else 0
  }

  /** `k` reset timeouts end to end. */
  function Timeouts(k: nat, timeout: nat): nat {
    if k == 0 then 0 else Timeouts(k - 1, timeout) + timeout
  }

  /** After `admitted` failures, each one past the trip run has cost at least one reset timeout. */
  predicate Paced(config: Config, core: Core, admitted: nat, first: nat, latest: nat) {
    if admitted < TripRun(config) then core.phase == Closed && core.failureCount == admitted
    else
      && core.phase == Open && core.openedAt.Some?
      && first + Timeouts(admitted - TripRun(config), config.resetTimeout) <= core.openedAt.value <= latest
  }

  /** One more call that fails if admitted keeps the pace, and starts late enough if it is admitted. */
  lemma CallKeepsPace(config: Config, core: Core, admitted: nat, first: nat, latest: nat, call: Call)
    requires Paced(config, core, admitted, first, latest) && first <= latest <= call.start <= call.end
    ensures var (entered, rejected) := AdmitStep(config, core, call.start);
            if rejected then Paced(config, entered, admitted, first, call.end)
            else
              && Paced(config, FailureStep(config, entered, call.end), admitted + 1, first, call.end)
              && (admitted >= TripRun(config) ==>
                    first + Timeouts(admitted + 1 - TripRun(config), config.resetTimeout) <= call.start)
  {}

  lemma NothingAdmitted(config: Config, start: nat)
    ensures Paced(config, INITIAL, 0, start, start)
  {}

  lemma {:induction false} OutageIsPaced(config: Config, calls: seq<Call>)
    requires NonOverlapping(calls) && calls != []
    ensures var (core, admitted) := RunOutage(config, calls);
            && Paced(config, core, admitted, calls[0].start, calls[|calls| - 1].end)
            && (admitted > RunOutage(config, calls[..|calls| - 1]).1 && admitted > TripRun(config) ==>
                  calls[0].start + Timeouts(admitted - TripRun(config), config.resetTimeout)
                    <= calls[|calls| - 1].start)
  {
    hide AdmitStep, FailureStep, Paced, Timeouts;
    var before, call := calls[..|calls| - 1], calls[|calls| - 1];
    var (core, admitted) := RunOutage(config, before);
    if before == [] {
      NothingAdmitted(config, call.start);
      CallKeepsPace(config, core, admitted, call.start, call.start, call);
    } else {
      OutageIsPaced(config, before);
      assert before[|before| - 1].end <= call.start && calls[0].start <= before[|before| - 1].end;
      CallKeepsPace(config, core, admitted, calls[0].start, before[|before| - 1].end, call);
    }
  }

  lemma {:induction false} TimeoutsIsProduct(k: nat, timeout: nat)
    ensures Timeouts(k, timeout) == k * timeout
  {
    if k > 0 {
      TimeoutsIsProduct(k - 1, timeout);
      assert (k - 1) * timeout + timeout == k * timeout;
    }
  }

  lemma TimeoutsFit(k: nat, timeout: nat, span: nat)
    requires timeout > 0 && Timeouts(k, timeout) <= span
    ensures k <= span / timeout
  {
    TimeoutsIsProduct(k, timeout);
    var q := span / timeout;
    assert (k - q) * timeout == k * timeout - q * timeout;
  }

  lemma {:induction false} AdmittedByIsAtMostAdmitted(config: Config, calls: seq<Call>, deadline: nat)
    ensures AdmittedBy(config, calls, deadline) <= RunOutage(config, calls).1
  {
    if calls != [] {
      AdmittedByIsAtMostAdmitted(config, calls[..|calls| - 1], deadline);
    }
  }

  lemma {:induction false} AdmittedWithinQuota(config: Config, calls: seq<Call>, span: nat, quota: nat)
    requires NonOverlapping(calls) && calls != []
    requires forall k: nat :: Timeouts(k, config.resetTimeout) <= span ==> k <= quota
    ensures AdmittedBy(config, calls, calls[0].start + span) <= TripRun(config) + quota
  {
    hide RunOutage, Paced;
    var before, call := calls[..|calls| - 1], calls[|calls| - 1];
    var admitted, deadline := RunOutage(config, calls).1, calls[0].start + span;
    if call.start <= deadline && admitted > RunOutage(config, before).1 {
      OutageIsPaced(config, calls);
      AdmittedByIsAtMostAdmitted(config, calls, deadline);
      if admitted > TripRun(config) {
        assert Timeouts(admitted - TripRun(config), config.resetTimeout) <= span;
      }
    } else if before != [] {
      AdmittedWithinQuota(config, before, span, quota);
    }
  }

  /**
   * When calls that do not overlap all fail, those admitted within `span` of the first start number
   * at most the trip run plus one for every whole reset timeout in `span`.
   */
  lemma OutageBound(config: Config, calls: seq<Call>, span: nat)
    requires NonOverlapping(calls) && calls != [] && config.resetTimeout > 0
    ensures AdmittedBy(config, calls, calls[0].start + span) <= TripRun(config) + span / config.resetTimeout
  {
    var quota := span / config.resetTimeout;
    forall k: nat | Timeouts(k, config.resetTimeout) <= span ensures k <= quota {
      TimeoutsFit(k, config.resetTimeout, span);
    }
    AdmittedWithinQuota(config, calls, span, quota);
  }

  // ----- the object

  /** What one more event does to the fields and to the specification. */
  lemma HistoryNext(config: Config, history: seq<Event>, event: Event)
    ensures Replay(config, history + [event]) == Step(config, Replay(config, history), event)
    ensures FailureRun(history + [event])
         == if event.Success? then 0 else FailureRun(history) + if event.Failure? then 1 else 0
    ensures LatestFailure(history + [event]) == if event.Failure? then event.at else LatestFailure(history)
  {
    assert (history + [event])[..|history|] == history;
  }

  datatype CallResult<+T> = Completed(value: T) | RejectedOpen | FailedInner

  /** The fields change in place; `history` records, for specification only, what the lock order was. */
  class CircuitBreaker {
    const config: Config
    var phase: Phase
    var failureCount: U32
    var openedAt: Option<nat>
    ghost var history: seq<Event>

    ghost predicate Valid()
      reads this
    {
      Core(phase, failureCount, openedAt) == Replay(config, history)
    }

    constructor (failureThreshold: U32, resetTimeout: nat)
      ensures Valid() && history == [] && config == Config(failureThreshold, resetTimeout)
    {
      config := Config(failureThreshold, resetTimeout);
      phase, failureCount, openedAt := Closed, 0, None;
      history := [];
    }

    /** The locked block that opens `execute`. */
    method Admit(now: nat) returns (rejected: bool)
      requires Valid()
      modifies this
      ensures Valid() && history == old(history) + [Admission(now)]
      ensures rejected == Rejects(config, old(history), now)
      ensures Monotone(old(history)) && CounterFits(old(history)) && NotAfter(old(history), now) ==>
        (rejected <==> OutageInForce(config, old(history), now))
    {
      if Monotone(history) && CounterFits(history) && NotAfter(history, now) {
        BreakerRefinesHistory(config, history, now);
      }
      rejected := false;
      if phase == Open {
        var elapsed := match openedAt case None => 0 case Some(at) => if now >= at then now - at else 0;
        if elapsed < config.resetTimeout {
          rejected := true;
        } else {
          phase := HalfOpen;
        }
      }
      HistoryNext(config, history, Admission(now));
      history := history + [Admission(now)];
    }

    method OnSuccess(ghost now: nat)
      requires Valid()
      modifies this
      ensures Valid() && history == old(history) + [Success(now)]
      ensures phase == Closed && FailureRun(history) == 0
    {
      HistoryNext(config, history, Success(now));
      failureCount := 0;
      phase := Closed;
      history := history + [Success(now)];
    }

    method OnFailure(now: nat)
      requires Valid()
      modifies this
      ensures Valid() && history == old(history) + [Failure(now)]
      ensures FailureRun(history) == FailureRun(old(history)) + 1 && LatestFailure(history) == now
    {
      HistoryNext(config, history, Failure(now));
      failureCount := (failureCount + 1) % U32_RANGE;
      if phase == HalfOpen || failureCount >= config.failureThreshold {
        phase := Open;
        openedAt := Some(now);
      }
      history := history + [Failure(now)];
    }

    /** `execute` when no other call takes the lock between its two steps; `outcome` is what `f` yields. */
    method Execute<T>(start: nat, end: nat, outcome: Option<T>) returns (result: CallResult<T>)
      requires Valid()
      modifies this
      ensures Valid()
      ensures result.RejectedOpen? <==> Rejects(config, old(history), start)
      ensures match result
              case RejectedOpen => history == old(history) + [Admission(start)]
              case Completed(v) =>
                outcome == Some(v) && history == old(history) + [Admission(start), Success(end)]
              case FailedInner =>
                outcome == None && history == old(history) + [Admission(start), Failure(end)]
    {
      var rejected := Admit(start);
      if rejected {
        return RejectedOpen;
      }
      match outcome
      case Some(value) =>
        OnSuccess(end);
        result := Completed(value);
      case None =>
        OnFailure(end);
        result := FailedInner;
    }
  }
}
