/**
 * `core/circuit_breaker.rs` with the lock acquisitions attributed to the calls that make them.  A call
 * takes the lock once to be admitted or rejected and, if it was admitted, at most once more to complete;
 * a call that is dropped while it runs simply never completes.
 */
module BreakerCalls {
  import opened Wrappers
  import opened CircuitBreaking

  /** One lock acquisition of one call. */
  datatype Turn = Turn(call: nat, event: Event)

  function Events(run: seq<Turn>): (history: seq<Event>)
    ensures |history| == |run| && forall i :: 0 <= i < |run| ==> history[i] == run[i].event
  {
    seq(|run|, i requires 0 <= i < |run| => run[i].event)
  }

  /** The calls that have taken the lock. */
  function Arrived(run: seq<Turn>): set<nat> {
    set i | 0 <= i < |run| :: run[i].call
  }

  /** The calls that were admitted and have not completed. */
  function InFlight(config: Config, run: seq<Turn>): set<nat> {
    if run == [] then {}
    else
      var before, turn := run[..|run| - 1], run[|run| - 1];
      match turn.event
      case Admission(now) =>
        InFlight(config, before) + if Rejects(config, Events(before), now) then {} else {turn.call}
      case _ => InFlight(config, before) - {turn.call}
  }

  /** A call may arrive once, and only a call in flight may complete. */
  predicate MayTake(config: Config, run: seq<Turn>, turn: Turn) {
    if turn.event.Admission? then turn.call !in Arrived(run) else turn.call in InFlight(config, run)
  }

  /** The runs that calls of `execute` can produce. */
  predicate Possible(config: Config, run: seq<Turn>) {
    run == [] || (Possible(config, run[..|run| - 1]) && MayTake(config, run[..|run| - 1], run[|run| - 1]))
  }

  /** What one more turn does. */
  lemma RunNext(config: Config, run: seq<Turn>, turn: Turn)
    ensures (run + [turn])[..|run|] == run && Events(run + [turn]) == Events(run) + [turn.event]
    ensures Arrived(run + [turn]) == Arrived(run) + {turn.call}
    ensures Possible(config, run + [turn]) <==> Possible(config, run) && MayTake(config, run, turn)
  {
    assert (run + [turn])[..|run|] == run;
    forall call ensures call in Arrived(run + [turn]) <==> call in Arrived(run) + {turn.call} {
      if call in Arrived(run) {
        var i :| 0 <= i < |run| && run[i].call == call;
        assert (run + [turn])[i].call == call;
      }
      assert (run + [turn])[|run|] == turn;
    }
  }

  /** The calls in flight after one more turn. */
  function Flying(config: Config, core: Core, flying: set<nat>, turn: Turn): set<nat> {
    if !turn.event.Admission? then flying - {turn.call}
    else if AdmitStep(config, core, turn.event.at).1 then flying
    else flying + {turn.call}
  }

  lemma InFlightNext(config: Config, run: seq<Turn>, turn: Turn)
    ensures InFlight(config, run + [turn])
         == Flying(config, Replay(config, Events(run)), InFlight(config, run), turn)
  {
    hide Replay;
    RunNext(config, run, turn);
  }

  lemma {:induction false} PossiblePrefix(config: Config, run: seq<Turn>, n: nat)
    requires Possible(config, run) && n <= |run|
    ensures Possible(config, run[..n])
  {
    if n < |run| {
      PossiblePrefix(config, run[..|run| - 1], n);
      assert run[..|run| - 1][..n] == run[..n];
    } else {
      assert run[..n] == run;
    }
  }

  lemma {:induction false} InFlightArrived(config: Config, run: seq<Turn>)
    ensures InFlight(config, run) <= Arrived(run)
  {
    if run != [] {
      var before, turn := run[..|run| - 1], run[|run| - 1];
      InFlightArrived(config, before);
      assert run == before + [turn];
      RunNext(config, before, turn);
    }
  }

  // ----- when the trial decides

  /** After `run` the outage has outlasted the reset timeout, and `arrivals` come before anything completes. */
  predicate TrialsBegin(config: Config, run: seq<Turn>, arrivals: seq<Turn>) {
    && Possible(config, run + arrivals) && Monotone(Events(run + arrivals)) && CounterFits(Events(run))
    && FailureRun(Events(run)) >= TripRun(config)
    && forall i :: 0 <= i < |arrivals| ==>
         arrivals[i].event.Admission? && arrivals[i].event.at - LatestFailure(Events(run)) >= config.resetTimeout
  }

  /**
   * The comment's promise: whatever completes, the breaker is half open until the trial, the first call
   * of `arrivals`, completes, and no longer.
   */
  ghost predicate TrialDecides(config: Config, run: seq<Turn>, arrivals: seq<Turn>)
    requires arrivals != []
  {
    forall more :: Completions(config, run + arrivals, more) ==>
      (Replay(config, Events(run + arrivals + more)).phase == HalfOpen <==> arrivals[0].call !in Arrived(more))
  }

  /** Completions that may follow `run`. */
  predicate Completions(config: Config, run: seq<Turn>, more: seq<Turn>) {
    && Possible(config, run + more) && Monotone(Events(run + more))
    && forall i :: 0 <= i < |more| ==> !more[i].event.Admission?
  }

  lemma RestBegins(config: Config, run: seq<Turn>, rest: seq<Turn>, last: Turn)
    requires TrialsBegin(config, run, rest + [last])
    ensures TrialsBegin(config, run, rest) && MayTake(config, run + rest, last)
    ensures NotAfter(Events(run + rest), last.event.at)
    ensures last.event.Admission? && last.event.at - LatestFailure(Events(run)) >= config.resetTimeout
  {
    hide Possible, MayTake, CounterFits, FailureRun, LatestFailure;
    assert run + (rest + [last]) == run + rest + [last];
    RunNext(config, run + rest, last);
    MonotoneInit(Events(run + rest), last.event);
    assert (rest + [last])[|rest|] == last;
    assert forall i :: 0 <= i < |rest| ==> (rest + [last])[i] == rest[i];
  }

  lemma MonotoneInit(history: seq<Event>, event: Event)
    requires Monotone(history + [event])
    ensures Monotone(history) && NotAfter(history, event.at)
  {
    var whole := history + [event];
    assert whole[|history|] == event;
    assert forall i :: 0 <= i < |history| ==> whole[i] == history[i];
  }

  /** One more arrival is let through and leaves the breaker half open. */
  lemma ArrivalIsAdmitted(config: Config, run: seq<Turn>, rest: seq<Turn>, last: Turn)
    requires TrialsBegin(config, run, rest + [last])
    ensures !Rejects(config, Events(run + rest), last.event.at)
    ensures Replay(config, Events(run + rest + [last])).phase == HalfOpen
  {
    hide Possible, MayTake, CounterFits, FailureRun, LatestFailure, Monotone, NotAfter, Replay;
    var history, arrivals := Events(run), Events(rest);
    RestBegins(config, run, rest, last);
    assert Events(run + rest) == history + arrivals;
    AdmissionsAreNotCompletions(history, arrivals);
    BreakerRefinesHistory(config, history + arrivals, last.event.at);
    FieldsAgreeWithHistory(config, history + arrivals);
    RunNext(config, run + rest, last);
    HistoryNext(config, history + arrivals, last.event);
  }

  /** What the next arrival adds to the calls in flight. */
  lemma AdmittedTakesOff(config: Config, run: seq<Turn>, turn: Turn)
    requires turn.event.Admission? && !Rejects(config, Events(run), turn.event.at)
    ensures InFlight(config, run + [turn]) == InFlight(config, run) + {turn.call}
  {
    hide Rejects;
    RunNext(config, run, turn);
  }

  /** Every arrival is let through, and nobody lands meanwhile. */
  lemma {:induction false} ArrivalsTakeOff(config: Config, run: seq<Turn>, arrivals: seq<Turn>)
    requires TrialsBegin(config, run, arrivals)
    ensures InFlight(config, run + arrivals) == InFlight(config, run) + Arrived(arrivals)
  {
    hide TrialsBegin, InFlight, Rejects, Arrived, Replay;
    if arrivals == [] {
      assert run + arrivals == run;
      assert Arrived(arrivals) == {} by { NobodyArrived(); }
    } else {
      var rest, last := arrivals[..|arrivals| - 1], arrivals[|arrivals| - 1];
      assert run + arrivals == run + rest + [last] && arrivals == rest + [last];
      RestBegins(config, run, rest, last);
      ArrivalsTakeOff(config, run, rest);
      ArrivalIsAdmitted(config, run, rest, last);
      AdmittedTakesOff(config, run + rest, last);
      RunNext(config, rest, last);
    }
  }

  lemma NobodyArrived()
    ensures Arrived([]) == {}
  {}

  /** Nobody arrives twice. */
  lemma {:induction false} ArrivalsAreNew(config: Config, run: seq<Turn>, arrivals: seq<Turn>)
    requires Possible(config, run + arrivals)
    requires forall i :: 0 <= i < |arrivals| ==> arrivals[i].event.Admission?
    ensures Arrived(arrivals) !! Arrived(run)
    ensures forall i, j :: 0 <= i < j < |arrivals| ==> arrivals[i].call != arrivals[j].call
  {
    hide InFlight, Arrived, Possible;
    if arrivals == [] {
      NobodyArrived();
    } else {
      var rest, last := arrivals[..|arrivals| - 1], arrivals[|arrivals| - 1];
      assert run + arrivals == run + rest + [last] && arrivals == rest + [last];
      RunNext(config, run + rest, last);
      RunNext(config, rest, last);
      ArrivalsAreNew(config, run, rest);
      ArrivedConcat(run, rest);
      forall i | 0 <= i < |rest| ensures rest[i].call != last.call {
        HasArrived(rest, i);
      }
    }
  }

  lemma HasArrived(run: seq<Turn>, i: nat)
    requires i < |run|
    ensures run[i].call in Arrived(run)
  {}

  lemma ArrivedConcat(a: seq<Turn>, b: seq<Turn>)
    ensures Arrived(a + b) == Arrived(a) + Arrived(b)
  {
    forall call | call in Arrived(b) ensures call in Arrived(a + b) {
      var i :| 0 <= i < |b| && b[i].call == call;
      assert (a + b)[|a| + i].call == call;
    }
    forall call | call in Arrived(a) ensures call in Arrived(a + b) {
      var i :| 0 <= i < |a| && a[i].call == call;
      assert (a + b)[i].call == call;
    }
  }

  lemma TrialsHalfOpen(config: Config, run: seq<Turn>, arrivals: seq<Turn>)
    requires TrialsBegin(config, run, arrivals) && arrivals != []
    ensures Replay(config, Events(run + arrivals)).phase == HalfOpen
  {
    hide TrialsBegin, Replay;
    var rest, last := arrivals[..|arrivals| - 1], arrivals[|arrivals| - 1];
    assert run + arrivals == run + rest + [last] && arrivals == rest + [last];
    ArrivalIsAdmitted(config, run, rest, last);
  }

  /** Completing anything else first takes the decision away from the trial. */
  lemma OtherCompletionDecides(config: Config, run: seq<Turn>, call: nat, other: nat)
    requires run != [] && Possible(config, run) && Monotone(Events(run))
    requires other in InFlight(config, run) && other != call
    ensures exists more :: Completions(config, run, more) && call !in Arrived(more)
              && Replay(config, Events(run + more)).phase == Closed
  {
    hide InFlight, Arrived, Possible, Monotone, Replay;
    var turn := Turn(other, Success(run[|run| - 1].event.at));
    RunNext(config, run, turn);
    HistoryNext(config, Events(run), turn.event);
    MonotoneNext(Events(run), turn.event);
    OneArrived(turn);
    assert Completions(config, run, [turn]) && call !in Arrived([turn]);
  }

  lemma OneArrived(turn: Turn)
    ensures Arrived([turn]) == {turn.call}
  {
    assert [turn][0] == turn;
  }

  lemma MonotoneNext(history: seq<Event>, event: Event)
    requires Monotone(history) && history != [] && event.at >= history[|history| - 1].at
    ensures Monotone(history + [event])
  {
    forall i | 0 <= i < |history| ensures history[i].at <= event.at {
      assert history[i].at <= history[|history| - 1].at;
    }
  }

  /** With nothing else in flight only the trial can complete, and once. */
  lemma OnlyTheTrialCompletes(config: Config, run: seq<Turn>, call: nat, more: seq<Turn>)
    requires InFlight(config, run) <= {call} && Completions(config, run, more)
    ensures more == [] || (|more| == 1 && more[0].call == call)
  {
    hide Replay, Monotone, Arrived;
    if more != [] {
      PossiblePrefix(config, run + more, |run| + 1);
      assert (run + more)[..|run| + 1] == run + [more[0]];
      RunNext(config, run, more[0]);
      InFlightNext(config, run, more[0]);
      if |more| > 1 {
        PossiblePrefix(config, run + more, |run| + 2);
        assert (run + more)[..|run| + 2] == run + [more[0]] + [more[1]];
        RunNext(config, run + [more[0]], more[1]);
        assert false;
      }
    }
  }

  /** Its completion, either way, ends the half-open phase. */
  lemma CompletionEndsHalfOpen(config: Config, run: seq<Turn>, turn: Turn)
    requires Replay(config, Events(run)).phase == HalfOpen && !turn.event.Admission?
    ensures Replay(config, Events(run + [turn])).phase != HalfOpen
  {
    hide Replay;
    RunNext(config, run, turn);
    HistoryNext(config, Events(run), turn.event);
  }

  /**
   * The comment on `CircuitBreaker` promises that after the timeout one trial call decides whether to
   * close again or re-open.  The trial decides, in every continuation, if and only if it is the only
   * call to arrive before a completion and no call admitted earlier is still in flight.
   */
  lemma TrialDecidesIffAlone(config: Config, run: seq<Turn>, arrivals: seq<Turn>)
    requires TrialsBegin(config, run, arrivals) && arrivals != []
    ensures TrialDecides(config, run, arrivals) <==> |arrivals| == 1 && InFlight(config, run) == {}
  {
    var begun, trial := run + arrivals, arrivals[0].call;
    ArrivalsTakeOff(config, run, arrivals);
    ArrivalsAreNew(config, run, arrivals);
    InFlightArrived(config, run);
    assert trial in Arrived(arrivals);
    TrialsHalfOpen(config, run, arrivals);
    if |arrivals| > 1 {
      assert arrivals[1].call in Arrived(arrivals) && arrivals[0].call != arrivals[1].call;
      OtherCompletionDecides(config, begun, trial, arrivals[1].call);
    } else if InFlight(config, run) != {} {
      var older :| older in InFlight(config, run);
      OtherCompletionDecides(config, begun, trial, older);
    } else {
      forall more | Completions(config, begun, more)
        ensures Replay(config, Events(begun + more)).phase == HalfOpen <==> trial !in Arrived(more)
      {
        OnlyTheTrialCompletes(config, begun, trial, more);
        if more == [] {
          assert begun + more == begun;
        } else {
          assert more == [more[0]];
          OneArrived(more[0]);
          CompletionEndsHalfOpen(config, begun, more[0]);
        }
      }
    }
  }

  /** Where a run has got to: the fields, the calls that have arrived and those in flight. */
  predicate At(config: Config, run: seq<Turn>, core: Core, arrived: set<nat>, flying: set<nat>) {
    && Possible(config, run) && Replay(config, Events(run)) == core
    && Arrived(run) == arrived && InFlight(config, run) == flying
  }

  lemma TurnTo(config: Config, run: seq<Turn>, core: Core, arrived: set<nat>, flying: set<nat>, turn: Turn,
               run': seq<Turn>, core': Core, arrived': set<nat>, flying': set<nat>)
    requires At(config, run, core, arrived, flying)
    requires if turn.event.Admission? then turn.call !in arrived else turn.call in flying
    requires run' == run + [turn] && core' == Step(config, core, turn.event)
    requires arrived' == arrived + {turn.call} && flying' == Flying(config, core, flying, turn)
    ensures At(config, run', core', arrived', flying')
  {
    hide Replay, Possible, Arrived, InFlight;
    RunNext(config, run, turn);
    InFlightNext(config, run, turn);
    HistoryNext(config, Events(run), turn.event);
  }

  lemma NothingYet(config: Config)
    ensures At(config, [], INITIAL, {}, {})
  {}

  /** Two calls start together and the first fails: open, with the second still in flight. */
  lemma OpenWithOneInFlight()
    ensures At(Config(1, 5), [Turn(0, Admission(0)), Turn(1, Admission(0)), Turn(0, Failure(1))],
               Core(Open, 1, Some(1)), {0, 1}, {1})
  {
    hide At;
    var config, first, second := Config(1, 5), Turn(0, Admission(0)), Turn(1, Admission(0));
    var failed := Turn(0, Failure(1));
    NothingYet(config);
    TurnTo(config, [], INITIAL, {}, {}, first, [first], INITIAL, {0}, {0});
    TurnTo(config, [first], INITIAL, {0}, {0}, second, [first, second], INITIAL, {0, 1}, {0, 1});
    TurnTo(config, [first, second], INITIAL, {0, 1}, {0, 1}, failed,
           [first, second, failed], Core(Open, 1, Some(1)), {0, 1}, {1});
  }

  /** A trial starts, the older call fails late, and a second trial starts beside the first. */
  lemma SecondTrialStarts(run: seq<Turn>)
    requires At(Config(1, 5), run, Core(Open, 1, Some(1)), {0, 1}, {1})
    ensures At(Config(1, 5), run + [Turn(2, Admission(6))], Core(HalfOpen, 1, Some(1)), {0, 1, 2}, {1, 2})
    ensures At(Config(1, 5), run + [Turn(2, Admission(6))] + [Turn(1, Failure(7))] + [Turn(3, Admission(12))],
               Core(HalfOpen, 2, Some(7)), {0, 1, 2, 3}, {2, 3})
  {
    hide At;
    var config, trial := Config(1, 5), Turn(2, Admission(6));
    var late, another := Turn(1, Failure(7)), Turn(3, Admission(12));
    TurnTo(config, run, Core(Open, 1, Some(1)), {0, 1}, {1}, trial,
           run + [trial], Core(HalfOpen, 1, Some(1)), {0, 1, 2}, {1, 2});
    TurnTo(config, run + [trial], Core(HalfOpen, 1, Some(1)), {0, 1, 2}, {1, 2}, late,
           run + [trial] + [late], Core(Open, 2, Some(7)), {0, 1, 2}, {2});
    TurnTo(config, run + [trial] + [late], Core(Open, 2, Some(7)), {0, 1, 2}, {2}, another,
           run + [trial] + [late] + [another], Core(HalfOpen, 2, Some(7)), {0, 1, 2, 3}, {2, 3});
  }

  /** One arrival is not enough: the late failure of an older call brings a second trial beside the first. */
  lemma LateFailureBringsSecondTrial() returns (config: Config, run: seq<Turn>, trial: Turn, late: Turn, another: Turn)
    ensures TrialsBegin(config, run, [trial])
    ensures Possible(config, run + [trial] + [late] + [another])
    ensures Monotone(Events(run + [trial] + [late] + [another]))
    ensures late.event.Failure? && late.call != trial.call && another.event.Admission?
    ensures trial.call != another.call
    ensures InFlight(config, run + [trial] + [late] + [another]) == {trial.call, another.call}
    ensures Replay(config, Events(run + [trial] + [late] + [another])).phase == HalfOpen
  {
    hide Possible, Replay, InFlight, Arrived, FailureRun, LatestFailure, CounterFits;
    config := Config(1, 5);
    run := [Turn(0, Admission(0)), Turn(1, Admission(0)), Turn(0, Failure(1))];
    trial, late, another := Turn(2, Admission(6)), Turn(1, Failure(7)), Turn(3, Admission(12));
    OpenWithOneInFlight();
    SecondTrialStarts(run);
    OpenHistory();
    assert Events(run) == [Admission(0), Admission(0), Failure(1)];
  }

  lemma OpenHistory()
    ensures var history := [Admission(0), Admission(0), Failure(1)];
            FailureRun(history) == 1 && LatestFailure(history) == 1 && CounterFits(history)
  {
    var history := [Admission(0), Admission(0), Failure(1)];
    HistoryNext(Config(1, 5), [], Admission(0));
    HistoryNext(Config(1, 5), [Admission(0)], Admission(0));
    HistoryNext(Config(1, 5), [Admission(0), Admission(0)], Failure(1));
    assert [] + [Admission(0)] == [Admission(0)];
    assert [Admission(0)] + [Admission(0)] + [Failure(1)] == history;
    forall n | 0 <= n <= |history| ensures FailureRun(history[..n]) <= U32_RANGE - 1 {
      RunIsAtMostLength(history[..n]);
    }
  }

  lemma {:induction false} RunIsAtMostLength(history: seq<Event>)
    ensures FailureRun(history) <= |history|
  {
    if history != [] {
      RunIsAtMostLength(history[..|history| - 1]);
    }
  }

  // ----- when the counter's width matters

  /** In every possible run without more than `longest` failures in a row, rejection is the history's. */
  ghost predicate AlwaysRefines(config: Config, longest: nat) {
    forall run, now :: LegalRun(config, run, longest, now) ==>
      (Rejects(config, Events(run), now) <==> OutageInForce(config, Events(run), now))
  }

  predicate LegalRun(config: Config, run: seq<Turn>, longest: nat, now: nat) {
    && Possible(config, run) && Monotone(Events(run)) && NotAfter(Events(run), now)
    && RunsAtMost(Events(run), longest)
  }

  /** `n` calls admitted at time 0, of which the first `m` have failed at once. */
  function Volley(n: nat, m: nat): (run: seq<Turn>)
    requires m <= n
    ensures |run| == n + m
    ensures forall i :: 0 <= i < n ==> run[i] == Turn(i, Admission(0))
    ensures forall i :: n <= i < n + m ==> run[i] == Turn(i - n, Failure(0))
  {
    seq(n + m, i requires 0 <= i < n + m => if i < n then Turn(i, Admission(0)) else Turn(i - n, Failure(0)))
  }

  function Below(m: nat, n: nat): (s: set<nat>)
    ensures forall i :: i in s <==> m <= i < n
  {
    if n <= m then {} else Below(m, n - 1) + {n - 1}
  }

  lemma {:induction false} VolleyTakesOff(config: Config, n: nat)
    ensures At(config, Volley(n, 0), INITIAL, Below(0, n), Below(0, n))
  {
    hide At;
    if n == 0 {
      NothingYet(config);
      assert Volley(0, 0) == [] && Below(0, 0) == {};
    } else {
      VolleyTakesOff(config, n - 1);
      TurnTo(config, Volley(n - 1, 0), INITIAL, Below(0, n - 1), Below(0, n - 1), Turn(n - 1, Admission(0)),
             Volley(n, 0), INITIAL, Below(0, n), Below(0, n));
    }
  }

  /** The fields after `m` failures at time 0. */
  function Battered(config: Config, m: nat): Core
    requires m < U32_RANGE
  {
    if m < config.failureThreshold then Core(Closed, m, None) else Core(Open, m, Some(0))
  }

  lemma {:induction false} VolleyLands(config: Config, n: nat, m: nat)
    requires m <= n && m < U32_RANGE && config.failureThreshold >= 1
    ensures At(config, Volley(n, m), Battered(config, m), Below(0, n), Below(m, n))
    ensures FailureRun(Events(Volley(n, m))) == m
  {
    hide At, FailureRun, Below;
    if m == 0 {
      VolleyTakesOff(config, n);
      NoFailures(n);
    } else {
      var last := Turn(m - 1, Failure(0));
      VolleyLands(config, n, m - 1);
      TurnTo(config, Volley(n, m - 1), Battered(config, m - 1), Below(0, n), Below(m - 1, n), last,
             Volley(n, m), Battered(config, m), Below(0, n), Below(m, n));
      RunNext(config, Volley(n, m - 1), last);
      HistoryNext(config, Events(Volley(n, m - 1)), last.event);
    }
  }

  lemma {:induction false} NoFailures(n: nat)
    ensures FailureRun(Events(Volley(n, 0))) == 0
  {
    if n > 0 {
      NoFailures(n - 1);
      var history := Events(Volley(n, 0));
      assert history[..|history| - 1] == Events(Volley(n - 1, 0));
    }
  }

  /** Without a success in between, runs only grow. */
  lemma {:induction false} RunsGrow(history: seq<Event>, n: nat)
    requires n <= |history| && forall i :: 0 <= i < |history| ==> !history[i].Success?
    ensures FailureRun(history[..n]) <= FailureRun(history)
  {
    if n < |history| {
      RunsGrow(history[..|history| - 1], n);
      assert history[..|history| - 1][..n] == history[..n];
    } else {
      assert history[..n] == history;
    }
  }

  /**
   * Past the counter's width the refinement fails for every threshold and timeout above zero: 2^32 calls
   * are admitted together, all but one fail at once, and the last fails when the timeout is up.  The
   * counter wraps to 0 in that failure, which therefore leaves `opened_at` alone.
   */
  lemma WrappedCounterLosesAFailure(config: Config) returns (run: seq<Turn>, now: nat)
    requires config.failureThreshold >= 1 && config.resetTimeout >= 1
    ensures LegalRun(config, run, U32_RANGE, now) && FailureRun(Events(run)) == U32_RANGE
    ensures OutageInForce(config, Events(run), now) && !Rejects(config, Events(run), now)
  {
    hide At, Below, FailureRun, Possible, Replay, Rejects, OutageInForce;
    var n, volley := U32_RANGE, Volley(U32_RANGE, U32_RANGE - 1);
    var last := Turn(n - 1, Failure(config.resetTimeout));
    VolleyLands(config, n, n - 1);
    run, now := volley + [last], config.resetTimeout;
    LastOfVolley(config, volley, last);
    RunNext(config, volley, last);
    assert Events(run) == Events(volley) + [last.event];
    forall i, j | 0 <= i < j < |Events(run)| ensures Events(run)[i].at <= Events(run)[j].at {
      assert Events(run)[i].at == 0;
    }
    forall k | 0 <= k <= |Events(run)| ensures FailureRun(Events(run)[..k]) <= n {
      RunsGrow(Events(run), k);
    }
  }

  lemma LastOfVolley(config: Config, volley: seq<Turn>, last: Turn)
    requires config.failureThreshold >= 1 && config.resetTimeout >= 1
    requires At(config, volley, Battered(config, U32_RANGE - 1), Below(0, U32_RANGE), Below(U32_RANGE - 1, U32_RANGE))
    requires last == Turn(U32_RANGE - 1, Failure(config.resetTimeout))
    requires FailureRun(Events(volley)) == U32_RANGE - 1
    ensures Possible(config, volley + [last]) && FailureRun(Events(volley + [last])) == U32_RANGE
    ensures OutageInForce(config, Events(volley + [last]), config.resetTimeout)
    ensures !Rejects(config, Events(volley + [last]), config.resetTimeout)
  {
    hide Possible, Replay, InFlight, Arrived, FailureRun, LatestFailure;
    RunNext(config, volley, last);
    HistoryNext(config, Events(volley), last.event);
  }

  /** A threshold of 0 opens at every failure, whatever the counter says. */
  lemma {:induction false} ZeroThresholdAgrees(config: Config, history: seq<Event>)
    requires config.failureThreshold == 0 && Monotone(history)
    ensures var core := Replay(config, history);
            && (core.phase == Closed <==> FailureRun(history) == 0)
            && (core.phase != Closed ==> core.openedAt == Some(LatestFailure(history)))
            && (core.phase == HalfOpen ==> OutlastsTimeout(config, history))
  {
    if history != [] {
      var before, event := history[..|history| - 1], history[|history| - 1];
      assert history == before + [event];
      MonotoneInit(before, event);
      ZeroThresholdAgrees(config, before);
      LatestFailureIsPast(before, event.at);
      if Replay(config, history).phase == HalfOpen {
        OutlastsNext(config, before, event);
      }
    }
  }

  lemma ZeroTimeoutNeverRejects(config: Config, history: seq<Event>, now: nat)
    requires config.resetTimeout == 0 && NotAfter(history, now)
    ensures !Rejects(config, history, now) && !OutageInForce(config, history, now)
  {
    LatestFailureIsPast(history, now);
  }

  /**
   * The `u32` counter suffices for runs of up to `longest` failures if and only if they are fewer than
   * 2^32, or the threshold or the timeout is zero.
   */
  lemma RefinesIffCounterFits(config: Config, longest: nat)
    ensures AlwaysRefines(config, longest)
       <==> longest < U32_RANGE || config.failureThreshold == 0 || config.resetTimeout == 0
  {
    if longest < U32_RANGE || config.failureThreshold == 0 || config.resetTimeout == 0 {
      forall run, now | LegalRun(config, run, longest, now)
        ensures Rejects(config, Events(run), now) <==> OutageInForce(config, Events(run), now)
      {
        var history := Events(run);
        if config.resetTimeout == 0 {
          ZeroTimeoutNeverRejects(config, history, now);
        } else if config.failureThreshold == 0 {
          ZeroThresholdAgrees(config, history);
          LatestFailureIsPast(history, now);
        } else {
          BreakerRefinesHistory(config, history, now);
        }
      }
    } else {
      var run, now := WrappedCounterLosesAFailure(config);
      assert LegalRun(config, run, longest, now);
    }
  }

  // ----- calls one at a time

  /** No two calls are ever in flight together. */
  predicate OneAtATime(config: Config, run: seq<Turn>) {
    forall n :: 0 <= n <= |run| ==> |InFlight(config, run[..n])| <= 1
  }

  /** The invariant of such runs: the counter counts while the breaker is closed, and nobody flies while it is open. */
  predicate Sequential(config: Config, run: seq<Turn>) {
    var core, history := Replay(config, Events(run)), Events(run);
    && (core.phase == Closed ==> core.failureCount == FailureRun(history))
    && (core.phase == Closed <==> FailureRun(history) < TripRun(config))
    && (core.phase != Closed ==> core.openedAt == Some(LatestFailure(history)))
    && (core.phase == Open ==> InFlight(config, run) == {})
    && (core.phase == HalfOpen ==> OutlastsTimeout(config, history))
  }

  lemma TurnKeepsSequential(config: Config, run: seq<Turn>, turn: Turn)
    requires Sequential(config, run) && |InFlight(config, run)| <= 1 && MayTake(config, run, turn)
    requires NotAfter(Events(run), turn.event.at)
    ensures Sequential(config, run + [turn])
  {
    hide Possible, Arrived, Replay, FailureRun, LatestFailure, OutlastsTimeout, InFlight, NotAfter;
    var history, flying := Events(run), InFlight(config, run);
    RunNext(config, run, turn);
    HistoryNext(config, history, turn.event);
    InFlightNext(config, run, turn);
    LatestFailureIsPast(history, turn.event.at);
    if turn.call in flying {
      OnlyMember(flying, turn.call);
    }
    if Replay(config, Events(run + [turn])).phase == HalfOpen {
      OutlastsNext(config, history, turn.event);
    }
  }

  lemma OnlyMember(s: set<nat>, x: nat)
    requires x in s && |s| <= 1
    ensures s - {x} == {}
  {
    assert |s - {x}| == |s| - 1;
  }

  lemma {:induction false} SequentialHolds(config: Config, run: seq<Turn>)
    requires Possible(config, run) && Monotone(Events(run)) && OneAtATime(config, run)
    ensures Sequential(config, run)
  {
    if run != [] {
      var before, turn := run[..|run| - 1], run[|run| - 1];
      assert run == before + [turn];
      RunNext(config, before, turn);
      MonotoneInit(Events(before), turn.event);
      forall n | 0 <= n <= |before| ensures |InFlight(config, before[..n])| <= 1 {
        assert before[..n] == run[..n];
      }
      assert before[..|before|] == before;
      SequentialHolds(config, before);
      TurnKeepsSequential(config, before, turn);
    }
  }

  /**
   * While calls do not overlap the counter's width never matters: rejection is the history's for runs of
   * any length.
   */
  lemma SequentialCallsRefine(config: Config, run: seq<Turn>, now: nat)
    requires Possible(config, run) && Monotone(Events(run)) && OneAtATime(config, run)
    requires NotAfter(Events(run), now)
    ensures Rejects(config, Events(run), now) <==> OutageInForce(config, Events(run), now)
  {
    hide OneAtATime, Possible, Monotone;
    SequentialHolds(config, run);
    LatestFailureIsPast(Events(run), now);
  }
}
