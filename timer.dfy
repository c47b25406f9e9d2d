/**
 * The stop-flag periodic loop of the MyTimer thread: wait on a stop event for
 * one period; if the wait timed out, call the task and wait again; stop at the
 * first wait that reports the event set.
 *
 * The concurrent world is replaced by oracles. The event's waits are driven by
 * a finite sequence `sets`: `sets[i]` says whether another thread sets the
 * event before the i-th wait times out. The task's exceptions are given by
 * `raisesOn(n)`: whether its n-th call raises. A run that uses up `sets`
 * without stopping is still running at the end of the observed horizon.
 */
module Utility {

  /** A threading event: a flag that, once set, stays set. */
  class StopEvent {
    var isSet: bool

    constructor ()
      ensures !isSet
    {
      isSet := false;
    }

    method Set()
      modifies this
      ensures isSet
    {
      isSet := true;
    }

    /**
     * Wait for at most `timeout`; `setMeanwhile` is whether another thread
     * sets the event before the timeout runs out. Reports whether the event
     * is set when the wait ends.
     */
    method Wait(timeout: real, setMeanwhile: bool) returns (fired: bool)
      modifies this
      ensures fired == (old(isSet) || setMeanwhile)
      ensures isSet == fired
    {
      isSet := isSet || setMeanwhile;
      fired := isSet;
    }
  }

  /** The callable a timer runs: its side effects are opaque, only whether a call raises matters. */
  class Task {
    const raisesOn: nat -> bool
    var calls: nat

    constructor (raisesOn: nat -> bool)
      ensures this.raisesOn == raisesOn && calls == 0
    {
      this.raisesOn := raisesOn;
      calls := 0;
    }

    /** One call; reports whether it raised. */
    method Call() returns (raised: bool)
      modifies this
      ensures calls == old(calls) + 1
      ensures raised == raisesOn(old(calls))
    {
      raised := raisesOn(calls);
      calls := calls + 1;
    }
  }

  /** One observable step of a run: a wait with its period and result, or a task call. */
  datatype Step = Waited(period: real, fired: bool) | Called(call: nat, raised: bool)

  /** How a run ends: the stop was seen, the task raised, or the horizon was reached first. */
  datatype RunExit = StopObserved | TaskRaised(call: nat) | StillRunning

  /**
   * The steps of a run with period `period`, on an event whose flag is
   * `isSet` at the start, whose task has already been called `n` times.
   */
  function Trace(period: real, isSet: bool, sets: seq<bool>, raisesOn: nat -> bool, n: nat): seq<Step>
    decreases |sets|
  {
    if sets == [] then []
    else if isSet || sets[0] then [Waited(period, true)]
    else if raisesOn(n) then [Waited(period, false), Called(n, true)]
    else [Waited(period, false), Called(n, false)] + Trace(period, false, sets[1..], raisesOn, n + 1)
  }

  /** A wait that finds the event set is the run's last step. */
  lemma {:induction false} StopStep(period: real, start: bool, sets: seq<bool>, raisesOn: nat -> bool, n: nat, i: nat, steps: seq<Step>)
    requires i < |sets| && (start || sets[i])
    ensures steps + Trace(period, start, sets[i..], raisesOn, n) == steps + [Waited(period, true)]
  {
    assert sets[i..][0] == sets[i];
  }

  /** A timed-out wait followed by a call that raises ends the run. */
  lemma {:induction false} RaisingCallStep(period: real, start: bool, sets: seq<bool>, raisesOn: nat -> bool, n: nat, i: nat, steps: seq<Step>)
    requires i < |sets| && !start && !sets[i] && raisesOn(n)
    ensures steps + Trace(period, start, sets[i..], raisesOn, n) == steps + [Waited(period, false), Called(n, true)]
  {
    assert sets[i..][0] == sets[i];
  }

  /** A timed-out wait followed by a call that returns is followed by the rest of the run. */
  lemma {:induction false} ReturningCallStep(period: real, start: bool, sets: seq<bool>, raisesOn: nat -> bool, n: nat, i: nat, steps: seq<Step>)
    requires i < |sets| && !start && !sets[i] && !raisesOn(n)
    ensures steps + Trace(period, start, sets[i..], raisesOn, n)
            == (steps + [Waited(period, false), Called(n, false)]) + Trace(period, start, sets[i + 1..], raisesOn, n + 1)
  {
    assert sets[i..][0] == sets[i] && sets[i..][1..] == sets[i + 1..];
  }

  /** How a run with these steps ended: decided by its last step. */
  function ExitOf(steps: seq<Step>): RunExit
  {
    if steps == [] then StillRunning
    else match steps[|steps| - 1]
      case Waited(_, fired) => if fired then StopObserved else StillRunning
      case Called(n, raised) => if raised then TaskRaised(n) else StillRunning
  }

  /** The number of task calls among the steps. */
  function CallCount(steps: seq<Step>): nat
  {
    if steps == [] then 0
    else (if steps[0].Called? then 1 else 0) + CallCount(steps[1..])
  }

  lemma {:induction false} CallCountAppend(a: seq<Step>, b: seq<Step>)
    ensures CallCount(a + b) == CallCount(a) + CallCount(b)
  {
    if a == [] {
      assert a + b == b;
    } else {
      assert (a + b)[1..] == a[1..] + b;
      CallCountAppend(a[1..], b);
    }
  }

  /** A timed-out wait and the call after it add one call, and the call decides how the run stands. */
  lemma {:induction false} CycleAppended(steps: seq<Step>, period: real, call: nat, raised: bool)
    ensures CallCount(steps + [Waited(period, false), Called(call, raised)]) == CallCount(steps) + 1
    ensures ExitOf(steps + [Waited(period, false), Called(call, raised)])
      == if raised then TaskRaised(call) else StillRunning
  {
    CallCountAppend(steps, [Waited(period, false), Called(call, raised)]);
    assert [Waited(period, false), Called(call, raised)][1..] == [Called(call, raised)];
    assert [Called(call, raised)][1..] == [];
    assert CallCount([Called(call, raised)]) == 1;
  }

  /** A wait that finds the event set adds no call and ends the run with the stop seen. */
  lemma {:induction false} StopAppended(steps: seq<Step>, period: real)
    ensures CallCount(steps + [Waited(period, true)]) == CallCount(steps)
    ensures ExitOf(steps + [Waited(period, true)]) == StopObserved
  {
    CallCountAppend(steps, [Waited(period, true)]);
    assert [Waited(period, true)][1..] == [];
  }

  /** The number of waits that time out before the event is seen set. */
  function LeadingTimeouts(isSet: bool, sets: seq<bool>): nat
    decreases |sets|
  {
    if isSet || sets == [] || sets[0] then 0 else 1 + LeadingTimeouts(false, sets[1..])
  }

  /**
   * What a run's step at index i must be: even steps are waits with the
   * timer's own period; an odd step is the task's call number n + i / 2 and
   * directly follows a wait that timed out; and only the last step may be a
   * wait that saw the event set or a call that raised, so nothing happens
   * after either.
   */
  ghost predicate StepShaped(steps: seq<Step>, i: nat, period: real, raisesOn: nat -> bool, n: nat)
    requires i < |steps|
  {
    (i % 2 == 0 ==> steps[i].Waited? && steps[i].period == period)
    && (i % 2 == 1 ==>
          steps[i - 1] == Waited(period, false) && steps[i] == Called(n + i / 2, raisesOn(n + i / 2)))
    && (i < |steps| - 1 ==> steps[i] == Waited(period, false) || (steps[i].Called? && !steps[i].raised))
  }

  ghost predicate WellShaped(steps: seq<Step>, period: real, raisesOn: nat -> bool, n: nat)
  {
    forall i: nat :: i < |steps| ==> StepShaped(steps, i, period, raisesOn, n)
  }

  /**
   * Every run is well shaped: calls alternate with timed-out waits of the
   * same period, are numbered in order, and none follows the stop or a raise.
   */
  lemma {:induction false} TraceWellShaped(period: real, isSet: bool, sets: seq<bool>, raisesOn: nat -> bool, n: nat)
    ensures WellShaped(Trace(period, isSet, sets, raisesOn, n), period, raisesOn, n)
    decreases |sets|
  {
    var t := Trace(period, isSet, sets, raisesOn, n);
    if sets != [] && !isSet && !sets[0] && !raisesOn(n) {
      var rest := Trace(period, false, sets[1..], raisesOn, n + 1);
      TraceWellShaped(period, false, sets[1..], raisesOn, n + 1);
      assert t == [Waited(period, false), Called(n, false)] + rest;
      forall i: nat | i < |t|
        ensures StepShaped(t, i, period, raisesOn, n)
      {
        if i >= 2 {
          assert StepShaped(rest, i - 2, period, raisesOn, n + 1);
          assert t[i] == rest[i - 2];
          assert (i - 2) % 2 == i % 2 && n + 1 + (i - 2) / 2 == n + i / 2;
          if i % 2 == 1 {
            assert t[i - 1] == rest[i - 3];
          }
        }
      }
    } else {
      forall i: nat | i < |t|
        ensures StepShaped(t, i, period, raisesOn, n)
      {
      }
    }
  }

  /** A run whose first wait finds the event set makes no call and does not raise. */
  lemma {:induction false} FirstWaitStops(period: real, isSet: bool, sets: seq<bool>, raisesOn: nat -> bool, n: nat)
    requires sets == [] || isSet || sets[0]
    ensures CallCount(Trace(period, isSet, sets, raisesOn, n)) == 0
    ensures !ExitOf(Trace(period, isSet, sets, raisesOn, n)).TaskRaised?
  {
    var t := Trace(period, isSet, sets, raisesOn, n);
    if t != [] {
      assert t[1..] == [];
    }
  }

  /** A run whose first call raises makes that one call and ends with it. */
  lemma {:induction false} FirstCallRaises(period: real, isSet: bool, sets: seq<bool>, raisesOn: nat -> bool, n: nat)
    requires sets != [] && !isSet && !sets[0] && raisesOn(n)
    ensures CallCount(Trace(period, isSet, sets, raisesOn, n)) == 1
    ensures ExitOf(Trace(period, isSet, sets, raisesOn, n)) == TaskRaised(n)
  {
    CycleAppended([], period, n, true);
    assert [] + [Waited(period, false), Called(n, true)] == Trace(period, isSet, sets, raisesOn, n);
  }

  /** A run whose first call returns makes one call more than the rest of the run, and ends as the rest does. */
  lemma {:induction false} FirstCallReturns(period: real, isSet: bool, sets: seq<bool>, raisesOn: nat -> bool, n: nat)
    requires sets != [] && !isSet && !sets[0] && !raisesOn(n)
    ensures CallCount(Trace(period, isSet, sets, raisesOn, n)) == 1 + CallCount(Trace(period, false, sets[1..], raisesOn, n + 1))
    ensures ExitOf(Trace(period, isSet, sets, raisesOn, n)) == ExitOf(Trace(period, false, sets[1..], raisesOn, n + 1))
  {
    var cycle := [Waited(period, false), Called(n, false)];
    var rest := Trace(period, false, sets[1..], raisesOn, n + 1);
    var t := Trace(period, isSet, sets, raisesOn, n);
    assert t == cycle + rest;
    CycleAppended([], period, n, false);
    assert [] + cycle == cycle;
    CallCountAppend(cycle, rest);
    if rest != [] {
      assert t[|t| - 1] == rest[|rest| - 1];
    }
  }

  /**
   * The task is called once for each leading timed-out wait, up to and
   * including the first call that raises. If no call raises, the run makes
   * exactly as many calls as there are leading timeouts; if call c raises,
   * the run ends with it, after c - n + 1 calls, none of the earlier ones
   * having raised.
   */
  lemma {:induction false} CallsMatchTimeouts(period: real, isSet: bool, sets: seq<bool>, raisesOn: nat -> bool, n: nat)
    ensures var t := Trace(period, isSet, sets, raisesOn, n);
            CallCount(t) <= LeadingTimeouts(isSet, sets)
            && (ExitOf(t).TaskRaised? ==>
                  var c := ExitOf(t).call;
                  n <= c < n + LeadingTimeouts(isSet, sets) && raisesOn(c) && CallCount(t) == c - n + 1
                  && forall j :: n <= j < c ==> !raisesOn(j))
            && (!ExitOf(t).TaskRaised? ==>
                  CallCount(t) == LeadingTimeouts(isSet, sets)
                  && forall j :: n <= j < n + CallCount(t) ==> !raisesOn(j))
    decreases |sets|
  {
    if sets == [] || isSet || sets[0] {
      FirstWaitStops(period, isSet, sets, raisesOn, n);
    } else if raisesOn(n) {
      FirstCallRaises(period, isSet, sets, raisesOn, n);
    } else {
      FirstCallReturns(period, isSet, sets, raisesOn, n);
      CallsMatchTimeouts(period, false, sets[1..], raisesOn, n + 1);
    }
  }

  /**
   * Each wait of a run uses up one outcome, in order: the k-th wait (step
   * 2 * k) reports the k-th outcome, and the first wait also reports a flag
   * that was already set when the run started.
   */
  lemma {:induction false} WaitReportsOutcome(period: real, isSet: bool, sets: seq<bool>, raisesOn: nat -> bool, n: nat, k: nat)
    requires 2 * k < |Trace(period, isSet, sets, raisesOn, n)|
    ensures k < |sets|
    ensures Trace(period, isSet, sets, raisesOn, n)[2 * k] == Waited(period, (k == 0 && isSet) || sets[k])
    decreases k
  {
    if k > 0 {
      var rest := Trace(period, false, sets[1..], raisesOn, n + 1);
      assert Trace(period, isSet, sets, raisesOn, n) == [Waited(period, false), Called(n, false)] + rest;
      WaitReportsOutcome(period, false, sets[1..], raisesOn, n + 1, k - 1);
      assert sets[1..][k - 1] == sets[k];
    }
  }

  /**
   * The run ends with the stop seen exactly when, within the horizon, some
   * wait finds the event set and none of the calls before that wait raised:
   * the stop is taken at the first wait that finds the event set.
   */
  lemma {:induction false} StopSeenAtFirstSetWait(period: real, isSet: bool, sets: seq<bool>, raisesOn: nat -> bool, n: nat)
    ensures ExitOf(Trace(period, isSet, sets, raisesOn, n)) == StopObserved <==>
              LeadingTimeouts(isSet, sets) < |sets|
              && forall j :: n <= j < n + LeadingTimeouts(isSet, sets) ==> !raisesOn(j)
    decreases |sets|
  {
    if sets != [] && !isSet && !sets[0] && !raisesOn(n) {
      StopSeenAtFirstSetWait(period, false, sets[1..], raisesOn, n + 1);
      var rest := Trace(period, false, sets[1..], raisesOn, n + 1);
      assert rest != [] ==> ExitOf([Waited(period, false), Called(n, false)] + rest) == ExitOf(rest);
    }
  }

  /** A run that finds the event already set calls the task never. */
  lemma AlreadySetNoCalls(period: real, sets: seq<bool>, raisesOn: nat -> bool, n: nat)
    ensures CallCount(Trace(period, true, sets, raisesOn, n)) == 0
    ensures sets != [] ==> ExitOf(Trace(period, true, sets, raisesOn, n)) == StopObserved
  {
  }

  /**
   * Observing a run for longer only extends what was seen: the steps over
   * `sets` are a prefix of the steps over `sets + more`, and a run that had
   * already stopped or raised does nothing more.
   */
  lemma {:induction false} LongerHorizonExtends(period: real, isSet: bool, sets: seq<bool>, more: seq<bool>, raisesOn: nat -> bool, n: nat)
    ensures Trace(period, isSet, sets, raisesOn, n) <= Trace(period, isSet, sets + more, raisesOn, n)
    ensures ExitOf(Trace(period, isSet, sets, raisesOn, n)) != StillRunning ==>
              Trace(period, isSet, sets + more, raisesOn, n) == Trace(period, isSet, sets, raisesOn, n)
    decreases |sets|
  {
    if sets != [] {
      assert (sets + more)[0] == sets[0];
      assert (sets + more)[1..] == sets[1..] + more;
      if !isSet && !sets[0] && !raisesOn(n) {
        LongerHorizonExtends(period, false, sets[1..], more, raisesOn, n + 1);
        var rest := Trace(period, false, sets[1..], raisesOn, n + 1);
        assert rest != [] ==> ExitOf([Waited(period, false), Called(n, false)] + rest) == ExitOf(rest);
      }
    }
  }

  /** The timer thread: a period, the stop event it waits on, and the task it calls. */
  class MyTimer {
    const period: real
    const stopped: StopEvent
    const func: Task

    constructor (period: real, event: StopEvent, func: Task)
      ensures this.period == period && stopped == event && this.func == func
    {
      this.period := period;
      stopped := event;
      this.func := func;
    }

    /**
     * The thread body, run until the stop is seen, the task raises, or the
     * observed horizon `sets` is used up.
     */
    method Run(sets: seq<bool>) returns (exit: RunExit, ghost steps: seq<Step>)
      modifies stopped, func
      ensures steps == Trace(period, old(stopped.isSet), sets, func.raisesOn, old(func.calls))
      ensures exit == ExitOf(steps)
      ensures func.calls == old(func.calls) + CallCount(steps)
      ensures stopped.isSet == (old(stopped.isSet) || exit == StopObserved)
    {
      ghost var start := stopped.isSet;
      var n0 := func.calls;
      steps := [];
      var i, n := 0, n0;
      while i < |sets|
        invariant 0 <= i <= |sets| && n == n0 + i
        invariant stopped.isSet == start && (i > 0 ==> !start)
        invariant func.calls == n && CallCount(steps) == i
        invariant ExitOf(steps) == StillRunning
        invariant steps + Trace(period, start, sets[i..], func.raisesOn, n)
          == Trace(period, start, sets, func.raisesOn, n0)
      {
        var fired := stopped.Wait(period, sets[i]);
        if fired {
          StopStep(period, start, sets, func.raisesOn, n, i, steps);
          StopAppended(steps, period);
          steps := steps + [Waited(period, true)];
          exit := StopObserved;
          return;
        }
        var raised := func.Call();
        CycleAppended(steps, period, n, raised);
        if raised {
          RaisingCallStep(period, start, sets, func.raisesOn, n, i, steps);
          steps := steps + [Waited(period, false), Called(n, true)];
          exit := TaskRaised(n);
          return;
        }
        ReturningCallStep(period, start, sets, func.raisesOn, n, i, steps);
        steps := steps + [Waited(period, false), Called(n, false)];
        i, n := i + 1, n + 1;
      }
      assert sets[i..] == [];
      exit := StillRunning;
    }
  }
}
