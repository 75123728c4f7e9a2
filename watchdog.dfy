/** The reset-on-activity watchdog of pkg/inactivity/watchdog.go.

    The `watch` goroutine is a state machine over four phases. Each pass of its
    `for { select }` loop is one event; when several `select` cases are ready
    Go picks any of them, so the model lets any enabled event happen next.
    Requests, `Stop` and the loop are sequentialised into one stream of events.
    Time is a natural-number clock passed to the events that read it.

    The one-slot `resetCh` is the flag `resetPending`, the `WaitGroup` is the
    counter `activeReqs`, `sync.Once` is the flag `once` and the context is the
    flag `cancelled`. Ghost counters record how many times `cancel` and
    `shutdownFn` were called, and how many requests have sent their reset
    signal but not yet joined the `WaitGroup`. */
module Watchdog {

  /** Where `watch` is: selecting, blocked in `activeReqs.Wait()`, returned
      after `shutdownFn`, returned after cancellation. */
  datatype Phase = Armed | Draining | Done | Stopped

  datatype State = State(
    phase: Phase,
    deadline: int,        // when the loop's timer expires
    resetPending: bool,   // the one slot of resetCh is full
    entering: int,        // requests past their send, before activeReqs.Add(1)
    activeReqs: int,      // the WaitGroup counter
    once: bool,           // Stop's sync.Once has run
    cancelled: bool,      // the context is cancelled
    cancelCalls: nat,     // times cancel ran
    shutdownCalls: nat)   // times shutdownFn ran

  /** `NewWatchdog` at time `now`: the loop starts with a timer for `timeout`,
      which is not validated. */
  function Created(timeout: int, now: nat): State {
    State(Armed, now + timeout, false, 0, 0, false, false, 0, 0)
  }

  /** The events: a request's blocking send on `resetCh`, its
      `activeReqs.Add(1)`, its deferred `activeReqs.Done()`; a call of `Stop`;
      the loop taking the `ctx.Done()`, `resetCh` or `timer.C` case at time
      `now`; and `Wait` returning, after which `shutdownFn` runs. */
  datatype Event =
    | Sent | Joined | Left | StopCalled
    | DoneCase | ResetCase(now: nat) | TimerCase(now: nat) | WaitReturned

  /** When an event can happen. The send blocks while the slot is full; a
      `select` case is taken only in the loop and only when it is ready; `Wait`
      returns only at zero. */
  predicate Enabled(s: State, e: Event) {
    match e
    case Sent => !s.resetPending
    case Joined => s.entering > 0
    case Left => s.activeReqs > 0
    case StopCalled => true
    case DoneCase => s.phase == Armed && s.cancelled
    case ResetCase(_) => s.phase == Armed && s.resetPending
    case TimerCase(now) => s.phase == Armed && s.deadline <= now
    case WaitReturned => s.phase == Draining && s.activeReqs == 0
  }

  function Step(s: State, timeout: int, e: Event): State {
    match e
    case Sent => s.(resetPending := true, entering := s.entering + 1)
    case Joined => s.(entering := s.entering - 1, activeReqs := s.activeReqs + 1)
    case Left => s.(activeReqs := s.activeReqs - 1)
    case StopCalled =>
      if s.once then s else s.(once := true, cancelled := true, cancelCalls := s.cancelCalls + 1)
    case DoneCase => s.(phase := Stopped)
    case ResetCase(now) => s.(resetPending := false, deadline := now + timeout)
    case TimerCase(_) => s.(phase := Draining)
    case WaitReturned => s.(phase := Done, shutdownCalls := s.shutdownCalls + 1)
  }

  /** The state after the events of `tr`, in order, starting from `s`. */
  function Run(s: State, timeout: int, tr: seq<Event>): State
    decreases |tr|
  {
    if tr == [] then s else Step(Run(s, timeout, tr[..|tr| - 1]), timeout, tr[|tr| - 1])
  }

  /** Every event of `tr` is enabled when it happens. */
  predicate Legal(s: State, timeout: int, tr: seq<Event>)
    decreases |tr|
  {
    tr == [] ||
    (Legal(s, timeout, tr[..|tr| - 1]) && Enabled(Run(s, timeout, tr[..|tr| - 1]), tr[|tr| - 1]))
  }

  /** Running `tr + [e]` is running `tr`, then `e`. */
  lemma RunSnoc(s: State, timeout: int, tr: seq<Event>, e: Event)
    ensures Run(s, timeout, tr + [e]) == Step(Run(s, timeout, tr), timeout, e)
    ensures Legal(s, timeout, tr + [e]) == (Legal(s, timeout, tr) && Enabled(Run(s, timeout, tr), e))
  {
    assert (tr + [e])[..|tr + [e]| - 1] == tr;
  }

  /** How many events of `tr` are `e`. */
  function Count(tr: seq<Event>, e: Event): nat
    decreases |tr|
  {
    if tr == [] then 0
    else Count(tr[..|tr| - 1], e) + (if tr[|tr| - 1] == e then 1 else 0)
  }

  /** The time of the last reset the loop took in `tr`, or the creation time. */
  function LastReset(t0: nat, tr: seq<Event>): nat
    decreases |tr|
  {
    if tr == [] then t0
    else if tr[|tr| - 1].ResetCase? then tr[|tr| - 1].now
    else LastReset(t0, tr[..|tr| - 1])
  }

  /** What every legal run from `NewWatchdog` keeps: `shutdownFn` has run
      exactly when the loop is `Done`, `cancel` exactly when `Stop`'s `once` has
      run, the context is cancelled exactly then, the timer expires `timeout`
      after the last reset the loop took, no counter is negative, and every
      request that sent its signal is entering, counted in `activeReqs`, or
      finished. */
  lemma {:induction false} RunInvariant(timeout: int, t0: nat, tr: seq<Event>)
    requires Legal(Created(timeout, t0), timeout, tr)
    ensures Run(Created(timeout, t0), timeout, tr).entering >= 0
    ensures Run(Created(timeout, t0), timeout, tr).activeReqs >= 0
    ensures Run(Created(timeout, t0), timeout, tr).shutdownCalls ==
              if Run(Created(timeout, t0), timeout, tr).phase == Done then 1 else 0
    ensures Run(Created(timeout, t0), timeout, tr).cancelCalls ==
              if Run(Created(timeout, t0), timeout, tr).once then 1 else 0
    ensures Run(Created(timeout, t0), timeout, tr).cancelled == Run(Created(timeout, t0), timeout, tr).once
    ensures Run(Created(timeout, t0), timeout, tr).deadline == LastReset(t0, tr) + timeout
    ensures Count(tr, Sent) ==
              Run(Created(timeout, t0), timeout, tr).entering +
              Run(Created(timeout, t0), timeout, tr).activeReqs + Count(tr, Left)
    decreases |tr|
  {
    if tr != [] {
      var pre := tr[..|tr| - 1];
      RunInvariant(timeout, t0, pre);
      var s := Run(Created(timeout, t0), timeout, pre);
      assert Run(Created(timeout, t0), timeout, tr) == Step(s, timeout, tr[|tr| - 1]);
      assert Enabled(s, tr[|tr| - 1]);
      match tr[|tr| - 1]
      case Sent =>
      case Joined =>
      case Left =>
      case StopCalled =>
      case DoneCase =>
      case ResetCase(_) =>
      case TimerCase(_) =>
      case WaitReturned =>
    }
  }

  /** `shutdownFn` runs at most once per watchdog, and `cancel` at most once
      however often `Stop` is called. */
  lemma AtMostOnce(timeout: int, t0: nat, tr: seq<Event>)
    requires Legal(Created(timeout, t0), timeout, tr)
    ensures Run(Created(timeout, t0), timeout, tr).shutdownCalls <= 1
    ensures Run(Created(timeout, t0), timeout, tr).cancelCalls <= 1
  {
    RunInvariant(timeout, t0, tr);
  }

  /** The timer case is taken no earlier than `timeout` after the last reset
      the loop took (or after `NewWatchdog`). */
  lemma NoPrematureTimeout(timeout: int, t0: nat, tr: seq<Event>, now: nat)
    requires Legal(Created(timeout, t0), timeout, tr + [TimerCase(now)])
    ensures now >= LastReset(t0, tr) + timeout
  {
    RunSnoc(Created(timeout, t0), timeout, tr, TimerCase(now));
    RunInvariant(timeout, t0, tr);
  }

  /** Cancellation ends the loop for good: from `Stopped` no run changes the
      phase or calls `shutdownFn`. */
  lemma {:induction false} StoppedIsFinal(s: State, timeout: int, tr: seq<Event>)
    requires s.phase == Stopped
    requires Legal(s, timeout, tr)
    ensures Run(s, timeout, tr).phase == Stopped
    ensures Run(s, timeout, tr).shutdownCalls == s.shutdownCalls
    decreases |tr|
  {
    if tr != [] {
      StoppedIsFinal(s, timeout, tr[..|tr| - 1]);
    }
  }

  /** The drain is strict: once the timer case was taken, no reset and no
      `Stop` bring the loop back; it stays blocked in `Wait` until `shutdownFn`
      runs, which it can as soon as the count is zero. */
  lemma {:induction false} DrainIsStrict(s: State, timeout: int, tr: seq<Event>)
    requires s.phase == Draining
    requires Legal(s, timeout, tr)
    ensures Run(s, timeout, tr).phase == Draining || Run(s, timeout, tr).phase == Done
    ensures Run(s, timeout, tr).shutdownCalls ==
              s.shutdownCalls + (if Run(s, timeout, tr).phase == Done then 1 else 0)
    ensures Run(s, timeout, tr).phase == Draining && Run(s, timeout, tr).activeReqs == 0 ==>
              Enabled(Run(s, timeout, tr), WaitReturned)
    decreases |tr|
  {
    if tr != [] {
      DrainIsStrict(s, timeout, tr[..|tr| - 1]);
    }
  }

  /** Once the loop has returned nobody empties `resetCh`: at most one more
      request gets past its send, and none if the slot is already full. */
  lemma {:induction false} SendsBlockAfterLoopEnds(s: State, timeout: int, tr: seq<Event>)
    requires s.phase == Done || s.phase == Stopped
    requires Legal(s, timeout, tr)
    ensures Run(s, timeout, tr).phase == s.phase
    ensures Count(tr, Sent) + (if s.resetPending then 1 else 0) ==
              if Run(s, timeout, tr).resetPending then 1 else 0
    ensures Count(tr, Sent) <= (if s.resetPending then 0 else 1)
    decreases |tr|
  {
    if tr != [] {
      SendsBlockAfterLoopEnds(s, timeout, tr[..|tr| - 1]);
    }
  }

  /** `Stop` is idempotent. */
  lemma StopIdempotent(s: State, timeout: int)
    ensures Step(Step(s, timeout, StopCalled), timeout, StopCalled) == Step(s, timeout, StopCalled)
    ensures Step(s, timeout, StopCalled).cancelCalls <= s.cancelCalls + 1
  {
  }

  /** `Stop` does not always prevent the shutdown: with timeout 2, a `Stop` at
      2 finds both `ctx.Done()` and `timer.C` ready, and the loop may take the
      timer case, drain and call `shutdownFn`. */
  lemma StopMayLoseToTimer()
    ensures Legal(Created(2, 0), 2, [StopCalled, TimerCase(2), WaitReturned])
    ensures Run(Created(2, 0), 2, [StopCalled, TimerCase(2), WaitReturned]).shutdownCalls == 1
  {
    var s0 := Created(2, 0);
    RunSnoc(s0, 2, [], StopCalled);
    RunSnoc(s0, 2, [StopCalled], TimerCase(2));
    RunSnoc(s0, 2, [StopCalled, TimerCase(2)], WaitReturned);
    assert [] + [StopCalled] == [StopCalled];
    assert [StopCalled] + [TimerCase(2)] == [StopCalled, TimerCase(2)];
    assert [StopCalled, TimerCase(2)] + [WaitReturned] == [StopCalled, TimerCase(2), WaitReturned];
  }

  /** `Wait` looks only at `activeReqs`: a request that has sent its reset
      signal during the drain but has not yet reached `activeReqs.Add(1)` does
      not delay `shutdownFn`. */
  lemma ShutdownWhileRequestEnters()
    ensures Legal(Created(2, 0), 2, [TimerCase(2), Sent, WaitReturned])
    ensures Run(Created(2, 0), 2, [TimerCase(2), Sent, WaitReturned]).shutdownCalls == 1
    ensures Run(Created(2, 0), 2, [TimerCase(2), Sent, WaitReturned]).entering == 1
  {
    var s0 := Created(2, 0);
    RunSnoc(s0, 2, [], TimerCase(2));
    RunSnoc(s0, 2, [TimerCase(2)], Sent);
    RunSnoc(s0, 2, [TimerCase(2), Sent], WaitReturned);
    assert [] + [TimerCase(2)] == [TimerCase(2)];
    assert [TimerCase(2)] + [Sent] == [TimerCase(2), Sent];
    assert [TimerCase(2), Sent] + [WaitReturned] == [TimerCase(2), Sent, WaitReturned];
  }

  /** The Go `Watchdog` struct together with the state of its `watch`
      goroutine. */
  class Watchdog {
    const timeout: int
    var phase: Phase
    var deadline: int
    var resetPending: bool
    var activeReqs: nat
    var once: bool
    var cancelled: bool
    ghost var entering: nat
    ghost var cancelCalls: nat
    ghost var shutdownCalls: nat

    ghost function Model(): State
      reads this
    {
      State(phase, deadline, resetPending, entering, activeReqs, once, cancelled, cancelCalls, shutdownCalls)
    }

    /** `NewWatchdog` at time `now`, with `watch` started. */
    constructor (timeout: int, now: nat)
      ensures this.timeout == timeout
      ensures phase == Armed && deadline == now + timeout && !resetPending && activeReqs == 0
      ensures !once && !cancelled && shutdownCalls == 0 && cancelCalls == 0
      ensures Model() == Created(timeout, now)
    {
      this.timeout := timeout;
      phase := Armed;
      deadline := now + timeout;
      resetPending := false;
      activeReqs := 0;
      once := false;
      cancelled := false;
      entering := 0;
      cancelCalls := 0;
      shutdownCalls := 0;
    }

    /** The middleware's `w.resetCh <- struct{}{}`: the request goes on only
        once the slot is free, and then fills it. */
    method SendReset()
      requires !resetPending
      modifies this
      ensures resetPending && entering == old(entering) + 1
      ensures Model() == Step(old(Model()), timeout, Sent)
    {
      resetPending := true;
      entering := entering + 1;
    }

    /** `activeReqs.Add(1)`, after the request's send. */
    method BeginRequest()
      requires entering > 0
      modifies this
      ensures activeReqs == old(activeReqs) + 1 && entering == old(entering) - 1
      ensures Model() == Step(old(Model()), timeout, Joined)
    {
      entering := entering - 1;
      activeReqs := activeReqs + 1;
    }

    /** The deferred `activeReqs.Done()`. */
    method FinishRequest()
      requires activeReqs > 0
      modifies this
      ensures activeReqs == old(activeReqs) - 1
      ensures Model() == Step(old(Model()), timeout, Left)
    {
      activeReqs := activeReqs - 1;
    }

    /** The handler `Middleware` returns, serving one request while nothing
        else runs: send the reset signal, join the `WaitGroup`, serve (the inner
        handler is not modelled) and leave it, on every exit path. */
    method Middleware()
      requires !resetPending
      modifies this
      ensures resetPending && activeReqs == old(activeReqs) && entering == old(entering)
      ensures Model() == Run(old(Model()), timeout, [Sent, Joined, Left])
    {
      SendReset();
      BeginRequest();
      FinishRequest();
      RunSnoc(old(Model()), timeout, [], Sent);
      RunSnoc(old(Model()), timeout, [Sent], Joined);
      RunSnoc(old(Model()), timeout, [Sent, Joined], Left);
      assert [] + [Sent] == [Sent];
      assert [Sent] + [Joined] == [Sent, Joined];
      assert [Sent, Joined] + [Left] == [Sent, Joined, Left];
    }

    /** `Stop`: the first call cancels the context, later calls do nothing. */
    method Stop()
      modifies this
      ensures once
      ensures cancelCalls == if old(once) then old(cancelCalls) else old(cancelCalls) + 1
      ensures cancelled == (old(cancelled) || !old(once))
      ensures Model() == Step(old(Model()), timeout, StopCalled)
    {
      if !once {
        once := true;
        cancelled := true;
        cancelCalls := cancelCalls + 1;
      }
    }

    /** The loop takes the `ctx.Done()` case and returns without calling
        `shutdownFn`. */
    method WatchDone()
      requires phase == Armed && cancelled
      modifies this
      ensures phase == Stopped && shutdownCalls == old(shutdownCalls)
      ensures Model() == Step(old(Model()), timeout, DoneCase)
    {
      phase := Stopped;
    }

    /** The loop takes the `resetCh` case at time `now`: the slot is emptied
        and the timer restarts for the full `timeout`; a stale expiry is
        discarded. */
    method WatchReset(now: nat)
      requires phase == Armed && resetPending
      modifies this
      ensures phase == Armed && !resetPending && deadline == now + timeout
      ensures Model() == old(Model()).(resetPending := false, deadline := now + timeout)
      ensures Model() == Step(old(Model()), timeout, ResetCase(now))
    {
      resetPending := false;
      deadline := now + timeout;
    }

    /** The loop takes the `timer.C` case at time `now` and blocks in
        `activeReqs.Wait()`. */
    method WatchTimer(now: nat)
      requires phase == Armed && deadline <= now
      modifies this
      ensures phase == Draining && shutdownCalls == old(shutdownCalls)
      ensures Model() == Step(old(Model()), timeout, TimerCase(now))
    {
      phase := Draining;
    }

    /** `Wait` returns at zero, `shutdownFn` runs once, and the loop returns. */
    method WatchDrained()
      requires phase == Draining && activeReqs == 0
      modifies this
      ensures phase == Done && shutdownCalls == old(shutdownCalls) + 1
      ensures Model() == Step(old(Model()), timeout, WaitReturned)
    {
      shutdownCalls := shutdownCalls + 1;
      phase := Done;
    }
  }
}
