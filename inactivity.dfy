/** Inactivity shutdown with an in-flight counter and a one-shot timer
    (pkg/inactivity/inactivity.go).

    Every transition of the Go type runs under one mutex, so it is modelled as a
    sequential state machine. Time is a natural-number clock passed to the
    operations that read it; the Go runtime's timer queue is modelled by the
    `stopped` flag of each timer object: the runtime runs the callback of a
    timer that has expired and has not been stopped. In this model `Stop`
    always succeeds (the callback of a stopped timer never runs).

    `onInactive` is not modelled as code: the ghost counter `fires` records how
    many times it was called. */
module Inactivity {

  datatype Option<T> = None | Some(value: T)

  /** What the model observes of a `*time.Timer`: when it expires and whether
      `Stop` has been called on it. */
  datatype TimerView = TimerView(deadline: int, stopped: bool)

  /** The fields guarded by `mu`, and the number of `onInactive` calls so far. */
  datatype State = State(active: int, timer: Option<TimerView>, timerActive: bool, fires: nat)

  /** The state `New` builds at time `now`: no request, a fresh timer armed for
      `timeout`. `timeout` is not validated: a non-positive one expires at once. */
  function Created(timeout: int, now: nat): State {
    State(0, Some(TimerView(now + timeout, false)), true, 0)
  }

  /** `increment`: one more request in flight; an existing timer is stopped and
      dropped. */
  function IncrementStep(s: State): State {
    if s.timer.Some? then s.(active := s.active + 1, timer := None, timerActive := false)
    else s.(active := s.active + 1)
  }

  /** `decrement` at time `now`: one request fewer; a fresh timer is armed when
      the count reaches zero and no timer is active. */
  function DecrementStep(s: State, timeout: int, now: nat): State {
    var active := s.active - 1;
    if active == 0 && !s.timerActive then
      s.(active := active, timer := Some(TimerView(now + timeout, false)), timerActive := true)
    else s.(active := active)
  }

  /** The runtime may run the timer callback at time `now`: the current timer
      exists, has not been stopped and has expired. */
  predicate CanFire(s: State, now: int) {
    s.timer.Some? && !s.timer.value.stopped && s.timer.value.deadline <= now
  }

  /** The timer callback: `onInactive` runs only when nothing is in flight; the
      timer is dropped in both cases. */
  function FireStep(s: State): State {
    s.(fires := if s.active == 0 then s.fires + 1 else s.fires, timer := None, timerActive := false)
  }

  /** `Shutdown`: stops the current timer object, if there is one. */
  function ShutdownStep(s: State): State {
    if s.timer.Some? then s.(timer := Some(s.timer.value.(stopped := true))) else s
  }

  /** The events of a run: a request enters `Wrap`, a request leaves it at time
      `now`, the timer callback runs at time `now`, `Shutdown` is called. */
  datatype Event = Enter | Exit(now: nat) | Expire(now: nat) | StopTimer

  /** When an event can happen: `Wrap` pairs every exit with an earlier entry,
      and the runtime runs only the callback of a live, expired timer. */
  predicate Enabled(s: State, e: Event) {
    match e
    case Enter => true
    case Exit(_) => s.active > 0
    case Expire(now) => CanFire(s, now)
    case StopTimer => true
  }

  function Step(s: State, timeout: int, e: Event): State {
    match e
    case Enter => IncrementStep(s)
    case Exit(now) => DecrementStep(s, timeout, now)
    case Expire(_) => FireStep(s)
    case StopTimer => ShutdownStep(s)
  }

  /** The state after the events of `tr`, in order, starting from `s`. */
  function Run(s: State, timeout: int, tr: seq<Event>): State
    decreases |tr|
  {
    if tr == [] then s else Step(Run(s, timeout, tr[..|tr| - 1]), timeout, tr[|tr| - 1])
  }

  /** Every event of `tr` is enabled when it happens. */
  predicate Legal(s: State, timeout: int, tr: seq<Event>)
    decreases |tr|
  {
    tr == [] ||
    (Legal(s, timeout, tr[..|tr| - 1]) && Enabled(Run(s, timeout, tr[..|tr| - 1]), tr[|tr| - 1]))
  }

  /** The invariant the serialised transitions keep: the count is never
      negative, `timerActive` holds exactly when there is a timer, and a timer
      is armed only while nothing is in flight. */
  predicate Inv(s: State) {
    s.active >= 0 &&
    (s.timerActive <==> s.timer.Some?) &&
    (s.timer.Some? ==> s.active == 0)
  }

  /** The time of the last request exit in `tr`, or the creation time `t0`. */
  function LastExit(t0: nat, tr: seq<Event>): nat
    decreases |tr|
  {
    if tr == [] then t0
    else if tr[|tr| - 1].Exit? then tr[|tr| - 1].now
    else LastExit(t0, tr[..|tr| - 1])
  }

  /** Running `tr + [e]` is running `tr`, then `e`. */
  lemma RunSnoc(s: State, timeout: int, tr: seq<Event>, e: Event)
    ensures Run(s, timeout, tr + [e]) == Step(Run(s, timeout, tr), timeout, e)
    ensures Legal(s, timeout, tr + [e]) == (Legal(s, timeout, tr) && Enabled(Run(s, timeout, tr), e))
  {
    assert (tr + [e])[..|tr + [e]| - 1] == tr;
  }

  /** Each enabled event keeps the invariant. */
  lemma StepKeepsInv(s: State, timeout: int, e: Event)
    requires Inv(s) && Enabled(s, e)
    ensures Inv(Step(s, timeout, e))
  {
    match e
    case Enter =>
    case Exit(now) =>
      assert s.active >= 1;
    case Expire(_) =>
    case StopTimer =>
  }

  /** The invariant holds after `New` and after every legal run. It also says
      the timer armed by a legal run expires exactly `timeout` after the last
      request exit (or after creation when there was none). */
  lemma {:induction false} RunKeepsInv(timeout: int, t0: nat, tr: seq<Event>)
    requires Legal(Created(timeout, t0), timeout, tr)
    ensures Inv(Run(Created(timeout, t0), timeout, tr))
    ensures Run(Created(timeout, t0), timeout, tr).timer.Some? ==>
              Run(Created(timeout, t0), timeout, tr).timer.value.deadline == LastExit(t0, tr) + timeout
    decreases |tr|
  {
    if tr != [] {
      var pre := tr[..|tr| - 1];
      RunKeepsInv(timeout, t0, pre);
      StepKeepsInv(Run(Created(timeout, t0), timeout, pre), timeout, tr[|tr| - 1]);
    }
  }

  /** No premature fire: the callback can run only while nothing is in flight,
      and not before `timeout` has passed since the last request finished. A
      run with no request at all cannot fire before `timeout` after `New`. */
  lemma {:induction false} NoPrematureFire(timeout: int, t0: nat, tr: seq<Event>, now: nat)
    requires Legal(Created(timeout, t0), timeout, tr)
    requires CanFire(Run(Created(timeout, t0), timeout, tr), now)
    ensures Run(Created(timeout, t0), timeout, tr).active == 0
    ensures now >= LastExit(t0, tr) + timeout
  {
    RunKeepsInv(timeout, t0, tr);
  }

  /** In the serialised model every callback that runs calls `onInactive`: a
      callback whose check `active == 0` fails cannot be reached. */
  lemma EveryFireCallsOnInactive(timeout: int, t0: nat, tr: seq<Event>, now: nat)
    requires Legal(Created(timeout, t0), timeout, tr + [Expire(now)])
    ensures Run(Created(timeout, t0), timeout, tr + [Expire(now)]).fires ==
              Run(Created(timeout, t0), timeout, tr).fires + 1
  {
    var tr' := tr + [Expire(now)];
    assert tr'[..|tr'| - 1] == tr;
    RunKeepsInv(timeout, t0, tr);
  }

  /** The fire happens: right after `New`, or right after the request that
      brought the count to zero, the timer can fire once `timeout` has passed
      since that moment. */
  lemma FiresAfterIdle(timeout: int, t0: nat, tr: seq<Event>)
    requires Legal(Created(timeout, t0), timeout, tr)
    requires tr == [] || tr[|tr| - 1].Exit?
    requires Run(Created(timeout, t0), timeout, tr).active == 0
    ensures CanFire(Run(Created(timeout, t0), timeout, tr), LastExit(t0, tr) + timeout)
  {
    if tr != [] {
      RunKeepsInv(timeout, t0, tr[..|tr| - 1]);
    }
  }

  /** `Wrap` brackets a request with one increment and one decrement: the
      bracket is always legal after a legal run and gives the count back its
      prior value. */
  lemma WrapRestoresActive(timeout: int, t0: nat, tr: seq<Event>, now: nat)
    requires Legal(Created(timeout, t0), timeout, tr)
    ensures Legal(Created(timeout, t0), timeout, tr + [Enter, Exit(now)])
    ensures Run(Created(timeout, t0), timeout, tr + [Enter, Exit(now)]).active ==
              Run(Created(timeout, t0), timeout, tr).active
  {
    var s0 := Created(timeout, t0);
    RunKeepsInv(timeout, t0, tr);
    RunSnoc(s0, timeout, tr, Enter);
    RunSnoc(s0, timeout, tr + [Enter], Exit(now));
    assert tr + [Enter] + [Exit(now)] == tr + [Enter, Exit(now)];
  }

  /** `Shutdown` cancels the pending fire: as long as no request arrives
      afterwards, `onInactive` is not called again. This relies on `Stop`
      succeeding, which Go guarantees only before the callback has started. */
  lemma {:induction false} ShutdownCancelsPendingFire(s: State, timeout: int, tr: seq<Event>)
    requires Inv(s) && s.active == 0
    requires forall k :: 0 <= k < |tr| ==> tr[k] != Enter
    requires Legal(ShutdownStep(s), timeout, tr)
    ensures Run(ShutdownStep(s), timeout, tr).fires == s.fires
    ensures Run(ShutdownStep(s), timeout, tr).active == 0
    ensures Run(ShutdownStep(s), timeout, tr).timer.None? || Run(ShutdownStep(s), timeout, tr).timer.value.stopped
    ensures forall now: int :: !CanFire(Run(ShutdownStep(s), timeout, tr), now)
    decreases |tr|
  {
    if tr != [] {
      ShutdownCancelsPendingFire(s, timeout, tr[..|tr| - 1]);
    }
  }

  /** A `Shutdown` while a request is in flight finds no timer and changes
      nothing, so it does not stop the fire armed when the last request
      leaves: after that exit the callback can run `timeout` later. */
  lemma ShutdownDoesNotOutliveRequests(timeout: int, t0: nat, tr: seq<Event>, now: nat)
    requires Legal(Created(timeout, t0), timeout, tr)
    requires Run(Created(timeout, t0), timeout, tr).active > 0
    ensures Legal(Created(timeout, t0), timeout, tr + [StopTimer])
    ensures Run(Created(timeout, t0), timeout, tr + [StopTimer]) == Run(Created(timeout, t0), timeout, tr)
    ensures Run(Created(timeout, t0), timeout, tr).active == 1 ==>
              Legal(Created(timeout, t0), timeout, tr + [StopTimer, Exit(now)]) &&
              CanFire(Run(Created(timeout, t0), timeout, tr + [StopTimer, Exit(now)]), now + timeout)
  {
    var s0 := Created(timeout, t0);
    RunKeepsInv(timeout, t0, tr);
    RunSnoc(s0, timeout, tr, StopTimer);
    RunSnoc(s0, timeout, tr + [StopTimer], Exit(now));
    assert tr + [StopTimer] + [Exit(now)] == tr + [StopTimer, Exit(now)];
  }

  /** The callback is not once-only: with timeout 2 and no request it fires at
      2; a request at 3 that leaves at once re-arms the timer, which fires
      again at 5. */
  lemma FiresAgainAfterLaterRequest()
    ensures Legal(Created(2, 0), 2, [Expire(2), Enter, Exit(3), Expire(5)])
    ensures Run(Created(2, 0), 2, [Expire(2), Enter, Exit(3), Expire(5)]).fires == 2
  {
    var s0 := Created(2, 0);
    RunSnoc(s0, 2, [], Expire(2));
    RunSnoc(s0, 2, [Expire(2)], Enter);
    RunSnoc(s0, 2, [Expire(2), Enter], Exit(3));
    RunSnoc(s0, 2, [Expire(2), Enter, Exit(3)], Expire(5));
    assert [] + [Expire(2)] == [Expire(2)];
    assert [Expire(2)] + [Enter] == [Expire(2), Enter];
    assert [Expire(2), Enter] + [Exit(3)] == [Expire(2), Enter, Exit(3)];
    assert [Expire(2), Enter, Exit(3)] + [Expire(5)] == [Expire(2), Enter, Exit(3), Expire(5)];
  }

  /** A long request postpones the fire: with timeout 2, a request that enters
      at 0 and leaves at 3 leaves a timer that expires at 5 and not earlier. */
  lemma LongRequestDelaysFire()
    ensures Legal(Created(2, 0), 2, [Enter, Exit(3)])
    ensures !CanFire(Run(Created(2, 0), 2, [Enter, Exit(3)]), 4)
    ensures CanFire(Run(Created(2, 0), 2, [Enter, Exit(3)]), 5)
  {
    var s0 := Created(2, 0);
    RunSnoc(s0, 2, [], Enter);
    RunSnoc(s0, 2, [Enter], Exit(3));
  }

  /** Left out of the serialised model: `timer.Stop()` in `increment`
      returns false once the timer has expired, and then the callback, already
      waiting for `mu`, still runs. With timeout 2, a request entering at 2 and
      leaving at 3 arms a fresh timer for 5; the stale callback running at 3
      finds nothing in flight, calls `onInactive` two seconds early and drops
      the fresh timer's handle. */
  lemma StaleCallbackFiresEarly()
    ensures DecrementStep(IncrementStep(Created(2, 0)), 2, 3).timer == Some(TimerView(5, false))
    ensures !CanFire(DecrementStep(IncrementStep(Created(2, 0)), 2, 3), 3)
    ensures FireStep(DecrementStep(IncrementStep(Created(2, 0)), 2, 3)).fires == 1
    ensures FireStep(DecrementStep(IncrementStep(Created(2, 0)), 2, 3)).timer == None
  {
  }

  /** A `*time.Timer`: its expiry time and whether `Stop` was called on it. */
  class Timer {
    const deadline: int
    var stopped: bool

    /** `time.AfterFunc`: a timer that expires at `deadline`. */
    constructor (deadline: int)
      ensures this.deadline == deadline && !stopped
    {
      this.deadline := deadline;
      stopped := false;
    }

    /** `Timer.Stop`: the callback will not run. */
    method Stop()
      modifies this
      ensures stopped
    {
      stopped := true;
    }
  }

  /** The Go `Inactivity` struct. */
  class Inactivity {
    const timeout: int
    var active: int
    var timer: Timer?
    var timerActive: bool
    /** How many times `onInactive` has been called. */
    ghost var fires: nat

    ghost function Model(): State
      reads this, timer
    {
      State(active, if timer == null then None else Some(TimerView(timer.deadline, timer.stopped)),
            timerActive, fires)
    }

    /** `New` at time `now`. */
    constructor (timeout: int, now: nat)
      ensures this.timeout == timeout && timer != null && fresh(timer)
      ensures Model() == Created(timeout, now)
      ensures Inv(Model())
    {
      this.timeout := timeout;
      active := 0;
      timerActive := true;
      timer := new Timer(now + timeout);
      fires := 0;
    }

    /** `increment`: raises `active` by one and leaves no timer armed. */
    method Increment()
      modifies this, timer
      ensures active == old(active) + 1
      ensures timer == null
      ensures timerActive == (old(timerActive) && old(timer) == null)
      ensures old(timer) != null ==> old(timer).stopped
      ensures fires == old(fires)
      ensures Model() == IncrementStep(old(Model()))
    {
      active := active + 1;
      if timer != null {
        timer.Stop();
        timer := null;
        timerActive := false;
      }
    }

    /** `decrement` at time `now`: lowers `active` by one; arms a fresh timer
        for `timeout` exactly when the count reaches zero and no timer is
        active, and otherwise leaves the timer state alone. */
    method Decrement(now: nat)
      modifies this
      ensures active == old(active) - 1
      ensures fires == old(fires)
      ensures active == 0 && !old(timerActive) ==>
                timerActive && timer != null && fresh(timer) &&
                timer.deadline == now + timeout && !timer.stopped
      ensures !(active == 0 && !old(timerActive)) ==>
                timerActive == old(timerActive) && timer == old(timer)
      ensures Model() == DecrementStep(old(Model()), timeout, now)
    {
      active := active - 1;
      if active == 0 && !timerActive {
        timerActive := true;
        timer := new Timer(now + timeout);
      }
    }

    /** The timer callback, run by the runtime at time `now` for the current,
        expired, unstopped timer: `onInactive` only when nothing is in flight;
        the timer is dropped in both cases. */
    method Fire(now: nat)
      requires CanFire(Model(), now)
      modifies this
      ensures active == old(active)
      ensures fires == if old(active) == 0 then old(fires) + 1 else old(fires)
      ensures timer == null && !timerActive
      ensures Model() == FireStep(old(Model()))
    {
      if active == 0 {
        fires := fires + 1;
      }
      timerActive := false;
      timer := null;
    }

    /** `Shutdown`: stops the pending timer; `active`, `timerActive` and the
        `timer` field keep their values. */
    method Shutdown()
      modifies timer
      ensures active == old(active) && timerActive == old(timerActive) && timer == old(timer)
      ensures fires == old(fires)
      ensures timer != null ==> timer.stopped
      ensures Model() == ShutdownStep(old(Model()))
    {
      if timer != null {
        timer.Stop();
      }
    }

    /** The handler `Wrap` returns, serving one request that leaves at time
        `now` while no other request runs: `increment` on entry, the deferred
        `decrement` on exit, whatever the inner handler does (it is not
        modelled). The count returns to its prior value; a request served while
        nothing else is in flight leaves a fresh timer that expires `timeout`
        after it finished. */
    method Wrap(now: nat)
      requires Inv(Model())
      modifies this, timer
      ensures Inv(Model())
      ensures active == old(active)
      ensures fires == old(fires)
      ensures old(active) == 0 ==>
                timerActive && timer != null && fresh(timer) &&
                timer.deadline == now + timeout && !timer.stopped
      ensures Model() == Run(old(Model()), timeout, [Enter, Exit(now)])
    {
      Increment();
      Decrement(now);
      RunSnoc(old(Model()), timeout, [], Enter);
      RunSnoc(old(Model()), timeout, [Enter], Exit(now));
    }
  }
}
