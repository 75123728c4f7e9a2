/** The last-activity tracker and its tick-driven monitor (activity.go).

    Times are natural numbers of nanoseconds (the unit of Go's
    `time.Duration`), read from a clock passed to the operations that read it.
    The tracker's lock is not modelled: each operation is one atomic step. The
    monitor's `for { select }` loop is driven by a sequence of signals: a tick
    of its ticker at some time, a request recorded by the middleware in
    another goroutine, or the cancellation of its context. */
module Activity {

  const Second: int := 1_000_000_000
  const Minute: int := 60 * Second
  /** `shutdownTimeout`, declared in main.go beside the code that starts the
      monitor. */
  const ShutdownTimeout: int := 5 * Minute

  /** The next thing that happens to the monitor: the `select` takes the
      ticker case at time `now`, or takes the `ctx.Done()` case; or, in
      between, a request's middleware in another goroutine calls `update` at
      time `now`. The `select` itself has only the first two cases. */
  datatype Signal = Tick(now: nat) | Request(now: nat) | Cancel

  /** How monitoring ended: it closed the shutdown channel at a tick at time
      `at`, it saw the cancellation, or the signals ran out while it was still
      monitoring. */
  datatype Outcome = Closed(at: nat) | Cancelled | Running

  datatype Monitored = Monitored(outcome: Outcome, lastActivity: int)

  /** The monitor loop from a tracker whose last activity is at `last`: a
      tick whose idle time is strictly above `ShutdownTimeout` closes the
      channel and ends monitoring; cancellation ends it without closing. */
  function Monitor(last: int, signals: seq<Signal>): Monitored
    decreases |signals|
  {
    if signals == [] then Monitored(Running, last)
    else match signals[0]
      case Cancel => Monitored(Cancelled, last)
      case Request(t) => Monitor(t, signals[1..])
      case Tick(t) =>
        if t - last > ShutdownTimeout then Monitored(Closed(t), last)
        else Monitor(last, signals[1..])
  }

  /** The last activity after the signals before position `k`. */
  function LastBefore(last: int, signals: seq<Signal>, k: nat): int
    requires k <= |signals|
    decreases k
  {
    if k == 0 then last
    else if signals[k - 1].Request? then signals[k - 1].now
    else LastBefore(last, signals, k - 1)
  }

  /** The tick at position `k` finds the service idle for strictly longer than
      `ShutdownTimeout`. */
  predicate TriggersAt(last: int, signals: seq<Signal>, k: nat) {
    k < |signals| && signals[k].Tick? && signals[k].now - LastBefore(last, signals, k) > ShutdownTimeout
  }

  /** Position `k` holds the first triggering tick, and no cancellation comes
      before it. */
  predicate ClosesAt(last: int, signals: seq<Signal>, k: nat) {
    TriggersAt(last, signals, k) &&
    forall j: nat :: j < k ==> signals[j] != Cancel && !TriggersAt(last, signals, j)
  }

  /** The last activity after the first signal. */
  function After(last: int, s: Signal): int {
    if s.Request? then s.now else last
  }

  lemma {:induction false} LastBeforeShift(last: int, signals: seq<Signal>, k: nat)
    requires 0 < |signals| && k < |signals|
    ensures LastBefore(last, signals, k + 1) == LastBefore(After(last, signals[0]), signals[1..], k)
    decreases k
  {
    if k > 0 {
      LastBeforeShift(last, signals, k - 1);
    }
  }

  lemma TriggersShift(last: int, signals: seq<Signal>, k: nat)
    requires 0 < |signals| && k + 1 < |signals|
    ensures TriggersAt(last, signals, k + 1) == TriggersAt(After(last, signals[0]), signals[1..], k)
  {
    LastBeforeShift(last, signals, k);
  }

  /** The monitor closes the shutdown channel exactly at the first tick whose
      idle time strictly exceeds `ShutdownTimeout`, provided no cancellation
      comes first; it closes at no other tick. */
  lemma {:induction false} ClosesAtFirstIdleTick(last: int, signals: seq<Signal>, k: nat)
    requires ClosesAt(last, signals, k)
    ensures Monitor(last, signals).outcome == Closed(signals[k].now)
    decreases |signals|
  {
    if k > 0 {
      assert signals[0] != Cancel && !TriggersAt(last, signals, 0);
      var rest := signals[1..];
      var last' := After(last, signals[0]);
      TriggersShift(last, signals, k - 1);
      forall j: nat | j < k - 1
        ensures rest[j] != Cancel && !TriggersAt(last', rest, j)
      {
        TriggersShift(last, signals, j);
        assert signals[j + 1] != Cancel && !TriggersAt(last, signals, j + 1);
      }
      assert ClosesAt(last', rest, k - 1);
      ClosesAtFirstIdleTick(last', rest, k - 1);
    }
  }

  /** Conversely, when the monitor closes the channel at time `t`, it did so
      at the first triggering tick, which happens at `t`. */
  lemma {:induction false} ClosedOnlyAtFirstIdleTick(last: int, signals: seq<Signal>)
    requires Monitor(last, signals).outcome.Closed?
    ensures exists k: nat :: ClosesAt(last, signals, k) && signals[k].now == Monitor(last, signals).outcome.at
    decreases |signals|
  {
    if TriggersAt(last, signals, 0) {
      assert ClosesAt(last, signals, 0);
    } else {
      var rest := signals[1..];
      var last' := After(last, signals[0]);
      assert Monitor(last, signals) == Monitor(last', rest);
      ClosedOnlyAtFirstIdleTick(last', rest);
      var k: nat :| ClosesAt(last', rest, k) && rest[k].now == Monitor(last', rest).outcome.at;
      TriggersShift(last, signals, k);
      forall j: nat | j < k + 1
        ensures signals[j] != Cancel && !TriggersAt(last, signals, j)
      {
        if j > 0 {
          TriggersShift(last, signals, j - 1);
        }
      }
      assert ClosesAt(last, signals, k + 1);
    }
  }

  /** A cancellation that comes before every triggering tick ends monitoring
      without closing the channel. */
  lemma {:induction false} CancelBeforeIdleNeverCloses(last: int, signals: seq<Signal>, k: nat)
    requires k < |signals| && signals[k] == Cancel
    requires forall j: nat :: j < k ==> signals[j] != Cancel && !TriggersAt(last, signals, j)
    ensures Monitor(last, signals).outcome == Cancelled
    decreases |signals|
  {
    if k > 0 {
      var rest := signals[1..];
      var last' := After(last, signals[0]);
      assert signals[0] != Cancel && !TriggersAt(last, signals, 0);
      assert Monitor(last, signals) == Monitor(last', rest);
      forall j: nat | j < k - 1
        ensures rest[j] != Cancel && !TriggersAt(last', rest, j)
      {
        TriggersShift(last, signals, j);
        assert signals[j + 1] != Cancel && !TriggersAt(last, signals, j + 1);
      }
      CancelBeforeIdleNeverCloses(last', rest, k - 1);
    }
  }

  /** A tick whose idle time is at most `ShutdownTimeout` (equality
      included) does not trigger: monitoring goes on with the tracker
      unchanged. */
  lemma QuietTickContinues(last: int, t: nat, rest: seq<Signal>)
    requires t - last <= ShutdownTimeout
    ensures Monitor(last, [Tick(t)] + rest) == Monitor(last, rest)
  {
    assert ([Tick(t)] + rest)[1..] == rest;
  }

  /** The Go `activityTracker`. */
  class ActivityTracker {
    var lastActivity: int

    /** `newActivityTracker` at time `now`: the service has been idle for no
        time at all. */
    constructor (now: nat)
      ensures lastActivity == now
      ensures TimeSinceLastActivity(now) == 0
    {
      lastActivity := now;
    }

    /** `update` at time `now`: records the activity; nothing else changes. */
    method Update(now: nat)
      modifies this
      ensures lastActivity == now
    {
      lastActivity := now;
    }

    /** `timeSinceLastActivity` at time `now`: the idle duration, which is
        never negative while the clock has not gone back past the last
        activity. */
    function TimeSinceLastActivity(now: nat): (d: int)
      reads this
      ensures d >= 0 <==> now >= lastActivity
      ensures lastActivity + d == now
    {
      now - lastActivity
    }
  }

  /** The handler `withActivityTracking` returns, for a request at time `now`:
      the activity is recorded before the inner handler (not modelled) runs. */
  method WithActivityTracking(tracker: ActivityTracker, now: nat)
    modifies tracker
    ensures tracker.lastActivity == now
  {
    tracker.Update(now);
  }

  /** `monitorActivity`, over an interleaving of its `select` cases with the
      middleware's updates: a `Request` signal is not a case of the loop but
      the `update` another goroutine makes between two of its cases. It closes
      the shutdown channel at most once (`closes`), and exactly when it ends
      with `Closed`. */
  method MonitorActivity(tracker: ActivityTracker, signals: seq<Signal>) returns (outcome: Outcome, closes: nat)
    modifies tracker
    ensures outcome == Monitor(old(tracker.lastActivity), signals).outcome
    ensures tracker.lastActivity == Monitor(old(tracker.lastActivity), signals).lastActivity
    ensures closes == if outcome.Closed? then 1 else 0
  {
    closes := 0;
    var i := 0;
    while i < |signals|
      invariant 0 <= i <= |signals|
      invariant Monitor(old(tracker.lastActivity), signals) == Monitor(tracker.lastActivity, signals[i..])
    {
      assert signals[i..][1..] == signals[i + 1..];
      match signals[i]
      case Cancel =>
        outcome := Cancelled;
        return;
      case Request(t) =>
        WithActivityTracking(tracker, t);
        i := i + 1;
      case Tick(t) =>
        var inactiveDuration := tracker.TimeSinceLastActivity(t);
        if inactiveDuration > ShutdownTimeout {
          closes := closes + 1;
          outcome := Closed(t);
          return;
        }
        i := i + 1;
    }
    outcome := Running;
  }
}
