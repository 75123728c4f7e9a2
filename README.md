# Inactivity shutdown for a scale-to-zero service

This project models, in Dafny, the three pieces of bookkeeping that a small
Go web service uses to shut itself down after a period without requests, and
proves their properties:

- **`Inactivity`** (`pkg/inactivity/inactivity.go`): an in-flight request
  counter and a one-shot timer, all changed under one mutex. Request entry
  stops the timer; the exit that brings the count to zero arms a fresh one;
  the timer callback calls `onInactive` only when nothing is in flight.
  Module `Inactivity`.
- **`Watchdog`** (`pkg/inactivity/watchdog.go`): a goroutine that loops over
  a `select` on the context, a one-slot reset channel and a timer; on expiry
  it waits for the in-flight requests (a `WaitGroup`) and calls `shutdownFn`.
  Module `Watchdog`.
- **`activityTracker` / `monitorActivity`** (`activity.go`): a last-activity
  timestamp updated by a middleware, and a ticker loop that closes a shutdown
  channel at the first tick whose idle time is strictly greater than
  `shutdownTimeout` (five minutes, `main.go`). Module `Activity`.

Each module has the same shape. A `State` datatype and one step function per
transition form the specification. Events and `Run` fold a sequence of events
over the steps. `Legal` says that every event of a run was enabled when it
happened: a `select` case is taken only when it is ready, a blocking send
waits for room, an exit follows its own entry. A class mirrors the Go struct.
Its methods change the fields as the Go code does, and their `ensures` tie the
new state to the step function through a ghost `Model()`. Lemmas over legal
runs state what the code promises.

Goroutines, mutexes, timers and channels become sequential events. Time is a
natural-number clock passed to the operations that read it. The callbacks
(`onInactive`, `shutdownFn`, `cancel`) become ghost counters of how many times
they ran.

Where the code falls short of what its comments or its purpose promise, the
model follows the code:
- Neither `New` nor `NewWatchdog` checks its timeout: a non-positive timeout
  expires at once.
- A service shutting down on inactivity would call its callback once.
  `Inactivity` calls `onInactive` again after a later request
  (`FiresAgainAfterLaterRequest`). `Watchdog` does call `shutdownFn` at most
  once (`AtMostOnce`).
- The package comment (`pkg/inactivity/watchdog.go:1-3`) speaks of resetting
  on any new incoming request. Once `Watchdog` has taken the timer case, it
  drains strictly and a new request resets nothing (`DrainIsStrict`).
- `NewWatchdog`'s comment (`pkg/inactivity/watchdog.go:26-27`) says
  `shutdownFn` runs only after the timeout and after all active requests have
  finished. `Wait` misses a request that has sent its reset signal but not yet
  called `Add(1)` (`ShutdownWhileRequestEnters`).
- `Stop`'s comment (`pkg/inactivity/watchdog.go:59`) says it cancels the
  watchdog goroutine. Its `select` may still take the timer case after `Stop`
  and call `shutdownFn` (`StopMayLoseToTimer`).

## Model

| member | source | states |
|---|---|---|
| `Inactivity.Inactivity.constructor` | pkg/inactivity/inactivity.go:19-34 | `New`: zero requests in flight, `timerActive` set and a fresh timer armed `timeout` after creation; the invariant holds |
| `Inactivity.Inactivity.Increment` | pkg/inactivity/inactivity.go:53-63 | `active` rises by exactly one, `timer` becomes nil, the previous timer is stopped, `timerActive` is cleared when a timer was present |
| `Inactivity.Inactivity.Decrement` | pkg/inactivity/inactivity.go:65-82 | `active` falls by exactly one; a fresh timer for `timeout` is armed exactly when the count reaches zero and no timer was active, otherwise the timer state is unchanged |
| `Inactivity.Inactivity.Fire` | pkg/inactivity/inactivity.go:25-33 | the timer callback calls `onInactive` exactly when `active == 0` and leaves `timer` nil and `timerActive` false in both cases |
| `Inactivity.Inactivity.Shutdown` | pkg/inactivity/inactivity.go:45-51 | stops the pending timer, leaving `active`, `timerActive` and the `timer` field unchanged |
| `Inactivity.Inactivity.Wrap` | pkg/inactivity/inactivity.go:37-43 | one increment on entry and one deferred decrement: `active` returns to its prior value, the invariant is kept, and a request served alone leaves a timer expiring `timeout` after it finished |
| `Inactivity.StepKeepsInv` | pkg/inactivity/inactivity.go:53-82 | every enabled transition keeps: `active >= 0`, `timerActive` exactly when a timer exists, a timer only while nothing is in flight |
| `Inactivity.RunKeepsInv` | pkg/inactivity/inactivity.go:19-82 | after `New` and every legal run the invariant holds, and the armed timer expires exactly `timeout` after the last request exit (or after creation) |
| `Inactivity.NoPrematureFire` | pkg/inactivity/inactivity.go:57-62 | the callback can run only with no request in flight and not before `timeout` after the last request finished |
| `Inactivity.EveryFireCallsOnInactive` | pkg/inactivity/inactivity.go:72-80 | in the serialised model every callback that runs calls `onInactive` once |
| `Inactivity.FiresAfterIdle` | pkg/inactivity/inactivity.go:24-25 | right after `New`, or after the exit that brings the count to zero, the timer can fire once `timeout` has passed |
| `Inactivity.WrapRestoresActive` | pkg/inactivity/inactivity.go:37-43 | an entry and exit pair appended to any legal run is legal and gives `active` back its prior value |
| `Inactivity.ShutdownCancelsPendingFire` | pkg/inactivity/inactivity.go:45-51 | after `Shutdown` with nothing in flight, no run without a new request calls `onInactive` or makes the callback runnable, provided `Stop` wins against a callback that has already started |
| `Inactivity.ShutdownDoesNotOutliveRequests` | pkg/inactivity/inactivity.go:45-72 | on every legal run, a `Shutdown` while a request is in flight finds no timer and changes nothing; when that request is the last one, its exit arms a timer whose callback can run `timeout` later |
| `Inactivity.FiresAgainAfterLaterRequest` | pkg/inactivity/inactivity.go:70-80 | `onInactive` can be called twice: after a fire, a later request's exit re-arms the timer |
| `Inactivity.LongRequestDelaysFire` | pkg/inactivity/inactivity_test.go:45-52 | a request from 0 to 3 with timeout 2 leaves a timer that fires at 5 and not at 4 |
| `Inactivity.StaleCallbackFiresEarly` | pkg/inactivity/inactivity.go:57-62 | if `Stop` loses the race, the stale callback calls `onInactive` while a fresh timer is armed and drops that timer |
| `Watchdog.Watchdog.constructor` | pkg/inactivity/watchdog.go:28-40 | `NewWatchdog`: loop armed for `timeout` from creation, empty reset slot, no request, not cancelled, no callback run |
| `Watchdog.Watchdog.SendReset` | pkg/inactivity/watchdog.go:51 | the blocking send waits for the one slot to be free, then fills it |
| `Watchdog.Watchdog.BeginRequest` | pkg/inactivity/watchdog.go:53 | a request joins `activeReqs` only after its send was accepted |
| `Watchdog.Watchdog.FinishRequest` | pkg/inactivity/watchdog.go:54 | the deferred `Done` lowers `activeReqs` by one |
| `Watchdog.Watchdog.Middleware` | pkg/inactivity/watchdog.go:44-57 | a request served alone leaves the reset slot full and `activeReqs` at its prior value |
| `Watchdog.Watchdog.Stop` | pkg/inactivity/watchdog.go:60-64 | the first call cancels the context; later calls change nothing |
| `Watchdog.Watchdog.WatchDone` | pkg/inactivity/watchdog.go:73-74 | taking the `ctx.Done()` case ends the loop without calling `shutdownFn` |
| `Watchdog.Watchdog.WatchReset` | pkg/inactivity/watchdog.go:76-84 | taking the reset case empties the slot and restarts the timer for the full `timeout`; nothing else changes |
| `Watchdog.Watchdog.WatchTimer` | pkg/inactivity/watchdog.go:86-87 | taking the timer case moves to the drain without calling `shutdownFn` |
| `Watchdog.Watchdog.WatchDrained` | pkg/inactivity/watchdog.go:88-91 | when `Wait` returns at zero, `shutdownFn` runs once and the loop ends |
| `Watchdog.RunInvariant` | pkg/inactivity/watchdog.go:28-91 | on every legal run: `shutdownFn` has run exactly when the loop is done, `cancel` exactly when `Stop` has run, no counter is negative, the timer expires `timeout` after the last reset, and every request that sent is entering, counted or finished |
| `Watchdog.AtMostOnce` | pkg/inactivity/watchdog.go:88-91 | `shutdownFn` and `cancel` each run at most once per watchdog |
| `Watchdog.NoPrematureTimeout` | pkg/inactivity/watchdog.go:76-86 | the timer case is taken no earlier than `timeout` after the last reset the loop took |
| `Watchdog.StoppedIsFinal` | pkg/inactivity/watchdog.go:73-74 | after the loop took the `ctx.Done()` case, no run changes the phase or calls `shutdownFn` |
| `Watchdog.DrainIsStrict` | pkg/inactivity/watchdog.go:86-91 | once draining, resets and `Stop` never bring the loop back; `shutdownFn` runs at most once more and can run whenever `activeReqs` is zero |
| `Watchdog.SendsBlockAfterLoopEnds` | pkg/inactivity/watchdog.go:32 | once the loop has returned, at most one more request gets past its send, none if the slot is full |
| `Watchdog.StopIdempotent` | pkg/inactivity/watchdog.go:60-64 | two `Stop` calls have the effect of one |
| `Watchdog.StopMayLoseToTimer` | pkg/inactivity/watchdog.go:71-91 | when the context and the timer are both ready, the loop may take the timer case and call `shutdownFn` after `Stop` |
| `Watchdog.ShutdownWhileRequestEnters` | pkg/inactivity/watchdog.go:51-53 | `Wait` does not see a request that has sent its signal but not yet called `Add(1)`, so `shutdownFn` can run while it enters |
| `Activity.ActivityTracker.constructor` | activity.go:21-26 | `newActivityTracker` records the creation time, so the idle time at creation is zero |
| `Activity.ActivityTracker.Update` | activity.go:30-34 | `update` sets `lastActivity` to the current time |
| `Activity.ActivityTracker.TimeSinceLastActivity` | activity.go:38-42 | the idle duration is the clock minus `lastActivity`, non-negative exactly when the clock has not gone back past it |
| `Activity.WithActivityTracking` | activity.go:47-51 | the middleware records the activity before it delegates, on every request |
| `Activity.MonitorActivity` | activity.go:63-87 | the ticker loop, with the middleware's updates from another goroutine interleaved between its cases, ends as `Monitor` says, and closes the shutdown channel at most once, exactly when it ends by closing |
| `Activity.ClosesAtFirstIdleTick` | activity.go:71-79 | at the first tick whose idle time is strictly above `shutdownTimeout`, with no cancellation before it, the monitor closes the channel at that tick |
| `Activity.ClosedOnlyAtFirstIdleTick` | activity.go:71-84 | when the monitor closes the channel, it closes at that first triggering tick, and no cancellation came before it |
| `Activity.CancelBeforeIdleNeverCloses` | activity.go:69-70 | a cancellation before every triggering tick ends monitoring without closing the channel |
| `Activity.QuietTickContinues` | activity.go:73-84 | a tick whose idle time is at most `shutdownTimeout`, equality included, does not trigger; monitoring goes on with the tracker unchanged |

## Left out

- HTTP handlers, item storage, database setup, templates, configuration parsing and process plumbing (signal handling, `ListenAndServe`, graceful HTTP shutdown): I/O with no bookkeeping logic.
- The copy of the tracker and monitor in `main.go`: it duplicates `activity.go` (without the context), which is modelled once.
- `internal/app` (server, shutdown middleware, config): a `time.AfterFunc` reset under a mutex, and a plain struct.
- All logging.
- Real time and scheduling: goroutines, `sync.Mutex`, `sync.RWMutex`, `sync.WaitGroup`, `sync.Once`, channels and timers become sequential events, and time becomes a natural-number clock. The inner HTTP handlers are not modelled, so neither are panics. The `defer` that runs the exit accounting on every path is a call that always follows the handler.
- Inactivity.Inactivity.Increment: assumes `timer.Stop()` succeeds. `Stop` returns false when the callback has already begun and waits for the mutex. That race is outside the serialised model and is exhibited only by `StaleCallbackFiresEarly`: the lost callback may then call `onInactive` and leave the fresh timer without a handle. If it takes `mu` between `increment` and `decrement`, it sees `active == 1` and calls nothing.
- Inactivity.ShutdownCancelsPendingFire: holds only when `Stop` wins, that is for a `Shutdown` before the callback has started. The model's `StopTimer` always succeeds. In Go, a `Shutdown` after the timer expired, while the callback waits for `mu`, gets false from `Stop`. The callback then finds `active == 0` and calls `onInactive`.
- Activity.MonitorActivity: tick times are arbitrary. The one-minute ticker period is not enforced, and the properties hold for any tick times.
- Go's `time.Duration` is 64 bits and times are wall-clock values. The model uses unbounded integers, so overflow of durations is not modelled.
