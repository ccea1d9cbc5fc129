# jsTimeline in Dafny

A model of the animation core of jsTimeline (`src/jsTimeline.js`):

- **Animator** (`animator.dfy`, `runs.dfy`): a time source that hands each tick
  of a timing driver to an ordered list of listeners, drops listeners that
  return false, and hides paused intervals behind an offset. The state is an
  immutable record (listener ids, `connected`, `paused`, `pausedAt`, `offset`,
  `lastTime`). Connect, disconnect, pause and unpause are pure transitions.
  Connect and disconnect also return the `attach`/`detach` calls they make on
  the driver. A listener is an opaque id, and what it returns is an oracle
  `(id, correctedTime) -> bool`.
- **Tick** is modelled twice. `Animator.Tick` is the mark-and-sweep reference:
  call every listener oldest first, then keep those that returned true.
  `Animator.TickInPlace` follows the source's index loop, which splices the
  list while iterating over it. A proof shows that the two agree.
- **Tweener** (`tweener.dfy`): the listener that maps elapsed time to clamped,
  eased progress. It fires its done callback past the end of its window and
  asks to be removed outside that window. The model records the callbacks'
  arguments (`Report`) instead of their visual effects.
- **Easing** (`easing.dfy`): `symmetric` and `inverse` as higher-order functions
  over `real`, plus the Linear, Quad, Cubic, Quart, Quint, Back and Bounce curves.
- **Timeline** (`timeline.dfy`): the Animator together with the interval
  driver's guard state (timer set or not, and its time base). The wall clock
  is a parameter.

The model follows the code as written, including behaviour that a reader of the code might not expect:

- `connect` calls `attach` for every new listener, not only the first one.
- `disconnect` calls `detach` whenever the list ends up empty, even when the
  listener was not in the list.
- The driver's guards absorb both redundant calls (`Timeline.RepeatedAttachIgnored`,
  `Timeline.RedundantDetachIgnored`). So the driver runs exactly while the list
  is non-empty (`Timeline.AttachedIffListeningAlways`).
- `connected` is never written (`Runs.ConnectedNeverWritten`).
- Quint is the fourth power (`Easing.QuintIsQuartic`).
- A zero duration is not guarded. A tick at exactly the start time then
  computes `0/0`, and the progress callback receives NaN (`Tweener.LinearPosition`).
- `getTime` does not keep going forward across driver restarts. After the list
  empties, the interval driver stops. The next `attach` restarts raw time at
  zero, while the Animator keeps its old `lastTime` and offset. A tween started
  after such an idle period reads its start time from the stale clock, and its
  ticks see a negative elapsed time, reporting progress 0, for as long as the
  restarted clock is below that start time. With auto-disconnect on, the first
  such tick drops it without ever finishing (`Timeline.RestartDropsLateTween`).
  With auto-disconnect off, it stays connected and stalls at progress 0, and
  the timer keeps running (`Timeline.RestartStallsPersistentTween`). Between
  restarts, with non-decreasing raw times, `getTime` never decreases
  (`Runs.OffsetNeverDecreases`).

Times and easing values are exact `real`s.

## Model

| member | source | states |
|---|---|---|
| Easing.Inverse | src/jsTimeline.js:118-123 | the inverse curve at `pos` and the original at `1 - pos` add up to 1: a reflection through (0.5, 0.5), with the extra argument passed through |
| Easing.InOut | src/jsTimeline.js:130-135 | the spliced curve starts at 0 when the ease-in does, passes through 0.5 at the midpoint when the ease-out starts at 0, and ends at 1 when the ease-out does |
| Easing.Symmetric | src/jsTimeline.js:117-137 | a curve that is given is used unchanged; a missing ease-out is `1 - easeIn(1 - t)`; a missing ease-in is `1 - easeOut(1 - t)` |
| Easing.InverseIsInvolution | src/jsTimeline.js:118-123 | reflecting a curve twice gives it back |
| Easing.DerivedDirectionReflects | src/jsTimeline.js:125-126 | when one direction is derived, `easeOut(t) = 1 - easeIn(1 - t)` and `easeIn(t) = 1 - easeOut(1 - t)` hold exactly |
| Easing.InOutSplice | src/jsTimeline.js:130-135 | easeInOut runs the ease-in at half amplitude below 0.5 and the ease-out, shifted up by 0.5, from 0.5 on |
| Easing.InOutEndpoints | src/jsTimeline.js:125-135 | whenever the in-curve maps 0 to 0 and 1 to 1, easeInOut maps 0 to 0, 0.5 to 0.5 and 1 to 1 |
| Easing.Overshoot | src/jsTimeline.js:140 | a missing or zero `s` falls back to 1.70158, so the overshoot is never 0, and a given non-zero `s` is used as it is |
| Easing.BackIn | src/jsTimeline.js:139-142 | Back is the cubic ease-in less an overshoot term `k * pos^2 * (1 - pos)`, which vanishes at both ends |
| Easing.BackInEndpoints | src/jsTimeline.js:139-142 | backIn(0) = 0 and backIn(1) = 1 for every overshoot `s` |
| Easing.BackInOvershoot | src/jsTimeline.js:139-142 | with the default overshoot 1.70158, which is also used for `s = 0`, backIn(0.1) is exactly -0.01431422, strictly between -0.05 and 0 |
| Easing.BounceOut | src/jsTimeline.js:144-157 | on [0, 1], each of the four arcs stays within [0, 1]: the curve never overshoots its end value |
| Easing.BounceOutEndpoints | src/jsTimeline.js:144-157 | bounceOut(0) = 0 and bounceOut(1) = 1 in exact arithmetic |
| Easing.Table | src/jsTimeline.js:189-201 | every entry names one direction and derives the other by reflection: the ease-out for all entries but Bounce, whose ease-in is derived from its named ease-out |
| Easing.TableEaseInEndpoints | src/jsTimeline.js:189-201 | every ease-in of Linear, Quad, Cubic, Quart, Quint, Back and Bounce fixes 0 and 1, including Bounce's derived one |
| Easing.TableInOutEndpoints | src/jsTimeline.js:189-201 | every easeInOut of those seven curves fixes 0, 0.5 and 1 |
| Easing.QuintIsQuartic | src/jsTimeline.js:193-194 | the Quint entry equals Quart in all three forms and is not the fifth power |
| Animator.Init | src/jsTimeline.js:19-24 | a new Animator has no listeners, is running, has `connected` false, and reads time 0 |
| Animator.LastIndexOf | src/jsTimeline.js:52-57 | the identity search from the end returns the highest index that holds the listener, or -1 exactly when the listener is absent |
| Animator.Connect | src/jsTimeline.js:40-49 | a listener already present leaves the state unchanged and calls nothing; a new one is put at the front with exactly one `attach` call, whatever the list held before |
| Animator.RemoveLast | src/jsTimeline.js:52-57 | the list loses exactly one occurrence of the listener, or stays the same when the listener is absent |
| Animator.Disconnect | src/jsTimeline.js:50-61 | only the list changes; one occurrence is removed; `detach` is called exactly when the resulting list is empty, including when nothing was removed |
| Animator.GetTime | src/jsTimeline.js:62-67 | the reported time plus the hidden paused time is the raw time of the last tick while running, and the raw time of the pause instant while paused |
| Animator.Pause | src/jsTimeline.js:68-73 | pause sets the paused flag, is a no-op when already paused, and leaves `getTime` unchanged |
| Animator.Unpause | src/jsTimeline.js:74-79 | unpause clears the paused flag, is a no-op when running, and leaves `getTime` unchanged, because the paused interval moves into the offset |
| Animator.Survivors | src/jsTimeline.js:32-38 | a listener stays after a pass exactly when it was present and returned true |
| Animator.OldestFirst | src/jsTimeline.js:32-34 | the k-th call of a pass goes to the listener at index `length-1-k`, with the same corrected time |
| Animator.Tick | src/jsTimeline.js:25-39 | a tick records the raw time; while paused it calls no listener and keeps the list; otherwise every listener is called once, oldest first, with `time - offset`, and exactly those that returned true remain; `detach` is called once, exactly when the pass empties a non-empty list |
| Animator.TickInPlace | src/jsTimeline.js:25-39 | the source's index loop, which disconnects a listener mid-iteration by splicing, computes exactly the mark-and-sweep outcome of `Tick` |
| Animator.ConnectKeepsNoDuplicates | src/jsTimeline.js:40-49 | connect never creates a duplicate listener |
| Animator.DisconnectRemovesExactly | src/jsTimeline.js:50-61 | on a duplicate-free list, disconnect removes the entry at the listener's index and keeps all the others in order |
| Animator.DisconnectLeavesNoCopy | src/jsTimeline.js:50-61 | on a duplicate-free list, no copy of the listener is left after a disconnect |
| Animator.DisconnectTwice | src/jsTimeline.js:50-61 | a second disconnect of the same listener leaves the list as it is and repeats only the `detach` call of an empty list |
| Animator.DisconnectKeepsOrder | src/jsTimeline.js:52-57 | the remaining listeners keep their relative order after a disconnect |
| Animator.TickKeepsOrder | src/jsTimeline.js:30-38 | the remaining listeners keep their relative order after a tick |
| Animator.TickKeepsNoDuplicates | src/jsTimeline.js:30-38 | a tick never creates a duplicate listener |
| Animator.DispatchOrderIsReverse | src/jsTimeline.js:32-34 | the dispatch order is the listener list read backwards |
| Runs.ApplyIsMonotone | src/jsTimeline.js:25-79 | given a raw time no earlier than the last one, no single call shrinks the offset or moves `getTime` back |
| Runs.OffsetNeverDecreases | src/jsTimeline.js:74-79 | with non-decreasing raw times, the offset and `getTime` never decrease across any sequence of calls |
| Runs.PausedStretchIsFrozen | src/jsTimeline.js:62-73 | while paused and until the next unpause, ticks only move `lastTime`; `pausedAt`, the offset and `getTime` stay fixed |
| Runs.PauseResumeContinuity | src/jsTimeline.js:62-79 | `getTime` right after unpause equals `getTime` right before pause, whatever calls came in between |
| Runs.PauseScenario | src/jsTimeline.js:25-79 | a pause in numbers: paused at raw time 5, ticks 6, 7 and 8 are ignored, and after unpausing, raw tick 9 reads as time 6 |
| Runs.ConnectedNeverWritten | src/jsTimeline.js:20 | the `connected` field keeps its initial value through any sequence of calls |
| Runs.RunKeepsNoDuplicates | src/jsTimeline.js:40-61 | through any sequence of calls, the list never holds a listener twice |
| Runs.ConnectAllOrder | src/jsTimeline.js:40-49 | after a series of connects, the list read from the end is the old list followed by the newcomers in connection order |
| Runs.ReversePrepend | src/jsTimeline.js:47 | a listener put at the front by `unshift` comes last when the list is read backwards, as the tick's dispatch reads it |
| Runs.ConnectAllCalls | src/jsTimeline.js:40-49 | a series of connects makes exactly one `attach` call per newcomer and none for a listener already present |
| Runs.DispatchFollowsConnectOrder | src/jsTimeline.js:32-49 | listeners connected one after another to an idle Animator are each called once per tick, in the order they were connected |
| Tweener.AutoDisconnect | src/jsTimeline.js:91 | `autoDisconnect` is on when the argument is `undefined`; otherwise it follows the argument's truthiness |
| Tweener.LinearPosition | src/jsTimeline.js:95-97 | progress before easing is 0 below the start and 1 past the end, `delta/duration` in between, and in [0,1] for a positive duration; it is NaN exactly when `delta = duration = 0` |
| Tweener.Ease | src/jsTimeline.js:98-100 | NaN stays NaN; without easing the clamped progress is passed on unchanged; with easing the curve receives the clamped progress and no extra argument |
| Tweener.Tick | src/jsTimeline.js:94-109 | the progress value is the clamped `delta/duration` (NaN exactly at `0/0`) passed through the easing if one is present, and that clamped value itself without easing; the done callback fires iff `delta > duration` and a done callback exists; the tick returns false iff `autoDisconnect` holds and `delta` lies outside [0, duration] |
| Tweener.Start | src/jsTimeline.js:86-110 | construction stores its arguments, takes the start time from the Animator's `getTime()` before connecting, resolves `autoDisconnect`, and then makes exactly the Animator's `connect`, with its one `attach` call for a new listener |
| Tweener.Terminate | src/jsTimeline.js:111-113 | terminate is the Animator's `disconnect` of the tween's listener: the listener is gone from a duplicate-free list, the others keep their order, `detach` is called whenever the list ends up empty, and the state is unchanged when the listener was absent |
| Tweener.StartThenTerminate | src/jsTimeline.js:86-113 | terminating a freshly started tween restores the Animator exactly, after one `attach` and a `detach` exactly when the Animator had no other listener |
| Tweener.EndpointsWithoutEasing | src/jsTimeline.js:95-97 | without easing, progress is exactly 0 at or before the start and exactly 1 at or after the end |
| Tweener.ProgressMonotone | src/jsTimeline.js:95-100 | for a positive duration and a monotone easing on [0,1], progress never decreases as time increases |
| Tweener.DoneAtMostOnce | src/jsTimeline.js:102-107 | with auto-disconnect on, the done callback fires at most once over the ticks a tween receives |
| Tweener.DoneRepeatsWithoutAutoDisconnect | src/jsTimeline.js:102-108 | with auto-disconnect off, the tween receives every tick and the done callback fires on every tick past the end |
| Tweener.AnimatorDropsFinishedTween | src/jsTimeline.js:105-107 | a running Animator keeps a connected tween after a tick iff its tick did not ask to leave |
| Tweener.LinearScenario | src/jsTimeline.js:94-109 | a linear tween in numbers: duration 10, linear easing, ticks 0, 2, ..., 12 give progress 0, 0.2, ..., 1, 1, and done and removal happen at tick 12 only |
| Timeline.DriverAttach | src/jsTimeline.js:207-216 | the interval driver's `attach` ignores a running timer; otherwise it starts the timer, and raw time counts from zero at that instant |
| Timeline.DriverDetach | src/jsTimeline.js:217-222 | the interval driver's `detach` stops the timer and ignores a stopped one |
| Timeline.ReportedTime | src/jsTimeline.js:208-211 | the reported raw time is the wall-clock time elapsed since the driver last started, divided by 100: `offset + 100 * t = now`, and it is not negative from the start on |
| Timeline.ReportedTimeMonotone | src/jsTimeline.js:208-211 | between restarts, the raw times the driver reports never decrease |
| Timeline.Perform | src/jsTimeline.js:207-222 | after a sequence of Animator calls, the timer is running iff the last call was `attach` |
| Timeline.StepKeepsAttachedIffListening | src/jsTimeline.js:207-222 | each connect, disconnect, timer firing, pause or unpause keeps the timer running exactly while the list is non-empty, because the driver's guards absorb the repeated `attach` and redundant `detach` calls |
| Timeline.RunKeepsAttachedIffListening | src/jsTimeline.js:40-79 | that invariant holds across any sequence of calls |
| Timeline.AttachedIffListeningAlways | src/jsTimeline.js:204-224 | from the idle start, the driver is running iff the listener list is non-empty |
| Timeline.RepeatedAttachIgnored | src/jsTimeline.js:212-215 | connecting while listeners exist calls `attach` again, and the running driver is left untouched |
| Timeline.RedundantDetachIgnored | src/jsTimeline.js:218-221 | disconnecting from an empty list calls `detach` again, and the stopped system is left untouched |
| Timeline.IdleAfterOneListener | src/jsTimeline.js:25-61 | a single listener connected at wall clock 0 and dropped by the firing at 5000 leaves the Animator idle at raw time 50 with the timer cleared, the state both restart lemmas start from |
| Timeline.RestartStallsPersistentTween | src/jsTimeline.js:207-216 | in the same restart, a tween with auto-disconnect off stays connected, stalls at progress 0 without a done callback, and keeps the timer running |
| Timeline.RestartDropsLateTween | src/jsTimeline.js:207-216 | after the list empties and the driver restarts with its offset reset, `getTime` goes back, and an auto-disconnecting tween started in between is dropped on its first tick with progress 0 and no done callback |

## Left out

- The Circ, Sine, Expo and Elastic curves (src/jsTimeline.js:159-187, 195-196, 199-200) are not modelled. They need sqrt, cos, pow, asin and sin, which have no exact counterpart over `real`.
- IEEE-754 rounding is not modelled. All arithmetic is exact. In the model, NaN appears only as the result of the tween's `0/0`. Easing a NaN is taken to give NaN, which holds for every curve modelled here.
- `s || 1.70158` also replaces a NaN overshoot with the default. Reals have no NaN, so only `undefined` and 0 are modelled.
- Easing functions get the first pass-through extra argument only. Of the modelled curves only Back reads an extra argument, its overshoot. Elastic, which is not modelled, also reads the second, as its wave length. No curve reads the third.
- The frame-callback driver (src/jsTimeline.js:228-253) is host I/O and is not modelled. So are the wall-clock reads and the `setInterval`/`clearInterval` calls. Of the interval driver, only the guard state and the time base are kept, and the clock reading is a parameter.
- The global default timeline and `jsTimelineTweener` (src/jsTimeline.js:226, 255, 258-260) are module wiring and are not modelled.
- The constructor-or-factory check `this === window` is a calling-convention artefact and is not modelled.
- Listeners that connect or disconnect other listeners during a dispatch are not modelled; the order they produce is unspecified. A listener's return value depends only on its identity and the time it is given.
- Exceptions thrown by listeners, callbacks or easings are not modelled. They propagate unchanged to the caller.
- Easing.Symmetric: calling `symmetric` with both curves missing yields curves that throw when used. That caller error is excluded by the precondition.
- A missing (`undefined`) tween duration is not modelled: `Tweener.Tween` always holds a number. In the source (src/jsTimeline.js:88, 97, 102, 105) every comparison with an undefined duration is false, so for `delta >= 0` the progress callback receives `delta / undefined`, which is NaN, on every tick; the done callback never fires, and even with auto-disconnect on the tween stays connected while `delta >= 0`. Before the start it reports 0 and, with auto-disconnect on, leaves.
- The visual effects of the progress and done callbacks are not modelled. Their invocations are recorded in `Tweener.Report` instead.
