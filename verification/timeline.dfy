/**
  The Animator together with the interval timing driver of src/jsTimeline.js
  (lines 204-224). Of the driver only its guard state is kept: whether the
  interval timer is set, and the wall-clock instant its reported times count
  from. Wall-clock readings arrive as parameters.
 */
module Timeline {
  import opened Wrappers
  import Animator
  import Tweener

  datatype IntervalDriver = IntervalDriver(timer: bool, offset: real)

  const Stopped: IntervalDriver := IntervalDriver(false, 0.0)

  /** The raw time a timer firing at wall-clock `now` hands to the Animator:
      the wall-clock time elapsed since the driver last started, divided by 100. */
  function ReportedTime(d: IntervalDriver, now: real): (t: real)
    ensures d.offset + 100.0 * t == now
    ensures now >= d.offset ==> t >= 0.0
  {
    (now - d.offset) / 100.0
  }

  /** `attach`: ignored while the timer is set; otherwise the timer starts and
      raw time restarts from zero at `now`. */
  function DriverAttach(d: IntervalDriver, now: real): (r: IntervalDriver)
    ensures r.timer
    ensures d.timer ==> r == d
    ensures !d.timer ==> ReportedTime(r, now) == 0.0
  {
    if !d.timer then IntervalDriver(true, now) else d
  }

  /** `detach`: ignored while stopped; otherwise the timer is cleared. */
  function DriverDetach(d: IntervalDriver): (r: IntervalDriver)
    ensures !r.timer
    ensures !d.timer ==> r == d
    ensures r.offset == d.offset
  {
    if d.timer then d.(timer := false) else d
  }

  /** Between restarts, the reported raw time never decreases. */
  lemma ReportedTimeMonotone(d: IntervalDriver, now1: real, now2: real)
    requires now1 <= now2
    ensures ReportedTime(d, now1) <= ReportedTime(d, now2)
  {
    assert ReportedTime(d, now2) - ReportedTime(d, now1) == (now2 - now1) / 100.0;
  }

  /** The driver after the Animator's calls, made in order at wall-clock `now`. */
  function Perform(d: IntervalDriver, calls: seq<Animator.DriverCall>, now: real): (r: IntervalDriver)
    ensures calls == [] ==> r == d
    ensures calls != [] ==> (r.timer <==> calls[|calls| - 1] == Animator.Attach)
    decreases |calls|
  {
    if calls == [] then d
    else
      var d' := if calls[0] == Animator.Attach then DriverAttach(d, now) else DriverDetach(d);
      Perform(d', calls[1..], now)
  }

  datatype System = System(anim: Animator.State, driver: IntervalDriver)

  function Init(): System
  {
    System(Animator.Init(), Stopped)
  }

  /** The timer is set exactly while some listener is connected. */
  ghost predicate AttachedIffListening(s: System)
  {
    s.driver.timer <==> |s.anim.listeners| > 0
  }

  /** A call into the system; `now` is the wall clock where the driver reads it. */
  datatype Event =
    | Connect(listener: Animator.ListenerId, now: real)
    | Disconnect(listener: Animator.ListenerId)
    | Fire(now: real)
    | Pause
    | Unpause

  /** `Fire` is the interval timer going off: it ticks the Animator only while set. */
  function Step(s: System, e: Event, result: Animator.Results): System
  {
    match e
    case Connect(x, now) =>
      var st := Animator.Connect(s.anim, x);
      System(st.next, Perform(s.driver, st.calls, now))
    case Disconnect(x) =>
      var st := Animator.Disconnect(s.anim, x);
      System(st.next, Perform(s.driver, st.calls, 0.0))
    case Fire(now) =>
      if s.driver.timer then
        var o := Animator.Tick(s.anim, ReportedTime(s.driver, now), result);
        System(o.next, Perform(s.driver, o.calls, now))
      else s
    case Pause => s.(anim := Animator.Pause(s.anim))
    case Unpause => s.(anim := Animator.Unpause(s.anim))
  }

  function Run(s: System, evs: seq<Event>, result: Animator.Results): System
    decreases |evs|
  {
    if evs == [] then s else Run(Step(s, evs[0], result), evs[1..], result)
  }

  /** Each call keeps the timer set exactly while the list is non-empty: the
      Animator's repeated `attach` and redundant `detach` calls are absorbed by
      the driver's guards. */
  lemma StepKeepsAttachedIffListening(s: System, e: Event, result: Animator.Results)
    requires AttachedIffListening(s)
    ensures AttachedIffListening(Step(s, e, result))
  {
  }

  /** From the idle start, through any sequence of calls, the driver is running
      iff the listener list is non-empty. */
  lemma {:induction false} AttachedIffListeningAlways(evs: seq<Event>, result: Animator.Results)
    ensures AttachedIffListening(Run(Init(), evs, result))
  {
    RunKeepsAttachedIffListening(Init(), evs, result);
  }

  lemma {:induction false} RunKeepsAttachedIffListening(s: System, evs: seq<Event>, result: Animator.Results)
    requires AttachedIffListening(s)
    ensures AttachedIffListening(Run(s, evs, result))
    decreases |evs|
  {
    if evs != [] {
      StepKeepsAttachedIffListening(s, evs[0], result);
      RunKeepsAttachedIffListening(Step(s, evs[0], result), evs[1..], result);
    }
  }

  /** Connecting a second listener calls `attach` again; the running timer
      ignores it, so its schedule and time base are untouched. */
  lemma RepeatedAttachIgnored(s: System, x: Animator.ListenerId, now: real)
    requires AttachedIffListening(s) && |s.anim.listeners| > 0
    ensures x !in s.anim.listeners ==> Animator.Connect(s.anim, x).calls == [Animator.Attach]
    ensures Step(s, Connect(x, now), (id: Animator.ListenerId, t: real) => true).driver == s.driver
  {
  }

  /** Disconnecting from an empty list calls `detach` again; the stopped driver
      ignores it. */
  lemma RedundantDetachIgnored(s: System, x: Animator.ListenerId)
    requires AttachedIffListening(s) && s.anim.listeners == []
    ensures Animator.Disconnect(s.anim, x).calls == [Animator.Detach]
    ensures Step(s, Disconnect(x), (id: Animator.ListenerId, t: real) => true) == s
  {
  }

  /** Once the list has emptied, the driver stops; the next `attach` restarts raw
      time from zero, while the Animator keeps its old `lastTime` and offset. So
      `getTime` jumps back. A tween started in between reads its start time from
      the stale clock; while the restarted clock is still below that start time,
      its ticks see a negative elapsed time and report progress 0. With
      auto-disconnect on, as here, the first such tick drops it without ever
      finishing. */
  lemma RestartDropsLateTween()
    ensures var s1 := Run(Init(), [Connect(1, 0.0), Fire(5000.0)], (id: Animator.ListenerId, t: real) => false);
      && s1.anim.listeners == [] && !s1.driver.timer && Animator.GetTime(s1.anim) == 50.0
      && var st := Tweener.Start(s1.anim, 2, 10.0, None, Tweener.Undefined, true);
      var s2 := System(st.step.next, Perform(s1.driver, st.step.calls, 6000.0));
      var s3 := Step(s2, Fire(6020.0), Tweener.AsListener(st.tween));
      && st.tween.startTime == 50.0
      && s2.driver.timer
      && Animator.GetTime(s3.anim) < Animator.GetTime(s1.anim)
      && Tweener.Tick(st.tween, Animator.GetTime(s3.anim)) == Tweener.Report(Tweener.Num(0.0), false, false)
      && s3.anim.listeners == [] && !s3.driver.timer
  {
  }

  /** The same restart with auto-disconnect off: the tween is not dropped but
      stalls at progress 0, and the timer keeps running, until the restarted
      clock catches up with its stale start time. The idle state is the one
      a first listener leaves behind (`IdleAfterOneListener`). */
  lemma RestartStallsPersistentTween()
    ensures var idle := System(Animator.State([], false, false, 0.0, 0.0, 50.0), Stopped);
      var st := Tweener.Start(idle.anim, 2, 10.0, None, Tweener.Passed(false), true);
      var s2 := System(st.step.next, Perform(idle.driver, st.step.calls, 6000.0));
      var s3 := Step(s2, Fire(6020.0), Tweener.AsListener(st.tween));
      && Tweener.Tick(st.tween, Animator.GetTime(s3.anim)) == Tweener.Report(Tweener.Num(0.0), false, true)
      && s3.anim.listeners == [2] && s3.driver.timer
  {
    var idle := System(Animator.State([], false, false, 0.0, 0.0, 50.0), Stopped);
    var st := Tweener.Start(idle.anim, 2, 10.0, None, Tweener.Passed(false), true);
    var s2 := System(st.step.next, Perform(idle.driver, st.step.calls, 6000.0));
    assert s2 == System(Animator.State([2], false, false, 0.0, 0.0, 50.0), IntervalDriver(true, 6000.0));
    RestartedTick(st.tween);
  }

  /** One listener connected at wall clock 0 and dropped by the timer firing at
      5000 leaves the Animator idle at raw time 50, with the timer cleared: the
      state both restart lemmas start from. */
  lemma IdleAfterOneListener(result: Animator.Results)
    requires !result(1, 50.0)
    ensures Run(Init(), [Connect(1, 0.0), Fire(5000.0)], result)
      == System(Animator.State([], false, false, 0.0, 0.0, 50.0), Stopped)
  {
    var a0 := Animator.State([1], false, false, 0.0, 0.0, 0.0);
    var s0 := System(a0, IntervalDriver(true, 0.0));
    assert Animator.Connect(Animator.Init(), 1) == Animator.Step(a0, [Animator.Attach]);
    assert Perform(Stopped, [Animator.Attach], 0.0) == IntervalDriver(true, 0.0);
    assert Step(Init(), Connect(1, 0.0), result) == s0;
    assert ReportedTime(s0.driver, 5000.0) == 50.0;
    var o := Animator.Tick(a0, 50.0, result);
    assert 1 !in o.next.listeners;
    assert o.next.listeners == [];
    assert o.next == Animator.State([], false, false, 0.0, 0.0, 50.0) && o.calls == [Animator.Detach];
    assert Perform(s0.driver, [Animator.Detach], 5000.0) == Stopped;
    var s1 := System(o.next, Stopped);
    assert Step(s0, Fire(5000.0), result) == s1;
    assert [Connect(1, 0.0), Fire(5000.0)][1..] == [Fire(5000.0)];
    assert Run(s0, [Fire(5000.0)], result) == Run(s1, [], result);
  }

  /** The first firing after the restart, for a persistent tween that started
      at the stale time 50. */
  lemma RestartedTick(tw: Tweener.Tween)
    requires tw.startTime == 50.0 && tw.duration == 10.0 && tw.easing.None? && !tw.autoDisconnect
    ensures var s2 := System(Animator.State([tw.listener], false, false, 0.0, 0.0, 50.0), IntervalDriver(true, 6000.0));
      var s3 := Step(s2, Fire(6020.0), Tweener.AsListener(tw));
      && Tweener.Tick(tw, Animator.GetTime(s3.anim)).pos == Tweener.Num(0.0)
      && Tweener.Tick(tw, Animator.GetTime(s3.anim)).keep
      && s3.anim.listeners == [tw.listener] && s3.driver.timer
  {
    var a := Animator.State([tw.listener], false, false, 0.0, 0.0, 50.0);
    assert ReportedTime(IntervalDriver(true, 6000.0), 6020.0) == 0.2;
    Tweener.AnimatorDropsFinishedTween(a, tw, 0.2);
    assert Tweener.Tick(tw, 0.2).keep;
  }
}
