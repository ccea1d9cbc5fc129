/**
  The Tweener of src/jsTimeline.js (lines 82-114): a tick listener that turns
  the time elapsed since its start into a clamped, eased progress value, fires
  its done callback past the end, and asks to be disconnected outside its window.
 */
module Tweener {
  import opened Wrappers
  import Easing
  import Animator

  /** A JavaScript number as far as the progress value goes: finite, or the NaN
      of `0 / 0`. */
  datatype Number = Num(value: real) | NaN

  /** The `autoDisconnect` argument: `undefined`, or some value with its truthiness. */
  datatype FlagArg = Undefined | Passed(truthy: bool)

  datatype Tween = Tween(
    listener: Animator.ListenerId,
    duration: real,
    startTime: real,
    easing: Option<Easing.Curve>,
    autoDisconnect: bool,
    hasDone: bool)

  /** What one tick does: the value handed to the progress callback, whether the
      done callback was called, and the listener's return value. */
  datatype Report = Report(pos: Number, doneFired: bool, keep: bool)

  /** `autoDisconnect` defaults to on only when the argument is `undefined`;
      anything passed counts by its truthiness. */
  function AutoDisconnect(arg: FlagArg): (on: bool)
    ensures arg.Passed? ==> on == arg.truthy
    ensures arg.Undefined? ==> on
  {
    if arg.Undefined? then true else arg.truthy
  }

  /** Progress before easing: clamped below at 0, above at 1, linear between.
      Only `delta == duration == 0` reaches the division with a zero divisor. */
  function LinearPosition(delta: real, duration: real): (p: Number)
    ensures p.NaN? <==> delta == 0.0 && duration == 0.0
    ensures delta < 0.0 ==> p == Num(0.0)
    ensures 0.0 <= delta && duration < delta ==> p == Num(1.0)
    ensures 0.0 < duration && 0.0 <= delta <= duration ==> p == Num(delta / duration)
    ensures 0.0 < duration ==> p.Num? && 0.0 <= p.value <= 1.0
  {
    if delta < 0.0 then Num(0.0)
    else if delta > duration then Num(1.0)
    else if duration == 0.0 then NaN
    else Num(delta / duration)
  }

  /** The easing, when present, is applied to the clamped value, with no extra
      arguments. The curves of the table send NaN to NaN. */
  function Ease(easing: Option<Easing.Curve>, p: Number): (r: Number)
    ensures r.NaN? <==> p.NaN?
    ensures easing.None? ==> r == p
    ensures easing.Some? && p.Num? ==> r == Num(easing.value(p.value, None))
  {
    match p
    case NaN => NaN
    case Num(v) => if easing.Some? then Num(easing.value(v, None)) else p
  }

  /** The listener's `tick(timestamp)`. */
  function Tick(tw: Tween, timestamp: real): (r: Report)
    ensures var delta := timestamp - tw.startTime;
      && r.pos == Ease(tw.easing, LinearPosition(delta, tw.duration))
      && (r.pos.NaN? <==> delta == 0.0 && tw.duration == 0.0)
      && (tw.easing.None? ==> r.pos == LinearPosition(delta, tw.duration))
      && (tw.easing.None? && 0.0 < tw.duration ==> r.pos.Num? && 0.0 <= r.pos.value <= 1.0)
      && (tw.easing.Some? && 0.0 < tw.duration ==>
            r.pos == Num(tw.easing.value(LinearPosition(delta, tw.duration).value, None)))
      && (r.doneFired <==> delta > tw.duration && tw.hasDone)
      && (!r.keep <==> tw.autoDisconnect && (delta < 0.0 || delta > tw.duration))
  {
    var delta := timestamp - tw.startTime;
    var raw := LinearPosition(delta, tw.duration);
    var pos := Ease(tw.easing, raw);
    Report(pos, delta > tw.duration && tw.hasDone, !(tw.autoDisconnect && (delta < 0.0 || delta > tw.duration)))
  }

  /** Construction: the start time is the Animator's current time, read before
      the listener connects. */
  datatype Started = Started(tween: Tween, step: Animator.Step)

  function Start(anim: Animator.State, listener: Animator.ListenerId, duration: real,
                 easing: Option<Easing.Curve>, autoArg: FlagArg, hasDone: bool): (s: Started)
    ensures s.tween.startTime == Animator.GetTime(anim)
    ensures s.tween.autoDisconnect == AutoDisconnect(autoArg)
    ensures s.tween.listener == listener && s.tween.duration == duration
    ensures s.tween.easing == easing && s.tween.hasDone == hasDone
    ensures s.step == Animator.Connect(anim, listener)
    ensures listener in s.step.next.listeners
    ensures listener !in anim.listeners ==> s.step.calls == [Animator.Attach]
    ensures s.step.next.paused == anim.paused && s.step.next.offset == anim.offset
  {
    var tw := Tween(listener, duration, Animator.GetTime(anim), easing, AutoDisconnect(autoArg), hasDone);
    Started(tw, Animator.Connect(anim, listener))
  }

  /** `terminate`: disconnect the listener from the Animator. The other
      listeners keep their order, and `detach` is called whenever the list ends
      up empty, even when the listener had already left. */
  function Terminate(anim: Animator.State, tw: Tween): (r: Animator.Step)
    ensures r == Animator.Disconnect(anim, tw.listener)
    ensures Animator.NoDuplicates(anim.listeners) ==> tw.listener !in r.next.listeners
    ensures Animator.Subsequence(r.next.listeners, anim.listeners)
    ensures r.calls == (if r.next.listeners == [] then [Animator.Detach] else [])
    ensures tw.listener !in anim.listeners ==> r.next == anim
  {
    Animator.DisconnectLeavesNoCopy(anim, tw.listener);
    Animator.DisconnectKeepsOrder(anim, tw.listener);
    Animator.Disconnect(anim, tw.listener)
  }

  /** Terminating a freshly started tween undoes its start: the Animator is back
      where it was, after one `attach` and a `detach` exactly when it had no
      other listener. */
  lemma StartThenTerminate(anim: Animator.State, listener: Animator.ListenerId, duration: real,
                           easing: Option<Easing.Curve>, autoArg: FlagArg, hasDone: bool)
    requires Animator.NoDuplicates(anim.listeners) && listener !in anim.listeners
    ensures var s := Start(anim, listener, duration, easing, autoArg, hasDone);
      var r := Terminate(s.step.next, s.tween);
      && s.step.calls == [Animator.Attach]
      && r.next == anim
      && r.calls == (if anim.listeners == [] then [Animator.Detach] else [])
  {
    var s := Start(anim, listener, duration, easing, autoArg, hasDone);
    var ls := s.step.next.listeners;
    assert ls == [listener] + anim.listeners;
    Animator.ConnectKeepsNoDuplicates(anim, listener);
    Animator.DisconnectRemovesExactly(s.step.next, listener, 0);
    assert ls[..0] + ls[1..] == anim.listeners;
  }

  /** Without easing, progress is exactly 0 up to the start and exactly 1 from
      the end of the window on. */
  lemma EndpointsWithoutEasing(tw: Tween, timestamp: real)
    requires tw.easing.None? && 0.0 < tw.duration
    ensures timestamp <= tw.startTime ==> Tick(tw, timestamp).pos == Num(0.0)
    ensures timestamp >= tw.startTime + tw.duration ==> Tick(tw, timestamp).pos == Num(1.0)
  {
    if timestamp == tw.startTime + tw.duration {
      assert timestamp - tw.startTime == tw.duration;
      assert tw.duration / tw.duration == 1.0;
    }
  }

  /** Progress never goes back as time moves forward, for a monotonic easing. */
  lemma ProgressMonotone(tw: Tween, t1: real, t2: real)
    requires 0.0 < tw.duration && t1 <= t2
    requires tw.easing.Some? ==>
      forall x, y :: 0.0 <= x <= y <= 1.0 ==> tw.easing.value(x, None) <= tw.easing.value(y, None)
    ensures Tick(tw, t1).pos.Num? && Tick(tw, t2).pos.Num?
    ensures Tick(tw, t1).pos.value <= Tick(tw, t2).pos.value
  {
    var d1 := t1 - tw.startTime;
    var d2 := t2 - tw.startTime;
    var p1 := LinearPosition(d1, tw.duration);
    var p2 := LinearPosition(d2, tw.duration);
    if 0.0 <= d1 && d2 <= tw.duration {
      DivMonotone(d1, d2, tw.duration);
    }
    assert p1.value <= p2.value;
  }

  lemma DivMonotone(x: real, y: real, d: real)
    requires 0.0 < d && x <= y
    ensures x / d <= y / d
  {
    assert y / d - x / d == (y - x) / d;
  }

  /** The ticks a tween receives while it stays connected: delivery stops after
      the first tick on which it returns false. */
  function Deliver(tw: Tween, ts: seq<real>): (rs: seq<Report>)
    ensures |rs| <= |ts|
    decreases |ts|
  {
    if ts == [] then []
    else
      var r := Tick(tw, ts[0]);
      if !r.keep then [r] else [r] + Deliver(tw, ts[1..])
  }

  function DoneCount(rs: seq<Report>): nat
    decreases |rs|
  {
    if rs == [] then 0 else (if rs[0].doneFired then 1 else 0) + DoneCount(rs[1..])
  }

  /** The number of times in `ts` past the end of the window. */
  function LateCount(tw: Tween, ts: seq<real>): nat
    decreases |ts|
  {
    if ts == [] then 0 else (if ts[0] - tw.startTime > tw.duration then 1 else 0) + LateCount(tw, ts[1..])
  }

  /** With auto-disconnect on, the done callback fires at most once over the
      whole life of the listener: the tick that fires it also ends delivery. */
  lemma {:induction false} DoneAtMostOnce(tw: Tween, ts: seq<real>)
    requires tw.autoDisconnect
    ensures DoneCount(Deliver(tw, ts)) <= 1
    decreases |ts|
  {
    if ts != [] {
      var r := Tick(tw, ts[0]);
      if r.keep {
        DoneAtMostOnce(tw, ts[1..]);
        assert !r.doneFired;
        assert Deliver(tw, ts) == [r] + Deliver(tw, ts[1..]);
        assert ([r] + Deliver(tw, ts[1..]))[1..] == Deliver(tw, ts[1..]);
      } else {
        assert Deliver(tw, ts) == [r];
        assert [r][1..] == [];
      }
    }
  }

  /** With auto-disconnect off, the tween receives every tick and the done
      callback fires on every one of them past the end of the window. */
  lemma {:induction false} DoneRepeatsWithoutAutoDisconnect(tw: Tween, ts: seq<real>)
    requires !tw.autoDisconnect && tw.hasDone
    ensures |Deliver(tw, ts)| == |ts|
    ensures DoneCount(Deliver(tw, ts)) == LateCount(tw, ts)
    decreases |ts|
  {
    if ts != [] {
      var r := Tick(tw, ts[0]);
      DoneRepeatsWithoutAutoDisconnect(tw, ts[1..]);
      assert Deliver(tw, ts) == [r] + Deliver(tw, ts[1..]);
      assert ([r] + Deliver(tw, ts[1..]))[1..] == Deliver(tw, ts[1..]);
    }
  }

  /** The tween as a listener of the Animator: every other id keeps its slot. */
  function AsListener(tw: Tween): Animator.Results
  {
    (id: Animator.ListenerId, t: real) => id != tw.listener || Tick(tw, t).keep
  }

  /** A running Animator drops an auto-disconnecting tween on the first tick
      outside its window, and keeps it on a tick inside it. */
  lemma AnimatorDropsFinishedTween(a: Animator.State, tw: Tween, time: real)
    requires !a.paused && tw.listener in a.listeners
    ensures var t := time - a.offset - tw.startTime;
      var kept := tw.listener in Animator.Tick(a, time, AsListener(tw)).next.listeners;
      kept <==> !(tw.autoDisconnect && (t < 0.0 || t > tw.duration))
  {
    var ct := time - a.offset;
    var r := Tick(tw, ct);
    assert AsListener(tw)(tw.listener, ct) == r.keep;
    assert ct - tw.startTime == time - a.offset - tw.startTime;
  }

  /** A linear tween in numbers: duration 10, Linear ease-in, ticks 0, 2, ..., 12 from
      start time 0 give progress 0, 0.2, ..., 1, 1; the done callback fires and
      the listener leaves at tick 12 only, so all seven ticks are delivered. */
  lemma LinearScenario()
    ensures var tw := Tween(7, 10.0, 0.0, Some(Easing.LinearIn), true, true);
      && Tick(tw, 0.0) == Report(Num(0.0), false, true)
      && Tick(tw, 2.0) == Report(Num(0.2), false, true)
      && Tick(tw, 4.0) == Report(Num(0.4), false, true)
      && Tick(tw, 6.0) == Report(Num(0.6), false, true)
      && Tick(tw, 8.0) == Report(Num(0.8), false, true)
      && Tick(tw, 10.0) == Report(Num(1.0), false, true)
      && Tick(tw, 12.0) == Report(Num(1.0), true, false)
      && |Deliver(tw, [0.0, 2.0, 4.0, 6.0, 8.0, 10.0, 12.0])| == 7
  {
    var tw := Tween(7, 10.0, 0.0, Some(Easing.LinearIn), true, true);
    var ts := [0.0, 2.0, 4.0, 6.0, 8.0, 10.0, 12.0];
    var k := 0;
    while k < 6
      invariant 0 <= k <= 6
      invariant |Deliver(tw, ts)| == k + |Deliver(tw, ts[k..])|
    {
      assert Tick(tw, ts[k]).keep;
      assert ts[k..][1..] == ts[k + 1..];
      k := k + 1;
    }
    assert ts[6..] == [12.0];
  }
}
