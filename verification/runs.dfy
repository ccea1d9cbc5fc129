/**
  Sequences of Animator operations: the pause/offset properties that only show
  across several calls, the connection order, and the list invariants.
 */
module Runs {
  import opened Animator

  /** One call into the Animator from outside. */
  datatype Event =
    | TickAt(time: real)
    | PauseCall
    | UnpauseCall
    | ConnectCall(listener: ListenerId)
    | DisconnectCall(listener: ListenerId)

  function Apply(a: State, e: Event, result: Results): State
  {
    match e
    case TickAt(time) => Tick(a, time, result).next
    case PauseCall => Pause(a)
    case UnpauseCall => Unpause(a)
    case ConnectCall(x) => Connect(a, x).next
    case DisconnectCall(x) => Disconnect(a, x).next
  }

  function Run(a: State, evs: seq<Event>, result: Results): State
    decreases |evs|
  {
    if evs == [] then a else Run(Apply(a, evs[0], result), evs[1..], result)
  }

  /** While paused, the pause instant is no later than the last raw time. */
  ghost predicate Coherent(a: State)
  {
    a.paused ==> a.pausedAt <= a.lastTime
  }

  /** The raw times delivered never go below `t0` and never decrease. */
  ghost predicate RawTimesFrom(t0: real, evs: seq<Event>)
    decreases |evs|
  {
    evs == [] ||
    (if evs[0].TickAt? then t0 <= evs[0].time && RawTimesFrom(evs[0].time, evs[1..])
     else RawTimesFrom(t0, evs[1..]))
  }

  /** One call with a raw time no earlier than the last: the offset does not
      shrink and the reported time does not go back. */
  lemma ApplyIsMonotone(a: State, e: Event, result: Results)
    requires Coherent(a)
    requires e.TickAt? ==> a.lastTime <= e.time
    ensures Coherent(Apply(a, e, result))
    ensures Apply(a, e, result).offset >= a.offset
    ensures GetTime(Apply(a, e, result)) >= GetTime(a)
    ensures Apply(a, e, result).lastTime == (if e.TickAt? then e.time else a.lastTime)
  {
  }

  /** With non-decreasing raw times, the offset never decreases and `getTime`
      never goes back, across any mix of calls. */
  lemma {:induction false} OffsetNeverDecreases(a: State, evs: seq<Event>, result: Results)
    requires Coherent(a)
    requires RawTimesFrom(a.lastTime, evs)
    ensures Coherent(Run(a, evs, result))
    ensures Run(a, evs, result).offset >= a.offset
    ensures GetTime(Run(a, evs, result)) >= GetTime(a)
    decreases |evs|
  {
    if evs != [] {
      ApplyIsMonotone(a, evs[0], result);
      OffsetNeverDecreases(Apply(a, evs[0], result), evs[1..], result);
    }
  }

  /** While paused and until the next unpause, ticks only move `lastTime`: the
      pause instant, the offset and hence `getTime` stay as they are. */
  lemma {:induction false} PausedStretchIsFrozen(a: State, evs: seq<Event>, result: Results)
    requires a.paused
    requires forall k :: 0 <= k < |evs| ==> !evs[k].UnpauseCall?
    ensures Run(a, evs, result).paused
    ensures Run(a, evs, result).pausedAt == a.pausedAt
    ensures Run(a, evs, result).offset == a.offset
    ensures GetTime(Run(a, evs, result)) == GetTime(a)
    decreases |evs|
  {
    if evs != [] {
      PausedStretchIsFrozen(Apply(a, evs[0], result), evs[1..], result);
    }
  }

  /** Pause, any calls but unpause, unpause: `getTime` right after the unpause
      equals `getTime` right before the pause, however much raw time passed. */
  lemma PauseResumeContinuity(a: State, evs: seq<Event>, result: Results)
    requires forall k :: 0 <= k < |evs| ==> !evs[k].UnpauseCall?
    ensures GetTime(Unpause(Run(Pause(a), evs, result))) == GetTime(a)
  {
    PausedStretchIsFrozen(Pause(a), evs, result);
  }

  /** A pause in numbers: paused at raw time 5, raw ticks 6, 7 and 8 are ignored,
      and after unpausing, raw tick 9 reads as time 6. */
  lemma PauseScenario(result: Results)
    ensures var a := Run(Init(), [TickAt(5.0), PauseCall], result);
      GetTime(a) == 5.0
      && GetTime(Run(a, [TickAt(6.0), TickAt(7.0), TickAt(8.0)], result)) == 5.0
      && GetTime(Run(a, [TickAt(6.0), TickAt(7.0), TickAt(8.0), UnpauseCall], result)) == 5.0
      && GetTime(Run(a, [TickAt(6.0), TickAt(7.0), TickAt(8.0), UnpauseCall, TickAt(9.0)], result)) == 6.0
  {
  }

  /** No operation ever writes the `connected` field. */
  lemma {:induction false} ConnectedNeverWritten(a: State, evs: seq<Event>, result: Results)
    ensures Run(a, evs, result).connected == a.connected
    decreases |evs|
  {
    if evs != [] {
      var b := Apply(a, evs[0], result);
      assert b.connected == a.connected by {
        match evs[0]
        case TickAt(time) =>
        case PauseCall =>
        case UnpauseCall =>
        case ConnectCall(x) =>
        case DisconnectCall(x) =>
      }
      ConnectedNeverWritten(b, evs[1..], result);
      assert Run(a, evs, result) == Run(b, evs[1..], result);
    }
  }

  /** The listener list never holds the same listener twice. */
  lemma {:induction false} RunKeepsNoDuplicates(a: State, evs: seq<Event>, result: Results)
    requires NoDuplicates(a.listeners)
    ensures NoDuplicates(Run(a, evs, result).listeners)
    decreases |evs|
  {
    if evs != [] {
      var e := evs[0];
      match e {
        case TickAt(time) => TickKeepsNoDuplicates(a, time, result);
        case PauseCall =>
        case UnpauseCall =>
        case ConnectCall(x) => ConnectKeepsNoDuplicates(a, x);
        case DisconnectCall(x) =>
          DisconnectKeepsOrder(a, x);
          SubsequenceKeepsNoDuplicates(Disconnect(a, x).next.listeners, a.listeners);
      }
      RunKeepsNoDuplicates(Apply(a, e, result), evs[1..], result);
    }
  }

  /** Connect several listeners in turn, collecting the driver calls. */
  function ConnectAll(a: State, xs: seq<ListenerId>): Step
    decreases |xs|
  {
    if xs == [] then Step(a, [])
    else
      var first := Connect(a, xs[0]);
      var rest := ConnectAll(first.next, xs[1..]);
      Step(rest.next, first.calls + rest.calls)
  }

  /** The listeners of `xs` not yet in `known`, in order of first appearance. */
  function Arrivals(known: seq<ListenerId>, xs: seq<ListenerId>): seq<ListenerId>
    decreases |xs|
  {
    if xs == [] then []
    else if xs[0] in known then Arrivals(known, xs[1..])
    else [xs[0]] + Arrivals([xs[0]] + known, xs[1..])
  }

  /** Read from the end, the list is in connection order, oldest first, and
      nothing but the list changes. */
  lemma {:induction false} ConnectAllOrder(a: State, xs: seq<ListenerId>)
    ensures Reverse(ConnectAll(a, xs).next.listeners) == Reverse(a.listeners) + Arrivals(a.listeners, xs)
    ensures ConnectAll(a, xs).next == a.(listeners := ConnectAll(a, xs).next.listeners)
    decreases |xs|
  {
    if xs != [] {
      var first := Connect(a, xs[0]);
      var rest := ConnectAll(first.next, xs[1..]);
      assert ConnectAll(a, xs).next == rest.next;
      ConnectAllOrder(first.next, xs[1..]);
      if xs[0] in a.listeners {
        assert first.next == a;
        assert Arrivals(a.listeners, xs) == Arrivals(a.listeners, xs[1..]);
      } else {
        assert Arrivals(a.listeners, xs) == [xs[0]] + Arrivals(first.next.listeners, xs[1..]);
        ReversePrepend(xs[0], a.listeners);
      }
    }
  }

  /** Reading a list backwards puts its first element last. */
  lemma ReversePrepend(x: ListenerId, ls: seq<ListenerId>)
    ensures Reverse([x] + ls) == Reverse(ls) + [x]
  {
    assert ([x] + ls)[1..] == ls;
  }

  /** Each newcomer costs exactly one `attach` call, and a listener already
      present costs none. */
  lemma {:induction false} ConnectAllCalls(a: State, xs: seq<ListenerId>)
    ensures |ConnectAll(a, xs).calls| == |Arrivals(a.listeners, xs)|
    ensures forall k :: 0 <= k < |ConnectAll(a, xs).calls| ==> ConnectAll(a, xs).calls[k] == Attach
    decreases |xs|
  {
    if xs != [] {
      var first := Connect(a, xs[0]);
      var rest := ConnectAll(first.next, xs[1..]);
      ConnectAllCalls(first.next, xs[1..]);
      if xs[0] in a.listeners {
        assert first == Step(a, []);
      } else {
        assert first.calls == [Attach];
        assert Arrivals(a.listeners, xs) == [xs[0]] + Arrivals(first.next.listeners, xs[1..]);
      }
    }
  }

  /** Listeners connected one after another to an idle Animator are called in
      the order they were connected, each once per tick. */
  lemma DispatchFollowsConnectOrder(xs: seq<ListenerId>, time: real, result: Results, k: int)
    requires 0 <= k < |Arrivals([], xs)|
    ensures var a := ConnectAll(Init(), xs).next;
      |Tick(a, time, result).invoked| == |Arrivals([], xs)|
      && Tick(a, time, result).invoked[k].listener == Arrivals([], xs)[k]
  {
    ConnectAllOrder(Init(), xs);
    var a := ConnectAll(Init(), xs).next;
    DispatchOrderIsReverse(a, time, result, k);
  }
}
