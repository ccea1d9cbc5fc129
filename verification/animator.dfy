/**
  The Animator of src/jsTimeline.js (lines 12-80): an ordered list of tick
  listeners, the pause bookkeeping, and the attach/detach calls it makes on its
  timing driver. Every operation is a pure transition on an immutable state that
  also reports the driver calls it made, in order.
 */
module Animator {

  /** Listener callbacks are compared by identity; the model names each by an id. */
  type ListenerId = nat

  /** The two capabilities the Animator asks of its timing driver. */
  datatype DriverCall = Attach | Detach

  /** The Animator's fields. `connected` is initialised and never written again. */
  datatype State = State(
    listeners: seq<ListenerId>,
    connected: bool,
    paused: bool,
    pausedAt: real,
    offset: real,
    lastTime: real)

  /** The state after connect or disconnect, with the driver calls made. */
  datatype Step = Step(next: State, calls: seq<DriverCall>)

  /** One call of a listener with the corrected time. */
  datatype Invocation = Invocation(listener: ListenerId, time: real)

  datatype TickOutcome = TickOutcome(next: State, invoked: seq<Invocation>, calls: seq<DriverCall>)

  /** The result oracle: what listener `id` returns when called with time `t`
      (`false` asks to be disconnected). */
  type Results = (ListenerId, real) -> bool

  /** A fresh Animator: no listeners, running, and reading time 0. */
  function Init(): (r: State)
    ensures r.listeners == [] && !r.paused && !r.connected
    ensures GetTime(r) == 0.0
  {
    State([], false, false, 0.0, 0.0, 0.0)
  }

  predicate NoDuplicates(s: seq<ListenerId>)
  {
    forall i, j :: 0 <= i < j < |s| ==> s[i] != s[j]
  }

  /** `r` keeps some of the entries of `s`, in their relative order. */
  ghost predicate Subsequence(r: seq<ListenerId>, s: seq<ListenerId>)
    decreases |s|
  {
    if r == [] then true
    else if s == [] then false
    else (r[0] == s[0] && Subsequence(r[1..], s[1..])) || Subsequence(r, s[1..])
  }

  function Reverse(s: seq<ListenerId>): (r: seq<ListenerId>)
    ensures |r| == |s|
    ensures forall k :: 0 <= k < |s| ==> r[k] == s[|s| - 1 - k]
  {
    if s == [] then [] else Reverse(s[1..]) + [s[0]]
  }

  /** The identity search of connect and disconnect, scanning from the end:
      the highest index holding `x`, or -1. */
  function LastIndexOf(ls: seq<ListenerId>, x: ListenerId): (r: int)
    ensures -1 <= r < |ls|
    ensures r == -1 <==> x !in ls
    ensures r >= 0 ==> ls[r] == x
    ensures forall k :: 0 <= k < |ls| && ls[k] == x ==> k <= r
  {
    if |ls| == 0 then -1
    else if ls[|ls| - 1] == x then |ls| - 1
    else
      assert ls == ls[..|ls| - 1] + [ls[|ls| - 1]];
      LastIndexOf(ls[..|ls| - 1], x)
  }

  /** `connect`: a listener already present changes nothing and calls nothing;
      a new one is put at the front and `attach` is called, whatever the list
      held before. */
  function Connect(a: State, x: ListenerId): (r: Step)
    ensures x in r.next.listeners
    ensures x in a.listeners ==> r == Step(a, [])
    ensures x !in a.listeners ==> r.next == a.(listeners := [x] + a.listeners) && r.calls == [Attach]
  {
    if LastIndexOf(a.listeners, x) >= 0 then Step(a, [])
    else Step(a.(listeners := [x] + a.listeners), [Attach])
  }

  /** The list with the last occurrence of `x` spliced out, or unchanged when
      `x` is absent. */
  function RemoveLast(ls: seq<ListenerId>, x: ListenerId): (r: seq<ListenerId>)
    ensures multiset(r) == multiset(ls) - multiset{x}
    ensures x !in ls ==> r == ls
  {
    var i := LastIndexOf(ls, x);
    if i < 0 then ls
    else
      SpliceMultiset(ls, i);
      ls[..i] + ls[i + 1..]
  }

  /** `disconnect`: removes the last occurrence of `x`, keeping the others in
      order, and calls `detach` whenever the list ends up empty, even when `x`
      was not there. */
  function Disconnect(a: State, x: ListenerId): (r: Step)
    ensures r.next == a.(listeners := r.next.listeners)
    ensures multiset(r.next.listeners) == multiset(a.listeners) - multiset{x}
    ensures x !in a.listeners ==> r.next.listeners == a.listeners
    ensures r.calls == (if r.next.listeners == [] then [Detach] else [])
  {
    var ls := RemoveLast(a.listeners, x);
    Step(a.(listeners := ls), if |ls| == 0 then [Detach] else [])
  }

  /** `getTime`: raw time minus the offset, frozen at the pause instant while paused. */
  function GetTime(a: State): (t: real)
    ensures !a.paused ==> t + a.offset == a.lastTime
    ensures a.paused ==> t + a.offset == a.pausedAt
  {
    if a.paused then a.pausedAt - a.offset else a.lastTime - a.offset
  }

  /** `pause`: a no-op when already paused; freezes the reported time otherwise. */
  function Pause(a: State): (r: State)
    ensures r.paused
    ensures GetTime(r) == GetTime(a)
    ensures a.paused ==> r == a
    ensures r.listeners == a.listeners && r.lastTime == a.lastTime && r.offset == a.offset
  {
    if !a.paused then a.(paused := true, pausedAt := a.lastTime) else a
  }

  /** `unpause`: a no-op when running; otherwise the paused interval is added to
      the offset, so the reported time resumes where it stopped. */
  function Unpause(a: State): (r: State)
    ensures !r.paused
    ensures GetTime(r) == GetTime(a)
    ensures !a.paused ==> r == a
    ensures r.listeners == a.listeners && r.lastTime == a.lastTime
  {
    if a.paused then a.(paused := false, offset := a.offset + (a.lastTime - a.pausedAt)) else a
  }

  /** The listeners still connected after a dispatch at time `t`: those that
      returned true, in their original order. */
  function Survivors(ls: seq<ListenerId>, t: real, result: Results): (r: seq<ListenerId>)
    ensures |r| <= |ls|
    ensures forall x :: x in r <==> x in ls && result(x, t)
  {
    if ls == [] then []
    else (if result(ls[0], t) then [ls[0]] else []) + Survivors(ls[1..], t, result)
  }

  /** The calls of one dispatch pass: from the last index down to the first. */
  function OldestFirst(ls: seq<ListenerId>, t: real): (r: seq<Invocation>)
    ensures |r| == |ls|
    ensures forall k :: 0 <= k < |ls| ==> r[k] == Invocation(ls[|ls| - 1 - k], t)
  {
    if ls == [] then [] else OldestFirst(ls[1..], t) + [Invocation(ls[0], t)]
  }

  /** `tick(time)`, stated as the mark-and-sweep pass: record the raw time; unless
      paused, call every listener once, oldest first, with `time - offset`, then
      keep those that returned true. `detach` is called once, when the pass
      empties a non-empty list. */
  function Tick(a: State, time: real, result: Results): (r: TickOutcome)
    ensures r.next == a.(lastTime := time, listeners := r.next.listeners)
    ensures a.paused ==> r.next.listeners == a.listeners && r.invoked == []
    ensures !a.paused ==> |r.invoked| == |a.listeners|
    ensures !a.paused ==> forall k :: 0 <= k < |a.listeners| ==>
      r.invoked[k] == Invocation(a.listeners[|a.listeners| - 1 - k], time - a.offset)
    ensures !a.paused ==> forall x :: x in r.next.listeners <==> x in a.listeners && result(x, time - a.offset)
    ensures r.calls == (if |a.listeners| > 0 && r.next.listeners == [] then [Detach] else [])
  {
    if a.paused then
      TickOutcome(a.(lastTime := time), [], [])
    else
      var t := time - a.offset;
      var kept := Survivors(a.listeners, t, result);
      TickOutcome(a.(lastTime := time, listeners := kept), OldestFirst(a.listeners, t),
                  if |a.listeners| > 0 && kept == [] then [Detach] else [])
  }

  /** `tick(time)` as the source runs it: an index loop from the end of the live
      list down to 0, where a listener that returns false is disconnected at
      once, splicing the list it is iterating over. It computes the same as the
      mark-and-sweep pass. */
  method TickInPlace(a: State, time: real, result: Results) returns (r: TickOutcome)
    ensures r == Tick(a, time, result)
  {
    var cur := a.(lastTime := time);
    if cur.paused {
      return TickOutcome(cur, [], []);
    }
    var t := time - a.offset;
    var invoked: seq<Invocation> := [];
    var calls: seq<DriverCall> := [];
    var i := |cur.listeners| - 1;
    assert a.listeners[..i + 1] == a.listeners && a.listeners[i + 1..] == [];
    while i >= 0
      invariant -1 <= i < |a.listeners|
      invariant PassInvariant(a, time, result, i, cur, invoked, calls)
      decreases i
    {
      var callback := cur.listeners[i];
      if result(callback, t) {
        PassKeep(a, time, result, i, cur, invoked, calls);
        invoked := invoked + [Invocation(callback, t)];
      } else {
        PassDrop(a, time, result, i, cur, invoked, calls);
        invoked := invoked + [Invocation(callback, t)];
        var step := Disconnect(cur, callback);
        cur := step.next;
        calls := calls + step.calls;
      }
      i := i - 1;
    }
    PassComplete(a, time, result, cur, invoked, calls);
    r := TickOutcome(cur, invoked, calls);
  }

  /** What the in-place pass holds before visiting index `i`: the unvisited
      prefix is intact, the visited suffix is reduced to its survivors, the
      visited listeners were called newest index first, and `detach` has been
      called only if the list is empty after visiting index 0. */
  ghost predicate PassInvariant(a: State, time: real, result: Results, i: int,
                                cur: State, invoked: seq<Invocation>, calls: seq<DriverCall>)
    requires -1 <= i < |a.listeners|
  {
    var t := time - a.offset;
    && cur == a.(lastTime := time, listeners := cur.listeners)
    && cur.listeners == a.listeners[..i + 1] + Survivors(a.listeners[i + 1..], t, result)
    && invoked == OldestFirst(a.listeners[i + 1..], t)
    && calls == (if i + 1 < |a.listeners| && cur.listeners == [] then [Detach] else [])
  }

  /** Visiting a listener that returns true keeps the pass invariant. */
  lemma PassKeep(a: State, time: real, result: Results, i: int,
                 cur: State, invoked: seq<Invocation>, calls: seq<DriverCall>)
    requires 0 <= i < |a.listeners|
    requires PassInvariant(a, time, result, i, cur, invoked, calls)
    requires result(cur.listeners[i], time - a.offset)
    ensures PassInvariant(a, time, result, i - 1, cur,
                          invoked + [Invocation(cur.listeners[i], time - a.offset)], calls)
  {
    var t := time - a.offset;
    var ls := a.listeners;
    assert cur.listeners[i] == ls[i];
    OldestFirstStep(ls, i, t);
    KeepAtIndex(ls, i, t, result);
    assert ls[i..] == ls[i - 1 + 1..];
  }

  /** Visiting a listener that returns false, and disconnecting it at once,
      keeps the pass invariant. */
  lemma PassDrop(a: State, time: real, result: Results, i: int,
                 cur: State, invoked: seq<Invocation>, calls: seq<DriverCall>)
    requires 0 <= i < |a.listeners|
    requires PassInvariant(a, time, result, i, cur, invoked, calls)
    requires !result(cur.listeners[i], time - a.offset)
    ensures PassInvariant(a, time, result, i - 1, Disconnect(cur, cur.listeners[i]).next,
                          invoked + [Invocation(cur.listeners[i], time - a.offset)],
                          calls + Disconnect(cur, cur.listeners[i]).calls)
  {
    var t := time - a.offset;
    var ls := a.listeners;
    assert cur.listeners[i] == ls[i];
    assert calls == [];
    OldestFirstStep(ls, i, t);
    DropAtIndex(ls, cur.listeners, i, t, result);
    var d := Disconnect(cur, ls[i]);
    var after := ls[..i] + Survivors(ls[i..], t, result);
    assert d.next == cur.(listeners := after);
    assert d.calls == (if after == [] then [Detach] else []);
    assert ls[i..] == ls[i - 1 + 1..];
  }

  /** After index 0 the pass has computed exactly the mark-and-sweep outcome. */
  lemma PassComplete(a: State, time: real, result: Results,
                     cur: State, invoked: seq<Invocation>, calls: seq<DriverCall>)
    requires !a.paused
    requires PassInvariant(a, time, result, -1, cur, invoked, calls)
    ensures TickOutcome(cur, invoked, calls) == Tick(a, time, result)
  {
    assert a.listeners[..0] == [] && a.listeners[0..] == a.listeners;
  }

  /** The pass visits index `i` after every index above it. */
  lemma OldestFirstStep(ls: seq<ListenerId>, i: int, t: real)
    requires 0 <= i < |ls|
    ensures OldestFirst(ls[i..], t) == OldestFirst(ls[i + 1..], t) + [Invocation(ls[i], t)]
  {
    assert ls[i..][1..] == ls[i + 1..];
  }

  /** A listener at index `i` that returns true stays where it is. */
  lemma KeepAtIndex(ls: seq<ListenerId>, i: int, t: real, result: Results)
    requires 0 <= i < |ls| && result(ls[i], t)
    ensures ls[..i + 1] + Survivors(ls[i + 1..], t, result) == ls[..i] + Survivors(ls[i..], t, result)
  {
    assert ls[i..][1..] == ls[i + 1..];
    assert ls[..i + 1] == ls[..i] + [ls[i]];
  }

  /** A listener at index `i` that returns false is found at `i` by the search
      from the end, since no survivor above it can be the same listener, and
      splicing it out leaves the prefix below `i` and the survivors above. */
  lemma DropAtIndex(ls: seq<ListenerId>, c: seq<ListenerId>, i: int, t: real, result: Results)
    requires 0 <= i < |ls| && !result(ls[i], t)
    requires c == ls[..i + 1] + Survivors(ls[i + 1..], t, result)
    ensures RemoveLast(c, ls[i]) == ls[..i] + Survivors(ls[i..], t, result)
    ensures i > 0 ==> RemoveLast(c, ls[i]) != []
  {
    var rest := Survivors(ls[i + 1..], t, result);
    assert ls[i..][1..] == ls[i + 1..];
    assert Survivors(ls[i..], t, result) == rest;
    assert c[i] == ls[i];
    assert ls[i] !in rest;
    forall k | i < k < |c| ensures c[k] != ls[i] {
      assert c[k] == rest[k - i - 1];
    }
    assert LastIndexOf(c, ls[i]) == i;
    assert c[..i] == ls[..i];
    assert c[i + 1..] == rest;
  }

  lemma SpliceMultiset(ls: seq<ListenerId>, i: int)
    requires 0 <= i < |ls|
    ensures multiset(ls[..i] + ls[i + 1..]) == multiset(ls) - multiset{ls[i]}
  {
    assert ls == ls[..i] + ([ls[i]] + ls[i + 1..]);
    assert multiset(ls) == multiset(ls[..i]) + multiset{ls[i]} + multiset(ls[i + 1..]);
  }

  /** Disconnect keeps the remaining listeners in their relative order. */
  lemma DisconnectKeepsOrder(a: State, x: ListenerId)
    ensures Subsequence(Disconnect(a, x).next.listeners, a.listeners)
  {
    var i := LastIndexOf(a.listeners, x);
    if i < 0 {
      SubsequenceReflexive(a.listeners);
    } else {
      SpliceIsSubsequence(a.listeners, i);
    }
  }

  /** A tick keeps the surviving listeners in their relative order. */
  lemma TickKeepsOrder(a: State, time: real, result: Results)
    ensures Subsequence(Tick(a, time, result).next.listeners, a.listeners)
  {
    if a.paused {
      SubsequenceReflexive(a.listeners);
    } else {
      SurvivorsAreSubsequence(a.listeners, time - a.offset, result);
    }
  }

  lemma SubsequenceReflexive(s: seq<ListenerId>)
    ensures Subsequence(s, s)
  {
  }

  lemma {:induction false} SpliceIsSubsequence(s: seq<ListenerId>, j: int)
    requires 0 <= j < |s|
    ensures Subsequence(s[..j] + s[j + 1..], s)
    decreases j
  {
    if j == 0 {
      assert s[..0] + s[1..] == s[1..];
      SubsequenceReflexive(s[1..]);
    } else {
      var r := s[..j] + s[j + 1..];
      SpliceIsSubsequence(s[1..], j - 1);
      assert r[1..] == s[1..][..j - 1] + s[1..][j..];
    }
  }

  lemma {:induction false} SurvivorsAreSubsequence(ls: seq<ListenerId>, t: real, result: Results)
    ensures Subsequence(Survivors(ls, t, result), ls)
    decreases |ls|
  {
    if ls != [] {
      var r := Survivors(ls, t, result);
      SurvivorsAreSubsequence(ls[1..], t, result);
      if result(ls[0], t) {
        assert r[0] == ls[0] && r[1..] == Survivors(ls[1..], t, result);
      } else if r != [] {
        assert r == Survivors(ls[1..], t, result);
      }
    }
  }

  /** Entries of a subsequence come from the original. */
  lemma {:induction false} SubsequenceMembers(r: seq<ListenerId>, s: seq<ListenerId>)
    requires Subsequence(r, s)
    ensures forall x :: x in r ==> x in s
    decreases |s|
  {
    if r != [] {
      if r[0] == s[0] && Subsequence(r[1..], s[1..]) {
        SubsequenceMembers(r[1..], s[1..]);
        assert forall x :: x in r ==> x == r[0] || x in r[1..];
      } else {
        SubsequenceMembers(r, s[1..]);
      }
    }
  }

  /** Dropping entries never creates a duplicate. */
  lemma {:induction false} SubsequenceKeepsNoDuplicates(r: seq<ListenerId>, s: seq<ListenerId>)
    requires Subsequence(r, s) && NoDuplicates(s)
    ensures NoDuplicates(r)
    decreases |s|
  {
    if r != [] {
      assert NoDuplicates(s[1..]) by {
        forall i, j | 0 <= i < j < |s[1..]| ensures s[1..][i] != s[1..][j] {
          assert s[1..][i] == s[i + 1] && s[1..][j] == s[j + 1];
        }
      }
      if r[0] == s[0] && Subsequence(r[1..], s[1..]) {
        SubsequenceKeepsNoDuplicates(r[1..], s[1..]);
        SubsequenceMembers(r[1..], s[1..]);
        assert s[0] !in s[1..];
        forall i, j | 0 <= i < j < |r| ensures r[i] != r[j] {
          if i == 0 {
            assert r[j] == r[1..][j - 1];
          } else {
            assert r[i] == r[1..][i - 1] && r[j] == r[1..][j - 1];
          }
        }
      } else {
        SubsequenceKeepsNoDuplicates(r, s[1..]);
      }
    }
  }

  /** Connecting never creates a duplicate: the list stays a set of identities. */
  lemma ConnectKeepsNoDuplicates(a: State, x: ListenerId)
    requires NoDuplicates(a.listeners)
    ensures NoDuplicates(Connect(a, x).next.listeners)
  {
    var r := Connect(a, x).next.listeners;
    if x !in a.listeners {
      forall i, j | 0 <= i < j < |r| ensures r[i] != r[j] {
        assert r[j] == a.listeners[j - 1];
        if i > 0 {
          assert r[i] == a.listeners[i - 1];
        }
      }
    }
  }

  /** On a duplicate-free list, disconnect removes exactly the matching entry
      and keeps every other one in order; the listener is gone afterwards. */
  lemma DisconnectRemovesExactly(a: State, x: ListenerId, k: int)
    requires NoDuplicates(a.listeners)
    requires 0 <= k < |a.listeners| && a.listeners[k] == x
    ensures Disconnect(a, x).next.listeners == a.listeners[..k] + a.listeners[k + 1..]
    ensures x !in Disconnect(a, x).next.listeners
    ensures NoDuplicates(Disconnect(a, x).next.listeners)
  {
    var r := Disconnect(a, x).next.listeners;
    assert LastIndexOf(a.listeners, x) == k;
    DisconnectKeepsOrder(a, x);
    SubsequenceKeepsNoDuplicates(r, a.listeners);
    forall i | 0 <= i < |r| ensures r[i] != x {
      if i < k {
        assert r[i] == a.listeners[i];
      } else {
        assert r[i] == a.listeners[i + 1];
      }
    }
  }

  /** On a duplicate-free list, disconnect leaves no copy of the listener behind. */
  lemma DisconnectLeavesNoCopy(a: State, x: ListenerId)
    ensures NoDuplicates(a.listeners) ==> x !in Disconnect(a, x).next.listeners
  {
    if NoDuplicates(a.listeners) && x in a.listeners {
      DisconnectRemovesExactly(a, x, LastIndexOf(a.listeners, x));
    }
  }

  /** A second disconnect of the same listener leaves the list alone; it only
      repeats the `detach` call when the list is empty. */
  lemma DisconnectTwice(a: State, x: ListenerId)
    requires NoDuplicates(a.listeners)
    ensures var once := Disconnect(a, x);
      Disconnect(once.next, x).next == once.next
      && Disconnect(once.next, x).calls == once.calls
  {
    var once := Disconnect(a, x);
    if x in a.listeners {
      var k :| 0 <= k < |a.listeners| && a.listeners[k] == x;
      DisconnectRemovesExactly(a, x, k);
    }
  }

  /** A dispatch pass never creates a duplicate. */
  lemma TickKeepsNoDuplicates(a: State, time: real, result: Results)
    requires NoDuplicates(a.listeners)
    ensures NoDuplicates(Tick(a, time, result).next.listeners)
  {
    TickKeepsOrder(a, time, result);
    SubsequenceKeepsNoDuplicates(Tick(a, time, result).next.listeners, a.listeners);
  }

  /** The dispatch order is the listener list read backwards. */
  lemma DispatchOrderIsReverse(a: State, time: real, result: Results, k: int)
    requires !a.paused && 0 <= k < |a.listeners|
    ensures Tick(a, time, result).invoked[k].listener == Reverse(a.listeners)[k]
  {
  }
}
