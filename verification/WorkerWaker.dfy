/**
 The waker of packages/db/task-queue-worker.ts. Each callback (a call of waitForWork, a notification,
 a timer) runs to its end before the next one, as on JavaScript's event loop; they may come in any
 order.
 */
module WorkerWaker {

  /**
   One call of waitForWork: whether its timer has fired, its `done` flag, and what its promise has
   seen. A notification does not clear the timer, so a waiter that is done may still have one.
   */
  datatype Waiter = Waiter(startedAt: int, timerFired: bool, done: bool, resolutions: nat, resolvedAt: int)

  /** `pending` holds the waiters' indices in the order they registered. */
  datatype State = State(pending: seq<nat>, waiters: seq<Waiter>)

  function Started(s: State, now: int): (r: State) {
    State(s.pending + [|s.waiters|], s.waiters + [Waiter(now, false, false, 0, now)])
  }

  /** A resolve callback: the promise is resolved unless the waiter is done. */
  function Resolve(w: Waiter, now: int): (r: Waiter) {
    if w.done then w else w.(done := true, resolutions := w.resolutions + 1, resolvedAt := now)
  }

  function ResolveAll(waiters: seq<Waiter>, ids: seq<nat>, now: int): (r: seq<Waiter>)
    ensures |r| == |waiters|
    ensures forall i :: 0 <= i < |waiters| ==> r[i] == if i in ids then Resolve(waiters[i], now) else waiters[i]
  {
    seq(|waiters|, i requires 0 <= i < |waiters| => if i in ids then Resolve(waiters[i], now) else waiters[i])
  }

  function Without(pending: seq<nat>, id: nat): (r: seq<nat>)
    ensures forall i :: i in r ==> i in pending
  {
    if pending == [] then []
    else if pending[0] == id then pending[1..]
    else [pending[0]] + Without(pending[1..], id)
  }

  function Notified(s: State, now: int): (r: State) {
    State([], ResolveAll(s.waiters, s.pending, now))
  }

  function TimedOut(s: State, id: nat, now: int): (r: State)
    requires id < |s.waiters|
  {
    var w := s.waiters[id].(timerFired := true);
    if w.done then State(s.pending, s.waiters[id := w])
    else State(Without(s.pending, id), s.waiters[id := Resolve(w, now)])
  }

  /** Each promise is resolved at most once, and an unresolved waiter still has its timer. */
  ghost predicate ResolvedOnce(waiters: seq<Waiter>) {
    forall w :: w in waiters ==> w.resolutions == (if w.done then 1 else 0) && (!w.done ==> !w.timerFired)
  }

  /** `pending` is exactly the unresolved waiters, in order. */
  ghost predicate Inv(s: State) {
    && (forall i, j :: 0 <= i < j < |s.pending| ==> s.pending[i] < s.pending[j])
    && (forall id: nat :: id in s.pending <==> id < |s.waiters| && !s.waiters[id].done)
    && ResolvedOnce(s.waiters)
  }

  /** The same wait, up to its timer. */
  ghost predicate SameWait(w: Waiter, x: Waiter) {
    w.(timerFired := true) == x.(timerFired := true)
  }

  class Waker {
    const pollIntervalMs: nat
    var pending: seq<nat>
    var waiters: seq<Waiter>

    constructor (pollIntervalMs: nat)
      ensures this.pollIntervalMs == pollIntervalMs && Contents() == State([], []) && Valid()
    {
      this.pollIntervalMs := pollIntervalMs;
      pending, waiters := [], [];
    }

    function Contents(): (s: State)
      reads this
    {
      State(pending, waiters)
    }

    ghost predicate Valid()
      reads this
    {
      Inv(Contents())
    }

    /** Registers a waiter and sets its timer, due at `now + pollIntervalMs`. */
    method WaitForWork(now: int) returns (id: nat)
      requires Valid()
      modifies this
      ensures Valid() && Contents() == Started(old(Contents()), now) && id == |old(waiters)|
      ensures |waiters| == id + 1 && waiters[..id] == old(waiters) && pending == old(pending) + [id]
      ensures waiters[id].startedAt == now && !waiters[id].timerFired && !waiters[id].done && waiters[id].resolutions == 0
    {
      id := |waiters|;
      waiters := waiters + [Waiter(now, false, false, 0, now)];
      pending := pending + [id];
      StartedKeepsInv(old(Contents()), now);
    }

    /** The LISTEN callback: takes the whole list and resolves every waiter on it. */
    method Notify(now: int)
      requires Valid()
      modifies this
      ensures Valid() && Contents() == Notified(old(Contents()), now)
      ensures pending == [] && |waiters| == |old(waiters)| && forall w :: w in waiters ==> w.done
      ensures forall i :: 0 <= i < |waiters| && !old(waiters)[i].done ==>
                waiters[i].resolutions == 1 && waiters[i].resolvedAt == now
      ensures forall i :: 0 <= i < |waiters| && old(waiters)[i].done ==> waiters[i] == old(waiters)[i]
    {
      var toWake := pending;
      pending := [];
      for k := 0 to |toWake|
        invariant pending == [] && |waiters| == |old(waiters)|
        invariant forall i :: 0 <= i < |waiters| ==>
                    waiters[i] == if i in toWake[..k] then Resolve(old(waiters)[i], now) else old(waiters)[i]
      {
        var id := toWake[k];
        assert id in toWake;
        assert id !in toWake[..k];
        waiters := waiters[id := Resolve(waiters[id], now)];
        assert toWake[..k + 1] == toWake[..k] + [id];
      }
      assert toWake[..|toWake|] == toWake;
      assert waiters == Notified(old(Contents()), now).waiters;
      NotifiedKeepsInv(old(Contents()), now);
    }

    /**
     The fallback timer of a waiter, which the runtime fires once and not before it is due: removes the
     waiter from the list and resolves it, unless it is done.
     */
    method TimerFires(id: nat, now: int)
      requires Valid() && id < |waiters|
      requires !waiters[id].timerFired && waiters[id].startedAt + pollIntervalMs <= now
      modifies this
      ensures Valid() && Contents() == TimedOut(old(Contents()), id, now)
      ensures |waiters| == |old(waiters)| && waiters[id].timerFired && waiters[id].done
      ensures !old(waiters)[id].done ==> waiters[id].resolutions == 1 && waiters[id].resolvedAt == now
      ensures old(waiters)[id].done ==> SameWait(waiters[id], old(waiters)[id])
      ensures forall i :: 0 <= i < |waiters| && i != id ==> waiters[i] == old(waiters)[i]
    {
      ghost var s := Contents();
      if waiters[id].done {
        waiters := waiters[id := waiters[id].(timerFired := true)];
      } else {
        var idx := IndexOf(id);
        WithoutAt(pending, id, idx);
        if idx < |pending| {
          pending := pending[..idx] + pending[idx + 1..];
        }
        waiters := waiters[id := Resolve(waiters[id].(timerFired := true), now)];
      }
      assert Contents() == TimedOut(s, id, now);
      TimedOutKeepsInv(s, id, now);
    }

    /** `pending.indexOf(wrapped)`, with the length of `pending` for -1. */
    method IndexOf(id: nat) returns (idx: nat)
      ensures idx <= |pending| && (forall j :: 0 <= j < idx ==> pending[j] != id)
      ensures idx < |pending| ==> pending[idx] == id
    {
      idx := 0;
      while idx < |pending| && pending[idx] != id
        invariant 0 <= idx <= |pending|
        invariant forall j :: 0 <= j < idx ==> pending[j] != id
      {
        idx := idx + 1;
      }
    }
  }

  lemma SplitCons(pending: seq<nat>, idx: nat)
    requires 0 < idx <= |pending|
    ensures [pending[0]] + pending[1..][..idx - 1] == pending[..idx]
  {
  }

  lemma ConsAssoc(x: nat, a: seq<nat>, b: seq<nat>)
    ensures [x] + (a + b) == [x] + a + b
  {
  }

  lemma {:induction false} WithoutFrom(pending: seq<nat>, id: nat, idx: nat)
    requires idx <= |pending| && (forall j :: 0 <= j < idx ==> pending[j] != id)
    requires idx < |pending| ==> pending[idx] == id
    ensures Without(pending, id) == pending[..idx] + pending[if idx < |pending| then idx + 1 else idx..]
  {
    if pending == [] {
    } else if idx == 0 {
      assert pending[..0] + pending[1..] == pending[1..];
    } else {
      var rest := if idx < |pending| then idx + 1 else idx;
      WithoutFrom(pending[1..], id, idx - 1);
      assert pending[1..][rest - 1..] == pending[rest..];
      ConsAssoc(pending[0], pending[1..][..idx - 1], pending[rest..]);
      SplitCons(pending, idx);
    }
  }

  lemma WithoutAt(pending: seq<nat>, id: nat, idx: nat)
    requires idx <= |pending| && (forall j :: 0 <= j < idx ==> pending[j] != id)
    requires idx < |pending| ==> pending[idx] == id
    ensures Without(pending, id) == if idx < |pending| then pending[..idx] + pending[idx + 1..] else pending
  {
    WithoutFrom(pending, id, idx);
    if idx == |pending| {
      assert pending[..idx] == pending && pending[idx..] == [];
    }
  }

  lemma StartedKeepsInv(s: State, now: int)
    requires Inv(s)
    ensures Inv(Started(s, now))
  {
    var t := Started(s, now);
    forall i, j | 0 <= i < j < |t.pending|
      ensures t.pending[i] < t.pending[j]
    {
      assert s.pending[i] in s.pending;
    }
  }

  lemma NotifiedKeepsInv(s: State, now: int)
    requires Inv(s)
    ensures Inv(Notified(s, now))
    ensures forall w :: w in Notified(s, now).waiters ==> w.done
  {
  }

  lemma {:induction false} WithoutKeepsOrder(pending: seq<nat>, id: nat)
    requires forall i, j :: 0 <= i < j < |pending| ==> pending[i] < pending[j]
    ensures var r := Without(pending, id);
            && (forall i, j :: 0 <= i < j < |r| ==> r[i] < r[j])
            && (forall x :: x in r <==> x in pending && x != id)
  {
    if pending == [] {
    } else {
      assert pending == [pending[0]] + pending[1..];
      if pending[0] != id {
        WithoutKeepsOrder(pending[1..], id);
        var tail := Without(pending[1..], id);
        forall k | 0 <= k < |tail|
          ensures pending[0] < tail[k]
        {
          assert tail[k] in tail && tail[k] in pending[1..];
        }
      } else {
        assert id !in pending[1..];
      }
    }
  }

  lemma TimedOutWaiters(waiters: seq<Waiter>, id: nat, w: Waiter)
    requires ResolvedOnce(waiters) && id < |waiters| && w.done && w.resolutions == 1
    ensures ResolvedOnce(waiters[id := w])
  {
  }

  lemma TimedOutKeepsInv(s: State, id: nat, now: int)
    requires Inv(s) && id < |s.waiters|
    ensures Inv(TimedOut(s, id, now)) && TimedOut(s, id, now).waiters[id].done
  {
    assert s.waiters[id] in s.waiters;
    TimedOutWaiters(s.waiters, id, TimedOut(s, id, now).waiters[id]);
    WithoutKeepsOrder(s.pending, id);
  }

  // ---------- Every interleaving ----------

  datatype Event = Wait(now: int) | Notification(now: int) | Timer(id: nat, now: int)

  /** The poll interval, and how late the runtime may fire a timer. */
  datatype Timing = Timing(pollIntervalMs: nat, lateMs: nat)

  function Due(w: Waiter, timing: Timing): (r: int) {
    w.startedAt + timing.pollIntervalMs
  }

  /** A timer fires once, and not before it is due. */
  ghost predicate Step(s: State, e: Event, t: State, timing: Timing) {
    match e
    case Wait(now) => t == Started(s, now)
    case Notification(now) => t == Notified(s, now)
    case Timer(id, now) =>
      && id < |s.waiters| && !s.waiters[id].timerFired && Due(s.waiters[id], timing) <= now
      && t == TimedOut(s, id, now)
  }

  /** Of the runtime: what happens at `now` finds no timer left that was due more than `lateMs` before. */
  ghost predicate TimersOnTime(s: State, now: int, timing: Timing) {
    forall w :: w in s.waiters && !w.timerFired ==> now <= Due(w, timing) + timing.lateMs
  }

  ghost predicate Run(states: seq<State>, events: seq<Event>, timing: Timing) {
    && |states| == |events| + 1 && states[0] == State([], [])
    && forall i :: 0 <= i < |events| ==>
         TimersOnTime(states[i], events[i].now, timing) && Step(states[i], events[i], states[i + 1], timing)
  }

  lemma StepKeepsInv(s: State, e: Event, t: State, timing: Timing)
    requires Inv(s) && Step(s, e, t, timing)
    ensures Inv(t)
    ensures e.Notification? ==> t.pending == []
  {
    match e
    case Wait(now) => StartedKeepsInv(s, now);
    case Notification(now) => NotifiedKeepsInv(s, now);
    case Timer(id, now) => TimedOutKeepsInv(s, id, now);
  }

  /** What one step can do to a wait: nothing, or end it, as its timer or as a notification. */
  lemma StepEffect(s: State, e: Event, t: State, timing: Timing, id: nat)
    requires Step(s, e, t, timing) && id < |s.waiters|
    ensures id < |t.waiters|
    ensures s.waiters[id].done ==> SameWait(t.waiters[id], s.waiters[id])
    ensures SameWait(t.waiters[id], s.waiters[id]) ||
            (SameWait(t.waiters[id], Resolve(s.waiters[id], e.now)) &&
             (e.Notification? || (e == Timer(id, e.now) && Due(s.waiters[id], timing) <= e.now)))
  {
  }

  /** `pending` is exactly the unresolved waiters after every run, and each of them still has its timer. */
  lemma {:induction false} EveryRun(states: seq<State>, events: seq<Event>, timing: Timing, n: nat)
    requires Run(states, events, timing) && n < |states|
    ensures Inv(states[n])
  {
    if n == 0 {
    } else {
      EveryRun(states, events, timing, n - 1);
      StepKeepsInv(states[n - 1], events[n - 1], states[n], timing);
    }
  }

  /** A wait that has ended stays as it ended: its promise is never resolved again. */
  lemma {:induction false} EndedWaitsStay(states: seq<State>, events: seq<Event>, timing: Timing, i: nat, n: nat, id: nat)
    requires Run(states, events, timing) && i <= n < |states|
    requires id < |states[i].waiters| && states[i].waiters[id].done
    ensures id < |states[n].waiters| && SameWait(states[n].waiters[id], states[i].waiters[id])
    decreases n - i
  {
    if i == n {
    } else {
      StepEffect(states[i], events[i], states[i + 1], timing, id);
      EndedWaitsStay(states, events, timing, i + 1, n, id);
    }
  }

  lemma {:induction false} EndedBy(states: seq<State>, events: seq<Event>, timing: Timing, n: nat, id: nat)
    returns (j: nat)
    requires Run(states, events, timing) && n < |states|
    requires id < |states[n].waiters| && states[n].waiters[id].done
    ensures j < n && id < |states[j].waiters| && !states[j].waiters[id].done
    ensures var w := states[n].waiters[id];
            && w.resolutions == 1 && w.resolvedAt == events[j].now <= Due(w, timing) + timing.lateMs
            && (events[j].Notification? || (events[j] == Timer(id, w.resolvedAt) && Due(w, timing) <= w.resolvedAt))
  {
    EveryRun(states, events, timing, n);
    assert states[n].waiters[id] in states[n].waiters;
    var s, t := states[n - 1], states[n];
    assert Step(s, events[n - 1], t, timing);
    assert id < |s.waiters|;
    StepEffect(s, events[n - 1], t, timing, id);
    if s.waiters[id].done {
      j := EndedBy(states, events, timing, n - 1, id);
    } else {
      j := n - 1;
      EveryRun(states, events, timing, j);
      assert s.waiters[id] in s.waiters;
    }
  }

  // ---------- From the call on ----------

  /** The wait that event `i` begins has its timer set at that moment, in every later state. */
  lemma {:induction false} WaitStartsAtItsCall(states: seq<State>, events: seq<Event>, timing: Timing, i: nat, n: nat)
    requires Run(states, events, timing) && i < n < |states| && events[i].Wait?
    ensures var id := |states[i].waiters|;
            id < |states[n].waiters| && states[n].waiters[id].startedAt == events[i].now
            && (n == i + 1 ==> !states[n].waiters[id].done && !states[n].waiters[id].timerFired)
  {
    assert Step(states[n - 1], events[n - 1], states[n], timing);
    if n == i + 1 {
    } else {
      WaitStartsAtItsCall(states, events, timing, i, n - 1);
      StepEffect(states[n - 1], events[n - 1], states[n], timing, |states[i].waiters|);
    }
  }

  /**
   A wait that has ended was resolved once, after its call: by a notification, or else by its timer, no
   earlier than the poll interval after the call; and no later than that plus the timer's lateness.
   */
  lemma WhatEndedIt(states: seq<State>, events: seq<Event>, timing: Timing, i: nat, n: nat) returns (j: nat)
    requires Run(states, events, timing) && i < n < |states| && events[i].Wait?
    requires |states[i].waiters| < |states[n].waiters| && states[n].waiters[|states[i].waiters|].done
    ensures var w := states[n].waiters[|states[i].waiters|];
            && i < j < n && w.resolutions == 1
            && w.resolvedAt == events[j].now <= events[i].now + timing.pollIntervalMs + timing.lateMs
            && (events[j].Notification? ||
                (events[j] == Timer(|states[i].waiters|, w.resolvedAt) &&
                 events[i].now + timing.pollIntervalMs <= w.resolvedAt))
  {
    var id := |states[i].waiters|;
    WaitStartsAtItsCall(states, events, timing, i, n);
    j := EndedBy(states, events, timing, n, id);
    if j <= i {
      WaitersOnlyGrow(states, events, timing, j, i);
    }
  }

  lemma {:induction false} WaitersOnlyGrow(states: seq<State>, events: seq<Event>, timing: Timing, i: nat, n: nat)
    requires Run(states, events, timing) && i <= n < |states|
    ensures |states[i].waiters| <= |states[n].waiters|
  {
    if i == n {
    } else {
      WaitersOnlyGrow(states, events, timing, i, n - 1);
      assert Step(states[n - 1], events[n - 1], states[n], timing);
    }
  }

  /**
   Each wait is resolved exactly once and in time: an unresolved waiter still has its timer, so nothing
   happens later than the poll interval and the timer's lateness after the call before its promise is
   resolved.
   */
  lemma ResolvedOnceByDeadline(states: seq<State>, events: seq<Event>, timing: Timing, i: nat, n: nat)
    requires Run(states, events, timing) && i < n < |events| && events[i].Wait?
    requires events[n].now > events[i].now + timing.pollIntervalMs + timing.lateMs
    ensures var id := |states[i].waiters|;
            && id < |states[n].waiters|
            && var w := states[n].waiters[id];
               w.done && w.resolutions == 1 && w.resolvedAt <= events[i].now + timing.pollIntervalMs + timing.lateMs
  {
    var id := |states[i].waiters|;
    EveryRun(states, events, timing, n);
    WaitStartsAtItsCall(states, events, timing, i, n);
    assert states[n].waiters[id] in states[n].waiters;
    assert TimersOnTime(states[n], events[n].now, timing);
    var j := WhatEndedIt(states, events, timing, i, n);
  }

  /** A notification ends every wait there is. */
  lemma NotificationWakesAll(states: seq<State>, events: seq<Event>, timing: Timing, i: nat)
    requires Run(states, events, timing) && i < |events| && events[i].Notification?
    ensures |states[i + 1].waiters| == |states[i].waiters| && forall w :: w in states[i + 1].waiters ==> w.done
  {
    EveryRun(states, events, timing, i);
    assert Step(states[i], events[i], states[i + 1], timing);
    NotifiedKeepsInv(states[i], events[i].now);
  }
}
