/** The membership flags of callbacks and the lists they stand for (event.c), on values. */
module EventLists {
  import opened Basics

  /** struct event_callback, or the struct event around it when init is set. */
  datatype Cb = Cb(
    init: bool, internal_: bool, finalizing: bool,
    inserted: bool, timeout: bool, active: bool, later: bool,
    pri: nat,
    /** The event asks for a descriptor or a signal; it has EV_SIGNAL; it has EV_PERSIST. */
    io: bool, signal: bool, persist: bool,
    /** ev_res has EV_TIMEOUT. */
    timedOut: bool,
    /** ev_timeout, split into the time and the index of a common timeout (-1: none). */
    due: int, common: int,
    /** ev_io_timeout of a persistent event, split in the same way. */
    period: int, periodCommon: int
  ) {
    /** How many lists a callback that counts is on. */
    function Memberships(): nat {
      if internal_ then 0
      else
        (if inserted then 1 else 0) + (if timeout then 1 else 0) + (if active then 1 else 0)
        + (if later then 1 else 0)
    }

    /** ev_io_timeout is not zero. The handle of a common timeout counts, even of length zero. */
    predicate Periodic() {
      period != 0 || periodCommon != -1
    }
  }

  /** struct common_timeout_list: the waiting events, and the event that stands for them
      in the heap. */
  datatype Ctl = Ctl(events: seq<nat>, rep: nat, duration: Duration)

  /** struct timeval, without the bits that mark the handle of a common timeout. */
  datatype Duration = Duration(sec: nat, usec: nat)

  const MAX_COMMON_TIMEOUTS: nat := 256

  function Sum(cbs: seq<Cb>): nat {
    if cbs == [] then 0 else cbs[0].Memberships() + Sum(cbs[1..])
  }

  lemma {:induction false} SumUpdate(cbs: seq<Cb>, i: nat, c: Cb)
    requires i < |cbs|
    ensures Sum(cbs[i := c]) == Sum(cbs) - cbs[i].Memberships() + c.Memberships()
  {
    if i > 0 {
      SumUpdate(cbs[1..], i - 1, c);
      assert cbs[i := c][1..] == cbs[1..][i - 1 := c];
    } else {
      assert cbs[0 := c][1..] == cbs[1..];
    }
  }

  lemma {:induction false} SumSnoc(cbs: seq<Cb>, c: Cb)
    ensures Sum(cbs + [c]) == Sum(cbs) + c.Memberships()
  {
    if cbs == [] {
      assert [] + [c] == [c];
    } else {
      SumSnoc(cbs[1..], c);
      assert (cbs + [c])[1..] == cbs[1..] + [c];
    }
  }

  predicate InQueue(cbs: seq<Cb>, p: int, x: nat) {
    x < |cbs| && cbs[x].active && cbs[x].pri == p
  }

  predicate IsLater(cbs: seq<Cb>, x: nat) {
    x < |cbs| && cbs[x].later
  }

  predicate Waits(cbs: seq<Cb>, c: int, x: nat) {
    x < |cbs| && cbs[x].timeout && cbs[x].common == c
  }

  /** The active queues and the later queue hold exactly the callbacks whose flags say so,
      each in the queue of its priority. */
  ghost predicate QueuesOk(cbs: seq<Cb>, queues: seq<seq<nat>>, later: seq<nat>) {
    && (forall p :: 0 <= p < |queues| ==> NoDup(queues[p]))
    && NoDup(later)
    && (forall p, x: nat :: 0 <= p < |queues| ==> (x in queues[p] <==> InQueue(cbs, p, x)))
    && (forall x: nat :: x in later <==> IsLater(cbs, x))
    && (forall x :: 0 <= x < |cbs| ==> cbs[x].pri < |queues| && !(cbs[x].active && cbs[x].later))
  }

  ghost predicate CountsOk(cbs: seq<Cb>, queues: seq<seq<nat>>, later: seq<nat>, count: int, countActive: int) {
    count == Sum(cbs) && countActive == Total(queues) + |later|
  }

  predicate Sorted(cbs: seq<Cb>, s: seq<nat>) {
    forall i, j :: 0 <= i < j < |s| && s[i] < |cbs| && s[j] < |cbs| ==> cbs[s[i]].due <= cbs[s[j]].due
  }

  /** Timers are in the heap, or in the list of their common timeout, which is in order. */
  ghost predicate TimersOk(cbs: seq<Cb>, heap: set<nat>, ctls: seq<Ctl>) {
    && (forall x: nat :: x in heap <==> Waits(cbs, -1, x))
    && (forall c :: 0 <= c < |ctls| ==> NoDup(ctls[c].events) && Sorted(cbs, ctls[c].events))
    && (forall c, x: nat :: 0 <= c < |ctls| ==> (x in ctls[c].events <==> Waits(cbs, c, x)))
    && (forall x :: 0 <= x < |cbs| ==> -1 <= cbs[x].common < |ctls|)
  }

  /** A callback that is being finalized waits for nothing, and only events wait. */
  predicate FlagsOk(c: Cb) {
    && ((c.finalizing || !c.init) ==> !c.timeout && !c.inserted)
    && (c.inserted ==> c.io)
    && (c.Periodic() ==> c.persist && !c.signal && c.periodCommon == c.common)
  }

  predicate IsRep(r: Cb) {
    && r.init && r.internal_ && !r.finalizing && !r.inserted && !r.later && !r.io && !r.persist && r.common == -1
    && (r.active ==> r.timedOut)
  }

  /** The events that stand for common timeouts belong to nobody else. */
  ghost predicate RepsDistinct(cbs: seq<Cb>, ctls: seq<Ctl>) {
    && (forall c :: 0 <= c < |ctls| ==> ctls[c].rep < |cbs| && IsRep(cbs[ctls[c].rep]))
    && (forall c, d :: 0 <= c < d < |ctls| ==> ctls[c].rep != ctls[d].rep)
  }

  /** The timeout list c is looked after: it is empty, or its event will go off no later
      than the first timeout in it, or has gone off and will run, or is running now. */
  predicate Watched(cbs: seq<Cb>, ctl: Ctl, running: bool)
    requires ctl.rep < |cbs|
  {
    ctl.events == [] || running || cbs[ctl.rep].active
    || (cbs[ctl.rep].timeout && (ctl.events[0] < |cbs| ==> cbs[ctl.rep].due <= cbs[ctl.events[0]].due))
  }

  /** Changing callback i in ways that do not concern the queues. */
  lemma QueuesKeep(cbs: seq<Cb>, queues: seq<seq<nat>>, later: seq<nat>, i: nat, c: Cb)
    requires QueuesOk(cbs, queues, later) && i < |cbs|
    requires c.active == cbs[i].active && c.later == cbs[i].later && c.pri == cbs[i].pri
    ensures QueuesOk(cbs[i := c], queues, later)
  {
  }

  lemma QueuePush(cbs: seq<Cb>, queues: seq<seq<nat>>, later: seq<nat>, i: nat, c: Cb, p: nat)
    requires QueuesOk(cbs, queues, later) && i < |cbs| && !cbs[i].active && !cbs[i].later
    requires c == cbs[i].(active := true) && p == c.pri
    ensures p < |queues| && QueuesOk(cbs[i := c], queues[p := queues[p] + [i]], later)
    ensures Total(queues[p := queues[p] + [i]]) == Total(queues) + 1
  {
    NoDupSnoc(queues[p], i);
    TotalUpdate(queues, p, queues[p] + [i]);
    var qs, ds := queues[p := queues[p] + [i]], cbs[i := c];
    forall q, x: nat | 0 <= q < |qs|
      ensures x in qs[q] <==> InQueue(ds, q, x)
    {
      assert x in queues[q] <==> InQueue(cbs, q, x);
    }
  }

  lemma QueueDrop(cbs: seq<Cb>, queues: seq<seq<nat>>, later: seq<nat>, i: nat, c: Cb, p: nat)
    requires QueuesOk(cbs, queues, later) && i < |cbs| && cbs[i].active
    requires c == cbs[i].(active := false) && p == c.pri
    ensures p < |queues| && QueuesOk(cbs[i := c], queues[p := Without(queues[p], i)], later)
    ensures Total(queues[p := Without(queues[p], i)]) == Total(queues) - 1
  {
    assert i in queues[p];
    WithoutIs(queues[p], i);
    TotalUpdate(queues, p, Without(queues[p], i));
    var qs, ds := queues[p := Without(queues[p], i)], cbs[i := c];
    forall q, x: nat | 0 <= q < |qs|
      ensures x in qs[q] <==> InQueue(ds, q, x)
    {
      assert x in queues[q] <==> InQueue(cbs, q, x);
    }
  }

  lemma LaterPush(cbs: seq<Cb>, queues: seq<seq<nat>>, later: seq<nat>, i: nat, c: Cb)
    requires QueuesOk(cbs, queues, later) && i < |cbs| && !cbs[i].active && !cbs[i].later
    requires c == cbs[i].(later := true)
    ensures QueuesOk(cbs[i := c], queues, later + [i])
  {
    NoDupSnoc(later, i);
    forall q, x: nat | 0 <= q < |queues|
      ensures x in queues[q] <==> InQueue(cbs[i := c], q, x)
    {
      assert x in queues[q] <==> InQueue(cbs, q, x);
    }
    forall x: nat
      ensures x in later + [i] <==> IsLater(cbs[i := c], x)
    {
      assert x in later <==> IsLater(cbs, x);
    }
  }

  lemma LaterDrop(cbs: seq<Cb>, queues: seq<seq<nat>>, later: seq<nat>, i: nat, c: Cb)
    requires QueuesOk(cbs, queues, later) && i < |cbs| && cbs[i].later
    requires c == cbs[i].(later := false)
    ensures QueuesOk(cbs[i := c], queues, Without(later, i)) && |Without(later, i)| == |later| - 1
  {
    WithoutIs(later, i);
    forall q, x: nat | 0 <= q < |queues|
      ensures x in queues[q] <==> InQueue(cbs[i := c], q, x)
    {
      assert x in queues[q] <==> InQueue(cbs, q, x);
    }
    forall x: nat
      ensures x in Without(later, i) <==> IsLater(cbs[i := c], x)
    {
      assert x in later <==> IsLater(cbs, x);
    }
  }

  /** Changing callback i in ways that do not concern timers. */
  lemma TimersKeep(cbs: seq<Cb>, heap: set<nat>, ctls: seq<Ctl>, i: nat, c: Cb)
    requires TimersOk(cbs, heap, ctls) && i < |cbs|
    requires c.timeout == cbs[i].timeout && c.common == cbs[i].common && (c.timeout ==> c.due == cbs[i].due)
    ensures TimersOk(cbs[i := c], heap, ctls)
  {
    forall k | 0 <= k < |ctls|
      ensures Sorted(cbs[i := c], ctls[k].events)
    {
      SortedKeep(cbs, ctls[k].events, i, c);
    }
  }

  lemma SortedKeep(cbs: seq<Cb>, s: seq<nat>, i: nat, c: Cb)
    requires Sorted(cbs, s) && i < |cbs| && (i in s ==> c.due == cbs[i].due)
    ensures Sorted(cbs[i := c], s)
  {
  }

  /** A timer that is not waiting may be set to another time. */
  lemma TimersSet(cbs: seq<Cb>, heap: set<nat>, ctls: seq<Ctl>, i: nat, c: Cb)
    requires TimersOk(cbs, heap, ctls) && i < |cbs| && !cbs[i].timeout && !c.timeout && -1 <= c.common < |ctls|
    ensures TimersOk(cbs[i := c], heap, ctls)
  {
    forall k | 0 <= k < |ctls|
      ensures Sorted(cbs[i := c], ctls[k].events)
    {
      SortedKeep(cbs, ctls[k].events, i, c);
    }
  }

  lemma HeapPush(cbs: seq<Cb>, heap: set<nat>, ctls: seq<Ctl>, i: nat, c: Cb)
    requires TimersOk(cbs, heap, ctls) && i < |cbs| && !cbs[i].timeout && cbs[i].common == -1
      && c == cbs[i].(timeout := true)
    ensures TimersOk(cbs[i := c], heap + {i}, ctls)
  {
  }

  lemma HeapDrop(cbs: seq<Cb>, heap: set<nat>, ctls: seq<Ctl>, i: nat, c: Cb)
    requires TimersOk(cbs, heap, ctls) && i < |cbs| && cbs[i].timeout && cbs[i].common == -1
      && c == cbs[i].(timeout := false)
    ensures TimersOk(cbs[i := c], heap - {i}, ctls)
  {
  }

  lemma {:induction false} SortedWithout(cbs: seq<Cb>, s: seq<nat>, x: nat)
    requires Sorted(cbs, s)
    ensures Sorted(cbs, Without(s, x))
  {
    if s != [] && s[0] != x {
      SortedTail(cbs, s);
      SortedWithout(cbs, s[1..], x);
      WithoutSubset(s[1..], x);
      SortedCons(cbs, s[0], s[1..], Without(s[1..], x));
    } else if s != [] {
      SortedTail(cbs, s);
    }
  }

  lemma SortedTail(cbs: seq<Cb>, s: seq<nat>)
    requires Sorted(cbs, s) && s != []
    ensures Sorted(cbs, s[1..])
    ensures forall y :: y in s[1..] && y < |cbs| && s[0] < |cbs| ==> cbs[s[0]].due <= cbs[y].due
  {
  }

  lemma SortedCons(cbs: seq<Cb>, h: nat, t: seq<nat>, u: seq<nat>)
    requires Sorted(cbs, u) && (forall y :: y in u ==> y in t)
    requires forall y :: y in t && y < |cbs| && h < |cbs| ==> cbs[h].due <= cbs[y].due
    ensures Sorted(cbs, [h] + u)
  {
  }

  lemma {:induction false} WithoutSubset(s: seq<nat>, x: nat)
    ensures forall y :: y in Without(s, x) ==> y in s
  {
    if s != [] && s[0] != x {
      WithoutSubset(s[1..], x);
    }
  }

  lemma CtlDrop(cbs: seq<Cb>, heap: set<nat>, ctls: seq<Ctl>, i: nat, c: Cb, k: nat)
    requires TimersOk(cbs, heap, ctls) && i < |cbs| && cbs[i].timeout && k < |ctls| && k == cbs[i].common
      && c == cbs[i].(timeout := false)
    ensures TimersOk(cbs[i := c], heap, ctls[k := ctls[k].(events := Without(ctls[k].events, i))])
  {
    var es := ctls[k].events;
    assert i in es;
    WithoutIs(es, i);
    SortedWithout(cbs, es, i);
    var ds := ctls[k := ctls[k].(events := Without(es, i))];
    forall j | 0 <= j < |ds|
      ensures Sorted(cbs[i := c], ds[j].events)
    {
      SortedKeep(cbs, ds[j].events, i, c);
    }
  }

  /** Where insert_common_timeout_inorder puts an event with time due. */
  predicate Place(cbs: seq<Cb>, s: seq<nat>, due: int, at: nat) {
    && at <= |s|
    && (0 < at && s[at - 1] < |cbs| ==> cbs[s[at - 1]].due <= due)
    && (forall j :: at <= j < |s| && s[j] < |cbs| ==> due < cbs[s[j]].due)
  }

  lemma InsertIs(cbs: seq<Cb>, s: seq<nat>, i: nat, at: nat)
    requires NoDup(s) && Sorted(cbs, s) && i < |cbs| && i !in s && (forall y :: y in s ==> y < |cbs|)
      && Place(cbs, s, cbs[i].due, at)
    ensures Sorted(cbs, s[..at] + [i] + s[at..]) && NoDup(s[..at] + [i] + s[at..])
    ensures forall y :: y in s[..at] + [i] + s[at..] <==> y in s || y == i
  {
    NoDupInsert(s, at, i);
    SortedInsert(cbs, s, i, at, s[..at] + [i] + s[at..]);
  }

  lemma SortedInsert(cbs: seq<Cb>, s: seq<nat>, i: nat, at: nat, t: seq<nat>)
    requires Sorted(cbs, s) && i < |cbs| && (forall y :: y in s ==> y < |cbs|) && Place(cbs, s, cbs[i].due, at)
    requires t == s[..at] + [i] + s[at..]
    ensures Sorted(cbs, t)
  {
    assert |t| == |s| + 1 && t[at] == i;
    assert forall a :: 0 <= a < at ==> t[a] == s[a];
    assert forall a :: at < a < |t| ==> t[a] == s[a - 1];
    BeforePlace(cbs, s, cbs[i].due, at);
  }

  /** Everything before the place is not later. */
  lemma BeforePlace(cbs: seq<Cb>, s: seq<nat>, due: int, at: nat)
    requires Sorted(cbs, s) && (forall y :: y in s ==> y < |cbs|) && Place(cbs, s, due, at)
    ensures forall j :: 0 <= j < at ==> s[j] < |cbs| && cbs[s[j]].due <= due
  {
    forall j | 0 <= j < at
      ensures s[j] < |cbs| && cbs[s[j]].due <= due
    {
      assert s[at - 1] in s && s[j] in s;
    }
  }

  lemma {:induction false} NoDupInsert(s: seq<nat>, at: nat, i: nat)
    requires NoDup(s) && i !in s && at <= |s|
    ensures NoDup(s[..at] + [i] + s[at..]) && forall y :: y in s[..at] + [i] + s[at..] <==> y in s || y == i
  {
    if at == 0 {
      assert s[..0] + [i] + s[0..] == [i] + s && ([i] + s)[1..] == s;
    } else {
      NoDupInsert(s[1..], at - 1, i);
      assert s[1..][..at - 1] == s[..at][1..] && s[1..][at - 1..] == s[at..];
      assert (s[..at] + [i] + s[at..])[1..] == s[1..][..at - 1] + [i] + s[1..][at - 1..];
    }
  }

  lemma CtlPush(cbs: seq<Cb>, heap: set<nat>, ctls: seq<Ctl>, i: nat, c: Cb, k: nat, at: nat, es: seq<nat>)
    requires TimersOk(cbs, heap, ctls) && i < |cbs| && !cbs[i].timeout && k < |ctls| && k == cbs[i].common
      && c == cbs[i].(timeout := true)
    requires Place(cbs, ctls[k].events, cbs[i].due, at) && es == ctls[k].events[..at] + [i] + ctls[k].events[at..]
    ensures TimersOk(cbs[i := c], heap, ctls[k := ctls[k].(events := es)])
  {
    InsertIs(cbs, ctls[k].events, i, at);
    var ds := ctls[k := ctls[k].(events := es)];
    forall j | 0 <= j < |ds|
      ensures Sorted(cbs[i := c], ds[j].events)
    {
      SortedKeep(cbs, ds[j].events, i, c);
    }
    forall j, x: nat | 0 <= j < |ds|
      ensures x in ds[j].events <==> Waits(cbs[i := c], j, x)
    {
      assert x in ctls[j].events <==> Waits(cbs, j, x);
    }
  }

  ghost predicate AllWatched(cbs: seq<Cb>, ctls: seq<Ctl>, running: int) {
    forall c :: 0 <= c < |ctls| ==> ctls[c].rep < |cbs| && Watched(cbs, ctls[c], running == c)
  }

  /** No common timeout is lost: whatever waits in a list has the event of the list before it in
      the heap, or that event has gone off and will run, or its callback is about to. */
  lemma NotLost(cbs: seq<Cb>, heap: set<nat>, ctls: seq<Ctl>, running: int, k: nat, y: nat)
    requires TimersOk(cbs, heap, ctls) && RepsDistinct(cbs, ctls) && AllWatched(cbs, ctls, running)
    requires k < |ctls| && Waits(cbs, k, y)
    ensures ctls[k].rep < |cbs|
    ensures running == k || cbs[ctls[k].rep].active || (ctls[k].rep in heap && cbs[ctls[k].rep].due <= cbs[y].due)
  {
    var events, r := ctls[k].events, ctls[k].rep;
    assert y in events;
    var i :| 0 <= i < |events| && events[i] == y;
    assert events[0] in events;
    assert Waits(cbs, k, events[0]);
    assert cbs[events[0]].due <= cbs[events[i]].due;
    assert Watched(cbs, ctls[k], running == k);
    assert cbs[r].timeout ==> Waits(cbs, -1, r);
  }

  /** x stands for a common timeout. */
  ghost predicate StandsFor(ctls: seq<Ctl>, x: nat, c: int) {
    0 <= c < |ctls| && ctls[c].rep == x
  }

  ghost predicate Ours(ctls: seq<Ctl>, x: nat) {
    forall c :: !StandsFor(ctls, x, c)
  }

  /** Changes to other callbacks do not matter to the lists, as long as the times in them stay. */
  lemma WatchedKeep(cbs: seq<Cb>, ctls: seq<Ctl>, running: int, x: nat, c: Cb)
    requires AllWatched(cbs, ctls, running) && x < |cbs| && Ours(ctls, x)
    requires c.due == cbs[x].due || forall k :: 0 <= k < |ctls| ==> x !in ctls[k].events
    ensures AllWatched(cbs[x := c], ctls, running)
  {
    forall k | 0 <= k < |ctls|
      ensures Watched(cbs[x := c], ctls[k], running == k)
    {
      assert !StandsFor(ctls, x, k);
      assert ctls[k].events != [] ==> ctls[k].events[0] in ctls[k].events;
    }
  }

  /** Taking an event off a list leaves a later one at its head. */
  lemma WatchedDrop(cbs: seq<Cb>, ctls: seq<Ctl>, running: int, x: nat, k: nat)
    requires AllWatched(cbs, ctls, running) && k < |ctls| && Sorted(cbs, ctls[k].events)
    requires forall y :: y in ctls[k].events ==> y < |cbs|
    ensures AllWatched(cbs, ctls[k := ctls[k].(events := Without(ctls[k].events, x))], running)
  {
    var s := ctls[k].events;
    var t := Without(s, x);
    WithoutSubset(s, x);
    if t != [] {
      assert t[0] in s;
      assert s[0] in s;
      var i :| 0 <= i < |s| && s[i] == t[0];
      assert cbs[s[0]].due <= cbs[t[0]].due;
    }
  }

  /** A new callback is on no list. */
  lemma NewQueues(cbs: seq<Cb>, queues: seq<seq<nat>>, later: seq<nat>, c: Cb)
    requires QueuesOk(cbs, queues, later) && !c.active && !c.later && c.pri < |queues|
    ensures QueuesOk(cbs + [c], queues, later)
  {
  }

  lemma NewTimers(cbs: seq<Cb>, heap: set<nat>, ctls: seq<Ctl>, c: Cb)
    requires TimersOk(cbs, heap, ctls) && !c.timeout && -1 <= c.common < |ctls|
    ensures TimersOk(cbs + [c], heap, ctls)
  {
    forall x: nat
      ensures x in heap <==> Waits(cbs + [c], -1, x)
    {
      assert x in heap <==> Waits(cbs, -1, x);
    }
    forall k, x: nat | 0 <= k < |ctls|
      ensures x in ctls[k].events <==> Waits(cbs + [c], k, x)
    {
      assert x in ctls[k].events <==> Waits(cbs, k, x);
    }
    forall k | 0 <= k < |ctls|
      ensures Sorted(cbs + [c], ctls[k].events)
    {
      var s := ctls[k].events;
      assert forall j :: 0 <= j < |s| ==> s[j] in s && Waits(cbs, k, s[j]);
    }
  }

  /** A new list, with nobody in it. */
  lemma NewList(cbs: seq<Cb>, heap: set<nat>, ctls: seq<Ctl>, l: Ctl)
    requires TimersOk(cbs, heap, ctls) && l.events == []
    ensures TimersOk(cbs, heap, ctls + [l])
  {
  }

  /** Moving the first callback of the later queue to the active queue of its priority. */
  lemma LaterToActive(cbs: seq<Cb>, queues: seq<seq<nat>>, later: seq<nat>, x: nat, c: Cb, p: nat)
    requires QueuesOk(cbs, queues, later) && later != [] && x == later[0] && x < |cbs|
      && c == cbs[x].(later := false, active := true) && p == c.pri
    ensures p < |queues| && QueuesOk(cbs[x := c], queues[p := queues[p] + [x]], later[1..])
    ensures Total(queues[p := queues[p] + [x]]) == Total(queues) + 1
  {
    assert IsLater(cbs, x);
    var d := cbs[x].(later := false);
    LaterDrop(cbs, queues, later, x, d);
    QueuePush(cbs[x := d], queues, Without(later, x), x, c, p);
    assert cbs[x := d][x := c] == cbs[x := c];
  }

  /** The priority of a callback that is not active does not matter to the queues. */
  lemma PriorityKeep(cbs: seq<Cb>, queues: seq<seq<nat>>, later: seq<nat>, i: nat, c: Cb)
    requires QueuesOk(cbs, queues, later) && i < |cbs| && !cbs[i].active && c.pri < |queues|
      && c == cbs[i].(pri := c.pri)
    ensures QueuesOk(cbs[i := c], queues, later)
  {
  }

  /** Everything event_base_assert_ok_nolock_ checks. */
  ghost predicate BaseOk(cbs: seq<Cb>, queues: seq<seq<nat>>, later: seq<nat>, heap: set<nat>, ctls: seq<Ctl>,
      count: int, countActive: int)
  {
    && QueuesOk(cbs, queues, later) && CountsOk(cbs, queues, later, count, countActive) && TimersOk(cbs, heap, ctls)
    && AllFlagsOk(cbs) && RepsDistinct(cbs, ctls) && |ctls| <= MAX_COMMON_TIMEOUTS
  }

  ghost predicate AllFlagsOk(cbs: seq<Cb>) {
    forall x :: 0 <= x < |cbs| ==> FlagsOk(cbs[x])
  }

  /** Callback x may become c as far as the events that stand for common timeouts go. */
  ghost predicate RepsStay(cbs: seq<Cb>, ctls: seq<Ctl>, x: nat, c: Cb)
    requires x < |cbs|
  {
    FlagsOk(c) && (Ours(ctls, x) || (IsRep(cbs[x]) ==> IsRep(c)))
  }

  ghost predicate SameReps(a: seq<Ctl>, b: seq<Ctl>) {
    |a| == |b| && forall k :: 0 <= k < |a| ==> a[k].rep == b[k].rep
  }

  lemma RepsKeep(cbs: seq<Cb>, ctls: seq<Ctl>, x: nat, c: Cb, ds: seq<Ctl>)
    requires RepsDistinct(cbs, ctls) && AllFlagsOk(cbs) && x < |cbs| && RepsStay(cbs, ctls, x, c) && SameReps(ctls, ds)
    ensures RepsDistinct(cbs[x := c], ds) && AllFlagsOk(cbs[x := c])
  {
    forall k | 0 <= k < |ds|
      ensures ds[k].rep < |cbs| && IsRep(cbs[x := c][ds[k].rep])
    {
      assert StandsFor(ctls, ctls[k].rep, k);
    }
  }

  /** count after callback x has become c. */
  function Recount(count: int, cbs: seq<Cb>, x: nat, c: Cb): int
    requires x < |cbs|
  {
    count - cbs[x].Memberships() + c.Memberships()
  }

  /** Changes to x that concern no list. */
  lemma StepKeep(cbs: seq<Cb>, queues: seq<seq<nat>>, later: seq<nat>, heap: set<nat>, ctls: seq<Ctl>, count: int,
      countActive: int, x: nat, c: Cb)
    requires BaseOk(cbs, queues, later, heap, ctls, count, countActive) && x < |cbs| && RepsStay(cbs, ctls, x, c)
    requires c.active == cbs[x].active && c.later == cbs[x].later && c.timeout == cbs[x].timeout
    requires c.pri == cbs[x].pri || (!c.active && c == cbs[x].(pri := c.pri) && c.pri < |queues|)
    requires if c.timeout then c.common == cbs[x].common && c.due == cbs[x].due else -1 <= c.common < |ctls|
    ensures BaseOk(cbs[x := c], queues, later, heap, ctls, Recount(count, cbs, x, c), countActive)
  {
    SumUpdate(cbs, x, c);
    RepsKeep(cbs, ctls, x, c, ctls);
    if c.pri == cbs[x].pri {
      QueuesKeep(cbs, queues, later, x, c);
    } else {
      PriorityKeep(cbs, queues, later, x, c);
    }
    if c.timeout {
      TimersKeep(cbs, heap, ctls, x, c);
    } else {
      TimersSet(cbs, heap, ctls, x, c);
    }
  }

  lemma StepPush(cbs: seq<Cb>, queues: seq<seq<nat>>, later: seq<nat>, heap: set<nat>, ctls: seq<Ctl>, count: int,
      countActive: int, x: nat, c: Cb)
    requires BaseOk(cbs, queues, later, heap, ctls, count, countActive) && x < |cbs| && RepsStay(cbs, ctls, x, c)
    requires !cbs[x].active && !cbs[x].later && c == cbs[x].(active := true)
    ensures c.pri < |queues|
    ensures BaseOk(cbs[x := c], queues[c.pri := queues[c.pri] + [x]], later, heap, ctls, Recount(count, cbs, x, c),
      countActive + 1)
  {
    SumUpdate(cbs, x, c);
    RepsKeep(cbs, ctls, x, c, ctls);
    QueuePush(cbs, queues, later, x, c, c.pri);
    TimersKeep(cbs, heap, ctls, x, c);
  }

  lemma StepDrop(cbs: seq<Cb>, queues: seq<seq<nat>>, later: seq<nat>, heap: set<nat>, ctls: seq<Ctl>, count: int,
      countActive: int, x: nat, c: Cb)
    requires BaseOk(cbs, queues, later, heap, ctls, count, countActive) && x < |cbs|
    requires cbs[x].active && c == cbs[x].(active := false)
    ensures c.pri < |queues|
    ensures BaseOk(cbs[x := c], queues[c.pri := Without(queues[c.pri], x)], later, heap, ctls,
      Recount(count, cbs, x, c), countActive - 1)
  {
    SumUpdate(cbs, x, c);
    RepsKeep(cbs, ctls, x, c, ctls);
    QueueDrop(cbs, queues, later, x, c, c.pri);
    TimersKeep(cbs, heap, ctls, x, c);
  }

  lemma StepLaterPush(cbs: seq<Cb>, queues: seq<seq<nat>>, later: seq<nat>, heap: set<nat>, ctls: seq<Ctl>,
      count: int, countActive: int, x: nat, c: Cb)
    requires BaseOk(cbs, queues, later, heap, ctls, count, countActive) && x < |cbs| && RepsStay(cbs, ctls, x, c)
    requires !cbs[x].active && !cbs[x].later && c == cbs[x].(later := true)
    ensures BaseOk(cbs[x := c], queues, later + [x], heap, ctls, Recount(count, cbs, x, c), countActive + 1)
  {
    SumUpdate(cbs, x, c);
    RepsKeep(cbs, ctls, x, c, ctls);
    LaterPush(cbs, queues, later, x, c);
    TimersKeep(cbs, heap, ctls, x, c);
  }

  lemma StepLaterDrop(cbs: seq<Cb>, queues: seq<seq<nat>>, later: seq<nat>, heap: set<nat>, ctls: seq<Ctl>,
      count: int, countActive: int, x: nat, c: Cb)
    requires BaseOk(cbs, queues, later, heap, ctls, count, countActive) && x < |cbs|
    requires cbs[x].later && c == cbs[x].(later := false)
    ensures BaseOk(cbs[x := c], queues, Without(later, x), heap, ctls, Recount(count, cbs, x, c), countActive - 1)
  {
    SumUpdate(cbs, x, c);
    RepsKeep(cbs, ctls, x, c, ctls);
    LaterDrop(cbs, queues, later, x, c);
    TimersKeep(cbs, heap, ctls, x, c);
  }

  lemma StepLaterToActive(cbs: seq<Cb>, queues: seq<seq<nat>>, later: seq<nat>, heap: set<nat>, ctls: seq<Ctl>,
      count: int, countActive: int, x: nat, c: Cb)
    requires BaseOk(cbs, queues, later, heap, ctls, count, countActive) && later != [] && x == later[0]
    requires x < |cbs| && c == cbs[x].(later := false, active := true)
    ensures c.pri < |queues| && Ours(ctls, x) && Recount(count, cbs, x, c) == count
    ensures BaseOk(cbs[x := c], queues[c.pri := queues[c.pri] + [x]], later[1..], heap, ctls, count, countActive)
  {
    assert IsLater(cbs, x);
    assert forall k :: StandsFor(ctls, x, k) ==> IsRep(cbs[x]);
    SumUpdate(cbs, x, c);
    RepsKeep(cbs, ctls, x, c, ctls);
    LaterToActive(cbs, queues, later, x, c, c.pri);
    TimersKeep(cbs, heap, ctls, x, c);
  }

  lemma StepHeapPush(cbs: seq<Cb>, queues: seq<seq<nat>>, later: seq<nat>, heap: set<nat>, ctls: seq<Ctl>, count: int,
      countActive: int, x: nat, c: Cb)
    requires BaseOk(cbs, queues, later, heap, ctls, count, countActive) && x < |cbs| && RepsStay(cbs, ctls, x, c)
    requires !cbs[x].timeout && cbs[x].common == -1 && c == cbs[x].(timeout := true)
    ensures BaseOk(cbs[x := c], queues, later, heap + {x}, ctls, Recount(count, cbs, x, c), countActive)
  {
    SumUpdate(cbs, x, c);
    RepsKeep(cbs, ctls, x, c, ctls);
    QueuesKeep(cbs, queues, later, x, c);
    HeapPush(cbs, heap, ctls, x, c);
  }

  lemma StepHeapDrop(cbs: seq<Cb>, queues: seq<seq<nat>>, later: seq<nat>, heap: set<nat>, ctls: seq<Ctl>, count: int,
      countActive: int, x: nat, c: Cb)
    requires BaseOk(cbs, queues, later, heap, ctls, count, countActive) && x < |cbs|
    requires cbs[x].timeout && cbs[x].common == -1 && c == cbs[x].(timeout := false)
    ensures BaseOk(cbs[x := c], queues, later, heap - {x}, ctls, Recount(count, cbs, x, c), countActive)
  {
    SumUpdate(cbs, x, c);
    RepsKeep(cbs, ctls, x, c, ctls);
    QueuesKeep(cbs, queues, later, x, c);
    HeapDrop(cbs, heap, ctls, x, c);
  }

  lemma StepCtlPush(cbs: seq<Cb>, queues: seq<seq<nat>>, later: seq<nat>, heap: set<nat>, ctls: seq<Ctl>, count: int,
      countActive: int, x: nat, c: Cb, k: nat, at: nat, es: seq<nat>, ds: seq<Ctl>)
    requires BaseOk(cbs, queues, later, heap, ctls, count, countActive) && x < |cbs| && RepsStay(cbs, ctls, x, c)
    requires !cbs[x].timeout && k == cbs[x].common && c == cbs[x].(timeout := true) && k < |ctls|
    requires Place(cbs, ctls[k].events, cbs[x].due, at) && es == ctls[k].events[..at] + [x] + ctls[k].events[at..]
    requires ds == ctls[k := ctls[k].(events := es)]
    ensures BaseOk(cbs[x := c], queues, later, heap, ds, Recount(count, cbs, x, c), countActive)
  {
    SumUpdate(cbs, x, c);
    RepsKeep(cbs, ctls, x, c, ds);
    QueuesKeep(cbs, queues, later, x, c);
    CtlPush(cbs, heap, ctls, x, c, k, at, es);
  }

  lemma StepCtlDrop(cbs: seq<Cb>, queues: seq<seq<nat>>, later: seq<nat>, heap: set<nat>, ctls: seq<Ctl>, count: int,
      countActive: int, x: nat, c: Cb, k: int, ds: seq<Ctl>)
    requires BaseOk(cbs, queues, later, heap, ctls, count, countActive) && x < |cbs|
    requires cbs[x].timeout && k == cbs[x].common != -1 && c == cbs[x].(timeout := false)
    requires 0 <= k < |ctls| ==> ds == ctls[k := ctls[k].(events := Without(ctls[k].events, x))]
    ensures 0 <= k < |ctls| && BaseOk(cbs[x := c], queues, later, heap, ds, Recount(count, cbs, x, c), countActive)
  {
    SumUpdate(cbs, x, c);
    RepsKeep(cbs, ctls, x, c, ds);
    QueuesKeep(cbs, queues, later, x, c);
    CtlDrop(cbs, heap, ctls, x, c, k);
  }

  lemma StepNew(cbs: seq<Cb>, queues: seq<seq<nat>>, later: seq<nat>, heap: set<nat>, ctls: seq<Ctl>, count: int,
      countActive: int, c: Cb)
    requires BaseOk(cbs, queues, later, heap, ctls, count, countActive) && FlagsOk(c) && c.pri < |queues|
      && c.common == -1
    requires !c.inserted && !c.timeout && !c.active && !c.later
    ensures BaseOk(cbs + [c], queues, later, heap, ctls, count, countActive)
  {
    SumSnoc(cbs, c);
    NewQueues(cbs, queues, later, c);
    NewTimers(cbs, heap, ctls, c);
  }
}
