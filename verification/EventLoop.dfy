/** The queues and timers of an event base (event.c). */
module EventLoop {
  import opened Basics
  import opened EventLists

  /** A timeout as users give it: a length of time, or the handle of a common timeout. */
  datatype Tv = Tv(usec: int, common: int) {
    predicate IsSet() {
      usec != 0 || common != -1
    }
  }

  class EventBase {
    var cbs: seq<Cb>
    var queues: seq<seq<nat>>
    var later: seq<nat>
    var heap: set<nat>
    var ctls: seq<Ctl>
    var count: int
    var countActive: int
    /** The common timeout whose callback has been taken off the queue and not run yet. */
    var running: int

    ghost predicate Basic()
      reads this
    {
      BaseOk(cbs, queues, later, heap, ctls, count, countActive)
    }

    /** Everything event_base_assert_ok_nolock_ checks, and that no common timeout is lost. */
    ghost predicate Valid()
      reads this
    {
      Basic() && AllWatched(cbs, ctls, running)
    }

    constructor (priorities: nat)
      requires 0 < priorities
      ensures Valid() && cbs == [] && ctls == [] && |queues| == priorities && running == -1
    {
      cbs, later, heap, ctls, count, countActive, running := [], [], {}, [], 0, 0, -1;
      queues := seq(priorities, _ => []);
      new;
      NoneQueued(queues);
    }

    static lemma NoneQueued(qs: seq<seq<nat>>)
      requires forall i :: 0 <= i < |qs| ==> qs[i] == []
      ensures Total(qs) == 0
    {
    }

    /** event_queue_remove_inserted and event_queue_insert_inserted */
    method SetInserted(x: nat, on: bool)
      requires Basic() && x < |cbs| && cbs[x].inserted != on
      requires on ==> !cbs[x].finalizing && cbs[x].init && cbs[x].io
      modifies this`cbs, this`count
      ensures Basic() && cbs == old(cbs)[x := old(cbs)[x].(inserted := on)]
      ensures count == old(count) + if cbs[x].internal_ then 0 else if on then 1 else -1
    {
      StepKeep(cbs, queues, later, heap, ctls, count, countActive, x, cbs[x].(inserted := on));
      if !cbs[x].internal_ {
        count := count + if on then 1 else -1;
      }
      cbs := cbs[x := cbs[x].(inserted := on)];
    }

    /** event_queue_remove_active */
    method RemoveActive(x: nat)
      requires Basic() && x < |cbs| && cbs[x].active
      modifies this`cbs, this`queues, this`count, this`countActive
      ensures Basic() && cbs == old(cbs)[x := old(cbs)[x].(active := false)]
      ensures cbs[x].pri < |old(queues)| && queues == old(queues)[cbs[x].pri := Without(old(queues)[cbs[x].pri], x)]
      ensures count == old(count) - (if cbs[x].internal_ then 0 else 1) && countActive == old(countActive) - 1
    {
      var p := cbs[x].pri;
      StepDrop(cbs, queues, later, heap, ctls, count, countActive, x, cbs[x].(active := false));
      if !cbs[x].internal_ {
        count := count - 1;
      }
      cbs := cbs[x := cbs[x].(active := false)];
      countActive := countActive - 1;
      queues := queues[p := Without(queues[p], x)];
    }

    /** event_queue_insert_active */
    method InsertActive(x: nat)
      requires Basic() && x < |cbs| && !cbs[x].active && !cbs[x].later && (cbs[x].timedOut || Ours(ctls, x))
      modifies this`cbs, this`queues, this`count, this`countActive
      ensures Basic() && cbs == old(cbs)[x := old(cbs)[x].(active := true)]
      ensures cbs[x].pri < |old(queues)| && queues == old(queues)[cbs[x].pri := old(queues)[cbs[x].pri] + [x]]
      ensures count == old(count) + (if cbs[x].internal_ then 0 else 1) && countActive == old(countActive) + 1
    {
      var p := cbs[x].pri;
      StepPush(cbs, queues, later, heap, ctls, count, countActive, x, cbs[x].(active := true));
      if !cbs[x].internal_ {
        count := count + 1;
      }
      cbs := cbs[x := cbs[x].(active := true)];
      countActive := countActive + 1;
      queues := queues[p := queues[p] + [x]];
    }

    /** event_queue_remove_active_later */
    method RemoveLater(x: nat)
      requires Basic() && x < |cbs| && cbs[x].later
      modifies this`cbs, this`later, this`count, this`countActive
      ensures Basic() && cbs == old(cbs)[x := old(cbs)[x].(later := false)] && later == Without(old(later), x)
      ensures count == old(count) - (if cbs[x].internal_ then 0 else 1) && countActive == old(countActive) - 1
    {
      StepLaterDrop(cbs, queues, later, heap, ctls, count, countActive, x, cbs[x].(later := false));
      if !cbs[x].internal_ {
        count := count - 1;
      }
      cbs := cbs[x := cbs[x].(later := false)];
      countActive := countActive - 1;
      later := Without(later, x);
    }

    /** event_queue_insert_active_later */
    method InsertLater(x: nat)
      requires Basic() && x < |cbs| && Ours(ctls, x) && !cbs[x].active && !cbs[x].later
      modifies this`cbs, this`later, this`count, this`countActive
      ensures Basic() && cbs == old(cbs)[x := old(cbs)[x].(later := true)] && later == old(later) + [x]
      ensures count == old(count) + (if cbs[x].internal_ then 0 else 1) && countActive == old(countActive) + 1
    {
      StepLaterPush(cbs, queues, later, heap, ctls, count, countActive, x, cbs[x].(later := true));
      if !cbs[x].internal_ {
        count := count + 1;
      }
      cbs := cbs[x := cbs[x].(later := true)];
      countActive := countActive + 1;
      later := later + [x];
    }

    /** event_queue_remove_timeout */
    method RemoveTimeout(x: nat)
      requires Basic() && x < |cbs| && cbs[x].timeout
      modifies this`cbs, this`heap, this`ctls, this`count
      ensures Basic() && cbs == old(cbs)[x := old(cbs)[x].(timeout := false)]
      ensures var k := cbs[x].common;
        if k == -1 then heap == old(heap) - {x} && ctls == old(ctls)
        else
          heap == old(heap) && 0 <= k < |old(ctls)|
          && ctls == old(ctls)[k := old(ctls)[k].(events := Without(old(ctls)[k].events, x))]
      ensures count == old(count) - if cbs[x].internal_ then 0 else 1
    {
      if cbs[x].common == -1 {
        StepHeapDrop(cbs, queues, later, heap, ctls, count, countActive, x, cbs[x].(timeout := false));
        heap := heap - {x};
      } else {
        DropFromList(x);
      }
      if !cbs[x].internal_ {
        count := count - 1;
      }
      cbs := cbs[x := cbs[x].(timeout := false)];
    }

    /** TAILQ_REMOVE from the common timeout list of x, which is still marked as waiting. */
    method DropFromList(x: nat)
      requires Basic() && x < |cbs| && cbs[x].timeout && cbs[x].common != -1
      modifies this`ctls
      ensures var c := cbs[x].(timeout := false);
        BaseOk(cbs[x := c], queues, later, heap, ctls, Recount(count, cbs, x, c), countActive)
      ensures var k := cbs[x].common;
        0 <= k < |old(ctls)| && ctls == old(ctls)[k := old(ctls)[k].(events := Without(old(ctls)[k].events, x))]
    {
      assert Waits(cbs, cbs[x].common, x);
      var k := cbs[x].common;
      var ds := ctls[k := ctls[k].(events := Without(ctls[k].events, x))];
      StepCtlDrop(cbs, queues, later, heap, ctls, count, countActive, x, cbs[x].(timeout := false), k, ds);
      ctls := ds;
    }

    /** The search of insert_common_timeout_inorder, from the end of the list. */
    method FindPlace(k: nat, due: int) returns (at: nat)
      requires TimersOk(cbs, heap, ctls) && k < |ctls|
      ensures Place(cbs, ctls[k].events, due, at)
    {
      var s := ctls[k].events;
      at := |s|;
      while at > 0
        invariant at <= |s| && forall j :: at <= j < |s| && s[j] < |cbs| ==> due < cbs[s[j]].due
      {
        assert s[at - 1] in ctls[k].events;
        assert Waits(cbs, k, s[at - 1]);
        assert cbs[s[at - 1]].common == k;
        if due >= cbs[s[at - 1]].due {
          return;
        }
        at := at - 1;
      }
    }

    /** event_queue_insert_timeout */
    method InsertTimeout(x: nat) returns (ghost at: nat)
      requires Basic() && x < |cbs| && !cbs[x].timeout && cbs[x].init && !cbs[x].finalizing
      modifies this`cbs, this`heap, this`ctls, this`count
      ensures Basic() && cbs == old(cbs)[x := old(cbs)[x].(timeout := true)]
      ensures var k := cbs[x].common;
        if k == -1 then heap == old(heap) + {x} && ctls == old(ctls)
        else
          && heap == old(heap) && 0 <= k < |old(ctls)| && Place(old(cbs), old(ctls)[k].events, cbs[x].due, at)
          && ctls == old(ctls)[k :=
            old(ctls)[k].(events := old(ctls)[k].events[..at] + [x] + old(ctls)[k].events[at..])]
      ensures count == old(count) + if cbs[x].internal_ then 0 else 1
    {
      at := 0;
      if cbs[x].common == -1 {
        PutIntoHeap(x);
      } else {
        at := PutIntoList(x);
      }
      if !cbs[x].internal_ {
        count := count + 1;
      }
      cbs := cbs[x := cbs[x].(timeout := true)];
    }

    /** min_heap_push_; x is not yet marked as waiting. */
    method PutIntoHeap(x: nat)
      requires Basic() && x < |cbs| && !cbs[x].timeout && cbs[x].init && !cbs[x].finalizing && cbs[x].common == -1
      modifies this`heap
      ensures heap == old(heap) + {x}
      ensures var c := cbs[x].(timeout := true);
        BaseOk(cbs[x := c], queues, later, heap, ctls, Recount(count, cbs, x, c), countActive)
    {
      StepHeapPush(cbs, queues, later, heap, ctls, count, countActive, x, cbs[x].(timeout := true));
      heap := heap + {x};
    }

    /** insert_common_timeout_inorder; x is not yet marked as waiting. */
    method PutIntoList(x: nat) returns (ghost at: nat)
      requires Basic() && x < |cbs| && !cbs[x].timeout && cbs[x].init && !cbs[x].finalizing && cbs[x].common != -1
      modifies this`ctls
      ensures var c := cbs[x].(timeout := true);
        BaseOk(cbs[x := c], queues, later, heap, ctls, Recount(count, cbs, x, c), countActive)
      ensures var k := cbs[x].common;
        && 0 <= k < |old(ctls)| && Place(cbs, old(ctls)[k].events, cbs[x].due, at)
        && ctls == old(ctls)[k := old(ctls)[k].(events := old(ctls)[k].events[..at] + [x] + old(ctls)[k].events[at..])]
    {
      var k := cbs[x].common;
      var place := FindPlace(k, cbs[x].due);
      at := place;
      var es := ctls[k].events[..place] + [x] + ctls[k].events[place..];
      var ds := ctls[k := ctls[k].(events := es)];
      StepCtlPush(cbs, queues, later, heap, ctls, count, countActive, x, cbs[x].(timeout := true), k, place, es, ds);
      ctls := ds;
    }

    /** The lists without x. */
    static ghost predicate Left(ds: seq<Ctl>, x: nat, ms: seq<Ctl>) {
      |ms| == |ds| && forall k :: 0 <= k < |ds| ==> ms[k] == ds[k].(events := Without(ds[k].events, x))
    }

    static ghost predicate QueuesLeft(qs: seq<seq<nat>>, x: nat, rs: seq<seq<nat>>) {
      |rs| == |qs| && forall p :: 0 <= p < |qs| ==> rs[p] == Without(qs[p], x)
    }

    /** A pending timeout of x is forgotten. */
    method DropTimer(x: nat)
      requires Basic() && x < |cbs|
      modifies this`cbs, this`heap, this`ctls, this`count
      ensures Basic() && cbs == old(cbs)[x := old(cbs)[x].(timeout := false)]
      ensures Left(old(ctls), x, ctls) && heap == old(heap) - {x}
    {
      AbsentLists(x);
      NotInHeap(x);
      if cbs[x].timeout {
        RemoveTimeout(x);
      }
    }

    /** x leaves the active queues and the later queue. */
    method DropQueued(x: nat)
      requires Basic() && x < |cbs|
      modifies this`cbs, this`queues, this`later, this`count, this`countActive
      ensures Basic() && cbs == old(cbs)[x := old(cbs)[x].(active := false, later := false)]
      ensures QueuesLeft(old(queues), x, queues) && later == Without(old(later), x)
    {
      AbsentLists(x);
      if cbs[x].active {
        RemoveActive(x);
      } else if cbs[x].later {
        RemoveLater(x);
      }
    }

    /** The part of event_del_nolock_ that takes x off every list. */
    method Unlist(x: nat)
      requires Basic() && x < |cbs|
      modifies this`cbs, this`queues, this`later, this`heap, this`ctls, this`count, this`countActive
      ensures Basic() && cbs == old(cbs)[x := Unlisted(old(cbs)[x])]
      ensures QueuesLeft(old(queues), x, queues) && later == Without(old(later), x)
      ensures Left(old(ctls), x, ctls) && heap == old(heap) - {x}
    {
      ghost var cs := cbs;
      DropTimer(x);
      ghost var c := cbs[x];
      DropQueued(x);
      UpdateTwice(cs, x, c, cbs[x]);
      c := cbs[x];
      if cbs[x].inserted {
        SetInserted(x, false);
        UpdateTwice(cs, x, c, cbs[x]);
      }
    }

    static function Unlisted(c: Cb): (d: Cb)
      ensures !d.timeout && !d.active && !d.later && !d.inserted
    {
      c.(timeout := false, active := false, later := false, inserted := false)
    }

    /** A callback is only on the lists its flags say. */
    lemma AbsentLists(x: nat)
      requires Basic() && x < |cbs|
      ensures forall p :: 0 <= p < |queues| && !(cbs[x].active && cbs[x].pri == p) ==>
        Without(queues[p], x) == queues[p]
      ensures !cbs[x].later ==> Without(later, x) == later
      ensures forall k :: 0 <= k < |ctls| && !(cbs[x].timeout && cbs[x].common == k) ==>
        Without(ctls[k].events, x) == ctls[k].events
    {
      forall p | 0 <= p < |queues| && !(cbs[x].active && cbs[x].pri == p)
        ensures Without(queues[p], x) == queues[p]
      {
        assert !InQueue(cbs, p, x);
        WithoutAbsent(queues[p], x);
      }
      if !cbs[x].later {
        assert !IsLater(cbs, x);
        WithoutAbsent(later, x);
      }
      forall k | 0 <= k < |ctls| && !(cbs[x].timeout && cbs[x].common == k)
        ensures Without(ctls[k].events, x) == ctls[k].events
      {
        assert !Waits(cbs, k, x);
        WithoutAbsent(ctls[k].events, x);
      }
    }

    /** The lists stay watched when an event of the user leaves them. */
    static lemma UnlistWatched(cs: seq<Cb>, hp: set<nat>, ds: seq<Ctl>, running: int, x: nat, c: Cb, es: seq<Ctl>)
      requires TimersOk(cs, hp, ds) && AllWatched(cs, ds, running) && x < |cs| && Ours(ds, x) && c.due == cs[x].due
      requires Left(ds, x, es)
      ensures AllWatched(cs[x := c], es, running)
    {
      forall k | 0 <= k < |ds|
        ensures Watched(cs[x := c], es[k], running == k)
      {
        forall y | y in ds[k].events
          ensures y < |cs|
        {
          assert Waits(cs, k, y);
        }
        WatchedDrop(cs, ds, running, x, k);
        var fs := ds[k := es[k]];
        assert fs[k] == es[k];
        assert !StandsFor(ds, x, k);
      }
    }

    /** event_del_nolock_; delOk says how evmap_io_del_ or evmap_signal_del_ ends. */
    method Del(x: nat, evenIfFinalizing: bool, delOk: bool) returns (res: int)
      requires Valid() && x < |cbs| && Ours(ctls, x) && cbs[x].init
      modifies this`cbs, this`queues, this`later, this`heap, this`ctls, this`count, this`countActive
      ensures Valid()
      ensures var gone := evenIfFinalizing || !old(cbs)[x].finalizing;
        && res == (if gone && old(cbs)[x].inserted && !delOk then -1 else 0)
        && cbs == (if gone then old(cbs)[x := Unlisted(old(cbs)[x])] else old(cbs))
        && |queues| == |old(queues)|
        && (forall p :: 0 <= p < |queues| ==>
          queues[p] == if gone then Without(old(queues)[p], x) else old(queues)[p])
        && later == (if gone then Without(old(later), x) else old(later))
        && heap == (if gone then old(heap) - {x} else old(heap))
        && (if gone then Left(old(ctls), x, ctls) else ctls == old(ctls))
    {
      if !evenIfFinalizing && cbs[x].finalizing {
        return 0;
      }
      ghost var cs, hp, ds := cbs, heap, ctls;
      res := if cbs[x].inserted && !delOk then -1 else 0;
      Unlist(x);
      UnlistWatched(cs, hp, ds, running, x, Unlisted(cs[x]), ctls);
    }

    /** The part of event_active_nolock_ that queues x. */
    method Queue(x: nat, timedOut: bool)
      requires Basic() && x < |cbs| && (Ours(ctls, x) || timedOut)
      modifies this`cbs, this`queues, this`later, this`count, this`countActive
      ensures Basic() && cbs == old(cbs)[x := Activated(old(cbs)[x], timedOut)]
      ensures later == if old(cbs)[x].finalizing then old(later) else Without(old(later), x)
      ensures QueuesJoined(old(queues), x, old(cbs)[x], queues)
    {
      if !cbs[x].finalizing {
        QueueLive(x, timedOut);
      }
    }

    method QueueLive(x: nat, timedOut: bool)
      requires Basic() && x < |cbs| && (Ours(ctls, x) || timedOut) && !cbs[x].finalizing
      modifies this`cbs, this`queues, this`later, this`count, this`countActive
      ensures Basic() && cbs == old(cbs)[x := Activated(old(cbs)[x], timedOut)]
      ensures later == Without(old(later), x) && QueuesJoined(old(queues), x, old(cbs)[x], queues)
    {
      AbsentLists(x);
      OnOneQueue(x);
      ghost var cs := cbs;
      SetRes(x, if cbs[x].active || cbs[x].later then cbs[x].timedOut || timedOut else timedOut);
      ghost var c := cbs[x];
      if !cbs[x].active {
        Promote(x);
        UpdateTwice(cs, x, c, cbs[x]);
      }
    }

    lemma OnOneQueue(x: nat)
      requires Basic() && x < |cbs|
      ensures !(cbs[x].active && cbs[x].later)
    {
    }

    /** The queues after event_active_nolock_ of x, which was c. */
    static ghost predicate QueuesJoined(qs: seq<seq<nat>>, x: nat, c: Cb, rs: seq<seq<nat>>) {
      |rs| == |qs| && forall p :: 0 <= p < |qs| ==>
        rs[p] == if !c.finalizing && !c.active && c.pri == p then qs[p] + [x] else qs[p]
    }

    method Promote(x: nat)
      requires Basic() && x < |cbs| && !cbs[x].active && !cbs[x].finalizing && (Ours(ctls, x) || cbs[x].timedOut)
      modifies this`cbs, this`queues, this`later, this`count, this`countActive
      ensures Basic() && cbs == old(cbs)[x := old(cbs)[x].(active := true, later := false)]
      ensures later == Without(old(later), x) && QueuesJoined(old(queues), x, old(cbs)[x], queues)
    {
      AbsentLists(x);
      ghost var cs := cbs;
      if cbs[x].later {
        RemoveLater(x);
      }
      ghost var c := cbs[x];
      InsertActive(x);
      UpdateTwice(cs, x, c, cbs[x]);
    }

    static function Activated(c: Cb, timedOut: bool): Cb {
      if c.finalizing then c
      else c.(active := true, later := false,
        timedOut := if c.active || c.later then c.timedOut || timedOut else timedOut)
    }

    method SetRes(x: nat, timedOut: bool)
      requires Basic() && x < |cbs| && (Ours(ctls, x) || timedOut)
      modifies this`cbs
      ensures Basic() && cbs == old(cbs)[x := old(cbs)[x].(timedOut := timedOut)]
    {
      StepKeep(cbs, queues, later, heap, ctls, count, countActive, x, cbs[x].(timedOut := timedOut));
      cbs := cbs[x := cbs[x].(timedOut := timedOut)];
    }

    /** event_active_nolock_ */
    method Active(x: nat, timedOut: bool)
      requires Valid() && x < |cbs| && Ours(ctls, x)
      modifies this`cbs, this`queues, this`later, this`count, this`countActive
      ensures Valid() && cbs == old(cbs)[x := Activated(old(cbs)[x], timedOut)]
      ensures var c, d := old(cbs)[x], cbs[x];
        if c.finalizing then d == c
        else
          d == c.(active := true, later := false, timedOut := d.timedOut)
          && (d.timedOut <==> timedOut || (c.timedOut && (c.active || c.later)))
      ensures later == if old(cbs)[x].finalizing then old(later) else Without(old(later), x)
      ensures QueuesJoined(old(queues), x, old(cbs)[x], queues)
    {
      WatchedKeep(cbs, ctls, running, x, Activated(cbs[x], timedOut));
      Queue(x, timedOut);
    }

    /** One round of timeout_process: the timer x goes off. */
    method Expire(x: nat)
      requires Valid() && x in heap
      modifies this`cbs, this`queues, this`later, this`heap, this`ctls, this`count, this`countActive
      ensures Valid() && x < |cbs| && !old(cbs)[x].finalizing
        && cbs == old(cbs)[x := Activated(Unlisted(old(cbs)[x]), true)]
      ensures heap == old(heap) - {x} && ctls == old(ctls)
    {
      assert Waits(cbs, -1, x);
      NotListed(x);
      ghost var cs, c := cbs, Unlisted(cbs[x]);
      ExpireWatched(cs, ctls, running, x, Activated(c, true));
      Unlist(x);
      Queue(x, true);
      UpdateTwice(cs, x, c, cbs[x]);
    }

    /** A timer that goes off is active, and what it stands for is still watched. */
    static lemma ExpireWatched(cs: seq<Cb>, ds: seq<Ctl>, running: int, x: nat, c: Cb)
      requires AllWatched(cs, ds, running) && x < |cs| && c.active && c.due == cs[x].due
      ensures AllWatched(cs[x := c], ds, running)
    {
    }

    /** min_heap_top_ */
    method Top() returns (x: nat)
      requires Basic() && heap != {}
      ensures x in heap && x < |cbs| && forall y :: y in heap ==> y < |cbs| && cbs[x].due <= cbs[y].due
    {
      forall y | y in heap
        ensures y < |cbs|
      {
        assert Waits(cbs, -1, y);
      }
      var rest := heap;
      x :| x in rest;
      rest := rest - {x};
      while rest != {}
        invariant x in heap && x !in rest && rest <= heap
        invariant forall y :: y in heap && y !in rest ==> cbs[x].due <= cbs[y].due
        decreases |rest|
      {
        var y :| y in rest;
        if cbs[y].due < cbs[x].due {
          x := y;
        }
        rest := rest - {y};
      }
    }

    /** timeout_process: exactly the timers in the heap whose time has come go off. */
    method TimeoutProcess(now: int)
      requires Valid()
      modifies this`cbs, this`queues, this`later, this`heap, this`ctls, this`count, this`countActive
      ensures Valid() && |cbs| == |old(cbs)| && ctls == old(ctls)
      ensures forall x :: 0 <= x < |cbs| ==>
        cbs[x] == if x in old(heap) && old(cbs)[x].due <= now then Activated(Unlisted(old(cbs)[x]), true)
        else old(cbs)[x]
      ensures forall x :: x in heap <==> x in old(heap) && x < |cbs| && old(cbs)[x].due > now
    {
      while heap != {}
        invariant Valid() && |cbs| == |old(cbs)| && heap <= old(heap) && ctls == old(ctls)
        invariant forall x :: x in old(heap) && x !in heap ==> x < |cbs| && old(cbs)[x].due <= now
        invariant forall x :: 0 <= x < |cbs| ==>
          cbs[x] == if x in old(heap) && x !in heap then Activated(Unlisted(old(cbs)[x]), true) else old(cbs)[x]
        decreases |heap|
      {
        var x := Top();
        if cbs[x].due > now {
          break;
        }
        Expire(x);
      }
      assert forall x :: x in old(heap) ==> Waits(old(cbs), -1, x);
    }

    static function Timed(c: Cb, due: int, common: int, tv: Tv): Cb {
      c.(due := due, common := common, period := tv.usec, periodCommon := tv.common)
    }

    lemma TimedFlags(x: nat, due: int, common: int, period: Tv)
      requires Basic() && x < |cbs| && cbs[x].init && !cbs[x].finalizing
      requires period.IsSet() ==> cbs[x].persist && !cbs[x].signal && period.common == common
      ensures FlagsOk(Timed(cbs[x], due, common, period))
    {
      assert FlagsOk(cbs[x]);
    }

    method SetTime(x: nat, due: int, common: int, period: Tv)
      requires Basic() && x < |cbs| && !cbs[x].timeout && -1 <= common < |ctls|
      requires FlagsOk(Timed(cbs[x], due, common, period)) && (common == -1 || Ours(ctls, x))
      modifies this`cbs
      ensures Basic() && cbs == old(cbs)[x := Timed(old(cbs)[x], due, common, period)]
    {
      StepKeep(cbs, queues, later, heap, ctls, count, countActive, x, Timed(cbs[x], due, common, period));
      cbs := cbs[x := cbs[x].(due := due, common := common, period := period.usec, periodCommon := period.common)];
    }

    /** The lists after x has been put on list k at a place. */
    static ghost function Joined(ms: seq<Ctl>, x: nat, k: int, at: nat): seq<Ctl>
      requires k == -1 || (0 <= k < |ms| && at <= |ms[k].events|)
    {
      if k == -1 then ms else ms[k := ms[k].(events := ms[k].events[..at] + [x] + ms[k].events[at..])]
    }

    static function Started(c: Cb, due: int, common: int, period: Tv): Cb {
      Timed(c, due, common, period).(timeout := true, active := c.active && !c.timedOut)
    }

    /** The timer part of event_add_nolock_ up to event_queue_insert_timeout. */
    method StartTimer(x: nat, due: int, common: int, period: Tv) returns (ghost ms: seq<Ctl>, ghost at: nat)
      requires Basic() && x < |cbs| && cbs[x].init && !cbs[x].finalizing && -1 <= common < |ctls|
      requires FlagsOk(Timed(cbs[x], due, common, period)) && (common == -1 || Ours(ctls, x))
      modifies this`cbs, this`queues, this`heap, this`ctls, this`count, this`countActive
      ensures Basic() && cbs == old(cbs)[x := Started(old(cbs)[x], due, common, period)]
      ensures Left(old(ctls), x, ms) && (common == -1 || at <= |ms[common].events|) && ctls == Joined(ms, x, common, at)
      ensures heap == if common == -1 then old(heap) + {x} else old(heap) - {x}
    {
      ghost var cs := cbs;
      StopTimer(x);
      ms := ctls;
      OursStay(old(ctls), ms, x);
      ghost var c := cbs[x];
      SetTime(x, due, common, period);
      UpdateTwice(cs, x, c, cbs[x]);
      c := cbs[x];
      at := InsertTimeout(x);
      UpdateTwice(cs, x, c, cbs[x]);
    }

    static lemma OursStay(ds: seq<Ctl>, es: seq<Ctl>, x: nat)
      requires SameReps(ds, es)
      ensures Ours(es, x) == Ours(ds, x)
    {
      assert forall k :: StandsFor(es, x, k) == StandsFor(ds, x, k);
    }

    /** A pending timeout of x is forgotten, and so is one that has gone off and not run. */
    method StopTimer(x: nat)
      requires Basic() && x < |cbs|
      modifies this`cbs, this`queues, this`heap, this`ctls, this`count, this`countActive
      ensures Basic()
        && cbs == old(cbs)[x := old(cbs)[x].(timeout := false, active := old(cbs)[x].active && !old(cbs)[x].timedOut)]
      ensures Left(old(ctls), x, ctls) && heap == old(heap) - {x}
    {
      ghost var cs := cbs;
      DropTimer(x);
      ghost var c := cbs[x];
      if cbs[x].active && cbs[x].timedOut {
        RemoveActive(x);
        UpdateTwice(cs, x, c, cbs[x]);
      }
    }

    lemma NotInHeap(x: nat)
      requires Basic() && x < |cbs|
      ensures !cbs[x].timeout || cbs[x].common != -1 ==> x !in heap
    {
      assert Waits(cbs, -1, x) <==> x in heap;
    }

    /** Only the list that x has become the head of may be left without its timer. */
    static lemma StartWatched(cs: seq<Cb>, hp: set<nat>, ds: seq<Ctl>, running: int, x: nat, c: Cb, ms: seq<Ctl>,
        common: int, at: nat, k: nat)
      requires TimersOk(cs, hp, ds) && AllWatched(cs, ds, running) && x < |cs| && Ours(ds, x)
      requires Left(ds, x, ms) && (common == -1 || (0 <= common < |ms| && at <= |ms[common].events|)) && k < |ds|
      requires x in ds[k].events ==> NoDup(ds[k].events)
      ensures var es := Joined(ms, x, common, at);
        && |es| == |ds| && es[k].rep < |cs| && (k == common ==> es[k].events != [])
        && (k == common && at == 0) == (k == common && es[k].events[0] == x)
        && ((k == common && at == 0) || Watched(cs[x := c], es[k], running == k))
    {
      UnlistWatched(cs, hp, ds, running, x, cs[x], ms);
      assert cs[x := cs[x]] == cs;
      assert !StandsFor(ds, x, k);
      GoneFrom(ds[k].events, x);
    }

    static lemma GoneFrom(s: seq<nat>, x: nat)
      requires x in s ==> NoDup(s)
      ensures x !in Without(s, x)
    {
    }

    /** Every list but k is looked after. */
    static ghost predicate OthersWatched(cs: seq<Cb>, ds: seq<Ctl>, running: int, k: nat) {
      forall j :: 0 <= j < |ds| && j != k ==> ds[j].rep < |cs| && Watched(cs, ds[j], running == j)
    }

    /** Once x has been put on a list, only that list can be without its timer, and only if x is its head. */
    static lemma AllStartWatched(cs: seq<Cb>, hp: set<nat>, ds: seq<Ctl>, running: int, x: nat, c: Cb, ms: seq<Ctl>,
        common: int, at: nat, es: seq<Ctl>)
      requires TimersOk(cs, hp, ds) && AllWatched(cs, ds, running) && x < |cs| && Ours(ds, x)
      requires Left(ds, x, ms) && (common == -1 || (0 <= common < |ms| && at <= |ms[common].events|))
        && es == Joined(ms, x, common, at)
      ensures SameReps(ds, es) && (common != -1 ==> es[common].events != [])
      ensures if common == -1 || es[common].events[0] != x then AllWatched(cs[x := c], es, running)
        else OthersWatched(cs[x := c], es, running, common)
    {
      forall k | 0 <= k < |ds|
        ensures es[k].rep == ds[k].rep && es[k].rep < |cs| && (k == common ==> es[k].events != [])
        ensures (k == common && es[k].events[0] == x) || Watched(cs[x := c], es[k], running == k)
      {
        StartWatched(cs, hp, ds, running, x, c, ms, common, at, k);
      }
    }

    /** The event that stands for list k, set to the first timeout in it, watches the list. */
    static lemma ScheduledWatched(cs: seq<Cb>, hp: set<nat>, ds: seq<Ctl>, running: int, k: nat, x: nat, c: Cb)
      requires TimersOk(cs, hp, ds) && RepsDistinct(cs, ds) && k < |ds| && ds[k].events != [] && x == ds[k].rep
      requires OthersWatched(cs, ds, running, k)
      requires c.timeout && ds[k].events[0] < |cs| && c.due == cs[ds[k].events[0]].due
      ensures AllWatched(cs[x := c], ds, running)
    {
      forall j | 0 <= j < |ds|
        ensures ds[j].rep < |cs| && Watched(cs[x := c], ds[j], running == j)
      {
        if ds[j].events != [] {
          var h := ds[j].events[0];
          assert h in ds[j].events;
          assert Waits(cs, j, h);
          assert h != x;
        }
      }
    }

    lemma NotListed(x: nat)
      requires Basic() && x < |cbs| && cbs[x].common == -1
      ensures forall ms :: Left(ctls, x, ms) ==> ms == ctls
    {
      AbsentLists(x);
      forall ms | Left(ctls, x, ms)
        ensures ms == ctls
      {
      }
    }

    /** common_timeout_schedule */
    method Schedule(k: nat)
      requires Basic() && k < |ctls| && ctls[k].events != []
      requires OthersWatched(cbs, ctls, running, k)
      modifies this`cbs, this`queues, this`heap, this`ctls, this`count, this`countActive
      ensures Valid() && ctls == old(ctls)
      ensures var r := ctls[k].rep;
        && r < |cbs| && old(ctls[k].events[0]) < |old(cbs)|
        && cbs == old(cbs)[r := Started(old(cbs)[r], old(cbs)[old(ctls[k].events[0])].due, -1, Tv(0, -1))]
    {
      var r, h := ctls[k].rep, ctls[k].events[0];
      assert Waits(cbs, k, h);
      NotListed(r);
      ghost var cs, hp, ds := cbs, heap, ctls;
      ghost var ms, at := StartTimer(r, cbs[h].due, -1, Tv(0, -1));
      ScheduledWatched(cs, hp, ds, running, k, r, cbs[r]);
    }

    /** event_add_nolock_ has evmap_io_add_ called, or evmap_signal_add_. */
    static predicate NeedsIo(c: Cb) {
      c.io && !c.inserted && !c.active && !c.later
    }

    static function WithIo(c: Cb, ioOk: bool): Cb {
      if NeedsIo(c) then c.(inserted := ioOk) else c
    }

    /** What event_add_nolock_ leaves in x. */
    static function Added(c: Cb, ioOk: bool, tv: Option<Tv>, absolute: bool, now: int): Cb {
      if c.finalizing then c
      else if (NeedsIo(c) && !ioOk) || tv.None? then WithIo(c, ioOk)
      else Started(WithIo(c, ioOk),
        if absolute then tv.value.usec else now + tv.value.usec, tv.value.common, Period(c, tv.value, absolute))
    }

    /** Nothing but x and the events that stand for common timeouts has changed. */
    static ghost predicate OthersSame(cs: seq<Cb>, es: seq<Cb>, x: nat, ds: seq<Ctl>) {
      |es| == |cs| && forall y :: 0 <= y < |cs| && y != x && Ours(ds, y) ==> es[y] == cs[y]
    }

    /** event_add_nolock_ of an event of the user; ioOk says how evmap_io_add_ ends. */
    method Add(x: nat, tv: Option<Tv>, absolute: bool, now: int, ioOk: bool) returns (res: int)
      requires Valid() && x < |cbs| && Ours(ctls, x) && cbs[x].init
      requires tv.Some? ==> -1 <= tv.value.common < |ctls|
      requires tv.Some? && absolute && cbs[x].Periodic() ==> tv.value.common == cbs[x].periodCommon
      modifies this`cbs, this`queues, this`heap, this`ctls, this`count, this`countActive
      ensures Valid() && SameReps(old(ctls), ctls) && |cbs| == |old(cbs)|
      ensures var c := old(cbs)[x];
        && res == (if c.finalizing || (c.io && !c.inserted && !c.active && !c.later && !ioOk) then -1 else 0)
        && cbs[x] == Added(c, ioOk, tv, absolute, now)
      ensures AddDone(old(cbs)[x], cbs[x], tv, absolute, now, res)
      ensures OthersSame(old(cbs), cbs, x, old(ctls))
      ensures tv.None? || tv.value.common == -1 ==> cbs == old(cbs)[x := cbs[x]]
    {
      if cbs[x].finalizing {
        return -1;
      }
      ghost var c := cbs[x];
      res := AddLive(x, tv, absolute, now, ioOk);
      AddedFields(c, cbs[x], ioOk, tv, absolute, now, res);
    }

    /** The same when it is not being finalized. */
    method AddLive(x: nat, tv: Option<Tv>, absolute: bool, now: int, ioOk: bool) returns (res: int)
      requires Valid() && x < |cbs| && Ours(ctls, x) && cbs[x].init && !cbs[x].finalizing
      requires tv.Some? ==> -1 <= tv.value.common < |ctls|
      requires tv.Some? && absolute && cbs[x].Periodic() ==> tv.value.common == cbs[x].periodCommon
      modifies this`cbs, this`queues, this`heap, this`ctls, this`count, this`countActive
      ensures Valid() && SameReps(old(ctls), ctls) && |cbs| == |old(cbs)|
      ensures res == (if NeedsIo(old(cbs)[x]) && !ioOk then -1 else 0)
      ensures cbs[x] == Added(old(cbs)[x], ioOk, tv, absolute, now)
      ensures OthersSame(old(cbs), cbs, x, old(ctls))
      ensures tv.None? || tv.value.common == -1 ==> cbs == old(cbs)[x := cbs[x]]
    {
      ghost var cs := cbs;
      PeriodIs(x, tv, absolute, WithIo(cbs[x], ioOk));
      res := AddIo(x, ioOk);
      if res != -1 {
        AddTimeout(x, tv, absolute, now, cs);
      }
      AddedIs(cs[x], ioOk, tv, absolute, now);
    }

    /** What an add does to an event, field by field. */
    static predicate AddDone(c: Cb, d: Cb, tv: Option<Tv>, absolute: bool, now: int, res: int) {
      && (if res == 0 && tv.Some? then WaitsNow(c, d, tv.value, absolute, now) else SameTimes(c, d))
      && d.inserted == (c.inserted || (res == 0 && c.io && !c.active && !c.later))
      && d.init == c.init && d.internal_ == c.internal_ && d.finalizing == c.finalizing && d.later == c.later
      && d.pri == c.pri && d.io == c.io && d.signal == c.signal && d.persist == c.persist && d.timedOut == c.timedOut
    }

    /** The event waits for its new timeout, and no longer runs because of the last one. A
        persistent event that is not a signal keeps a relative timeout as its period. */
    static predicate WaitsNow(c: Cb, d: Cb, tv: Tv, absolute: bool, now: int) {
      && d.timeout && d.common == tv.common && d.due == (if absolute then 0 else now) + tv.usec
      && d.active == (c.active && !c.timedOut)
      && (if c.persist && !c.signal && !absolute then d.period == tv.usec && d.periodCommon == tv.common
          else d.period == c.period && d.periodCommon == c.periodCommon)
    }

    static predicate SameTimes(c: Cb, d: Cb) {
      && d.timeout == c.timeout && d.common == c.common && d.due == c.due && d.active == c.active
      && d.period == c.period && d.periodCommon == c.periodCommon
    }

    static lemma AddedFields(c: Cb, d: Cb, ioOk: bool, tv: Option<Tv>, absolute: bool, now: int, res: int)
      requires d == Added(c, ioOk, tv, absolute, now) && !c.finalizing && res == if NeedsIo(c) && !ioOk then -1 else 0
      ensures AddDone(c, d, tv, absolute, now, res)
    {
    }

    static function WithTimeout(c: Cb, tv: Option<Tv>, absolute: bool, now: int): Cb {
      if tv.None? then c
      else Started(c,
        if absolute then tv.value.usec else now + tv.value.usec, tv.value.common, Period(c, tv.value, absolute))
    }

    static lemma AddedIs(c: Cb, ioOk: bool, tv: Option<Tv>, absolute: bool, now: int)
      requires !c.finalizing
      ensures Added(c, ioOk, tv, absolute, now) ==
        if NeedsIo(c) && !ioOk then WithIo(c, ioOk) else WithTimeout(WithIo(c, ioOk), tv, absolute, now)
    {
    }

    method AddTimeout(x: nat, tv: Option<Tv>, absolute: bool, now: int, ghost cs: seq<Cb>)
      requires Valid() && x < |cbs| && Ours(ctls, x) && cbs[x].init && !cbs[x].finalizing
      requires tv.Some? ==> -1 <= tv.value.common < |ctls|
      requires tv.Some? ==> var p := Period(cbs[x], tv.value, absolute);
        p.IsSet() ==> cbs[x].persist && !cbs[x].signal && p.common == tv.value.common
      requires |cs| == |cbs| && cbs == cs[x := cbs[x]]
      modifies this`cbs, this`queues, this`heap, this`ctls, this`count, this`countActive
      ensures Valid() && SameReps(old(ctls), ctls) && |cbs| == |old(cbs)|
      ensures cbs[x] == WithTimeout(old(cbs)[x], tv, absolute, now)
      ensures OthersSame(cs, cbs, x, old(ctls))
      ensures tv.None? || tv.value.common == -1 ==> cbs == old(cbs)[x := cbs[x]]
    {
      if tv.Some? {
        AddDue(x, tv.value, absolute, now, cs);
      }
    }

    /** The rest of event_add_nolock_, when there is a timeout. */
    method AddDue(x: nat, tv: Tv, absolute: bool, now: int, ghost cs: seq<Cb>)
      requires Valid() && x < |cbs| && Ours(ctls, x) && cbs[x].init && !cbs[x].finalizing && -1 <= tv.common < |ctls|
      requires var p := Period(cbs[x], tv, absolute);
        p.IsSet() ==> cbs[x].persist && !cbs[x].signal && p.common == tv.common
      requires |cs| == |cbs| && cbs == cs[x := cbs[x]]
      modifies this`cbs, this`queues, this`heap, this`ctls, this`count, this`countActive
      ensures Valid() && SameReps(old(ctls), ctls) && |cbs| == |old(cbs)|
      ensures cbs[x] == Started(
        old(cbs)[x], if absolute then tv.usec else now + tv.usec, tv.common, Period(old(cbs)[x], tv, absolute))
      ensures OthersSame(cs, cbs, x, old(ctls))
      ensures tv.common == -1 ==> cbs == old(cbs)[x := cbs[x]]
    {
      ghost var mid, ds := cbs, ctls;
      var due := if absolute then tv.usec else now + tv.usec;
      AddTimer(x, due, tv.common, Period(cbs[x], tv, absolute));
      OthersTwice(cs, mid, cbs, x, ds, ds);
    }

    /** ev_io_timeout after an add: only the closure of a persistent event takes over the timeout. */
    static function Period(c: Cb, tv: Tv, absolute: bool): Tv {
      if c.persist && !c.signal && !absolute then tv else Tv(c.period, c.periodCommon)
    }

    lemma PeriodIs(x: nat, tv: Option<Tv>, absolute: bool, d: Cb)
      requires Basic() && x < |cbs| && (d == cbs[x] || d == cbs[x].(inserted := d.inserted))
      requires tv.Some? && absolute && cbs[x].Periodic() ==> tv.value.common == cbs[x].periodCommon
      ensures tv.Some? ==> var p := Period(cbs[x], tv.value, absolute);
        p == Period(d, tv.value, absolute) && (p.IsSet() ==> d.persist && !d.signal && p.common == tv.value.common)
    {
      assert FlagsOk(cbs[x]);
    }

    /** The part of event_add_nolock_ that is about descriptors and signals. */
    method AddIo(x: nat, ioOk: bool) returns (res: int)
      requires Valid() && x < |cbs| && Ours(ctls, x) && cbs[x].init && !cbs[x].finalizing
      modifies this`cbs, this`count
      ensures Valid()
      ensures res == if NeedsIo(old(cbs)[x]) && !ioOk then -1 else 0
      ensures cbs == old(cbs)[x := WithIo(old(cbs)[x], ioOk)]
      ensures OthersSame(old(cbs), cbs, x, ctls)
    {
      res := 0;
      if cbs[x].io && !(cbs[x].inserted || cbs[x].active || cbs[x].later) {
        if !ioOk {
          return -1;
        }
        WatchedKeep(cbs, ctls, running, x, cbs[x].(inserted := true));
        SetInserted(x, true);
      }
    }

    /** The timer part of event_add_nolock_. */
    method AddTimer(x: nat, due: int, common: int, period: Tv)
      requires Valid() && x < |cbs| && Ours(ctls, x) && cbs[x].init && !cbs[x].finalizing && -1 <= common < |ctls|
      requires period.IsSet() ==> cbs[x].persist && !cbs[x].signal && period.common == common
      modifies this`cbs, this`queues, this`heap, this`ctls, this`count, this`countActive
      ensures Valid() && SameReps(old(ctls), ctls) && |cbs| == |old(cbs)|
      ensures cbs[x] == Started(old(cbs)[x], due, common, period)
      ensures OthersSame(old(cbs), cbs, x, old(ctls))
      ensures common == -1 ==> cbs == old(cbs)[x := cbs[x]]
    {
      ghost var cs, hp, ds := cbs, heap, ctls;
      TimedFlags(x, due, common, period);
      ghost var ms, at := StartTimer(x, due, common, period);
      AllStartWatched(cs, hp, ds, running, x, cbs[x], ms, common, at, ctls);
      OursStay(ds, ctls, x);
      ghost var es := cbs;
      Rewatch(x, common);
      OthersTwice(cs, es, cbs, x, ds, ctls);
    }

    static lemma OthersTwice(cs: seq<Cb>, es: seq<Cb>, fs: seq<Cb>, x: nat, ds: seq<Ctl>, gs: seq<Ctl>)
      requires x < |cs| == |es| && es == cs[x := es[x]] && SameReps(ds, gs) && OthersSame(es, fs, x, gs)
      ensures OthersSame(cs, fs, x, ds)
    {
      forall y | 0 <= y < |cs| && y != x && Ours(ds, y)
        ensures fs[y] == cs[y]
      {
        OursStay(ds, gs, y);
      }
    }

    /** Sets the timer of list common when x has become the head of it. */
    method Rewatch(x: nat, common: int)
      requires Basic() && x < |cbs| && Ours(ctls, x) && -1 <= common < |ctls|
      requires common != -1 ==> ctls[common].events != []
      requires if common == -1 || ctls[common].events[0] != x then AllWatched(cbs, ctls, running)
        else OthersWatched(cbs, ctls, running, common)
      modifies this`cbs, this`queues, this`heap, this`ctls, this`count, this`countActive
      ensures Valid() && ctls == old(ctls) && |cbs| == |old(cbs)| && cbs[x] == old(cbs)[x]
      ensures OthersSame(old(cbs), cbs, x, ctls) && (common == -1 ==> cbs == old(cbs))
    {
      if common != -1 && x == ctls[common].events[0] {
        assert !StandsFor(ctls, x, common);
        Schedule(common);
        assert StandsFor(ctls, ctls[common].rep, common);
      }
    }

    /** common_timeout_callback: exactly the timeouts of the list whose time has come go off,
        and what is left is watched again. */
    method CommonCallback(now: int)
      requires Valid() && 0 <= running < |ctls|
      modifies this
      ensures Valid() && running == -1 && SameReps(old(ctls), ctls) && |cbs| == |old(cbs)|
      ensures var k := old(running);
        && (forall y :: y in ctls[k].events <==> y in old(ctls)[k].events && y < |cbs| && old(cbs)[y].due > now)
        && (forall y :: 0 <= y < |cbs| && y != ctls[k].rep ==>
          cbs[y] == if y in old(ctls)[k].events && old(cbs)[y].due <= now then Activated(Unlisted(old(cbs)[y]), true)
            else old(cbs)[y])
    {
      var k := running;
      ghost var es, cs := ctls[k].events, cbs;
      ghost var i := PopDue(k, now, es);
      RestIsLater(k, es, i, cs, now);
      Finish(k);
    }

    /** The loop of common_timeout_callback. */
    method PopDue(k: nat, now: int, ghost es: seq<nat>) returns (ghost i: nat)
      requires Valid() && running == k < |ctls| && es == ctls[k].events
      modifies this`cbs, this`queues, this`later, this`heap, this`ctls, this`count, this`countActive
      ensures Valid() && SameReps(old(ctls), ctls)
      ensures i <= |es| && ctls[k].events == es[i..] && GoneOff(old(cbs), cbs, es[..i], now)
      ensures ctls[k].events != [] ==> cbs[First(k)].due > now
    {
      i := 0;
      assert es[..0] == [];
      while ctls[k].events != [] && cbs[First(k)].due <= now
        invariant Valid() && SameReps(old(ctls), ctls)
        invariant i <= |es| && ctls[k].events == es[i..] && GoneOff(old(cbs), cbs, es[..i], now)
        decreases |ctls[k].events|
      {
        ghost var ds, j := cbs, i + 1;
        assert NoDup(es) by {
          assert NoDup(old(ctls)[k].events);
        }
        ExpireFirst(k);
        GoneOffStep(old(cbs), ds, cbs, es, i, j, now);
        i := j;
      }
    }

    /** The callbacks in done were due and have gone off, and nothing else has changed. */
    static ghost predicate GoneOff(cs: seq<Cb>, es: seq<Cb>, done: seq<nat>, now: int) {
      && |es| == |cs| && (forall y :: y in done ==> y < |cs| && cs[y].due <= now)
      && (forall y :: 0 <= y < |cs| ==> es[y] == if y in done then Activated(Unlisted(cs[y]), true) else cs[y])
    }

    static lemma GoneOffStep(cs: seq<Cb>, ds: seq<Cb>, fs: seq<Cb>, es: seq<nat>, i: nat, j: nat, now: int)
      requires i < |es| && j == i + 1 && NoDup(es) && GoneOff(cs, ds, es[..i], now)
      requires es[i] < |ds| && ds[es[i]].due <= now && fs == ds[es[i] := Activated(Unlisted(ds[es[i]]), true)]
      ensures GoneOff(cs, fs, es[..j], now)
    {
      assert es[..j] == es[..i] + [es[i]];
      NoDupAt(es, i);
    }

    /** The first timeout of list k goes off. */
    method ExpireFirst(k: nat)
      requires Valid() && k < |ctls| && ctls[k].events != []
      modifies this`cbs, this`queues, this`later, this`heap, this`ctls, this`count, this`countActive
      ensures Valid() && SameReps(old(ctls), ctls) && ctls[k].events == old(ctls)[k].events[1..]
      ensures var h := old(First(k)); cbs == old(cbs)[h := Activated(Unlisted(old(cbs)[h]), true)]
    {
      var h := First(k);
      OursIfListed(k, h);
      WithoutHead(ctls[k].events);
      ghost var ds := ctls;
      var r := Del(h, false, true);
      OursStay(ds, ctls, h);
      Active(h, true);
    }

    /** The end of common_timeout_callback. */
    method Finish(k: nat)
      requires Valid() && running == k < |ctls|
      modifies this`cbs, this`queues, this`heap, this`ctls, this`count, this`countActive, this`running
      ensures Valid() && running == -1 && ctls == old(ctls) && |cbs| == |old(cbs)|
      ensures forall y :: 0 <= y < |cbs| && y != ctls[k].rep ==> cbs[y] == old(cbs)[y]
    {
      if ctls[k].events != [] {
        assert Waits(cbs, k, ctls[k].events[0]);
        Schedule(k);
      }
      running := -1;
    }

    /** TAILQ_FIRST of list k */
    function First(k: nat): (h: nat)
      requires TimersOk(cbs, heap, ctls) && k < |ctls| && ctls[k].events != []
      reads this
      ensures h == ctls[k].events[0] && h < |cbs| && cbs[h].timeout && cbs[h].common == k
    {
      assert Waits(cbs, k, ctls[k].events[0]);
      ctls[k].events[0]
    }

    lemma OursIfListed(k: nat, h: nat)
      requires Basic() && k < |ctls| && h in ctls[k].events
      ensures h < |cbs| && Ours(ctls, h) && cbs[h].init && !cbs[h].finalizing
    {
      assert Waits(cbs, k, h);
    }

    static lemma WithoutHead(s: seq<nat>)
      requires s != []
      ensures Without(s, s[0]) == s[1..]
    {
    }

    lemma RestIsLater(k: nat, es: seq<nat>, i: nat, cs: seq<Cb>, now: int)
      requires Basic() && k < |ctls| && i <= |es| && ctls[k].events == es[i..]
      requires GoneOff(cs, cbs, es[..i], now)
      requires ctls[k].events != [] ==> cbs[First(k)].due > now
      ensures forall y :: y in ctls[k].events <==> y in es && y < |cs| && cs[y].due > now
      ensures forall y :: y in es[..i] <==> y in es && y < |cs| && cs[y].due <= now
    {
    }

    /** Which common timeout x stands for; -1 for none. */
    method WhichList(x: nat) returns (k: int)
      requires RepsDistinct(cbs, ctls)
      ensures k == -1 ==> Ours(ctls, x)
      ensures k != -1 ==> StandsFor(ctls, x, k)
    {
      k := 0;
      while k < |ctls|
        invariant 0 <= k <= |ctls| && forall j :: StandsFor(ctls, x, j) ==> j >= k
      {
        if ctls[k].rep == x {
          return;
        }
        k := k + 1;
      }
      k := -1;
    }

    /** The start of a round of event_process_active_single_queue: takes the first callback
        off queue p. Whether it counts says if it belongs to the user. */
    method Process(p: nat) returns (x: nat, counts: bool)
      requires Valid() && running == -1 && p < |queues| && queues[p] != []
      modifies this
      ensures Valid() && SameReps(old(ctls), ctls) && x == old(queues[p][0]) && x < |old(cbs)|
      ensures cbs == old(cbs)[x := Dequeued(old(cbs)[x])]
      ensures var c, d := old(cbs)[x], cbs[x];
        if c.init && !c.persist && !c.finalizing then
          d == c.(active := false, inserted := false, timeout := false, later := false)
        else d == c.(active := false)
      ensures |queues| == |old(queues)|
        && forall q :: 0 <= q < |queues| ==> queues[q] == if q == p then old(queues)[p][1..] else old(queues)[q]
      ensures counts <==> !cbs[x].internal_
      ensures if Ours(ctls, x) then running == -1 else StandsFor(ctls, x, running)
    {
      x := queues[p][0];
      assert InQueue(cbs, p, x);
      AbsentLists(x);
      WithoutHead(queues[p]);
      var k := WhichList(x);
      if k == -1 {
        ghost var ds := ctls;
        ProcessOurs(x);
        OursStay(ds, ctls, x);
      } else {
        NotListed(x);
        ghost var cs, hp, ds := cbs, heap, ctls;
        Unlist(x);
        assert Left(ds, x, ctls);
        RunningWatched(cs, hp, ds, k, x, cbs[x]);
        running := k;
      }
      counts := !cbs[x].internal_;
    }

    /** What taking a callback off its active queue to run it makes of it. */
    static function Dequeued(c: Cb): Cb {
      if c.init && !c.persist && !c.finalizing then Unlisted(c) else c.(active := false)
    }

    method ProcessOurs(x: nat)
      requires Valid() && x < |cbs| && cbs[x].active && Ours(ctls, x)
      modifies this`cbs, this`queues, this`later, this`heap, this`ctls, this`count, this`countActive
      ensures Valid() && SameReps(old(ctls), ctls)
      ensures cbs == old(cbs)[x := Dequeued(old(cbs)[x])]
      ensures QueuesLeft(old(queues), x, queues)
    {
      if cbs[x].init && !(cbs[x].persist || cbs[x].finalizing) {
        var r := Del(x, false, true);
      } else {
        DropActive(x);
      }
    }

    method DropActive(x: nat)
      requires Valid() && x < |cbs| && cbs[x].active && Ours(ctls, x)
      modifies this`cbs, this`queues, this`count, this`countActive
      ensures Valid() && cbs == old(cbs)[x := old(cbs)[x].(active := false)]
      ensures QueuesLeft(old(queues), x, queues)
    {
      AbsentLists(x);
      WatchedKeep(cbs, ctls, running, x, cbs[x].(active := false));
      RemoveActive(x);
    }

    /** While its callback runs, a list is watched by it. */
    static lemma RunningWatched(cs: seq<Cb>, hp: set<nat>, ds: seq<Ctl>, k: nat, x: nat, c: Cb)
      requires TimersOk(cs, hp, ds) && RepsDistinct(cs, ds) && StandsFor(ds, x, k) && AllWatched(cs, ds, -1)
        && c.due == cs[x].due
      ensures AllWatched(cs[x := c], ds, k)
    {
    }

    /** event_persist_closure: a periodic event is set to its next time, which is counted from
        the last one unless that has been missed. */
    method PersistClosure(x: nat, now: int, ioOk: bool) returns (res: int)
      requires Valid() && x < |cbs| && Ours(ctls, x) && cbs[x].init && cbs[x].persist && !cbs[x].signal
      modifies this`cbs, this`queues, this`heap, this`ctls, this`count, this`countActive
      ensures Valid() && SameReps(old(ctls), ctls) && |cbs| == |old(cbs)|
      ensures OthersSame(old(cbs), cbs, x, old(ctls))
      ensures old(cbs)[x].Periodic() && res == 0 ==> Repeats(old(cbs)[x], cbs[x], now)
      ensures old(cbs)[x].Periodic() ==> res == -1 || res == 0
      ensures old(cbs)[x].Periodic() && res == -1 ==>
        (old(cbs)[x].finalizing || (NeedsIo(old(cbs)[x]) && !ioOk)) && cbs[x] == old(cbs)[x]
      ensures !old(cbs)[x].Periodic() ==> res == 0 && cbs == old(cbs)
    {
      res := 0;
      var c := cbs[x];
      if c.Periodic() {
        // The source asserts that ev_timeout and ev_io_timeout are of the same kind.
        assert FlagsOk(c) && c.common == c.periodCommon;
        var runAt := (if c.timedOut then c.due else now) + c.period;
        if runAt < now {
          runAt := now + c.period;
        }
        res := Add(x, Some(Tv(runAt, c.periodCommon)), true, now, ioOk);
        RepeatsIs(c, runAt, ioOk, now);
      }
    }

    /** The event waits again, for the time one period after the last one, or after now if that has passed. */
    static predicate Repeats(c: Cb, d: Cb, now: int) {
      && d.timeout && d.period == c.period && d.periodCommon == c.periodCommon && d.common == c.common
      && d.active == (c.active && !c.timedOut)
      && d.due == var next := (if c.timedOut then c.due else now) + c.period;
         if next < now then now + c.period else next
    }

    static lemma RepeatsIs(c: Cb, runAt: int, ioOk: bool, now: int)
      requires c.Periodic() && FlagsOk(c)
      requires runAt == var next := (if c.timedOut then c.due else now) + c.period;
        if next < now then now + c.period else next
      ensures !c.finalizing && !(NeedsIo(c) && !ioOk) ==>
        Repeats(c, Added(c, ioOk, Some(Tv(runAt, c.periodCommon)), true, now), now)
    {
    }

    /** event_remove_timer_nolock_ */
    method RemoveTimer(x: nat)
      requires Valid() && x < |cbs| && Ours(ctls, x) && cbs[x].init
      modifies this`cbs, this`heap, this`ctls, this`count
      ensures Valid() && SameReps(old(ctls), ctls)
      ensures cbs ==
        if old(cbs)[x].timeout then old(cbs)[x := old(cbs)[x].(timeout := false, period := 0, periodCommon := -1)]
        else old(cbs)
    {
      if cbs[x].timeout {
        ghost var cs, hp, ds := cbs, heap, ctls;
        DropTimer(x);
        UnlistWatched(cs, hp, ds, running, x, cbs[x], ctls);
        OursStay(ds, ctls, x);
        WatchedKeep(cbs, ctls, running, x, cbs[x].(period := 0, periodCommon := -1));
        SetTime(x, cbs[x].due, cbs[x].common, Tv(0, -1));
      }
    }

    /** event_finalize_nolock_ */
    method Finalize(x: nat)
      requires Valid() && x < |cbs| && Ours(ctls, x) && cbs[x].init
      modifies this`cbs, this`queues, this`later, this`heap, this`ctls, this`count, this`countActive
      ensures Valid() && SameReps(old(ctls), ctls)
      ensures cbs == old(cbs)[x :=
        if old(cbs)[x].finalizing then old(cbs)[x]
        else Activated(Unlisted(old(cbs)[x]), false).(finalizing := true)]
    {
      if cbs[x].finalizing {
        // event_del_nolock_ and event_active_nolock_ do nothing then.
        return;
      }
      ghost var cs, ds := cbs, ctls;
      var r := Del(x, false, true);
      OursStay(ds, ctls, x);
      ghost var c := cbs[x];
      Active(x, false);
      UpdateTwice(cs, x, c, cbs[x]);
      c := cbs[x];
      MarkFinalizing(x);
      UpdateTwice(cs, x, c, cbs[x]);
    }

    /** event_callback_finalize_nolock_ */
    method FinalizeCallback(x: nat)
      requires Valid() && x < |cbs| && Ours(ctls, x)
      modifies this`cbs, this`queues, this`later, this`heap, this`ctls, this`count, this`countActive
      ensures Valid() && SameReps(old(ctls), ctls)
      ensures cbs == old(cbs)[x :=
        if old(cbs)[x].finalizing then old(cbs)[x]
        else Unlisted(old(cbs)[x]).(active := true, finalizing := true)]
    {
      if cbs[x].finalizing {
        // Nothing that is called then changes anything.
        return;
      }
      ghost var ds := ctls;
      var r := Cancel(x, false, true);
      OursStay(ds, ctls, x);
      r := Activate(x);
      MarkFinalizing(x);
    }

    method MarkFinalizing(x: nat)
      requires Valid() && x < |cbs| && Ours(ctls, x) && !cbs[x].timeout && !cbs[x].inserted
      modifies this`cbs
      ensures Valid() && cbs == old(cbs)[x := old(cbs)[x].(finalizing := true)]
    {
      StepKeep(cbs, queues, later, heap, ctls, count, countActive, x, cbs[x].(finalizing := true));
      WatchedKeep(cbs, ctls, running, x, cbs[x].(finalizing := true));
      cbs := cbs[x := cbs[x].(finalizing := true)];
    }

    /** event_callback_cancel_nolock_ */
    method Cancel(x: nat, evenIfFinalizing: bool, delOk: bool) returns (res: int)
      requires Valid() && x < |cbs| && Ours(ctls, x)
      modifies this`cbs, this`queues, this`later, this`heap, this`ctls, this`count, this`countActive
      ensures Valid() && SameReps(old(ctls), ctls)
      ensures var gone := evenIfFinalizing || !old(cbs)[x].finalizing;
        && res == (if gone && old(cbs)[x].inserted && !delOk then -1 else 0)
        && cbs == old(cbs)[x := if gone then Unlisted(old(cbs)[x]) else old(cbs)[x]]
    {
      res := 0;
      if cbs[x].finalizing && !evenIfFinalizing {
        return;
      }
      if cbs[x].init {
        res := Del(x, evenIfFinalizing, delOk);
      } else if cbs[x].active {
        WatchedKeep(cbs, ctls, running, x, cbs[x].(active := false));
        RemoveActive(x);
      } else if cbs[x].later {
        WatchedKeep(cbs, ctls, running, x, cbs[x].(later := false));
        RemoveLater(x);
      }
    }

    /** event_callback_activate_nolock_ */
    method Activate(x: nat) returns (r: int)
      requires Valid() && x < |cbs| && Ours(ctls, x)
      modifies this`cbs, this`queues, this`later, this`count, this`countActive
      ensures Valid()
      ensures r == if old(cbs)[x].finalizing || old(cbs)[x].active || old(cbs)[x].later then 0 else 1
      ensures cbs == old(cbs)[x :=
        if old(cbs)[x].finalizing then old(cbs)[x] else old(cbs)[x].(active := true, later := false)]
    {
      if cbs[x].finalizing || cbs[x].active {
        return 0;
      }
      r := if cbs[x].later then 0 else 1;
      WatchedKeep(cbs, ctls, running, x, cbs[x].(active := true, later := false));
      Promote(x);
    }

    /** event_callback_activate_later_nolock_ */
    method ActivateLater(x: nat) returns (r: int)
      requires Valid() && x < |cbs| && Ours(ctls, x)
      modifies this`cbs, this`later, this`count, this`countActive
      ensures Valid()
      ensures r == if old(cbs)[x].active || old(cbs)[x].later then 0 else 1
      ensures cbs == if r == 0 then old(cbs) else old(cbs)[x := old(cbs)[x].(later := true)]
      ensures later == if r == 0 then old(later) else old(later) + [x]
    {
      if cbs[x].active || cbs[x].later {
        return 0;
      }
      r := 1;
      WatchedKeep(cbs, ctls, running, x, cbs[x].(later := true));
      InsertLater(x);
    }

    /** The members of a list with this priority, in order. */
    static function WithPri(cs: seq<Cb>, l: seq<nat>, p: int): seq<nat> {
      if l == [] then [] else
      var x := l[|l| - 1];
      WithPri(cs, l[..|l| - 1], p) + if x < |cs| && cs[x].pri == p then [x] else []
    }

    /** The queues with the members of l behind, each in that of its priority. */
    static ghost predicate Behind(cs: seq<Cb>, qs: seq<seq<nat>>, l: seq<nat>, rs: seq<seq<nat>>) {
      |rs| == |qs| && forall p :: 0 <= p < |qs| ==> rs[p] == qs[p] + WithPri(cs, l, p)
    }

    static lemma BehindNext(cs: seq<Cb>, qs: seq<seq<nat>>, l: seq<nat>, rs: seq<seq<nat>>, x: nat, q: int,
        more: seq<nat>, ts: seq<seq<nat>>)
      requires Behind(cs, qs, l, rs) && more == l + [x] && x < |cs| && q == cs[x].pri && 0 <= q < |rs|
      requires ts == rs[q := rs[q] + [x]]
      ensures Behind(cs, qs, more, ts)
    {
      assert more[..|more| - 1] == l;
      forall p | 0 <= p < |qs|
        ensures ts[p] == qs[p] + WithPri(cs, more, p)
      {
        if p == q {
          assert qs[p] + WithPri(cs, l, p) + [x] == qs[p] + (WithPri(cs, l, p) + [x]);
        } else {
          assert WithPri(cs, l, p) + [] == WithPri(cs, l, p);
        }
      }
    }

    static lemma BehindNone(cs: seq<Cb>, qs: seq<seq<nat>>)
      ensures Behind(cs, qs, [], qs)
    {
      forall p | 0 <= p < |qs|
        ensures qs[p] == qs[p] + WithPri(cs, [], p)
      {
        assert qs[p] + [] == qs[p];
      }
    }

    /** event_queue_make_later_events_active */
    method MakeLaterActive()
      requires Valid()
      modifies this`cbs, this`queues, this`later
      ensures Valid() && later == [] && |cbs| == |old(cbs)|
      ensures Behind(old(cbs), old(queues), old(later), queues)
      ensures forall x :: 0 <= x < |cbs| ==>
        cbs[x] == if old(cbs)[x].later then old(cbs)[x].(later := false, active := true) else old(cbs)[x]
    {
      ghost var moved: seq<nat> := [];
      BehindNone(cbs, queues);
      while later != []
        invariant Valid() && moved + later == old(later) && Moving(old(cbs), old(queues), moved)
        decreases |later|
      {
        moved := MoveNext(old(cbs), old(queues), moved);
      }
      assert moved + [] == moved;
      forall x | 0 <= x < |cbs|
        ensures !cbs[x].later
      {
        assert IsLater(cbs, x) <==> x in later;
      }
    }

    /** Those in moved have been moved. */
    ghost predicate Moving(cs: seq<Cb>, qs: seq<seq<nat>>, moved: seq<nat>)
      reads this
    {
      && |cbs| == |cs| && Behind(cs, qs, moved, queues)
      && forall x :: 0 <= x < |cbs| ==>
        cbs[x] == if cs[x].later && !cbs[x].later then cs[x].(later := false, active := true) else cs[x]
    }

    method MoveNext(ghost cs: seq<Cb>, ghost qs: seq<seq<nat>>, ghost moved: seq<nat>) returns (ghost more: seq<nat>)
      requires Valid() && later != [] && Moving(cs, qs, moved)
      modifies this`cbs, this`queues, this`later
      ensures Valid() && Moving(cs, qs, more) && more + later == moved + old(later) && |later| < |old(later)|
    {
      ghost var x, rs, rest := later[0], queues, later;
      MoveFirstLater();
      more := moved + [x];
      BehindNext(cs, qs, moved, rs, x, cs[x].pri, more, queues);
      MovedOne(moved, x, rest, later, more);
    }

    static lemma MovedOne(moved: seq<nat>, x: nat, rest: seq<nat>, left: seq<nat>, more: seq<nat>)
      requires rest != [] && x == rest[0] && left == rest[1..] && more == moved + [x]
      ensures more + left == moved + rest
    {
      assert rest == [x] + left;
    }

    method MoveFirstLater()
      requires Valid() && later != []
      modifies this`cbs, this`queues, this`later
      ensures Valid() && later == old(later)[1..] && old(later[0]) < |old(cbs)| && old(cbs)[old(later[0])].later
      ensures cbs == old(cbs)[old(later[0]) := old(cbs)[old(later[0])].(later := false, active := true)]
      ensures var p := old(cbs)[old(later[0])].pri;
        p < |old(queues)| && queues == old(queues)[p := old(queues)[p] + [old(later[0])]]
    {
      var x := later[0];
      assert IsLater(cbs, x);
      var p := cbs[x].pri;
      ghost var c := cbs[x].(later := false, active := true);
      StepLaterToActive(cbs, queues, later, heap, ctls, count, countActive, x, c);
      WatchedKeep(cbs, ctls, running, x, c);
      later := later[1..];
      cbs := cbs[x := cbs[x].(later := false, active := true)];
      queues := queues[p := queues[p] + [x]];
    }

    /** event_priority_set */
    method SetPriority(x: nat, pri: int) returns (res: int)
      requires Valid() && x < |cbs| && Ours(ctls, x)
      modifies this`cbs
      ensures Valid() && res == if old(cbs)[x].active || pri < 0 || pri >= |queues| then -1 else 0
      ensures cbs == if res == -1 then old(cbs) else old(cbs)[x := old(cbs)[x].(pri := pri)]
    {
      if cbs[x].active || pri < 0 || pri >= |queues| {
        return -1;
      }
      res := 0;
      StepKeep(cbs, queues, later, heap, ctls, count, countActive, x, cbs[x].(pri := pri));
      WatchedKeep(cbs, ctls, running, x, cbs[x].(pri := pri));
      cbs := cbs[x := cbs[x].(pri := pri)];
    }

    /** event_assign, or event_deferred_cb_init_ when init is not set. */
    method Assign(init: bool, io: bool, signal: bool, persist: bool, pri: nat) returns (x: nat)
      requires Valid() && pri < |queues| && (!init ==> !io && !persist) && (signal ==> io)
      modifies this`cbs
      ensures Valid() && x == |old(cbs)| && Ours(ctls, x)
      ensures cbs == old(cbs) + [NewCb(init, false, io, signal, persist, pri)]
      ensures var c := cbs[x];
        && c.init == init && c.io == io && c.signal == signal && c.persist == persist && c.pri == pri
        && !c.internal_ && !c.finalizing && !c.inserted && !c.timeout && !c.active && !c.later && !c.Periodic()
    {
      x := |cbs|;
      AddCb(NewCb(init, false, io, signal, persist, pri));
    }

    static function NewCb(init: bool, internal_: bool, io: bool, signal: bool, persist: bool, pri: nat): Cb {
      Cb(init, internal_, false, false, false, false, false, pri, io, signal, persist, false, 0, -1, 0, -1)
    }

    method AddCb(c: Cb)
      requires Valid() && c.pri < |queues| && FlagsOk(c) && c.common == -1
      requires !c.inserted && !c.timeout && !c.active && !c.later
      modifies this`cbs
      ensures Valid() && cbs == old(cbs) + [c] && Ours(ctls, |old(cbs)|)
    {
      StepNew(cbs, queues, later, heap, ctls, count, countActive, c);
      ghost var cs := cbs;
      cbs := cbs + [c];
      forall k | 0 <= k < |ctls|
        ensures ctls[k].rep < |cs| && Watched(cbs, ctls[k], running == k)
      {
        assert ctls[k].events != [] ==> ctls[k].events[0] in ctls[k].events && Waits(cs, k, ctls[k].events[0]);
      }
    }

    /** The duration that event_base_init_common_timeout looks for: whole seconds are carried over
        unless they are exactly one, and the bits of a handle are cleared. */
    static function Carried(d: Duration, handle: bool): Duration {
      if handle || d.usec > 1000000 then Duration(d.sec + d.usec / 1000000, d.usec % 1000000) else d
    }

    /** event_base_init_common_timeout; -1 when there are too many. */
    method InitCommon(d: Duration, handle: bool) returns (k: int)
      requires Valid() && |queues| > 0
      modifies this`cbs, this`ctls
      ensures Valid()
      ensures var n := Carried(d, handle);
        n.sec * 1000000 + n.usec == d.sec * 1000000 + d.usec && (handle || d.usec > 1000000 ==> n.usec < 1000000)
        && (!handle && d.usec <= 1000000 ==> n == d)
      ensures var n := Carried(d, handle); var known := exists j :: 0 <= j < |old(ctls)| && old(ctls)[j].duration == n;
        && (k == -1 <==> !known && |old(ctls)| == MAX_COMMON_TIMEOUTS)
        && (known || k == -1 ==> ctls == old(ctls) && cbs == old(cbs))
        && (known ==> 0 <= k < |ctls| && ctls[k].duration == n && forall j :: 0 <= j < k ==> ctls[j].duration != n)
        && (!known && k != -1 ==>
          && k == |old(ctls)| && ctls == old(ctls) + [Ctl([], |old(cbs)|, n)]
          && cbs == old(cbs) + [NewCb(true, true, false, false, false, 0)])
    {
      var n := Carried(d, handle);
      k := 0;
      while k < |ctls|
        invariant 0 <= k <= |ctls| && forall j :: 0 <= j < k ==> ctls[j].duration != n
      {
        if ctls[k].duration == n {
          return;
        }
        k := k + 1;
      }
      if |ctls| == MAX_COMMON_TIMEOUTS {
        return -1;
      }
      AddList(n);
    }

    method AddList(n: Duration)
      requires Valid() && |queues| > 0 && |ctls| < MAX_COMMON_TIMEOUTS
      modifies this`cbs, this`ctls
      ensures Valid() && ctls == old(ctls) + [Ctl([], |old(cbs)|, n)]
      ensures cbs == old(cbs) + [NewCb(true, true, false, false, false, 0)]
    {
      var x := |cbs|;
      AddCb(NewCb(true, true, false, false, false, 0));
      NewList(cbs, heap, ctls, Ctl([], x, n));
      assert forall j :: 0 <= j < |ctls| ==> !StandsFor(ctls, x, j);
      ctls := ctls + [Ctl([], x, n)];
    }
  }
}
