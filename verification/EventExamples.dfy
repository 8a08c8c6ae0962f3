/** A periodic event through the steps of its life (event.c). */
module EventExamples {
  import opened Basics
  import opened EventLists
  import opened EventLoop

  /** A queue with one member. */
  lemma Only(cbs: seq<Cb>, q: seq<nat>, p: nat, x: nat)
    requires NoDup(q) && forall y: nat :: y in q <==> InQueue(cbs, p, y)
    requires forall y: nat :: InQueue(cbs, p, y) <==> y == x
    ensures q == [x]
  {
    assert forall i :: 1 <= i < |q| ==> q[i] in q[1..];
    assert forall i :: 0 <= i < |q| ==> q[i] in q;
    assert x in q;
  }

  lemma Nobody(cbs: seq<Cb>, q: seq<nat>, p: nat)
    requires q == [] && forall y: nat :: y in q <==> InQueue(cbs, p, y)
    ensures forall y: nat :: !InQueue(cbs, p, y)
  {
    forall y: nat
      ensures !InQueue(cbs, p, y)
    {
      assert y !in q;
    }
  }

  lemma OnlyNew(cs: seq<Cb>, cbs: seq<Cb>, p: nat, x: nat)
    requires x < |cs| == |cbs| && cbs == cs[x := cbs[x]] && InQueue(cbs, p, x)
    requires forall y: nat :: !InQueue(cs, p, y)
    ensures forall y: nat :: InQueue(cbs, p, y) <==> y == x
  {
    forall y: nat
      ensures InQueue(cbs, p, y) <==> y == x
    {
      assert !InQueue(cs, p, y);
    }
  }

  /** A persistent timer is added at t0 for a length of time. It goes off at t1, runs, and waits
      again: until twice that length after t0, whenever in between it ran, unless that has passed. */
  method Periodic(b: EventBase, x: nat, length: nat, t0: int, t1: int)
    requires b.Valid() && b.running == -1 && x < |b.cbs| && Ours(b.ctls, x) && length > 0 && t0 + length <= t1
    requires b.cbs[x].init && b.cbs[x].persist && !b.cbs[x].signal && !b.cbs[x].io && !b.cbs[x].finalizing
    requires !b.cbs[x].later && !b.cbs[x].active && b.queues[b.cbs[x].pri] == []
    modifies b
    ensures b.Valid() && |b.cbs| == |old(b.cbs)|
    ensures b.cbs[x].timeout && !b.cbs[x].active && b.cbs[x].period == length && b.cbs[x].common == -1
    ensures b.cbs[x].due == if t1 <= t0 + 2 * length then t0 + 2 * length else t1 + length
  {
    var p := b.cbs[x].pri;
    ghost var cs := b.cbs;
    Nobody(cs, b.queues[p], p);
    var r := b.Add(x, Some(Tv(length, -1)), false, t0, true);
    assert Waits(b.cbs, -1, x);
    b.Expire(x);
    OnlyNew(cs, b.cbs, p, x);
    Only(b.cbs, b.queues[p], p, x);
    var y, counts := b.Process(p);
    r := b.PersistClosure(x, t1, true);
  }
}
