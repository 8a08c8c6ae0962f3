/** The bookkeeping of DNS requests (evdns.c). */
module DnsRequests {
  import opened Basics
  import opened DnsTables

  const MAX_INFLIGHT: nat := 65000
  const NO_ID: nat := 0xffff

  class DnsBase {
    var reqs: map<nat, Req>
    /** req_heads; a circular list is the sequence from its head on. */
    var heads: seq<seq<nat>>
    var waiting: seq<nat>
    /** requests_inflight of each name server */
    var servers: seq<int>
    var inflight: int
    var waitingCount: int
    var maxInflight: int

    ghost predicate Valid()
      reads this
    {
      && TablesOk(reqs, heads, waiting) && ServersOk(reqs, heads, servers)
      && inflight == Total(heads) <= MAX_INFLIGHT && waitingCount == |waiting|
      && 1 <= maxInflight <= MAX_INFLIGHT && |heads| == (maxInflight + 4) / 5
    }

    constructor (maxInflight: nat)
      requires 1 <= maxInflight <= MAX_INFLIGHT
      ensures Valid() && reqs == map[] && servers == [] && this.maxInflight == maxInflight
    {
      reqs, waiting, servers, inflight, waitingCount := map[], [], [], 0, 0;
      this.maxInflight := maxInflight;
      heads := seq((maxInflight + 4) / 5, _ => []);
      new;
      NoneInFlight(heads);
    }

    /** request_find_from_trans_id: the request in flight with this id; -1 when there is none. */
    method Find(id: nat) returns (x: int)
      requires Valid()
      ensures x == -1 ==> forall y :: InFlight(reqs, y) ==> reqs[y].transId != id
      ensures x != -1 ==> x >= 0 && InFlight(reqs, x) && reqs[x].transId == id
      ensures x != -1 ==> forall y :: InFlight(reqs, y) && reqs[y].transId == id ==> y == x
    {
      var b, i := id % |heads|, 0;
      while i < |heads[b]|
        invariant 0 <= i <= |heads[b]|
        invariant forall k :: 0 <= k < i ==> heads[b][k] in reqs && reqs[heads[b][k]].transId != id
      {
        assert heads[b][i] in heads[b];
        assert InBucket(reqs, |heads|, b, heads[b][i]);
        if reqs[heads[b][i]].transId == id {
          return heads[b][i];
        }
        i := i + 1;
      }
      x := -1;
      assert forall y: nat :: y in heads[b] ==> reqs[y].transId != id;
      forall y | InFlight(reqs, y)
        ensures reqs[y].transId != id
      {
        assert InBucket(reqs, |heads|, reqs[y].transId % |heads|, y);
      }
    }

    predicate IdFree(id: nat)
      reads this`reqs
    {
      forall y | y in reqs :: reqs[y].ns != -1 ==> reqs[y].transId != id
    }

    /** transaction_id_pick: some id that is not in flight; there always is one. */
    method PickId() returns (id: nat)
      requires Valid()
      ensures id < NO_ID && IdFree(id)
    {
      FreeIdExists();
      id :| id < NO_ID && IdFree(id);
    }

    lemma FreeIdExists()
      requires Valid()
      ensures exists id: nat :: id < NO_ID && IdFree(id)
    {
      var used := Ids(reqs, All(heads));
      AllIs(heads);
      var id := Unused(used, NO_ID);
      forall y | y in reqs && reqs[y].ns != -1
        ensures reqs[y].transId != id
      {
        assert InBucket(reqs, |heads|, reqs[y].transId % |heads|, y);
        InAll(heads, reqs[y].transId % |heads|, y);
        IdListed(reqs, All(heads), y);
      }
      assert IdFree(id);
    }

    /** nameserver_pick: some server, -1 when there are none. */
    method PickServer() returns (s: int)
      ensures if servers == [] then s == -1 else 0 <= s < |servers|
    {
      s := -1;
      if servers != [] {
        assert 0 < |servers|;
        s :| 0 <= s < |servers|;
      }
    }

    /** request_new and request_submit */
    method Submit(x: nat)
      requires Valid() && x !in reqs
      modifies this
      ensures Valid() && reqs.Keys == old(reqs).Keys + {x} && forall y :: y in old(reqs) ==> reqs[y] == old(reqs)[y]
      ensures InFlight(reqs, x) <==> old(inflight) < maxInflight && servers != []
      ensures waiting == if InFlight(reqs, x) then old(waiting) else old(waiting) + [x]
      ensures InFlight(reqs, x) ==> reqs[x].transId < NO_ID && 0 <= reqs[x].ns < |servers|
      ensures |servers| == |old(servers)| && maxInflight == old(maxInflight)
    {
      var issuing := inflight < maxInflight;
      var id, ns := NO_ID, -1;
      if issuing {
        id := PickId();
        ns := PickServer();
      }
      if ns != -1 {
        Launch(x, id, ns);
      } else {
        JoinWaiting(reqs, heads, waiting, servers, x, Req(id, ns), reqs[x := Req(id, ns)], false);
        reqs := reqs[x := Req(id, ns)];
        waiting := waiting + [x];
        waitingCount := waitingCount + 1;
      }
    }

    /** A new request goes straight to its bucket. */
    method Launch(x: nat, id: nat, ns: int)
      requires Valid() && x !in reqs && 0 <= ns < |servers| && IdFree(id) && inflight < maxInflight
      modifies this`reqs, this`heads, this`servers, this`inflight
      ensures Valid() && reqs == old(reqs)[x := Req(id, ns)] && |servers| == |old(servers)|
        && inflight == old(inflight) + 1
    {
      var b := id % |heads|;
      JoinBucket(reqs, heads, waiting, servers, x, Req(id, ns), b, reqs[x := Req(id, ns)], heads[b := heads[b] + [x]]);
      reqs := reqs[x := Req(id, ns)];
      heads := heads[b := heads[b] + [x]];
      inflight := inflight + 1;
      servers := servers[ns := servers[ns] + 1];
    }

    /** evdns_requests_pump_waiting_queue: requests are started in the order they wait, until
        the limit is reached or none waits. */
    method Pump()
      requires Valid()
      modifies this
      ensures Valid() && reqs.Keys == old(reqs).Keys && |servers| == |old(servers)| && maxInflight == old(maxInflight)
      ensures servers != [] ==> waiting == [] || inflight >= maxInflight
      ensures servers == [] ==> reqs == old(reqs) && waiting == old(waiting)
      ensures inflight + |waiting| == old(inflight) + |old(waiting)|
        && (inflight == old(inflight) || inflight <= maxInflight)
      ensures |waiting| <= |old(waiting)| && waiting == old(waiting)[|old(waiting)| - |waiting|..]
      ensures Untouched(old(reqs), reqs)
    {
      ghost var k: nat, n: nat := 0, |waiting|;
      while inflight < maxInflight && waitingCount != 0
        invariant Valid() && reqs.Keys == old(reqs).Keys && |servers| == |old(servers)|
          && maxInflight == old(maxInflight)
        invariant servers == [] ==> reqs == old(reqs) && k == 0
        invariant k <= n && waiting == old(waiting)[k..] && inflight == old(inflight) + k
          && (k == 0 || inflight <= maxInflight)
        invariant Untouched(old(reqs), reqs)
        decreases n - k
      {
        var ns := PickServer();
        if ns == -1 {
          return;
        }
        Promote(ns);
        k := k + 1;
      }
    }

    /** Requests that were in flight stay as they were. */
    static ghost predicate Untouched(before: map<nat, Req>, after: map<nat, Req>) {
      forall y :: InFlight(before, y) ==> y in after && after[y] == before[y]
    }

    /** The first waiting request is sent to server ns. */
    method Promote(ns: int)
      requires Valid() && waiting != [] && 0 <= ns < |servers| && inflight < maxInflight
      modifies this
      ensures Valid() && reqs.Keys == old(reqs).Keys && |servers| == |old(servers)| && maxInflight == old(maxInflight)
      ensures waiting == old(waiting)[1..] && inflight == old(inflight) + 1
      ensures forall y :: y in old(reqs) && y != old(waiting)[0] ==> reqs[y] == old(reqs)[y]
      ensures IsWaiting(old(reqs), old(waiting)[0])
    {
      var x := waiting[0];
      assert x in waiting;
      assert IsWaiting(reqs, x);
      LeaveWaiting(reqs, heads, waiting, servers, x, reqs - {x});
      assert Without(waiting, x) == waiting[1..];
      reqs := reqs - {x};
      waiting := waiting[1..];
      waitingCount := waitingCount - 1;
      var id := PickId();
      Launch(x, id, ns);
    }

    lemma NotWaiting(x: nat)
      requires Valid() && x in reqs && reqs[x].ns != -1
      ensures Without(waiting, x) == waiting
    {
      assert !IsWaiting(reqs, x);
      WithoutAbsent(waiting, x);
    }

    /** request_finished, also by way of evdns_cancel_request: the request is gone, and the
        waiting ones are looked at. */
    method Finish(x: nat)
      requires Valid() && x in reqs
      modifies this
      ensures Valid() && reqs.Keys == old(reqs).Keys - {x} && |servers| == |old(servers)|
        && maxInflight == old(maxInflight)
      ensures forall y :: InFlight(old(reqs), y) && y != x ==> y in reqs && reqs[y] == old(reqs)[y]
      ensures servers != [] ==> waiting == [] || inflight >= maxInflight
      ensures servers == [] ==> waiting == Without(old(waiting), x)
      ensures |waiting| <= |Without(old(waiting), x)|
      ensures waiting == Without(old(waiting), x)[|Without(old(waiting), x)| - |waiting|..]
    {
      if reqs[x].ns != -1 {
        NotWaiting(x);
      }
      if reqs[x].ns != -1 {
        var b, ns := reqs[x].transId % |heads|, reqs[x].ns;
        LeaveBucket(reqs, heads, waiting, servers, x, b, reqs - {x}, heads[b := Without(heads[b], x)]);
        heads := heads[b := Without(heads[b], x)];
        inflight := inflight - 1;
        servers := servers[ns := servers[ns] - 1];
      } else {
        LeaveWaiting(reqs, heads, waiting, servers, x, reqs - {x});
        waiting := Without(waiting, x);
        waitingCount := waitingCount - 1;
      }
      reqs := reqs - {x};
      Pump();
    }

    /** request_swap_ns: the request is with another server from now on. */
    method SwapNs(x: nat, ns: int)
      requires Valid() && InFlight(reqs, x) && -1 <= ns < |servers|
      modifies this`reqs, this`servers
      ensures Valid() && reqs == (if ns != -1 then old(reqs)[x := old(reqs)[x].(ns := ns)] else old(reqs))
        && |servers| == |old(servers)|
    {
      if ns != -1 && reqs[x].ns != ns {
        var was, now := reqs[x].ns, reqs[x := reqs[x].(ns := ns)];
        SwapServer(reqs, heads, waiting, servers, x, ns, now, servers[was := servers[was] - 1][ns := servers[ns] + 1]);
        // The source asserts this too.
        assert servers[was] > 0;
        servers := servers[was := servers[was] - 1];
        servers := servers[ns := servers[ns] + 1];
        reqs := now;
      }
    }

    /** A new name server, with nothing to do yet. */
    method AddServer()
      requires Valid()
      modifies this`servers
      ensures Valid() && servers == old(servers) + [0]
    {
      NobodyWith(reqs, heads, |servers|);
      servers := servers + [0];
    }

    /** evdns_base_set_max_requests_inflight: all requests move to a table of another size, and
        every id still leads to the same request. */
    method Rehash(max: int)
      requires Valid() && max <= MAX_INFLIGHT
      modifies this`heads, this`maxInflight
      ensures Valid() && maxInflight == (if max < 1 then 1 else max) && Total(heads) == old(Total(heads))
    {
      var maxinflight := if max < 1 then 1 else max;
      var n := (maxinflight + 4) / 5;
      var oldHeads, newHeads: seq<seq<nat>> := heads, seq(n, _ => []);
      ghost var start, ss := heads, servers;
      ghost var moved: set<nat> := {};
      NoneInFlight(newHeads);
      var i := 0;
      while i < |oldHeads|
        invariant 0 <= i <= |oldHeads| == |start| && |newHeads| == n
        invariant heads == start
        invariant Halfway(reqs, start, ss, oldHeads, newHeads, moved)
        invariant forall b :: 0 <= b < i ==> oldHeads[b] == []
        decreases |start| - i
      {
        while oldHeads[i] != []
          invariant i < |oldHeads| == |start| && |newHeads| == n
          invariant heads == start
          invariant Halfway(reqs, start, ss, oldHeads, newHeads, moved)
          invariant forall b :: 0 <= b < i ==> oldHeads[b] == []
          decreases |oldHeads[i]|
        {
          var x := oldHeads[i][0];
          assert x in oldHeads[i];
          assert InBucket(reqs, |oldHeads|, i, x);
          var b := reqs[x].transId % n;
          MoveOne(reqs, start, ss, oldHeads, newHeads, moved, i, x, b, oldHeads[i := oldHeads[i][1..]],
            newHeads[b := newHeads[b] + [x]]);
          oldHeads := oldHeads[i := oldHeads[i][1..]];
          newHeads := newHeads[b := newHeads[b] + [x]];
          moved := moved + {x};
        }
        i := i + 1;
      }
      AllMoved(reqs, heads, waiting, servers, oldHeads, newHeads, moved);
      heads := newHeads;
      maxInflight := maxinflight;
    }

    /** evdns_base_clear_nameservers_and_suspend: everything in flight waits again, in front. */
    method Suspend()
      requires Valid()
      modifies this
      ensures Valid() && reqs.Keys == old(reqs).Keys && maxInflight == old(maxInflight)
      ensures servers == [] && inflight == 0 && waitingCount == |reqs.Keys|
      ensures |old(waiting)| <= |waiting| && waiting[|waiting| - |old(waiting)|..] == old(waiting)
    {
      var i := 0;
      while i < |heads|
        invariant 0 <= i <= |heads| && Valid() && reqs.Keys == old(reqs).Keys && maxInflight == old(maxInflight)
          && |heads| == |old(heads)|
        invariant forall b :: 0 <= b < i ==> heads[b] == []
        invariant |old(waiting)| <= |waiting| && waiting[|waiting| - |old(waiting)|..] == old(waiting)
      {
        SuspendBucket(i);
        i := i + 1;
      }
      NoneInFlight(heads);
      forall x | x in reqs
        ensures reqs[x].ns == -1
      {
        assert reqs[x].ns != -1 ==> InBucket(reqs, |heads|, reqs[x].transId % |heads|, x);
      }
      AllWait(reqs, heads, waiting);
      servers := [];
    }

    /** One round of the loop above. */
    method SuspendBucket(b: nat)
      requires Valid() && b < |heads|
      modifies this
      ensures Valid() && reqs.Keys == old(reqs).Keys && maxInflight == old(maxInflight)
      ensures heads == old(heads)[b := []]
      ensures |old(waiting)| <= |waiting| && waiting[|waiting| - |old(waiting)|..] == old(waiting)
    {
      while heads[b] != []
        invariant Valid() && reqs.Keys == old(reqs).Keys && maxInflight == old(maxInflight)
        invariant |heads| == |old(heads)| && heads == old(heads)[b := heads[b]]
        invariant |old(waiting)| <= |waiting| && waiting[|waiting| - |old(waiting)|..] == old(waiting)
        decreases |heads[b]|
      {
        SuspendOne(b);
      }
    }

    /** The first request of bucket b goes to the front of the waiting queue. */
    method SuspendOne(b: nat)
      requires Valid() && b < |heads| && heads[b] != []
      modifies this
      ensures Valid() && reqs.Keys == old(reqs).Keys && maxInflight == old(maxInflight) && |servers| == |old(servers)|
      ensures heads == old(heads)[b := old(heads)[b][1..]] && waiting == [old(heads)[b][0]] + old(waiting)
    {
      var x := heads[b][0];
      assert x in heads[b];
      assert InBucket(reqs, |heads|, b, x);
      var ns := reqs[x].ns;
      LeaveBucket(reqs, heads, waiting, servers, x, b, reqs - {x}, heads[b := Without(heads[b], x)]);
      assert Without(heads[b], x) == heads[b][1..];
      heads := heads[b := heads[b][1..]];
      inflight := inflight - 1;
      servers := servers[ns := servers[ns] - 1];
      JoinWaiting(reqs - {x}, heads, waiting, servers, x, Req(0, -1), (reqs - {x})[x := Req(0, -1)], true);
      reqs := (reqs - {x})[x := Req(0, -1)];
      waiting := [x] + waiting;
      waitingCount := waitingCount + 1;
    }
  }

  lemma {:induction false} NobodyWith(rs: map<nat, Req>, hs: seq<seq<nat>>, s: int)
    requires forall x :: x in rs ==> rs[x].ns < s
    ensures CountHeads(rs, hs, s) == 0
  {
    if hs != [] {
      NobodyIn(rs, hs[0], s);
      NobodyWith(rs, hs[1..], s);
    }
  }

  lemma {:induction false} NobodyIn(rs: map<nat, Req>, l: seq<nat>, s: int)
    requires forall x :: x in rs ==> rs[x].ns < s
    ensures CountList(rs, l, s) == 0
  {
    if l != [] {
      NobodyIn(rs, l[1..], s);
    }
  }

  /** All requests of all buckets. */
  function All(heads: seq<seq<nat>>): seq<nat> {
    if heads == [] then [] else heads[0] + All(heads[1..])
  }

  lemma {:induction false} AllIs(heads: seq<seq<nat>>)
    ensures |All(heads)| == Total(heads)
  {
    if heads != [] {
      AllIs(heads[1..]);
    }
  }

  lemma {:induction false} InAll(heads: seq<seq<nat>>, b: nat, x: nat)
    requires b < |heads| && x in heads[b]
    ensures x in All(heads)
  {
    if b > 0 {
      InAll(heads[1..], b - 1, x);
    }
  }

  function Ids(reqs: map<nat, Req>, l: seq<nat>): (r: seq<nat>)
    ensures |r| == |l|
  {
    seq(|l|, i requires 0 <= i < |l| => if l[i] in reqs then reqs[l[i]].transId else 0)
  }

  lemma IdListed(reqs: map<nat, Req>, l: seq<nat>, x: nat)
    requires x in l && x in reqs
    ensures reqs[x].transId in Ids(reqs, l)
  {
    var i :| 0 <= i < |l| && l[i] == x;
    assert Ids(reqs, l)[i] == reqs[x].transId;
  }

  /** Fewer numbers than n leave one below n unused. */
  lemma Unused(l: seq<nat>, n: nat) returns (id: nat)
    requires |l| < n
    ensures id < n && id !in l
  {
    if UpTo(n) <= Elems(l) {
      SubsetSize(UpTo(n), Elems(l));
      assert false;
    }
    id :| id in UpTo(n) && id !in Elems(l);
  }

  /** With nothing in flight, the queue holds every request, once. */
  lemma AllWait(reqs: map<nat, Req>, heads: seq<seq<nat>>, waiting: seq<nat>)
    requires TablesOk(reqs, heads, waiting) && forall x :: x in reqs ==> reqs[x].ns == -1
    ensures |waiting| == |reqs.Keys|
  {
    forall x: nat
      ensures x in Elems(waiting) <==> x in reqs.Keys
    {
      assert x in waiting <==> IsWaiting(reqs, x);
    }
    assert Elems(waiting) == reqs.Keys;
  }

  /** The old table holds the requests in flight that have not moved yet, the new one those
      that have. */
  ghost predicate Halfway(reqs: map<nat, Req>, heads: seq<seq<nat>>, servers: seq<int>, from: seq<seq<nat>>,
      to: seq<seq<nat>>, moved: set<nat>)
  {
    && |from| == |heads| > 0 && |to| > 0
    && (forall b :: 0 <= b < |from| ==> NoDup(from[b]))
    && (forall b :: 0 <= b < |to| ==> NoDup(to[b]))
    && (forall b, x: nat :: 0 <= b < |from| ==> (x in from[b] <==> InBucket(reqs, |from|, b, x) && x !in moved))
    && (forall b, x: nat :: 0 <= b < |to| ==> (x in to[b] <==> InBucket(reqs, |to|, b, x) && x in moved))
    && Total(from) + Total(to) == Total(heads)
    && (forall s :: 0 <= s < |servers| ==> CountHeads(reqs, from, s) + CountHeads(reqs, to, s) == servers[s])
  }

  lemma MoveOne(reqs: map<nat, Req>, heads: seq<seq<nat>>, servers: seq<int>, from: seq<seq<nat>>, to: seq<seq<nat>>,
      moved: set<nat>, i: nat, x: nat, b: nat, f: seq<seq<nat>>, t: seq<seq<nat>>)
    requires Halfway(reqs, heads, servers, from, to, moved) && i < |from| && from[i] != [] && x == from[i][0]
    requires x in reqs && b == reqs[x].transId % |to|
    requires f == from[i := from[i][1..]] && t == to[b := to[b] + [x]]
    ensures Halfway(reqs, heads, servers, f, t, moved + {x})
  {
    assert x in from[i];
    assert InBucket(reqs, |from|, i, x) && x !in moved;
    NoDupSnoc(to[b], x);
    TotalUpdate(from, i, from[i][1..]);
    TotalUpdate(to, b, to[b] + [x]);
    forall c, y: nat | 0 <= c < |from|
      ensures y in f[c] <==> InBucket(reqs, |f|, c, y) && y !in moved + {x}
    {
      assert y in from[c] <==> InBucket(reqs, |from|, c, y) && y !in moved;
      assert from[i] == [x] + from[i][1..];
    }
    forall c, y: nat | 0 <= c < |to|
      ensures y in t[c] <==> InBucket(reqs, |t|, c, y) && y in moved + {x}
    {
      assert y in to[c] <==> InBucket(reqs, |to|, c, y) && y in moved;
    }
    forall s | 0 <= s < |servers|
      ensures CountHeads(reqs, f, s) + CountHeads(reqs, t, s) == servers[s]
    {
      CountUpdate(reqs, from, i, from[i][1..], s);
      CountUpdate(reqs, to, b, to[b] + [x], s);
      CountSnoc(reqs, to[b], x, s);
    }
  }

  lemma AllMoved(reqs: map<nat, Req>, heads: seq<seq<nat>>, waiting: seq<nat>, servers: seq<int>, from: seq<seq<nat>>,
      to: seq<seq<nat>>, moved: set<nat>)
    requires TablesOk(reqs, heads, waiting) && ServersOk(reqs, heads, servers)
    requires Halfway(reqs, heads, servers, from, to, moved) && forall b :: 0 <= b < |from| ==> from[b] == []
    ensures TablesOk(reqs, to, waiting) && ServersOk(reqs, to, servers) && Total(to) == Total(heads)
  {
    NoneInFlight(from);
    forall b, x: nat | 0 <= b < |to|
      ensures x in to[b] <==> InBucket(reqs, |to|, b, x)
    {
      if InBucket(reqs, |to|, b, x) {
        var c := reqs[x].transId % |from|;
        assert InBucket(reqs, |from|, c, x);
        assert x !in from[c];
      }
    }
  }

  lemma {:induction false} NoneInFlight(hs: seq<seq<nat>>)
    requires forall b :: 0 <= b < |hs| ==> hs[b] == []
    ensures Total(hs) == 0 && forall rs, s :: CountHeads(rs, hs, s) == 0
  {
    if hs != [] {
      NoneInFlight(hs[1..]);
    }
  }
}
