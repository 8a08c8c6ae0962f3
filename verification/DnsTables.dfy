/** The request tables of evdns.c, on values: buckets of requests in flight, the waiting
    queue, and what the counters say about them. */
module DnsTables {
  import opened Basics

  /** struct request, as far as the tables go; no name server is -1. */
  datatype Req = Req(transId: nat, ns: int)

  predicate InBucket(reqs: map<nat, Req>, n: nat, b: int, x: nat)
    requires n > 0
  {
    x in reqs && reqs[x].ns != -1 && reqs[x].transId % n == b
  }

  predicate IsWaiting(reqs: map<nat, Req>, x: nat) {
    x in reqs && reqs[x].ns == -1
  }

  predicate InFlight(reqs: map<nat, Req>, x: nat) {
    x in reqs && reqs[x].ns != -1
  }

  /** Requests with a name server are in the bucket of their id, the others wait, and no two
      requests in flight have the same id. */
  ghost predicate TablesOk(reqs: map<nat, Req>, heads: seq<seq<nat>>, waiting: seq<nat>) {
    && |heads| > 0 && NoDup(waiting)
    && (forall b :: 0 <= b < |heads| ==> NoDup(heads[b]))
    && (forall b, x: nat :: 0 <= b < |heads| ==> (x in heads[b] <==> InBucket(reqs, |heads|, b, x)))
    && (forall x: nat :: x in waiting <==> IsWaiting(reqs, x))
    && (forall x, y :: InFlight(reqs, x) && InFlight(reqs, y) && reqs[x].transId == reqs[y].transId ==> x == y)
  }

  /** How many requests of a list are with server s. */
  function CountList(reqs: map<nat, Req>, l: seq<nat>, s: int): nat {
    if l == [] then 0 else (if l[0] in reqs && reqs[l[0]].ns == s then 1 else 0) + CountList(reqs, l[1..], s)
  }

  function CountHeads(reqs: map<nat, Req>, heads: seq<seq<nat>>, s: int): nat {
    if heads == [] then 0 else CountList(reqs, heads[0], s) + CountHeads(reqs, heads[1..], s)
  }

  /** requests_inflight of every name server. */
  ghost predicate ServersOk(reqs: map<nat, Req>, heads: seq<seq<nat>>, servers: seq<int>) {
    && (forall x :: x in reqs ==> -1 <= reqs[x].ns < |servers|)
    && (forall s :: 0 <= s < |servers| ==> servers[s] == CountHeads(reqs, heads, s))
  }

  function One(c: bool): nat {
    if c then 1 else 0
  }

  lemma {:induction false} CountSnoc(reqs: map<nat, Req>, l: seq<nat>, x: nat, s: int)
    ensures CountList(reqs, l + [x], s) == CountList(reqs, l, s) + One(x in reqs && reqs[x].ns == s)
  {
    if l != [] {
      CountSnoc(reqs, l[1..], x, s);
      assert (l + [x])[1..] == l[1..] + [x];
    } else {
      assert [] + [x] == [x];
    }
  }

  lemma {:induction false} CountWithout(reqs: map<nat, Req>, l: seq<nat>, x: nat, s: int)
    requires x in l
    ensures CountList(reqs, Without(l, x), s) == CountList(reqs, l, s) - One(x in reqs && reqs[x].ns == s)
  {
    if l[0] != x {
      CountWithout(reqs, l[1..], x, s);
      assert ([l[0]] + Without(l[1..], x))[1..] == Without(l[1..], x);
    }
  }

  lemma {:induction false} CountUpdate(reqs: map<nat, Req>, heads: seq<seq<nat>>, b: nat, l: seq<nat>, s: int)
    requires b < |heads|
    ensures CountHeads(reqs, heads[b := l], s) ==
      CountHeads(reqs, heads, s) - CountList(reqs, heads[b], s) + CountList(reqs, l, s)
  {
    if b > 0 {
      CountUpdate(reqs, heads[1..], b - 1, l, s);
      assert heads[b := l][1..] == heads[1..][b - 1 := l];
    } else {
      assert heads[0 := l][1..] == heads[1..];
    }
  }

  /** Two tables of requests that agree on what is listed count the same. */
  lemma {:induction false} CountSame(reqs: map<nat, Req>, rs: map<nat, Req>, l: seq<nat>, s: int)
    requires forall x :: x in l ==> (x in reqs && reqs[x].ns == s <==> x in rs && rs[x].ns == s)
    ensures CountList(reqs, l, s) == CountList(rs, l, s)
  {
    if l != [] {
      CountSame(reqs, rs, l[1..], s);
    }
  }

  lemma {:induction false} CountHeadsSame(reqs: map<nat, Req>, rs: map<nat, Req>, heads: seq<seq<nat>>, s: int)
    requires forall b, x :: 0 <= b < |heads| && x in heads[b] ==>
      (x in reqs && reqs[x].ns == s <==> x in rs && rs[x].ns == s)
    ensures CountHeads(reqs, heads, s) == CountHeads(rs, heads, s)
  {
    if heads != [] {
      CountSame(reqs, rs, heads[0], s);
      assert forall b, x :: 0 <= b < |heads[1..]| && x in heads[1..][b] ==> x in heads[b + 1];
      CountHeadsSame(reqs, rs, heads[1..], s);
    }
  }

  /** A request joins its bucket. */
  lemma JoinBucket(reqs: map<nat, Req>, heads: seq<seq<nat>>, waiting: seq<nat>, servers: seq<int>, x: nat, r: Req,
      b: nat, rs: map<nat, Req>, hs: seq<seq<nat>>)
    requires TablesOk(reqs, heads, waiting) && ServersOk(reqs, heads, servers) && x !in reqs
    requires 0 <= r.ns < |servers| && b == r.transId % |heads| && rs == reqs[x := r] && hs == heads[b := heads[b] + [x]]
    requires forall y :: InFlight(reqs, y) ==> reqs[y].transId != r.transId
    ensures TablesOk(rs, hs, waiting) && ServersOk(rs, hs, servers[r.ns := servers[r.ns] + 1])
    ensures Total(hs) == Total(heads) + 1
  {
    assert !InBucket(reqs, |heads|, b, x);
    NoDupSnoc(heads[b], x);
    TotalUpdate(heads, b, heads[b] + [x]);
    forall c, y: nat | 0 <= c < |hs|
      ensures y in hs[c] <==> InBucket(rs, |hs|, c, y)
    {
      assert y in heads[c] <==> InBucket(reqs, |heads|, c, y);
    }
    forall y: nat
      ensures y in waiting <==> IsWaiting(rs, y)
    {
      assert y in waiting <==> IsWaiting(reqs, y);
    }
    forall y, z | InFlight(rs, y) && InFlight(rs, z) && rs[y].transId == rs[z].transId
      ensures y == z
    {
      assert y != x ==> InFlight(reqs, y);
      assert z != x ==> InFlight(reqs, z);
    }
    forall s | 0 <= s < |servers|
      ensures servers[r.ns := servers[r.ns] + 1][s] == CountHeads(rs, hs, s)
    {
      ListedOnes(reqs, heads, waiting, x, rs, s);
      CountUpdate(rs, heads, b, heads[b] + [x], s);
      CountSnoc(rs, heads[b], x, s);
    }
  }

  lemma ListedOnes(reqs: map<nat, Req>, heads: seq<seq<nat>>, waiting: seq<nat>, x: nat, rs: map<nat, Req>, s: int)
    requires TablesOk(reqs, heads, waiting) && !InFlight(reqs, x)
    requires forall y :: y != x ==> (y in rs <==> y in reqs) && (y in reqs ==> rs[y] == reqs[y])
    ensures CountHeads(rs, heads, s) == CountHeads(reqs, heads, s)
  {
    forall b, y: nat | 0 <= b < |heads| && y in heads[b]
      ensures y in reqs && reqs[y].ns == s <==> y in rs && rs[y].ns == s
    {
      assert InBucket(reqs, |heads|, b, y);
    }
    CountHeadsSame(reqs, rs, heads, s);
  }

  /** A request leaves its bucket, and the table. */
  lemma LeaveBucket(reqs: map<nat, Req>, heads: seq<seq<nat>>, waiting: seq<nat>, servers: seq<int>, x: nat, b: nat,
      rs: map<nat, Req>, hs: seq<seq<nat>>)
    requires TablesOk(reqs, heads, waiting) && ServersOk(reqs, heads, servers) && InFlight(reqs, x)
    requires b == reqs[x].transId % |heads| && rs == reqs - {x} && hs == heads[b := Without(heads[b], x)]
    ensures TablesOk(rs, hs, waiting) && 0 <= reqs[x].ns < |servers|
    ensures ServersOk(rs, hs, servers[reqs[x].ns := servers[reqs[x].ns] - 1])
    ensures Total(hs) == Total(heads) - 1 && servers[reqs[x].ns] > 0
  {
    var ns := reqs[x].ns;
    assert InBucket(reqs, |heads|, b, x);
    WithoutIs(heads[b], x);
    TotalUpdate(heads, b, Without(heads[b], x));
    forall c, y: nat | 0 <= c < |hs|
      ensures y in hs[c] <==> InBucket(rs, |hs|, c, y)
    {
      assert y in heads[c] <==> InBucket(reqs, |heads|, c, y);
    }
    forall y: nat
      ensures y in waiting <==> IsWaiting(rs, y)
    {
      assert y in waiting <==> IsWaiting(reqs, y);
    }
    forall y, z | InFlight(rs, y) && InFlight(rs, z) && rs[y].transId == rs[z].transId
      ensures y == z
    {
      assert InFlight(reqs, y) && InFlight(reqs, z);
    }
    forall s | 0 <= s < |servers|
      ensures servers[ns := servers[ns] - 1][s] == CountHeads(rs, hs, s)
    {
      CountUpdate(reqs, heads, b, Without(heads[b], x), s);
      CountWithout(reqs, heads[b], x, s);
      forall c, y: nat | 0 <= c < |hs| && y in hs[c]
        ensures y in reqs && reqs[y].ns == s <==> y in rs && rs[y].ns == s
      {
        assert InBucket(rs, |hs|, c, y);
      }
      CountHeadsSame(reqs, rs, hs, s);
    }
    CountUpdate(reqs, heads, b, Without(heads[b], x), ns);
    CountWithout(reqs, heads[b], x, ns);
  }

  /** Requests that wait come and go without the buckets. */
  lemma JoinWaiting(reqs: map<nat, Req>, heads: seq<seq<nat>>, waiting: seq<nat>, servers: seq<int>, x: nat, r: Req,
      rs: map<nat, Req>, front: bool)
    requires TablesOk(reqs, heads, waiting) && ServersOk(reqs, heads, servers) && x !in reqs && r.ns == -1
      && rs == reqs[x := r]
    ensures TablesOk(rs, heads, if front then [x] + waiting else waiting + [x]) && ServersOk(rs, heads, servers)
  {
    var ws := if front then [x] + waiting else waiting + [x];
    assert !IsWaiting(reqs, x);
    if front {
      assert ws[1..] == waiting;
    } else {
      NoDupSnoc(waiting, x);
    }
    forall c, y: nat | 0 <= c < |heads|
      ensures y in heads[c] <==> InBucket(rs, |heads|, c, y)
    {
      assert y in heads[c] <==> InBucket(reqs, |heads|, c, y);
    }
    forall y: nat
      ensures y in ws <==> IsWaiting(rs, y)
    {
      assert y in waiting <==> IsWaiting(reqs, y);
    }
    forall y, z | InFlight(rs, y) && InFlight(rs, z) && rs[y].transId == rs[z].transId
      ensures y == z
    {
      assert InFlight(reqs, y) && InFlight(reqs, z);
    }
    forall s | 0 <= s < |servers|
      ensures servers[s] == CountHeads(rs, heads, s)
    {
      ListedOnes(reqs, heads, waiting, x, rs, s);
    }
  }

  lemma LeaveWaiting(reqs: map<nat, Req>, heads: seq<seq<nat>>, waiting: seq<nat>, servers: seq<int>, x: nat,
      rs: map<nat, Req>)
    requires TablesOk(reqs, heads, waiting) && ServersOk(reqs, heads, servers) && IsWaiting(reqs, x) && rs == reqs - {x}
    ensures TablesOk(rs, heads, Without(waiting, x)) && ServersOk(rs, heads, servers)
    ensures |Without(waiting, x)| == |waiting| - 1
  {
    WithoutIs(waiting, x);
    forall c, y: nat | 0 <= c < |heads|
      ensures y in heads[c] <==> InBucket(rs, |heads|, c, y)
    {
      assert y in heads[c] <==> InBucket(reqs, |heads|, c, y);
    }
    forall y: nat
      ensures y in Without(waiting, x) <==> IsWaiting(rs, y)
    {
      assert y in waiting <==> IsWaiting(reqs, y);
    }
    forall y, z | InFlight(rs, y) && InFlight(rs, z) && rs[y].transId == rs[z].transId
      ensures y == z
    {
      assert InFlight(reqs, y) && InFlight(reqs, z);
    }
    forall s | 0 <= s < |servers|
      ensures servers[s] == CountHeads(rs, heads, s)
    {
      ListedOnes(reqs, heads, waiting, x, rs, s);
    }
  }

  /** The counts of the first n servers. */
  function SumTo(servers: seq<int>, n: nat): int
    requires n <= |servers|
  {
    if n == 0 then 0 else SumTo(servers, n - 1) + servers[n - 1]
  }

  function SumList(reqs: map<nat, Req>, l: seq<nat>, n: nat): nat {
    if n == 0 then 0 else SumList(reqs, l, n - 1) + CountList(reqs, l, n - 1)
  }

  /** Every request of the list is with one server. */
  lemma {:induction false} SumListIs(reqs: map<nat, Req>, l: seq<nat>, n: nat)
    requires forall x :: x in l ==> x in reqs && 0 <= reqs[x].ns < n
    ensures SumList(reqs, l, n) == |l|
  {
    if l == [] {
      SumNone(reqs, n);
    } else {
      SumListIs(reqs, l[1..], n);
      SumStep(reqs, l, n);
    }
  }

  lemma {:induction false} SumNone(reqs: map<nat, Req>, n: nat)
    ensures SumList(reqs, [], n) == 0
  {
    if n > 0 {
      SumNone(reqs, n - 1);
    }
  }

  lemma {:induction false} SumStep(reqs: map<nat, Req>, l: seq<nat>, n: nat)
    requires l != [] && l[0] in reqs && 0 <= reqs[l[0]].ns
    ensures SumList(reqs, l, n) == SumList(reqs, l[1..], n) + One(reqs[l[0]].ns < n)
  {
    if n > 0 {
      SumStep(reqs, l, n - 1);
    }
  }

  function SumHeads(reqs: map<nat, Req>, heads: seq<seq<nat>>, n: nat): nat {
    if n == 0 then 0 else SumHeads(reqs, heads, n - 1) + CountHeads(reqs, heads, n - 1)
  }

  lemma {:induction false} SumHeadsSplit(reqs: map<nat, Req>, heads: seq<seq<nat>>, n: nat)
    requires heads != []
    ensures SumHeads(reqs, heads, n) == SumList(reqs, heads[0], n) + SumHeads(reqs, heads[1..], n)
  {
    if n > 0 {
      SumHeadsSplit(reqs, heads, n - 1);
    }
  }

  lemma {:induction false} SumHeadsIs(reqs: map<nat, Req>, heads: seq<seq<nat>>, n: nat)
    requires forall b, x: nat :: 0 <= b < |heads| && x in heads[b] ==> x in reqs && 0 <= reqs[x].ns < n
    ensures SumHeads(reqs, heads, n) == Total(heads)
  {
    if heads == [] {
      SumNoHeads(reqs, n);
    } else {
      SumHeadsSplit(reqs, heads, n);
      SumListIs(reqs, heads[0], n);
      assert forall b, x: nat :: 0 <= b < |heads[1..]| && x in heads[1..][b] ==> x in heads[b + 1];
      SumHeadsIs(reqs, heads[1..], n);
    }
  }

  lemma {:induction false} SumNoHeads(reqs: map<nat, Req>, n: nat)
    ensures SumHeads(reqs, [], n) == 0
  {
    if n > 0 {
      SumNoHeads(reqs, n - 1);
    }
  }

  lemma {:induction false} SumServers(reqs: map<nat, Req>, heads: seq<seq<nat>>, servers: seq<int>, n: nat)
    requires ServersOk(reqs, heads, servers) && n <= |servers|
    ensures SumTo(servers, n) == SumHeads(reqs, heads, n)
  {
    if n > 0 {
      SumServers(reqs, heads, servers, n - 1);
    }
  }

  /** The servers' counts add up to the number of requests in flight. */
  lemma CountsAddUp(reqs: map<nat, Req>, heads: seq<seq<nat>>, waiting: seq<nat>, servers: seq<int>)
    requires TablesOk(reqs, heads, waiting) && ServersOk(reqs, heads, servers)
    ensures SumTo(servers, |servers|) == Total(heads)
  {
    SumServers(reqs, heads, servers, |servers|);
    forall b, x: nat | 0 <= b < |heads| && x in heads[b]
      ensures x in reqs && 0 <= reqs[x].ns < |servers|
    {
      assert InBucket(reqs, |heads|, b, x);
    }
    SumHeadsIs(reqs, heads, |servers|);
  }

  lemma {:induction false} CountSwap(reqs: map<nat, Req>, l: seq<nat>, x: nat, ns: int, s: int)
    requires NoDup(l) && x in reqs
    ensures CountList(reqs[x := reqs[x].(ns := ns)], l, s)
         == CountList(reqs, l, s) - One(x in l && reqs[x].ns == s) + One(x in l && ns == s)
  {
    if l != [] {
      CountSwap(reqs, l[1..], x, ns, s);
    }
  }

  lemma {:induction false} CountHeadsSwap(reqs: map<nat, Req>, heads: seq<seq<nat>>, x: nat, b: nat, ns: int, s: int)
    requires x in reqs && b < |heads| && forall c :: 0 <= c < |heads| ==> NoDup(heads[c]) && (x in heads[c] <==> c == b)
    ensures CountHeads(reqs[x := reqs[x].(ns := ns)], heads, s)
         == CountHeads(reqs, heads, s) - One(reqs[x].ns == s) + One(ns == s)
  {
    var rs := reqs[x := reqs[x].(ns := ns)];
    CountSwap(reqs, heads[0], x, ns, s);
    if b > 0 {
      CountHeadsSwap(reqs, heads[1..], x, b - 1, ns, s);
    } else {
      CountHeadsSame(reqs, rs, heads[1..], s);
    }
  }

  /** A request in flight changes its server. */
  lemma SwapServer(reqs: map<nat, Req>, heads: seq<seq<nat>>, waiting: seq<nat>, servers: seq<int>, x: nat, ns: int,
      rs: map<nat, Req>, ss: seq<int>)
    requires TablesOk(reqs, heads, waiting) && ServersOk(reqs, heads, servers) && InFlight(reqs, x)
    requires 0 <= ns < |servers| && ns != reqs[x].ns && rs == reqs[x := reqs[x].(ns := ns)]
    requires |ss| == |servers|
      && forall s :: 0 <= s < |ss| ==> ss[s] == servers[s] - One(reqs[x].ns == s) + One(ns == s)
    ensures TablesOk(rs, heads, waiting) && ServersOk(rs, heads, ss) && servers[reqs[x].ns] > 0
  {
    var b := reqs[x].transId % |heads|;
    forall c | 0 <= c < |heads|
      ensures x in heads[c] <==> c == b
    {
      assert x in heads[c] <==> InBucket(reqs, |heads|, c, x);
    }
    forall s | 0 <= s < |ss|
      ensures ss[s] == CountHeads(rs, heads, s)
    {
      CountHeadsSwap(reqs, heads, x, b, ns, s);
    }
    CountHeadsSwap(reqs, heads, x, b, ns, reqs[x].ns);
    forall c, y: nat | 0 <= c < |heads|
      ensures y in heads[c] <==> InBucket(rs, |heads|, c, y)
    {
      assert y in heads[c] <==> InBucket(reqs, |heads|, c, y);
    }
    forall y: nat
      ensures y in waiting <==> IsWaiting(rs, y)
    {
      assert y in waiting <==> IsWaiting(reqs, y);
    }
    forall y, z | InFlight(rs, y) && InFlight(rs, z) && rs[y].transId == rs[z].transId
      ensures y == z
    {
      assert InFlight(reqs, y) && InFlight(reqs, z);
    }
  }
}
