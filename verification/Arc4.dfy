/** The generator of arc4random.c: its state stays a permutation, no step loses information,
    what mixing in a key loses, and that arc4random_uniform has no modulo bias. */
module Arc4 {
  import opened Basics

  const TWO_32: nat := 0x1_0000_0000

  ghost predicate Distinct(s: seq<nat>) {
    forall k, l :: 0 <= k < l < |s| ==> s[k] != s[l]
  }

  lemma {:induction false} DistinctIsNoDup(s: seq<nat>)
    requires Distinct(s)
    ensures NoDup(s)
  {
    if s != [] {
      DistinctIsNoDup(s[1..]);
    }
  }

  /** struct arc4_stream */
  datatype State = State(s: seq<nat>, i: nat, j: nat) {
    ghost predicate Ok() {
      && |s| == 256 && i < 256 && j < 256 && Distinct(s)
      && forall k :: 0 <= k < 256 ==> s[k] < 256
    }
  }

  function Exchange(s: seq<nat>, a: nat, b: nat): seq<nat>
    requires a < |s| && b < |s|
  {
    s[a := s[b]][b := s[a]]
  }

  /** Places a and b of s have been exchanged, and nothing else. */
  ghost predicate Exchanged(s: seq<nat>, a: nat, b: nat, r: seq<nat>)
    requires a < |s| && b < |s|
  {
    |r| == |s| && r[a] == s[b] && r[b] == s[a] && forall k :: 0 <= k < |s| && k != a && k != b ==> r[k] == s[k]
  }

  lemma ExchangeKeeps(s: seq<nat>, a: nat, b: nat)
    requires a < |s| && b < |s| && Distinct(s)
    ensures Distinct(Exchange(s, a, b)) && Exchange(Exchange(s, a, b), a, b) == s
  {
  }

  /** Bytes wrap around. */
  function Wrap(x: int): (r: nat)
    ensures r < 256
  {
    x % 256
  }

  lemma WrapIs(x: int, q: int, r: nat)
    requires r < 256 && x == 256 * q + r
    ensures Wrap(x) == r
  {
  }

  lemma WrapBack(j: nat, x: int)
    requires j < 256
    ensures Wrap(Wrap(j + x) - x) == j && Wrap(Wrap(j - x) + x) == j
  {
    WrapIs(Wrap(j + x) - x, -((j + x) / 256), j);
    WrapIs(Wrap(j - x) + x, -((j - x) / 256), j);
  }

  lemma WrapNext(x: int)
    ensures Wrap(Wrap(x - 1) + 1) == Wrap(x)
  {
    WrapIs(Wrap(x - 1) + 1, x / 256 - (x - 1) / 256, Wrap(x));
  }

  /** The move that both mixing in a key byte and drawing a byte consist of. */
  function Step(st: State, add: nat): (r: State)
    requires st.Ok()
    ensures r.Ok()
  {
    var i := Wrap(st.i + 1);
    var j := Wrap(st.j + (st.s[i] + add));
    ExchangeKeeps(st.s, i, j);
    State(Exchange(st.s, i, j), i, j)
  }

  /** What a step does, in plain arithmetic. */
  lemma StepIs(st: State, add: nat, r: State)
    requires st.Ok() && r == Step(st, add)
    ensures r.i == (st.i + 1) % 256 && r.j == (st.j + st.s[r.i] + add) % 256 && Exchanged(st.s, r.i, r.j, r.s)
  {
  }

  function StepBack(st: State, add: nat): (r: State)
    requires st.Ok()
    ensures r.Ok()
  {
    ExchangeKeeps(st.s, st.i, st.j);
    var s := Exchange(st.s, st.i, st.j);
    State(s, Wrap(st.i - 1), Wrap(st.j - (s[st.i] + add)))
  }

  lemma StepIndex(st: State, add: nat, x: int)
    requires st.Ok() && st.i == Wrap(x - 1)
    ensures Step(st, add).i == Wrap(x)
  {
    WrapNext(x);
  }

  /** Every step is a bijection on the states. */
  lemma StepIsBijective(st: State, add: nat)
    requires st.Ok()
    ensures StepBack(Step(st, add), add) == st && Step(StepBack(st, add), add) == st
  {
    BackOfStep(st, add, Step(st, add));
    StepOfBack(st, add, StepBack(st, add));
  }

  lemma BackOfStep(st: State, add: nat, r: State)
    requires st.Ok() && r == Step(st, add)
    ensures StepBack(r, add) == st
  {
    ExchangeKeeps(st.s, r.i, r.j);
    WrapBack(st.i, 1);
    WrapBack(st.j, st.s[r.i] + add);
    assert StepBack(r, add).s == st.s;
  }

  lemma StepOfBack(st: State, add: nat, q: State)
    requires st.Ok() && q == StepBack(st, add)
    ensures Step(q, add) == st
  {
    ExchangeKeeps(st.s, st.i, st.j);
    WrapBack(st.i, 1);
    WrapBack(st.j, q.s[st.i] + add);
    assert Step(q, add).s == st.s;
  }

  /** The first n rounds of arc4_addrandom, with these key bytes. */
  function Mix(st: State, key: seq<nat>, n: nat): (r: State)
    requires st.Ok() && n <= |key|
    ensures r.Ok()
  {
    if n == 0 then st else Step(Mix(st, key, n - 1), key[n - 1])
  }

  /** The rounds with the same key never make two states one. */
  lemma {:induction false} MixIsInjective(a: State, b: State, key: seq<nat>, n: nat)
    requires a.Ok() && b.Ok() && n <= |key|
    ensures Mix(a, key, n) == Mix(b, key, n) <==> a == b
  {
    if n > 0 {
      MixIsInjective(a, b, key, n - 1);
      StepIsBijective(Mix(a, key, n - 1), key[n - 1]);
      StepIsBijective(Mix(b, key, n - 1), key[n - 1]);
    }
  }

  lemma {:induction false} MixIndex(st: State, key: seq<nat>, n: nat)
    requires st.Ok() && n <= |key|
    ensures Mix(st, key, n).i == Wrap(st.i + n)
  {
    if n > 0 {
      MixIndex(st, key, n - 1);
      StepIndex(Mix(st, key, n - 1), key[n - 1], st.i + n);
    }
  }

  /** The bytes of dat, over and over. */
  function KeyOf(dat: seq<nat>): (r: seq<nat>)
    requires dat != []
    ensures |r| == 256 && forall n :: 0 <= n < 256 ==> r[n] == dat[n % |dat|]
  {
    seq(256, n requires 0 <= n => dat[n % |dat|])
  }

  /** The state at the end of the loop of arc4_addrandom. */
  function Mixed(st: State, dat: seq<nat>): (r: State)
    requires st.Ok() && dat != []
    ensures r.Ok()
  {
    Mix(st.(i := Wrap(st.i - 1)), KeyOf(dat), 256)
  }

  /** And after it, where j is overwritten with i. */
  function Added(st: State, dat: seq<nat>): (r: State)
    requires st.Ok() && dat != []
    ensures r.Ok()
  {
    Mixed(st, dat).(j := Mixed(st, dat).i)
  }

  lemma MixedIsInjective(a: State, b: State, dat: seq<nat>)
    requires a.Ok() && b.Ok() && dat != [] && Mixed(a, dat) == Mixed(b, dat)
    ensures a == b
  {
    MixIsInjective(a.(i := Wrap(a.i - 1)), b.(i := Wrap(b.i - 1)), KeyOf(dat), 256);
    WrapBack(a.i, 1);
    WrapBack(b.i, 1);
  }

  lemma {:induction false} MixIsOnto(r: State, key: seq<nat>, n: nat) returns (st: State)
    requires r.Ok() && n <= |key|
    ensures st.Ok() && Mix(st, key, n) == r
    decreases n
  {
    st := r;
    if n > 0 {
      var q := StepBack(r, key[n - 1]);
      st := MixIsOnto(q, key, n - 1);
      StepOfBack(r, key[n - 1], q);
    }
  }

  lemma MixedIsOnto(r: State, dat: seq<nat>) returns (b: State)
    requires r.Ok() && dat != []
    ensures b.Ok() && Mixed(b, dat) == r
  {
    var st := MixIsOnto(r, KeyOf(dat), 256);
    b := Forward(st);
  }

  lemma Forward(st: State) returns (b: State)
    requires st.Ok()
    ensures b.Ok() && b.(i := Wrap(b.i - 1)) == st
  {
    b := st.(i := Wrap(st.i + 1));
    WrapBack(st.i, 1);
  }

  /** What arc4_addrandom leaves behind, and the j that it overwrites, tell which state it was. */
  lemma AddLosesOnlyJ(a: State, b: State, dat: seq<nat>)
    requires a.Ok() && b.Ok() && dat != []
    ensures Added(a, dat) == Added(b, dat) && Mixed(a, dat).j == Mixed(b, dat).j <==> a == b
  {
    if Mixed(a, dat) == Mixed(b, dat) {
      MixedIsInjective(a, b, dat);
    }
  }

  /** Every j may have been overwritten: 256 states are made one. */
  lemma AddMerges(a: State, dat: seq<nat>, j: nat) returns (b: State)
    requires a.Ok() && dat != [] && j < 256
    ensures b.Ok() && Added(b, dat) == Added(a, dat) && Mixed(b, dat).j == j
  {
    b := MixedIsOnto(Mixed(a, dat).(j := j), dat);
  }

  lemma AddedIs(st: State, dat: seq<nat>, first: State, last: State)
    requires st.Ok() && dat != [] && first == st.(i := Wrap(st.i - 1)) && last == Mix(first, KeyOf(dat), 256)
    ensures Added(st, dat) == last.(j := last.i)
  {
  }

  /** A state holds every byte value. */
  lemma EveryByte(st: State, v: nat)
    requires st.Ok() && v < 256
    ensures v in st.s
  {
    DistinctIsNoDup(st.s);
    Fills(st.s, 256, v);
  }

  /** n different numbers below n are all there are. */
  lemma Fills(s: seq<nat>, n: nat, v: nat)
    requires |s| == n && NoDup(s) && v < n && forall k :: 0 <= k < n ==> s[k] < n
    ensures v in s
  {
    if v !in s {
      SubsetSize(Elems(s), UpTo(n) - {v});
    }
  }

  class Stream {
    const s: array<nat>
    var i: nat
    var j: nat

    ghost function Now(): State
      reads this, s
    {
      State(s[..], i, j)
    }

    ghost predicate Valid()
      reads this, s
    {
      Now().Ok()
    }

    /** arc4_init */
    constructor ()
      ensures Valid() && fresh(s) && Now() == State(seq(256, k => k), 0, 0)
    {
      s, i, j := new nat[256], 0, 0;
      new;
      for n := 0 to 256
        invariant forall k :: 0 <= k < n ==> s[k] == k
        invariant i == j == 0
      {
        s[n] := n;
      }
      assert s[..] == seq(256, k => k);
    }

    /** One round of arc4_addrandom. */
    method Round(k: nat)
      requires Valid()
      modifies this, s
      ensures Valid() && Now() == Step(old(Now()), k)
      ensures i == (old(i) + 1) % 256 && j == (old(j) + old(s[..])[i] + k) % 256
      ensures Exchanged(old(s[..]), i, j, s[..])
    {
      ghost var was := Now();
      i := Wrap(i + 1);
      var si := s[i];
      j := Wrap(j + (si + k));
      s[i] := s[j];
      s[j] := si;
      assert s[..] == Exchange(was.s, i, j);
      StepIs(was, k, Now());
    }

    /** arc4_addrandom */
    method AddRandom(dat: seq<nat>)
      requires Valid() && dat != []
      modifies this, s
      ensures Valid() && i == j == (old(i) + 255) % 256
      ensures Now() == Added(old(Now()), dat)
    {
      ghost var was := Now();
      i := Wrap(i - 1);
      ghost var first, key := Now(), KeyOf(dat);
      for n := 0 to 256
        invariant Valid() && Now() == Mix(first, key, n)
      {
        var k := dat[n % |dat|];
        assert k == key[n];
        Round(k);
      }
      MixIndex(first, key, 256);
      AddedIs(was, dat, first, Now());
      WrapIs(old(i) - 1, if old(i) == 0 then -1 else 0, (old(i) + 255) % 256);
      j := i;
    }

    /** arc4_getbyte */
    method GetByte() returns (b: nat)
      requires Valid()
      modifies this, s
      ensures Valid() && Now() == Step(old(Now()), 0) && b < 256
      ensures i == (old(i) + 1) % 256 && j == (old(j) + old(s[..])[i]) % 256
      ensures Exchanged(old(s[..]), i, j, s[..]) && b == s[(s[i] + s[j]) % 256]
    {
      ghost var was := Now();
      i := Wrap(i + 1);
      var si := s[i];
      j := Wrap(j + si);
      var sj := s[j];
      s[i] := sj;
      s[j] := si;
      assert s[..] == Exchange(was.s, i, j);
      assert Now() == Step(was, 0);
      StepIs(was, 0, Now());
      b := s[Wrap(si + sj)];
    }
  }

  /** 32-bit unsigned arithmetic. */
  function U32(x: int): (r: nat)
    ensures r < TWO_32
  {
    x % TWO_32
  }

  /** The least draw that arc4random_uniform accepts, as computed without 64-bit arithmetic. */
  function Least(bound: nat): nat
    requires 2 <= bound < TWO_32
  {
    if bound > 0x80000000 then U32(1 + (TWO_32 - 1 - bound)) else U32(TWO_32 - 1 - U32(bound * 2) + 1) % bound
  }

  /** It is what the 64-bit expression says, and rejects less than half of the draws. */
  lemma LeastIsRemainder(bound: nat)
    requires 2 <= bound < TWO_32
    ensures Least(bound) == TWO_32 % bound < 0x80000000
  {
    if bound > 0x80000000 {
      RemainderIs(TWO_32, bound, 1, TWO_32 - bound);
    } else if bound < 0x80000000 {
      var rest := TWO_32 - bound * 2;
      assert rest == bound * (rest / bound) + rest % bound;
      RemainderIs(TWO_32, bound, rest / bound + 2, rest % bound);
    }
  }

  /** How many of the n draws from low on leave remainder v. */
  function Hits(low: nat, n: nat, bound: nat, v: nat): nat
    requires bound > 0
  {
    if n == 0 then 0 else Hits(low, n - 1, bound, v) + (if (low + n - 1) % bound == v then 1 else 0)
  }

  /** Of bound draws in a row, exactly one leaves remainder v. */
  lemma {:induction false} OneHit(low: nat, n: nat, bound: nat, v: nat, at: nat)
    requires v < bound && n <= bound && at < bound && (low + at) % bound == v
    ensures Hits(low, n, bound, v) == if at < n then 1 else 0
  {
    if n > 0 {
      OneHit(low, n - 1, bound, v, at);
      if (low + n - 1) % bound == v {
        SameRemainder(low, n - 1, at, bound);
      }
    }
  }

  lemma SameRemainder(low: nat, a: nat, b: nat, bound: nat)
    requires a < bound && b < bound && (low + a) % bound == (low + b) % bound
    ensures a == b
  {
    var p, q, r := (low + a) / bound, (low + b) / bound, (low + a) % bound;
    assert low + a == bound * p + r && low + b == bound * q + r;
    if a < b {
      Unique(bound, p, b - a, q, 0);
    } else if b < a {
      Unique(bound, q, a - b, p, 0);
    }
  }

  lemma Where(low: nat, bound: nat, v: nat) returns (at: nat)
    requires v < bound
    ensures at < bound && (low + at) % bound == v
  {
    var r := low % bound;
    at := if r <= v then v - r else v - r + bound;
    var q := low / bound + if r <= v then 0 else 1;
    assert low == bound * (low / bound) + r;
    RemainderIs(low + at, bound, q, v);
  }

  lemma {:induction false} HitsSplit(low: nat, m: nat, n: nat, bound: nat, v: nat)
    requires bound > 0
    ensures Hits(low, m + n, bound, v) == Hits(low, m, bound, v) + Hits(low + m, n, bound, v)
  {
    if n > 0 {
      HitsSplit(low, m, n - 1, bound, v);
    }
  }

  lemma OneLess(blocks: nat, bound: nat)
    ensures (blocks - 1) * bound == blocks * bound - bound
  {
  }

  lemma {:induction false} BlocksHit(low: nat, blocks: nat, n: nat, bound: nat, v: nat)
    requires v < bound && n == blocks * bound
    ensures Hits(low, n, bound, v) == blocks
  {
    if blocks > 0 {
      OneLess(blocks, bound);
      BlocksHit(low, blocks - 1, n - bound, bound, v);
      HitsSplit(low, n - bound, bound, bound, v);
      var at := Where(low + (n - bound), bound, v);
      OneHit(low + (n - bound), bound, bound, v, at);
    }
  }

  /** No result is more likely than another: each has the same number of accepted draws. */
  lemma NoBias(bound: nat, v: nat)
    requires 2 <= bound < TWO_32 && v < bound
    ensures Hits(Least(bound), TWO_32 - Least(bound), bound, v) == TWO_32 / bound
  {
    LeastIsRemainder(bound);
    var q := TWO_32 / bound;
    assert TWO_32 - Least(bound) == q * bound;
    BlocksHit(Least(bound), q, TWO_32 - Least(bound), bound, v);
  }

  /** arc4random_uniform on the draws it is given: the first accepted one, reduced; nothing
      while all of them are rejected. */
  method Uniform(bound: nat, draws: seq<nat>) returns (r: Option<nat>)
    requires bound < TWO_32 && forall k :: 0 <= k < |draws| ==> draws[k] < TWO_32
    ensures bound < 2 ==> r == Some(0)
    ensures bound >= 2 && r.Some? ==>
      exists k ::
        0 <= k < |draws| && draws[k] >= TWO_32 % bound && r.value == draws[k] % bound
        && forall l :: 0 <= l < k ==> draws[l] < TWO_32 % bound
    ensures bound >= 2 && r.None? ==> forall k :: 0 <= k < |draws| ==> draws[k] < TWO_32 % bound
  {
    if bound < 2 {
      return Some(0);
    }
    var min := Least(bound);
    LeastIsRemainder(bound);
    for n := 0 to |draws|
      invariant forall k :: 0 <= k < n ==> draws[k] < min
    {
      if draws[n] >= min {
        return Some(draws[n] % bound);
      }
    }
    r := None;
  }
}
