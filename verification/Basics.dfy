/** What several modules share. */
module Basics {

  datatype Option<T> = None | Some(value: T)

  predicate NoDup(s: seq<nat>) {
    s == [] || (s[0] !in s[1..] && NoDup(s[1..]))
  }

  /** LIST_REMOVE and TAILQ_REMOVE */
  function Without(s: seq<nat>, x: nat): seq<nat> {
    if s == [] then [] else if s[0] == x then s[1..] else [s[0]] + Without(s[1..], x)
  }

  lemma {:induction false} WithoutIs(s: seq<nat>, x: nat)
    requires NoDup(s) && x in s
    ensures NoDup(Without(s, x)) && |Without(s, x)| == |s| - 1
    ensures forall y :: y in Without(s, x) <==> y in s && y != x
  {
    if s[0] != x {
      WithoutIs(s[1..], x);
      assert ([s[0]] + Without(s[1..], x))[1..] == Without(s[1..], x);
    }
  }

  /** The first x leaves, and the others stay in their order. */
  lemma {:induction false} WithoutOrder(s: seq<nat>, x: nat) returns (k: nat)
    requires x in s
    ensures k < |s| && s[k] == x && x !in s[..k] && Without(s, x) == s[..k] + s[k + 1..]
  {
    k := 0;
    if s[0] != x {
      k := WithoutOrder(s[1..], x);
      assert s[..k + 1] == [s[0]] + s[1..][..k];
      k := k + 1;
    }
  }

  lemma {:induction false} WithoutAbsent(s: seq<nat>, x: nat)
    requires x !in s
    ensures Without(s, x) == s
  {
    if s != [] {
      WithoutAbsent(s[1..], x);
    }
  }

  lemma {:induction false} NoDupSnoc(s: seq<nat>, x: nat)
    requires NoDup(s) && x !in s
    ensures NoDup(s + [x]) && forall y :: y in s + [x] <==> y in s || y == x
  {
    if s != [] {
      NoDupSnoc(s[1..], x);
      assert (s + [x])[1..] == s[1..] + [x];
    } else {
      assert [] + [x] == [x];
    }
  }

  /** The element at position i does not occur before. */
  lemma {:induction false} NoDupAt(es: seq<nat>, i: nat)
    requires NoDup(es) && i < |es|
    ensures es[i] !in es[..i]
  {
    if i > 0 {
      NoDupAt(es[1..], i - 1);
      assert es[..i] == [es[0]] + es[1..][..i - 1];
      assert es[i] in es[1..];
    }
  }

  /** The elements of a list. */
  function Elems(l: seq<nat>): (r: set<nat>)
    ensures |r| <= |l| && (NoDup(l) ==> |r| == |l|)
    ensures forall x: nat :: x in r <==> x in l
  {
    if l == [] then {} else {l[0]} + Elems(l[1..])
  }

  function UpTo(n: nat): (r: set<nat>)
    ensures |r| == n && forall x: nat :: x in r <==> x < n
  {
    if n == 0 then {} else UpTo(n - 1) + {n - 1}
  }

  lemma {:induction false} SubsetSize(a: set<nat>, b: set<nat>)
    requires a <= b
    ensures |a| <= |b|
  {
    if a != {} {
      var x :| x in a;
      SubsetSize(a - {x}, b - {x});
    }
  }

  /** The length of several lists together. */
  function Total(queues: seq<seq<nat>>): nat {
    if queues == [] then 0 else |queues[0]| + Total(queues[1..])
  }

  lemma {:induction false} TotalUpdate(queues: seq<seq<nat>>, p: nat, q: seq<nat>)
    requires p < |queues|
    ensures Total(queues[p := q]) == Total(queues) - |queues[p]| + |q|
  {
    if p > 0 {
      TotalUpdate(queues[1..], p - 1, q);
      assert queues[p := q][1..] == queues[1..][p - 1 := q];
    } else {
      assert queues[0 := q][1..] == queues[1..];
    }
  }

  /** Only the last of two updates at one place is left. */
  lemma UpdateTwice<T>(s: seq<T>, x: nat, a: T, b: T)
    requires x < |s|
    ensures s[x := a][x := b] == s[x := b]
  {
  }

  /** Quotient and remainder are unique. */
  lemma Unique(d: nat, q: int, r: nat, p: int, t: nat)
    requires r < d && t < d && d * q + r == d * p + t
    ensures q == p && r == t
  {
    if q > p {
      Apart(d, q, p);
    } else if q < p {
      Apart(d, p, q);
    }
  }

  lemma Apart(d: nat, q: int, p: int)
    requires q > p
    ensures d * q >= d * p + d
  {
    assert d * (q - p - 1) >= 0;
    assert d * q == d * (q - p - 1) + d * p + d;
  }

  lemma RemainderIs(x: nat, d: nat, q: int, r: nat)
    requires r < d && x == d * q + r
    ensures x % d == r && x / d == q
  {
    Unique(d, q, r, x / d, x % d);
  }

  lemma Below(x: nat, b: nat, c: nat, y: nat)
    requires x < c && y < b
    ensures x * b + y < c * b
  {
    assert (x + 1) * b <= c * b;
  }

  lemma Assemble(n: nat, m: nat, b: nat, c: nat, q: nat, x: nat, y: nat)
    requires n == b * m + y && m == c * q + x
    ensures n == (c * b) * q + (x * b + y)
  {
    assert b * (c * q + x) == b * (c * q) + b * x;
    assert b * (c * q) == (c * b) * q;
  }

  /** Dividing by b and by c is dividing by both, and these are the low digits. */
  lemma DivTwice(n: nat, b: nat, c: nat)
    requires b > 0 && c > 0
    ensures c * b > 0 && n / b / c == n / (c * b) && n / b % c * b + n % b == n % (c * b)
  {
    var m := n / b;
    var q, x, y := m / c, m % c, n % b;
    Below(x, b, c, y);
    Assemble(n, m, b, c, q, x, y);
    RemainderIs(n, c * b, q, x * b + y);
  }

  function Pow2(k: nat): nat {
    if k == 0 then 1 else 2 * Pow2(k - 1)
  }

  /** Conversion to int: the 32-bit signed number that leaves the same remainder. */
  function ToInt(n: nat): (r: int)
    ensures -0x8000_0000 <= r < 0x8000_0000 && (n - r) % 0x1_0000_0000 == 0
  {
    var low := n % 0x1_0000_0000;
    if low < 0x8000_0000 then low else low - 0x1_0000_0000
  }
}
