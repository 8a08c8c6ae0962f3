/** The token bucket of bufferevent_ratelim.c, in machine arithmetic. */
module TokenBuckets {
  import opened Basics

  const TWO_64: int := 0x1_0000_0000_0000_0000
  const SSIZE_MAX: int := 0x7fff_ffff_ffff_ffff
  const TWO_32: int := 0x1_0000_0000
  const INT_MAX: int := 0x7fff_ffff

  type ssize = x: int | -SSIZE_MAX - 1 <= x <= SSIZE_MAX
  type uint32 = x: int | 0 <= x < TWO_32

  /** One direction of struct ev_token_bucket_cfg, as ev_token_bucket_cfg_new allows it. */
  datatype Cfg = Cfg(rate: int, maximum: int) {
    predicate Ok() {
      1 <= rate <= maximum <= SSIZE_MAX
    }
  }

  /** ev_token_bucket_cfg_new; None is the refusal. */
  function NewCfg(rate: nat, burst: nat): (r: Option<Cfg>)
    ensures r.Some? <==> 1 <= rate <= burst && burst <= SSIZE_MAX
    ensures r.Some? ==> r.value.rate == rate && r.value.maximum == burst
  {
    if rate > burst || rate < 1 then None
    else if rate > SSIZE_MAX || burst > SSIZE_MAX then None
    else Some(Cfg(rate, burst))
  }

  /** Conversion from size_t to ssize_t. */
  function ToSigned(x: int): (r: ssize)
    ensures (x - r) % TWO_64 == 0
  {
    var y := x % TWO_64;
    if y > SSIZE_MAX then y - TWO_64 else y
  }

  function Min(a: int, b: int): int {
    if a < b then a else b
  }

  /** The ticks between two readings of the 32-bit tick counter; 0 when none count. */
  function Ticks(last: uint32, now: uint32): (n: int)
    ensures 0 <= n <= INT_MAX
  {
    var n := (now - last) % TWO_32;
    if n == 0 || n > INT_MAX then 0 else n
  }

  /** The refill of ev_token_bucket_update_ for n > 0 ticks. */
  function Refill(limit: ssize, cfg: Cfg, n: int): (r: ssize)
    requires cfg.Ok() && 0 < n <= INT_MAX
  {
    var room := (cfg.maximum - limit) % TWO_64;
    if room / n < cfg.rate then cfg.maximum else ToSigned(limit + n * cfg.rate)
  }

  /** The quotient test is a comparison without overflow. */
  lemma QuotientTest(room: int, n: int, rate: int)
    requires room >= 0 && n > 0
    ensures room / n < rate <==> room < n * rate
  {
    var q := room / n;
    assert room == q * n + room % n && 0 <= room % n < n;
    if q < rate {
      MulMono(q + 1, rate, n);
    } else {
      MulMono(rate, q, n);
    }
  }

  lemma MulMono(a: int, b: int, n: int)
    requires a <= b && n >= 0
    ensures a * n <= b * n
  {
  }

  /** The refill is the least of the maximum and what the ticks bring, exactly when the limit
      is within the maximum or the ticks bring more than the wrapped difference. */
  lemma RefillExact(limit: ssize, cfg: Cfg, n: int)
    requires cfg.Ok() && 0 < n <= INT_MAX
    ensures Refill(limit, cfg, n) == Min(cfg.maximum, limit + n * cfg.rate) <==>
      limit <= cfg.maximum || n * cfg.rate >= TWO_64 + cfg.maximum - limit
  {
    MulMono(0, n, cfg.rate);
    RefillCases(limit, cfg, n, n * cfg.rate);
    ExactBy(limit, cfg.maximum, n * cfg.rate);
  }

  lemma RefillCases(limit: ssize, cfg: Cfg, n: int, a: int)
    requires cfg.Ok() && 0 < n <= INT_MAX && a == n * cfg.rate
    ensures Refill(limit, cfg, n) == if (cfg.maximum - limit) % TWO_64 < a then cfg.maximum else ToSigned(limit + a)
  {
    QuotientTest((cfg.maximum - limit) % TWO_64, n, cfg.rate);
  }

  lemma ExactBy(limit: ssize, maximum: int, a: int)
    requires 1 <= maximum <= SSIZE_MAX && a >= 0
    ensures (if (maximum - limit) % TWO_64 < a then maximum else ToSigned(limit + a)) == Min(maximum, limit + a)
      <==> limit <= maximum || a >= TWO_64 + maximum - limit
  {
    if limit > maximum {
      assert (maximum - limit) % TWO_64 == TWO_64 + maximum - limit;
    } else {
      assert (maximum - limit) % TWO_64 == maximum - limit;
    }
  }

  /** A limit above the maximum may wrap around to nothing. */
  predicate Wraps(limit: ssize, cfg: Cfg, n: int) {
    limit > cfg.maximum && SSIZE_MAX < limit + n * cfg.rate <= TWO_64 && n * cfg.rate < TWO_64 + cfg.maximum - limit
  }

  /** A refill takes away what is there exactly when it wraps around. */
  lemma RefillLoses(limit: ssize, cfg: Cfg, n: int)
    requires cfg.Ok() && 0 < n <= INT_MAX && limit > 0
    ensures Refill(limit, cfg, n) <= 0 <==> Wraps(limit, cfg, n)
  {
    MulMono(1, n, cfg.rate);
    RefillCases(limit, cfg, n, n * cfg.rate);
    LosesBy(limit, cfg.maximum, n * cfg.rate);
  }

  lemma LosesBy(limit: ssize, maximum: int, a: int)
    requires 1 <= maximum <= SSIZE_MAX && limit > 0 && a > 0
    ensures (if (maximum - limit) % TWO_64 < a then maximum else ToSigned(limit + a)) <= 0
      <==> limit > maximum && SSIZE_MAX < limit + a <= TWO_64 && a < TWO_64 + maximum - limit
  {
  }

  /** The smallest limit that the refill gets wrong. */
  lemma RefillAboveMaximum()
    ensures Refill(101, Cfg(1, 100), 1) == 102 && Min(100, 101 + 1) == 100
  {
  }

  /** One refill or two: the same. */
  lemma RefillComposes(limit: ssize, cfg: Cfg, n: int, m: int)
    requires cfg.Ok() && 0 < n && 0 < m && n + m <= INT_MAX && limit <= cfg.maximum
    ensures Refill(Refill(limit, cfg, n), cfg, m) == Refill(limit, cfg, n + m)
  {
    RefillBy(limit, cfg, n, n * cfg.rate);
    RefillBy(Refill(limit, cfg, n), cfg, m, m * cfg.rate);
    Distribute(n, m, cfg.rate);
    RefillBy(limit, cfg, n + m, n * cfg.rate + m * cfg.rate);
  }

  lemma RefillBy(limit: ssize, cfg: Cfg, n: int, a: int)
    requires cfg.Ok() && 0 < n <= INT_MAX && limit <= cfg.maximum && a == n * cfg.rate
    ensures Refill(limit, cfg, n) == Min(cfg.maximum, limit + a) && a > 0
  {
    RefillExact(limit, cfg, n);
    MulMono(1, n, cfg.rate);
  }

  lemma Distribute(n: int, m: int, rate: int)
    ensures (n + m) * rate == n * rate + m * rate
  {
  }

  /** The number of ticks survives the wrap of the counter. */
  lemma TicksWrap(t0: nat, t1: nat)
    requires t0 <= t1 <= t0 + INT_MAX
    ensures Ticks(t0 % TWO_32, t1 % TWO_32) == t1 - t0
  {
  }

  /** A clock that stands still or goes back lets no ticks pass. */
  lemma TicksBack(t0: nat, t1: nat)
    requires t1 <= t0 <= t1 + INT_MAX
    ensures Ticks(t0 % TWO_32, t1 % TWO_32) == 0
  {
    var d := t0 - t1;
    assert (t1 % TWO_32 - t0 % TWO_32) % TWO_32 == (0 - d) % TWO_32;
  }

  /** What happens to a bucket: ticks pass and it is refilled, or bytes are used. */
  datatype Step = Pass(ticks: int) | Use(bytes: nat)

  predicate StepsOk(steps: seq<Step>) {
    forall i :: 0 <= i < |steps| && steps[i].Pass? ==> 0 <= steps[i].ticks <= INT_MAX
  }

  /** The limit after the steps; use does not overflow as long as what is used fits. */
  function After(limit: int, cfg: Cfg, steps: seq<Step>): int
    requires cfg.Ok() && StepsOk(steps)
  {
    if steps == [] then limit else
    var l := After(limit, cfg, steps[..|steps| - 1]);
    match steps[|steps| - 1]
    case Use(bytes) => l - bytes
    case Pass(n) => if n == 0 || l < -SSIZE_MAX - 1 || l > SSIZE_MAX then l else Refill(l, cfg, n)
  }

  function Used(steps: seq<Step>): nat {
    if steps == [] then 0
      else Used(steps[..|steps| - 1]) + if steps[|steps| - 1].Use? then steps[|steps| - 1].bytes else 0
  }

  function Elapsed(steps: seq<Step>): int {
    if steps == [] then 0
      else Elapsed(steps[..|steps| - 1]) + if steps[|steps| - 1].Pass? then steps[|steps| - 1].ticks else 0
  }

  /** Over any run the limit stays within the maximum, and no more is used than was there at
      the start and has been earned since, less what is there in the end. */
  lemma {:induction false} Bandwidth(limit: int, cfg: Cfg, steps: seq<Step>)
    requires cfg.Ok() && StepsOk(steps) && limit <= cfg.maximum
    ensures After(limit, cfg, steps) <= cfg.maximum
    ensures Used(steps) <= limit + Elapsed(steps) * cfg.rate - After(limit, cfg, steps)
    decreases |steps|
  {
    if steps != [] {
      var front, last := steps[..|steps| - 1], steps[|steps| - 1];
      Bandwidth(limit, cfg, front);
      if last.Pass? {
        var l, e := After(limit, cfg, front), Elapsed(front);
        PassStep(l, cfg, last.ticks, After(limit, cfg, steps));
        Distribute(e, last.ticks, cfg.rate);
        assert Elapsed(steps) == e + last.ticks;
      }
    }
  }

  /** What the passing of ticks can bring. */
  lemma PassStep(l: int, cfg: Cfg, n: int, after: int)
    requires cfg.Ok() && 0 <= n <= INT_MAX && l <= cfg.maximum
    requires after == if n == 0 || l < -SSIZE_MAX - 1 || l > SSIZE_MAX then l else Refill(l, cfg, n)
    ensures after <= cfg.maximum && after <= l + n * cfg.rate
  {
    MulMono(0, n, cfg.rate);
    if n != 0 && -SSIZE_MAX - 1 <= l {
      RefillExact(l, cfg, n);
    }
  }

  /** What bufferevent_get_rlim_max_ allows when a bucket has this limit. */
  function Allowance(limit: int): nat {
    if limit < 0 then 0 else limit
  }

  /** Every use is within what was allowed just before it. */
  predicate Clamped(limit: int, cfg: Cfg, steps: seq<Step>)
    requires cfg.Ok() && StepsOk(steps)
  {
    forall i :: 0 <= i < |steps| && steps[i].Use? ==> steps[i].bytes <= Allowance(After(limit, cfg, steps[..i]))
  }

  /** Clamped use never drives a bucket below zero, and leaves a deficit no worse. */
  lemma {:induction false} NeverNegative(limit: int, cfg: Cfg, steps: seq<Step>)
    requires cfg.Ok() && StepsOk(steps) && limit <= cfg.maximum && Clamped(limit, cfg, steps)
    ensures After(limit, cfg, steps) >= Min(limit, 0)
    decreases |steps|
  {
    if steps != [] {
      var front, last := steps[..|steps| - 1], steps[|steps| - 1];
      forall i | 0 <= i < |front| && front[i].Use?
        ensures front[i].bytes <= Allowance(After(limit, cfg, front[..i]))
      {
        assert front[..i] == steps[..i] && steps[i].Use?;
      }
      NeverNegative(limit, cfg, front);
      Bandwidth(limit, cfg, front);
      var l := After(limit, cfg, front);
      if last.Pass? {
        if last.ticks > 0 && -SSIZE_MAX - 1 <= l {
          RefillExact(l, cfg, last.ticks);
          MulMono(0, last.ticks, cfg.rate);
        }
      } else {
        assert steps[|steps| - 1].Use? && steps[..|steps| - 1] == front;
      }
    }
  }

  /** How far a bucket in deficit is from having something: exactly one tick more than the
      deficit covers whole rates. */
  lemma DeficitTicks(limit: ssize, cfg: Cfg, n: int)
    requires cfg.Ok() && limit <= 0 && 0 < n <= INT_MAX
    ensures Refill(limit, cfg, n) > 0 <==> n > (0 - limit as int) / cfg.rate
  {
    RefillExact(limit, cfg, n);
    var d: int := 0 - limit as int;
    var q := d / cfg.rate;
    assert d == q * cfg.rate + d % cfg.rate;
    if n > q {
      MulMono(q + 1, n, cfg.rate);
    } else {
      MulMono(n, q, cfg.rate);
    }
  }

  /** struct ev_token_bucket with both directions. */
  class Bucket {
    var readLimit: ssize
    var writeLimit: ssize
    var lastUpdated: uint32

    /** ev_token_bucket_init_ without reinitialize */
    constructor (read: Cfg, write: Cfg, tick: uint32)
      requires read.Ok() && write.Ok()
      ensures readLimit == read.rate && writeLimit == write.rate && lastUpdated == tick
    {
      readLimit, writeLimit, lastUpdated := read.rate, write.rate, tick;
    }

    /** ev_token_bucket_init_ with reinitialize */
    method Reinit(read: Cfg, write: Cfg)
      requires read.Ok() && write.Ok()
      modifies this
      ensures readLimit == Min(old(readLimit), read.maximum) && writeLimit == Min(old(writeLimit), write.maximum)
      ensures lastUpdated == old(lastUpdated)
    {
      if readLimit > read.maximum {
        readLimit := read.maximum;
      }
      if writeLimit > write.maximum {
        writeLimit := write.maximum;
      }
    }

    /** ev_token_bucket_update_ */
    method Update(read: Cfg, write: Cfg, tick: uint32) returns (r: int)
      requires read.Ok() && write.Ok()
      modifies this
      ensures var n := Ticks(old(lastUpdated), tick);
        && r == (if n == 0 then 0 else 1)
        && (old(readLimit) <= read.maximum ==> readLimit == Min(read.maximum, old(readLimit) + n * read.rate))
        && (old(writeLimit) <= write.maximum ==> writeLimit == Min(write.maximum, old(writeLimit) + n * write.rate))
        && readLimit == (if n == 0 then old(readLimit) else Refill(old(readLimit), read, n))
        && writeLimit == (if n == 0 then old(writeLimit) else Refill(old(writeLimit), write, n))
        && lastUpdated == (if n == 0 then old(lastUpdated) else tick)
    {
      var n := (tick - lastUpdated) % TWO_32;
      if n == 0 || n > INT_MAX {
        return 0;
      }
      RefillExact(readLimit, read, n);
      RefillExact(writeLimit, write, n);
      if ((read.maximum - readLimit) % TWO_64) / n < read.rate {
        readLimit := read.maximum;
      } else {
        readLimit := ToSigned(readLimit + n * read.rate);
      }
      if ((write.maximum - writeLimit) % TWO_64) / n < write.rate {
        writeLimit := write.maximum;
      } else {
        writeLimit := ToSigned(writeLimit + n * write.rate);
      }
      lastUpdated := tick;
      r := 1;
    }
  }
}
