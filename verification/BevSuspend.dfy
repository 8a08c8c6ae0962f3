/** Suspending and rate-limiting one bufferevent (bufferevent.c, bufferevent_ratelim.c). */
module BevSuspend {
  import opened Basics
  import opened TokenBuckets

  /** BEV_SUSPEND_* */
  datatype Reason = WM | BW | BW_GROUP | LOOKUP | FILT_READ

  /** What concerns reading, or writing. */
  datatype Side = Side(enabled: bool, suspended: set<Reason>, armed: bool, limit: ssize) {
    /** The backend waits for the descriptor exactly when the user wants it and nothing is
        in the way. */
    predicate Armed() {
      armed == (enabled && suspended == {})
    }

    /** bufferevent_suspend_read_ and bufferevent_suspend_write_ */
    function Suspend(what: Reason): Side {
      this.(armed := if suspended == {} then false else armed, suspended := suspended + {what})
    }

    /** bufferevent_unsuspend_read_ and bufferevent_unsuspend_write_ */
    function Unsuspend(what: Reason): Side {
      var left := suspended - {what};
      this.(suspended := left, armed := if left == {} && enabled then true else armed)
    }
  }

  datatype Limits = Limits(read: Cfg, write: Cfg)

  class Bufferevent {
    var reading: Side
    var writing: Side
    /** rate_limiting->cfg; the pointer is told apart from others by an identity. */
    var cfg: Option<Limits>
    var lastUpdated: uint32
    /** The refill event is pending. */
    var refillPending: bool

    /** No direction without bandwidth goes unsuspended, and a refill is to come exactly when
        one is suspended for bandwidth. */
    ghost predicate Valid()
      reads this
    {
      && reading.Armed() && writing.Armed()
      && (cfg.Some? ==> cfg.value.read.Ok() && cfg.value.write.Ok())
      && (cfg.Some? ==> Limited(reading) && Limited(writing))
      && (cfg.None? ==> BW !in reading.suspended && BW !in writing.suspended)
      && (refillPending <==> BW in reading.suspended || BW in writing.suspended)
    }

    predicate Limited(s: Side) {
      s.limit <= 0 ==> BW in s.suspended
    }

    /** No limit is above its maximum, as long as the user has given no bandwidth back. */
    predicate Bounded()
      reads this
    {
      cfg.Some? ==> reading.limit <= cfg.value.read.maximum && writing.limit <= cfg.value.write.maximum
    }

    constructor ()
      ensures Valid() && cfg.None? && reading == writing == Side(false, {}, false, 0)
    {
      reading, writing := Side(false, {}, false, 0), Side(false, {}, false, 0);
      cfg, lastUpdated, refillPending := None, 0, false;
    }

    /** bufferevent_enable */
    method Enable(read: bool, write: bool)
      requires Valid()
      modifies this`reading, this`writing
      ensures Valid()
      ensures reading == old(reading).(enabled := old(reading).enabled || read, armed := reading.armed)
      ensures writing == old(writing).(enabled := old(writing).enabled || write, armed := writing.armed)
    {
      var implRead, implWrite := read && reading.suspended == {}, write && writing.suspended == {};
      reading := reading.(enabled := reading.enabled || read, armed := reading.armed || implRead);
      writing := writing.(enabled := writing.enabled || write, armed := writing.armed || implWrite);
    }

    /** bufferevent_disable */
    method Disable(read: bool, write: bool)
      requires Valid()
      modifies this`reading, this`writing
      ensures Valid()
      ensures reading == old(reading).(enabled := old(reading).enabled && !read, armed := reading.armed)
      ensures writing == old(writing).(enabled := old(writing).enabled && !write, armed := writing.armed)
    {
      reading := reading.(enabled := reading.enabled && !read, armed := reading.armed && !read);
      writing := writing.(enabled := writing.enabled && !write, armed := writing.armed && !write);
    }

    /** A side that is suspended for these reasons now; Valid says whether it is armed. */
    static predicate SameBut(before: Side, reasons: set<Reason>, after: Side) {
      after.suspended == reasons && after.enabled == before.enabled && after.limit == before.limit
    }

    /** Suspending for another reason than bandwidth. */
    method SuspendFor(what: Reason, read: bool)
      requires Valid() && what != BW
      modifies this`reading, this`writing
      ensures Valid()
      ensures if read then SameBut(old(reading), old(reading).suspended + {what}, reading) else reading == old(reading)
      ensures if read then writing == old(writing) else SameBut(old(writing), old(writing).suspended + {what}, writing)
    {
      if read {
        reading := reading.Suspend(what);
      } else {
        writing := writing.Suspend(what);
      }
    }

    method UnsuspendFor(what: Reason, read: bool)
      requires Valid() && what != BW
      modifies this`reading, this`writing
      ensures Valid()
      ensures if read then SameBut(old(reading), old(reading).suspended - {what}, reading) else reading == old(reading)
      ensures if read then writing == old(writing) else SameBut(old(writing), old(writing).suspended - {what}, writing)
    {
      if read {
        reading := reading.Unsuspend(what);
      } else {
        writing := writing.Unsuspend(what);
      }
    }

    /** bufferevent_decrement_read_buckets_ and bufferevent_decrement_write_buckets_, the part
        about the bufferevent's own bucket; negative bytes give bandwidth back. */
    method Decrement(bytes: int, read: bool)
      requires Valid()
      requires var l := (if read then reading else writing).limit - bytes; -SSIZE_MAX - 1 <= l <= SSIZE_MAX
      modifies this`reading, this`writing, this`refillPending
      ensures Valid()
      ensures cfg.None? ==> reading == old(reading) && writing == old(writing)
      ensures if read then writing == old(writing) else reading == old(reading)
      ensures cfg.Some? ==>
        (if read then Charged(old(reading), bytes, reading) else Charged(old(writing), bytes, writing))
      ensures old(Bounded()) && bytes >= 0 ==> Bounded()
    {
      if cfg.None? {
        return;
      }
      if read {
        reading := reading.(limit := reading.limit - bytes);
        if reading.limit <= 0 {
          reading := reading.Suspend(BW);
          refillPending := true;
        } else if BW in reading.suspended {
          if BW !in writing.suspended {
            refillPending := false;
          }
          reading := reading.Unsuspend(BW);
        }
      } else {
        writing := writing.(limit := writing.limit - bytes);
        if writing.limit <= 0 {
          writing := writing.Suspend(BW);
          refillPending := true;
        } else if BW in writing.suspended {
          if BW !in reading.suspended {
            refillPending := false;
          }
          writing := writing.Unsuspend(BW);
        }
      }
    }

    /** A side after bytes have been charged to it: suspended exactly when nothing is left. */
    static predicate Charged(before: Side, bytes: int, after: Side) {
      && after.limit == before.limit - bytes && after.enabled == before.enabled
      && after.suspended == (if after.limit <= 0 then before.suspended + {BW} else before.suspended - {BW})
    }

    /** A side after its limit has been changed by the user: suspended or not when the limit
        comes to cross zero. */
    static predicate Crossed(before: Side, decr: int, after: Side) {
      && after.limit as int == before.limit as int - decr && after.enabled == before.enabled
      && after.suspended == (if before.limit > 0 && after.limit <= 0 then before.suspended + {BW}
        else if before.limit <= 0 && after.limit > 0 then before.suspended - {BW} else before.suspended)
    }

    /** bufferevent_decrement_read_limit and bufferevent_decrement_write_limit */
    method DecrementLimit(decr: int, read: bool)
      requires Valid() && cfg.Some?
      requires var l := (if read then reading else writing).limit - decr; -SSIZE_MAX - 1 <= l <= SSIZE_MAX
      modifies this`reading, this`writing, this`refillPending
      ensures Valid()
      ensures if read then writing == old(writing) else reading == old(reading)
      ensures if read then Crossed(old(reading), decr, reading) else Crossed(old(writing), decr, writing)
      ensures old(Bounded()) && decr >= 0 ==> Bounded()
    {
      var oldLimit := if read then reading.limit else writing.limit;
      var newLimit := oldLimit - decr;
      if read {
        reading := reading.(limit := newLimit);
        if oldLimit > 0 && newLimit <= 0 {
          reading := reading.Suspend(BW);
          refillPending := true;
        } else if oldLimit <= 0 && newLimit > 0 {
          if BW !in writing.suspended {
            refillPending := false;
          }
          reading := reading.Unsuspend(BW);
        }
      } else {
        writing := writing.(limit := newLimit);
        if oldLimit > 0 && newLimit <= 0 {
          writing := writing.Suspend(BW);
          refillPending := true;
        } else if oldLimit <= 0 && newLimit > 0 {
          if BW !in reading.suspended {
            refillPending := false;
          }
          writing := writing.Unsuspend(BW);
        }
      }
    }

    /** The refill takes away what a side has, without suspending it: that needs a limit that
        the user has lifted above the maximum. */
    static predicate Loses(s: Side, c: Cfg, n: int) {
      n > 0 && s.limit > 0 && BW !in s.suspended && Wraps(s.limit, c, n)
    }

    /** ev_token_bucket_update_ of the bufferevent's bucket */
    method UpdateBuckets(tick: uint32)
      requires Valid() && cfg.Some?
      modifies this`reading, this`writing, this`lastUpdated
      ensures var n := Ticks(old(lastUpdated), tick);
        && reading == old(reading).(limit := Refilled(old(reading.limit), cfg.value.read, n))
        && writing == old(writing).(limit := Refilled(old(writing.limit), cfg.value.write, n))
        && lastUpdated == (if n == 0 then old(lastUpdated) else tick)
        && (Valid() <==> !Loses(old(reading), cfg.value.read, n) && !Loses(old(writing), cfg.value.write, n))
        && (old(Bounded()) ==>
          reading.limit == Min(cfg.value.read.maximum, old(reading.limit) + n * cfg.value.read.rate)
          && writing.limit == Min(cfg.value.write.maximum, old(writing.limit) + n * cfg.value.write.rate))
      ensures old(Bounded()) ==> Valid() && Bounded()
    {
      var n := Ticks(lastUpdated, tick);
      StillLimited(reading, cfg.value.read, n);
      StillLimited(writing, cfg.value.write, n);
      reading := reading.(limit := Refilled(reading.limit, cfg.value.read, n));
      writing := writing.(limit := Refilled(writing.limit, cfg.value.write, n));
      if n != 0 {
        lastUpdated := tick;
      }
    }

    lemma StillLimited(s: Side, c: Cfg, n: int)
      requires c.Ok() && 0 <= n <= INT_MAX && Limited(s)
      ensures Limited(s.(limit := Refilled(s.limit, c, n))) <==> !Loses(s, c, n)
      ensures s.limit <= c.maximum ==>
        !Loses(s, c, n) && Refilled(s.limit, c, n) == Min(c.maximum, s.limit + n * c.rate)
    {
      if n > 0 && s.limit > 0 {
        RefillLoses(s.limit, c, n);
      }
      if s.limit <= c.maximum {
        RefilledWithin(s.limit, c, n);
      }
    }

    static function Refilled(limit: ssize, c: Cfg, n: int): ssize
      requires c.Ok() && 0 <= n <= INT_MAX
    {
      if n == 0 then limit else Refill(limit, c, n)
    }

    static lemma RefilledWithin(limit: ssize, c: Cfg, n: int)
      requires c.Ok() && 0 <= n <= INT_MAX && limit <= c.maximum
      ensures limit <= Refilled(limit, c, n) <= c.maximum
      ensures Refilled(limit, c, n) == Min(c.maximum, limit + n * c.rate)
      ensures n > 0 && limit <= 0 ==> Refilled(limit, c, n) > limit
    {
      if n > 0 {
        RefillExact(limit, c, n);
        MulMono(1, c.rate, n);
      }
    }

    /** bufferevent_get_rlim_max_ without a group */
    method GetMax(tick: uint32, read: bool, maxSingle: nat) returns (r: int)
      requires Valid()
      modifies this`reading, this`writing, this`lastUpdated
      ensures cfg.None? ==> Valid() && r == maxSingle && reading == old(reading) && writing == old(writing)
      ensures cfg.Some? ==> var l := (if read then reading else writing).limit; r == if l < 0 then 0 else l
      ensures cfg.Some? ==> var n := Ticks(old(lastUpdated), tick);
        && reading == old(reading).(limit := Refilled(old(reading.limit), cfg.value.read, n))
        && writing == old(writing).(limit := Refilled(old(writing.limit), cfg.value.write, n))
        && (Valid() <==> !Loses(old(reading), cfg.value.read, n) && !Loses(old(writing), cfg.value.write, n))
      ensures old(Bounded()) ==> Valid() && Bounded()
    {
      r := maxSingle;
      if cfg.Some? {
        if tick != lastUpdated {
          UpdateBuckets(tick);
        }
        r := if read then reading.limit else writing.limit;
      }
      if r < 0 {
        r := 0;
      }
    }

    /** bev_refill_callback_. It also runs when its event has been deleted by another thread while
        it waited for the lock, so that a refill need not be pending. */
    method RefillCallback(tick: uint32)
      requires Valid()
      modifies this
      ensures cfg == old(cfg) && (cfg.None? ==> Valid())
      ensures cfg.Some? ==> (var n := Ticks(old(lastUpdated), tick);
        && reading.limit == Refilled(old(reading.limit), cfg.value.read, n)
        && writing.limit == Refilled(old(writing.limit), cfg.value.write, n)
        && reading.suspended == (if reading.limit > 0 then old(reading).suspended - {BW} else old(reading).suspended)
        && writing.suspended == (if writing.limit > 0 then old(writing).suspended - {BW} else old(writing).suspended)
        && reading.enabled == old(reading.enabled) && writing.enabled == old(writing.enabled)
        && lastUpdated == (if n == 0 then old(lastUpdated) else tick)
        && (refillPending <==> BW in reading.suspended || BW in writing.suspended)
        && (Valid() <==> !Loses(old(reading), cfg.value.read, n) && !Loses(old(writing), cfg.value.write, n)))
      ensures old(Bounded()) ==> Valid() && Bounded()
    {
      if cfg.None? {
        // The configuration has been taken away while this callback was waiting to run.
        return;
      }
      UpdateBuckets(tick);
      var again, againToo;
      reading, again := Release(reading);
      writing, againToo := Release(writing);
      refillPending := again || againToo;
    }

    /** Ends the suspension for bandwidth when there is some again; otherwise another refill is needed. */
    static method Release(s: Side) returns (r: Side, again: bool)
      ensures r.limit == s.limit && r.enabled == s.enabled && (s.Armed() ==> r.Armed())
      ensures r.suspended == if s.limit > 0 then s.suspended - {BW} else s.suspended
      ensures again <==> BW in r.suspended
    {
      r, again := s, false;
      if BW in s.suspended {
        if s.limit > 0 {
          r := s.Unsuspend(BW);
        } else {
          again := true;
        }
      }
    }

    /** bufferevent_set_rate_limit; same says that the very configuration is set already. */
    method SetRateLimit(c: Option<Limits>, same: bool, tick: uint32)
      requires Valid() && (c.Some? ==> c.value.read.Ok() && c.value.write.Ok()) && (same ==> c == cfg)
      modifies this
      ensures Valid() && cfg == c
      ensures c.None? ==>
        SameBut(old(reading), old(reading).suspended - {BW}, reading)
        && SameBut(old(writing), old(writing).suspended - {BW}, writing)
      ensures c.Some? && same ==>
        reading == old(reading) && writing == old(writing) && refillPending == old(refillPending)
      ensures c.Some? && !same ==>
        (BW in reading.suspended <==> reading.limit <= 0) && (BW in writing.suspended <==> writing.limit <= 0)
      ensures c.Some? && !same && old(cfg).None? ==>
        reading.limit == c.value.read.rate && writing.limit == c.value.write.rate
      ensures lastUpdated == if c.Some? && !same && old(cfg).None? then tick else old(lastUpdated)
      ensures c.Some? && !same && old(cfg).Some? ==>
        reading.limit == Min(old(reading.limit), c.value.read.maximum)
          && writing.limit == Min(old(writing.limit), c.value.write.maximum)
      ensures reading.suspended - {BW} == old(reading.suspended) - {BW} && reading.enabled == old(reading.enabled)
      ensures writing.suspended - {BW} == old(writing.suspended) - {BW} && writing.enabled == old(writing.enabled)
    {
      if c.None? {
        cfg := None;
        reading, writing := reading.Unsuspend(BW), writing.Unsuspend(BW);
        refillPending := false;
        return;
      }
      if same {
        return;
      }
      var reinit := cfg.Some?;
      cfg := c;
      if reinit {
        reading := reading.(limit := Min(reading.limit, c.value.read.maximum));
        writing := writing.(limit := Min(writing.limit, c.value.write.maximum));
        refillPending := false;
      } else {
        reading, writing := reading.(limit := c.value.read.rate), writing.(limit := c.value.write.rate);
        lastUpdated := tick;
      }
      // event_assign: the event must not be pending.
      assert !refillPending;
      var suspended := false;
      if reading.limit > 0 {
        reading := reading.Unsuspend(BW);
      } else {
        reading := reading.Suspend(BW);
        suspended := true;
      }
      if writing.limit > 0 {
        writing := writing.Unsuspend(BW);
      } else {
        writing := writing.Suspend(BW);
        suspended := true;
      }
      refillPending := suspended;
    }

    /** One direction, as it is now. */
    function SideOf(read: bool): Side
      reads this
    {
      if read then reading else writing
    }

    /** k ticks pass, and the refill callback runs at each of them while it is pending. A
        direction that is suspended for bandwidth comes back after exactly the ticks that its
        deficit takes, and until then the refill is pending. */
    method AfterTicks(k: nat, read: bool)
      requires Valid() && Bounded() && cfg.Some? && BW in SideOf(read).suspended
      modifies this
      ensures Valid() && Bounded() && cfg == old(cfg)
      ensures BW in SideOf(read).suspended <==> k <= WaitTicks(old(SideOf(read).limit), old(CfgOf(read)))
      ensures BW in SideOf(read).suspended ==> refillPending
    {
      ghost var l, c := SideOf(read).limit, CfgOf(read);
      ghost var w := WaitTicks(l, c);
      for n := 0 to k
        invariant Valid() && Bounded() && cfg == old(cfg)
        invariant BW in SideOf(read).suspended <==> n <= w
        invariant n <= w ==> SideOf(read).limit == Refills(l, c, n)
      {
        if refillPending {
          NotStuck(l, c, n + 1, w);
          RefillCallback(NextTick(lastUpdated));
        }
      }
    }

    function CfgOf(read: bool): Cfg
      reads this
      requires cfg.Some?
    {
      if read then cfg.value.read else cfg.value.write
    }
  }

  /** The limit after k refills of one tick each. */
  function Refills(limit: ssize, c: Cfg, k: nat): (r: ssize)
    requires c.Ok()
  {
    if k == 0 then limit else Refill(Refills(limit, c, k - 1), c, 1)
  }

  lemma {:induction false} RefillsIs(limit: ssize, c: Cfg, k: nat)
    requires c.Ok() && limit <= c.maximum
    ensures Refills(limit, c, k) == Min(c.maximum, limit + k * c.rate)
  {
    if k > 0 {
      RefillsIs(limit, c, k - 1);
      RefillExact(Refills(limit, c, k - 1), c, 1);
      Distribute(k - 1, 1, c.rate);
      assert (k - 1 + 1) * c.rate == k * c.rate;
    }
  }

  /** How much is missing. */
  function Deficit(limit: int): nat {
    if limit < 0 then 0 - limit else 0
  }

  /** How many ticks it takes at least to make up for it. */
  function WaitTicks(limit: int, c: Cfg): nat
    requires c.Ok()
  {
    Deficit(limit) / c.rate
  }

  /** A deficit is made up after exactly the ticks that it takes. */
  lemma NotStuck(limit: ssize, c: Cfg, k: nat, w: nat)
    requires c.Ok() && limit <= c.maximum && k > 0 && w == WaitTicks(limit, c)
    ensures Refills(limit, c, k) <= 0 <==> k <= w
  {
    RefillsIs(limit, c, k);
    QuotientTest(Deficit(limit), c.rate, k);
    MulMono(1, k, c.rate);
    assert c.rate * k == k * c.rate;
  }

  /** The tick after this one. */
  function NextTick(t: uint32): (r: uint32)
    ensures Ticks(t, r) == 1
  {
    (t + 1) % TWO_32
  }

  /** A bufferevent that is stuck: bandwidth given back lifts the limit for reading above its
      maximum, and the refill that writing waits for wraps it around. */
  method StuckExample() returns (b: Bufferevent)
    ensures b.cfg.Some? && b.reading.limit < 0 && BW !in b.reading.suspended && !b.refillPending
  {
    var half: ssize := 0x4000_0000_0000_0000;
    var c := Cfg(half, half);
    b := new Bufferevent();
    b.SetRateLimit(Some(Limits(c, c)), false, 0);
    b.DecrementLimit(-1, true);
    b.Decrement(half, false);
    assert b.refillPending && Refill(half + 1, c, 1) < 0;
    b.RefillCallback(NextTick(b.lastUpdated));
  }
}
