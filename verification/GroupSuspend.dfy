/** A group of bufferevents that share a bucket (bufferevent_ratelim.c), for reading. The
    steps of different threads interleave; a member can be reached only if its lock is free. */
module GroupSuspend {
  import opened Basics
  import opened TokenBuckets

  /** Division in C: towards zero. */
  function Truncated(a: int, n: int): (r: int)
    requires n > 0
    ensures if a >= 0 then 0 <= r && n * r <= a < n * (r + 1) else r <= 0 && n * (r - 1) < a <= n * r
  {
    if a >= 0 then Share(a, n) else 0 - Share(0 - a, n)
  }

  function Share(a: nat, n: int): (r: nat)
    requires n > 0
    ensures n * r <= a < n * (r + 1)
  {
    a / n
  }

  function Max(a: int, b: int): int {
    if a < b then b else a
  }

  class Group {
    /** The members, in the order of the list. */
    var members: seq<nat>
    var nMembers: nat
    /** Bufferevents that are suspended for this group. */
    var bits: set<nat>
    /** Members that are being added: locked by the thread that adds them, which has seen the
        group suspended and will suspend them. */
    var adding: set<nat>
    var suspended: bool
    var pendingUnsuspend: bool
    var limit: ssize
    var cfg: Cfg
    /** The rate for writing, which bounds the smallest share as well. */
    var writeRate: int
    var minShare: int
    var configuredMinShare: nat

    /** A member that is suspended, or about to be, is not forgotten: the group is suspended,
        or will be unsuspended once more; never both. */
    ghost predicate Safe()
      reads this
    {
      Protocol() && configuredMinShare <= SSIZE_MAX && minShare == Min(Min(configuredMinShare, cfg.rate), writeRate)
    }

    ghost predicate Protocol()
      reads this
    {
      && (forall m :: m in members && (m in bits || m in adding) ==> suspended || pendingUnsuspend)
      && !(suspended && pendingUnsuspend)
      && nMembers == |members| && NoDup(members)
      && cfg.Ok() && writeRate >= 1
    }

    /** An exhausted bucket keeps its group suspended. */
    predicate Quiet()
      reads this
    {
      limit <= 0 ==> suspended
    }

    /** The members whose lock could be taken have been suspended. */
    ghost predicate JustSuspended(before: set<nat>, locked: set<nat>)
      reads this
    {
      !pendingUnsuspend && forall m :: m in bits <==> m in before || (m in members && m in locked)
    }

    /** The members whose lock could be taken have been released, and the others wait for it. */
    ghost predicate JustReleased(before: set<nat>, locked: set<nat>)
      reads this
    {
      && (pendingUnsuspend <==> exists m :: m in members && m !in locked)
      && forall m :: m in bits <==> m in before && !(m in members && m in locked)
    }

    predicate SameBits(before: set<nat>, pending: bool)
      reads this
    {
      bits == before && pendingUnsuspend == pending
    }

    /** bufferevent_rate_limit_group_new */
    constructor (cfg: Cfg, writeRate: int)
      requires cfg.Ok() && writeRate >= 1
      ensures Safe() && Quiet() && members == [] && adding == {} && minShare >= 1
      ensures !suspended && !pendingUnsuspend && bits == {}
      ensures this.cfg == cfg && this.writeRate == writeRate && limit == cfg.rate && configuredMinShare == 64
    {
      members, nMembers, bits, adding := [], 0, {}, {};
      suspended, pendingUnsuspend := false, false;
      this.cfg, limit, this.writeRate := cfg, cfg.rate, writeRate;
      configuredMinShare, minShare := 64, Min(Min(64, cfg.rate), writeRate);
    }

    /** bev_group_suspend_reading_; locked are the members whose lock can be taken. */
    method Suspend(locked: set<nat>)
      requires Safe() && locked !! adding
      modifies this`suspended, this`pendingUnsuspend, this`bits
      ensures Safe() && suspended && !pendingUnsuspend
      ensures forall m :: m in bits <==> m in old(bits) || (m in members && m in locked)
    {
      suspended, pendingUnsuspend := true, false;
      var i := 0;
      while i < |members|
        invariant 0 <= i <= |members| && Safe() && suspended && !pendingUnsuspend
        invariant forall m :: m in bits <==> m in old(bits) || (m in members[..i] && m in locked)
      {
        if members[i] in locked {
          bits := bits + {members[i]};
        }
        i := i + 1;
      }
    }

    /** FOREACH_RANDOM_ORDER with bev_group_random_element_: the list from a random place on,
        and then up to that place. */
    method RandomOrder(which: nat) returns (order: seq<nat>)
      requires nMembers == |members| && (members != [] ==> which < |members|)
      ensures members != [] ==> order == members[which..] + members[..which]
      ensures members == [] ==> order == []
    {
      order := [];
      if nMembers == 0 {
        return;
      }
      var i := which;
      while i < |members|
        invariant which <= i <= |members| && order == members[which..i]
      {
        order := order + [members[i]];
        i := i + 1;
      }
      i := 0;
      while i < |members| && i != which
        invariant 0 <= i <= which && order == members[which..] + members[..i]
      {
        order := order + [members[i]];
        i := i + 1;
      }
    }

    /** bev_group_unsuspend_reading_ */
    method Unsuspend(locked: set<nat>, which: nat)
      requires Safe() && locked !! adding && (members != [] ==> which < |members|)
      modifies this`suspended, this`pendingUnsuspend, this`bits
      ensures Safe() && !suspended
      ensures pendingUnsuspend <==> exists m :: m in members && m !in locked
      ensures forall m :: m in bits <==> m in old(bits) && !(m in members && m in locked)
    {
      suspended := false;
      var order := RandomOrder(which);
      VisitsAll(members, order, which);
      var again, i := false, 0;
      while i < |order|
        invariant 0 <= i <= |order| && !suspended
        invariant forall m :: m in bits <==> m in old(bits) && !(m in order[..i] && m in locked)
        invariant again <==> exists m :: m in order[..i] && m !in locked
      {
        if order[i] in locked {
          bits := bits - {order[i]};
        } else {
          again := true;
        }
        assert order[..i + 1] == order[..i] + [order[i]];
        i := i + 1;
      }
      assert order[..i] == order;
      pendingUnsuspend := again;
    }

    /** The part of bufferevent_decrement_read_buckets_ about the group. */
    method Decrement(bytes: int, locked: set<nat>, which: nat)
      requires Safe() && locked !! adding && (members != [] ==> which < |members|)
      requires -SSIZE_MAX - 1 <= limit - bytes <= SSIZE_MAX
      modifies this
      ensures Safe() && Quiet() && limit == old(limit) - bytes && members == old(members) && adding == old(adding)
      ensures cfg == old(cfg) && minShare == old(minShare)
      ensures suspended == (limit <= 0)
      ensures if limit <= 0 then JustSuspended(old(bits), locked)
        else if old(suspended) then JustReleased(old(bits), locked) else SameBits(old(bits), old(pendingUnsuspend))
    {
      limit := limit - bytes;
      if limit <= 0 {
        Suspend(locked);
      } else if suspended {
        Unsuspend(locked, which);
      }
    }

    /** bufferevent_rate_limit_group_decrement_read */
    method DecrementLimit(decr: int, locked: set<nat>, which: nat)
      requires Safe() && locked !! adding && (members != [] ==> which < |members|)
      requires -SSIZE_MAX - 1 <= limit - decr <= SSIZE_MAX
      modifies this
      ensures Safe() && limit == old(limit) - decr && members == old(members) && adding == old(adding)
      ensures cfg == old(cfg) && minShare == old(minShare)
      ensures suspended ==
        if old(limit) > 0 && limit <= 0 then true
        else if old(limit) <= 0 && limit > 0 then false else old(suspended)
      ensures old(Quiet()) ==> Quiet()
      ensures if old(limit) > 0 && limit <= 0 then JustSuspended(old(bits), locked)
        else if old(limit) <= 0 && limit > 0 then JustReleased(old(bits), locked)
        else SameBits(old(bits), old(pendingUnsuspend))
    {
      var oldLimit, newLimit := limit, limit - decr;
      limit := newLimit;
      if oldLimit > 0 && newLimit <= 0 {
        Suspend(locked);
      } else if oldLimit <= 0 && newLimit > 0 {
        Unsuspend(locked, which);
      }
    }

    /** bev_group_refill_callback_ n ticks after the last one. */
    method RefillCallback(n: int, locked: set<nat>, which: nat)
      requires Safe() && locked !! adding && (members != [] ==> which < |members|) && 0 <= n <= INT_MAX
      modifies this
      ensures Safe() && members == old(members) && adding == old(adding) && cfg == old(cfg) && minShare == old(minShare)
      ensures limit == if n == 0 then old(limit) else Refill(old(limit), cfg, n)
      ensures suspended == (old(suspended) && limit < minShare)
      ensures if old(pendingUnsuspend) || (old(suspended) && limit >= minShare) then JustReleased(old(bits), locked)
        else SameBits(old(bits), old(pendingUnsuspend))
      ensures Quiet() <==> KeepsQuiet(old(limit), old(suspended), cfg, minShare, n)
      ensures old(Quiet()) && minShare >= 1 && old(limit) <= cfg.maximum ==> Quiet() && limit <= cfg.maximum
    {
      if n != 0 {
        if limit <= cfg.maximum {
          RefillExact(limit, cfg, n);
          MulMono(1, cfg.rate, n);
        }
        limit := Refill(limit, cfg, n);
      }
      if pendingUnsuspend || (suspended && limit >= minShare) {
        Unsuspend(locked, which);
      }
    }

    /** Refills of a group that is not suspended. A member that is still suspended is free after
        the first one at which its lock can be taken, and until then the release stays pending. */
    method RefillRun(m: nat, refills: seq<(int, set<nat>, nat)>)
      requires Safe() && !suspended && m in members
      requires forall i :: 0 <= i < |refills| ==>
        0 <= refills[i].0 <= INT_MAX && refills[i].1 !! adding && refills[i].2 < |members|
      modifies this
      ensures Safe() && !suspended && members == old(members) && adding == old(adding)
      ensures m in bits <==> m in old(bits) && forall i :: 0 <= i < |refills| ==> m !in refills[i].1
      ensures m in bits ==> pendingUnsuspend
    {
      for i := 0 to |refills|
        invariant Safe() && !suspended && members == old(members) && adding == old(adding)
        invariant m in bits <==> m in old(bits) && forall j :: 0 <= j < i ==> m !in refills[j].1
      {
        RefillCallback(refills[i].0, refills[i].1, refills[i].2);
      }
    }

    /** The part of bufferevent_get_rlim_max_ about the group, for a member whose lock is held;
        maxSoFar is what its own limits allow. */
    method GetMax(m: nat, maxSoFar: int) returns (r: int)
      requires Safe() && m in members
      modifies this`bits
      ensures Safe() && 0 <= r && bits == if suspended then old(bits) + {m} else old(bits)
      ensures suspended ==> r == 0
      ensures !suspended ==> var t := Truncated(limit, |members|);
        var share := if t < minShare then minShare else t; r == Max(0, Min(maxSoFar, share))
      ensures !suspended && maxSoFar >= 0 && minShare >= 0 ==>
        r <= maxSoFar && (r <= minShare || r <= Truncated(limit, |members|))
      ensures !suspended && maxSoFar >= 0 && minShare >= 0 ==>
        r == maxSoFar || (r >= minShare && r >= Truncated(limit, |members|))
    {
      var share;
      if suspended {
        bits := bits + {m};
        share := 0;
      } else {
        share := Truncated(limit, nMembers);
        if share < minShare {
          share := minShare;
        }
      }
      r := if maxSoFar > share then share else maxSoFar;
      if r < 0 {
        r := 0;
      }
    }

    /** The first half of bufferevent_add_to_rate_limit_group, under the locks of the
        bufferevent and the group. */
    method AddStart(m: nat) returns (rsuspend: bool)
      requires Safe() && m !in members && m !in bits
      modifies this`members, this`nMembers, this`adding
      ensures Safe() && members == [m] + old(members) && rsuspend == suspended
      ensures adding == if rsuspend then old(adding) + {m} else old(adding) - {m}
    {
      members := [m] + members;
      nMembers := nMembers + 1;
      rsuspend := suspended;
      adding := if rsuspend then adding + {m} else adding - {m};
    }

    /** The second half, under the lock of the bufferevent alone. */
    method AddFinish(m: nat, rsuspend: bool)
      requires Safe() && m in members && (rsuspend ==> m in adding)
      modifies this`bits, this`adding
      ensures Safe() && adding == old(adding) - {m}
      ensures bits == if rsuspend then old(bits) + {m} else old(bits)
    {
      if rsuspend {
        bits := bits + {m};
      }
      adding := adding - {m};
    }

    /** bufferevent_remove_from_rate_limit_group_internal_ */
    method Remove(m: nat, unsuspend: bool)
      requires Safe() && m !in adding
      modifies this`members, this`nMembers, this`bits
      ensures Safe() && (forall x :: x in members <==> x in old(members) && x != m)
      ensures bits == if unsuspend then old(bits) - {m} else old(bits)
    {
      if m in members {
        WithoutIs(members, m);
        members := Without(members, m);
        nMembers := nMembers - 1;
      }
      if unsuspend {
        bits := bits - {m};
      }
    }

    /** bufferevent_rate_limit_group_set_min_share */
    method SetMinShare(share: nat) returns (r: int)
      requires Protocol()
      modifies this`minShare, this`configuredMinShare
      ensures Protocol() && (share <= SSIZE_MAX || old(Safe()) ==> Safe())
      ensures r == if share > SSIZE_MAX then -1 else 0
      ensures configuredMinShare == (if r == -1 then old(configuredMinShare) else share)
        && (r == -1 ==> minShare == old(minShare))
      ensures r == 0 ==>
        minShare <= cfg.rate && minShare <= writeRate && minShare <= share && minShare in {share, cfg.rate, writeRate}
    {
      if share > SSIZE_MAX {
        return -1;
      }
      configuredMinShare := share;
      minShare := share;
      if minShare > cfg.rate {
        minShare := cfg.rate;
      }
      if minShare > writeRate {
        minShare := writeRate;
      }
      r := 0;
    }

    /** bufferevent_rate_limit_group_set_cfg */
    method SetCfg(c: Cfg, w: int)
      requires Safe() && c.Ok() && w >= 1
      modifies this`cfg, this`writeRate, this`limit, this`minShare, this`configuredMinShare
      ensures Safe() && cfg == c && writeRate == w && limit == Min(old(limit), c.maximum)
        && configuredMinShare == old(configuredMinShare)
      ensures old(Quiet()) ==> Quiet()
    {
      cfg, writeRate := c, w;
      if limit > c.maximum {
        limit := c.maximum;
      }
      var r := SetMinShare(configuredMinShare);
    }
  }

  /** A walk that starts anywhere meets every member exactly once. */
  lemma VisitsAll(members: seq<nat>, order: seq<nat>, which: nat)
    requires members != [] ==> which < |members| && order == members[which..] + members[..which]
    requires members == [] ==> order == []
    ensures multiset(order) == multiset(members)
    ensures forall m :: m in order <==> m in members
  {
    if members != [] {
      assert members == members[..which] + members[which..];
      assert multiset(order) == multiset(members[which..]) + multiset(members[..which]);
    }
    forall m: nat
      ensures m in order <==> m in members
    {
      assert m in order <==> m in multiset(order);
      assert m in members <==> m in multiset(members);
    }
  }

  /** Whether a group is quiet after Group.RefillCallback. */
  predicate KeepsQuiet(limit: ssize, suspended: bool, cfg: Cfg, minShare: int, n: int)
    requires cfg.Ok() && 0 <= n <= INT_MAX
  {
    var l := if n == 0 then limit else Refill(limit, cfg, n);
    l <= 0 ==> suspended && l < minShare
  }

  /** An exhausted bucket is certain to keep its group suspended exactly when the smallest
      share is at least one byte; bufferevent_rate_limit_group_set_min_share allows zero. */
  lemma MinShareMatters(cfg: Cfg, minShare: int)
    requires cfg.Ok()
    ensures minShare >= 1 <==> forall limit: ssize, suspended, n: int ::
      limit <= cfg.maximum && (limit <= 0 ==> suspended) && 0 <= n <= INT_MAX ==>
        KeepsQuiet(limit, suspended, cfg, minShare, n)
  {
    if minShare < 1 {
      RefillExact(-cfg.rate, cfg, 1);
      assert !KeepsQuiet(-cfg.rate, true, cfg, minShare, 1);
    } else {
      forall limit: ssize, suspended, n: int | limit <= cfg.maximum && (limit <= 0 ==> suspended) && 0 <= n <= INT_MAX
        ensures KeepsQuiet(limit, suspended, cfg, minShare, n)
      {
        if n > 0 {
          RefillExact(limit, cfg, n);
          MulMono(1, n, cfg.rate);
        }
      }
    }
  }

  /** An exhausted group that has been released. */
  method ReleasedExample() returns (g: Group)
    ensures g.Safe() && g.limit == 0 && !g.suspended
  {
    var c := Cfg(10, 10);
    g := new Group(c, 10);
    var r := g.SetMinShare(0);
    g.Decrement(20, {}, 0);
    assert Refill(-10, c, 1) == 0;
    g.RefillCallback(1, {}, 0);
  }
}
