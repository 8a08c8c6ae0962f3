/** Interest tracking: evmap.c, and the changelist and epoll backends that carry it to the
    kernel. */
module Changelist {
  import opened Basics
  import opened EpollTable

  /** struct event, as far as it matters here. */
  datatype Event = Event(id: nat, mask: Mask)

  datatype Which = Read | Write | Close

  function Has(m: Mask, w: Which): bool {
    match w
    case Read => m.read
    case Write => m.write
    case Close => m.close
  }

  function Count(evs: seq<Event>, w: Which): nat {
    if evs == [] then 0 else (if Has(evs[0].mask, w) then 1 else 0) + Count(evs[1..], w)
  }

  /** struct evmap_io with its fdinfo. */
  datatype Ctx = Ctx(events: seq<Event>, nread: nat, nwrite: nat, nclose: nat, idxplus1: nat) {
    function Want(): Mask {
      Mask(nread > 0, nwrite > 0, nclose > 0)
    }

    /** The checks of evmap_io_check_integrity_fn. */
    predicate Ok() {
      && nread == Count(events, Read) && nwrite == Count(events, Write) && nclose == Count(events, Close)
      && nread <= 0xffff && nwrite <= 0xffff && nclose <= 0xffff
    }
  }

  datatype Slot = Free | Used(ctx: Ctx)

  /** The events some registered event asks for. */
  function WantOf(evs: seq<Event>): Mask {
    Mask(Count(evs, Read) > 0, Count(evs, Write) > 0, Count(evs, Close) > 0)
  }

  /** struct event_change */
  datatype Change = Change(fd: nat, was: Mask, write: Act, read: Act, close: Act) {
    function Goal(): Mask {
      Wanted(was, write, read, close)
    }

    predicate Touches() {
      write != Keep || read != Keep || close != Keep
    }

    predicate Sane() {
      write != Both && read != Both && close != Both
    }
  }

  function NoChange(fd: nat, was: Mask): Change {
    Change(fd, was, Keep, Keep, Keep)
  }

  /** What event_changelist_add_ does to an entry. */
  function WithAdd(ch: Change, m: Mask): Change {
    ch.(read := if m.read then Add else ch.read,
      write := if m.write then Add else ch.write,
      close := if m.close then Add else ch.close)
  }

  /** What event_changelist_del_ does to an entry: taking back an add is no change at all. */
  function WithDel(ch: Change, m: Mask): Change {
    ch.(read := if m.read then (if ch.was.read then Del else Keep) else ch.read,
        write := if m.write then (if ch.was.write then Del else Keep) else ch.write,
        close := if m.close then (if ch.was.close then Del else Keep) else ch.close)
  }

  function Plus(a: Mask, b: Mask): Mask {
    Mask(a.read || b.read, a.write || b.write, a.close || b.close)
  }

  function Minus(a: Mask, b: Mask): Mask {
    Mask(a.read && !b.read, a.write && !b.write, a.close && !b.close)
  }

  lemma {:induction false} CountRemove(evs: seq<Event>, i: nat, w: Which)
    requires i < |evs|
    ensures Count(evs, w) == Count(evs[..i] + evs[i + 1..], w) + if Has(evs[i].mask, w) then 1 else 0
  {
    if i == 0 {
      assert evs[..0] + evs[1..] == evs[1..];
    } else {
      CountRemove(evs[1..], i - 1, w);
      assert (evs[..i] + evs[i + 1..])[1..] == evs[1..][..i - 1] + evs[1..][i..];
    }
  }

  lemma CountPush(ev: Event, evs: seq<Event>, w: Which)
    ensures Count([ev] + evs, w) == Count(evs, w) + if Has(ev.mask, w) then 1 else 0
  {
  }

  /** The kernel is interested in exactly m for fd. */
  predicate KernelHas(kernel: map<int, nat>, fd: int, m: Mask) {
    if m.IsEmpty() then fd !in kernel else fd in kernel && kernel[fd] == m.Bits()
  }

  predicate InUseIn(es: seq<Slot>, fd: int) {
    0 <= fd < |es| && es[fd].Used?
  }

  /** fd's back index. */
  function Idx(es: seq<Slot>, fd: int): nat {
    if InUseIn(es, fd) then es[fd].ctx.idxplus1 else 0
  }

  /** The checks of event_changelist_assert_ok. */
  predicate LinkedIn(es: seq<Slot>, cs: seq<Change>) {
    && (forall i :: 0 <= i < |cs| ==> InUseIn(es, cs[i].fd) && Idx(es, cs[i].fd) == i + 1)
    && (forall fd :: 0 <= fd < |es| && Idx(es, fd) != 0 ==> Idx(es, fd) <= |cs| && cs[Idx(es, fd) - 1].fd == fd)
  }

  /** What the kernel has been told for fd. */
  function ToldIn(es: seq<Slot>, cs: seq<Change>, fd: int): Mask {
    if !InUseIn(es, fd) then Mask(false, false, false)
    else if 0 < Idx(es, fd) <= |cs| then cs[Idx(es, fd) - 1].was
    else es[fd].ctx.Want()
  }

  /** A pending change leads to what is wanted. */
  predicate LeadsIn(es: seq<Slot>, ch: Change) {
    InUseIn(es, ch.fd) && ch.Sane() && ch.Goal() == es[ch.fd].ctx.Want()
  }

  predicate AllLead(es: seq<Slot>, cs: seq<Change>) {
    forall i :: 0 <= i < |cs| ==> LeadsIn(es, cs[i])
  }

  /** Where an entry that is queued for fd goes. */
  function SlotOf(es: seq<Slot>, cs: seq<Change>, fd: int): nat {
    if Idx(es, fd) == 0 then |cs| else Idx(es, fd) - 1
  }

  /** The changes once there is an entry for fd. */
  function Opened(es: seq<Slot>, cs: seq<Change>, fd: nat): seq<Change>
    requires InUseIn(es, fd)
  {
    if Idx(es, fd) == 0 then cs + [NoChange(fd, es[fd].ctx.Want())] else cs
  }

  /** An entry starts from what the kernel has been told and leads to what was wanted. */
  lemma OpenedIs(es: seq<Slot>, cs: seq<Change>, fd: nat)
    requires LinkedIn(es, cs) && AllLead(es, cs) && InUseIn(es, fd)
    ensures var i, os := SlotOf(es, cs, fd), Opened(es, cs, fd);
      && i < |os| && os[i].fd == fd && os[i].was == ToldIn(es, cs, fd) && os[i].Sane()
         && os[i].Goal() == es[fd].ctx.Want()
  {
  }

  /** The entries once fd points to its change and holds next. */
  function Linking(es: seq<Slot>, fd: nat, next: Ctx, i: nat): (r: seq<Slot>)
    requires fd < |es|
    ensures |r| == |es|
  {
    es[fd := Used(next.(idxplus1 := i + 1))]
  }

  lemma LinkedAfter(es: seq<Slot>, cs: seq<Change>, fd: nat, next: Ctx, i: nat, ch: Change)
    requires LinkedIn(es, cs) && InUseIn(es, fd) && i == SlotOf(es, cs, fd) && ch.fd == fd
    ensures i < |Opened(es, cs, fd)| && LinkedIn(Linking(es, fd, next, i), Opened(es, cs, fd)[i := ch])
  {
    var fs, ds := Linking(es, fd, next, i), Opened(es, cs, fd)[i := ch];
    forall j | 0 <= j < |ds|
      ensures InUseIn(fs, ds[j].fd) && Idx(fs, ds[j].fd) == j + 1
    {
      if j != i {
        assert ds[j] == cs[j];
      }
    }
    forall f | 0 <= f < |fs| && Idx(fs, f) != 0
      ensures Idx(fs, f) <= |ds| && ds[Idx(fs, f) - 1].fd == f
    {
      if f != fd {
        assert Idx(es, f) == Idx(fs, f);
      }
    }
  }

  lemma LeadsAfter(es: seq<Slot>, cs: seq<Change>, fd: nat, next: Ctx, i: nat, ch: Change)
    requires LinkedIn(es, cs) && AllLead(es, cs) && InUseIn(es, fd) && i == SlotOf(es, cs, fd)
    requires ch.fd == fd && ch.Sane() && ch.Goal() == next.Want()
    ensures i < |Opened(es, cs, fd)| && AllLead(Linking(es, fd, next, i), Opened(es, cs, fd)[i := ch])
  {
  }

  lemma ToldAfter(es: seq<Slot>, cs: seq<Change>, fd: nat, next: Ctx, i: nat, ch: Change, f: int)
    requires LinkedIn(es, cs) && InUseIn(es, fd) && i == SlotOf(es, cs, fd) && ch.was == ToldIn(es, cs, fd)
    ensures i < |Opened(es, cs, fd)|
    ensures ToldIn(Linking(es, fd, next, i), Opened(es, cs, fd)[i := ch], f) == ToldIn(es, cs, f)
  {
  }

  /** The events wanted of fd. */
  function WantIn(es: seq<Slot>, fd: int): Mask {
    if InUseIn(es, fd) then es[fd].ctx.Want() else Mask(false, false, false)
  }

  /** There is a change to make for fd. */
  predicate Pending(es: seq<Slot>, cs: seq<Change>, fd: int) {
    0 < Idx(es, fd) <= |cs| && cs[Idx(es, fd) - 1].Touches()
  }

  /** Only one descriptor points to a place in the list of changes. */
  lemma OthersAt(es: seq<Slot>, cs: seq<Change>, i: nat)
    requires LinkedIn(es, cs) && i < |cs|
    ensures Idx(es, cs[i].fd) == i + 1 && forall fd :: Idx(es, fd) == i + 1 ==> fd == cs[i].fd
  {
  }

  /** The slot after the first i changes have been forgotten. */
  function Cleared(s: Slot, i: nat): Slot {
    if s.Used? && 0 < s.ctx.idxplus1 <= i then Used(s.ctx.(idxplus1 := 0)) else s
  }

  function AllCleared(es: seq<Slot>, i: nat): (r: seq<Slot>)
    ensures |r| == |es| && forall fd :: 0 <= fd < |es| ==> r[fd] == Cleared(es[fd], i)
  {
    seq(|es|, fd requires 0 <= fd < |es| => Cleared(es[fd], i))
  }

  lemma ClearStep(es: seq<Slot>, cs: seq<Change>, i: nat, fs: seq<Slot>)
    requires LinkedIn(es, cs) && i < |cs| && fs == AllCleared(es, i)
    ensures var fd := cs[i].fd;
      && InUseIn(fs, fd) && fs[fd].ctx.idxplus1 == i + 1
      && fs[fd := Used(fs[fd].ctx.(idxplus1 := 0))] == AllCleared(es, i + 1)
  {
    OthersAt(es, cs, i);
    var fd := cs[i].fd;
    assert InUseIn(es, fd) && fs[fd] == Cleared(es[fd], i);
    var gs := fs[fd := Used(fs[fd].ctx.(idxplus1 := 0))];
    forall f | 0 <= f < |es|
      ensures gs[f] == AllCleared(es, i + 1)[f]
    {
      if f != fd {
        assert Idx(es, f) != i + 1;
      }
    }
  }

  lemma ClearedAll(es: seq<Slot>, cs: seq<Change>)
    requires LinkedIn(es, cs)
    ensures var fs := AllCleared(es, |cs|);
      && LinkedIn(fs, [])
      && (forall fd :: InUseIn(es, fd) ==> InUseIn(fs, fd) && fs[fd].ctx == es[fd].ctx.(idxplus1 := 0))
      && forall fd :: InUseIn(fs, fd) ==> InUseIn(es, fd)
  {
    var fs := AllCleared(es, |cs|);
    forall fd | 0 <= fd < |es|
      ensures fs[fd] == (if es[fd].Used? then Used(es[fd].ctx.(idxplus1 := 0)) else Free)
    {
      assert Idx(es, fd) <= |cs|;
    }
  }

  /** What the kernel has for fd after the first i changes have been made. */
  function GoalAt(es: seq<Slot>, cs: seq<Change>, i: nat, fd: int): Mask {
    if 0 < Idx(es, fd) <= i then WantIn(es, fd) else ToldIn(es, cs, fd)
  }

  ghost predicate Reached(kernel: map<int, nat>, untrusted: set<int>, es: seq<Slot>, cs: seq<Change>, i: nat) {
    forall fd :: fd !in untrusted ==> KernelHas(kernel, fd, GoalAt(es, cs, i, fd))
  }

  lemma ReachedStep(k: map<int, nat>, lost: set<int>, refuses: set<int>, es: seq<Slot>, cs: seq<Change>, i: nat,
      k2: map<int, nat>, lost2: set<int>)
    requires LinkedIn(es, cs) && AllLead(es, cs) && i < |cs| && Reached(k, lost + refuses, es, cs, i)
    requires lost2 == if cs[i].Touches() && cs[i].fd !in refuses then lost - {cs[i].fd} else lost
    requires k2 == if !cs[i].Touches() || cs[i].fd in refuses then k
      else if cs[i].Goal().IsEmpty() then k - {cs[i].fd} else k[cs[i].fd := cs[i].Goal().Bits()]
    ensures Reached(k2, lost2 + refuses, es, cs, i + 1)
  {
    OthersAt(es, cs, i);
    assert LeadsIn(es, cs[i]);
    forall fd | fd !in lost2 + refuses
      ensures KernelHas(k2, fd, GoalAt(es, cs, i + 1, fd))
    {
      if fd != cs[i].fd {
        assert KernelHas(k, fd, GoalAt(es, cs, i, fd));
      }
    }
  }

  lemma ReachedEnds(k: map<int, nat>, untrusted: set<int>, es: seq<Slot>, cs: seq<Change>)
    requires LinkedIn(es, cs) && Reached(k, untrusted, es, cs, |cs|)
    ensures forall fd :: fd !in untrusted ==> KernelHas(k, fd, WantIn(es, fd))
  {
  }

  /** Descriptors whose entry in the kernel is unknown after the first i changes. */
  predicate StillLost(es: seq<Slot>, cs: seq<Change>, refuses: set<int>, i: nat, fd: int) {
    fd in refuses || Idx(es, fd) > i || !Pending(es, cs, fd)
  }

  /** With n slots. */
  function Extended(es: seq<Slot>, n: nat): (fs: seq<Slot>)
    requires |es| <= n
    ensures |fs| == n && (forall f :: 0 <= f < |es| ==> fs[f] == es[f]) && forall f :: |es| <= f < n ==> fs[f] == Free
  {
    es + seq(n - |es|, i => Free)
  }

  /** The events registered for fd, the latest first. */
  function EventsIn(es: seq<Slot>, fd: int): seq<Event> {
    if InUseIn(es, fd) then es[fd].ctx.events else []
  }

  ghost predicate SameEvents(es: seq<Slot>, fs: seq<Slot>) {
    forall f :: EventsIn(es, f) == EventsIn(fs, f)
  }

  ghost predicate SameSlots(es: seq<Slot>, fs: seq<Slot>, cs: seq<Change>) {
    && (forall f :: InUseIn(fs, f) == InUseIn(es, f))
    && (forall f :: Idx(fs, f) == Idx(es, f))
    && (forall f :: ToldIn(fs, cs, f) == ToldIn(es, cs, f))
  }

  /** The same slots are in use, and hold the same. */
  ghost predicate SameUsed(es: seq<Slot>, fs: seq<Slot>) {
    forall f :: InUseIn(fs, f) == InUseIn(es, f) && (InUseIn(es, f) ==> fs[f] == es[f])
  }

  lemma UsedSlots(es: seq<Slot>, fs: seq<Slot>, cs: seq<Change>)
    requires SameUsed(es, fs)
    ensures SameSlots(es, fs, cs) && SameEvents(es, fs) && (AllOk(es) ==> AllOk(fs))
  {
    assert forall f :: Idx(fs, f) == Idx(es, f);
  }

  lemma StillLinked(es: seq<Slot>, fs: seq<Slot>, cs: seq<Change>)
    requires SameSlots(es, fs, cs) && LinkedIn(es, cs)
    ensures LinkedIn(fs, cs)
  {
    forall i | 0 <= i < |cs|
      ensures InUseIn(fs, cs[i].fd) && Idx(fs, cs[i].fd) == i + 1
    {
      assert InUseIn(es, cs[i].fd) && Idx(es, cs[i].fd) == i + 1;
    }
  }

  lemma StillLead(es: seq<Slot>, fs: seq<Slot>, cs: seq<Change>)
    requires SameUsed(es, fs) && AllLead(es, cs)
    ensures AllLead(fs, cs)
  {
    forall j | 0 <= j < |cs|
      ensures LeadsIn(fs, cs[j])
    {
      assert LeadsIn(es, cs[j]);
    }
  }

  /** New slots that hold nothing make no difference. */
  lemma Unchanged(es: seq<Slot>, n: nat, cs: seq<Change>)
    requires |es| <= n && LinkedIn(es, cs) && AllLead(es, cs) && AllOk(es)
    ensures var fs := Extended(es, n);
      SameSlots(es, fs, cs) && SameEvents(es, fs) && LinkedIn(fs, cs) && AllLead(fs, cs) && AllOk(fs)
  {
    var fs := Extended(es, n);
    assert SameUsed(es, fs);
    UsedSlots(es, fs, cs);
    StillLinked(es, fs, cs);
    StillLead(es, fs, cs);
  }

  /** The counts are those of the registered events. */
  ghost predicate AllOk(es: seq<Slot>) {
    forall fd :: InUseIn(es, fd) ==> es[fd].ctx.Ok()
  }

  /** The kernel has what it was told, for the descriptors it may be trusted with. */
  ghost predicate Faithful(es: seq<Slot>, cs: seq<Change>, kernel: map<int, nat>, lost: set<int>, refuses: set<int>) {
    forall fd :: fd !in lost && fd !in refuses ==> KernelHas(kernel, fd, ToldIn(es, cs, fd))
  }

  lemma FaithfulStill(es: seq<Slot>, fs: seq<Slot>, cs: seq<Change>, kernel: map<int, nat>, lost: set<int>,
      refuses: set<int>)
    requires SameSlots(es, fs, cs) && Faithful(es, cs, kernel, lost, refuses)
    ensures Faithful(fs, cs, kernel, lost, refuses)
  {
  }

  lemma MoreSlots(es: seq<Slot>, n: nat, fs: seq<Slot>, cs: seq<Change>, kernel: map<int, nat>, lost: set<int>,
      refuses: set<int>)
    requires |es| <= n && fs == Extended(es, n) && LinkedIn(es, cs) && AllLead(es, cs) && AllOk(es)
      && Faithful(es, cs, kernel, lost, refuses)
    ensures LinkedIn(fs, cs) && AllLead(fs, cs) && AllOk(fs) && Faithful(fs, cs, kernel, lost, refuses)
      && SameEvents(es, fs)
  {
    Unchanged(es, n, cs);
    FaithfulStill(es, fs, cs, kernel, lost, refuses);
  }

  /** Telling the kernel at once, without pending changes. */
  lemma DirectKeeps(es: seq<Slot>, cs: seq<Change>, fd: nat, next: Ctx, fs: seq<Slot>, kernel: map<int, nat>,
      k2: map<int, nat>, lost: set<int>, lost2: set<int>, refuses: set<int>)
    requires LinkedIn(es, cs) && cs == [] && AllOk(es) && Faithful(es, cs, kernel, lost, refuses)
    requires InUseIn(es, fd) && next.idxplus1 == Idx(es, fd) && next.Ok() && fs == es[fd := Used(next)]
    requires k2 ==
      if fd in refuses then kernel else if next.Want().IsEmpty() then kernel - {fd}
      else kernel[fd := next.Want().Bits()]
    requires lost2 == if fd in refuses then lost else lost - {fd}
    ensures AllOk(fs) && Faithful(fs, cs, k2, lost2, refuses)
  {
  }

  /** Storing the new counts afterwards. */
  lemma DirectStored(es: seq<Slot>, cs: seq<Change>, fd: nat, next: Ctx, fs: seq<Slot>, kernel: map<int, nat>,
      k2: map<int, nat>, lost: set<int>, lost2: set<int>, refuses: set<int>)
    requires LinkedIn(es, cs) && cs == [] && AllOk(es) && Faithful(es, cs, kernel, lost, refuses)
    requires InUseIn(es, fd) && next.idxplus1 == Idx(es, fd) && next.Ok() && fs == es[fd := Used(next)]
    requires k2 ==
      if fd in refuses then kernel else if next.Want().IsEmpty() then kernel - {fd}
      else kernel[fd := next.Want().Bits()]
    requires lost2 == if fd in refuses then lost else lost - {fd}
    ensures LinkedIn(fs, cs) && AllLead(fs, cs) && AllOk(fs) && Faithful(fs, cs, k2, lost2, refuses)
    ensures InUseIn(fs, fd) && EventsIn(fs, fd) == next.events
      && forall f :: f != fd ==> EventsIn(fs, f) == EventsIn(es, f)
  {
    LinkedStore(es, cs, fd, next);
    DirectKeeps(es, cs, fd, next, fs, kernel, k2, lost, lost2, refuses);
  }

  /** What is left of the descriptors that were lost before. */
  ghost predicate Forgiven(before: set<int>, lost: set<int>, refuses: set<int>, es: seq<Slot>, cs: seq<Change>,
      i: nat)
  {
    forall fd :: fd in lost <==> fd in before && StillLost(es, cs, refuses, i, fd)
  }

  lemma ForgivenStep(before: set<int>, lost: set<int>, refuses: set<int>, es: seq<Slot>, cs: seq<Change>, i: nat,
      lost2: set<int>)
    requires LinkedIn(es, cs) && i < |cs| && Forgiven(before, lost, refuses, es, cs, i)
    requires lost2 == if cs[i].Touches() && cs[i].fd !in refuses then lost - {cs[i].fd} else lost
    ensures Forgiven(before, lost2, refuses, es, cs, i + 1)
  {
  }

  const EMPTY: Ctx := Ctx([], 0, 0, 0, 0)

  /** A slot without events makes no difference. */
  lemma NewSlot(es: seq<Slot>, cs: seq<Change>, fd: nat)
    requires LinkedIn(es, cs) && AllLead(es, cs) && fd < |es| && es[fd].Free?
    ensures var fs := es[fd := Used(EMPTY)];
      && LinkedIn(fs, cs) && AllLead(fs, cs) && EMPTY.Ok()
      && forall f :: ToldIn(fs, cs, f) == ToldIn(es, cs, f)
  {
    var fs := es[fd := Used(EMPTY)];
    forall f
      ensures Idx(fs, f) == Idx(es, f) && ToldIn(fs, cs, f) == ToldIn(es, cs, f)
    {
    }
    forall j | 0 <= j < |cs|
      ensures LeadsIn(fs, cs[j])
    {
      assert LeadsIn(es, cs[j]);
    }
  }

  /** Nothing about the links depends on counts and lists. */
  lemma LinkedStore(es: seq<Slot>, cs: seq<Change>, fd: nat, next: Ctx)
    requires LinkedIn(es, cs) && InUseIn(es, fd) && next.idxplus1 == Idx(es, fd)
    ensures LinkedIn(es[fd := Used(next)], cs)
  {
    var fs := es[fd := Used(next)];
    assert forall f :: 0 <= f < |es| ==> InUseIn(es, f) == InUseIn(fs, f) && Idx(es, f) == Idx(fs, f);
  }

  lemma LeadsStore(es: seq<Slot>, cs: seq<Change>, fd: nat, next: Ctx)
    requires AllLead(es, cs) && InUseIn(es, fd) && next.Want() == es[fd].ctx.Want()
    ensures AllLead(es[fd := Used(next)], cs)
  {
  }

  /** How epoll_ctl can end. */
  datatype Errno = Fine | ENOENT | EEXIST | EBADF | EPERM

  class EventBase {
    /** Whether the backend is the one with a changelist. */
    const useChangelist: bool
    /** Descriptors on which epoll_ctl fails for good, such as regular files. */
    const refuses: set<int>
    var entries: seq<Slot>
    var changes: seq<Change>
    var changesSize: nat
    /** The epoll set of the kernel. */
    var kernel: map<int, nat>
    /** Descriptors that are closed now: epoll_ctl fails on them until they are opened again. */
    var closed: set<int>
    /** Descriptors whose entry in the kernel has been lost or replaced behind our back. */
    ghost var lost: set<int>

    constructor (useChangelist: bool, refuses: set<int>)
      ensures Valid() && this.useChangelist == useChangelist && this.refuses == refuses
      ensures lost == closed == {} && changes == [] && forall fd :: Events(fd) == []
    {
      this.useChangelist, this.refuses := useChangelist, refuses;
      entries, changes, changesSize, kernel, closed, lost := [], [], 0, map[], {}, {};
    }

    function Events(fd: int): seq<Event>
      reads this`entries
    {
      EventsIn(entries, fd)
    }

    /** Descriptors on which epoll_ctl fails. */
    function Bad(): set<int>
      reads this`closed
    {
      refuses + closed
    }

    ghost predicate Trusted(fd: int)
      reads this`lost
    {
      fd !in lost && fd !in refuses
    }

    ghost predicate Linked()
      reads this`entries, this`changes, this`changesSize
    {
      LinkedIn(entries, changes) && |changes| <= changesSize && (!useChangelist ==> changes == [])
    }

    ghost predicate Valid()
      reads this
    {
      && Linked() && AllLead(entries, changes) && AllOk(entries) && Faithful(entries, changes, kernel, lost, Bad())
      && closed <= lost
    }

    /** epoll_ctl */
    method Ctl(op: nat, fd: int, events: nat) returns (err: Errno)
      requires op in {EPOLL_CTL_ADD, EPOLL_CTL_MOD, EPOLL_CTL_DEL}
      modifies this`kernel
      ensures if fd in closed then err == EBADF
        else if fd in refuses then err == EPERM
        else if op == EPOLL_CTL_ADD then err == if fd in old(kernel) then EEXIST else Fine
        else err == if fd in old(kernel) then Fine else ENOENT
      ensures kernel ==
        if err != Fine then old(kernel) else if op == EPOLL_CTL_DEL then old(kernel) - {fd}
        else old(kernel)[fd := events]
    {
      if fd in closed {
        return EBADF;
      }
      if fd in refuses {
        return EPERM;
      }
      if op == EPOLL_CTL_ADD {
        if fd in kernel {
          return EEXIST;
        }
        kernel := kernel[fd := events];
      } else {
        if fd !in kernel {
          return ENOENT;
        }
        kernel := if op == EPOLL_CTL_DEL then kernel - {fd} else kernel[fd := events];
      }
      err := Fine;
    }

    /** epoll_apply_one_change. Whatever the kernel had for the descriptor, it has what the
        change leads to afterwards; a change that touches nothing makes no call. */
    method ApplyOneChange(ch: Change) returns (r: int)
      requires ch.Sane()
      modifies this`kernel
      ensures !ch.Touches() || ch.fd in Bad() ==> kernel == old(kernel)
      ensures ch.Touches() && ch.fd !in Bad() ==>
        kernel == if ch.Goal().IsEmpty() then old(kernel) - {ch.fd} else old(kernel)[ch.fd := ch.Goal().Bits()]
      ensures r == if ch.Touches() && ch.fd in Bad() && !ch.Goal().IsEmpty() then -1 else 0
    {
      var entry := Table(Index(ch.was, ch.write, ch.read, ch.close));
      TableIsRule(ch.was, ch.write, ch.read, ch.close);
      if entry.events == 0 {
        assert entry.op == 0;
        return 0;
      }
      var err := Ctl(entry.op, ch.fd, entry.events);
      if err == Fine {
        return 0;
      }
      if entry.op == EPOLL_CTL_MOD && err == ENOENT {
        var err2 := Ctl(EPOLL_CTL_ADD, ch.fd, entry.events);
        return if err2 == Fine then 0 else -1;
      }
      if entry.op == EPOLL_CTL_ADD && err == EEXIST {
        var err2 := Ctl(EPOLL_CTL_MOD, ch.fd, entry.events);
        return if err2 == Fine then 0 else -1;
      }
      if entry.op == EPOLL_CTL_DEL && (err == ENOENT || err == EBADF || err == EPERM) {
        assert old(kernel) - {ch.fd} == old(kernel) || ch.fd in Bad();
        return 0;
      }
      r := -1;
    }

    /** event_changelist_grow */
    method Grow()
      modifies this`changesSize
      ensures changesSize == if old(changesSize) < 64 then 64 else 2 * old(changesSize)
    {
      changesSize := if changesSize < 64 then 64 else changesSize * 2;
    }

    /** event_changelist_get_or_construct */
    method GetOrConstruct(fd: nat) returns (i: nat)
      requires Linked() && InUseIn(entries, fd) && useChangelist
      modifies this`entries, this`changes, this`changesSize
      ensures i == SlotOf(old(entries), old(changes), fd) && |changes| <= changesSize
      ensures changes == Opened(old(entries), old(changes), fd)
      ensures i < |changes| && entries == Linking(old(entries), fd, old(entries[fd].ctx), i)
    {
      if entries[fd].ctx.idxplus1 == 0 {
        if |changes| == changesSize {
          Grow();
        }
        i := |changes|;
        changes := changes + [NoChange(fd, entries[fd].ctx.Want())];
        entries := entries[fd := Used(entries[fd].ctx.(idxplus1 := i + 1))];
      } else {
        i := entries[fd].ctx.idxplus1 - 1;
        assert Idx(entries, fd) <= |changes|;
      }
    }

    /** event_changelist_add_ or event_changelist_del_, after which the new counts are stored. */
    method Enqueue(fd: nat, next: Ctx, m: Mask, add: bool) returns (ghost i: nat, ghost ch: Change)
      requires Linked() && InUseIn(entries, fd) && useChangelist
      modifies this`entries, this`changes, this`changesSize
      ensures i == SlotOf(old(entries), old(changes), fd) && |changes| <= changesSize
      ensures var cs := Opened(old(entries), old(changes), fd);
        && i < |cs| && ch == (if add then WithAdd(cs[i], m) else WithDel(cs[i], m)) && changes == cs[i := ch]
      ensures entries == Linking(old(entries), fd, next, i)
    {
      var at := GetOrConstruct(fd);
      changes := changes[at := if add then WithAdd(changes[at], m) else WithDel(changes[at], m)];
      entries := entries[fd := Used(next.(idxplus1 := entries[fd].ctx.idxplus1))];
      i, ch := at, changes[at];
    }

    /** What epoll_nochangelist_add and epoll_nochangelist_del ask for. */
    static function Direct(fd: nat, was: Mask, m: Mask, add: bool): Change {
      var act := if add then Add else Del;
      Change(fd, was, if m.write then act else Keep, if m.read then act else Keep, if m.close then act else Keep)
    }

    /** With a changelist: queues the change and stores the new counts. */
    method UpdateQueued(fd: nat, next: Ctx, res: Mask, add: bool)
      requires Valid() && useChangelist && InUseIn(entries, fd) && next.Ok() && !res.IsEmpty()
      requires next.Want() == if add then Plus(entries[fd].ctx.Want(), res) else Minus(entries[fd].ctx.Want(), res)
      modifies this`entries, this`changes, this`changesSize
      ensures Valid() && InUseIn(entries, fd) && Events(fd) == next.events
      ensures forall f :: f != fd ==> Events(f) == old(Events(f))
    {
      ghost var es, cs := entries, changes;
      OpenedIs(es, cs, fd);
      ghost var i, ch := Enqueue(fd, next, res, add);
      LinkedAfter(es, cs, fd, next, i, ch);
      LeadsAfter(es, cs, fd, next, i, ch);
      forall f
        ensures ToldIn(entries, changes, f) == ToldIn(es, cs, f)
      {
        ToldAfter(es, cs, fd, next, i, ch, f);
      }
    }

    /** The events wanted of fd stay the same. */
    method StoreOnly(fd: nat, next: Ctx)
      requires Valid() && InUseIn(entries, fd) && next.Ok() && next.Want() == entries[fd].ctx.Want()
      requires next.idxplus1 == entries[fd].ctx.idxplus1
      modifies this`entries
      ensures Valid() && InUseIn(entries, fd) && Events(fd) == next.events
      ensures forall f :: f != fd ==> Events(f) == old(Events(f))
    {
      LinkedStore(entries, changes, fd, next);
      LeadsStore(entries, changes, fd, next);
      entries := entries[fd := Used(next)];
      assert forall f :: ToldIn(entries, changes, f) == old(ToldIn(entries, changes, f));
    }

    /** Without a changelist: tells the kernel at once. */
    method UpdateDirect(fd: nat, next: Ctx, res: Mask, add: bool) returns (r: int)
      requires Valid() && !useChangelist && InUseIn(entries, fd) && next.Ok()
        && next.idxplus1 == entries[fd].ctx.idxplus1 && !res.IsEmpty()
      requires next.Want() == if add then Plus(entries[fd].ctx.Want(), res) else Minus(entries[fd].ctx.Want(), res)
      modifies this`entries, this`kernel, this`lost
      ensures Valid() && InUseIn(entries, fd) && lost == if fd in Bad() then old(lost) else old(lost) - {fd}
      ensures r == if fd in Bad() && !next.Want().IsEmpty() then -1 else 1
      ensures Events(fd) == if add && r == -1 then old(Events(fd)) else next.events
      ensures forall f :: f != fd ==> Events(f) == old(Events(f))
    {
      ghost var es, k, l := entries, kernel, lost;
      var ok := Tell(fd, next.Want(), res, add);
      if ok == -1 && add {
        return -1;
      }
      r := if ok == -1 then -1 else 1;
      DirectStored(es, changes, fd, next, entries[fd := Used(next)], k, kernel, l, lost, Bad());
      entries := entries[fd := Used(next)];
    }

    /** The call that makes the kernel's mask of fd the wanted one. */
    method Tell(fd: nat, want: Mask, res: Mask, add: bool) returns (r: int)
      requires InUseIn(entries, fd) && !res.IsEmpty()
      requires want == if add then Plus(entries[fd].ctx.Want(), res) else Minus(entries[fd].ctx.Want(), res)
      modifies this`kernel, this`lost
      ensures kernel ==
        if fd in Bad() then old(kernel) else if want.IsEmpty() then old(kernel) - {fd}
        else old(kernel)[fd := want.Bits()]
      ensures lost == if fd in Bad() then old(lost) else old(lost) - {fd}
      ensures r == if fd in Bad() && !want.IsEmpty() then -1 else 0
    {
      r := ApplyOneChange(Direct(fd, entries[fd].ctx.Want(), res, add));
      if fd !in Bad() {
        lost := lost - {fd};
      }
    }

    /** evmap_make_space */
    method MakeSpace(fd: nat)
      requires Valid()
      modifies this`entries
      ensures Valid() && fd < |entries|
      ensures SameEvents(old(entries), entries)
      ensures var n := if old(|entries|) == 0 then 32 else old(|entries|);
        exists k: nat :: |entries| == Pow2(k) * n && (k > 0 ==> Pow2(k - 1) * n <= fd)
    {
      ghost var k;
      var n;
      n, k := Doubled(if |entries| == 0 then 32 else |entries|, fd);
      MoreSlots(entries, n, Extended(entries, n), changes, kernel, lost, Bad());
      entries := Extended(entries, n);
    }

    /** The first of size, 2 * size, 4 * size and so on that is above fd. */
    static method Doubled(size: nat, fd: nat) returns (n: nat, ghost k: nat)
      requires 0 < size
      ensures size <= n && fd < n && n == Pow2(k) * size && (k > 0 ==> Pow2(k - 1) * size <= fd)
    {
      n, k := size, 0;
      while n <= fd
        invariant 0 < size <= n == Pow2(k) * size && (k > 0 ==> Pow2(k - 1) * size <= fd)
        decreases fd - n
      {
        assert Pow2(k + 1) * size == 2 * (Pow2(k) * size);
        n, k := n * 2, k + 1;
      }
    }

    /** GET_IO_SLOT_AND_CTOR */
    method Construct(fd: nat)
      requires Valid()
      modifies this`entries
      ensures Valid() && InUseIn(entries, fd)
      ensures forall f :: Events(f) == old(Events(f))
    {
      if fd >= |entries| {
        MakeSpace(fd);
      }
      if entries[fd].Free? {
        NewSlot(entries, changes, fd);
        entries := entries[fd := Used(EMPTY)];
      }
    }

    /** evmap_io_add_ */
    method AddIo(fd: int, ev: Event) returns (r: int)
      requires Valid() && !ev.mask.IsEmpty()
      modifies this
      ensures Valid() && lost <= old(lost)
      ensures var want := WantOf(old(Events(fd))); var more := Minus(ev.mask, want);
        var full := exists w :: Has(ev.mask, w) && Count(old(Events(fd)), w) == 0xffff;
        r == if fd < 0 then 0 else if full || (!useChangelist && !more.IsEmpty() && fd in Bad()) then -1
          else if more.IsEmpty() then 0 else 1
      ensures Events(fd) == if fd < 0 || r == -1 then old(Events(fd)) else [ev] + old(Events(fd))
      ensures forall f :: f != fd ==> Events(f) == old(Events(f))
      ensures useChangelist ==> kernel == old(kernel) && lost == old(lost)
    {
      if fd < 0 {
        return 0;
      }
      Construct(fd);
      var ctx := entries[fd].ctx;
      var nread, nwrite, nclose := ctx.nread, ctx.nwrite, ctx.nclose;
      var res := Mask(false, false, false);
      if ev.mask.read {
        nread := nread + 1;
        res := res.(read := nread == 1);
      }
      if ev.mask.write {
        nwrite := nwrite + 1;
        res := res.(write := nwrite == 1);
      }
      if ev.mask.close {
        nclose := nclose + 1;
        res := res.(close := nclose == 1);
      }
      if nread > 0xffff || nwrite > 0xffff || nclose > 0xffff {
        assert Has(ev.mask, if nread > 0xffff then Read else if nwrite > 0xffff then Write else Close);
        return -1;
      }
      CountPush(ev, ctx.events, Read);
      CountPush(ev, ctx.events, Write);
      CountPush(ev, ctx.events, Close);
      var next := Ctx([ev] + ctx.events, nread, nwrite, nclose, ctx.idxplus1);
      r := Update(fd, next, res, true);
    }

    /** Where evsel->add or evsel->del is called, and the new counts are stored. */
    method Update(fd: nat, next: Ctx, res: Mask, add: bool) returns (r: int)
      requires Valid() && InUseIn(entries, fd) && next.Ok() && next.idxplus1 == entries[fd].ctx.idxplus1
      requires next.Want() == if add then Plus(entries[fd].ctx.Want(), res) else Minus(entries[fd].ctx.Want(), res)
      modifies this
      ensures Valid() && lost <= old(lost)
      ensures r ==
        if res.IsEmpty() then 0 else if !useChangelist && fd in Bad() && !next.Want().IsEmpty() then -1 else 1
      ensures Events(fd) == if add && r == -1 then old(Events(fd)) else next.events
      ensures forall f :: f != fd ==> Events(f) == old(Events(f))
      ensures useChangelist ==> kernel == old(kernel) && lost == old(lost)
    {
      if res.IsEmpty() {
        StoreOnly(fd, next);
        r := 0;
      } else if useChangelist {
        UpdateQueued(fd, next, res, add);
        r := 1;
      } else {
        r := UpdateDirect(fd, next, res, add);
      }
    }

    /** evmap_io_del_ of the event whose links are those of position i of the list. */
    method DelIo(fd: int, i: nat, ev: Event) returns (r: int)
      requires Valid() && !ev.mask.IsEmpty()
      requires 0 <= fd < |entries| ==> i < |Events(fd)| && Events(fd)[i] == ev
      modifies this
      ensures Valid() && lost <= old(lost)
      ensures var rest :=
        if fd < 0 || fd >= |old(entries)| then [] else old(Events(fd))[..i] + old(Events(fd))[i + 1..];
        && Events(fd) == rest
        && r == if fd < 0 then 0 else if fd >= |old(entries)| then -1
          else if WantOf(rest) == WantOf(old(Events(fd))) then 0
          else if !useChangelist && fd in Bad() && !WantOf(rest).IsEmpty() then -1 else 1
      ensures forall f :: f != fd ==> Events(f) == old(Events(f))
      ensures useChangelist ==> kernel == old(kernel) && lost == old(lost)
    {
      if fd < 0 {
        return 0;
      }
      if fd >= |entries| {
        return -1;
      }
      var ctx := entries[fd].ctx;
      var nread: int, nwrite: int, nclose: int := ctx.nread, ctx.nwrite, ctx.nclose;
      var res := Mask(false, false, false);
      CountRemove(ctx.events, i, Read);
      CountRemove(ctx.events, i, Write);
      CountRemove(ctx.events, i, Close);
      if ev.mask.read {
        nread := nread - 1;
        res := res.(read := nread == 0);
        assert nread >= 0;
      }
      if ev.mask.write {
        nwrite := nwrite - 1;
        res := res.(write := nwrite == 0);
        assert nwrite >= 0;
      }
      if ev.mask.close {
        nclose := nclose - 1;
        res := res.(close := nclose == 0);
        assert nclose >= 0;
      }
      var next := Ctx(ctx.events[..i] + ctx.events[i + 1..], nread, nwrite, nclose, ctx.idxplus1);
      r := Update(fd, next, res, false);
    }

    /** epoll_apply_changes: every descriptor the kernel may be trusted with, or that has a
        change to make, ends up with what is wanted. */
    method ApplyChanges() returns (r: int)
      requires Valid()
      modifies this`kernel, this`lost
      ensures forall fd :: Trusted(fd) ==> KernelHas(kernel, fd, WantIn(entries, fd))
      ensures forall fd :: fd in lost <==> fd in old(lost) && (fd in Bad() || !Pending(entries, changes, fd))
      ensures r == if exists i :: 0 <= i < |changes| && Fails(changes[i]) then -1 else 0
      ensures closed <= lost
    {
      r := 0;
      var i := 0;
      ghost var failed, before := 0, lost;
      assert Reached(kernel, lost + Bad(), entries, changes, 0);
      while i < |changes|
        invariant 0 <= i <= |changes|
        invariant Reached(kernel, lost + Bad(), entries, changes, i)
        invariant Forgiven(before, lost, Bad(), entries, changes, i) && closed <= lost
        invariant r == 0 ==> forall j :: 0 <= j < i ==> !Fails(changes[j])
        invariant r != 0 ==> r == -1 && 0 <= failed < i && Fails(changes[failed])
      {
        var one := ApplyAt(i, before);
        if one < 0 {
          r, failed := -1, i;
        }
        i := i + 1;
      }
      ReachedEnds(kernel, lost + Bad(), entries, changes);
      assert forall fd :: Idx(entries, fd) <= |changes|;
    }

    /** One round of the loop. */
    method ApplyAt(i: nat, ghost before: set<int>) returns (r: int)
      requires Linked() && AllLead(entries, changes) && i < |changes|
      requires Reached(kernel, lost + Bad(), entries, changes, i)
        && Forgiven(before, lost, Bad(), entries, changes, i) && closed <= lost
      modifies this`kernel, this`lost
      ensures Reached(kernel, lost + Bad(), entries, changes, i + 1)
        && Forgiven(before, lost, Bad(), entries, changes, i + 1) && closed <= lost
      ensures r < 0 <==> Fails(changes[i])
    {
      var ch := changes[i];
      assert LeadsIn(entries, ch);
      ghost var k, l := kernel, lost;
      r := ApplyOneChange(ch);
      if ch.Touches() && ch.fd !in Bad() {
        lost := lost - {ch.fd};
      }
      ReachedStep(k, l, Bad(), entries, changes, i, kernel, lost);
      ForgivenStep(before, l, Bad(), entries, changes, i, lost);
    }

    predicate Fails(ch: Change)
      reads this`closed
    {
      ch.Touches() && ch.fd in Bad() && !ch.Goal().IsEmpty()
    }

    /** event_changelist_remove_all_ */
    method RemoveAll()
      requires Linked()
      modifies this`entries, this`changes
      ensures changes == [] && Linked()
      ensures forall fd :: InUseIn(old(entries), fd) ==>
        InUseIn(entries, fd) && entries[fd].ctx == old(entries)[fd].ctx.(idxplus1 := 0)
      ensures forall fd :: InUseIn(entries, fd) ==> InUseIn(old(entries), fd)
    {
      ghost var es := entries;
      var i := 0;
      assert AllCleared(es, 0) == es;
      while i < |changes|
        invariant 0 <= i <= |changes| && changes == old(changes) && entries == AllCleared(es, i)
      {
        var fd := changes[i].fd;
        ClearStep(es, changes, i, entries);
        assert entries[fd].ctx.idxplus1 == i + 1;
        entries := entries[fd := Used(entries[fd].ctx.(idxplus1 := 0))];
        i := i + 1;
      }
      ClearedAll(es, changes);
      changes := [];
    }

    /** The part of epoll_dispatch that comes before waiting. */
    method Dispatch() returns (r: int)
      requires Valid()
      modifies this`entries, this`changes, this`kernel, this`lost
      ensures Valid() && changes == []
      ensures forall fd :: Events(fd) == old(Events(fd))
      ensures forall fd :: Trusted(fd) ==> KernelHas(kernel, fd, WantOf(Events(fd)))
      ensures forall fd :: fd in lost <==>
        fd in old(lost) && (fd in Bad() || !Pending(old(entries), old(changes), fd))
    {
      r := ApplyChanges();
      ghost var es := entries;
      RemoveAll();
      assert forall fd :: WantIn(entries, fd) == WantIn(es, fd) == ToldIn(entries, changes, fd);
    }

    /** What may happen outside: the file behind the descriptor is another one or was duplicated,
        and the kernel no longer has what it was told. */
    method Disturb(fd: int, events: nat)
      requires Valid()
      modifies this`kernel, this`lost
      ensures Valid() && lost == old(lost) + {fd}
      ensures kernel == if events == 0 then old(kernel) - {fd} else old(kernel)[fd := events]
    {
      kernel := if events == 0 then kernel - {fd} else kernel[fd := events];
      lost := lost + {fd};
    }

    /** The descriptor is closed; its entry stays when the file has another descriptor. */
    method CloseFd(fd: int, stays: bool)
      requires Valid()
      modifies this`kernel, this`lost, this`closed
      ensures Valid() && closed == old(closed) + {fd} && lost == old(lost) + {fd}
      ensures kernel == if stays then old(kernel) else old(kernel) - {fd}
    {
      if !stays {
        kernel := kernel - {fd};
      }
      closed, lost := closed + {fd}, lost + {fd};
    }

    /** A descriptor gets the number again. */
    method ReopenFd(fd: int)
      requires Valid()
      modifies this`closed
      ensures Valid() && closed == old(closed) - {fd}
    {
      closed := closed - {fd};
    }

    /** Without pending changes the kernel's set is a function of the registered events. */
    lemma KernelIs(fd: int)
      requires Valid() && changes == [] && Trusted(fd)
      ensures KernelHas(kernel, fd, WantOf(Events(fd)))
    {
      assert ToldIn(entries, changes, fd) == WantIn(entries, fd);
    }
  }

  /** Both backends, with the same events registered, lead the kernel to the same set. */
  lemma BackendsAgree(a: EventBase, b: EventBase)
    requires a.Valid() && b.Valid() && a.changes == [] && b.changes == []
    requires a.refuses == b.refuses == {} && a.lost == b.lost == {}
    requires forall fd :: a.Events(fd) == b.Events(fd)
    ensures a.kernel == b.kernel
  {
    forall fd
      ensures fd in a.kernel <==> fd in b.kernel
      ensures fd in a.kernel && fd in b.kernel ==> a.kernel[fd] == b.kernel[fd]
    {
      a.KernelIs(fd);
      b.KernelIs(fd);
    }
  }
}
