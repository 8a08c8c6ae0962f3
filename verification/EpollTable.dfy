/** epoll_op_table of epolltable-internal.h: which epoll_ctl call brings about the pending
    changes of one file descriptor. */
module EpollTable {

  const IN: nat := 0x001
  const OUT: nat := 0x004
  const RDHUP: nat := 0x2000

  const EPOLL_CTL_ADD: nat := 1
  const EPOLL_CTL_DEL: nat := 2
  const EPOLL_CTL_MOD: nat := 3

  /** The events one is interested in: EV_READ, EV_WRITE and EV_CLOSED. */
  datatype Mask = Mask(read: bool, write: bool, close: bool) {
    predicate IsEmpty() {
      !read && !write && !close
    }

    /** The epoll bits. */
    function Bits(): (b: nat)
      ensures b == 0 <==> IsEmpty()
    {
      (if read then IN else 0) + (if write then OUT else 0) + (if close then RDHUP else 0)
    }
  }

  /** The low bits of a change: nothing, EV_CHANGE_ADD, EV_CHANGE_DEL, or both. */
  datatype Act = Keep | Add | Del | Both {
    function Code(): (c: nat)
      ensures c < 4
    {
      match this
      case Keep => 0
      case Add => 1
      case Del => 2
      case Both => 3
    }
  }

  datatype Entry = Entry(events: nat, op: nat)

  const NOP: Entry := Entry(0, 0)
  const XXX: Entry := Entry(0, 255)

  function AddOp(events: nat): Entry {
    Entry(events, EPOLL_CTL_ADD)
  }

  function DelOp(events: nat): Entry {
    Entry(events, EPOLL_CTL_DEL)
  }

  function ModOp(events: nat): Entry {
    Entry(events, EPOLL_CTL_MOD)
  }

  /** EPOLL_OP_TABLE_INDEX; the bit fields do not overlap, so they add up. */
  function Index(old_: Mask, write: Act, read: Act, close: Act): (i: nat)
    ensures i < 512
  {
    close.Code() + 4 * read.Code() + 16 * write.Code()
    + (if old_.read then 64 else 0) + (if old_.write then 128 else 0) + (if old_.close then 256 else 0)
  }

  function Pick(i: nat, none: Entry, add: Entry, del: Entry, both: Entry): Entry {
    match i
    case 0 => none
    case 1 => add
    case 2 => del
    case _ => both
  }

  /** The table, 64 entries for each set of old events. */
  function Table(i: nat): Entry
    requires i < 512
  {
    match i / 64
    case 0 => Row0(i % 64 / 4, i % 4)
    case 1 => Row1(i % 64 / 4, i % 4)
    case 2 => Row2(i % 64 / 4, i % 4)
    case 3 => Row3(i % 64 / 4, i % 4)
    case 4 => Row4(i % 64 / 4, i % 4)
    case 5 => Row5(i % 64 / 4, i % 4)
    case 6 => Row6(i % 64 / 4, i % 4)
    case _ => Row7(i % 64 / 4, i % 4)
  }

  /** Old events: none. */
  function Row0(g: nat, c: nat): Entry {
    match g
    case 0 => Pick(c, NOP, AddOp(RDHUP), DelOp(RDHUP), XXX)
    case 1 => Pick(c, AddOp(IN), AddOp(IN + RDHUP), AddOp(IN), XXX)
    case 2 => Pick(c, DelOp(IN), AddOp(RDHUP), DelOp(IN + RDHUP), XXX)
    case 4 => Pick(c, AddOp(OUT), AddOp(OUT + RDHUP), AddOp(OUT), XXX)
    case 5 => Pick(c, AddOp(IN + OUT), AddOp(IN + OUT + RDHUP), AddOp(IN + OUT), XXX)
    case 6 => Pick(c, AddOp(OUT), AddOp(OUT + RDHUP), AddOp(OUT), XXX)
    case 8 => Pick(c, DelOp(OUT), AddOp(RDHUP), DelOp(OUT + RDHUP), XXX)
    case 9 => Pick(c, AddOp(IN), AddOp(IN + RDHUP), AddOp(IN), XXX)
    case 10 => Pick(c, DelOp(IN + OUT), AddOp(RDHUP), DelOp(IN + OUT + RDHUP), XXX)
    case _ => Pick(c, XXX, XXX, XXX, XXX)
  }

  /** Old events: read. */
  function Row1(g: nat, c: nat): Entry {
    match g
    case 0 => Pick(c, NOP, ModOp(IN + RDHUP), ModOp(IN), XXX)
    case 1 => Pick(c, ModOp(IN), ModOp(IN + RDHUP), ModOp(IN), XXX)
    case 2 => Pick(c, DelOp(IN), ModOp(RDHUP), DelOp(IN + RDHUP), XXX)
    case 4 => Pick(c, ModOp(IN + OUT), ModOp(IN + OUT + RDHUP), ModOp(IN + OUT), XXX)
    case 5 => Pick(c, ModOp(IN + OUT), ModOp(IN + OUT + RDHUP), ModOp(IN + OUT), XXX)
    case 6 => Pick(c, ModOp(OUT), ModOp(OUT + RDHUP), ModOp(OUT), XXX)
    case 8 => Pick(c, ModOp(IN), ModOp(IN + RDHUP), ModOp(IN), XXX)
    case 9 => Pick(c, ModOp(IN), ModOp(IN + RDHUP), ModOp(IN), XXX)
    case 10 => Pick(c, DelOp(IN + OUT), ModOp(RDHUP), DelOp(IN + OUT + RDHUP), XXX)
    case _ => Pick(c, XXX, XXX, XXX, XXX)
  }

  /** Old events: write. */
  function Row2(g: nat, c: nat): Entry {
    match g
    case 0 => Pick(c, NOP, ModOp(OUT + RDHUP), ModOp(OUT), XXX)
    case 1 => Pick(c, ModOp(IN + OUT), ModOp(IN + OUT + RDHUP), ModOp(IN + OUT), XXX)
    case 2 => Pick(c, ModOp(OUT), ModOp(OUT + RDHUP), ModOp(OUT), XXX)
    case 4 => Pick(c, ModOp(OUT), ModOp(OUT + RDHUP), ModOp(OUT), XXX)
    case 5 => Pick(c, ModOp(IN + OUT), ModOp(IN + OUT + RDHUP), ModOp(IN + OUT), XXX)
    case 6 => Pick(c, ModOp(OUT), ModOp(OUT + RDHUP), ModOp(OUT), XXX)
    case 8 => Pick(c, DelOp(OUT), ModOp(RDHUP), DelOp(OUT + RDHUP), XXX)
    case 9 => Pick(c, ModOp(IN), ModOp(IN + RDHUP), ModOp(IN), XXX)
    case 10 => Pick(c, DelOp(IN + OUT), ModOp(RDHUP), DelOp(IN + OUT + RDHUP), XXX)
    case _ => Pick(c, XXX, XXX, XXX, XXX)
  }

  /** Old events: read and write. */
  function Row3(g: nat, c: nat): Entry {
    match g
    case 0 => Pick(c, NOP, ModOp(IN + OUT + RDHUP), ModOp(IN + OUT), XXX)
    case 1 => Pick(c, ModOp(IN + OUT), ModOp(IN + OUT + RDHUP), ModOp(IN + OUT), XXX)
    case 2 => Pick(c, ModOp(OUT), ModOp(OUT + RDHUP), ModOp(OUT), XXX)
    case 4 => Pick(c, ModOp(IN + OUT), ModOp(IN + OUT + RDHUP), ModOp(IN + OUT), XXX)
    case 5 => Pick(c, ModOp(IN + OUT), ModOp(IN + OUT + RDHUP), ModOp(IN + OUT), XXX)
    case 6 => Pick(c, ModOp(OUT), ModOp(OUT + RDHUP), ModOp(OUT), XXX)
    case 8 => Pick(c, ModOp(IN), ModOp(IN + RDHUP), ModOp(IN), XXX)
    case 9 => Pick(c, ModOp(IN), ModOp(IN + RDHUP), ModOp(IN), XXX)
    case 10 => Pick(c, DelOp(IN + OUT), ModOp(RDHUP), DelOp(IN + OUT + RDHUP), XXX)
    case _ => Pick(c, XXX, XXX, XXX, XXX)
  }

  /** Old events: close. */
  function Row4(g: nat, c: nat): Entry {
    match g
    case 0 => Pick(c, NOP, ModOp(RDHUP), DelOp(RDHUP), XXX)
    case 1 => Pick(c, ModOp(IN + RDHUP), ModOp(IN + RDHUP), ModOp(IN), XXX)
    case 2 => Pick(c, ModOp(RDHUP), ModOp(RDHUP), DelOp(IN + RDHUP), XXX)
    case 4 => Pick(c, ModOp(OUT + RDHUP), ModOp(OUT + RDHUP), ModOp(OUT), XXX)
    case 5 => Pick(c, ModOp(IN + OUT + RDHUP), ModOp(IN + OUT + RDHUP), ModOp(IN + OUT), XXX)
    case 6 => Pick(c, ModOp(OUT + RDHUP), ModOp(OUT + RDHUP), ModOp(OUT), XXX)
    case 8 => Pick(c, ModOp(RDHUP), ModOp(RDHUP), DelOp(OUT + RDHUP), XXX)
    case 9 => Pick(c, ModOp(IN + RDHUP), ModOp(IN + RDHUP), ModOp(IN), XXX)
    case 10 => Pick(c, ModOp(RDHUP), ModOp(RDHUP), DelOp(IN + OUT + RDHUP), XXX)
    case _ => Pick(c, XXX, XXX, XXX, XXX)
  }

  /** Old events: close and read. */
  function Row5(g: nat, c: nat): Entry {
    match g
    case 0 => Pick(c, NOP, ModOp(IN + RDHUP), ModOp(IN), XXX)
    case 1 => Pick(c, ModOp(IN + RDHUP), ModOp(IN + RDHUP), ModOp(IN), XXX)
    case 2 => Pick(c, ModOp(RDHUP), ModOp(RDHUP), DelOp(IN + RDHUP), XXX)
    case 4 => Pick(c, ModOp(IN + OUT + RDHUP), ModOp(IN + OUT + RDHUP), ModOp(IN + OUT), XXX)
    case 5 => Pick(c, ModOp(IN + OUT + RDHUP), ModOp(IN + OUT + RDHUP), ModOp(IN + OUT), XXX)
    case 6 => Pick(c, ModOp(OUT + RDHUP), ModOp(OUT + RDHUP), ModOp(OUT), XXX)
    case 8 => Pick(c, ModOp(IN + RDHUP), ModOp(IN + RDHUP), ModOp(IN), XXX)
    case 9 => Pick(c, ModOp(IN + RDHUP), ModOp(IN + RDHUP), ModOp(IN), XXX)
    case 10 => Pick(c, ModOp(RDHUP), ModOp(RDHUP), DelOp(IN + OUT + RDHUP), XXX)
    case _ => Pick(c, XXX, XXX, XXX, XXX)
  }

  /** Old events: close and write. */
  function Row6(g: nat, c: nat): Entry {
    match g
    case 0 => Pick(c, NOP, ModOp(OUT + RDHUP), ModOp(OUT), XXX)
    case 1 => Pick(c, ModOp(IN + OUT + RDHUP), ModOp(IN + OUT + RDHUP), ModOp(IN + OUT), XXX)
    case 2 => Pick(c, ModOp(OUT + RDHUP), ModOp(OUT + RDHUP), ModOp(OUT), XXX)
    case 4 => Pick(c, ModOp(OUT + RDHUP), ModOp(OUT + RDHUP), ModOp(OUT), XXX)
    case 5 => Pick(c, ModOp(IN + OUT + RDHUP), ModOp(IN + OUT + RDHUP), ModOp(IN + OUT), XXX)
    case 6 => Pick(c, ModOp(OUT + RDHUP), ModOp(OUT + RDHUP), ModOp(OUT), XXX)
    case 8 => Pick(c, ModOp(RDHUP), ModOp(RDHUP), DelOp(OUT + RDHUP), XXX)
    case 9 => Pick(c, ModOp(IN + RDHUP), ModOp(IN + RDHUP), ModOp(IN), XXX)
    case 10 => Pick(c, ModOp(RDHUP), ModOp(RDHUP), DelOp(IN + OUT + RDHUP), XXX)
    case _ => Pick(c, XXX, XXX, XXX, XXX)
  }

  /** Old events: close, read and write. */
  function Row7(g: nat, c: nat): Entry {
    match g
    case 0 => Pick(c, NOP, ModOp(IN + OUT + RDHUP), ModOp(IN + OUT), XXX)
    case 1 => Pick(c, ModOp(IN + OUT + RDHUP), ModOp(IN + OUT + RDHUP), ModOp(IN + OUT), XXX)
    case 2 => Pick(c, ModOp(OUT + RDHUP), ModOp(OUT + RDHUP), ModOp(OUT), XXX)
    case 4 => Pick(c, ModOp(IN + OUT + RDHUP), ModOp(IN + OUT + RDHUP), ModOp(IN + OUT), XXX)
    case 5 => Pick(c, ModOp(IN + OUT + RDHUP), ModOp(IN + OUT + RDHUP), ModOp(IN + OUT), XXX)
    case 6 => Pick(c, ModOp(OUT + RDHUP), ModOp(OUT + RDHUP), ModOp(OUT), XXX)
    case 8 => Pick(c, ModOp(IN + RDHUP), ModOp(IN + RDHUP), ModOp(IN), XXX)
    case 9 => Pick(c, ModOp(IN + RDHUP), ModOp(IN + RDHUP), ModOp(IN), XXX)
    case 10 => Pick(c, ModOp(RDHUP), ModOp(RDHUP), DelOp(IN + OUT + RDHUP), XXX)
    case _ => Pick(c, XXX, XXX, XXX, XXX)
  }

  /** What is asked for in the end. */
  function Wanted(old_: Mask, write: Act, read: Act, close: Act): Mask {
    Mask(After(old_.read, read), After(old_.write, write), After(old_.close, close))
  }

  function After(was: bool, act: Act): bool {
    act == Add || (was && act != Del)
  }

  /** The rule the table was generated from, with EPOLLRDHUP treated like the others. */
  function Rule(old_: Mask, write: Act, read: Act, close: Act): Entry {
    if Both in {write, read, close} then XXX
    else if Add in {write, read, close} then
      Entry(Wanted(old_, write, read, close).Bits(), if old_.IsEmpty() then EPOLL_CTL_ADD else EPOLL_CTL_MOD)
    else if Del in {write, read, close} then
      if Wanted(old_, write, read, close).IsEmpty() then DelOp(Mask(read == Del, write == Del, close == Del).Bits())
      else ModOp(Wanted(old_, write, read, close).Bits())
    else NOP
  }

  lemma Row0IsRule(write: Act, read: Act, close: Act)
    ensures Row0(4 * write.Code() + read.Code(), close.Code()) == Rule(Mask(false, false, false), write, read, close)
  {
    match write case Keep => case Add => case Del => case Both =>
  }

  lemma Row1IsRule(write: Act, read: Act, close: Act)
    ensures Row1(4 * write.Code() + read.Code(), close.Code()) == Rule(Mask(true, false, false), write, read, close)
  {
    match write case Keep => case Add => case Del => case Both =>
  }

  lemma Row2IsRule(write: Act, read: Act, close: Act)
    ensures Row2(4 * write.Code() + read.Code(), close.Code()) == Rule(Mask(false, true, false), write, read, close)
  {
    match write case Keep => case Add => case Del => case Both =>
  }

  lemma Row3IsRule(write: Act, read: Act, close: Act)
    ensures Row3(4 * write.Code() + read.Code(), close.Code()) == Rule(Mask(true, true, false), write, read, close)
  {
    match write case Keep => case Add => case Del => case Both =>
  }

  lemma Row4IsRule(write: Act, read: Act, close: Act)
    ensures Row4(4 * write.Code() + read.Code(), close.Code()) == Rule(Mask(false, false, true), write, read, close)
  {
    match write case Keep => case Add => case Del => case Both =>
  }

  lemma Row5IsRule(write: Act, read: Act, close: Act)
    ensures Row5(4 * write.Code() + read.Code(), close.Code()) == Rule(Mask(true, false, true), write, read, close)
  {
    match write case Keep => case Add => case Del => case Both =>
  }

  lemma Row6IsRule(write: Act, read: Act, close: Act)
    ensures Row6(4 * write.Code() + read.Code(), close.Code()) == Rule(Mask(false, true, true), write, read, close)
  {
    match write case Keep => case Add => case Del => case Both =>
  }

  lemma Row7IsRule(write: Act, read: Act, close: Act)
    ensures Row7(4 * write.Code() + read.Code(), close.Code()) == Rule(Mask(true, true, true), write, read, close)
  {
    match write case Keep => case Add => case Del => case Both =>
  }

  lemma IndexParts(old_: Mask, write: Act, read: Act, close: Act)
    ensures var i := Index(old_, write, read, close);
      && i / 64 == (if old_.read then 1 else 0) + (if old_.write then 2 else 0) + (if old_.close then 4 else 0)
      && i % 64 / 4 == 4 * write.Code() + read.Code() && i % 4 == close.Code()
  {
  }

  /** All 512 entries follow the rule. */
  lemma TableIsRule(old_: Mask, write: Act, read: Act, close: Act)
    ensures Table(Index(old_, write, read, close)) == Rule(old_, write, read, close)
  {
    IndexParts(old_, write, read, close);
    Row0IsRule(write, read, close);
    Row1IsRule(write, read, close);
    Row2IsRule(write, read, close);
    Row3IsRule(write, read, close);
    Row4IsRule(write, read, close);
    Row5IsRule(write, read, close);
    Row6IsRule(write, read, close);
    Row7IsRule(write, read, close);
  }

  /** Every place of the table is the place of some changes. */
  lemma IndexOnto(i: nat) returns (old_: Mask, write: Act, read: Act, close: Act)
    requires i < 512
    ensures Index(old_, write, read, close) == i
  {
    var a := i / 4;
    var b := a / 4;
    var m := b / 4;
    old_ := Mask(m % 2 == 1, m / 2 % 2 == 1, m / 4 == 1);
    assert m == (if old_.read then 1 else 0) + (if old_.write then 2 else 0) + (if old_.close then 4 else 0);
    write, read, close := ActOf(b % 4), ActOf(a % 4), ActOf(i % 4);
  }

  function ActOf(c: nat): (a: Act)
    requires c < 4
    ensures a.Code() == c
  {
    if c == 0 then Keep else if c == 1 then Add else if c == 2 then Del else Both
  }
}
