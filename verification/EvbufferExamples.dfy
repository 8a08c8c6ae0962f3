/** Runs of the public operations of buffer.c that end in the cases their contracts tell apart:
    refused commits, commits out of order, prepends that stop halfway, and a search past its end. */
module EvbufferExamples {
  import opened Basics
  import opened Chunks
  import opened Evbuffers
  import opened EvbufferOps
  import opened EvbufferMove
  import opened EvbufferRead
  import opened EvbufferReserve
  import opened EvbufferCommit
  import opened EvbufferFill
  import opened EvbufferSearch

  lemma BlockLens()
    ensures BlockLen(1) == BlockLen(900) == BlockLen(924) == 976
    ensures BlockLen(1025) == BlockLen(1048) == 2000
  {
    assert Doubled(2048, 1073) == 2048 && Doubled(2048, 1096) == 2048;
  }

  /** vs are empty chunks with blocks of these sizes. */
  predicate Blocks(vs: seq<Chunk>, sizes: seq<nat>) {
    && |vs| == |sizes|
    && forall i :: 0 <= i < |vs| ==>
       vs[i].off == 0 && vs[i].misalign == 0 && |vs[i].mem| == sizes[i] && 0 < sizes[i] <= BLOCK_MAX
  }

  function Sum(sizes: seq<nat>): nat {
    if sizes == [] then 0 else sizes[0] + Sum(sizes[1..])
  }

  lemma {:induction false} BlocksSpace(vs: seq<Chunk>, sizes: seq<nat>, k: nat)
    requires Blocks(vs, sizes) && k <= |vs|
    ensures AllWf(vs) && SpaceOf(vs, k, |vs| - k) == Sum(sizes[k..])
    decreases |vs| - k
  {
    if k < |vs| {
      BlocksSpace(vs, sizes, k + 1);
      assert sizes[k..][1..] == sizes[k + 1..];
    }
  }

  /** A reservation in more chains than there are, for more than they hold, adds a chain. */
  method ReserveMore(buf: Evbuffer, size: nat, n: int, ghost sizes: seq<nat>, ghost more: seq<nat>)
    returns (vecs: seq<Iovec>)
    requires buf.Valid() && !buf.freezeEnd && buf.lwd == 0 && Blocks(buf.vals, sizes) && |sizes| < n && n >= 2
    requires Sum(sizes) < size <= BLOCK_MAX && more == sizes + [BlockLen(size - Sum(sizes))]
    modifies buf, buf.Repr
    ensures buf.Valid() && fresh(buf.Repr - old(buf.Repr)) && buf.Contents() == old(buf.Contents())
    ensures buf.lwd == 0 && Blocks(buf.vals, more) && Matches(buf, vecs, 0) && Positive(vecs) && |vecs| <= n
      && TotalLen(vecs) >= size
    ensures unchanged(buf`freezeStart, buf`freezeEnd)
  {
    ghost var vs, lwd, k := buf.vals, buf.lwd, 0;
    ShortBlocks(vs, lwd, sizes, size, n);
    var ok;
    ok, vecs, k := ReserveSpace(buf, size, n);
    MoreBlocks(buf, vecs, vs, lwd, k, size, n, size - Sum(sizes));
    BlocksGrown(vs, buf.vals, sizes, more, buf.lwd);
  }

  lemma ShortBlocks(vs: seq<Chunk>, lwd: nat, sizes: seq<nat>, size: nat, n: nat)
    requires Shape(vs, lwd) && lwd == 0 && Blocks(vs, sizes) && |sizes| < n && Sum(sizes) < size
    ensures Asked(vs, lwd, size, n) <= size
    ensures vs == [] ==> Sum(sizes) == 0
    ensures vs != [] ==> Short(vs, lwd, size, n) && Missing(vs, lwd, size) == size - Sum(sizes)
  {
    BlocksSpace(vs, sizes, 0);
    assert sizes[0..] == sizes;
  }

  lemma MoreBlocks(buf: Evbuffer, vecs: seq<Iovec>, vs: seq<Chunk>, lwd: nat, k: nat, size: nat, n: nat, missing: nat)
    requires Shape(vs, lwd) && ReservedMany(buf, vecs, vs, lwd, k, size, n)
    requires if vs == [] then missing == size else Short(vs, lwd, size, n) && Missing(vs, lwd, size) == missing
    ensures Grown(vs, buf.vals, missing) && Shape(buf.vals, buf.lwd)
    ensures k == Writable(buf.vals, buf.lwd) && Positive(vecs)
  {
  }

  lemma BlocksGrown(vs: seq<Chunk>, ws: seq<Chunk>, sizes: seq<nat>, more: seq<nat>, lwd: nat)
    requires Blocks(vs, sizes) && |ws| == |vs| + 1 && ws == vs + [ws[|vs|]] && Shape(ws, lwd)
    requires exists size: nat :: IsNew(ws[|vs|], size) && more == sizes + [BlockLen(size)]
    ensures lwd == 0 && Blocks(ws, more) && Writable(ws, lwd) == 0
  {
    forall i | 0 <= i < |ws|
      ensures ws[i].off == 0 && ws[i].misalign == 0 && |ws[i].mem| == more[i] && 0 < more[i] <= BLOCK_MAX
    {
      if i < |vs| {
        assert ws[i] == vs[i];
      }
    }
    assert ws[0].Space() > 0;
  }

  method OneEmpty() returns (buf: Evbuffer)
    ensures fresh(buf) && fresh(buf.Repr) && buf.Valid() && buf.Contents() == [] && !buf.freezeEnd && !buf.freezeStart
    ensures buf.lwd == 0 && Blocks(buf.vals, [976])
  {
    BlockLens();
    buf := new Evbuffer();
    var vecs := ReserveMore(buf, 900, 2, [], [976]);
  }

  /** A new buffer with two empty chains, and the vectors of the reservation that made the second one. */
  method TwoEmpty() returns (buf: Evbuffer, vecs: seq<Iovec>)
    ensures fresh(buf) && fresh(buf.Repr) && buf.Valid() && buf.Contents() == [] && !buf.freezeEnd && !buf.freezeStart
    ensures buf.lwd == 0 && Blocks(buf.vals, [976, 976]) && Matches(buf, vecs, 0) && |vecs| == 2 && Positive(vecs)
  {
    BlockLens();
    buf := OneEmpty();
    assert [976][1..] == [] && [976] + [976] == [976, 976];
    vecs := ReserveMore(buf, 1900, 3, [976], [976, 976]);
    TotalOfTwo(buf, vecs);
  }

  lemma {:induction false} TotalBound(vecs: seq<Iovec>)
    requires forall i :: 0 <= i < |vecs| ==> vecs[i].len <= 976
    ensures TotalLen(vecs) <= 976 * |vecs|
  {
    if vecs != [] {
      TotalBound(vecs[..|vecs| - 1]);
    }
  }

  /** Regions of two blocks of 976 bytes that hold 1900 bytes are two. */
  lemma TotalOfTwo(buf: Evbuffer, vecs: seq<Iovec>)
    requires buf.Valid() && Blocks(buf.vals, [976, 976]) && Matches(buf, vecs, 0) && TotalLen(vecs) >= 1900
    ensures |vecs| == 2
  {
    forall i | 0 <= i < |vecs|
      ensures vecs[i].len <= 976
    {
      assert IsSpaceOf(buf, vecs[i], 0 + i);
    }
    TotalBound(vecs);
  }

  /** Two chains are reserved, and a commit of bytes in the second one only is accepted. The empty
      chain before it breaks what last_with_datap promises. */
  method OutOfOrderExample() returns (buf: Evbuffer, ok: bool)
    ensures fresh(buf) && ok && !buf.Valid() && |buf.Contents()| == 1
  {
    var vecs;
    buf, vecs := TwoEmpty();
    ghost var vs, f := buf.vals, 0;
    var used := [vecs[0].(len := 0), vecs[1].(len := 1)];
    assert IsSpaceOf(buf, vecs[0], 0 + 0) && IsSpaceOf(buf, vecs[1], 0 + 1);
    assert vs[0].Space() > 0 && Writable(vs, 0) == 0;
    assert forall i :: 0 <= i < |used| ==> Shrunk(used[i], vecs[i]);
    ReservationAccepted(buf, vecs, used);
    ok, f := CommitSpace(buf, used);
    var lens := Lens(used);
    assert lens == [0, 1];
    assert SumTo(lens, 1) == 0;
    AddedLength(vs, 0, lens, 2);
    assert lens[1] > 0 && !Filled(vs, 0, lens, 0);
  }

  method ThreeEmpty() returns (buf: Evbuffer)
    ensures fresh(buf) && fresh(buf.Repr) && buf.Valid() && buf.Contents() == [] && !buf.freezeEnd && !buf.freezeStart
    ensures buf.lwd == 0 && Blocks(buf.vals, [976, 976, 2000])
  {
    var vecs;
    buf, vecs := TwoEmpty();
    BlockLens();
    assert [976, 976][1..] == [976] && [976][1..] == [];
    vecs := ReserveMore(buf, 3000, 4, [976, 976], [976, 976, 2000]);
  }

  /** A buffer whose last chain with data has 6 bytes left, before two empty chains. One chain is
      reserved for 16 bytes, a byte is put there, and the commit is refused. */
  method StrandedExample() returns (buf: Evbuffer, reserved: bool, committed: bool)
    ensures fresh(buf) && reserved && !committed && buf.Valid() && |buf.Contents()| == 970
  {
    buf := ThreeEmpty();
    FillFirst(buf);
    reserved, committed := AddByReserving(buf, 16, 1, [1]);
  }

  /** 970 bytes are added to a buffer of three empty chains. */
  method FillFirst(buf: Evbuffer)
    requires buf.Valid() && buf.Contents() == [] && buf.lwd == 0 && Blocks(buf.vals, [976, 976, 2000])
      && !buf.freezeEnd
    modifies buf, buf.Repr
    ensures buf.Valid() && fresh(buf.Repr - old(buf.Repr)) && |buf.Contents()| == 970
    ensures Stranded(buf.vals, buf.lwd, 16)
    ensures unchanged(buf`freezeStart, buf`freezeEnd)
  {
    ghost var vs := buf.vals;
    var data: seq<byte> := seq(970, _ => 0);
    AppendNil(data);
    var ok := Add(buf, data);
    assert GrewAt(buf.vals, vs, 0, 970);
    LwdStays(vs, buf.vals, buf.lwd);
    assert buf.vals[1] == vs[1];
  }

  lemma LwdStays(vs: seq<Chunk>, ws: seq<Chunk>, lwd: nat)
    requires Shape(ws, lwd) && GrewAt(ws, vs, 0, 970) && forall i :: 0 <= i < |vs| ==> vs[i].off == 0
    ensures lwd == 0
  {
    if lwd > 0 {
      assert false;
    }
  }

  /** Prepending nothing to a buffer whose first chain is empty leaves no space behind its window.
      One chain is then reserved for a byte, and committing it puts it behind the empty chain. */
  method CloggedExample() returns (buf: Evbuffer, committed: bool)
    ensures fresh(buf) && committed && !buf.Valid() && buf.Contents() == [1]
  {
    var vecs;
    buf, vecs := TwoEmpty();
    ghost var vs := buf.vals;
    var ok := Prepend(buf, [], true);
    assert GrewFront(buf.vals, FrontRewound(vs), 0);
    assert buf.vals[1] == vs[1] && buf.vals[0].Space() == 0;
    assert buf.lwd == 0;
    assert Clogged(buf.vals, buf.lwd, 1);
    var reserved;
    reserved, committed := AddByReserving(buf, 1, 1, [1]);
  }

  /** A new buffer with one byte. */
  method OneByte(b: byte) returns (buf: Evbuffer)
    ensures fresh(buf) && fresh(buf.Repr) && buf.Valid() && buf.Contents() == [b] && !buf.freezeEnd && !buf.freezeStart
    ensures |buf.vals| == 1 && buf.vals[0].Space() == 975 && buf.vals[0].off == 1 && buf.lwd == 0
  {
    BlockLens();
    buf := new Evbuffer();
    var ok := Add(buf, [b]);
    AppendNil([b]);
  }

  /** A buffer with one byte and an empty chain behind it. */
  method OneByteGrown(b: byte) returns (buf: Evbuffer)
    ensures fresh(buf) && fresh(buf.Repr) && buf.Valid() && buf.Contents() == [b] && !buf.freezeEnd && !buf.freezeStart
    ensures !Trimmed(buf)
  {
    buf := OneByte(b);
    ghost var vs, k := buf.vals, 0;
    SpaceOfSnoc(vs, 0, 0);
    assert Short(vs, 0, 2000, 2);
    var ok, vecs;
    ok, vecs, k := ReserveSpace(buf, 2000, 2);
    assert |buf.vals| == 2 && buf.vals[1].off == 0;
  }

  /** A buffer with one byte has grown by an empty chain. Prepending it to another one leaves that
      chain in the middle. */
  method GapExample() returns (dst: Evbuffer, ok: bool)
    ensures fresh(dst) && ok && !dst.Valid() && dst.Contents() == [1, 2]
  {
    dst := OneByte(2);
    var src := OneByteGrown(1);
    ok := PrependBuffer(dst, src);
    assert [1] + [2] == [1, 2];
  }

  /** In a buffer of two bytes, searching for nothing from 1 on and up to 0 ends at 1. */
  method PastEndExample() returns (buf: Evbuffer, end: Ptr, r: Ptr)
    ensures fresh(buf) && buf.Valid() && buf.Contents() == [1, 2] && end.pos == 0 && r.pos == 1
  {
    buf := new Evbuffer();
    var ok := Add(buf, [1, 2]);
    AppendNil([1, 2]);
    ghost var k, ks, ke := 0, 0, 0;
    var start;
    ok, start, ks := PtrSet(buf, NOT_FOUND, 0, 1, false);
    ok, end, ke := PtrSet(buf, NOT_FOUND, 0, 0, false);
    r, k := SearchRange(buf, [], Some(start), ks, Some(end), ke);
  }

  /** When malloc refuses, a prepend has put the bytes that fit into the empty first chain. */
  method HalfPrependedExample() returns (buf: Evbuffer, data: seq<byte>, ok: bool)
    ensures fresh(buf) && !ok && buf.Valid() && |data| == 1000 && buf.Contents() == data[24..]
  {
    var vecs;
    buf, vecs := TwoEmpty();
    data := seq(1000, _ => 7);
    ok := Prepend(buf, data, false);
    AppendNil(data[24..]);
  }
}
