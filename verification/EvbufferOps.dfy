/** Adding, prepending, draining and reading (buffer.c). */
module EvbufferOps {
  import Basics
  import opened Chunks
  import opened Evbuffers

  const MIN_BUFFER_SIZE: nat := 1024
  const MAX_AUTO_SIZE: nat := 4096
  const MAX_TO_REALIGN_IN_EXPAND: nat := 2048

  /** The first of n, 2 * n, 4 * n, ... that is not below full. */
  function Doubled(n: nat, full: nat): (r: nat)
    requires n > 0
    ensures full <= r && n <= r && (r == n || r < 2 * full)
    decreases if n < full then full - n else 0
  {
    if n >= full then n else Doubled(2 * n, full)
  }

  /** The size of the block in which evbuffer_chain_new gives size bytes. */
  function BlockLen(size: nat): (len: nat)
    requires size <= BLOCK_MAX
    ensures size <= len <= BLOCK_MAX && 0 < len
  {
    if size + CHAIN_SIZE < CHAIN_MAX / 2 then Doubled(MIN_BUFFER_SIZE, size + CHAIN_SIZE) - CHAIN_SIZE else size
  }

  lemma {:induction false} DoubledIs(n: nat, full: nat) returns (k: nat)
    requires n > 0
    ensures Doubled(n, full) == Basics.Pow2(k) * n && (k > 0 ==> Basics.Pow2(k - 1) * n < full)
    decreases if n < full then full - n else 0
  {
    k := 0;
    if n < full {
      k := DoubledIs(2 * n, full);
      TwiceIs(k, n);
      if k > 0 {
        TwiceIs(k - 1, n);
      }
      k := k + 1;
    }
  }

  lemma TwiceIs(k: nat, n: nat)
    ensures Basics.Pow2(k) * (2 * n) == Basics.Pow2(k + 1) * n
  {
    assert Basics.Pow2(k) * (2 * n) == (2 * Basics.Pow2(k)) * n;
  }

  /** The block of a new chain, together with the 48 bytes of its header: the first of 1024, 2048,
      4096 and so on that is enough; no more than is asked for from half of the largest size on. */
  lemma BlockLenIs(size: nat) returns (k: nat)
    requires size <= BLOCK_MAX
    ensures size + 48 >= 0x3fff_ffff_ffff_ffff ==> BlockLen(size) == size
    ensures size + 48 < 0x3fff_ffff_ffff_ffff ==>
      BlockLen(size) + 48 == Basics.Pow2(k) * 1024 && (k > 0 ==> Basics.Pow2(k - 1) * 1024 < size + 48)
  {
    k := DoubledIs(1024, size + 48);
  }

  /** v is the empty chunk of a new chain for size bytes. */
  predicate IsNew(v: Chunk, size: nat) {
    size <= BLOCK_MAX && |v.mem| == BlockLen(size) && v.misalign == 0 && v.off == 0
  }

  /** evbuffer_chain_new. granted says whether malloc finds the memory. */
  method NewChain(size: nat, granted: bool) returns (c: Chain?)
    ensures c == null <==> size > BLOCK_MAX || !granted
    ensures c != null ==> fresh(c) && fresh(c.buffer) && c.buffer.Length == BlockLen(size)
    ensures c != null ==> c.next == null && c.misalign == 0 && c.off == 0
  {
    if size > CHAIN_MAX - CHAIN_SIZE {
      return null;
    }
    var full := size + CHAIN_SIZE;
    var toAlloc := full;
    if full < CHAIN_MAX / 2 {
      toAlloc := MIN_BUFFER_SIZE;
      while toAlloc < full
        invariant MIN_BUFFER_SIZE <= toAlloc <= CHAIN_MAX
        invariant Doubled(toAlloc, full) == Doubled(MIN_BUFFER_SIZE, full)
        decreases full - toAlloc
      {
        toAlloc := toAlloc * 2;
      }
    }
    if !granted {
      return null;
    }
    c := new Chain(toAlloc - CHAIN_SIZE);
  }

  /** The first victim: the place after the last chain that holds data. */
  method FindTail(buf: Evbuffer) returns (pred: Chain?, ghost k: nat)
    requires buf.Valid()
    ensures k == DataCount(buf.vals, buf.lwd)
    ensures pred == PredAt(buf.chains, k)
  {
    pred, k := buf.lwdPred, buf.lwd;
    buf.DerefAt(k);
    if k < |buf.chains| {
      buf.ValueAt(k);
    }
    while buf.Deref(pred) != null && buf.Deref(pred).off != 0
      invariant buf.lwd <= k <= DataCount(buf.vals, buf.lwd)
      invariant pred == PredAt(buf.chains, k)
      invariant buf.Deref(pred) == if k < |buf.chains| then buf.chains[k] else null
      invariant k < |buf.chains| ==> buf.vals[k].off == buf.chains[k].off
      decreases |buf.chains| - k
    {
      assert buf.vals[k].off > 0;
      pred := buf.Deref(pred);
      k := k + 1;
      PredAtIs(buf.chains, k);
      buf.DerefAt(k);
      if k < |buf.chains| {
        buf.ValueAt(k);
      }
    }
  }

  /** Frees the empty chains at the end and returns where the next chain goes. */
  method FreeTrailingEmptyChains(buf: Evbuffer) returns (pred: Chain?)
    requires buf.Valid()
    modifies buf`first, buf`chains, buf`vals, buf.Repr
    ensures buf.Spine()
    ensures buf.chains == old(buf.chains)[..old(DataCount(buf.vals, buf.lwd))]
      && buf.vals == old(buf.vals)[..old(DataCount(buf.vals, buf.lwd))]
    ensures pred == PredAt(buf.chains, |buf.chains|) && buf.LwdOk()
    ensures unchanged(buf`last, buf`lwdPred, buf`totalLen, buf`lwd, buf`Repr, buf`freezeStart, buf`freezeEnd)
  {
    ghost var k;
    pred, k := FindTail(buf);
    buf.DerefAt(k);
    PredAtIs(buf.chains, k);
    PredAtIs(buf.chains[..k], k);
    PredAtIs(buf.chains[..k], buf.lwd);
    PredAtIs(buf.chains, buf.lwd);
    if buf.Deref(pred) != null {
      buf.Cut(pred, k);
    }
  }

  method InsertFirst(buf: Evbuffer, c: Chain, ghost v: Chunk)
    requires buf.Valid() && Unowned(buf, c, v) && v.Wf() && buf.chains == []
    modifies buf, buf.Repr
    ensures buf.Valid() && buf.Repr == old(buf.Repr) + {c, c.buffer}
    ensures buf.chains == [c] && buf.vals == [v]
    ensures buf.Contents() == v.Data()
    ensures unchanged(buf`freezeStart, buf`freezeEnd)
  {
    InsertChunk(buf.vals, buf.lwd, v);
    var size := c.off;
    buf.Link(null, c, v);
    buf.SetTail(c, null, 0, buf.totalLen + size);
  }

  method InsertLast(buf: Evbuffer, c: Chain, ghost v: Chunk)
    requires buf.Valid() && Unowned(buf, c, v) && v.Wf() && buf.chains != []
    modifies buf, buf.Repr
    ensures buf.Valid() && buf.Repr == old(buf.Repr) + {c, c.buffer}
    ensures var k := old(DataCount(buf.vals, buf.lwd));
      buf.chains == old(buf.chains)[..k] + [c] && buf.vals == old(buf.vals)[..k] + [v]
    ensures buf.Contents() == old(buf.Contents()) + v.Data()
    ensures unchanged(buf`freezeStart, buf`freezeEnd)
  {
    ghost var k := DataCount(buf.vals, buf.lwd);
    ghost var cs, vs, lwd, d := buf.chains[..k] + [c], buf.vals[..k] + [v], buf.lwd, buf.Contents() + v.Data();
    InsertChunk(buf.vals, lwd, v);
    PredsOfInsert(buf.chains, k, lwd, c, cs);
    var size := c.off;
    assert |d| == buf.totalLen + size;
    var pred := FreeTrailingEmptyChains(buf);
    buf.Link(pred, c, v);
    buf.Settle(c,
      if size != 0 then pred else buf.lwdPred, if size != 0 then k else lwd, buf.totalLen + size, cs, vs, d);
  }

  /** evbuffer_chain_insert */
  method ChainInsert(buf: Evbuffer, c: Chain, ghost v: Chunk)
    requires buf.Valid() && Unowned(buf, c, v) && v.Wf()
    modifies buf, buf.Repr
    ensures buf.Valid() && buf.Repr == old(buf.Repr) + {c, c.buffer}
    ensures var k := old(DataCount(buf.vals, buf.lwd));
      buf.chains == old(buf.chains)[..k] + [c] && buf.vals == old(buf.vals)[..k] + [v]
    ensures buf.Contents() == old(buf.Contents()) + v.Data()
    ensures unchanged(buf`freezeStart, buf`freezeEnd)
  {
    buf.DerefAt(buf.lwd);
    if buf.Deref(buf.lwdPred) == null {
      InsertFirst(buf, c, v);
    } else {
      InsertLast(buf, c, v);
    }
  }

  predicate ShouldRealign(c: Chain, datlen: nat)
    requires c.off <= c.buffer.Length
    reads c
  {
    c.buffer.Length - c.off >= datlen && c.off < c.buffer.Length / 2 && c.off <= MAX_TO_REALIGN_IN_EXPAND
  }

  /** Copies data behind the window of the last chain with data. */
  method AppendInPlace(buf: Evbuffer, c: Chain, data: seq<byte>) returns (ghost v: Chunk)
    requires buf.Valid() && buf.chains != [] && c == buf.chains[buf.lwd]
    requires |data| <= buf.vals[buf.lwd].Space()
    modifies buf, buf.Repr
    ensures buf.Valid() && buf.Repr == old(buf.Repr) && buf.chains == old(buf.chains) && buf.lwd == old(buf.lwd)
    ensures buf.vals == old(buf.vals)[buf.lwd := v] && GrewAt(buf.vals, old(buf.vals), buf.lwd, |data|)
    ensures buf.Contents() == old(buf.Contents()) + data
    ensures unchanged(buf`freezeStart, buf`freezeEnd)
  {
    ghost var k, vs := buf.lwd, buf.vals;
    v := buf.AppendAt(c, k, data);
    GrowLast(vs, k, v, data);
    buf.SetTail(buf.last, buf.lwdPred, k, buf.totalLen + |data|);
  }

  /** evbuffer_chain_align, for the last chain with data */
  method AlignInPlace(buf: Evbuffer, c: Chain) returns (ghost v: Chunk)
    requires buf.Valid() && buf.chains != [] && c == buf.chains[buf.lwd]
    modifies buf, buf.Repr
    ensures buf.Valid() && buf.Repr == old(buf.Repr) && buf.chains == old(buf.chains) && buf.lwd == old(buf.lwd)
    ensures buf.vals == old(buf.vals)[buf.lwd := v]
    ensures buf.Contents() == old(buf.Contents()) && v.misalign == 0 && v.off == old(buf.vals[buf.lwd].off)
      && |v.mem| == |old(buf.vals[buf.lwd]).mem|
    ensures unchanged(buf`freezeStart, buf`freezeEnd)
  {
    ghost var k, vs := buf.lwd, buf.vals;
    v := buf.AlignAt(c, k);
    GrowLast(vs, k, v, []);
    buf.SetTail(buf.last, buf.lwdPred, k, buf.totalLen);
  }

  /** Fills the last chain with data, and puts the rest into a new chain. */
  method AppendSpilling(buf: Evbuffer, c: Chain, data: seq<byte>) returns (ok: bool)
    requires buf.Valid() && buf.chains != [] && c == buf.chains[buf.lwd]
    requires |data| > buf.vals[buf.lwd].Space()
    modifies buf, buf.Repr
    ensures buf.Valid() && fresh(buf.Repr - old(buf.Repr))
    ensures ok <==> |data| <= BLOCK_MAX
    ensures buf.Contents() == if ok then old(buf.Contents()) + data else old(buf.Contents())
    ensures ok ==> SpilledTo(buf.vals, NextSize(c.buffer.Length, |data|), |data| - old(buf.vals[buf.lwd].Space()))
    ensures unchanged(buf`freezeStart, buf`freezeEnd)
  {
    buf.ValueAt(buf.lwd);
    var remain := c.buffer.Length - c.misalign - c.off;
    Rejoin(buf.Contents(), data, remain);
    ok := SpillFrom(buf, c, data[..remain], data[remain..], NextSize(c.buffer.Length, |data|));
  }

  /** How large a block evbuffer_add asks for behind one of len bytes, for n bytes. */
  function NextSize(len: nat, n: nat): (size: nat)
    ensures n <= size && (len <= BLOCK_MAX ==> (size <= BLOCK_MAX <==> n <= BLOCK_MAX))
  {
    var size := if len <= MAX_AUTO_SIZE / 2 then len * 2 else len;
    if n > size then n else size
  }

  /** It doubles from block to block up to 4096, and never asks for less than there is to add. */
  lemma NextSizeIs(len: nat, n: nat)
    ensures NextSize(len, n) >= n && NextSize(len, n) >= (if len <= 2048 then 2 * len else len)
    ensures NextSize(len, n) == n || NextSize(len, n) == (if len <= 2048 then 2 * len else len)
  {
  }

  /** The last chunk is a new one for size bytes, with n bytes of data at its start. */
  predicate SpilledTo(vs: seq<Chunk>, size: nat, n: nat) {
    && size <= BLOCK_MAX && vs != []
    && var v := vs[|vs| - 1]; |v.mem| == BlockLen(size) && v.misalign == 0 && v.off == n
  }

  method SpillFrom(buf: Evbuffer, c: Chain, head: seq<byte>, tail: seq<byte>, size: nat) returns (ok: bool)
    requires buf.Valid() && buf.chains != [] && c == buf.chains[buf.lwd]
    requires |head| <= buf.vals[buf.lwd].Space() && |tail| <= size
    modifies buf, buf.Repr
    ensures buf.Valid() && fresh(buf.Repr - old(buf.Repr))
    ensures ok <==> size <= BLOCK_MAX
    ensures buf.Contents() == if ok then old(buf.Contents()) + head + tail else old(buf.Contents())
    ensures ok ==> SpilledTo(buf.vals, size, |tail|)
    ensures unchanged(buf`freezeStart, buf`freezeEnd)
  {
    var tmp, v := NewFilledChain(size, tail);
    ok := tmp != null;
    if ok {
      Spill(buf, c, head, tmp, v);
    }
  }

  method Spill(buf: Evbuffer, c: Chain, head: seq<byte>, tmp: Chain, ghost v: Chunk)
    requires buf.Valid() && buf.chains != [] && c == buf.chains[buf.lwd]
    requires |head| <= buf.vals[buf.lwd].Space() && Unowned(buf, tmp, v) && v.Wf()
    modifies buf, buf.Repr
    ensures buf.Valid() && buf.Repr == old(buf.Repr) + {tmp, tmp.buffer}
    ensures buf.Contents() == old(buf.Contents()) + head + v.Data()
    ensures buf.vals != [] && buf.vals[|buf.vals| - 1] == v
    ensures unchanged(buf`freezeStart, buf`freezeEnd)
  {
    if |head| > 0 {
      ghost var w := AppendInPlace(buf, c, head);
    }
    ChainInsert(buf, tmp, v);
  }

  /** A new chain with data at its start. */
  method NewFilledChain(size: nat, data: seq<byte>) returns (c: Chain?, ghost v: Chunk)
    requires |data| <= size
    ensures c == null <==> size > BLOCK_MAX
    ensures c != null ==> fresh(c) && fresh(c.buffer) && c.buffer.Length == BlockLen(size)
    ensures c != null ==> v == Chunk(c.buffer[..], c.misalign, c.off) && c.next == null && c.misalign == 0
    ensures c != null ==> v.Wf() && v.Data() == data && v.off == |data|
  {
    c := NewChain(size, true);
    v := Chunk([], 0, 0);
    if c != null {
      forall i | 0 <= i < |data| {
        c.buffer[i] := data[i];
      }
      c.off := |data|;
      v := Chunk(c.buffer[..], c.misalign, c.off);
      assert v.Data() == data;
    }
  }

  /** vs is ws with n more bytes in the chunk at position k, behind the window. */
  predicate GrewAt(vs: seq<Chunk>, ws: seq<Chunk>, k: nat, n: nat) {
    && |vs| == |ws| && k < |ws| && vs == ws[k := vs[k]]
    && |vs[k].mem| == |ws[k].mem| && vs[k].misalign == ws[k].misalign && vs[k].off == ws[k].off + n
  }

  /** vs is ws with the window of the chunk at position k at the start of its block, and n more bytes in it. */
  predicate MovedAndGrew(vs: seq<Chunk>, ws: seq<Chunk>, k: nat, n: nat) {
    && |vs| == |ws| && k < |ws| && vs == ws[k := vs[k]]
    && |vs[k].mem| == |ws[k].mem| && vs[k].misalign == 0 && vs[k].off == ws[k].off + n
  }

  /** Where bytes that need no second chain go. */
  predicate AddedInPlace(vs: seq<Chunk>, ws: seq<Chunk>, lwd: nat, n: nat)
    requires Shape(ws, lwd) && n <= BLOCK_MAX
  {
    if ws == [] then |vs| == 1 && |vs[0].mem| == BlockLen(n) && vs[0].misalign == 0 && vs[0].off == n
    else n <= ws[lwd].Space() ==> GrewAt(vs, ws, lwd, n)
  }

  /** Where bytes go that do not fit behind the last ones: there all the same, after those have been moved
      to the front of their block; or what does not fit into a new chain. */
  predicate AddedElse(vs: seq<Chunk>, ws: seq<Chunk>, lwd: nat, n: nat)
    requires lwd < |ws| && ws[lwd].Wf() && ws[lwd].Space() < n
  {
    var v := ws[lwd];
    if v.off + n <= |v.mem| && 2 * v.off + 2 <= |v.mem| && v.off <= 2048 then MovedAndGrew(vs, ws, lwd, n)
    else SpilledTo(vs, NextSize(|v.mem|, n), n - v.Space())
  }

  /** evbuffer_add */
  method Add(buf: Evbuffer, data: seq<byte>) returns (ok: bool)
    requires buf.Valid()
    modifies buf, buf.Repr
    ensures buf.Valid() && fresh(buf.Repr - old(buf.Repr))
    ensures ok <==> !buf.freezeEnd && |data| <= SIZE_MAX - |old(buf.Contents())| && |data| <= BLOCK_MAX
    ensures buf.Contents() == if ok then old(buf.Contents()) + data else old(buf.Contents())
    ensures ok ==> AddedInPlace(buf.vals, old(buf.vals), old(buf.lwd), |data|)
    ensures unchanged(buf`freezeStart, buf`freezeEnd)
  {
    if buf.freezeEnd || |data| > SIZE_MAX - buf.totalLen {
      return false;
    }
    buf.DerefAt(buf.lwd);
    var chain := buf.Deref(buf.lwdPred);
    if chain == null {
      ok := AddToNone(buf, data);
    } else {
      ok := AddToChain(buf, chain, data);
    }
  }

  method AddToNone(buf: Evbuffer, data: seq<byte>) returns (ok: bool)
    requires buf.Valid() && buf.chains == []
    modifies buf, buf.Repr
    ensures buf.Valid() && fresh(buf.Repr - old(buf.Repr))
    ensures ok <==> |data| <= BLOCK_MAX
    ensures buf.Contents() == if ok then old(buf.Contents()) + data else old(buf.Contents())
    ensures ok ==> AddedInPlace(buf.vals, old(buf.vals), old(buf.lwd), |data|)
    ensures unchanged(buf`freezeStart, buf`freezeEnd)
  {
    var c := NewChain(|data|, true);
    if c == null {
      return false;
    }
    ghost var v := Chunk(c.buffer[..], 0, 0);
    InsertFirst(buf, c, v);
    ok := AddToChain(buf, c, data);
  }

  /** The three ways evbuffer_add finds room. */
  method AddToChain(buf: Evbuffer, c: Chain, data: seq<byte>) returns (ok: bool)
    requires buf.Valid() && buf.chains != [] && c == buf.chains[buf.lwd]
    modifies buf, buf.Repr
    ensures buf.Valid() && fresh(buf.Repr - old(buf.Repr))
    ensures ok <==> |data| <= BLOCK_MAX
    ensures buf.Contents() == if ok then old(buf.Contents()) + data else old(buf.Contents())
    ensures |data| <= old(buf.vals[buf.lwd].Space()) ==> GrewAt(buf.vals, old(buf.vals), old(buf.lwd), |data|)
    ensures ok && |data| > old(buf.vals[buf.lwd].Space()) ==>
      AddedElse(buf.vals, old(buf.vals), old(buf.lwd), |data|)
    ensures unchanged(buf`freezeStart, buf`freezeEnd)
  {
    buf.ValueAt(buf.lwd);
    if c.buffer.Length - c.misalign - c.off >= |data| {
      ghost var v := AppendInPlace(buf, c, data);
      ok := true;
    } else if ShouldRealign(c, |data|) {
      ghost var v := AlignInPlace(buf, c);
      v := AppendInPlace(buf, c, data);
      ok := true;
    } else {
      ok := AppendSpilling(buf, c, data);
    }
  }

  /** A new chain with data at its end. */
  method NewBackFilledChain(data: seq<byte>, granted: bool) returns (c: Chain?, ghost v: Chunk)
    ensures c == null <==> |data| > BLOCK_MAX || !granted
    ensures c != null ==> fresh(c) && fresh(c.buffer)
    ensures c != null ==> v == Chunk(c.buffer[..], c.misalign, c.off) && c.next == null
    ensures c != null ==> v.Wf() && v.Data() == data
  {
    c := NewChain(|data|, granted);
    v := Chunk([], 0, 0);
    if c != null {
      var at := c.buffer.Length - |data|;
      forall i | 0 <= i < |data| {
        c.buffer[at + i] := data[i];
      }
      c.off, c.misalign := |data|, at;
      v := Chunk(c.buffer[..], c.misalign, c.off);
      assert v.Data() == data;
    }
  }

  /** vs with the window of an empty first chunk at the end of its block. */
  function FrontRewound(vs: seq<Chunk>): (ws: seq<Chunk>)
    ensures vs != [] ==> ws != [] && ws[0].misalign == FrontRoom(vs) == FrontRoom(ws)
  {
    if vs != [] && vs[0].off == 0 then vs[0 := vs[0].(misalign := |vs[0].mem|)] else vs
  }

  /** Makes the whole block of an empty first chain count as room in front. */
  method RewindFront(buf: Evbuffer, c: Chain)
    requires buf.Valid() && buf.chains != [] && c == buf.chains[0]
    modifies buf, buf.Repr
    ensures buf.Valid() && buf.Repr == old(buf.Repr) && buf.chains == old(buf.chains)
    ensures buf.Contents() == old(buf.Contents()) && buf.vals == FrontRewound(old(buf.vals))
    ensures buf.vals[0].off > 0 || buf.vals[0].misalign > 0
    ensures unchanged(buf`freezeStart, buf`freezeEnd)
  {
    buf.ValueAt(0);
    if c.off == 0 {
      ghost var vs := buf.vals;
      ghost var v := buf.RewindAt(c, 0, c.buffer.Length);
      RewindFirst(vs, buf.lwd, v);
      buf.SetTail(buf.last, buf.lwdPred, buf.lwd, buf.totalLen);
    }
  }

  /** vs is ws with n more bytes in front of the first window. */
  predicate GrewFront(vs: seq<Chunk>, ws: seq<Chunk>, n: nat) {
    && 0 < |vs| == |ws| && vs == ws[0 := vs[0]]
    && |vs[0].mem| == |ws[0].mem| && vs[0].misalign + n == ws[0].misalign && vs[0].off == ws[0].off + n
  }

  method PrependInPlace(buf: Evbuffer, c: Chain, data: seq<byte>)
    requires buf.Valid() && buf.chains != [] && c == buf.chains[0]
    requires |data| <= buf.vals[0].misalign
    modifies buf, buf.Repr
    ensures buf.Valid() && buf.Repr == old(buf.Repr) && buf.chains == old(buf.chains)
    ensures buf.Contents() == data + old(buf.Contents())
    ensures GrewFront(buf.vals, old(buf.vals), |data|)
    ensures unchanged(buf`freezeStart, buf`freezeEnd)
  {
    ghost var vs := buf.vals;
    ghost var v := buf.PrependAt(c, 0, data);
    GrowFirst(vs, buf.lwd, v, data);
    buf.SetTail(buf.last, buf.lwdPred, buf.lwd, buf.totalLen + |data|);
  }

  method PushData(buf: Evbuffer, data: seq<byte>, granted: bool) returns (ok: bool)
    requires buf.Valid() && buf.chains != [] && buf.vals[0].off > 0 && data != []
    modifies buf, buf.Repr
    ensures buf.Valid() && fresh(buf.Repr - old(buf.Repr))
    ensures ok <==> |data| <= BLOCK_MAX && granted
    ensures buf.Contents() == if ok then data + old(buf.Contents()) else old(buf.Contents())
    ensures unchanged(buf`freezeStart, buf`freezeEnd)
  {
    var tmp, v := NewBackFilledChain(data, granted);
    if tmp == null {
      return false;
    }
    PushFilled(buf, tmp, v, |data|);
    ok := true;
  }

  lemma PredsOfPush(c: Chain, cs: seq<Chain>, k: nat, ds: seq<Chain>, n: nat)
    requires cs != [] && k <= |cs| && ds == [c] + cs && n == k + 1
    ensures PredAt(ds, n) == if PredAt(cs, k) == null then c else PredAt(cs, k)
    ensures PredAt(ds, |ds|) == PredAt(cs, |cs|)
  {
    PredAtPush(c, cs, k);
    PredAtPush(c, cs, |cs|);
    PredAtIs(cs, |cs|);
  }

  lemma PredsOfInsert(cs: seq<Chain>, k: nat, lwd: nat, c: Chain, ds: seq<Chain>)
    requires lwd <= k <= |cs| && ds == cs[..k] + [c]
    ensures PredAt(ds, lwd) == PredAt(cs, lwd) && PredAt(ds, k) == PredAt(cs, k) == PredAt(cs[..k], |cs[..k]|)
      && PredAt(ds, |ds|) == c
  {
    PredAtIs(ds, lwd);
    PredAtIs(cs, lwd);
    PredAtIs(ds, k);
    PredAtIs(cs, k);
    PredAtIs(cs[..k], k);
    PredAtIs(ds, |ds|);
  }

  method PushFilled(buf: Evbuffer, tmp: Chain, ghost v: Chunk, size: nat)
    requires buf.Valid() && buf.chains != [] && buf.vals[0].off > 0
    requires Unowned(buf, tmp, v) && v.Wf() && v.off == size > 0
    modifies buf, buf.Repr, tmp`next
    ensures buf.Valid() && buf.Repr == old(buf.Repr) + {tmp, tmp.buffer}
    ensures buf.Contents() == v.Data() + old(buf.Contents())
    ensures unchanged(buf`freezeStart, buf`freezeEnd)
  {
    ghost var cs, vs, lwd, d := [tmp] + buf.chains, [v] + buf.vals, buf.lwd + 1, v.Data() + buf.Contents();
    PushChunk(buf.vals, buf.lwd, v);
    PredsOfPush(tmp, buf.chains, buf.lwd, cs, lwd);
    assert |d| == buf.totalLen + size;
    buf.PushFront(tmp, v);
    buf.Settle(buf.last, if buf.lwdPred == null then tmp else buf.lwdPred, lwd, buf.totalLen + size, cs, vs, d);
  }

  /** n bytes fit in front of the first chain, or a new chain for the rest of them can be had. */
  predicate CanPrepend(vs: seq<Chunk>, n: nat, granted: bool) {
    n > FrontRoom(vs) || vs == [] ==> granted && n - FrontRoom(vs) <= BLOCK_MAX
  }

  /** evbuffer_prepend. When no new chain can be had, the bytes that fit in front
      of the first chain have already been put there. */
  method Prepend(buf: Evbuffer, data: seq<byte>, granted: bool) returns (ok: bool)
    requires buf.Valid()
    modifies buf, buf.Repr
    ensures buf.Valid() && fresh(buf.Repr - old(buf.Repr))
    ensures ok <==>
      !buf.freezeStart && |data| <= SIZE_MAX - |old(buf.Contents())| && CanPrepend(old(buf.vals), |data|, granted)
    ensures ok ==> buf.Contents() == data + old(buf.Contents())
    ensures !ok && (buf.freezeStart || |data| > SIZE_MAX - |old(buf.Contents())|) ==>
      buf.Contents() == old(buf.Contents())
    ensures !ok && !buf.freezeStart && |data| <= SIZE_MAX - |old(buf.Contents())| ==>
      |data| >= FrontRoom(old(buf.vals))
        && buf.Contents() == data[|data| - FrontRoom(old(buf.vals))..] + old(buf.Contents())
    ensures ok && old(buf.vals) != [] && |data| <= FrontRoom(old(buf.vals)) ==>
      GrewFront(buf.vals, FrontRewound(old(buf.vals)), |data|)
    ensures unchanged(buf`freezeStart, buf`freezeEnd)
  {
    if buf.freezeStart || |data| > SIZE_MAX - buf.totalLen {
      return false;
    }
    if buf.first == null {
      ok := PrependToNone(buf, data, granted);
    } else {
      ok := PrependToChain(buf, buf.first, data, granted);
    }
  }

  method PrependToNone(buf: Evbuffer, data: seq<byte>, granted: bool) returns (ok: bool)
    requires buf.Valid() && buf.chains == []
    modifies buf, buf.Repr
    ensures buf.Valid() && fresh(buf.Repr - old(buf.Repr))
    ensures ok <==> granted && |data| <= BLOCK_MAX
    ensures ok ==> buf.Contents() == data + old(buf.Contents())
    ensures !ok ==> buf.Contents() == [] == data[|data|..] + old(buf.Contents())
    ensures unchanged(buf`freezeStart, buf`freezeEnd)
  {
    var c := NewChain(|data|, granted);
    if c == null {
      AppendNil([]);
      return false;
    }
    ghost var v := Chunk(c.buffer[..], 0, 0);
    InsertFirst(buf, c, v);
    assert FrontRoom(buf.vals) == |v.mem| && buf.Contents() == [];
    AppendNil(data);
    ok := PrependToChain(buf, c, data, granted);
  }

  method PrependToChain(buf: Evbuffer, chain: Chain, data: seq<byte>, granted: bool) returns (ok: bool)
    requires buf.Valid() && buf.chains != [] && chain == buf.chains[0]
    modifies buf, buf.Repr
    ensures buf.Valid() && fresh(buf.Repr - old(buf.Repr))
    ensures ok <==> CanPrepend(old(buf.vals), |data|, granted)
    ensures ok ==> buf.Contents() == data + old(buf.Contents())
    ensures !ok ==>
      |data| > FrontRoom(old(buf.vals))
      && buf.Contents() == data[|data| - FrontRoom(old(buf.vals))..] + old(buf.Contents())
    ensures |data| <= FrontRoom(old(buf.vals)) ==> GrewFront(buf.vals, FrontRewound(old(buf.vals)), |data|)
    ensures unchanged(buf`freezeStart, buf`freezeEnd)
  {
    ghost var room := FrontRoom(buf.vals);
    RewindFront(buf, chain);
    buf.ValueAt(0);
    assert chain.misalign == room;
    if chain.misalign >= |data| {
      PrependInPlace(buf, chain, data);
      ok := true;
    } else {
      ok := PrependSpilling(buf, chain, data, |data| - chain.misalign, granted);
    }
  }

  /** Fills the room in front of the first chain, and puts the rest into a new chain. */
  method PrependSpilling(buf: Evbuffer, chain: Chain, data: seq<byte>, cut: nat, granted: bool) returns (ok: bool)
    requires buf.Valid() && buf.chains != [] && chain == buf.chains[0]
    requires 0 < cut <= |data| && |data| - cut == buf.vals[0].misalign
    requires buf.vals[0].off > 0 || buf.vals[0].misalign > 0
    modifies buf, buf.Repr
    ensures buf.Valid() && fresh(buf.Repr - old(buf.Repr))
    ensures ok <==> cut <= BLOCK_MAX && granted
    ensures buf.Contents() == (if ok then data else data[cut..]) + old(buf.Contents())
    ensures unchanged(buf`freezeStart, buf`freezeEnd)
  {
    RejoinFront(data, cut, buf.Contents());
    if cut < |data| {
      PrependInPlace(buf, chain, data[cut..]);
    }
    ok := PushData(buf, data[..cut], granted);
  }
}
