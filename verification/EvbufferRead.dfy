/** Draining and copying out (buffer.c). */
module EvbufferRead {
  import Basics
  import opened Chunks
  import opened Evbuffers

  /** The chains that a drain of len bytes frees, and what it takes from the next one. */
  method DrainChains(buf: Evbuffer, len: nat) returns (chain: Chain, remaining: nat, ghost k: nat)
    requires buf.Valid() && len < |buf.Contents()|
    modifies buf`last, buf`lwdPred, buf`lwd, buf`totalLen
    ensures buf.Spine()
      && unchanged(buf`first, buf`chains, buf`vals, buf`Repr, buf`last, buf`lwd, buf`totalLen, buf`freezeStart,
      buf`freezeEnd)
    ensures k <= buf.lwd && k < |buf.chains| && chain == buf.chains[k]
    ensures remaining < buf.vals[k].off && Offset(buf.vals, k) + remaining == len
    ensures k == buf.lwd ==> buf.lwdPred == null
    ensures k < buf.lwd ==> buf.lwdPred == PredAt(buf.chains, buf.lwd)
  {
    OffsetEnds(buf.vals);
    assert buf.chains != [];
    chain, remaining, k := buf.first, len, 0;
    while remaining >= chain.off
      invariant buf.Spine()
        && unchanged(buf`first, buf`chains, buf`vals, buf`Repr, buf`last, buf`lwd, buf`totalLen, buf`freezeStart,
        buf`freezeEnd)
      invariant k <= buf.lwd && k < |buf.chains| && chain == buf.chains[k]
      invariant Offset(buf.vals, k) + remaining == len
      invariant k == buf.lwd ==> buf.lwdPred == null
      invariant k < buf.lwd ==> buf.lwdPred == PredAt(buf.chains, buf.lwd)
      decreases |buf.chains| - k
    {
      PassChain(buf, chain, k, remaining);
      var next := chain.next;
      remaining := remaining - chain.off;
      // The source also tests for *last_with_datap itself, which only a pinned chain can meet.
      assert chain != buf.Deref(buf.lwdPred);
      if chain == buf.lwdPred {
        buf.SetTail(buf.last, null, buf.lwd, buf.totalLen);
      }
      chain := next;
      k := k + 1;
    }
    buf.ValueAt(k);
  }

  /** A chain that less than the whole stream covers: the next one exists, and it is the last
      one with data exactly when last_with_datap points into this chain. */
  lemma PassChain(buf: Evbuffer, chain: Chain, k: nat, remaining: nat)
    requires buf.Spine() && Shape(buf.vals, buf.lwd) && k <= buf.lwd && k < |buf.chains| && chain == buf.chains[k]
    requires k == buf.lwd ==> buf.lwdPred == null
    requires k < buf.lwd ==> buf.lwdPred == PredAt(buf.chains, buf.lwd)
    requires chain.off <= remaining && Offset(buf.vals, k) + remaining < |buf.Contents()|
    ensures k < buf.lwd && k + 1 < |buf.chains| && chain.next == buf.chains[k + 1]
    ensures chain != buf.Deref(buf.lwdPred) && (chain == buf.lwdPred <==> k + 1 == buf.lwd)
    ensures Offset(buf.vals, k + 1) == Offset(buf.vals, k) + chain.off
  {
    buf.ValueAt(k);
    NotLast(buf.vals, buf.lwd, k, remaining);
    OwnedAt(buf.chains, buf.Repr, k);
    PredAtIs(buf.chains, buf.lwd);
    buf.DerefAt(buf.lwd);
    OffsetStep(buf.vals, k);
    buf.NextAt(k);
  }

  /** The remaining chains see the same predecessors. */
  lemma PredsAfterDrop(buf: Evbuffer, k: nat, cs: seq<Chain>, lwd: nat)
    requires k <= |buf.chains| && cs == buf.chains[k..] && k + lwd == buf.lwd
    requires buf.LastOk() && k <= buf.lwd < |buf.chains|
    requires k == buf.lwd ==> buf.lwdPred == null
    requires k < buf.lwd ==> buf.lwdPred == PredAt(buf.chains, buf.lwd)
    ensures lwd < |cs| && buf.lwdPred == PredAt(cs, lwd) && buf.last == PredAt(cs, |cs|)
  {
    PredAtIs(cs, lwd);
    PredAtIs(buf.chains, buf.lwd);
    PredAtIs(cs, |cs|);
    PredAtIs(buf.chains, |buf.chains|);
  }

  /** A chunk that less than the whole stream covers is not the last one with data. */
  lemma NotLast(cs: seq<Chunk>, lwd: nat, k: nat, remaining: nat)
    requires Shape(cs, lwd) && k <= lwd && k < |cs|
    requires cs[k].off <= remaining && Offset(cs, k) + remaining < |Flatten(cs)|
    ensures k < lwd && k + 1 < |cs|
  {
    if k == lwd {
      FlattenLast(cs, lwd);
      OffsetIs(cs, lwd);
    }
  }

  /** evbuffer_drain */
  method Drain(buf: Evbuffer, len: nat) returns (ok: bool)
    requires buf.Valid()
    modifies buf, buf.Repr
    ensures buf.Valid() && buf.Repr <= old(buf.Repr)
    ensures ok <==> old(buf.Contents()) == [] || !buf.freezeStart
    ensures var n := if !ok then 0 else if len < |old(buf.Contents())| then len else |old(buf.Contents())|;
      buf.Contents() == old(buf.Contents())[n..]
    ensures unchanged(buf`freezeStart, buf`freezeEnd)
  {
    if buf.totalLen == 0 {
      return true;
    }
    if buf.freezeStart {
      return false;
    }
    if len >= buf.totalLen {
      buf.DropFront(null, |buf.chains|);
      buf.SetTail(null, null, 0, 0);
    } else {
      DrainPart(buf, len);
    }
    ok := true;
  }

  method DrainPart(buf: Evbuffer, len: nat)
    requires buf.Valid() && len < |buf.Contents()|
    modifies buf, buf.Repr
    ensures buf.Valid() && buf.Repr == old(buf.Repr)
    ensures buf.Contents() == old(buf.Contents())[len..]
    ensures unchanged(buf`freezeStart, buf`freezeEnd)
  {
    ghost var k;
    var chain, remaining;
    chain, remaining, k := DrainChains(buf, len);
    ghost var cs, lwd: nat := buf.chains[k..], buf.lwd - k;
    PredsAfterDrop(buf, k, cs, lwd);
    var rest := buf.totalLen - len;
    DropChains(buf, chain, k, rest + remaining, cs, lwd);
    SkipFirst(buf, remaining);
  }

  /** Makes chain the first one. */
  method DropChains(buf: Evbuffer, chain: Chain, ghost k: nat, totalLen: nat, ghost cs: seq<Chain>, ghost lwd: nat)
    requires buf.Spine() && Shape(buf.vals, buf.lwd) && k <= buf.lwd < |buf.chains| && chain == buf.chains[k]
    requires Offset(buf.vals, k) + totalLen == |buf.Contents()|
    requires cs == buf.chains[k..] && k + lwd == buf.lwd && buf.lwdPred == PredAt(cs, lwd)
      && buf.last == PredAt(cs, |cs|)
    modifies buf
    ensures buf.Valid() && buf.Repr == old(buf.Repr)
    ensures buf.chains == cs && buf.vals == old(buf.vals)[k..]
    ensures Offset(old(buf.vals), k) <= |old(buf.Contents())|
    ensures buf.Contents() == old(buf.Contents())[Offset(old(buf.vals), k)..]
    ensures unchanged(buf`freezeStart, buf`freezeEnd)
  {
    ghost var vs, d := buf.vals[k..], Flatten(buf.vals[k..]);
    DropChunks(buf.vals, buf.lwd, k, lwd);
    assert |d| == totalLen;
    buf.DropFront(chain, k);
    buf.Settle(buf.last, buf.lwdPred, lwd, totalLen, cs, vs, d);
  }

  /** Drops n bytes from the first chain. */
  method SkipFirst(buf: Evbuffer, n: nat)
    requires buf.Valid() && buf.chains != [] && n < buf.vals[0].off
    modifies buf, buf.Repr
    ensures buf.Valid() && buf.Repr == old(buf.Repr) && buf.chains == old(buf.chains)
    ensures n <= |old(buf.Contents())| && buf.Contents() == old(buf.Contents())[n..]
    ensures unchanged(buf`freezeStart, buf`freezeEnd)
  {
    ghost var vs := buf.vals;
    ghost var v := buf.SkipAt(buf.first, 0, n);
    SkipFirstChunk(vs, buf.lwd, n, v);
    buf.SetTail(buf.last, buf.lwdPred, buf.lwd, buf.totalLen - n);
  }

  /** struct evbuffer_ptr: a stream position together with the chain it falls into. */
  datatype Ptr = Ptr(pos: int, chain: Chain?, posInChain: nat)

  /** p is the position in chain k; the place behind the last byte has no chain. */
  ghost predicate PtrAt(buf: Evbuffer, p: Ptr, k: nat)
    reads buf`chains, buf`vals
  {
    && |buf.vals| == |buf.chains| && k <= |buf.chains|
    && p.pos == Offset(buf.vals, k) + p.posInChain
    && (k < |buf.chains| ==> p.chain == buf.chains[k] && p.posInChain < buf.vals[k].off)
    && (k == |buf.chains| ==> p.chain == null && p.posInChain == 0)
  }

  /** chain is the one at position k, and p a place in its window or at its end. */
  ghost predicate Cursor(buf: Evbuffer, k: nat, chain: Chain?, p: nat)
    reads buf`chains, buf`vals
  {
    && |buf.vals| == |buf.chains| && k <= |buf.chains|
    && (k < |buf.chains| ==> chain == buf.chains[k] && p <= buf.vals[k].off)
    && (k == |buf.chains| ==> chain == null && p == 0)
  }

  /** The stream position of a cursor. */
  ghost function At(buf: Evbuffer, k: nat, p: nat): nat
    requires k <= |buf.vals|
    reads buf`vals
  {
    Offset(buf.vals, k) + p
  }

  lemma AtEnd(buf: Evbuffer, k: nat, chain: Chain?, p: nat)
    requires buf.Valid() && Cursor(buf, k, chain, p)
    ensures At(buf, k, p) <= |buf.Contents()|
    ensures At(buf, k, p) < |buf.Contents()| ==> k < |buf.chains|
  {
    OffsetEnds(buf.vals);
    if k < |buf.chains| {
      OffsetStep(buf.vals, k);
    }
  }

  /** Moving on from the end of chain k. */
  lemma StepOver(buf: Evbuffer, chain: Chain, k: nat, next: nat)
    requires buf.Valid() && k < |buf.chains| && chain == buf.chains[k] && next == k + 1
    ensures Cursor(buf, next, chain.next, 0)
    ensures At(buf, next, 0) == At(buf, k, buf.vals[k].off)
  {
    OffsetStep(buf.vals, k);
    buf.NextAt(k);
  }

  /** n bytes of chain k from position p on, in the stream. */
  lemma WindowIs(buf: Evbuffer, chain: Chain, k: nat, p: nat, n: nat, pos: nat, end: nat)
    requires buf.Valid() && k < |buf.chains| && chain == buf.chains[k] && p + n <= buf.vals[k].off
      && pos == At(buf, k, p) && end == pos + n
    ensures chain.misalign + p + n <= chain.buffer.Length && end <= |buf.Contents()|
    ensures chain.Bytes(p, n) == buf.Contents()[pos..end]
  {
    buf.ReadAt(chain, k, p, n);
    PieceInStream(buf.vals, k, p, n, pos, end);
  }

  /** Copying n bytes of chain k from position p on behind what has been copied. */
  lemma CopyPiece(buf: Evbuffer, chain: Chain, k: nat, p: nat, n: nat, start: nat, pos: nat, next: nat, data: seq<byte>)
    requires next == pos + n && buf.Valid() && k < |buf.chains| && chain == buf.chains[k] && p + n <= buf.vals[k].off
      && pos == At(buf, k, p)
    requires start <= pos <= |buf.Contents()| && data == buf.Contents()[start..pos]
    ensures chain.misalign + p + n <= chain.buffer.Length && next <= |buf.Contents()|
    ensures data + chain.Bytes(p, n) == buf.Contents()[start..next]
  {
    buf.ReadAt(chain, k, p, n);
    ExtendSlice(buf.vals, k, p, n, start, pos, next);
  }

  /** The copying loop at the cursor (k, p), with the bytes from start on copied. */
  ghost predicate Copying(buf: Evbuffer, k: nat, chain: Chain?, p: nat, start: nat, pos: nat, data: seq<byte>)
    reads buf`chains, buf`vals
  {
    Cursor(buf, k, chain, p) && pos == At(buf, k, p) && start <= pos <= |buf.Contents()|
      && data == buf.Contents()[start..pos]
  }

  /** Copying what is left of a chain, and going on to the next one. */
  lemma CopyRest(buf: Evbuffer, chain: Chain, k: nat, k': nat, p: nat, start: nat, pos: nat, next: nat,
      data: seq<byte>, n: nat)
    requires next == pos + n && k' == k + 1 && buf.Valid() && k < |buf.chains|
      && Copying(buf, k, chain, p, start, pos, data)
    requires p <= chain.off ==> n == chain.off - p
    ensures p <= chain.off == buf.vals[k].off && chain.misalign + chain.off <= chain.buffer.Length
    ensures Copying(buf, k', chain.next, 0, start, next, data + chain.Bytes(p, n))
  {
    buf.ValueAt(k);
    CopyPiece(buf, chain, k, p, n, start, pos, next, data);
    StepOver(buf, chain, k, k');
  }

  /** The copying loop of evbuffer_copyout_from. */
  method CopyLoop(buf: Evbuffer, from: Chain?, ghost k0: nat, p0: nat, len: nat) returns (data: seq<byte>)
    requires buf.Valid() && Cursor(buf, k0, from, p0)
    requires At(buf, k0, p0) + len <= |buf.Contents()|
    ensures data == buf.Contents()[At(buf, k0, p0)..At(buf, k0, p0) + len]
  {
    ghost var start: nat, pos: nat, stop: nat, k: nat := At(buf, k0, p0), At(buf, k0, p0), At(buf, k0, p0) + len, k0;
    var chain: Chain?, p: nat, left: nat := from, p0, len;
    data := [];
    while left > 0
      invariant Copying(buf, k, chain, p, start, pos, data) && pos + left == stop
      decreases |buf.chains| - k
    {
      AtEnd(buf, k, chain, p);
      buf.ValueAt(k);
      var n: nat := chain.off - p;
      if left < n {
        CopyPiece(buf, chain, k, p, left, start, pos, stop, data);
        data := data + chain.Bytes(p, left);
        return;
      }
      ghost var next, k' := pos + n, k + 1;
      CopyRest(buf, chain, k, k', p, start, pos, next, data, n);
      data, left, chain, p, k, pos := data + chain.Bytes(p, n), left - n, chain.next, 0, k', next;
    }
  }

  /** evbuffer_copyout: the bytes read, or None when the front is frozen. */
  method Copyout(buf: Evbuffer, datlen: nat) returns (ok: bool, data: seq<byte>)
    requires buf.Valid()
    ensures ok <==> !buf.freezeStart || datlen == 0 || buf.Contents() == []
    ensures data == if ok then buf.Contents()[..if datlen > |buf.Contents()| then |buf.Contents()| else datlen] else []
  {
    var len := if datlen > buf.totalLen then buf.totalLen else datlen;
    if len == 0 {
      return true, [];
    }
    if buf.freezeStart {
      return false, [];
    }
    OffsetEnds(buf.vals);
    data := CopyLoop(buf, buf.first, 0, 0, len);
    ok := true;
  }

  /** evbuffer_copyout_from */
  method CopyoutFrom(buf: Evbuffer, p: Ptr, ghost k: nat, datlen: nat) returns (ok: bool, data: seq<byte>)
    requires buf.Valid() && PtrAt(buf, p, k)
    ensures 0 <= p.pos <= |buf.Contents()|
    ensures var n := if datlen + p.pos > |buf.Contents()| then |buf.Contents()| - p.pos else datlen;
      && (ok <==> datlen <= CHAIN_MAX - p.pos && (n == 0 || !buf.freezeStart))
      && data == if ok then buf.Contents()[p.pos..p.pos + n] else []
  {
    PtrInRange(buf, p, k);
    if datlen > CHAIN_MAX - p.pos {
      return false, [];
    }
    var len := if datlen + p.pos > buf.totalLen then buf.totalLen - p.pos else datlen;
    if len == 0 {
      return true, [];
    }
    if buf.freezeStart {
      return false, [];
    }
    data := CopyLoop(buf, p.chain, k, p.posInChain, len);
    ok := true;
  }

  lemma PtrInRange(buf: Evbuffer, p: Ptr, k: nat)
    requires buf.Valid() && PtrAt(buf, p, k)
    ensures 0 <= p.pos <= |buf.Contents()|
    ensures k < |buf.chains| ==> p.pos < |buf.Contents()|
    ensures k == |buf.chains| ==> p.pos == |buf.Contents()|
  {
    OffsetEnds(buf.vals);
    if k < |buf.chains| {
      OffsetStep(buf.vals, k);
    }
  }

  /** evbuffer_remove: copies out and drains what was copied. The bytes are counted in a size_t,
      and n is what an int keeps of that count. */
  method Remove(buf: Evbuffer, datlen: nat) returns (n: int, data: seq<byte>)
    requires buf.Valid()
    modifies buf, buf.Repr
    ensures buf.Valid() && buf.Repr <= old(buf.Repr)
    ensures old(buf.Contents()) == data + buf.Contents()
    ensures var refused := buf.freezeStart && datlen > 0 && old(buf.Contents()) != [];
      && n == (if refused then -1 else Basics.ToInt(|data|))
      && |data| == if refused then 0 else if datlen > |old(buf.Contents())| then |old(buf.Contents())| else datlen
    ensures unchanged(buf`freezeStart, buf`freezeEnd)
  {
    var ok;
    ok, data := Copyout(buf, datlen);
    n := if ok then Basics.ToInt(|data|) else -1;
    if ok && |data| > 0 {
      ok := Drain(buf, |data|);
    }
  }
}
