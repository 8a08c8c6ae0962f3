/** Moving data between two buffers (buffer.c). */
module EvbufferMove {
  import Basics
  import opened Chunks
  import opened Evbuffers
  import opened EvbufferOps
  import opened EvbufferRead

  /** Two buffers that share no chain. */
  ghost predicate Apart(a: Evbuffer, b: Evbuffer)
    reads a`Repr, b`Repr
  {
    a != b && a.Repr !! b.Repr && a !in b.Repr && b !in a.Repr
  }

  /** No empty chain stands behind the last one with data. */
  ghost predicate Trimmed(buf: Evbuffer)
    reads buf`vals, buf`lwd
  {
    buf.lwd + 1 == |buf.vals|
  }

  lemma HasData(cs: seq<Chunk>, lwd: nat)
    requires Shape(cs, lwd) && Flatten(cs) != []
    ensures cs != [] && cs[lwd].off > 0 && DataCount(cs, lwd) == lwd + 1
  {
  }

  /** Chunks that all hold data, followed by another buffer's chunks. */
  lemma AppendShape(xs: seq<Chunk>, ys: seq<Chunk>, lwd: nat, zs: seq<Chunk>, k: nat)
    requires AllWf(xs) && (forall i :: 0 <= i < |xs| ==> xs[i].off > 0)
    requires Shape(ys, lwd) && ys != [] && ys[lwd].off > 0
    requires zs == xs + ys && k == |xs| + lwd
    ensures Shape(zs, k)
  {
    assert zs[k] == ys[lwd];
    forall i | 0 <= i < |zs|
      ensures zs[i].Wf() && (i <= k ==> zs[i].off > 0) && (k < i ==> zs[i].off == 0)
    {
      if i < |xs| {
        assert zs[i] == xs[i];
      } else {
        assert zs[i] == ys[i - |xs|];
      }
    }
  }

  /** The predecessors in two lists that are joined. */
  lemma JoinPreds(xs: seq<Chain>, ys: seq<Chain>, lwd: nat, pred: Chain?, lwdPred: Chain?, zs: seq<Chain>, k: nat)
    requires lwd <= |ys| && ys != [] && zs == xs + ys && k == |xs| + lwd
    requires pred == PredAt(xs, |xs|) && lwdPred == PredAt(ys, lwd)
    ensures PredAt(zs, k) == if lwdPred == null then pred else lwdPred
    ensures PredAt(zs, |zs|) == PredAt(ys, |ys|)
  {
    PredAtIs(zs, k);
    PredAtIs(zs, |zs|);
    PredAtIs(xs, |xs|);
    PredAtIs(ys, lwd);
    PredAtIs(ys, |ys|);
  }

  /** Frees the chains of a buffer without data and takes over those of src (COPY_CHAIN). */
  method TakeOver(dst: Evbuffer, src: Evbuffer)
    requires dst.Valid() && src.Valid() && Apart(dst, src)
    modifies dst, src
    ensures dst.Valid() && src.Valid() && dst.Repr <= old(dst.Repr) + old(src.Repr)
    ensures src.Repr == {}
    ensures dst.chains == old(src.chains) && dst.Contents() == old(src.Contents()) && src.Contents() == []
    ensures unchanged(dst`freezeStart, dst`freezeEnd, src`freezeStart, src`freezeEnd)
  {
    Replace(dst, src);
    src.Zero();
  }

  method Replace(dst: Evbuffer, src: Evbuffer)
    requires dst.Valid() && src.Valid() && Apart(dst, src)
    modifies dst
    ensures dst.Valid() && dst.Repr == src.Repr
    ensures dst.chains == src.chains && dst.vals == src.vals
    ensures unchanged(dst`freezeStart, dst`freezeEnd)
  {
    dst.Zero();
    dst.CopyList(src);
    dst.SetTail(src.last, src.lwdPred, src.lwd, src.totalLen);
  }

  /** APPEND_CHAIN */
  method AppendChain(dst: Evbuffer, src: Evbuffer)
    requires dst.Valid() && src.Valid() && Apart(dst, src) && src.Contents() != []
    modifies dst, dst.Repr
    ensures dst.Valid() && src.Spine() && dst.Repr == old(dst.Repr) + src.Repr
    ensures dst.Contents() == old(dst.Contents()) + src.Contents()
    ensures unchanged(dst`freezeStart, dst`freezeEnd)
  {
    FlattenTrim(dst.vals, DataCount(dst.vals, dst.lwd));
    OwnedAll(src.chains, src.Repr);
    var pred := FreeTrailingEmptyChains(dst);
    JoinTail(dst, src, pred);
  }

  /** Every chain of the list holds data, and totalLen counts it. */
  ghost predicate Full(buf: Evbuffer)
    reads buf, buf.chains, set c | c in buf.chains :: c.buffer
  {
    && buf.Spine() && AllWf(buf.vals) && (forall i :: 0 <= i < |buf.vals| ==> buf.vals[i].off > 0)
    && buf.totalLen == |buf.Contents()|
  }

  method JoinTail(dst: Evbuffer, src: Evbuffer, pred: Chain?)
    requires Full(dst) && pred == PredAt(dst.chains, |dst.chains|)
    requires src.Valid() && Apart(dst, src) && src.Contents() != []
    modifies dst, dst.Repr
    ensures dst.Valid() && src.Spine() && dst.Repr == old(dst.Repr) + src.Repr
    ensures dst.Contents() == old(dst.Contents()) + src.Contents()
    ensures unchanged(dst`freezeStart, dst`freezeEnd)
  {
    ghost var cs, vs, lwd := dst.chains + src.chains, dst.vals + src.vals, |dst.vals| + src.lwd;
    HasData(src.vals, src.lwd);
    AppendShape(dst.vals, src.vals, src.lwd, vs, lwd);
    FlattenAppend(dst.vals, src.vals);
    JoinPreds(dst.chains, src.chains, src.lwd, pred, src.lwdPred, cs, lwd);
    var total := dst.totalLen + src.totalLen;
    dst.Adopt(pred, src);
    dst.Settle(src.last, if src.lwdPred == null then pred else src.lwdPred, lwd, total, cs, vs, Flatten(vs));
  }

  lemma PredAtZero(buf: Evbuffer)
    requires buf.Valid()
    ensures buf.lwdPred == null <==> buf.lwd == 0
  {
    PredAtIs(buf.chains, buf.lwd);
  }

  /** evbuffer_add_buffer */
  method AddBuffer(outbuf: Evbuffer, inbuf: Evbuffer) returns (ok: bool)
    requires outbuf.Valid() && inbuf.Valid() && (outbuf == inbuf || Apart(outbuf, inbuf))
    modifies outbuf, outbuf.Repr, inbuf
    ensures outbuf.Valid() && inbuf.Valid() && (outbuf == inbuf || Apart(outbuf, inbuf))
    ensures outbuf.Repr + inbuf.Repr <= old(outbuf.Repr) + old(inbuf.Repr)
    ensures ok <==> outbuf == inbuf || old(inbuf.Contents()) == [] || !(outbuf.freezeEnd || inbuf.freezeStart)
    ensures outbuf == inbuf || !ok ==>
      outbuf.Contents() == old(outbuf.Contents()) && inbuf.Contents() == old(inbuf.Contents())
    ensures outbuf != inbuf && ok ==>
      outbuf.Contents() == old(outbuf.Contents()) + old(inbuf.Contents()) && inbuf.Contents() == []
    ensures unchanged(outbuf`freezeStart, outbuf`freezeEnd, inbuf`freezeStart, inbuf`freezeEnd)
  {
    AppendNil(outbuf.Contents());
    AppendNil(inbuf.Contents());
    if inbuf.totalLen == 0 || outbuf == inbuf {
      return true;
    }
    if outbuf.freezeEnd || inbuf.freezeStart {
      return false;
    }
    if outbuf.totalLen == 0 {
      TakeOver(outbuf, inbuf);
    } else {
      AppendChain(outbuf, inbuf);
      inbuf.Zero();
    }
    ok := true;
  }

  /** Two runs of chunks in a row are in shape exactly when the first one has no
      empty chunk at its end. */
  lemma PrependShape(xs: seq<Chunk>, lwd: nat, ys: seq<Chunk>, lwd': nat, zs: seq<Chunk>, k: nat)
    requires Shape(xs, lwd) && Flatten(xs) != [] && Shape(ys, lwd') && Flatten(ys) != []
    requires zs == xs + ys && k == |xs| + lwd'
    ensures Shape(zs, k) <==> lwd + 1 == |xs|
    ensures Flatten(zs) == Flatten(xs) + Flatten(ys)
  {
    FlattenAppend(xs, ys);
    HasData(xs, lwd);
    HasData(ys, lwd');
    if lwd + 1 < |xs| {
      GapBreaksShape(xs, lwd, ys, zs, k);
    } else {
      AppendShape(xs, ys, lwd', zs, k);
    }
  }

  lemma GapBreaksShape(xs: seq<Chunk>, lwd: nat, ys: seq<Chunk>, zs: seq<Chunk>, k: nat)
    requires Shape(xs, lwd) && lwd + 1 < |xs| <= k && zs == xs + ys
    ensures !Shape(zs, k)
  {
    assert zs[lwd + 1] == xs[lwd + 1];
  }

  /** PREPEND_CHAIN. An empty chain at the end of src ends up in the middle of the
      list, which breaks what last_with_datap promises, though not the stream. */
  method PrependChain(dst: Evbuffer, src: Evbuffer)
    requires dst.Valid() && src.Valid() && Apart(dst, src) && dst.Contents() != [] && src.Contents() != []
    modifies dst, src.Repr
    ensures dst.Spine() && dst.LastOk() && dst.LwdOk() && dst.totalLen == |dst.Contents()|
    ensures Shape(dst.vals, dst.lwd) == old(Trimmed(src))
    ensures dst.Repr == old(dst.Repr) + src.Repr
    ensures dst.Contents() == old(src.Contents()) + old(dst.Contents())
    ensures unchanged(dst`freezeStart, dst`freezeEnd)
  {
    ghost var xs, ys, m, n := src.vals, dst.vals, src.lwd, dst.lwd;
    ghost var cs, k := src.chains + dst.chains, |src.chains| + dst.lwd;
    HasData(xs, m);
    HasData(ys, n);
    JoinPreds(src.chains, dst.chains, n, src.last, dst.lwdPred, cs, k);
    // The source also handles a destination without any chain, which cannot hold data.
    var p := if dst.lwdPred == null then src.last else dst.lwdPred;
    JoinFront(dst, src, p, k, cs);
    PrependShape(xs, m, ys, n, dst.vals, k);
  }

  method JoinFront(dst: Evbuffer, src: Evbuffer, p: Chain?, ghost lwd: nat, ghost cs: seq<Chain>)
    requires dst.Spine() && src.Spine() && Apart(dst, src) && src.chains != [] && src.LastOk()
    requires cs == src.chains + dst.chains && lwd <= |cs| && p == PredAt(cs, lwd) && dst.last == PredAt(cs, |cs|)
    modifies dst, src.Repr
    ensures dst.Spine() && dst.LastOk() && dst.LwdOk() && dst.totalLen == old(dst.totalLen) + src.totalLen
    ensures dst.Repr == old(dst.Repr) + src.Repr
    ensures dst.vals == src.vals + old(dst.vals) && dst.lwd == lwd
    ensures unchanged(dst`freezeStart, dst`freezeEnd)
    ensures unchanged(src`chains, src`vals, src`lwd, src`totalLen, src`freezeStart, src`freezeEnd)
  {
    dst.AdoptFront(src);
    dst.SetTail(dst.last, p, lwd, dst.totalLen + src.totalLen);
  }

  method PrependNonempty(dst: Evbuffer, src: Evbuffer)
    requires dst.Valid() && src.Valid() && Apart(dst, src) && dst.Contents() != [] && src.Contents() != []
    modifies dst, src, src.Repr
    ensures dst.Spine() && dst.LastOk() && dst.LwdOk() && dst.totalLen == |dst.Contents()|
    ensures Shape(dst.vals, dst.lwd) == old(Trimmed(src))
    ensures src.Valid() && src.Contents() == [] && Apart(dst, src)
      && dst.Repr + src.Repr <= old(dst.Repr) + old(src.Repr)
    ensures dst.Contents() == old(src.Contents()) + old(dst.Contents())
    ensures unchanged(dst`freezeStart, dst`freezeEnd, src`freezeStart, src`freezeEnd)
  {
    PrependChain(dst, src);
    src.Zero();
  }

  /** evbuffer_prepend_buffer */
  method PrependBuffer(outbuf: Evbuffer, inbuf: Evbuffer) returns (ok: bool)
    requires outbuf.Valid() && inbuf.Valid() && (outbuf == inbuf || Apart(outbuf, inbuf))
    modifies outbuf, inbuf, inbuf.Repr
    ensures inbuf == outbuf || inbuf.Valid()
    ensures outbuf.Repr + inbuf.Repr <= old(outbuf.Repr) + old(inbuf.Repr)
    ensures outbuf.Spine() && outbuf.LastOk() && outbuf.LwdOk() && outbuf.totalLen == |outbuf.Contents()|
    ensures Shape(outbuf.vals, outbuf.lwd) ==
      (!ok || inbuf == outbuf || old(inbuf.Contents()) == [] || old(outbuf.Contents()) == [] || old(Trimmed(inbuf)))
    ensures outbuf == inbuf || Apart(outbuf, inbuf)
    ensures ok <==> outbuf == inbuf || old(inbuf.Contents()) == [] || !(outbuf.freezeStart || inbuf.freezeStart)
    ensures outbuf == inbuf || !ok ==>
      outbuf.Contents() == old(outbuf.Contents()) && inbuf.Contents() == old(inbuf.Contents())
    ensures outbuf != inbuf && ok ==>
      outbuf.Contents() == old(inbuf.Contents()) + old(outbuf.Contents()) && inbuf.Contents() == []
    ensures unchanged(outbuf`freezeStart, outbuf`freezeEnd, inbuf`freezeStart, inbuf`freezeEnd)
  {
    AppendNil(outbuf.Contents());
    AppendNil(inbuf.Contents());
    if inbuf.totalLen == 0 || outbuf == inbuf {
      return true;
    }
    if outbuf.freezeStart || inbuf.freezeStart {
      return false;
    }
    if outbuf.totalLen == 0 {
      TakeOver(outbuf, inbuf);
    } else {
      PrependNonempty(outbuf, inbuf);
    }
    ok := true;
  }

  /** The chains evbuffer_remove_buffer hands over whole, and where it stops. */
  method ScanWhole(src: Evbuffer, datlen: nat) returns (chain: Chain, prev: Chain?, left: nat, ghost k: nat)
    requires src.Valid() && datlen < |src.Contents()|
    modifies src`last, src`lwdPred, src`lwd, src`totalLen
    ensures src.Spine()
      && unchanged(src`first, src`chains, src`vals, src`Repr, src`last, src`lwd, src`totalLen, src`freezeStart,
      src`freezeEnd)
    ensures k <= src.lwd && k < |src.chains| && chain == src.chains[k] && (k > 0 ==> prev == src.chains[k - 1])
    ensures left < src.vals[k].off && Offset(src.vals, k) + left == datlen
    ensures k == src.lwd ==> src.lwdPred == null
    ensures k < src.lwd ==> src.lwdPred == PredAt(src.chains, src.lwd)
  {
    OffsetEnds(src.vals);
    assert src.chains != [];
    PredAtZero(src);
    chain, prev, left, k := src.first, src.first, datlen, 0;
    while chain.off <= left
      invariant src.Spine()
        && unchanged(src`first, src`chains, src`vals, src`Repr, src`last, src`lwd, src`totalLen, src`freezeStart,
        src`freezeEnd)
      invariant k <= src.lwd && k < |src.chains| && chain == src.chains[k] && (k > 0 ==> prev == src.chains[k - 1])
      invariant Offset(src.vals, k) + left == datlen
      invariant k == src.lwd ==> src.lwdPred == null
      invariant k < src.lwd ==> src.lwdPred == PredAt(src.chains, src.lwd)
      decreases |src.chains| - k
    {
      PassChain(src, chain, k, left);
      left := left - chain.off;
      prev := chain;
      if src.lwdPred == chain {
        src.SetTail(src.last, null, src.lwd, src.totalLen);
      }
      chain := chain.next;
      k := k + 1;
    }
    src.ValueAt(k);
  }

  /** advance_last_with_data */
  method AdvanceLastWithData(buf: Evbuffer)
    requires buf.Spine() && buf.LwdOk() && buf.lwd < |buf.chains|
    modifies buf`last, buf`lwdPred, buf`lwd, buf`totalLen
    ensures buf.Spine() && buf.LwdOk() && old(buf.lwd) <= buf.lwd < |buf.chains|
    ensures forall i :: old(buf.lwd) < i <= buf.lwd ==> buf.vals[i].off > 0
    ensures buf.lwd + 1 < |buf.chains| ==> buf.vals[buf.lwd + 1].off == 0
    ensures unchanged(buf`first, buf`chains, buf`vals, buf`Repr, buf`last, buf`totalLen, buf`freezeStart, buf`freezeEnd)
  {
    buf.DerefAt(buf.lwd);
    var at := buf.Deref(buf.lwdPred);
    buf.NextAt(buf.lwd);
    while at.next != null && at.next.off != 0
      invariant buf.Spine() && buf.LwdOk() && old(buf.lwd) <= buf.lwd < |buf.chains|
      invariant at == buf.chains[buf.lwd]
      invariant at.next == if buf.lwd + 1 < |buf.chains| then buf.chains[buf.lwd + 1] else null
      invariant forall i :: old(buf.lwd) < i <= buf.lwd ==> buf.vals[i].off > 0
      invariant unchanged(buf`first, buf`chains, buf`vals, buf`Repr, buf`last, buf`totalLen, buf`freezeStart,
        buf`freezeEnd)
      decreases |buf.chains| - buf.lwd
    {
      PredAtIs(buf.chains, buf.lwd + 1);
      buf.ValueAt(buf.lwd + 1);
      var next := at.next;
      buf.SetTail(buf.last, at, buf.lwd + 1, buf.totalLen);
      at := next;
      buf.NextAt(buf.lwd);
    }
    if buf.lwd + 1 < |buf.chains| {
      buf.ValueAt(buf.lwd + 1);
    }
  }

  /** Moves the first k chains of src, which all hold data, to the end of dst. */
  method MoveWhole(dst: Evbuffer, src: Evbuffer, prev: Chain, chain: Chain, ghost k: nat, nread: nat,
      ghost cs: seq<Chain>, ghost rest: nat)
    requires dst.Valid() && Apart(dst, src)
    requires src.Spine() && src.LastOk() && Shape(src.vals, src.lwd) && src.totalLen == |src.Contents()|
    requires 0 < k <= src.lwd < |src.chains| && prev == src.chains[k - 1] && chain == src.chains[k]
    requires cs == src.chains[k..] && k + rest == src.lwd && src.lwdPred == PredAt(cs, rest)
      && src.last == PredAt(cs, |cs|)
    requires nread == Offset(src.vals, k)
    modifies dst, dst.Repr, src, src.Repr
    ensures dst.Valid() && src.Valid() && Apart(dst, src) && dst.Repr + src.Repr <= old(dst.Repr) + old(src.Repr)
    ensures nread <= |old(src.Contents())|
    ensures dst.Contents() == old(dst.Contents()) + old(src.Contents())[..nread]
    ensures src.Contents() == old(src.Contents())[nread..]
    ensures src.chains == old(src.chains)[k..] && src.vals == old(src.vals)[k..]
    ensures unchanged(dst`freezeStart, dst`freezeEnd, src`freezeStart, src`freezeEnd)
  {
    ghost var xs, ys := dst.vals[..DataCount(dst.vals, dst.lwd)], src.vals;
    TakeStream(ys, src.lwd, k, rest);
    FlattenTrim(dst.vals, |xs|);
    ShiftChains(dst, src, prev, chain, k, nread, xs, ys);
    GrownValid(dst, xs, ys[..k]);
    RestValid(src, cs, ys[k..], rest);
  }

  /** The list operations of the move. */
  method ShiftChains(dst: Evbuffer, src: Evbuffer, prev: Chain, chain: Chain, ghost k: nat, nread: nat,
      ghost xs: seq<Chunk>, ghost ys: seq<Chunk>)
    requires dst.Valid() && Apart(dst, src) && xs == dst.vals[..DataCount(dst.vals, dst.lwd)]
    requires src.Spine() && Shape(ys, src.lwd) && ys == src.vals && 0 < k <= src.lwd < |src.chains|
      && nread <= src.totalLen
    requires prev == src.chains[k - 1] && chain == src.chains[k]
    modifies dst, dst.Repr, src, src.Repr
    ensures dst.Spine() && dst.LastOk() && dst.LwdOk() && dst.lwd + 1 == |dst.vals|
    ensures dst.vals == xs + ys[..k] && AllData(xs) && AllData(ys[..k]) && dst.totalLen == old(dst.totalLen) + nread
    ensures src.Spine() && Apart(dst, src) && dst.Repr + src.Repr <= old(dst.Repr) + old(src.Repr)
    ensures src.chains == old(src.chains)[k..] && src.vals == ys[k..]
    ensures src.lwd == old(src.lwd) - k && src.lwdPred == old(src.lwdPred) && src.last == old(src.last)
      && src.totalLen == old(src.totalLen) - nread
    ensures unchanged(dst`freezeStart, dst`freezeEnd, src`freezeStart, src`freezeEnd)
  {
    OwnedAll(src.chains, src.Repr);
    var pred := FreeTrailingEmptyChains(dst);
    HandOver(dst, src, pred, prev, chain, k, nread);
  }

  lemma GrownValid(buf: Evbuffer, xs: seq<Chunk>, ys: seq<Chunk>)
    requires buf.Spine() && buf.LastOk() && buf.LwdOk() && buf.lwd + 1 == |buf.vals|
    requires buf.vals == xs + ys && AllWf(xs) && AllWf(ys) && AllData(xs) && AllData(ys) && ys != []
    requires buf.totalLen == |Flatten(xs)| + |Flatten(ys)|
    ensures buf.Valid() && buf.Contents() == Flatten(xs) + Flatten(ys)
  {
    FlattenAppend(xs, ys);
    AllDataShape(xs + ys);
  }

  lemma RestValid(buf: Evbuffer, cs: seq<Chain>, vs: seq<Chunk>, lwd: nat)
    requires buf.Spine() && buf.chains == cs && buf.vals == vs && buf.lwd == lwd <= |cs|
    requires buf.lwdPred == PredAt(cs, lwd) && buf.last == PredAt(cs, |cs|)
    requires Shape(vs, lwd) && buf.totalLen == |Flatten(vs)|
    ensures buf.Valid() && buf.Contents() == Flatten(vs)
  {
  }

  lemma AllDataShape(cs: seq<Chunk>)
    requires AllWf(cs) && cs != [] && forall i :: 0 <= i < |cs| ==> cs[i].off > 0
    ensures Shape(cs, |cs| - 1)
  {
  }

  lemma TakeStream(cs: seq<Chunk>, lwd: nat, k: nat, rest: nat)
    requires Shape(cs, lwd) && k + rest == lwd && k < |cs|
    ensures Shape(cs[k..], rest) && Offset(cs, k) <= |Flatten(cs)|
    ensures Flatten(cs[..k]) == Flatten(cs)[..Offset(cs, k)] && Flatten(cs[k..]) == Flatten(cs)[Offset(cs, k)..]
    ensures |Flatten(cs[k..])| == |Flatten(cs)| - Offset(cs, k)
  {
    DropChunks(cs, lwd, k, rest);
    FlattenSplit(cs, k);
  }

  /** Every chain of the list holds data. */
  ghost predicate AllData(vs: seq<Chunk>) {
    forall i :: 0 <= i < |vs| ==> vs[i].off > 0
  }

  method HandOver(dst: Evbuffer, src: Evbuffer, pred: Chain?, prev: Chain, chain: Chain, ghost k: nat, nread: nat)
    requires dst.Spine() && dst.LwdOk() && AllData(dst.vals) && pred == PredAt(dst.chains, |dst.chains|)
      && Apart(dst, src)
    requires src.Spine() && 0 < k < |src.chains| && AllData(src.vals[..k]) && k <= src.lwd && nread <= src.totalLen
    requires prev == src.chains[k - 1] && chain == src.chains[k]
    modifies dst, dst.Repr, src, src.Repr
    ensures dst.Spine() && dst.LastOk() && dst.LwdOk() && dst.lwd + 1 == |dst.vals|
    ensures dst.vals == old(dst.vals) + old(src.vals)[..k] && dst.totalLen == old(dst.totalLen) + nread
    ensures src.Spine() && Apart(dst, src) && dst.Repr + src.Repr <= old(dst.Repr) + old(src.Repr)
    ensures src.chains == old(src.chains)[k..] && src.vals == old(src.vals)[k..]
    ensures src.lwd == old(src.lwd) - k && src.lwdPred == old(src.lwdPred) && src.last == old(src.last)
      && src.totalLen == old(src.totalLen) - nread
    ensures unchanged(dst`freezeStart, dst`freezeEnd, src`freezeStart, src`freezeEnd)
  {
    TakeLists(dst, src, pred, prev, chain, k, nread);
    OwnedAll(src.chains, src.Repr);
    AdvanceLastWithData(dst);
  }

  method TakeLists(dst: Evbuffer, src: Evbuffer, pred: Chain?, prev: Chain, chain: Chain, ghost k: nat, nread: nat)
    requires dst.Spine() && dst.LwdOk() && pred == PredAt(dst.chains, |dst.chains|) && Apart(dst, src)
    requires src.Spine() && 0 < k < |src.chains| && k <= src.lwd && nread <= src.totalLen
    requires prev == src.chains[k - 1] && chain == src.chains[k]
    modifies dst, dst.Repr, src, src.Repr
    ensures dst.Spine() && dst.LastOk() && dst.LwdOk() && dst.lwd == old(dst.lwd)
    ensures dst.chains == old(dst.chains) + old(src.chains)[..k]
    ensures dst.vals == old(dst.vals) + old(src.vals)[..k] && dst.totalLen == old(dst.totalLen) + nread
    ensures src.Spine() && Apart(dst, src) && dst.Repr + src.Repr <= old(dst.Repr) + old(src.Repr)
    ensures src.chains == old(src.chains)[k..] && src.vals == old(src.vals)[k..]
    ensures src.lwd == old(src.lwd) - k && src.lwdPred == old(src.lwdPred) && src.last == old(src.last)
      && src.totalLen == old(src.totalLen) - nread
    ensures unchanged(dst`freezeStart, dst`freezeEnd, src`freezeStart, src`freezeEnd)
  {
    OwnedAt(src.chains, src.Repr, k - 1);
    OwnedSplit(src.chains, src.Repr, k);
    PredAtKept(dst.chains, src.chains[..k], dst.lwd);
    PredAtIs(dst.chains + src.chains[..k], |dst.chains + src.chains[..k]|);
    dst.AdoptPrefix(pred, src, prev, chain, k);
    src.SetTail(src.last, src.lwdPred, src.lwd - k, src.totalLen - nread);
    dst.SetTail(prev, dst.lwdPred, dst.lwd, dst.totalLen + nread);
  }

  lemma PredAtKept(xs: seq<Chain>, ys: seq<Chain>, k: nat)
    requires k <= |xs|
    ensures PredAt(xs + ys, k) == PredAt(xs, k)
  {
    PredAtIs(xs + ys, k);
    PredAtIs(xs, k);
  }

  /** Copies left bytes of the first chain of src, and drops them there. */
  method MovePart(dst: Evbuffer, src: Evbuffer, left: nat)
    requires dst.Valid() && src.Valid() && Apart(dst, src) && !dst.freezeEnd
    requires src.chains != [] && left < src.vals[0].off && |dst.Contents()| + left <= SIZE_MAX
    modifies dst, dst.Repr, src, src.Repr
    ensures dst.Valid() && src.Valid() && Apart(dst, src) && src.Repr == old(src.Repr)
      && fresh(dst.Repr - old(dst.Repr))
    ensures left <= |old(src.Contents())|
    ensures dst.Contents() == old(dst.Contents()) + old(src.Contents())[..left]
    ensures src.Contents() == old(src.Contents())[left..]
    ensures unchanged(dst`freezeStart, dst`freezeEnd, src`freezeStart, src`freezeEnd)
  {
    HeadOfStream(src.vals, left);
    OwnedAll(src.chains, src.Repr);
    src.ReadAt(src.first, 0, 0, left);
    var data := src.first.Bytes(0, left);
    var ok := Add(dst, data);
    OwnedAll(dst.chains, dst.Repr);
    SkipFirst(src, left);
  }

  lemma HeadOfStream(cs: seq<Chunk>, n: nat)
    requires cs != [] && n <= |cs[0].Data()|
    ensures n <= |Flatten(cs)| && Flatten(cs)[..n] == cs[0].Data()[..n] == cs[0].Data()[0..n]
  {
  }

  /** evbuffer_remove_buffer; the two buffers fit into memory together. The bytes moved are
      counted in a size_t, and n is what an int keeps of that count. */
  method RemoveBuffer(src: Evbuffer, dst: Evbuffer, datlen: nat) returns (n: int)
    requires src.Valid() && dst.Valid() && (dst == src || Apart(dst, src))
    requires |src.Contents()| + |dst.Contents()| <= SIZE_MAX
    modifies dst, dst.Repr, src, src.Repr
    ensures src.Valid() && dst.Valid() && (dst == src || Apart(dst, src))
    ensures fresh(dst.Repr + src.Repr - old(dst.Repr) - old(src.Repr))
    ensures var idle := datlen == 0 || dst == src; var refused := !idle && (dst.freezeEnd || src.freezeStart);
      var m := if idle || refused then 0 else if datlen < |old(src.Contents())| then datlen else |old(src.Contents())|;
      && n == (if refused then -1 else Basics.ToInt(m))
      && (m == 0 ==> dst.Contents() == old(dst.Contents()) && src.Contents() == old(src.Contents()))
      && (m > 0 ==>
         dst.Contents() == old(dst.Contents()) + old(src.Contents())[..m]
         && src.Contents() == old(src.Contents())[m..])
    ensures unchanged(dst`freezeStart, dst`freezeEnd, src`freezeStart, src`freezeEnd)
  {
    if datlen == 0 || dst == src {
      return 0;
    }
    if dst.freezeEnd || src.freezeStart {
      return -1;
    }
    if datlen >= src.totalLen {
      n := Basics.ToInt(src.totalLen);
      WholeSlice(src.Contents());
      var ok := AddBuffer(dst, src);
      return;
    }
    RemoveSome(src, dst, datlen);
    n := Basics.ToInt(datlen);
  }

  lemma WholeSlice(a: seq<byte>)
    ensures a[..|a|] == a && a[|a|..] == []
  {
  }

  method RemoveSome(src: Evbuffer, dst: Evbuffer, datlen: nat)
    requires src.Valid() && dst.Valid() && Apart(dst, src) && !dst.freezeEnd
    requires 0 < datlen < |src.Contents()| && |src.Contents()| + |dst.Contents()| <= SIZE_MAX
    modifies dst, dst.Repr, src, src.Repr
    ensures src.Valid() && dst.Valid() && Apart(dst, src) && fresh(dst.Repr + src.Repr - old(dst.Repr) - old(src.Repr))
    ensures dst.Contents() == old(dst.Contents()) + old(src.Contents())[..datlen]
      && src.Contents() == old(src.Contents())[datlen..]
    ensures unchanged(dst`freezeStart, dst`freezeEnd, src`freezeStart, src`freezeEnd)
  {
    ghost var a, b := dst.Contents(), src.Contents();
    var left := RemoveWhole(src, dst, datlen);
    TwoSteps(a, b, datlen - left, left);
    ghost var mine := dst.Repr;
    MovePart(dst, src, left);
    assert dst.Repr + src.Repr - old(dst.Repr) - old(src.Repr) <= dst.Repr - mine;
  }

  /** Hands over the chains that datlen covers entirely. */
  method RemoveWhole(src: Evbuffer, dst: Evbuffer, datlen: nat) returns (left: nat)
    requires src.Valid() && dst.Valid() && Apart(dst, src) && 0 < datlen < |src.Contents()|
    modifies dst, dst.Repr, src, src.Repr
    ensures src.Valid() && dst.Valid() && Apart(dst, src) && dst.Repr + src.Repr <= old(dst.Repr) + old(src.Repr)
    ensures left <= datlen && src.chains != [] && left < src.vals[0].off
    ensures dst.Contents() == old(dst.Contents()) + old(src.Contents())[..datlen - left]
    ensures src.Contents() == old(src.Contents())[datlen - left..]
    ensures unchanged(dst`freezeStart, dst`freezeEnd, src`freezeStart, src`freezeEnd)
  {
    OwnedAll(dst.chains, dst.Repr);
    ghost var k;
    var chain, prev;
    chain, prev, left, k := ScanWhole(src, datlen);
    OffsetPositive(src.vals, src.lwd, k);
    if left < datlen {
      ghost var cs, rest: nat := src.chains[k..], src.lwd - k;
      PredsAfterDrop(src, k, cs, rest);
      MoveWhole(dst, src, prev, chain, k, datlen - left, cs, rest);
    } else {
      AppendNil(dst.Contents());
      NothingScanned(src);
    }
  }

  lemma NothingScanned(src: Evbuffer)
    requires src.Spine() && src.LastOk() && Shape(src.vals, src.lwd) && src.totalLen == |src.Contents()|
    requires src.lwd == 0 ==> src.lwdPred == null
    requires src.lwd > 0 ==> src.lwdPred == PredAt(src.chains, src.lwd)
    ensures src.Valid()
  {
    PredAtIs(src.chains, 0);
  }

  lemma OffsetPositive(cs: seq<Chunk>, lwd: nat, k: nat)
    requires Shape(cs, lwd) && k <= lwd && k < |cs|
    ensures k > 0 <==> Offset(cs, k) > 0
  {
  }

  lemma TwoSteps(a: seq<byte>, b: seq<byte>, m: nat, n: nat)
    requires m + n <= |b|
    ensures a + b[..m] + b[m..][..n] == a + b[..m + n] && b[m..][n..] == b[m + n..]
  {
    assert b[..m] + b[m..][..n] == b[..m + n];
  }
}
