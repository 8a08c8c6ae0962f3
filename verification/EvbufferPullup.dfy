/** Making the front of a buffer contiguous (buffer.c). */
module EvbufferPullup {
  import opened Chunks
  import opened Evbuffers
  import opened EvbufferOps
  import opened EvbufferRead

  /** The copying loop of evbuffer_pullup: the bytes it collects, the chain it stops at, and
      whether it went over the last chain with data or the one before. */
  method Collect(buf: Evbuffer, from: Chain?, ghost k0: nat, size: nat, ghost start: nat, ghost end: nat)
    returns (data: seq<byte>, chain: Chain?, rest: nat, overLast: bool, overPred: bool, ghost k: nat)
    requires buf.Valid() && k0 <= buf.lwd && 0 < buf.lwd < |buf.chains| && from == buf.chains[k0]
    requires start == Offset(buf.vals, k0) && end == start + size <= |buf.Contents()|
    ensures k0 <= k <= |buf.chains| && chain == if k < |buf.chains| then buf.chains[k] else null
    ensures Offset(buf.vals, k) + rest == end
    ensures data == buf.Contents()[start..end]
    ensures k < |buf.chains| ==> rest < buf.vals[k].off
    ensures k == |buf.chains| ==> rest == 0
    ensures overLast <==> buf.lwd < k
    ensures overPred <==> k0 < buf.lwd <= k
  {
    k := k0;
    chain, rest, overLast, overPred := from, size, false, false;
    data := [];
    buf.DerefAt(buf.lwd);
    var lastWithData := buf.Deref(buf.lwdPred);
    while chain != null && rest >= chain.off
      invariant Collected(buf, start, end, k, chain, rest, data) && k0 <= k
      invariant overLast <==> buf.lwd < k
      invariant overPred <==> k0 < buf.lwd <= k
      decreases |buf.chains| - k
    {
      ghost var next := k + 1;
      data, rest, overLast, overPred, chain :=
        CollectStep(buf, chain, lastWithData, data, rest, overLast, overPred, start, end, k, next);
      k := next;
    }
    data := CollectEnd(buf, start, end, k, chain, rest, data);
  }

  /** The bytes collected so far, and how many are still to come. */
  ghost predicate Collected(buf: Evbuffer, start: nat, end: nat, k: nat, chain: Chain?, rest: nat, data: seq<byte>)
    reads buf`chains, buf`vals
  {
    rest <= end && Copying(buf, k, chain, 0, start, end - rest, data)
  }

  /** One round of the loop. */
  method CollectStep(buf: Evbuffer, from: Chain, lastWithData: Chain?, data0: seq<byte>, rest0: nat, last0: bool,
      pred0: bool, ghost start: nat, ghost end: nat, ghost k: nat, ghost next: nat)
    returns (data: seq<byte>, rest: nat, overLast: bool, overPred: bool, chain: Chain?)
    requires buf.Valid() && Collected(buf, start, end, k, from, rest0, data0) && rest0 >= from.off
    requires 0 < buf.lwd < |buf.chains| && lastWithData == buf.chains[buf.lwd] && next == k + 1
    ensures k < |buf.chains| && Collected(buf, start, end, next, chain, rest, data)
    ensures overLast <==> last0 || k == buf.lwd
    ensures overPred <==> pred0 || next == buf.lwd
  {
    buf.ValueAt(k);
    ghost var pos: nat, to: nat := end - rest0, end - (rest0 - from.off);
    CopyRest(buf, from, k, next, 0, start, pos, to, data0, from.off);
    PredAtIs(buf.chains, buf.lwd);
    SameChain(buf, k, buf.lwd);
    SameChain(buf, k, buf.lwd - 1);
    data, rest, overLast, overPred := data0 + from.Bytes(0, from.off), rest0 - from.off, last0, pred0;
    if from == lastWithData {
      overLast := true;
    }
    if from == buf.lwdPred {
      overPred := true;
    }
    chain := from.next;
  }

  /** The piece of the chain at which the loop stops. */
  method CollectEnd(buf: Evbuffer, ghost start: nat, ghost end: nat, ghost k: nat, chain: Chain?, rest: nat,
      data0: seq<byte>)
    returns (data: seq<byte>)
    requires buf.Valid() && Collected(buf, start, end, k, chain, rest, data0) && (chain != null ==> rest < chain.off)
    requires start <= end <= |buf.Contents()|
    ensures data == buf.Contents()[start..end]
    ensures if k == |buf.chains| then rest == 0 else rest < buf.vals[k].off
  {
    data := data0;
    if chain != null {
      buf.ValueAt(k);
      CopyPiece(buf, chain, k, 0, rest, start, end - rest, end, data);
      data := data + chain.Bytes(0, rest);
    } else {
      OffsetEnds(buf.vals);
    }
  }

  lemma SameChain(buf: Evbuffer, i: nat, j: nat)
    requires buf.Valid() && i < |buf.chains| && j < |buf.chains|
    ensures buf.chains[i] == buf.chains[j] <==> i == j
  {
    OwnedAt(buf.chains, buf.Repr, i);
  }

  /** Where last_with_datap belongs after k chains have become one. */
  function PulledLwd(lwd: nat, k: nat): nat {
    if lwd < k then 0 else lwd - k + 1
  }

  /** What is left behind the bytes pulled up. */
  lemma RestShape(vs: seq<Chunk>, lwd: nat, k: nat, rest: nat, us: seq<Chunk>, ws: seq<Chunk>)
    requires Shape(vs, lwd) && k < |vs| && ws == vs[k..] && |us| == |ws| && forall i :: 0 < i < |us| ==> us[i] == ws[i]
    requires rest < ws[0].off && us[0].Wf() && us[0].Data() == ws[0].Data()[rest..]
    ensures k <= lwd && us[0].off > 0 && Shape(us, lwd - k)
    ensures Offset(vs, k) + rest <= |Flatten(vs)| && Flatten(us) == Flatten(vs)[Offset(vs, k) + rest..]
  {
    assert us == ws[0 := us[0]];
    DropChunks(vs, lwd, k, lwd - k);
    SkipFirstChunk(ws, lwd - k, rest, us[0]);
    DropTwice(Flatten(vs), Offset(vs, k), rest, Offset(vs, k) + rest);
    assert us[0].off == ws[0].off - rest;
  }

  /** One chunk with the first size bytes takes the place of the chunks they came from. */
  lemma PulledShape(vs: seq<Chunk>, lwd: nat, k: nat, rest: nat, size: nat, v: Chunk, us: seq<Chunk>)
    requires Shape(vs, lwd) && 0 < k <= |vs| && lwd < |vs| && 0 < size <= |Flatten(vs)| && Offset(vs, k) + rest == size
    requires v.Wf() && v.Data() == Flatten(vs)[..size]
    requires |us| == |vs| - k && forall i :: 0 < i < |us| ==> us[i] == vs[k..][i]
    requires us != [] ==> rest < vs[k].off && us[0].Wf() && us[0].Data() == vs[k].Data()[rest..]
    requires us == [] ==> rest == 0
    ensures Shape([v] + us, PulledLwd(lwd, k)) && Flatten([v] + us) == Flatten(vs)
    ensures us != [] ==> k <= lwd && us[0].off > 0
  {
    TakeDrop(Flatten(vs), size);
    if us == [] {
      OffsetEnds(vs);
      FlattenOne(v);
      assert [v] + us == [v];
    } else {
      RestShape(vs, lwd, k, rest, us, vs[k..]);
      PushChunk(us, lwd - k, v);
    }
  }

  lemma DropTwice(a: seq<byte>, i: nat, j: nat, n: nat)
    requires i + j == n <= |a|
    ensures a[i..][j..] == a[n..]
  {
  }

  lemma PulledPreds(cs: seq<Chain>, k: nat, c: Chain, lwd: nat)
    requires 0 < k <= |cs| && 0 < lwd < |cs|
    ensures PredAt([c] + cs[k..], 1 + |cs| - k) == if k < |cs| then PredAt(cs, |cs|) else c
    ensures PredAt([c] + cs[k..], PulledLwd(lwd, k)) ==
      if lwd < k then null else if lwd == k then c else PredAt(cs, lwd)
  {
    PredAtIs([c] + cs[k..], 1 + |cs| - k);
    PredAtIs([c] + cs[k..], PulledLwd(lwd, k));
    PredAtIs(cs, |cs|);
    PredAtIs(cs, lwd);
  }

  /** The end of evbuffer_pullup: repairs last and last_with_datap once tmp, which holds the
      first bytes, is followed by what is left of the list. */
  method Repair(buf: Evbuffer, tmp: Chain, chain: Chain?, overLast: bool, overPred: bool, ghost cs: seq<Chain>,
      ghost k: nat, ghost lwd: nat)
    requires buf.Spine() && 0 < k <= |cs| && 0 < lwd < |cs| && buf.chains == [tmp] + cs[k..]
    requires chain == if k < |cs| then cs[k] else null
    requires Shape(buf.vals, PulledLwd(lwd, k)) && buf.totalLen == |buf.Contents()|
    requires chain != null ==> k <= lwd && buf.vals[1].off > 0
    requires buf.last == PredAt(cs, |cs|) && buf.lwdPred == PredAt(cs, lwd)
    requires overLast <==> lwd < k
    requires overPred || lwd > k || lwd < k || (lwd == k && buf.lwdPred == tmp)
    requires overPred ==> lwd <= k
    modifies buf`last, buf`lwdPred, buf`lwd, buf`totalLen
    ensures buf.Valid()
    ensures unchanged(buf`first, buf`chains, buf`vals, buf`Repr, buf`totalLen, buf`freezeStart, buf`freezeEnd)
  {
    PulledPreds(cs, k, tmp, lwd);
    buf.NextAt(0);
    var last := if chain == null then tmp else buf.last;
    var pred := buf.lwdPred;
    if overLast {
      pred := null;
    } else if overPred {
      buf.ValueAt(1);
      if buf.first.next != null && buf.first.next.off != 0 {
        pred := buf.first;
      } else {
        pred := null;
      }
    }
    buf.SetTail(last, pred, PulledLwd(lwd, k), buf.totalLen);
  }

  /** Drops what was copied from the chain the loop stopped at. */
  method SkipRest(buf: Evbuffer, chain: Chain?, ghost k: nat, rest: nat)
    requires buf.Spine() && AllWf(buf.vals) && k <= |buf.chains|
      && chain == if k < |buf.chains| then buf.chains[k] else null
    requires k < |buf.chains| ==> rest < buf.vals[k].off
    modifies buf`vals, buf.Repr
    ensures buf.Spine()
    ensures forall i :: 0 <= i < |buf.vals| && i != k ==> buf.vals[i] == old(buf.vals)[i]
    ensures k < |buf.vals| ==> buf.vals[k].Wf() && buf.vals[k].Data() == old(buf.vals)[k].Data()[rest..]
    ensures unchanged(buf`last, buf`lwdPred, buf`totalLen, buf`lwd, buf`freezeStart, buf`freezeEnd, buf`first,
      buf`chains, buf`Repr)
  {
    if chain != null {
      ghost var u := buf.SkipAt(chain, k, rest);
    }
  }

  /** The bytes collected from position k on complete the first chain. */
  lemma FirstBytes(vs: seq<Chunk>, data: seq<byte>, size: nat)
    requires vs != [] && vs[0].Wf() && vs[0].off <= size <= |Flatten(vs)|
    requires data == Flatten(vs)[vs[0].off..size]
    ensures vs[0].Data() + data == Flatten(vs)[..size]
  {
  }

  /** The first chain has room for everything. */
  method PullIntoFirst(buf: Evbuffer, first: Chain, size: nat)
    requires buf.Valid() && 0 < buf.lwd && first == buf.chains[0]
    requires buf.vals[0].off < size <= |buf.Contents()| && size <= |buf.vals[0].mem| - buf.vals[0].misalign
    modifies buf, buf.Repr
    ensures buf.Valid() && buf.Repr == old(buf.Repr)
    ensures buf.Contents() == old(buf.Contents())
    ensures buf.chains != [] && first == buf.chains[0] && size == buf.vals[0].off
      && buf.vals[0].Data() == buf.Contents()[..size]
    ensures unchanged(buf`freezeStart, buf`freezeEnd)
  {
    ghost var vs, cs, lwd := buf.vals, buf.chains, buf.lwd;
    buf.ValueAt(0);
    buf.NextAt(0);
    OffsetStep(vs, 0);
    OffsetEnds(vs);
    PredAtIs(cs, lwd);
    ghost var k;
    var data, chain, rest, overLast, overPred;
    data, chain, rest, overLast, overPred, k := Collect(buf, first.next, 1, size - first.off, Offset(vs, 1), size);
    FirstBytes(vs, data, size);
    ghost var v := buf.AppendAt(first, 0, data);
    FinishFirst(buf, first, chain, rest, overLast, overPred, cs, vs, lwd, k, size, v);
  }

  method FinishFirst(buf: Evbuffer, first: Chain, chain: Chain?, rest: nat, overLast: bool, overPred: bool,
      ghost cs: seq<Chain>, ghost vs: seq<Chunk>, ghost lwd: nat, ghost k: nat, ghost size: nat, ghost v: Chunk)
    requires buf.Spine() && buf.chains == cs && |cs| == |vs| && Shape(vs, lwd) && 0 < lwd < |vs| && first == cs[0]
    requires buf.vals == vs[0 := v] && v.Wf() && 0 < size <= |Flatten(vs)| && v.Data() == Flatten(vs)[..size]
    requires 0 < k <= |vs| && chain == (if k < |cs| then cs[k] else null) && Offset(vs, k) + rest == size
    requires if k < |vs| then rest < vs[k].off else rest == 0
    requires buf.last == PredAt(cs, |cs|) && buf.lwdPred == PredAt(cs, lwd) && buf.totalLen == |Flatten(vs)|
    requires (overLast <==> lwd < k) && (overPred <==> 1 < lwd <= k)
    modifies buf, buf.Repr
    ensures buf.Valid() && buf.Repr == old(buf.Repr) && buf.Contents() == Flatten(vs)
    ensures buf.chains != [] && buf.chains[0] == first && buf.vals[0] == v
    ensures unchanged(buf`freezeStart, buf`freezeEnd)
  {
    PredAtIs(cs, lwd);
    SkipRest(buf, chain, k, rest);
    ghost var us := buf.vals[k..];
    buf.SkipTo(chain, k);
    PulledShape(vs, lwd, k, rest, size, v, us);
    Repair(buf, first, chain, overLast, overPred, cs, k, lwd);
  }

  /** A new chain takes everything. */
  method PullIntoNew(buf: Evbuffer, first: Chain, size: nat) returns (r: Chain?)
    requires buf.Valid() && 0 < buf.lwd && first == buf.chains[0]
    requires buf.vals[0].off < size <= |buf.Contents()|
    modifies buf, buf.Repr
    ensures buf.Valid() && fresh(buf.Repr - old(buf.Repr))
    ensures buf.Contents() == old(buf.Contents())
    ensures r == null <==> size > BLOCK_MAX
    ensures r != null ==>
      buf.chains != [] && r == buf.chains[0] && size == buf.vals[0].off
      && buf.vals[0].Data() == buf.Contents()[..size]
    ensures unchanged(buf`freezeStart, buf`freezeEnd)
  {
    ghost var vs, cs, lwd := buf.vals, buf.chains, buf.lwd;
    OffsetEnds(vs);
    PredAtIs(cs, lwd);
    ghost var k;
    var data, chain, rest, overLast, overPred;
    data, chain, rest, overLast, overPred, k := Collect(buf, first, 0, size, 0, size);
    var tmp, v := NewFilledChain(size, data);
    if tmp == null {
      return null;
    }
    StoppedLater(vs, k, rest, size);
    FinishNew(buf, tmp, chain, rest, overLast, overPred, cs, vs, lwd, k, size, v);
    r := tmp;
  }

  method FinishNew(buf: Evbuffer, tmp: Chain, chain: Chain?, rest: nat, overLast: bool, overPred: bool,
      ghost cs: seq<Chain>, ghost vs: seq<Chunk>, ghost lwd: nat, ghost k: nat, ghost size: nat, ghost v: Chunk)
    requires buf.Spine() && buf.chains == cs && Shape(vs, lwd) && 0 < lwd < |vs| && Unowned(buf, tmp, v)
    requires buf.vals == vs && v.Wf() && 0 < size <= |Flatten(vs)| && v.Data() == Flatten(vs)[..size]
    requires 0 < k <= |vs| && chain == (if k < |cs| then cs[k] else null) && Offset(vs, k) + rest == size
    requires if k < |vs| then rest < vs[k].off else rest == 0
    requires buf.last == PredAt(cs, |cs|) && buf.lwdPred == PredAt(cs, lwd) && buf.totalLen == |Flatten(vs)|
    requires (overLast <==> lwd < k) && (overPred <==> 0 < lwd <= k)
    modifies buf, buf.Repr, tmp`next
    ensures buf.Valid() && buf.Repr == old(buf.Repr) + {tmp, tmp.buffer} && buf.Contents() == Flatten(vs)
    ensures buf.chains != [] && buf.chains[0] == tmp && buf.vals[0] == v
    ensures unchanged(buf`freezeStart, buf`freezeEnd)
  {
    SkipRest(buf, chain, k, rest);
    ghost var us := buf.vals[k..];
    buf.DropFront(chain, k);
    buf.PushFront(tmp, v);
    PulledShape(vs, lwd, k, rest, size, v, us);
    Repair(buf, tmp, chain, overLast, overPred, cs, k, lwd);
  }

  lemma StoppedLater(vs: seq<Chunk>, k: nat, rest: nat, size: nat)
    requires vs != [] && vs[0].Wf() && vs[0].off < size && k <= |vs|
    requires Offset(vs, k) + rest == size && (k < |vs| ==> rest < vs[k].off)
    ensures 0 < k
  {
    OffsetEnds(vs);
  }

  /** evbuffer_pullup; a negative size stands for the whole buffer. The chain returned is the
      first one, and its window starts with the bytes asked for. */
  method Pullup(buf: Evbuffer, want: int) returns (r: Chain?)
    requires buf.Valid()
    modifies buf, buf.Repr
    ensures buf.Valid() && fresh(buf.Repr - old(buf.Repr))
    ensures buf.Contents() == old(buf.Contents())
    ensures var size := if want < 0 then |buf.Contents()| else want;
      && (r == null <==>
         size == 0 || size > |buf.Contents()|
         || (|old(buf.vals)[0].mem| - old(buf.vals)[0].misalign < size && size > BLOCK_MAX))
      && (r != null ==>
         buf.chains != [] && r == buf.chains[0] && size <= buf.vals[0].off
         && buf.vals[0].Data()[..size] == buf.Contents()[..size])
    ensures unchanged(buf`freezeStart, buf`freezeEnd)
  {
    var chain := buf.first;
    var size := if want < 0 then buf.totalLen else want;
    if size == 0 || size > buf.totalLen {
      return null;
    }
    buf.ValueAt(0);
    if chain.off >= size {
      PieceInStream(buf.vals, 0, 0, size, 0, size);
      return chain;
    }
    NotLast(buf.vals, buf.lwd, 0, size - 1);
    if chain.buffer.Length - chain.misalign >= size {
      PullIntoFirst(buf, chain, size);
      r := chain;
    } else {
      r := PullIntoNew(buf, chain, size);
    }
  }
}
