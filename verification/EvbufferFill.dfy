/** Reserving space, filling it and committing it, the way evbuffer_reserve_space and
    evbuffer_commit_space are meant to be used together (buffer.c). */
module EvbufferFill {
  import opened Chunks
  import opened Evbuffers
  import opened EvbufferReserve
  import opened EvbufferCommit

  /** ws differs from vs at most in the memory outside the windows. */
  predicate SameWindows(vs: seq<Chunk>, ws: seq<Chunk>) {
    && |vs| == |ws|
    && forall i :: 0 <= i < |vs| ==>
       ws[i].misalign == vs[i].misalign && ws[i].off == vs[i].off && |ws[i].mem| == |vs[i].mem|
  }

  lemma SameWritable(vs: seq<Chunk>, ws: seq<Chunk>, lwd: nat)
    requires Shape(vs, lwd) && SameWindows(vs, ws)
    ensures Shape(ws, lwd) && Writable(ws, lwd) == Writable(vs, lwd)
    ensures forall i :: 0 <= i < |ws| ==> ws[i].Space() == vs[i].Space()
  {
    forall i | 0 <= i < |ws|
      ensures ws[i].Wf() && ws[i].off == vs[i].off
    {
      assert vs[i].Wf();
    }
  }

  lemma BehindOverwritten(c: Chunk, d: Chunk, at: nat, data: seq<byte>)
    requires c.Wf() && d.Wf() && Overwrites(c, d, at, data) && at == c.misalign + c.off
    ensures d.Data() == c.Data() && |data| <= d.Space() && Behind(d, |data|) == data
  {
    SameSlice(c.mem, d.mem, c.misalign, at);
    SliceIs(d.mem, at, data);
    BehindIs(d, |data|);
  }

  lemma SameSlice(a: seq<byte>, b: seq<byte>, lo: nat, hi: nat)
    requires lo <= hi <= |a| == |b| && forall i :: lo <= i < hi ==> b[i] == a[i]
    ensures b[lo..hi] == a[lo..hi]
  {
  }

  lemma SliceIs(a: seq<byte>, at: nat, data: seq<byte>)
    requires at + |data| <= |a| && forall i :: 0 <= i < |data| ==> a[at + i] == data[i]
    ensures a[at..at + |data|] == data
  {
  }

  /** The user writes data to the start of a region of chain k. */
  method Fill(buf: Evbuffer, v: Iovec, data: seq<byte>, ghost k: nat)
    requires buf.Valid() && IsSpaceOf(buf, v, k) && |data| <= v.len
    modifies buf`vals, v.block
    ensures buf.Valid() && buf.Contents() == old(buf.Contents())
    ensures buf.vals == old(buf.vals)[k := buf.vals[k]] && SameWindows(old(buf.vals), buf.vals)
    ensures Behind(buf.vals[k], |data|) == data
  {
    ghost var vs := buf.vals;
    buf.ValueAt(k);
    ghost var w := buf.WriteAt(v.block, v.base, data, k);
    BehindOverwritten(vs[k], w, v.base, data);
    KeepChunk(vs, buf.lwd, k, w, buf.vals);
  }

  /** u is v or its first part. */
  predicate Shrunk(u: Iovec, v: Iovec) {
    u.block == v.block && u.base == v.base && u.len <= v.len
  }

  /** The used vectors take done of len bytes, each as many as it can unless nothing is left. */
  predicate Greedy(vecs: seq<Iovec>, used: seq<Iovec>, done: nat, len: nat) {
    && |used| <= |vecs| && done <= len
    && (forall i :: 0 <= i < |used| ==> Shrunk(used[i], vecs[i]))
    && (Positive(vecs) ==> Positive(used))
    && (done < len ==> done == TotalLen(vecs[..|used|]))
  }

  lemma GreedyStep(vecs: seq<Iovec>, used: seq<Iovec>, i: nat, u: Iovec, more: seq<Iovec>, done: nat, next: nat,
      len: nat)
    requires Greedy(vecs, used, done, len) && i == |used| < |vecs| && done < len && more == used + [u]
    requires next == if vecs[i].len < len - done then done + vecs[i].len else len
    requires u == vecs[i].(len := next - done)
    ensures Greedy(vecs, more, next, len)
  {
    var k := i + 1;
    TotalNext(vecs, i, k);
    assert |more| == k;
    forall j | 0 <= j < k
      ensures Shrunk(more[j], vecs[j]) && (Positive(vecs) ==> more[j].len > 0)
    {
      if j < i {
        assert more[j] == used[j];
      }
    }
  }

  lemma TotalAll(vecs: seq<Iovec>, k: nat)
    requires k == |vecs|
    ensures TotalLen(vecs[..k]) == TotalLen(vecs)
  {
    assert vecs[..k] == vecs;
  }

  lemma TotalNext(vecs: seq<Iovec>, i: nat, k: nat)
    requires i < |vecs| && k == i + 1
    ensures TotalLen(vecs[..k]) == TotalLen(vecs[..i]) + vecs[i].len
  {
    assert vecs[..k][..i] == vecs[..i] && vecs[..k][i] == vecs[i];
  }

  /** The first bytes behind the windows from chunk f on are part. */
  predicate Stored(vs: seq<Chunk>, f: nat, lens: seq<nat>, part: seq<byte>) {
    Fits(vs, f, lens) && Added(vs, f, lens, |lens|) == part
  }

  /** The bytes of the first i chunks do not depend on the later ones, nor on the later lengths. */
  lemma {:induction false} AddedSame(vs: seq<Chunk>, ws: seq<Chunk>, f: nat, lens: seq<nat>, lens': seq<nat>, i: nat)
    requires Fits(vs, f, lens) && Fits(ws, f, lens') && i <= |lens| && i <= |lens'|
    requires (forall j :: 0 <= j < i ==> lens'[j] == lens[j]) && (forall j :: f <= j < f + i ==> ws[j] == vs[j])
    ensures Added(ws, f, lens', i) == Added(vs, f, lens, i)
  {
    if i > 0 {
      AddedSame(vs, ws, f, lens, lens', i - 1);
    }
  }

  lemma StoredStep(vs: seq<Chunk>, ws: seq<Chunk>, f: nat, k: nat, lens: seq<nat>, lens': seq<nat>, n: nat,
      head: seq<byte>, tail: seq<byte>, part: seq<byte>)
    requires Stored(vs, f, lens, head) && k == f + |lens| < |vs| && SameWindows(vs, ws) && ws == vs[k := ws[k]]
      && AllWf(ws)
    requires lens' == lens + [n] && n <= vs[k].Space() && Behind(ws[k], n) == tail && part == head + tail
    ensures Stored(ws, f, lens', part)
  {
    var i := |lens|;
    FitsStep(vs, ws, f, k, lens, lens', n);
    AddedSame(vs, ws, f, lens, lens', i);
    AddedNext(ws, f, lens', i, k);
  }

  lemma FitsStep(vs: seq<Chunk>, ws: seq<Chunk>, f: nat, k: nat, lens: seq<nat>, lens': seq<nat>, n: nat)
    requires Fits(vs, f, lens) && k == f + |lens| < |vs| && SameWindows(vs, ws) && AllWf(ws)
    requires lens' == lens + [n] && n <= vs[k].Space()
    ensures Fits(ws, f, lens')
  {
    forall i | 0 <= i < |lens'|
      ensures lens'[i] <= ws[f + i].Space()
    {
      if i < |lens| {
        assert lens[i] <= vs[f + i].Space();
      }
    }
  }

  lemma SplitPart(data: seq<byte>, done: nat, next: nat)
    requires done <= next <= |data|
    ensures data[..next] == data[..done] + data[done..next]
  {
  }

  lemma MatchSnoc(cs: seq<Chain>, vs: seq<Chunk>, used: seq<Iovec>, u: Iovec, more: seq<Iovec>, f: nat, k: nat)
    requires MatchIn(cs, vs, used, f) && k == f + |used| && IsSpaceIn(cs, vs, u, k) && more == used + [u]
    ensures MatchIn(cs, vs, more, f) && Lens(more) == Lens(used) + [u.len]
  {
    forall i | 0 <= i < |more|
      ensures IsSpaceIn(cs, vs, more[i], f + i)
    {
      if i < |used| {
        assert more[i] == used[i] && IsSpaceIn(cs, vs, used[i], f + i);
      }
    }
  }

  /** Filling memory outside the windows leaves the regions as they are. */
  lemma MatchKept(cs: seq<Chain>, vs: seq<Chunk>, ws: seq<Chunk>, vecs: seq<Iovec>, f: nat)
    requires MatchIn(cs, vs, vecs, f) && AllWf(ws) && SameWindows(vs, ws)
    ensures MatchIn(cs, ws, vecs, f)
  {
    forall i | 0 <= i < |vecs|
      ensures IsSpaceIn(cs, ws, vecs[i], f + i)
    {
      assert IsSpaceIn(cs, vs, vecs[i], f + i);
    }
  }

  /** The used vectors, which are first parts of vecs, hold the first done bytes of data. */
  ghost predicate Filling(cs: seq<Chain>, vs: seq<Chunk>, vecs: seq<Iovec>, used: seq<Iovec>, data: seq<byte>,
      done: nat, f: nat)
  {
    && Greedy(vecs, used, done, |data|) && MatchIn(cs, vs, vecs, f) && MatchIn(cs, vs, used, f)
    && Stored(vs, f, Lens(used), data[..done])
  }

  lemma FillingStep(cs: seq<Chain>, vs: seq<Chunk>, ws: seq<Chunk>, vecs: seq<Iovec>, used: seq<Iovec>, u: Iovec,
      data: seq<byte>, done: nat, next: nat, f: nat, i: nat, k: nat, more: seq<Iovec>)
    requires Filling(cs, vs, vecs, used, data, done, f) && i == |used| < |vecs| && k == f + i && done < |data|
      && more == used + [u]
    requires next == if vecs[i].len < |data| - done then done + vecs[i].len else |data|
    requires u == vecs[i].(len := next - done)
    requires k < |vs| && SameWindows(vs, ws) && ws == vs[k := ws[k]] && AllWf(ws)
    requires u.len <= vs[k].Space() && Behind(ws[k], u.len) == data[done..next]
    ensures Filling(cs, ws, vecs, more, data, next, f)
  {
    GreedyStep(vecs, used, i, u, more, done, next, |data|);
    MatchKept(cs, vs, ws, vecs, f);
    MatchKept(cs, vs, ws, used, f);
    assert IsSpaceIn(cs, ws, vecs[i], k);
    MatchSnoc(cs, ws, used, u, more, f, k);
    SplitPart(data, done, next);
    StoredStep(vs, ws, f, k, Lens(used), Lens(more), u.len, data[..done], data[done..next], data[..next]);
  }

  /** One more region. */
  method FillNext(buf: Evbuffer, ghost vecs: seq<Iovec>, v: Iovec, ghost used: seq<Iovec>, data: seq<byte>, done: nat,
      next: nat, ghost f: nat, ghost i: nat, ghost more: seq<Iovec>)
    requires buf.Valid() && Filling(buf.chains, buf.vals, vecs, used, data, done, f)
    requires i == |used| < |vecs| && v == vecs[i] && done < |data|
    requires next == (if v.len < |data| - done then done + v.len else |data|) && more == used + [v.(len := next - done)]
    modifies buf`vals, v.block
    ensures buf.Valid() && buf.Contents() == old(buf.Contents()) && SameWindows(old(buf.vals), buf.vals)
    ensures Filling(buf.chains, buf.vals, vecs, more, data, next, f)
  {
    ghost var k, vs := f + i, buf.vals;
    assert IsSpaceIn(buf.chains, vs, vecs[i], k);
    Fill(buf, v, data[done..next], k);
    FillingStep(buf.chains, vs, buf.vals, vecs, used, v.(len := next - done), data, done, next, f, i, k, more);
  }

  lemma FillingStart(cs: seq<Chain>, vs: seq<Chunk>, vecs: seq<Iovec>, data: seq<byte>, f: nat)
    requires MatchIn(cs, vs, vecs, f) && AllWf(vs) && |cs| == |vs|
    ensures Filling(cs, vs, vecs, [], data, 0, f)
  {
    assert vecs[..0] == [] && data[..0] == [];
  }

  /** While bytes are left, so are regions. */
  lemma FillingGoesOn(cs: seq<Chain>, vs: seq<Chunk>, vecs: seq<Iovec>, used: seq<Iovec>, data: seq<byte>, done: nat,
      f: nat, i: nat)
    requires Filling(cs, vs, vecs, used, data, done, f) && i == |used| && done < |data| <= TotalLen(vecs)
    ensures i < |vecs| && IsSpaceIn(cs, vs, vecs[i], f + i)
  {
    if i == |vecs| {
      TotalAll(vecs, i);
    }
  }

  /** The user fills the regions of a reservation with data, one after the other, and keeps those it needed. */
  method FillVecs(buf: Evbuffer, vecs: seq<Iovec>, data: seq<byte>, ghost f: nat) returns (used: seq<Iovec>)
    requires buf.Valid() && Matches(buf, vecs, f) && |data| <= TotalLen(vecs)
    modifies buf`vals, buf.Repr
    ensures buf.Valid() && buf.Contents() == old(buf.Contents()) && SameWindows(old(buf.vals), buf.vals)
    ensures Filling(buf.chains, buf.vals, vecs, used, data, |data|, f)
    ensures used == [] <==> data == []
  {
    var done: nat, i: nat := 0, 0;
    used := [];
    FillingStart(buf.chains, buf.vals, vecs, data, f);
    while done < |data|
      invariant buf.Valid() && buf.Contents() == old(buf.Contents()) && SameWindows(old(buf.vals), buf.vals)
      invariant i == |used| && Filling(buf.chains, buf.vals, vecs, used, data, done, f)
      invariant if used == [] then done == 0 else data != []
      decreases |vecs| - i
    {
      FillingGoesOn(buf.chains, buf.vals, vecs, used, data, done, f, i);
      OwnedAt(buf.chains, buf.Repr, f + i);
      var next := if vecs[i].len < |data| - done then done + vecs[i].len else |data|;
      var more := used + [vecs[i].(len := next - done)];
      FillNext(buf, vecs, vecs[i], used, data, done, next, f, i, more);
      used, done, i := more, next, i + 1;
    }
  }

  /** Fills the regions of a reservation in several chains, and commits them. */
  method CommitMany(buf: Evbuffer, vecs: seq<Iovec>, data: seq<byte>, ghost k: nat)
    requires buf.Valid() && !buf.freezeEnd && Matches(buf, vecs, k) && Positive(vecs) && |data| <= TotalLen(vecs)
    requires buf.vals != [] && k == Writable(buf.vals, buf.lwd) && (k == buf.lwd || buf.vals[buf.lwd].off > 0)
    modifies buf, buf.Repr
    ensures buf.Valid() && buf.Repr == old(buf.Repr)
    ensures buf.Contents() == old(buf.Contents()) + data
    ensures unchanged(buf`freezeStart, buf`freezeEnd)
  {
    ghost var d, vs := buf.Contents(), buf.vals;
    var used := FillVecs(buf, vecs, data, k);
    SameWritable(vs, buf.vals, buf.lwd);
    WholePart(data);
    AppendNil(d);
    if data != [] {
      ReservationAccepted(buf, used, used);
      PositiveInOrder(buf.vals, buf.lwd, k, used);
    }
    var ok;
    ghost var f;
    ok, f := CommitSpace(buf, used);
  }

  lemma WholePart(data: seq<byte>)
    ensures data[..|data|] == data
  {
  }

  lemma PositiveInOrder(vs: seq<Chunk>, lwd: nat, k: nat, used: seq<Iovec>)
    requires Shape(vs, lwd) && vs != [] && k == Writable(vs, lwd) && (k == lwd || vs[lwd].off > 0)
    requires Fits(vs, k, Lens(used)) && Positive(used)
    ensures InOrder(vs, k, Lens(used))
  {
    InOrderIff(vs, lwd, k, Lens(used));
  }

  /** The region of a reservation in one chain, filled with at least one byte. */
  lemma OneCommit(buf: Evbuffer, used: seq<Iovec>, k: nat)
    requires buf.Valid() && Matches(buf, used, k) && |used| == 1 && used[0].len > 0
    ensures Matches(buf, used, CommitAt(buf, used)) <==> k == Writable(buf.vals, buf.lwd) || k + 1 == |buf.chains|
    ensures Matches(buf, used, CommitAt(buf, used)) ==> CommitAt(buf, used) == k
    ensures InOrder(buf.vals, k, Lens(used)) <==> !Gap(buf.vals, k)
  {
    var u := used[0];
    assert used == [u] && Lens(used) == [u.len];
    assert IsSpaceOf(buf, u, k + 0);
    SingleAccepted(buf, u, k);
    OwnedAt(buf.chains, buf.Repr, k);
    OneInOrder(buf.vals, k, u.len);
  }

  lemma SameGap(vs: seq<Chunk>, ws: seq<Chunk>, k: nat)
    requires SameWindows(vs, ws)
    ensures Gap(ws, k) == Gap(vs, k)
  {
    if Gap(vs, k) {
      var i :| 0 <= i < k && vs[i].off == 0;
      assert ws[i].off == 0;
    }
    if Gap(ws, k) {
      var i :| 0 <= i < k && ws[i].off == 0;
      assert vs[i].off == 0;
    }
  }

  /** Fills the region of a reservation in one chain, and commits it. */
  method CommitOneVec(buf: Evbuffer, vecs: seq<Iovec>, data: seq<byte>, ghost k: nat) returns (ok: bool)
    requires buf.Valid() && !buf.freezeEnd && |vecs| == 1 && Matches(buf, vecs, k) && |data| <= TotalLen(vecs)
    modifies buf, buf.Repr
    ensures buf.Repr == old(buf.Repr)
    ensures ok <==> data == [] || k == Writable(old(buf.vals), old(buf.lwd)) || k + 1 == |old(buf.vals)|
    ensures buf.Contents() == if ok then old(buf.Contents()) + data else old(buf.Contents())
    ensures buf.Valid() <==> !ok || data == [] || !Gap(old(buf.vals), k)
    ensures unchanged(buf`freezeStart, buf`freezeEnd)
  {
    ghost var d, vs := buf.Contents(), buf.vals;
    var used := FillVecs(buf, vecs, data, k);
    SameWritable(vs, buf.vals, buf.lwd);
    SameGap(vs, buf.vals, k);
    WholePart(data);
    AppendNil(d);
    if data != [] {
      UsedOne(vecs, used, data);
      OneCommit(buf, used, k);
    }
    ghost var f;
    ok, f := CommitSpace(buf, used);
  }

  lemma UsedOne(vecs: seq<Iovec>, used: seq<Iovec>, data: seq<byte>)
    requires |vecs| == 1 && Greedy(vecs, used, |data|, |data|) && used != [] && data != [] && |data| <= TotalLen(vecs)
    ensures |used| == 1 && used[0].len > 0
  {
    assert vecs[..0] == [];
    assert TotalLen(vecs) == vecs[0].len;
  }

  /** Reserves size bytes in n chains, fills the first of them with data and commits what was filled.
      The commit goes through, and appends the data, unless the one chain was stranded; and it leaves
      the buffer in shape unless the one chain was behind a clogged one. */
  method AddByReserving(buf: Evbuffer, size: nat, n: int, data: seq<byte>) returns (reserved: bool, committed: bool)
    requires buf.Valid() && |data| <= size
    modifies buf, buf.Repr
    ensures fresh(buf.Repr - old(buf.Repr))
    ensures buf.freezeEnd || n < 1 ==> !reserved
    ensures !buf.freezeEnd && n == 1 ==>
      (reserved <==> !NoRoom(RoomFor(old(buf.vals), old(buf.lwd), size), old(buf.vals), size))
    ensures !buf.freezeEnd && n > 1 ==> (reserved <==> Asked(old(buf.vals), old(buf.lwd), size, n) <= BLOCK_MAX)
    ensures committed <==> reserved && (n > 1 || data == [] || !Stranded(old(buf.vals), old(buf.lwd), size))
    ensures buf.Contents() == if committed then old(buf.Contents()) + data else old(buf.Contents())
    ensures buf.Valid() <==> !committed || n > 1 || data == [] || !Clogged(old(buf.vals), old(buf.lwd), size)
    ensures unchanged(buf`freezeStart, buf`freezeEnd)
  {
    ghost var vs, lwd, k := buf.vals, buf.lwd, 0;
    var vecs;
    reserved, vecs, k := ReserveSpace(buf, size, n);
    if !reserved {
      return reserved, false;
    }
    if n > 1 {
      CommitMany(buf, vecs, data, k);
      committed := true;
    } else {
      StrandedIff(vs, lwd, size, buf.vals, buf.lwd, k);
      CloggedIff(vs, lwd, size, buf.vals, buf.lwd, k);
      committed := CommitOneVec(buf, vecs, data, k);
    }
  }
}
