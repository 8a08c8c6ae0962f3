/** Committing reserved space (buffer.c). */
module EvbufferCommit {
  import opened Chunks
  import opened Evbuffers
  import opened EvbufferMove
  import opened EvbufferReserve

  /** The bytes that n bytes of space behind a window hold. */
  function Behind(v: Chunk, n: nat): (d: seq<byte>)
    requires v.Wf() && n <= v.Space()
    ensures |d| == n
  {
    if n == 0 then [] else Behind(v, n - 1) + [v.mem[v.misalign + v.off + n - 1]]
  }

  lemma {:induction false} BehindIs(v: Chunk, n: nat)
    requires v.Wf() && n <= v.Space()
    ensures Behind(v, n) == v.mem[v.misalign + v.off..v.misalign + v.off + n]
  {
    if n > 0 {
      BehindIs(v, n - 1);
    }
  }

  /** The lengths fit into the space of the chunks from position f on. */
  predicate Fits(vs: seq<Chunk>, f: nat, lens: seq<nat>) {
    && AllWf(vs) && f + |lens| <= |vs|
    && forall i :: 0 <= i < |lens| ==> lens[i] <= vs[f + i].Space()
  }

  /** The bytes that committing the first i lengths adds. */
  function Added(vs: seq<Chunk>, f: nat, lens: seq<nat>, i: nat): seq<byte>
    requires Fits(vs, f, lens) && i <= |lens|
  {
    if i == 0 then [] else Added(vs, f, lens, i - 1) + Behind(vs[f + i - 1], lens[i - 1])
  }

  /** The chunks after the first i lengths have been committed. */
  function Committed(vs: seq<Chunk>, f: nat, lens: seq<nat>, i: nat): (ws: seq<Chunk>)
    requires f + |lens| <= |vs| && i <= |lens|
    ensures |ws| == |vs|
  {
    if i == 0 then vs else
    var ws := Committed(vs, f, lens, i - 1);
    ws[f + i - 1 := ws[f + i - 1].(off := ws[f + i - 1].off + lens[i - 1])]
  }

  /** Where last_with_data ends up: the last chunk that received bytes, if any did. */
  function NewLwd(lwd: nat, f: nat, lens: seq<nat>, i: nat): nat
    requires i <= |lens|
  {
    if i == 0 then lwd else if lens[i - 1] > 0 then f + i - 1 else NewLwd(lwd, f, lens, i - 1)
  }

  /** Every chunk before one that receives bytes holds data then. */
  predicate InOrder(vs: seq<Chunk>, f: nat, lens: seq<nat>) {
    forall j, i :: 0 <= j < |lens| && lens[j] > 0 && 0 <= i < f + j && i < |vs| ==> Filled(vs, f, lens, i)
  }

  /** Chunk i holds data before the commit or receives some. */
  predicate Filled(vs: seq<Chunk>, f: nat, lens: seq<nat>, i: nat)
    requires i < |vs|
  {
    vs[i].off > 0 || (f <= i < f + |lens| && lens[i - f] > 0)
  }

  lemma {:induction false} CommittedAt(vs: seq<Chunk>, f: nat, lens: seq<nat>, i: nat, k: nat)
    requires f + |lens| <= |vs| && i <= |lens| && k < |vs|
    ensures Committed(vs, f, lens, i)[k] == vs[k].(off := vs[k].off + if f <= k < f + i then lens[k - f] else 0)
  {
    if i > 0 {
      CommittedAt(vs, f, lens, i - 1, k);
    }
  }

  /** Behind the committed chunks everything is still empty. */
  lemma StillEmpty(vs: seq<Chunk>, lwd: nat, f: nat, lens: seq<nat>, i: nat)
    requires Shape(vs, lwd) && lwd <= f && Fits(vs, f, lens) && i <= |lens|
    ensures AllWf(Committed(vs, f, lens, i))
    ensures forall k :: f + i <= k < |vs| ==> Committed(vs, f, lens, i)[k] == vs[k]
    ensures forall k :: f + i < k < |vs| ==> vs[k].off == 0
  {
  }

  /** us is cs with n more bytes counted as data at position k, behind which all is empty. */
  lemma GrowAt(cs: seq<Chunk>, k: nat, n: nat, c: Chunk, us: seq<Chunk>)
    requires k < |cs| && AllWf(cs) && n <= cs[k].Space() && c == cs[k].(off := cs[k].off + n) && us == cs[k := c]
    requires forall i :: k < i < |cs| ==> cs[i].off == 0
    ensures Flatten(us) == Flatten(cs) + Behind(cs[k], n)
  {
    BehindIs(cs[k], n);
    assert c.Data() == cs[k].Data() + Behind(cs[k], n);
    FlattenUpdate(cs, k, c);
    FlattenEmpty(cs[k + 1..]);
    FlattenLast(cs, k);
    AppendNil(c.Data());
    Assoc(Flatten(cs[..k]), cs[k].Data(), Behind(cs[k], n));
  }

  /** One more chunk, at position k. */
  lemma GrowNext(vs: seq<Chunk>, lwd: nat, f: nat, lens: seq<nat>, i: nat, k: nat)
    requires Shape(vs, lwd) && lwd <= f && Fits(vs, f, lens) && i < |lens| && k == f + i
    ensures lens[i] <= vs[k].Space()
    ensures Flatten(Committed(vs, f, lens, i + 1)) == Flatten(Committed(vs, f, lens, i)) + Behind(vs[k], lens[i])
  {
    var ws := Committed(vs, f, lens, i);
    StillEmpty(vs, lwd, f, lens, i);
    assert lens[i] <= vs[f + i].Space();
    CommittedNext(vs, f, lens, i, k);
    GrowAt(ws, k, lens[i], ws[k].(off := ws[k].off + lens[i]), Committed(vs, f, lens, i + 1));
  }

  lemma CommittedNext(vs: seq<Chunk>, f: nat, lens: seq<nat>, i: nat, k: nat)
    requires f + |lens| <= |vs| && i < |lens| && k == f + i
    ensures var ws := Committed(vs, f, lens, i);
      Committed(vs, f, lens, i + 1) == ws[k := ws[k].(off := ws[k].off + lens[i])]
  {
    assert f + (i + 1) - 1 == k;
  }

  lemma AddedNext(vs: seq<Chunk>, f: nat, lens: seq<nat>, j: nat, k: nat)
    requires Fits(vs, f, lens) && j < |lens| && k == f + j && lens[j] <= vs[k].Space()
    ensures Added(vs, f, lens, j + 1) == Added(vs, f, lens, j) + Behind(vs[k], lens[j])
  {
    assert f + (j + 1) - 1 == k;
  }

  lemma Glue(a: seq<byte>, b: seq<byte>, c: seq<byte>, ab: seq<byte>, abc: seq<byte>, bc: seq<byte>)
    requires ab == a + b && abc == ab + c && bc == b + c
    ensures abc == a + bc
  {
    Assoc(a, b, c);
  }

  /** Committing the first i lengths appends the bytes in that space. */
  lemma {:induction false} CommittedStream(vs: seq<Chunk>, lwd: nat, f: nat, lens: seq<nat>, i: nat)
    requires Shape(vs, lwd) && lwd <= f && Fits(vs, f, lens) && i <= |lens|
    ensures Flatten(Committed(vs, f, lens, i)) == Flatten(vs) + Added(vs, f, lens, i)
  {
    if i == 0 {
      AppendNil(Flatten(vs));
    } else {
      var j := i - 1;
      var k := f + j;
      CommittedStream(vs, lwd, f, lens, j);
      GrowNext(vs, lwd, f, lens, j, k);
      AddedNext(vs, f, lens, j, k);
      Glue(Flatten(vs), Added(vs, f, lens, j), Behind(vs[k], lens[j]),
        Flatten(Committed(vs, f, lens, j)), Flatten(Committed(vs, f, lens, j + 1)), Added(vs, f, lens, j + 1));
    }
  }

  function SumTo(lens: seq<nat>, i: nat): nat
    requires i <= |lens|
  {
    if i == 0 then 0 else SumTo(lens, i - 1) + lens[i - 1]
  }

  lemma {:induction false} AddedLength(vs: seq<Chunk>, f: nat, lens: seq<nat>, i: nat)
    requires Fits(vs, f, lens) && i <= |lens|
    ensures |Added(vs, f, lens, i)| == SumTo(lens, i)
  {
    if i > 0 {
      AddedLength(vs, f, lens, i - 1);
    }
  }

  /** What NewLwd is when bytes are received, and when none are. */
  lemma {:induction false} NewLwdIs(lwd: nat, f: nat, lens: seq<nat>, i: nat)
    requires i <= |lens|
    ensures (forall j :: 0 <= j < i ==> lens[j] == 0) ==> NewLwd(lwd, f, lens, i) == lwd
    ensures (exists j :: 0 <= j < i && lens[j] > 0) ==>
      (var l := NewLwd(lwd, f, lens, i);
        f <= l < f + i && lens[l - f] > 0 && forall j :: l - f < j < i ==> lens[j] == 0)
  {
    if i > 0 {
      NewLwdIs(lwd, f, lens, i - 1);
    }
  }

  /** With position f + j the last to receive bytes, filling in order gives a shape. */
  lemma InOrderShape(vs: seq<Chunk>, lwd: nat, f: nat, lens: seq<nat>, j: nat)
    requires Shape(vs, lwd) && Fits(vs, f, lens) && lwd <= f && InOrder(vs, f, lens)
    requires j < |lens| && lens[j] > 0 && forall i :: j < i < |lens| ==> lens[i] == 0
    ensures Shape(Committed(vs, f, lens, |lens|), f + j)
  {
    var ws := Committed(vs, f, lens, |lens|);
    StillEmpty(vs, lwd, f, lens, |lens|);
    forall i | 0 <= i < |ws|
      ensures (i <= f + j ==> ws[i].off > 0) && (i > f + j ==> ws[i].off == 0)
    {
      CommittedAt(vs, f, lens, |lens|, i);
      if i < f + j {
        InOrderAt(vs, f, lens, j, i);
      }
    }
  }

  lemma OutOfOrderShape(vs: seq<Chunk>, lwd: nat, f: nat, lens: seq<nat>, j: nat)
    requires Shape(vs, lwd) && Fits(vs, f, lens) && lwd <= f
    requires j < |lens| && lens[j] > 0 && forall i :: j < i < |lens| ==> lens[i] == 0
    requires Shape(Committed(vs, f, lens, |lens|), f + j)
    ensures InOrder(vs, f, lens)
  {
    forall m, i | 0 <= m < |lens| && lens[m] > 0 && 0 <= i < f + m && i < |vs|
      ensures Filled(vs, f, lens, i)
    {
      assert m <= j;
      CommittedAt(vs, f, lens, |lens|, i);
      assert Committed(vs, f, lens, |lens|)[i].off > 0;
    }
  }

  lemma CommitNone(vs: seq<Chunk>, f: nat, lens: seq<nat>)
    requires f + |lens| <= |vs| && forall i :: 0 <= i < |lens| ==> lens[i] == 0
    ensures Committed(vs, f, lens, |lens|) == vs
  {
    forall k | 0 <= k < |vs|
      ensures Committed(vs, f, lens, |lens|)[k] == vs[k]
    {
      CommittedAt(vs, f, lens, |lens|, k);
    }
  }

  /** A commit keeps the chunks in shape exactly when it fills them in order. */
  lemma CommitShape(vs: seq<Chunk>, lwd: nat, f: nat, lens: seq<nat>)
    requires Shape(vs, lwd) && vs != [] && Fits(vs, f, lens) && lwd <= f
    ensures Shape(Committed(vs, f, lens, |lens|), NewLwd(lwd, f, lens, |lens|)) <==> InOrder(vs, f, lens)
  {
    NewLwdIs(lwd, f, lens, |lens|);
    if forall i :: 0 <= i < |lens| ==> lens[i] == 0 {
      CommitNone(vs, f, lens);
    } else {
      var j := NewLwd(lwd, f, lens, |lens|) - f;
      if InOrder(vs, f, lens) {
        InOrderShape(vs, lwd, f, lens, j);
      }
      if Shape(Committed(vs, f, lens, |lens|), f + j) {
        OutOfOrderShape(vs, lwd, f, lens, j);
      }
    }
  }

  function Lens(vecs: seq<Iovec>): (r: seq<nat>)
    ensures |r| == |vecs| && forall i :: 0 <= i < |r| ==> r[i] == vecs[i].len
  {
    seq(|vecs|, i requires 0 <= i < |vecs| => vecs[i].len)
  }

  /** The vector starts where the space of chain c starts. */
  predicate PointsAt(v: Iovec, c: Chain)
    reads c`misalign, c`off
  {
    v.block == c.buffer && v.base == c.misalign + c.off
  }

  lemma MatchesFits(buf: Evbuffer, vecs: seq<Iovec>, f: nat)
    requires buf.Valid() && Matches(buf, vecs, f)
    ensures Fits(buf.vals, f, Lens(vecs))
  {
  }

  /** Pass 1 of evbuffer_commit_space: checks everything before anything is changed. */
  method CheckVecs(buf: Evbuffer, from: Chain?, ghost f: nat, vecs: seq<Iovec>) returns (ok: bool)
    requires buf.Valid() && f <= |buf.chains| && from == if f < |buf.chains| then buf.chains[f] else null
    ensures ok <==> Matches(buf, vecs, f)
  {
    var chain, i := from, 0;
    ghost var k := f;
    while i < |vecs|
      invariant 0 <= i <= |vecs| && k == f + i <= |buf.chains|
      invariant chain == if k < |buf.chains| then buf.chains[k] else null
      invariant forall j :: 0 <= j < i ==> IsSpaceOf(buf, vecs[j], f + j)
    {
      if chain == null {
        return false;
      }
      buf.ValueAt(k);
      buf.NextAt(k);
      if !PointsAt(vecs[i], chain) || vecs[i].len > chain.buffer.Length - chain.misalign - chain.off {
        assert !IsSpaceOf(buf, vecs[i], f + i);
        return false;
      }
      chain := chain.next;
      i, k := i + 1, k + 1;
    }
    ok := true;
  }

  /** The buffer after the first i lengths have been committed. */
  ghost predicate CommitState(buf: Evbuffer, cs: seq<Chain>, repr: set<object>, vs: seq<Chunk>, lwd: nat, f: nat,
      lens: seq<nat>, i: nat)
    requires f + |lens| <= |vs| && i <= |lens|
    reads buf, buf.chains, set c | c in buf.chains :: c.buffer
  {
    && buf.Spine() && buf.LastOk() && buf.LwdOk() && buf.chains == cs && buf.Repr == repr
    && buf.vals == Committed(vs, f, lens, i) && buf.lwd == NewLwd(lwd, f, lens, i)
  }

  /** Pass 2: moves the ends of the windows, and last_with_datap. */
  method ApplyVecs(buf: Evbuffer, pred0: Chain?, from: Chain?, vecs: seq<Iovec>, ghost cs: seq<Chain>,
      ghost repr: set<object>, ghost vs: seq<Chunk>, ghost lwd: nat, ghost f: nat, ghost lens: seq<nat>)
    returns (added: nat)
    requires f + |lens| <= |vs| && |vs| == |cs| && lens == Lens(vecs)
    requires CommitState(buf, cs, repr, vs, lwd, f, lens, 0)
    requires pred0 == PredAt(cs, f) && (f < |cs| ==> from == cs[f])
    modifies buf, repr
    ensures CommitState(buf, cs, repr, vs, lwd, f, lens, |vecs|)
    ensures added == SumTo(lens, |vecs|)
    ensures unchanged(buf`totalLen, buf`freezeStart, buf`freezeEnd)
  {
    var chain, pred, i := from, pred0, 0;
    added := 0;
    while i < |vecs|
      invariant 0 <= i <= |vecs|
      invariant CommitState(buf, cs, repr, vs, lwd, f, lens, i)
      invariant added == SumTo(lens, i)
      invariant pred == PredAt(cs, f + i)
      invariant f + i < |cs| ==> chain == cs[f + i]
      invariant unchanged(buf`totalLen, buf`freezeStart, buf`freezeEnd)
    {
      pred, chain := ApplyStep(buf, pred, chain, cs, repr, vs, lwd, f, lens, i, vecs[i].len);
      added := added + vecs[i].len;
      i := i + 1;
    }
  }

  method ApplyStep(buf: Evbuffer, pred: Chain?, chain: Chain, ghost cs: seq<Chain>, ghost repr: set<object>,
      ghost vs: seq<Chunk>, ghost lwd: nat, ghost f: nat, ghost lens: seq<nat>, ghost i: nat, len: nat)
    returns (nextPred: Chain?, next: Chain?)
    requires f + |lens| <= |vs| && |vs| == |cs| && i < |lens| && len == lens[i]
    requires CommitState(buf, cs, repr, vs, lwd, f, lens, i)
    requires chain == cs[f + i] && pred == PredAt(cs, f + i)
    modifies buf, repr
    ensures CommitState(buf, cs, repr, vs, lwd, f, lens, i + 1)
    ensures nextPred == PredAt(cs, f + (i + 1))
    ensures f + (i + 1) < |cs| ==> next == cs[f + (i + 1)]
    ensures unchanged(buf`totalLen, buf`freezeStart, buf`freezeEnd)
  {
    nextPred, next := ApplyOne(buf, pred, chain, f + i, len);
  }

  method ApplyOne(buf: Evbuffer, pred: Chain?, chain: Chain, ghost k: nat, len: nat)
    returns (nextPred: Chain?, next: Chain?)
    requires buf.Spine() && buf.LastOk() && buf.LwdOk() && k < |buf.chains| && chain == buf.chains[k]
      && pred == PredAt(buf.chains, k)
    modifies buf, buf.Repr
    ensures buf.Spine() && buf.LastOk() && buf.LwdOk() && buf.Repr == old(buf.Repr) && buf.chains == old(buf.chains)
    ensures buf.vals == old(buf.vals)[k := old(buf.vals[k]).(off := old(buf.vals[k]).off + len)]
    ensures buf.lwd == if len > 0 then k else old(buf.lwd)
    ensures nextPred == PredAt(buf.chains, k + 1) && (k + 1 < |buf.chains| ==> next == buf.chains[k + 1])
    ensures unchanged(buf`totalLen, buf`freezeStart, buf`freezeEnd)
  {
    PredAtIs(buf.chains, k + 1);
    buf.NextAt(k);
    nextPred, next := chain, chain.next;
    buf.ExtendAt(chain, k, len);
    buf.SetTail(buf.last, if len > 0 then pred else buf.lwdPred, if len > 0 then k else buf.lwd, buf.totalLen);
  }

  /** The chain the vectors have to start at: the first one with space, except that a
      single vector may be the space of the last chain. */
  ghost function CommitAt(buf: Evbuffer, vecs: seq<Iovec>): (f: nat)
    requires buf.Valid()
    reads buf, buf.chains, set c | c in buf.chains :: c.buffer
    ensures f <= |buf.chains| && buf.lwd <= f
  {
    if |vecs| == 1 && buf.chains != [] && IsBaseOf(buf, vecs[0], |buf.chains| - 1) then |buf.chains| - 1
    else Writable(buf.vals, buf.lwd)
  }

  /** v starts where the space of the chain at position k starts. */
  ghost predicate IsBaseOf(buf: Evbuffer, v: Iovec, k: nat)
    reads buf`chains, buf`vals
  {
    k < |buf.chains| && k < |buf.vals| && v.block == buf.chains[k].buffer
      && v.base == buf.vals[k].misalign + buf.vals[k].off
  }

  /** Only a shape's own last chunk with data satisfies Shape, wherever the bytes went. */
  lemma LastOutOfOrder(vs: seq<Chunk>, lwd: nat, n: nat, l: nat)
    requires Shape(vs, lwd) && vs != [] && n > 0
    requires var k := |vs| - 1; n <= vs[k].Space() && Shape(vs[k := vs[k].(off := vs[k].off + n)], l)
    ensures InOrder(vs, |vs| - 1, [n]) && l == |vs| - 1
  {
    var k := |vs| - 1;
    var ws := vs[k := vs[k].(off := vs[k].off + n)];
    assert ws[k].off > 0;
    assert l == k;
    forall i | 0 <= i < k
      ensures vs[i].off > 0
    {
      assert ws[i] == vs[i];
    }
  }

  lemma InOrderAt(vs: seq<Chunk>, f: nat, lens: seq<nat>, j: nat, i: nat)
    requires InOrder(vs, f, lens) && j < |lens| && lens[j] > 0 && i < f + j && i < |vs|
    ensures Filled(vs, f, lens, i)
  {
  }

  lemma LastInOrder(vs: seq<Chunk>, lwd: nat, n: nat, l: nat)
    requires Shape(vs, lwd) && vs != [] && n > 0 && n <= vs[|vs| - 1].Space() && lwd <= l < |vs|
    requires var k := |vs| - 1; var ws := vs[k := vs[k].(off := vs[k].off + n)]; l + 1 < |ws| ==> ws[l + 1].off == 0
    requires InOrder(vs, |vs| - 1, [n])
    ensures var k := |vs| - 1; Shape(vs[k := vs[k].(off := vs[k].off + n)], l)
  {
    var k := |vs| - 1;
    var ws := vs[k := vs[k].(off := vs[k].off + n)];
    forall i | 0 <= i < |ws|
      ensures ws[i].off > 0 && ws[i].Wf()
    {
      if i < k {
        InOrderAt(vs, k, [n], 0, i);
        assert ws[i] == vs[i];
      }
    }
  }

  lemma CommitOne(vs: seq<Chunk>, lwd: nat, k: nat, n: nat, lens: seq<nat>, ws: seq<Chunk>)
    requires Shape(vs, lwd) && k + 1 == |vs| && n <= vs[k].Space() && lens == [n]
      && ws == vs[k := vs[k].(off := vs[k].off + n)]
    ensures Fits(vs, k, lens) && |Added(vs, k, lens, |lens|)| == n
    ensures Flatten(ws) == Flatten(vs) + Added(vs, k, lens, |lens|)
  {
    GrowAt(vs, k, n, vs[k].(off := vs[k].off + n), ws);
    AddedNext(vs, k, lens, 0, k);
    AppendNil(Behind(vs[k], n));
  }

  lemma LastShape(vs: seq<Chunk>, lwd: nat, k: nat, n: nat, lens: seq<nat>, ws: seq<Chunk>, l: nat)
    requires Shape(vs, lwd) && k + 1 == |vs| && n <= vs[k].Space() && lwd <= l < |vs| && lens == [n]
    requires ws == vs[k := vs[k].(off := vs[k].off + n)]
    requires if n > 0 then l + 1 < |vs| ==> ws[l + 1].off == 0 else l == lwd
    ensures Shape(ws, l) <==> InOrder(vs, k, lens)
  {
    if n == 0 {
      assert ws == vs;
    } else if Shape(ws, l) {
      LastOutOfOrder(vs, lwd, n, l);
    } else if InOrder(vs, k, lens) {
      LastInOrder(vs, lwd, n, l);
    }
  }

  /** What a commit at position f of chunks vs leaves behind. */
  ghost predicate CommitDone(buf: Evbuffer, cs: seq<Chain>, repr: set<object>, vs: seq<Chunk>, f: nat, lens: seq<nat>)
    reads buf, buf.chains, set c | c in buf.chains :: c.buffer
  {
    && Fits(vs, f, lens)
    && buf.Spine() && buf.LastOk() && buf.LwdOk() && buf.chains == cs && buf.Repr == repr
    && buf.Contents() == Flatten(vs) + Added(vs, f, lens, |lens|)
    && buf.totalLen == |buf.Contents()|
    && (Shape(buf.vals, buf.lwd) <==> InOrder(vs, f, lens))
  }

  lemma CommitLastDone(buf: Evbuffer, cs: seq<Chain>, repr: set<object>, vs: seq<Chunk>, lwd: nat, k: nat, n: nat,
      lens: seq<nat>)
    requires Shape(vs, lwd) && k + 1 == |vs| && n <= vs[k].Space() && lwd <= buf.lwd < |vs| && lens == [n]
    requires buf.Spine() && buf.LastOk() && buf.LwdOk() && buf.chains == cs && buf.Repr == repr
    requires buf.vals == vs[k := vs[k].(off := vs[k].off + n)]
    requires if n > 0 then buf.lwd + 1 < |vs| ==> buf.vals[buf.lwd + 1].off == 0 else buf.lwd == lwd
    requires buf.totalLen == |Flatten(vs)| + n
    ensures CommitDone(buf, cs, repr, vs, k, lens)
  {
    CommitOne(vs, lwd, k, n, lens, buf.vals);
    LastShape(vs, lwd, k, n, lens, buf.vals, buf.lwd);
  }

  /** The vector is the space of the last chain. */
  method CommitLast(buf: Evbuffer, ghost k: nat, n: nat, ghost lens: seq<nat>)
    requires buf.Valid() && k + 1 == |buf.chains| && n <= buf.vals[k].Space() && lens == [n]
    modifies buf, buf.Repr
    ensures CommitDone(buf, old(buf.chains), old(buf.Repr), old(buf.vals), k, lens)
    ensures unchanged(buf`freezeStart, buf`freezeEnd)
  {
    ghost var vs, lwd, cs, repr := buf.vals, buf.lwd, buf.chains, buf.Repr;
    PredAtIs(cs, k + 1);
    buf.ExtendAt(buf.last, k, n);
    if n > 0 {
      AdvanceLastWithData(buf);
    }
    buf.SetTail(buf.last, buf.lwdPred, buf.lwd, buf.totalLen + n);
    CommitLastDone(buf, cs, repr, vs, lwd, k, n, lens);
  }

  lemma CommitStateDone(buf: Evbuffer, cs: seq<Chain>, repr: set<object>, vs: seq<Chunk>, lwd: nat, f: nat,
      lens: seq<nat>)
    requires Shape(vs, lwd) && vs != [] && lwd <= f && Fits(vs, f, lens)
    requires CommitState(buf, cs, repr, vs, lwd, f, lens, |lens|)
    requires buf.totalLen == |Flatten(vs)| + SumTo(lens, |lens|)
    ensures CommitDone(buf, cs, repr, vs, f, lens)
  {
    CommittedStream(vs, lwd, f, lens, |lens|);
    AddedLength(vs, f, lens, |lens|);
    CommitShape(vs, lwd, f, lens);
  }

  /** Pass 2 of evbuffer_commit_space, and the new length. */
  method CommitMatched(buf: Evbuffer, pred: Chain?, chain: Chain?, ghost f: nat, vecs: seq<Iovec>)
    requires buf.Valid() && buf.chains != [] && buf.lwd <= f && Fits(buf.vals, f, Lens(vecs))
    requires pred == PredAt(buf.chains, f) && (f < |buf.chains| ==> chain == buf.chains[f])
    modifies buf, buf.Repr
    ensures CommitDone(buf, old(buf.chains), old(buf.Repr), old(buf.vals), f, Lens(vecs))
    ensures unchanged(buf`freezeStart, buf`freezeEnd)
  {
    ghost var lens, vs, lwd := Lens(vecs), buf.vals, buf.lwd;
    var added := ApplyVecs(buf, pred, chain, vecs, buf.chains, buf.Repr, vs, lwd, f, lens);
    buf.SetTail(buf.last, buf.lwdPred, buf.lwd, buf.totalLen + added);
    CommitStateDone(buf, buf.chains, buf.Repr, vs, lwd, f, lens);
  }

  /** The vectors are the spaces of consecutive chains from the first one with space on. */
  method CommitRun(buf: Evbuffer, vecs: seq<Iovec>, ghost f: nat) returns (ok: bool)
    requires buf.Valid() && vecs != [] && f == Writable(buf.vals, buf.lwd)
    modifies buf, buf.Repr
    ensures ok <==> old(buf.chains != [] && Matches(buf, vecs, f))
    ensures !ok ==> unchanged(buf) && buf.Valid()
    ensures ok ==> CommitDone(buf, old(buf.chains), old(buf.Repr), old(buf.vals), f, Lens(vecs))
    ensures unchanged(buf`freezeStart, buf`freezeEnd)
  {
    var pred, chain;
    ghost var k;
    pred, chain, k := FirstWithSpace(buf);
    buf.DerefAt(buf.lwd);
    var at := buf.Deref(buf.lwdPred);
    if at == null {
      return false;
    }
    ok := CheckVecs(buf, chain, f, vecs);
    if ok {
      MatchesFits(buf, vecs, f);
      CommitMatched(buf, pred, chain, f, vecs);
    }
  }

  /** The memory that the first n vectors lie in holds them. */
  predicate InMemory(vecs: seq<Iovec>) {
    forall i :: 0 <= i < |vecs| ==> vecs[i].base + vecs[i].len <= vecs[i].block.Length
  }

  /** What is in the memory of the first n vectors. */
  ghost function Lent(vecs: seq<Iovec>, n: nat): seq<byte>
    requires n <= |vecs| && InMemory(vecs)
    reads set v | v in vecs :: v.block
  {
    if n == 0 then [] else
    var v := vecs[n - 1];
    Lent(vecs, n - 1) + v.block[v.base..v.base + v.len]
  }

  /** The vectors are windows into the memory of the chains from position f on. */
  lemma MatchesMeans(buf: Evbuffer, vecs: seq<Iovec>, f: nat)
    requires buf.Valid() && Matches(buf, vecs, f)
    ensures InMemory(vecs) && f + |vecs| <= |buf.chains| && Fits(buf.vals, f, Lens(vecs))
    ensures InSpace(vecs, buf.chains, buf.vals, f)
  {
    MatchesFits(buf, vecs, f);
    forall i | 0 <= i < |vecs|
      ensures vecs[i].base + vecs[i].len <= vecs[i].block.Length
    {
      MatchAt(buf, vecs, f, i, f + i);
    }
  }

  lemma MatchAt(buf: Evbuffer, vecs: seq<Iovec>, f: nat, i: nat, k: nat)
    requires buf.Valid() && Matches(buf, vecs, f) && i < |vecs| && k == f + i
    ensures k < |buf.vals| && vecs[i].len <= buf.vals[k].Space()
    ensures vecs[i].base + vecs[i].len <= vecs[i].block.Length
    ensures Behind(buf.vals[k], vecs[i].len) == vecs[i].block[vecs[i].base..vecs[i].base + vecs[i].len]
  {
    assert IsSpaceOf(buf, vecs[i], f + i);
    buf.ValueAt(k);
    BehindIs(buf.vals[k], vecs[i].len);
  }

  /** What a commit adds is what is in the memory of the vectors. */
  lemma {:induction false} LentIs(buf: Evbuffer, vecs: seq<Iovec>, f: nat, n: nat)
    requires buf.Valid() && Matches(buf, vecs, f) && n <= |vecs|
    requires InMemory(vecs) && Fits(buf.vals, f, Lens(vecs))
    ensures Added(buf.vals, f, Lens(vecs), n) == Lent(vecs, n)
  {
    if n > 0 {
      var i := n - 1;
      var k := f + i;
      LentIs(buf, vecs, f, i);
      MatchAt(buf, vecs, f, i, k);
      AddedNext(buf.vals, f, Lens(vecs), i, k);
    }
  }

  /** What an accepted commit does, in terms of the vectors and their memory. */
  lemma LentByMatching(buf: Evbuffer, vecs: seq<Iovec>, f: nat)
    requires buf.Valid() && Matches(buf, vecs, f)
    ensures InMemory(vecs) && Fits(buf.vals, f, Lens(vecs))
    ensures Added(buf.vals, f, Lens(vecs), |vecs|) == Lent(vecs, |vecs|)
  {
    MatchesMeans(buf, vecs, f);
    LentIs(buf, vecs, f, |vecs|);
  }

  /** The two passes. */
  method CommitPasses(buf: Evbuffer, vecs: seq<Iovec>) returns (ok: bool, ghost f: nat)
    requires buf.Valid()
    modifies buf, buf.Repr
    ensures f == old(CommitAt(buf, vecs))
    ensures ok <==> old(!buf.freezeEnd && (vecs == [] || (buf.chains != [] && Matches(buf, vecs, CommitAt(buf, vecs)))))
    ensures !ok ==> unchanged(buf) && buf.Valid()
    ensures ok ==> CommitDone(buf, old(buf.chains), old(buf.Repr), old(buf.vals), f, Lens(vecs))
    ensures ok ==> (buf.Valid() <==> InOrder(old(buf.vals), f, Lens(vecs)))
    ensures unchanged(buf`freezeStart, buf`freezeEnd)
  {
    f := CommitAt(buf, vecs);
    if buf.freezeEnd {
      return false, f;
    }
    if |vecs| == 0 {
      AppendNil(buf.Contents());
      return true, f;
    }
    PredAtIs(buf.chains, |buf.chains|);
    if |vecs| == 1 && buf.last != null {
      var last := buf.last;
      buf.ValueAt(|buf.chains| - 1);
      if PointsAt(vecs[0], last) {
        ok := CommitLastVec(buf, vecs, last, f);
        return;
      }
    }
    ok := CommitRun(buf, vecs, f);
  }

  /** Vector i starts in the block of chain f + i, where the data of that chain ends. */
  predicate InSpace(vecs: seq<Iovec>, cs: seq<Chain>, vs: seq<Chunk>, f: nat) {
    && f + |vecs| <= |cs| == |vs|
    && forall i :: 0 <= i < |vecs| ==>
      vecs[i].block == cs[f + i].buffer && vecs[i].base == vs[f + i].misalign + vs[f + i].off
  }

  /** evbuffer_commit_space. A refused commit changes nothing; an accepted one appends the
      bytes that are in the space, and keeps the list in shape exactly when the chains are
      filled in order, that is, when no vector of length zero precedes one with bytes. */
  method CommitSpace(buf: Evbuffer, vecs: seq<Iovec>) returns (ok: bool, ghost f: nat)
    requires buf.Valid()
    modifies buf, buf.Repr
    ensures f == old(CommitAt(buf, vecs))
    ensures ok <==> old(!buf.freezeEnd && (vecs == [] || (buf.chains != [] && Matches(buf, vecs, CommitAt(buf, vecs)))))
    ensures !ok ==> unchanged(buf) && buf.Valid()
    ensures ok ==> CommitDone(buf, old(buf.chains), old(buf.Repr), old(buf.vals), f, Lens(vecs))
    ensures ok ==> (buf.Valid() <==> InOrder(old(buf.vals), f, Lens(vecs)))
    ensures ok ==> InMemory(vecs) && buf.Contents() == old(buf.Contents()) + old(Lent(vecs, |vecs|))
    ensures ok ==> InSpace(vecs, old(buf.chains), old(buf.vals), f)
    ensures unchanged(buf`freezeStart, buf`freezeEnd)
  {
    ghost var g, vs := CommitAt(buf, vecs), buf.vals;
    if Matches(buf, vecs, g) {
      MatchesMeans(buf, vecs, g);
      LentByMatching(buf, vecs, g);
    }
    ok, f := CommitPasses(buf, vecs);
  }

  method CommitLastVec(buf: Evbuffer, vecs: seq<Iovec>, last: Chain, ghost f: nat) returns (ok: bool)
    requires buf.Valid() && |vecs| == 1 && f + 1 == |buf.chains| && last == buf.chains[f] && IsBaseOf(buf, vecs[0], f)
    modifies buf, buf.Repr
    ensures ok <==> old(Matches(buf, vecs, f))
    ensures !ok ==> unchanged(buf) && buf.Valid()
    ensures ok ==> CommitDone(buf, old(buf.chains), old(buf.Repr), old(buf.vals), f, Lens(vecs))
    ensures unchanged(buf`freezeStart, buf`freezeEnd)
  {
    buf.ValueAt(f);
    ok := vecs[0].len <= last.buffer.Length - last.misalign - last.off;
    LastMatches(buf, vecs, f);
    if ok {
      CommitLast(buf, f, vecs[0].len, Lens(vecs));
    }
  }

  lemma LastMatches(buf: Evbuffer, vecs: seq<Iovec>, f: nat)
    requires buf.Valid() && |vecs| == 1 && IsBaseOf(buf, vecs[0], f)
    ensures Matches(buf, vecs, f) <==> vecs[0].len <= buf.vals[f].Space()
    ensures Lens(vecs) == [vecs[0].len]
  {
    if Matches(buf, vecs, f) {
      assert IsSpaceOf(buf, vecs[0], f + 0);
    }
  }

  /** From the first chain with space on, a commit is in order exactly when no vector of
      length zero stands before one with bytes, unless its chain holds data already. */
  lemma InOrderIff(vs: seq<Chunk>, lwd: nat, f: nat, lens: seq<nat>)
    requires Shape(vs, lwd) && Fits(vs, f, lens) && f == Writable(vs, lwd) && (f == lwd || vs[lwd].off > 0)
    ensures InOrder(vs, f, lens) <==>
      forall i, j :: 0 <= i < j < |lens| && lens[j] > 0 ==> lens[i] > 0 || (f + i == lwd && vs[lwd].off > 0)
  {
    if InOrder(vs, f, lens) {
      forall i, j | 0 <= i < j < |lens| && lens[j] > 0
        ensures lens[i] > 0 || (f + i == lwd && vs[lwd].off > 0)
      {
        InOrderAt(vs, f, lens, j, f + i);
      }
    } else {
      var j, i :| 0 <= j < |lens| && lens[j] > 0 && 0 <= i < f + j && i < |vs| && !Filled(vs, f, lens, i);
      assert f <= i && 0 <= i - f < j && lens[i - f] == 0;
    }
  }

  /** The vectors of a reservation over several chains, cut short or shrunk by the user,
      are accepted and go to the chains they came from. */
  lemma ReservationAccepted(buf: Evbuffer, vecs: seq<Iovec>, used: seq<Iovec>)
    requires buf.Valid() && 0 < |used| <= |vecs| && Matches(buf, vecs, Writable(buf.vals, buf.lwd))
    requires forall i :: 0 <= i < |used| ==>
      used[i].block == vecs[i].block && used[i].base == vecs[i].base && used[i].len <= vecs[i].len
    ensures CommitAt(buf, used) == Writable(buf.vals, buf.lwd) && Matches(buf, used, CommitAt(buf, used))
  {
    var w := Writable(buf.vals, buf.lwd);
    forall i | 0 <= i < |used|
      ensures IsSpaceOf(buf, used[i], w + i)
    {
      assert IsSpaceOf(buf, vecs[i], w + i);
    }
    assert IsSpaceOf(buf, used[0], w + 0);
    OwnedAt(buf.chains, buf.Repr, w);
  }

  /** The vector of a reservation of one chain is accepted exactly when that chain is the
      first one with space or the last one. */
  lemma SingleAccepted(buf: Evbuffer, v: Iovec, k: nat)
    requires buf.Valid() && IsSpaceOf(buf, v, k)
    ensures Matches(buf, [v], CommitAt(buf, [v])) <==> k == Writable(buf.vals, buf.lwd) || k + 1 == |buf.chains|
  {
    var f := CommitAt(buf, [v]);
    OwnedAt(buf.chains, buf.Repr, k);
    if Matches(buf, [v], f) {
      assert IsSpaceOf(buf, [v][0], f + 0);
    }
    if k == f {
      assert forall i :: 0 <= i < 1 ==> IsSpaceOf(buf, [v][i], f + i);
    }
  }

  /** The chain that evbuffer_expand_singlechain settles on for datlen bytes is neither the first
      one with space nor the last one: the last chain with data has some space but too little,
      its data is not worth moving or copying, the next chain has room, and more chains follow. */
  predicate Stranded(vs: seq<Chunk>, lwd: nat, datlen: nat)
    requires AllWf(vs)
  {
    && lwd + 2 < |vs| && 0 < vs[lwd].Space() < datlen && vs[lwd].off > 0
    && !CanRealign(vs[lwd], datlen) && !WorthResizing(vs[lwd], datlen) && vs[lwd + 1].Space() >= datlen
  }

  /** Where the room is, seen from the chunks before it was made. */
  lemma StrandedIff(vs: seq<Chunk>, lwd: nat, datlen: nat, ws: seq<Chunk>, lwd': nat, k: nat)
    requires Shape(vs, lwd) && Shape(ws, lwd')
    requires var room := RoomFor(vs, lwd, datlen);
      RoomMade(room, vs, ws, k, datlen) && k < |ws| && ws[k].Space() >= datlen && (room.NewChunk? || lwd' == lwd)
    ensures Stranded(vs, lwd, datlen) <==> k != Writable(ws, lwd') && k + 1 != |ws|
  {
  }

  /** An empty chunk stands before position k. */
  predicate Gap(vs: seq<Chunk>, k: nat) {
    k < |vs| && exists i :: 0 <= i < k && vs[i].off == 0
  }

  /** The room for datlen bytes is behind an empty chain that has no space in front of it. */
  predicate Clogged(vs: seq<Chunk>, lwd: nat, datlen: nat)
    requires AllWf(vs)
  {
    lwd + 1 < |vs| && vs[lwd].off == 0 && vs[lwd].Space() == 0 && vs[lwd + 1].Space() >= datlen
  }

  /** An empty chain stands before the one with the room. */
  lemma CloggedIff(vs: seq<Chunk>, lwd: nat, datlen: nat, ws: seq<Chunk>, lwd': nat, k: nat)
    requires Shape(vs, lwd) && Shape(ws, lwd')
    requires var room := RoomFor(vs, lwd, datlen);
      RoomMade(room, vs, ws, k, datlen) && k < |ws| && (room.NewChunk? || lwd' == lwd)
    ensures Clogged(vs, lwd, datlen) <==> Gap(ws, k)
  {
    if RoomFor(vs, lwd, datlen).NewChunk? {
      assert forall i :: 0 <= i < k ==> ws[i] == ws[..k][i] == vs[i];
    } else if Clogged(vs, lwd, datlen) {
      assert ws[lwd].off == 0;
    }
  }

  /** A commit to one chain is in order when all chains before it hold data. */
  lemma OneInOrder(vs: seq<Chunk>, f: nat, n: nat)
    requires f < |vs| && n > 0
    ensures InOrder(vs, f, [n]) <==> !Gap(vs, f)
  {
    if InOrder(vs, f, [n]) {
      forall i | 0 <= i < f
        ensures vs[i].off > 0
      {
        InOrderAt(vs, f, [n], 0, i);
      }
    }
  }
}
