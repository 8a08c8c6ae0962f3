/** Value-level view of an evbuffer: a chain is a block of memory of which a
    window holds data, and a buffer is the concatenation of its windows. */
module Chunks {

  type byte = b: int | 0 <= b < 256

  /** What one chain holds: its memory, and the window [misalign, misalign + off). */
  const SIZE_MAX: nat := 0xffff_ffff_ffff_ffff
  const CHAIN_MAX: nat := 0x7fff_ffff_ffff_ffff
  const CHAIN_SIZE: nat := 48
  /** The largest block evbuffer_chain_new hands out. */
  const BLOCK_MAX: nat := CHAIN_MAX - CHAIN_SIZE

  datatype Chunk = Chunk(mem: seq<byte>, misalign: nat, off: nat) {

    predicate Wf() {
      0 < |mem| <= BLOCK_MAX && misalign + off <= |mem|
    }

    function Size(): nat {
      if Wf() then off else 0
    }

    function Data(): (d: seq<byte>)
      ensures |d| == Size()
    {
      if Wf() then mem[misalign..misalign + off] else []
    }

    /** Free bytes after the window. */
    function Space(): nat
      requires Wf()
    {
      |mem| - misalign - off
    }
  }

  /** d is c with its data moved to the start of the block. */
  lemma MovedData(c: Chunk, d: Chunk)
    requires c.Wf() && d.Wf() && d.off == c.off && d.misalign == 0
    requires forall i :: 0 <= i < c.off ==> d.mem[i] == c.mem[c.misalign + i]
    ensures d.Data() == c.Data()
  {
  }

  /** d is c with data put in front of the window. */
  lemma FrontData(c: Chunk, d: Chunk, data: seq<byte>)
    requires c.Wf() && d.Wf() && |d.mem| == |c.mem| && d.off == c.off + |data| && d.misalign + |data| == c.misalign
    requires forall i :: 0 <= i < |data| ==> d.mem[d.misalign + i] == data[i]
    requires forall i :: c.misalign <= i < c.misalign + c.off ==> d.mem[i] == c.mem[i]
    ensures d.Data() == data + c.Data()
  {
    forall i | 0 <= i < d.off
      ensures d.Data()[i] == (data + c.Data())[i]
    {
      if i < |data| {
        assert d.mem[d.misalign + i] == data[i];
      }
    }
  }

  predicate AllWf(cs: seq<Chunk>) {
    forall i :: 0 <= i < |cs| ==> cs[i].Wf()
  }

  function Flatten(cs: seq<Chunk>): (d: seq<byte>) {
    if cs == [] then [] else cs[0].Data() + Flatten(cs[1..])
  }

  lemma Assoc(a: seq<byte>, b: seq<byte>, c: seq<byte>)
    ensures a + (b + c) == (a + b) + c
  {
  }

  lemma AppendNil(a: seq<byte>)
    ensures a + [] == a && [] + a == a
  {
  }

  lemma Rejoin(a: seq<byte>, data: seq<byte>, k: nat)
    requires k <= |data|
    ensures a + data[..k] + data[k..] == a + data
  {
    assert data[..k] + data[k..] == data;
  }

  lemma RejoinFront(data: seq<byte>, k: nat, a: seq<byte>)
    requires k <= |data|
    ensures data[..k] + (data[k..] + a) == data + a
    ensures k == |data| ==> data[..k] + a == data + a && data[k..] + a == a
  {
    assert data[..k] + data[k..] == data;
  }

  lemma TakeDrop<T>(xs: seq<T>, k: nat)
    requires k <= |xs|
    ensures xs[..k] + xs[k..] == xs
  {
  }

  lemma TakeSnoc<T>(xs: seq<T>, j: nat, k: nat)
    requires k == j + 1 <= |xs|
    ensures xs[..k] == xs[..j] + [xs[j]]
  {
  }

  lemma TailOfAppend<T>(xs: seq<T>, ys: seq<T>)
    requires xs != []
    ensures (xs + ys)[0] == xs[0] && (xs + ys)[1..] == xs[1..] + ys
  {
  }

  lemma {:induction false} FlattenAppend(xs: seq<Chunk>, ys: seq<Chunk>)
    ensures Flatten(xs + ys) == Flatten(xs) + Flatten(ys)
  {
    if xs == [] {
      assert xs + ys == ys;
    } else {
      FlattenAppend(xs[1..], ys);
      TailOfAppend(xs, ys);
      Assoc(xs[0].Data(), Flatten(xs[1..]), Flatten(ys));
    }
  }

  lemma FlattenOne(c: Chunk)
    ensures Flatten([c]) == c.Data()
  {
    assert [c][1..] == [];
  }

  lemma FlattenSplit(cs: seq<Chunk>, k: nat)
    requires k <= |cs|
    ensures Flatten(cs) == Flatten(cs[..k]) + Flatten(cs[k..])
  {
    FlattenAppend(cs[..k], cs[k..]);
    TakeDrop(cs, k);
  }

  /** Flattening around the chunk at position k. */
  lemma FlattenAt(cs: seq<Chunk>, k: nat)
    requires k < |cs|
    ensures Flatten(cs) == Flatten(cs[..k]) + (cs[k].Data() + Flatten(cs[k + 1..]))
  {
    FlattenSplit(cs, k);
    assert cs[k..][1..] == cs[k + 1..];
  }

  lemma {:induction false} FlattenEmpty(cs: seq<Chunk>)
    requires forall i :: 0 <= i < |cs| ==> cs[i].off == 0
    ensures Flatten(cs) == []
  {
    if cs != [] {
      FlattenEmpty(cs[1..]);
    }
  }

  /** Chunks without data at the end contribute nothing. */
  lemma FlattenTrim(cs: seq<Chunk>, k: nat)
    requires k <= |cs| && forall i :: k <= i < |cs| ==> cs[i].off == 0
    ensures Flatten(cs) == Flatten(cs[..k])
  {
    FlattenSplit(cs, k);
    FlattenEmpty(cs[k..]);
  }

  /** Everything after position k is empty, so position k holds the end of the stream. */
  lemma FlattenLast(cs: seq<Chunk>, k: nat)
    requires k < |cs|
    requires forall i :: k < i < |cs| ==> cs[i].off == 0
    ensures Flatten(cs) == Flatten(cs[..k]) + cs[k].Data()
  {
    var d := cs[k].Data();
    FlattenAt(cs, k);
    FlattenEmpty(cs[k + 1..]);
    AppendNil(d);
  }

  lemma FlattenSnoc(cs: seq<Chunk>, c: Chunk)
    ensures Flatten(cs + [c]) == Flatten(cs) + c.Data()
  {
    FlattenAppend(cs, [c]);
    FlattenOne(c);
  }

  /** The chunks up to position lwd hold data and the later ones do not; when
      nothing holds data, lwd is 0. This is what last_with_datap promises. */
  predicate Shape(cs: seq<Chunk>, lwd: nat) {
    && AllWf(cs)
    && (if cs == [] then lwd == 0 else lwd < |cs|)
    && (forall i :: 0 <= i < lwd ==> cs[i].off > 0)
    && (0 < lwd ==> cs[lwd].off > 0)
    && (forall i :: lwd < i < |cs| ==> cs[i].off == 0)
  }

  /** How many chunks hold data. */
  function DataCount(cs: seq<Chunk>, lwd: nat): (k: nat)
    requires Shape(cs, lwd)
    ensures k <= |cs|
    ensures forall i :: 0 <= i < |cs| ==> (cs[i].off > 0 <==> i < k)
  {
    if cs == [] || cs[lwd].off == 0 then lwd else lwd + 1
  }

  /** Replacing the empty chunks at the end by a new chunk appends its data. */
  lemma InsertChunk(cs: seq<Chunk>, lwd: nat, c: Chunk)
    requires Shape(cs, lwd) && c.Wf()
    ensures var k := DataCount(cs, lwd);
      && Shape(cs[..k] + [c], if c.off > 0 then k else lwd)
      && Flatten(cs[..k] + [c]) == Flatten(cs) + c.Data()
  {
    var k := DataCount(cs, lwd);
    InsertShape(cs, lwd, k, c, cs[..k] + [c]);
    FlattenTrim(cs, k);
    FlattenSnoc(cs[..k], c);
  }

  lemma InsertShape(cs: seq<Chunk>, lwd: nat, k: nat, c: Chunk, ds: seq<Chunk>)
    requires Shape(cs, lwd) && c.Wf() && k == DataCount(cs, lwd) && ds == cs[..k] + [c]
    ensures Shape(ds, if c.off > 0 then k else lwd)
  {
    assert ds[k] == c && |ds| == k + 1;
    assert forall i :: 0 <= i < k ==> ds[i] == cs[i];
  }

  lemma FlattenUpdate(cs: seq<Chunk>, k: nat, c: Chunk)
    requires k < |cs|
    ensures Flatten(cs[k := c]) == Flatten(cs[..k]) + (c.Data() + Flatten(cs[k + 1..]))
  {
    var ds := cs[k := c];
    FlattenAt(ds, k);
    assert ds[..k] == cs[..k];
    assert ds[k + 1..] == cs[k + 1..];
  }

  /** Growing the last chunk that holds data appends to the stream. */
  lemma GrowLast(cs: seq<Chunk>, lwd: nat, c: Chunk, data: seq<byte>)
    requires cs != [] && Shape(cs, lwd)
    requires c.Wf() && c.Data() == cs[lwd].Data() + data
    ensures Shape(cs[lwd := c], lwd)
    ensures Flatten(cs[lwd := c]) == Flatten(cs) + data
  {
    GrowLastShape(cs, lwd, c, data);
    FlattenUpdate(cs, lwd, c);
    FlattenEmpty(cs[lwd + 1..]);
    FlattenLast(cs, lwd);
    Assoc(Flatten(cs[..lwd]), cs[lwd].Data(), data);
  }

  lemma GrowLastShape(cs: seq<Chunk>, lwd: nat, c: Chunk, data: seq<byte>)
    requires cs != [] && Shape(cs, lwd)
    requires c.Wf() && c.Data() == cs[lwd].Data() + data
    ensures Shape(cs[lwd := c], lwd)
  {
    assert c.off == cs[lwd].off + |data|;
  }

  /** Changing a chunk but not its data. */
  lemma KeepChunk(cs: seq<Chunk>, lwd: nat, k: nat, c: Chunk, ds: seq<Chunk>)
    requires Shape(cs, lwd) && k < |cs| && c.Wf() && c.Data() == cs[k].Data() && ds == cs[k := c]
    ensures Shape(ds, lwd) && Flatten(ds) == Flatten(cs)
  {
    assert c.off == |c.Data()| == cs[k].off;
    FlattenUpdate(cs, k, c);
    FlattenAt(cs, k);
  }

  /** Moving the window of a leading chunk that holds nothing. */
  lemma RewindFirst(cs: seq<Chunk>, lwd: nat, c: Chunk)
    requires cs != [] && Shape(cs, lwd) && cs[0].off == 0
    requires c.Wf() && c.off == 0
    ensures Shape(cs[0 := c], lwd) && Flatten(cs[0 := c]) == Flatten(cs)
  {
    FlattenEmpty(cs);
    FlattenEmpty(cs[0 := c]);
  }

  /** Growing the first chunk to the left prepends to the stream. */
  lemma GrowFirst(cs: seq<Chunk>, lwd: nat, c: Chunk, data: seq<byte>)
    requires cs != [] && Shape(cs, lwd)
    requires c.Wf() && c.Data() == data + cs[0].Data()
    ensures Shape(cs[0 := c], lwd) && Flatten(cs[0 := c]) == data + Flatten(cs)
  {
    assert c.off == |data| + cs[0].off;
    assert cs[0 := c][1..] == cs[1..];
    Assoc(data, cs[0].Data(), Flatten(cs[1..]));
  }

  /** A new chunk in front of a chunk that holds data. */
  lemma PushChunk(cs: seq<Chunk>, lwd: nat, c: Chunk)
    requires cs != [] && Shape(cs, lwd) && cs[0].off > 0
    requires c.Wf() && c.off > 0
    ensures Shape([c] + cs, lwd + 1) && Flatten([c] + cs) == c.Data() + Flatten(cs)
  {
    assert ([c] + cs)[1..] == cs;
  }

  /** How many bytes evbuffer_prepend can place before it needs a new chain. */
  function FrontRoom(cs: seq<Chunk>): nat {
    if cs == [] then 0 else if cs[0].off == 0 then |cs[0].mem| else cs[0].misalign
  }

  /** The stream position at which chunk k starts. */
  function Offset(cs: seq<Chunk>, k: nat): nat
    requires k <= |cs|
  {
    if k == 0 then 0 else Offset(cs, k - 1) + cs[k - 1].Size()
  }

  lemma {:induction false} OffsetIs(cs: seq<Chunk>, k: nat)
    requires k <= |cs|
    ensures Offset(cs, k) == |Flatten(cs[..k])|
  {
    if k > 0 {
      var j := k - 1;
      OffsetIs(cs, j);
      TakeSnoc(cs, j, k);
      FlattenSnoc(cs[..j], cs[j]);
    }
  }

  lemma OffsetStep(cs: seq<Chunk>, k: nat)
    requires k < |cs| && cs[k].Wf()
    ensures Offset(cs, k + 1) == Offset(cs, k) + cs[k].off <= |Flatten(cs)|
  {
    OffsetIs(cs, k + 1);
    FlattenSplit(cs, k + 1);
  }

  lemma OffsetEnds(cs: seq<Chunk>)
    ensures Offset(cs, 0) == 0 && Offset(cs, |cs|) == |Flatten(cs)|
  {
    OffsetIs(cs, |cs|);
    assert cs[..|cs|] == cs;
  }

  /** n bytes of chunk k from position p on, as a piece of the stream. */
  lemma PieceInStream(cs: seq<Chunk>, k: nat, p: nat, n: nat, at: nat, end: nat)
    requires k < |cs| && cs[k].Wf() && p + n <= cs[k].off && at == Offset(cs, k) + p && end == at + n
    ensures end <= |Flatten(cs)| && cs[k].Data()[p..p + n] == Flatten(cs)[at..end]
  {
    FlattenAt(cs, k);
    OffsetIs(cs, k);
    MiddlePiece(Flatten(cs[..k]), cs[k].Data(), Flatten(cs[k + 1..]), Flatten(cs), p, n, at, end);
  }

  lemma MiddlePiece(a: seq<byte>, b: seq<byte>, c: seq<byte>, abc: seq<byte>, p: nat, n: nat, at: nat, end: nat)
    requires p + n <= |b| && abc == a + (b + c) && at == |a| + p && end == at + n
    ensures end <= |abc| && b[p..p + n] == abc[at..end]
  {
  }

  lemma ExtendSlice(cs: seq<Chunk>, k: nat, p: nat, n: nat, start: nat, at: nat, end: nat)
    requires k < |cs| && cs[k].Wf() && p + n <= cs[k].off && start <= at == Offset(cs, k) + p && end == at + n
    ensures end <= |Flatten(cs)|
    ensures Flatten(cs)[start..at] + cs[k].Data()[p..p + n] == Flatten(cs)[start..end]
  {
    PieceInStream(cs, k, p, n, at, end);
    JoinSlices(Flatten(cs), start, at, end);
  }

  lemma JoinSlices(a: seq<byte>, lo: nat, mid: nat, hi: nat)
    requires lo <= mid <= hi <= |a|
    ensures a[lo..mid] + a[mid..hi] == a[lo..hi]
  {
  }

  /** Dropping the first k chunks drops their bytes. */
  lemma DropChunks(cs: seq<Chunk>, lwd: nat, k: nat, rest: nat)
    requires Shape(cs, lwd) && k + rest == lwd && k < |cs|
    ensures Shape(cs[k..], rest)
    ensures Offset(cs, k) <= |Flatten(cs)| && Flatten(cs[k..]) == Flatten(cs)[Offset(cs, k)..]
  {
    FlattenSplit(cs, k);
    OffsetIs(cs, k);
    DropPrefix(Flatten(cs[..k]), Flatten(cs[k..]));
  }

  lemma DropPrefix(a: seq<byte>, b: seq<byte>)
    ensures (a + b)[|a|..] == b
  {
  }

  /** Dropping bytes from the first chunk drops them from the stream. */
  lemma SkipFirstChunk(cs: seq<Chunk>, lwd: nat, n: nat, c: Chunk)
    requires cs != [] && Shape(cs, lwd) && n < cs[0].off
    requires c.Wf() && c.Data() == cs[0].Data()[n..]
    ensures Shape(cs[0 := c], lwd)
    ensures n <= |Flatten(cs)| && Flatten(cs[0 := c]) == Flatten(cs)[n..]
  {
    assert c.off == cs[0].off - n;
    assert cs[0 := c][1..] == cs[1..];
    DropHead(cs[0].Data(), Flatten(cs[1..]), n);
  }

  lemma DropHead(a: seq<byte>, b: seq<byte>, n: nat)
    requires n <= |a|
    ensures (a + b)[n..] == a[n..] + b
  {
  }
}
