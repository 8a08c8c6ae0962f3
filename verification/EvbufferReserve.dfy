/** Expanding, reserving and committing space (buffer.c). */
module EvbufferReserve {
  import opened Chunks
  import opened Evbuffers
  import opened EvbufferOps
  import opened EvbufferMove

  const MAX_TO_COPY_IN_EXPAND: nat := 4096

  /** The first chain from the last one with data on that has space. */
  ghost function Writable(vs: seq<Chunk>, lwd: nat): nat
    requires Shape(vs, lwd)
  {
    if vs == [] then 0 else if vs[lwd].Space() == 0 then lwd + 1 else lwd
  }

  /** Shape leaves no choice for the last chunk with data. */
  lemma LwdIsForced(vs: seq<Chunk>, n: nat, lwd: nat)
    requires Shape(vs, lwd) && n + 1 == |vs| && vs[n].off == 0
    requires forall i :: 0 <= i < n ==> vs[i].off > 0
    ensures lwd == if n == 0 then 0 else n - 1
  {
    if n > 0 {
      assert vs[n - 1].off > 0;
    }
  }

  /** Whether evbuffer_expand_singlechain moves the data to the front of the block for datlen more bytes. */
  predicate CanRealign(v: Chunk, datlen: nat) {
    v.off <= |v.mem| && |v.mem| - v.off >= datlen && v.off < |v.mem| / 2 && v.off <= MAX_TO_REALIGN_IN_EXPAND
  }

  /** Whether it copies the data into a larger block. */
  predicate WorthResizing(v: Chunk, datlen: nat)
    requires v.Wf()
  {
    v.Space() >= |v.mem| / 8 && v.off <= MAX_TO_COPY_IN_EXPAND && datlen < CHAIN_MAX - v.off
  }

  /** Both in numbers: at most 2048 bytes are moved, when they are less than half of the block and leave
      room enough; at most 4096 are copied, when an eighth of the block is free. */
  lemma Thresholds(v: Chunk, datlen: nat)
    requires v.Wf()
    ensures CanRealign(v, datlen) <==> v.off + datlen <= |v.mem| && 2 * v.off + 2 <= |v.mem| && v.off <= 2048
    ensures WorthResizing(v, datlen) <==>
      8 * v.Space() + 7 >= |v.mem| && v.off <= 4096 && v.off + datlen < 0x7fff_ffff_ffff_ffff
  {
  }

  /** Where evbuffer_expand_singlechain finds room. */
  datatype Room = AsIs(k: nat) | Realigned(k: nat) | Resized(k: nat) | NewChunk

  ghost function RoomFor(vs: seq<Chunk>, lwd: nat, datlen: nat): (r: Room)
    requires Shape(vs, lwd)
    ensures r.NewChunk? || (vs != [] && lwd <= r.k < |vs| && (r.AsIs? ==> r.k <= lwd + 1) && (!r.AsIs? ==> r.k == lwd))
  {
    var w := Writable(vs, lwd);
    if w == |vs| then NewChunk
    else if vs[w].Space() >= datlen then AsIs(w)
    else if vs[w].off == 0 then NewChunk
    else if CanRealign(vs[w], datlen) then Realigned(w)
    else FullRoom(vs, w, datlen)
  }

  /** When the chunk at position w with data can neither hold nor be realigned for datlen bytes. */
  function FullRoom(vs: seq<Chunk>, w: nat, datlen: nat): Room
    requires AllWf(vs) && w < |vs|
  {
    if WorthResizing(vs[w], datlen) then Resized(w)
    else if w + 1 < |vs| && vs[w + 1].Space() >= datlen then AsIs(w + 1)
    else NewChunk
  }

  /** The block that this room needs is too large. */
  predicate NoRoom(room: Room, vs: seq<Chunk>, datlen: nat)
    requires room.Resized? ==> room.k < |vs|
  {
    match room
    case Resized(j) => vs[j].off + datlen > BLOCK_MAX
    case NewChunk => datlen > BLOCK_MAX
    case _ => false
  }

  /** ws is vs after the room has been made in chunk k. */
  predicate RoomMade(room: Room, vs: seq<Chunk>, ws: seq<Chunk>, k: nat, datlen: nat) {
    match room
    case AsIs(j) => k == j && ws == vs
    case Realigned(j) => k == j && ChangedAt(vs, ws, k) && |ws[k].mem| == |vs[k].mem|
    case Resized(j) => k == j && ChangedAt(vs, ws, k) && vs[k].off + datlen <= BLOCK_MAX
      && |ws[k].mem| == BlockLen(vs[k].off + datlen)
    case NewChunk => k <= |vs| && |ws| == k + 1 && ws[..k] == vs[..k] && IsNew(ws[k], datlen) && OnlyFront(vs, k)
  }

  /** The first k chunks are the ones that hold data. */
  predicate OnlyFront(vs: seq<Chunk>, k: nat) {
    forall i :: 0 <= i < |vs| ==> (vs[i].off > 0 <==> i < k)
  }

  /** Only chunk k differs, and its window, of the same size, is at the start of the block. */
  predicate ChangedAt(vs: seq<Chunk>, ws: seq<Chunk>, k: nat) {
    k < |vs| == |ws| && ws == vs[k := ws[k]] && ws[k].off == vs[k].off && ws[k].misalign == 0
  }

  /** r is the chain with the room, now in position k, and null exactly when there is no room;
      vs and lwd are what buf had before. */
  ghost predicate RoomFound(buf: Evbuffer, r: Chain?, room: Room, vs: seq<Chunk>, lwd: nat, k: nat, datlen: nat)
    requires room.Resized? ==> room.k < |vs|
    reads buf`chains, buf`vals, buf`lwd
  {
    && (r == null <==> NoRoom(room, vs, datlen))
    && (r != null ==>
      && RoomMade(room, vs, buf.vals, k, datlen) && (buf.lwd == lwd || room.NewChunk?)
      && k < |buf.chains| == |buf.vals| && r == buf.chains[k] && buf.lwd <= k <= buf.lwd + 1
      && buf.vals[k].Wf() && buf.vals[k].Space() >= datlen)
  }

  /** A new empty chain at the end, instead of the empty ones there. */
  method InsertNew(buf: Evbuffer, datlen: nat) returns (r: Chain?, ghost k: nat)
    requires buf.Valid()
    modifies buf, buf.Repr
    ensures buf.Valid() && fresh(buf.Repr - old(buf.Repr))
    ensures buf.Contents() == old(buf.Contents())
    ensures RoomFound(buf, r, NewChunk, old(buf.vals), old(buf.lwd), k, datlen)
    ensures unchanged(buf`freezeStart, buf`freezeEnd)
  {
    k := 0;
    var c := NewChain(datlen, true);
    if c == null {
      return null, 0;
    }
    ghost var v := Chunk(c.buffer[..], 0, 0);
    AppendNil(buf.Contents());
    ghost var vs, lwd := buf.vals, buf.lwd;
    k := DataCount(vs, lwd);
    ChainInsert(buf, c, v);
    InsertedRoom(vs, lwd, k, v, buf.vals, buf.lwd, datlen);
    assert fresh({c, c.buffer});
    r := c;
  }

  lemma InsertedRoom(vs: seq<Chunk>, lwd: nat, k: nat, v: Chunk, ws: seq<Chunk>, lwd': nat, datlen: nat)
    requires Shape(vs, lwd) && k == DataCount(vs, lwd) && ws == vs[..k] + [v] && Shape(ws, lwd') && IsNew(v, datlen)
    ensures k + 1 == |ws| && lwd' <= k <= lwd' + 1 && ws[k] == v && v.Space() >= datlen
    ensures RoomMade(NewChunk, vs, ws, k, datlen)
  {
    assert ws[k] == v && ws[..k] == vs[..k];
    assert forall i :: 0 <= i < k ==> ws[i] == vs[i];
    LwdIsForced(ws, k, lwd');
  }

  method FirstWithSpace(buf: Evbuffer) returns (pred: Chain?, chain: Chain?, ghost k: nat)
    requires buf.Valid()
    ensures k == Writable(buf.vals, buf.lwd) <= |buf.chains| && pred == PredAt(buf.chains, k)
    ensures chain == if k < |buf.chains| then buf.chains[k] else null
  {
    k := buf.lwd;
    pred := buf.lwdPred;
    buf.DerefAt(k);
    chain := buf.Deref(pred);
    if chain != null {
      buf.ValueAt(k);
      if chain.buffer.Length - chain.misalign - chain.off == 0 {
        PredAtIs(buf.chains, k + 1);
        buf.NextAt(k);
        pred, chain := chain, chain.next;
        k := k + 1;
      }
    }
  }

  /** Moves the last chain with data into a larger block. */
  method Resize(buf: Evbuffer, pred: Chain?, chain: Chain, datlen: nat, ghost k: nat) returns (r: Chain?)
    requires buf.Valid() && buf.chains != [] && k == buf.lwd && chain == buf.chains[k] && pred == PredAt(buf.chains, k)
    modifies buf, buf.Repr
    ensures buf.Valid() && fresh(buf.Repr - old(buf.Repr))
    ensures buf.Contents() == old(buf.Contents())
    ensures RoomFound(buf, r, Resized(k), old(buf.vals), k, k, datlen)
    ensures unchanged(buf`freezeStart, buf`freezeEnd)
  {
    var tmp, v := LargerCopy(buf, chain, datlen, k);
    if tmp == null {
      return null;
    }
    ResizeInto(buf, pred, chain, tmp, v, datlen, k);
    assert fresh({tmp, tmp.buffer});
    r := tmp;
  }

  method ResizeInto(buf: Evbuffer, pred: Chain?, chain: Chain, tmp: Chain, ghost v: Chunk, ghost datlen: nat,
      ghost k: nat)
    requires buf.Valid() && buf.chains != [] && k == buf.lwd && chain == buf.chains[k] && pred == PredAt(buf.chains, k)
    requires Unowned(buf, tmp, v) && v.Wf() && v.misalign == 0 && v.Data() == buf.vals[k].Data()
    requires buf.vals[k].off + datlen <= BLOCK_MAX && |v.mem| == BlockLen(buf.vals[k].off + datlen)
    modifies buf, buf.Repr, tmp`next
    ensures buf.Valid() && buf.Repr == old(buf.Repr) + {tmp, tmp.buffer}
    ensures buf.Contents() == old(buf.Contents())
    ensures RoomFound(buf, tmp, Resized(k), old(buf.vals), k, k, datlen)
    ensures unchanged(buf`freezeStart, buf`freezeEnd)
  {
    ghost var vs, ws, cs := buf.vals, buf.vals[k := v], buf.chains[k := tmp];
    AppendNil(buf.Contents());
    AppendNil(v.Data());
    GrowLast(vs, k, v, []);
    ResizedRoom(vs, k, v, ws, datlen);
    PutInPlace(buf, pred, chain, tmp, v, k, ws, cs);
  }

  method LargerCopy(buf: Evbuffer, chain: Chain, datlen: nat, ghost k: nat) returns (tmp: Chain?, ghost v: Chunk)
    requires buf.Valid() && k < |buf.chains| && chain == buf.chains[k]
    ensures tmp == null <==> NoRoom(Resized(k), buf.vals, datlen)
    ensures tmp != null ==> fresh(tmp) && fresh(tmp.buffer) && Unowned(buf, tmp, v) && v.Wf() && v.misalign == 0
    ensures tmp != null ==> |v.mem| == BlockLen(buf.vals[k].off + datlen) && v.Data() == buf.vals[k].Data()
  {
    buf.ValueAt(k);
    buf.ReadAt(chain, k, 0, chain.off);
    tmp, v := NewFilledChain(chain.off + datlen, chain.Bytes(0, chain.off));
  }

  lemma ResizedRoom(vs: seq<Chunk>, k: nat, v: Chunk, ws: seq<Chunk>, datlen: nat)
    requires k < |vs| && vs[k].Wf() && v.Wf() && ws == vs[k := v] && v.Data() == vs[k].Data() && v.misalign == 0
    requires vs[k].off + datlen <= BLOCK_MAX && |v.mem| == BlockLen(vs[k].off + datlen)
    ensures ws[k] == v && v.Space() >= datlen && RoomMade(Resized(k), vs, ws, k, datlen)
  {
    assert |v.Data()| == v.off && |vs[k].Data()| == vs[k].off;
  }

  method PutInPlace(buf: Evbuffer, pred: Chain?, chain: Chain, tmp: Chain, ghost v: Chunk, ghost k: nat,
      ghost vs: seq<Chunk>, ghost cs: seq<Chain>)
    requires buf.Valid() && buf.chains != [] && k == buf.lwd && chain == buf.chains[k] && pred == PredAt(buf.chains, k)
    requires Unowned(buf, tmp, v) && vs == buf.vals[k := v] && cs == buf.chains[k := tmp]
    requires Shape(vs, k) && Flatten(vs) == buf.Contents()
    modifies buf, buf.Repr, tmp`next
    ensures buf.Valid() && buf.Repr == old(buf.Repr) + {tmp, tmp.buffer}
    ensures buf.Contents() == old(buf.Contents()) && buf.lwd == k && buf.chains == cs && buf.vals == vs
    ensures unchanged(buf`freezeStart, buf`freezeEnd)
  {
    OwnedAt(buf.chains, buf.Repr, k);
    PredsOfUpdate(buf.chains, k, tmp, cs);
    var last := if buf.last == chain then tmp else buf.last;
    buf.Replace(pred, chain, tmp, k, v);
    buf.Settle(last, buf.lwdPred, k, buf.totalLen, cs, vs, buf.Contents());
  }

  lemma PredsOfUpdate(cs: seq<Chain>, k: nat, c: Chain, ds: seq<Chain>)
    requires k < |cs| && ds == cs[k := c]
    requires forall i :: 0 <= i < |cs| && i != k ==> cs[i] != cs[k]
    ensures PredAt(ds, k) == PredAt(cs, k)
    ensures PredAt(ds, |ds|) == if PredAt(cs, |cs|) == cs[k] then c else PredAt(cs, |cs|)
  {
    PredAtIs(ds, k);
    PredAtIs(cs, k);
    PredAtIs(ds, |ds|);
    PredAtIs(cs, |cs|);
  }

  /** evbuffer_expand_singlechain: one chain with room for datlen more bytes, found as RoomFor says. */
  method ExpandSinglechain(buf: Evbuffer, datlen: nat) returns (r: Chain?, ghost k: nat)
    requires buf.Valid()
    modifies buf, buf.Repr
    ensures buf.Valid() && fresh(buf.Repr - old(buf.Repr))
    ensures buf.Contents() == old(buf.Contents())
    ensures RoomFound(buf, r, RoomFor(old(buf.vals), old(buf.lwd), datlen), old(buf.vals), old(buf.lwd), k, datlen)
    ensures unchanged(buf`freezeStart, buf`freezeEnd)
  {
    var pred, chain;
    pred, chain, k := FirstWithSpace(buf);
    ghost var room := RoomFor(buf.vals, buf.lwd, datlen);
    if chain == null {
      assert room == NewChunk;
      r, k := InsertNew(buf, datlen);
      return;
    }
    buf.ValueAt(k);
    if chain.buffer.Length - chain.misalign - chain.off >= datlen {
      assert room == AsIs(k);
      r := chain;
      return;
    }
    if chain.off == 0 {
      assert room == NewChunk;
      r, k := InsertNew(buf, datlen);
      return;
    }
    r, k := ExpandData(buf, pred, chain, datlen, k);
  }

  /** The last chain with data has space, but too little. */
  method ExpandData(buf: Evbuffer, pred: Chain?, chain: Chain, datlen: nat, ghost at: nat)
    returns (r: Chain?, ghost k: nat)
    requires buf.Valid() && buf.chains != [] && at == buf.lwd && chain == buf.chains[at]
      && pred == PredAt(buf.chains, at)
    requires buf.vals[at].Space() < datlen
    modifies buf, buf.Repr
    ensures buf.Valid() && fresh(buf.Repr - old(buf.Repr))
    ensures buf.Contents() == old(buf.Contents())
    ensures RoomFound(buf, r,
      if CanRealign(old(buf.vals[at]), datlen) then Realigned(at) else FullRoom(old(buf.vals), at, datlen),
      old(buf.vals), at, k, datlen)
    ensures unchanged(buf`freezeStart, buf`freezeEnd)
  {
    buf.ValueAt(at);
    if ShouldRealign(chain, datlen) {
      ghost var v := AlignInPlace(buf, chain);
      r, k := chain, at;
    } else {
      r, k := ExpandFull(buf, pred, chain, datlen, at);
    }
  }

  /** What is left when the last chain with data can neither hold nor be realigned for
      datlen bytes: use the next chain, add one, or resize. */
  method ExpandFull(buf: Evbuffer, pred: Chain?, chain: Chain, datlen: nat, ghost at: nat)
    returns (r: Chain?, ghost k: nat)
    requires buf.Valid() && buf.chains != [] && at == buf.lwd && chain == buf.chains[at]
      && pred == PredAt(buf.chains, at)
    modifies buf, buf.Repr
    ensures buf.Valid() && fresh(buf.Repr - old(buf.Repr))
    ensures buf.Contents() == old(buf.Contents())
    ensures RoomFound(buf, r, FullRoom(old(buf.vals), at, datlen), old(buf.vals), at, k, datlen)
    ensures unchanged(buf`freezeStart, buf`freezeEnd)
  {
    buf.ValueAt(at);
    buf.NextAt(at);
    if chain.buffer.Length - chain.misalign - chain.off < chain.buffer.Length / 8 || chain.off > MAX_TO_COPY_IN_EXPAND
      || datlen >= CHAIN_MAX - chain.off {
      k := at + 1;
      if chain.next != null {
        buf.ValueAt(k);
        if chain.next.buffer.Length - chain.next.misalign - chain.next.off >= datlen {
          return chain.next, k;
        }
      }
      assert FullRoom(buf.vals, at, datlen) == NewChunk;
      r, k := InsertNew(buf, datlen);
    } else {
      assert FullRoom(buf.vals, at, datlen) == Resized(at);
      k := at;
      r := Resize(buf, pred, chain, datlen, k);
    }
  }

  /** evbuffer_expand */
  method Expand(buf: Evbuffer, datlen: nat) returns (ok: bool)
    requires buf.Valid()
    modifies buf, buf.Repr
    ensures buf.Valid() && fresh(buf.Repr - old(buf.Repr))
    ensures buf.Contents() == old(buf.Contents())
    ensures ok <==> !NoRoom(RoomFor(old(buf.vals), old(buf.lwd), datlen), old(buf.vals), datlen)
    ensures ok ==> exists k :: buf.lwd <= k < |buf.vals| && buf.vals[k].Space() >= datlen
    ensures unchanged(buf`freezeStart, buf`freezeEnd)
  {
    ghost var k;
    var r;
    r, k := ExpandSinglechain(buf, datlen);
    ok := r != null;
  }

  /** The only requests it can refuse are too large for a block, or for one with what it must copy. */
  lemma RoomIfSmall(vs: seq<Chunk>, lwd: nat, datlen: nat)
    requires Shape(vs, lwd) && datlen <= BLOCK_MAX - MAX_TO_COPY_IN_EXPAND
    ensures !NoRoom(RoomFor(vs, lwd, datlen), vs, datlen)
  {
  }

  /** The space of n chunks from position k on. */
  ghost function SpaceOf(vs: seq<Chunk>, k: nat, n: nat): nat
    requires AllWf(vs) && k + n <= |vs|
    decreases n
  {
    if n == 0 then 0 else vs[k].Space() + SpaceOf(vs, k + 1, n - 1)
  }

  lemma {:induction false} SpaceOfSnoc(vs: seq<Chunk>, k: nat, n: nat)
    requires AllWf(vs) && k + n < |vs|
    ensures SpaceOf(vs, k, n + 1) == SpaceOf(vs, k, n) + vs[k + n].Space()
    decreases n
  {
    if n > 0 {
      SpaceOfSnoc(vs, k + 1, n - 1);
    }
  }

  /** The chains from k on agree in two lists. */
  lemma {:induction false} SpaceOfSame(vs: seq<Chunk>, ws: seq<Chunk>, k: nat, n: nat)
    requires AllWf(vs) && AllWf(ws) && k + n <= |vs| && k + n <= |ws|
    requires forall i :: k <= i < k + n ==> vs[i] == ws[i]
    ensures SpaceOf(vs, k, n) == SpaceOf(ws, k, n)
    decreases n
  {
    if n > 0 {
      SpaceOfSame(vs, ws, k + 1, n - 1);
    }
  }

  /** misalign = 0 for an empty chain, which then offers its whole block. */
  method Rewind(buf: Evbuffer, chain: Chain, ghost k: nat)
    requires buf.Valid() && k < |buf.chains| && chain == buf.chains[k] && buf.vals[k].off == 0
    modifies buf, buf.Repr
    ensures buf.Valid() && buf.Repr == old(buf.Repr) && buf.chains == old(buf.chains) && buf.lwd == old(buf.lwd)
    ensures buf.Contents() == old(buf.Contents())
    ensures buf.vals == old(buf.vals)[k := old(buf.vals[k]).(misalign := 0)]
      && |old(buf.vals[k]).mem| == chain.buffer.Length
    ensures unchanged(buf`freezeStart, buf`freezeEnd)
  {
    ghost var vs := buf.vals;
    buf.ValueAt(k);
    ghost var v := buf.RewindAt(chain, k, 0);
    KeepChunk(vs, buf.lwd, k, v, buf.vals);
    buf.SetTail(buf.last, buf.lwdPred, buf.lwd, buf.totalLen);
  }

  /** Every empty chunk that may be counted has its window at the start of the block. */
  predicate Settled(vs: seq<Chunk>, lwd: nat) {
    forall i :: lwd <= i < |vs| && vs[i].off == 0 ==> vs[i].misalign == 0
  }

  /** The counting loop of evbuffer_expand_fast_ turns ws into vs: it moves the windows of empty
      chunks to the start of their blocks. */
  predicate Realigning(vs: seq<Chunk>, lwd: nat, ws: seq<Chunk>) {
    Rewound(vs) == Rewound(ws) && |vs| == |ws| && (Settled(ws, lwd) ==> vs == ws)
  }

  function RewoundChunk(v: Chunk): Chunk {
    if v.off == 0 then v.(misalign := 0) else v
  }

  /** The chunks when all empty windows are at the start of their blocks. */
  function Rewound(vs: seq<Chunk>): (r: seq<Chunk>)
    ensures |r| == |vs| && forall i :: 0 <= i < |vs| ==> r[i] == RewoundChunk(vs[i])
  {
    seq(|vs|, i requires 0 <= i < |vs| => RewoundChunk(vs[i]))
  }

  /** The n chunks from position k on are as if rewound. */
  predicate AllRewound(vs: seq<Chunk>, k: nat, n: nat)
    requires k + n <= |vs|
  {
    forall i :: k <= i < k + n ==> RewoundChunk(vs[i]) == vs[i]
  }

  lemma RewoundStep(vs: seq<Chunk>, ws: seq<Chunk>, k: nat)
    requires k < |vs| && vs[k].off == 0 && ws == vs[k := vs[k].(misalign := 0)]
    ensures Rewound(ws) == Rewound(vs)
  {
  }

  lemma RewoundShape(vs: seq<Chunk>, lwd: nat)
    requires Shape(vs, lwd)
    ensures AllWf(Rewound(vs))
  {
  }

  /** The n chunks from position k on have space. */
  ghost predicate AllSpacious(vs: seq<Chunk>, k: nat, n: nat)
    requires AllWf(vs) && k + n <= |vs|
  {
    forall i :: k <= i < k + n ==> vs[i].Space() > 0
  }

  /** What the counting loop of evbuffer_expand_fast_ finds: used chains from the first one with
      space on hold avail free bytes, and their empty windows have been moved to the start of
      the block; ws are the chunks before the loop. */
  ghost predicate CountIs(vs: seq<Chunk>, lwd: nat, base: nat, used: nat, avail: nat, ws: seq<Chunk>) {
    && Shape(vs, lwd) && lwd < |vs| == |ws| && base == Writable(vs, lwd) && base + used <= |vs|
    && avail == SpaceOf(vs, base, used) && AllSpacious(vs, base, used)
    && (vs[lwd].off > 0 || base == lwd) && Realigning(vs, lwd, ws) && AllRewound(vs, base, used)
  }

  /** The counting loop of evbuffer_expand_fast_. */
  method CountSpace(buf: Evbuffer, datlen: nat, n: nat) returns (enough: bool, used: nat, avail: nat)
    requires buf.Valid() && buf.chains != [] && n >= 2
    modifies buf, buf.Repr
    ensures buf.Valid() && buf.Repr == old(buf.Repr) && buf.chains == old(buf.chains) && buf.lwd == old(buf.lwd)
    ensures buf.Contents() == old(buf.Contents())
    ensures used <= n && CountIs(buf.vals, buf.lwd, Writable(buf.vals, buf.lwd), used, avail, old(buf.vals))
    ensures enough <==> avail >= datlen
    ensures !enough && used < n ==> Writable(buf.vals, buf.lwd) + used == |buf.vals|
    ensures unchanged(buf`freezeStart, buf`freezeEnd)
  {
    ghost var k := buf.lwd;
    buf.DerefAt(k);
    buf.ValueAt(k);
    var chain := buf.Deref(buf.lwdPred);
    if chain.off == 0 {
      enough, used, avail := CountEmpty(buf, chain, k, k, 0, 0, datlen, n);
      return;
    }
    avail := chain.buffer.Length - chain.misalign - chain.off;
    used := if avail > 0 then 1 else 0;
    ghost var next, base := k + 1, Writable(buf.vals, k);
    CountFirst(buf.vals, k, next, base, used, avail, datlen, n);
    if avail >= datlen {
      enough := true;
      return;
    }
    buf.NextAt(k);
    enough, used, avail := CountEmpty(buf, chain.next, next, base, used, avail, datlen, n);
  }

  /** After the last chain with data. */
  lemma CountFirst(vs: seq<Chunk>, lwd: nat, k: nat, base: nat, used: nat, avail: nat, datlen: nat, n: nat)
    requires Shape(vs, lwd) && lwd < |vs| && vs[lwd].off > 0 && n >= 2 && k == lwd + 1 && base == Writable(vs, lwd)
    requires avail == vs[lwd].Space() && used == if avail > 0 then 1 else 0
    ensures CountIs(vs, lwd, base, used, avail, vs)
    ensures avail < datlen ==> Counting(vs, lwd, k, base, used, avail, datlen, n)
  {
    SpaceOfSnoc(vs, lwd, 0);
  }

  /** The counting loop of evbuffer_expand_fast_ at position k. */
  ghost predicate Counting(vs: seq<Chunk>, lwd: nat, k: nat, base: nat, used: nat, avail: nat, datlen: nat, n: nat) {
    && Shape(vs, lwd) && k <= |vs| && base + used == k && used < n
    && (forall i :: k <= i < |vs| ==> vs[i].off == 0)
    && avail == SpaceOf(vs, base, used) && AllSpacious(vs, base, used) && AllRewound(vs, base, used)
    && (avail < datlen || (k < |vs| && used == 0))
    && (if k == lwd then base == k < |vs|
        else lwd < |vs| && base == Writable(vs, lwd) && (vs[lwd].off > 0 || base == lwd))
  }

  /** The state after the chain at k has been counted. */
  ghost predicate Counted(vs: seq<Chunk>, lwd: nat, k: nat, base: nat, used: nat, avail: nat) {
    && Shape(vs, lwd) && lwd < |vs| && k <= |vs| && base + used == k
    && (forall i :: k <= i < |vs| ==> vs[i].off == 0)
    && avail == SpaceOf(vs, base, used) && AllSpacious(vs, base, used) && AllRewound(vs, base, used)
    && base == Writable(vs, lwd) && (vs[lwd].off > 0 || base == lwd)
  }

  lemma CountingStep(vs: seq<Chunk>, ws: seq<Chunk>, lwd: nat, k: nat, base: nat, used: nat, avail: nat, datlen: nat,
      n: nat, next: nat, total: nat)
    requires Counting(vs, lwd, k, base, used, avail, datlen, n) && k < |vs| && Shape(ws, lwd)
    requires ws == vs[k := vs[k].(misalign := 0)] && next == k + 1 && total == avail + |vs[k].mem|
    ensures Counted(ws, lwd, next, base, used + 1, total)
    ensures Settled(vs, lwd) && lwd <= k ==> ws == vs
    ensures Rewound(ws) == Rewound(vs)
  {
    RewoundStep(vs, ws, k);
    assert ws[k].Space() == |vs[k].mem| > 0;
    SpaceOfSame(vs, ws, base, used);
    SpaceOfSnoc(ws, base, used);
  }

  lemma CountedIs(vs: seq<Chunk>, lwd: nat, k: nat, base: nat, used: nat, avail: nat, datlen: nat, n: nat,
      ws: seq<Chunk>)
    requires Counted(vs, lwd, k, base, used, avail) && Realigning(vs, lwd, ws) && lwd < k
    ensures CountIs(vs, lwd, base, used, avail, ws)
    ensures avail < datlen && used < n ==> Counting(vs, lwd, k, base, used, avail, datlen, n)
  {
  }

  method CountEmpty(buf: Evbuffer, from: Chain?, ghost k0: nat, ghost base: nat, used0: nat, avail0: nat, datlen: nat,
      n: nat)
    returns (enough: bool, used: nat, avail: nat)
    requires buf.Valid() && buf.lwd <= k0 <= |buf.chains| && from == if k0 < |buf.chains| then buf.chains[k0] else null
    requires Counting(buf.vals, buf.lwd, k0, base, used0, avail0, datlen, n)
    modifies buf, buf.Repr
    ensures buf.Valid() && buf.Repr == old(buf.Repr) && buf.chains == old(buf.chains) && buf.lwd == old(buf.lwd)
    ensures buf.Contents() == old(buf.Contents())
    ensures used <= n && CountIs(buf.vals, buf.lwd, base, used, avail, old(buf.vals))
    ensures enough <==> avail >= datlen
    ensures !enough && used < n ==> base + used == |buf.vals|
    ensures unchanged(buf`freezeStart, buf`freezeEnd)
  {
    ghost var k := k0;
    var chain := from;
    used, avail := used0, avail0;
    while chain != null
      invariant buf.Valid() && buf.Repr == old(buf.Repr) && buf.chains == old(buf.chains) && buf.lwd == old(buf.lwd)
      invariant buf.Contents() == old(buf.Contents())
      invariant buf.lwd <= k <= |buf.chains| && chain == if k < |buf.chains| then buf.chains[k] else null
      invariant Counting(buf.vals, buf.lwd, k, base, used, avail, datlen, n)
      invariant Realigning(buf.vals, buf.lwd, old(buf.vals))
      invariant unchanged(buf`freezeStart, buf`freezeEnd)
      decreases |buf.chains| - k
    {
      ghost var next := k + 1;
      chain, used, avail := CountOne(buf, chain, k, next, base, used, avail, datlen, n, old(buf.vals));
      k := next;
      if avail >= datlen {
        return true, used, avail;
      }
      if used == n {
        return false, used, avail;
      }
    }
    enough := false;
  }

  /** One round of the loop. */
  method CountOne(buf: Evbuffer, chain: Chain, ghost k: nat, ghost k': nat, ghost base: nat, used0: nat, avail0: nat,
      ghost datlen: nat, ghost n: nat, ghost ws: seq<Chunk>)
    returns (next: Chain?, used: nat, avail: nat)
    requires buf.Valid() && buf.lwd <= k < |buf.chains| && chain == buf.chains[k] && k' == k + 1
    requires Counting(buf.vals, buf.lwd, k, base, used0, avail0, datlen, n)
    requires Realigning(buf.vals, buf.lwd, ws)
    modifies buf, buf.Repr
    ensures buf.Valid() && buf.Repr == old(buf.Repr) && buf.chains == old(buf.chains) && buf.lwd == old(buf.lwd)
    ensures buf.Contents() == old(buf.Contents())
    ensures used == used0 + 1 && CountIs(buf.vals, buf.lwd, base, used, avail, ws) && base + used == k'
    ensures avail < datlen && used < n ==> Counting(buf.vals, buf.lwd, k', base, used, avail, datlen, n)
    ensures next == if k' < |buf.chains| then buf.chains[k'] else null
    ensures unchanged(buf`freezeStart, buf`freezeEnd)
  {
    ghost var vs := buf.vals;
    Rewind(buf, chain, k);
    used, avail := used0 + 1, avail0 + chain.buffer.Length;
    CountingStep(vs, buf.vals, buf.lwd, k, base, used0, avail0, datlen, n, k', avail);
    CountedIs(buf.vals, buf.lwd, k', base, used, avail, datlen, n, ws);
    buf.NextAt(k);
    next := chain.next;
  }

  /** At most n chains from the first one with space on hold datlen free bytes, each has some,
      and no empty chain stands before them. */
  ghost predicate Ready(vs: seq<Chunk>, lwd: nat, datlen: nat, n: nat) {
    && Shape(vs, lwd) && vs != [] && (vs[lwd].off > 0 || Writable(vs, lwd) == lwd)
    && exists m: nat :: m <= n && ReadyIn(vs, Writable(vs, lwd), datlen, m)
  }

  ghost predicate ReadyIn(vs: seq<Chunk>, w: nat, datlen: nat, m: nat)
    requires AllWf(vs)
  {
    w + m <= |vs| && SpaceOf(vs, w, m) >= datlen && AllSpacious(vs, w, m)
  }

  lemma ReadyBy(vs: seq<Chunk>, lwd: nat, datlen: nat, n: nat, m: nat)
    requires Shape(vs, lwd) && vs != [] && m <= n && ReadyIn(vs, Writable(vs, lwd), datlen, m)
    requires vs[lwd].off > 0 || Writable(vs, lwd) == lwd
    ensures Ready(vs, lwd, datlen, n)
  {
  }

  lemma SnocEmptyShape(vs: seq<Chunk>, lwd: nat, v: Chunk)
    requires Shape(vs, lwd) && v.Wf() && v.off == 0
    ensures Shape(vs + [v], lwd) && Flatten(vs + [v]) == Flatten(vs)
  {
    AppendNil(Flatten(vs));
    FlattenSnoc(vs, v);
  }

  /** Adding a chain behind the counted ones completes the space. */
  lemma ReadyAfterSnoc(vs: seq<Chunk>, lwd: nat, v: Chunk, used: nat, datlen: nat, n: nat, ws: seq<Chunk>)
    requires Shape(vs, lwd) && vs != [] && ws == vs + [v] && Shape(ws, lwd) && v.Wf() && v.Space() > 0 && used < n
    requires var w := Writable(vs, lwd);
      w + used == |vs| && SpaceOf(vs, w, used) + v.Space() >= datlen && AllSpacious(vs, w, used)
        && (vs[lwd].off > 0 || w == lwd)
    ensures Ready(ws, lwd, datlen, n)
  {
    var k := Writable(vs, lwd);
    assert ws[lwd] == vs[lwd];
    SpaceOfSame(vs, ws, k, used);
    SpaceOfSnoc(ws, k, used);
    ReadyBy(ws, lwd, datlen, n, used + 1);
  }

  /** One chain with all the space, after the last one with data or alone. */
  lemma ReadyAfterNuke(vs: seq<Chunk>, lwd: nat, v: Chunk, datlen: nat, n: nat, ws: seq<Chunk>)
    requires Shape(vs, lwd) && lwd + 1 == |vs| && vs[lwd].off > 0 && ws == vs + [v] && Shape(ws, lwd) && v.Wf()
      && v.Space() > 0 && n >= 2
    requires vs[lwd].Space() + v.Space() >= datlen
    ensures Ready(ws, lwd, datlen, n)
  {
    SpaceOfSnoc(vs, lwd, 0);
    ReadyAfterSnoc(vs, lwd, v, if vs[lwd].Space() == 0 then 0 else 1, datlen, n, ws);
  }

  lemma ReadyAlone(v: Chunk, datlen: nat, n: nat)
    requires v.Wf() && v.off == 0 && v.misalign == 0 && v.Space() >= datlen && n >= 1
    ensures Ready([v], 0, datlen, n)
  {
    SpaceOfSnoc([v], 0, 0);
    ReadyBy([v], 0, datlen, n, 1);
  }

  /** buf->last->next = tmp; buf->last = tmp */
  method LinkEmpty(buf: Evbuffer, tmp: Chain, ghost v: Chunk)
    requires buf.Valid() && buf.chains != [] && Unowned(buf, tmp, v) && v.Wf() && v.off == 0
    modifies buf, buf.Repr
    ensures buf.Valid() && buf.Repr == old(buf.Repr) + {tmp, tmp.buffer} && buf.lwd == old(buf.lwd)
    ensures buf.vals == old(buf.vals) + [v] && buf.Contents() == old(buf.Contents())
    ensures unchanged(buf`freezeStart, buf`freezeEnd)
  {
    SnocEmptyShape(buf.vals, buf.lwd, v);
    ghost var cs, vs, d := buf.chains + [tmp], buf.vals + [v], buf.Contents();
    PredAtKept(buf.chains, [tmp], buf.lwd);
    PredAtIs(cs, |cs|);
    buf.Link(buf.last, tmp, v);
    buf.Settle(tmp, buf.lwdPred, buf.lwd, buf.totalLen, cs, vs, d);
  }

  /** Frees every empty chain behind the last one with data. */
  method NukeEmpty(buf: Evbuffer, chain: Chain, ghost k: nat)
    requires buf.Valid() && k < |buf.chains| && k == buf.lwd && chain == buf.chains[k] && buf.vals[k].off > 0
    modifies buf, buf.Repr
    ensures buf.Valid() && buf.Repr == old(buf.Repr) && buf.lwd == k
    ensures buf.vals == old(buf.vals)[..k + 1] && buf.Contents() == old(buf.Contents())
    ensures unchanged(buf`freezeStart, buf`freezeEnd)
  {
    ghost var cs, vs, d, n := buf.chains[..k + 1], buf.vals[..k + 1], buf.Contents(), k + 1;
    FlattenTrim(buf.vals, n);
    PredAtIs(buf.chains, n);
    PredAtIs(cs, |cs|);
    PredAtIs(cs, k);
    PredAtIs(buf.chains, k);
    buf.Cut(chain, n);
    buf.Settle(chain, buf.lwdPred, k, buf.totalLen, cs, vs, d);
  }

  /** ws is vs and a new chunk for size bytes behind it. */
  predicate Grown(vs: seq<Chunk>, ws: seq<Chunk>, size: int) {
    |ws| == |vs| + 1 && ws == vs + [ws[|vs|]] && size >= 0 && IsNew(ws[|vs|], size)
  }

  /** Fewer than n chunks have space, and not enough of it. */
  ghost predicate Short(vs: seq<Chunk>, lwd: nat, datlen: nat, n: nat) {
    && Shape(vs, lwd) && vs != [] && Settled(vs, lwd)
    && var w := Writable(vs, lwd); |vs| - w < n && SpaceOf(vs, w, |vs| - w) < datlen
  }

  /** The bytes for which a chain is added when the buffer is short of them. */
  ghost function Missing(vs: seq<Chunk>, lwd: nat, datlen: nat): int
    requires Shape(vs, lwd)
  {
    var w := Writable(vs, lwd); datlen - SpaceOf(vs, w, |vs| - w)
  }

  lemma ShortCount(vs: seq<Chunk>, lwd: nat, datlen: nat, n: nat, used: nat, avail: nat)
    requires Short(vs, lwd, datlen, n) && CountIs(vs, lwd, Writable(vs, lwd), used, avail, vs)
    requires avail < datlen && used < n ==> Writable(vs, lwd) + used == |vs|
    ensures avail < datlen && used < n && Missing(vs, lwd, datlen) == datlen - avail
  {
    var w := Writable(vs, lwd);
    SpaceOfMono(vs, w, used, |vs| - w);
  }

  /** The size of the chain that evbuffer_expand_fast_ asks for: none when the first n chains with
      space on have enough; what is missing when there are fewer; otherwise one that replaces
      all empty chains. */
  ghost function Asked(vs: seq<Chunk>, lwd: nat, datlen: nat, n: nat): (size: int)
    requires Shape(vs, lwd)
    ensures size <= datlen
  {
    if vs == [] then datlen else
    RewoundShape(vs, lwd);
    var us := Rewound(vs);
    var w := if us[lwd].Space() == 0 then lwd + 1 else lwd;
    var m := if |us| - w < n then |us| - w else n;
    if SpaceOf(us, w, m) >= datlen then 0
    else if m < n then datlen - SpaceOf(us, w, m)
    else datlen - if vs[lwd].off > 0 then vs[lwd].Space() else 0
  }

  lemma AskedIs(ws: seq<Chunk>, vs: seq<Chunk>, lwd: nat, datlen: nat, n: nat, base: nat, used: nat, avail: nat)
    requires Shape(ws, lwd) && CountIs(vs, lwd, base, used, avail, ws) && used <= n
    requires avail < datlen && used < n ==> base + used == |vs|
    ensures avail >= datlen ==> Asked(ws, lwd, datlen, n) == 0
    ensures avail < datlen && used < n ==> Asked(ws, lwd, datlen, n) == datlen - avail
    ensures avail < datlen && used == n ==>
      Asked(ws, lwd, datlen, n) == datlen - if vs[lwd].off > 0 then vs[lwd].Space() else 0
  {
    RewoundShape(ws, lwd);
    var us := Rewound(ws);
    assert us[lwd] == RewoundChunk(vs[lwd]) == RewoundChunk(ws[lwd]);
    assert forall i :: base <= i < base + used ==> vs[i] == RewoundChunk(vs[i]) == us[i];
    SpaceOfSame(vs, us, base, used);
    var m := if |us| - base < n then |us| - base else n;
    SpaceOfMono(us, base, used, m);
  }

  /** The space of the last chunk with data has been counted. */
  lemma FirstCounted(vs: seq<Chunk>, lwd: nat, base: nat, used: nat, avail: nat, ws: seq<Chunk>)
    requires CountIs(vs, lwd, base, used, avail, ws) && used > 0
    ensures vs[lwd].Space() <= avail
  {
    if base == lwd {
      assert SpaceOf(vs, base, used) == vs[base].Space() + SpaceOf(vs, base + 1, used - 1);
    }
  }

  /** What follows from the count. */
  lemma CountedAll(ws: seq<Chunk>, vs: seq<Chunk>, lwd: nat, datlen: nat, n: nat, used: nat, avail: nat, base: nat)
    returns (size: int)
    requires Shape(ws, lwd) && CountIs(vs, lwd, base, used, avail, ws) && 2 <= n && used <= n
    requires avail < datlen && used < n ==> base + used == |vs|
    ensures size == Asked(ws, lwd, datlen, n)
    ensures size == if avail >= datlen then 0 else if used < n then datlen - avail
      else datlen - if vs[lwd].off > 0 then vs[lwd].Space() else 0
    ensures avail < datlen ==> size > 0
    ensures Rewound(vs) == Rewound(ws)
    ensures Short(ws, lwd, datlen, n) ==>
      avail < datlen && used < n && vs == ws && size == Missing(ws, lwd, datlen)
  {
    size := Asked(ws, lwd, datlen, n);
    AskedIs(ws, vs, lwd, datlen, n, base, used, avail);
    if Short(ws, lwd, datlen, n) {
      ShortCount(ws, lwd, datlen, n, used, avail);
    }
    if used > 0 {
      FirstCounted(vs, lwd, base, used, avail, ws);
    }
  }

  /** evbuffer_expand_fast_: space in at most n chains, without copying. */
  method ExpandFast(buf: Evbuffer, datlen: nat, n: nat) returns (ok: bool)
    requires buf.Valid() && n >= 2
    modifies buf, buf.Repr
    ensures buf.Valid() && fresh(buf.Repr - old(buf.Repr))
    ensures buf.Contents() == old(buf.Contents())
    ensures ok <==> Asked(old(buf.vals), old(buf.lwd), datlen, n) <= BLOCK_MAX
    ensures ok ==> Ready(buf.vals, buf.lwd, datlen, n)
    ensures ok && old(buf.vals) == [] ==> Grown([], buf.vals, datlen)
    ensures ok && old(buf.vals) != [] ==>
      Extended(old(buf.chains), old(buf.vals), buf.chains, buf.vals, Asked(old(buf.vals), old(buf.lwd), datlen, n))
    ensures ok && Short(old(buf.vals), old(buf.lwd), datlen, n) ==>
      Grown(old(buf.vals), buf.vals, Missing(old(buf.vals), old(buf.lwd), datlen))
    ensures unchanged(buf`freezeStart, buf`freezeEnd)
  {
    PredAtIs(buf.chains, |buf.chains|);
    if buf.last == null {
      ok := ExpandNone(buf, datlen, n);
    } else {
      ok := ExpandSome(buf, datlen, n);
    }
  }

  /** The last chunk is new, for size bytes. */
  predicate NewLast(vs: seq<Chunk>, size: int) {
    vs != [] && size >= 0 && IsNew(vs[|vs| - 1], size)
  }

  /** What a buffer that was not empty has become: as it was, but for windows without data, or with a
      new chain at its end. */
  ghost predicate Extended(cs: seq<Chain>, vs: seq<Chunk>, ds: seq<Chain>, ws: seq<Chunk>, size: int) {
    if size == 0 then ds == cs && Rewound(ws) == Rewound(vs) else NewLast(ws, size)
  }

  method ExpandSome(buf: Evbuffer, datlen: nat, n: nat) returns (ok: bool)
    requires buf.Valid() && buf.chains != [] && n >= 2
    modifies buf, buf.Repr
    ensures buf.Valid() && fresh(buf.Repr - old(buf.Repr))
    ensures buf.Contents() == old(buf.Contents())
    ensures ok ==>
      Extended(old(buf.chains), old(buf.vals), buf.chains, buf.vals, Asked(old(buf.vals), old(buf.lwd), datlen, n))
    ensures ok <==> Asked(old(buf.vals), old(buf.lwd), datlen, n) <= BLOCK_MAX
    ensures ok ==> Ready(buf.vals, buf.lwd, datlen, n)
    ensures ok && Short(old(buf.vals), old(buf.lwd), datlen, n) ==>
      Grown(old(buf.vals), buf.vals, Missing(old(buf.vals), old(buf.lwd), datlen))
    ensures unchanged(buf`freezeStart, buf`freezeEnd)
  {
    ghost var vs, lwd := buf.vals, buf.lwd;
    var enough, used, avail := CountSpace(buf, datlen, n);
    ghost var size := CountedAll(vs, buf.vals, lwd, datlen, n, used, avail, Writable(buf.vals, lwd));
    ok := ExpandCounted(buf, datlen, n, enough, used, avail, vs, size);
  }

  /** The end of evbuffer_expand_fast_, when the space has been counted. */
  method ExpandCounted(buf: Evbuffer, datlen: nat, n: nat, enough: bool, used: nat, avail: nat, ghost ws: seq<Chunk>,
      ghost size: int)
    returns (ok: bool)
    requires buf.Valid() && buf.chains != [] && n >= 2 && used <= n && (enough <==> avail >= datlen)
    requires CountIs(buf.vals, buf.lwd, Writable(buf.vals, buf.lwd), used, avail, ws)
    requires !enough && used < n ==> Writable(buf.vals, buf.lwd) + used == |buf.vals|
    requires size == if enough then 0 else if used < n then datlen - avail
      else datlen - if buf.vals[buf.lwd].off > 0 then buf.vals[buf.lwd].Space() else 0
    requires !enough ==> size > 0
    modifies buf, buf.Repr
    ensures buf.Valid() && fresh(buf.Repr - old(buf.Repr))
    ensures buf.Contents() == old(buf.Contents())
    ensures ok <==> size <= BLOCK_MAX
    ensures ok ==> Ready(buf.vals, buf.lwd, datlen, n)
    ensures ok && enough ==> buf.chains == old(buf.chains) && buf.vals == old(buf.vals)
    ensures ok && !enough ==> NewLast(buf.vals, size)
    ensures ok && !enough && used < n ==> Grown(old(buf.vals), buf.vals, size)
    ensures unchanged(buf`freezeStart, buf`freezeEnd)
  {
    if enough {
      ReadyBy(buf.vals, buf.lwd, datlen, n, used);
      ok := true;
    } else if used < n {
      ok := ExpandAtEnd(buf, datlen - avail, used, datlen, n);
    } else {
      ok := ExpandNuke(buf, datlen, n, size);
    }
  }

  /** Adds a chain for the bytes that are missing. */
  method ExpandAtEnd(buf: Evbuffer, missing: nat, ghost used: nat, ghost datlen: nat, ghost n: nat) returns (ok: bool)
    requires buf.Valid() && buf.chains != [] && used < n && missing <= datlen
    requires var w := Writable(buf.vals, buf.lwd);
      && w + used == |buf.vals| && SpaceOf(buf.vals, w, used) + missing == datlen && AllSpacious(buf.vals, w, used)
      && (buf.vals[buf.lwd].off > 0 || w == buf.lwd)
    modifies buf, buf.Repr
    ensures buf.Valid() && fresh(buf.Repr - old(buf.Repr))
    ensures buf.Contents() == old(buf.Contents())
    ensures ok <==> missing <= BLOCK_MAX
    ensures ok ==> Ready(buf.vals, buf.lwd, datlen, n) && Grown(old(buf.vals), buf.vals, missing)
    ensures unchanged(buf`freezeStart, buf`freezeEnd)
  {
    var tmp := NewChain(missing, true);
    if tmp == null {
      return false;
    }
    ghost var v := Chunk(tmp.buffer[..], 0, 0);
    ghost var vs := buf.vals;
    LinkEmpty(buf, tmp, v);
    ReadyAfterSnoc(vs, buf.lwd, v, used, datlen, n, buf.vals);
    ok := true;
  }

  method ExpandNone(buf: Evbuffer, datlen: nat, n: nat) returns (ok: bool)
    requires buf.Valid() && buf.chains == [] && n >= 2
    modifies buf, buf.Repr
    ensures buf.Valid() && fresh(buf.Repr - old(buf.Repr))
    ensures buf.Contents() == old(buf.Contents())
    ensures ok <==> datlen <= BLOCK_MAX
    ensures ok ==> Ready(buf.vals, buf.lwd, datlen, n) && Grown([], buf.vals, datlen)
    ensures unchanged(buf`freezeStart, buf`freezeEnd)
  {
    var c := NewChain(datlen, true);
    if c == null {
      return false;
    }
    ghost var v := Chunk(c.buffer[..], 0, 0);
    InsertFirst(buf, c, v);
    ReadyAlone(v, datlen, n);
    assert [] + [v] == [v];
    ok := true;
  }

  /** Replaces all empty chains by one that is large enough. */
  method ExpandNuke(buf: Evbuffer, datlen: nat, n: nat, ghost size: nat) returns (ok: bool)
    requires buf.Valid() && buf.chains != [] && n >= 2
    requires size + (if buf.vals[buf.lwd].off > 0 then buf.vals[buf.lwd].Space() else 0) == datlen
    modifies buf, buf.Repr
    ensures buf.Valid() && fresh(buf.Repr - old(buf.Repr))
    ensures buf.Contents() == old(buf.Contents())
    ensures ok <==> size <= BLOCK_MAX
    ensures ok ==> Ready(buf.vals, buf.lwd, datlen, n) && NewLast(buf.vals, size)
    ensures unchanged(buf`freezeStart, buf`freezeEnd)
  {
    ghost var k := buf.lwd;
    buf.DerefAt(k);
    buf.ValueAt(k);
    var chain := buf.Deref(buf.lwdPred);
    if chain.off == 0 {
      FlattenEmpty(buf.vals);
      ok := ExpandAnew(buf, datlen, n);
    } else {
      ok := ExpandBehind(buf, chain, datlen - (chain.buffer.Length - chain.misalign - chain.off), datlen, n, k);
    }
  }

  method ExpandAnew(buf: Evbuffer, datlen: nat, n: nat) returns (ok: bool)
    requires buf.Valid() && buf.Contents() == [] && n >= 2
    modifies buf
    ensures buf.Valid() && fresh(buf.Repr - old(buf.Repr))
    ensures buf.Contents() == []
    ensures ok <==> datlen <= BLOCK_MAX
    ensures ok ==> Ready(buf.vals, buf.lwd, datlen, n) && NewLast(buf.vals, datlen)
    ensures unchanged(buf`freezeStart, buf`freezeEnd)
  {
    buf.Zero();
    ok := ExpandNone(buf, datlen, n);
  }

  method ExpandBehind(buf: Evbuffer, chain: Chain, missing: nat, ghost datlen: nat, ghost n: nat, ghost k: nat)
    returns (ok: bool)
    requires buf.Valid() && k < |buf.chains| && k == buf.lwd && chain == buf.chains[k] && buf.vals[k].off > 0 && n >= 2
    requires buf.vals[k].Space() + missing == datlen
    modifies buf, buf.Repr
    ensures buf.Valid() && fresh(buf.Repr - old(buf.Repr))
    ensures buf.Contents() == old(buf.Contents())
    ensures ok <==> missing <= BLOCK_MAX
    ensures ok ==> Ready(buf.vals, buf.lwd, datlen, n) && NewLast(buf.vals, missing)
    ensures unchanged(buf`freezeStart, buf`freezeEnd)
  {
    NukeEmpty(buf, chain, k);
    var tmp := NewChain(missing, true);
    if tmp == null {
      return false;
    }
    ghost var v := Chunk(tmp.buffer[..], 0, 0);
    ghost var vs := buf.vals;
    LinkEmpty(buf, tmp, v);
    ReadyAfterNuke(vs, k, v, datlen, n, buf.vals);
    ok := true;
  }

  /** struct evbuffer_iovec: len bytes of a block from base on. */
  datatype Iovec = Iovec(block: array<byte>, base: nat, len: nat)

  /** v is the space of the chain at position k, or the first part of it. */
  predicate IsSpaceIn(cs: seq<Chain>, vs: seq<Chunk>, v: Iovec, k: nat) {
    && k < |cs| && k < |vs| && vs[k].Wf()
    && v.block == cs[k].buffer && v.base == vs[k].misalign + vs[k].off && v.len <= vs[k].Space()
  }

  ghost predicate IsSpaceOf(buf: Evbuffer, v: Iovec, k: nat)
    reads buf`chains, buf`vals
  {
    IsSpaceIn(buf.chains, buf.vals, v, k)
  }

  /** Each vector is the space, or a first part of it, of the next chain from position f on. */
  predicate MatchIn(cs: seq<Chain>, vs: seq<Chunk>, vecs: seq<Iovec>, f: nat) {
    f + |vecs| <= |cs| && forall i :: 0 <= i < |vecs| ==> IsSpaceIn(cs, vs, vecs[i], f + i)
  }

  ghost predicate Matches(buf: Evbuffer, vecs: seq<Iovec>, f: nat)
    reads buf`chains, buf`vals
  {
    MatchIn(buf.chains, buf.vals, vecs, f)
  }

  predicate Positive(vecs: seq<Iovec>) {
    forall i :: 0 <= i < |vecs| ==> vecs[i].len > 0
  }

  function TotalLen(vecs: seq<Iovec>): nat {
    if vecs == [] then 0 else TotalLen(vecs[..|vecs| - 1]) + vecs[|vecs| - 1].len
  }

  lemma {:induction false} SpaceOfMono(vs: seq<Chunk>, k: nat, m: nat, n: nat)
    requires AllWf(vs) && m <= n && k + n <= |vs|
    ensures SpaceOf(vs, k, m) <= SpaceOf(vs, k, n)
    decreases n - m
  {
    if m < n {
      SpaceOfSnoc(vs, k, m);
      SpaceOfMono(vs, k, m + 1, n);
    }
  }

  /** While less than the promised space has been seen there is another chain, and it has space. */
  lemma MoreToCome(vs: seq<Chunk>, lwd: nat, howmuch: nat, n: nat, i: nat)
    requires Ready(vs, lwd, howmuch, n)
    requires Writable(vs, lwd) + i <= |vs| && SpaceOf(vs, Writable(vs, lwd), i) < howmuch
    ensures Writable(vs, lwd) + i < |vs| && i < n && vs[Writable(vs, lwd) + i].Space() > 0
  {
    var w := Writable(vs, lwd);
    var m: nat :| m <= n && ReadyIn(vs, w, howmuch, m);
    if i >= m {
      SpaceOfMono(vs, w, m, i);
    }
  }

  /** The vectors are as long as the spaces of the chunks from position w on; the last may have been cut. */
  predicate Spans(vecs: seq<Iovec>, vs: seq<Chunk>, w: nat, cut: bool) {
    && w + |vecs| <= |vs| && AllWf(vs)
    && forall i :: 0 <= i < |vecs| ==> vecs[i].len == vs[w + i].Space() || (cut && i == |vecs| - 1)
  }

  /** All vectors but the last are too short. */
  predicate NoMore(vecs: seq<Iovec>, howmuch: nat) {
    vecs != [] ==> TotalLen(vecs[..|vecs| - 1]) < howmuch
  }

  lemma SpansNext(vecs: seq<Iovec>, vs: seq<Chunk>, w: nat, k: nat, v: Iovec, soFar: nat, howmuch: nat, exact: bool,
      more: seq<Iovec>)
    requires Spans(vecs, vs, w, false) && k == w + |vecs| < |vs| && more == vecs + [v] && soFar < howmuch
    requires v.len == (if vs[k].Space() > howmuch - soFar && exact then howmuch - soFar else vs[k].Space())
    ensures Spans(more, vs, w, exact && soFar + v.len == howmuch)
  {
  }

  lemma NoMoreNext(vecs: seq<Iovec>, v: Iovec, howmuch: nat, more: seq<Iovec>)
    requires TotalLen(vecs) < howmuch && more == vecs + [v]
    ensures NoMore(more, howmuch)
  {
    assert more[..|more| - 1] == vecs;
  }

  /** evbuffer_read_setup_vecs_: the regions to read howmuch bytes into. */
  method ReadSetupVecs(buf: Evbuffer, howmuch: nat, n: nat, exact: bool) returns (vecs: seq<Iovec>)
    requires buf.Valid() && Ready(buf.vals, buf.lwd, howmuch, n)
    ensures |vecs| <= n && Matches(buf, vecs, Writable(buf.vals, buf.lwd)) && Positive(vecs)
    ensures forall i, j :: 0 <= i < j < |vecs| ==> vecs[i].block != vecs[j].block
    ensures TotalLen(vecs) >= howmuch && (exact ==> TotalLen(vecs) == howmuch)
    ensures Spans(vecs, buf.vals, Writable(buf.vals, buf.lwd), exact) && NoMore(vecs, howmuch)
  {
    ghost var w, k;
    var pred, chain;
    pred, chain, w := FirstWithSpace(buf);
    var soFar: nat, i: nat := 0, 0;
    vecs, k := [], w;
    while i < n && soFar < howmuch
      invariant i == |vecs| && k == w + i && Collecting(buf, vecs, w, soFar, howmuch, n, exact)
      invariant chain == if k < |buf.chains| then buf.chains[k] else null
      decreases n - i
    {
      ghost var next := k + 1;
      ReadingMore(buf, vecs, w, soFar, howmuch, n, exact, k, next);
      var v := Region(chain, howmuch - soFar, exact);
      vecs, soFar, chain, i, k := vecs + [v], soFar + v.len, chain.next, i + 1, next;
    }
    ReadingDone(buf, vecs, w, soFar, howmuch, n, exact);
  }

  /** The space of a chain, or what is wanted of it. */
  function Region(chain: Chain, want: nat, exact: bool): Iovec
    requires chain.misalign + chain.off <= chain.buffer.Length
    reads chain
  {
    var avail := chain.buffer.Length - chain.misalign - chain.off;
    Iovec(chain.buffer, chain.misalign + chain.off, if avail > want && exact then want else avail)
  }

  /** The regions found so far by evbuffer_read_setup_vecs_. */
  ghost predicate Reading(buf: Evbuffer, vecs: seq<Iovec>, w: nat, soFar: nat, howmuch: nat, n: nat, exact: bool)
    reads buf`chains, buf`vals
  {
    && AllWf(buf.vals) && |vecs| <= n && w + |vecs| <= |buf.chains| == |buf.vals|
    && Matches(buf, vecs, w) && Positive(vecs)
    && soFar == TotalLen(vecs) && (exact ==> soFar <= howmuch)
    && (soFar < howmuch || !exact ==> soFar == SpaceOf(buf.vals, w, |vecs|))
  }

  lemma ReadingNext(buf: Evbuffer, vecs: seq<Iovec>, w: nat, soFar: nat, howmuch: nat, n: nat, exact: bool, k: nat,
      next: nat)
    requires buf.Valid() && Ready(buf.vals, buf.lwd, howmuch, n) && w == Writable(buf.vals, buf.lwd)
      && k == w + |vecs| && next == k + 1
    requires Reading(buf, vecs, w, soFar, howmuch, n, exact) && |vecs| < n && soFar < howmuch
    ensures k < |buf.chains| && buf.chains[k].misalign + buf.chains[k].off <= buf.chains[k].buffer.Length
    ensures var v := Region(buf.chains[k], howmuch - soFar, exact);
      && Reading(buf, vecs + [v], w, soFar + v.len, howmuch, n, exact) && k < |buf.vals| && buf.vals[k].Wf()
      && v.len == if buf.vals[k].Space() > howmuch - soFar && exact then howmuch - soFar else buf.vals[k].Space()
    ensures buf.chains[k].next == if next < |buf.chains| then buf.chains[next] else null
  {
    MoreToCome(buf.vals, buf.lwd, howmuch, n, |vecs|);
    buf.ValueAt(k);
    buf.NextAt(k);
    var v := Region(buf.chains[k], howmuch - soFar, exact);
    ReadingStep(buf, vecs, w, soFar, howmuch, n, exact, v, k, vecs + [v], soFar + v.len);
  }

  ghost predicate Collecting(buf: Evbuffer, vecs: seq<Iovec>, w: nat, soFar: nat, howmuch: nat, n: nat, exact: bool)
    reads buf`chains, buf`vals
  {
    && Reading(buf, vecs, w, soFar, howmuch, n, exact)
    && Spans(vecs, buf.vals, w, exact && soFar == howmuch) && NoMore(vecs, howmuch)
  }

  lemma ReadingMore(buf: Evbuffer, vecs: seq<Iovec>, w: nat, soFar: nat, howmuch: nat, n: nat, exact: bool, k: nat,
      next: nat)
    requires buf.Valid() && Ready(buf.vals, buf.lwd, howmuch, n) && w == Writable(buf.vals, buf.lwd)
      && k == w + |vecs| && next == k + 1
    requires Collecting(buf, vecs, w, soFar, howmuch, n, exact) && |vecs| < n && soFar < howmuch
    ensures k < |buf.chains| && buf.chains[k].misalign + buf.chains[k].off <= buf.chains[k].buffer.Length
    ensures var v := Region(buf.chains[k], howmuch - soFar, exact);
      Collecting(buf, vecs + [v], w, soFar + v.len, howmuch, n, exact)
    ensures buf.chains[k].next == if next < |buf.chains| then buf.chains[next] else null
  {
    ReadingNext(buf, vecs, w, soFar, howmuch, n, exact, k, next);
    var v := Region(buf.chains[k], howmuch - soFar, exact);
    SpansNext(vecs, buf.vals, w, k, v, soFar, howmuch, exact, vecs + [v]);
    NoMoreNext(vecs, v, howmuch, vecs + [v]);
  }

  lemma ReadingDone(buf: Evbuffer, vecs: seq<Iovec>, w: nat, soFar: nat, howmuch: nat, n: nat, exact: bool)
    requires buf.Valid() && Ready(buf.vals, buf.lwd, howmuch, n) && w == Writable(buf.vals, buf.lwd)
    requires Collecting(buf, vecs, w, soFar, howmuch, n, exact) && (|vecs| == n || soFar >= howmuch)
    ensures Spans(vecs, buf.vals, Writable(buf.vals, buf.lwd), exact) && NoMore(vecs, howmuch)
    ensures |vecs| <= n && Matches(buf, vecs, Writable(buf.vals, buf.lwd)) && Positive(vecs)
    ensures TotalLen(vecs) >= howmuch && (exact ==> TotalLen(vecs) == howmuch)
    ensures !exact ==> TotalLen(vecs) == SpaceOf(buf.vals, Writable(buf.vals, buf.lwd), |vecs|)
    ensures forall i, j :: 0 <= i < j < |vecs| ==> vecs[i].block != vecs[j].block
  {
    if soFar < howmuch {
      MoreToCome(buf.vals, buf.lwd, howmuch, n, |vecs|);
    }
    BlocksDiffer(buf, vecs, w);
  }

  lemma ReadingStep(buf: Evbuffer, vecs: seq<Iovec>, w: nat, soFar: nat, howmuch: nat, n: nat, exact: bool, v: Iovec,
      k: nat, more: seq<Iovec>, total: nat)
    requires Reading(buf, vecs, w, soFar, howmuch, n, exact) && |vecs| < n && soFar < howmuch
    requires k == w + |vecs| && more == vecs + [v] && total == soFar + v.len
    requires IsSpaceOf(buf, v, k) && buf.vals[k].Space() > 0
    requires v.len == if buf.vals[k].Space() > howmuch - soFar && exact then howmuch - soFar else buf.vals[k].Space()
    ensures Reading(buf, more, w, total, howmuch, n, exact)
  {
    SpaceOfSnoc(buf.vals, w, |vecs|);
    assert more[..|vecs|] == vecs;
    forall i | 0 <= i < |more|
      ensures IsSpaceOf(buf, more[i], w + i) && more[i].len > 0
    {
      if i < |vecs| {
        assert more[i] == vecs[i] && IsSpaceOf(buf, vecs[i], w + i);
      }
    }
  }

  lemma BlocksDiffer(buf: Evbuffer, vecs: seq<Iovec>, w: nat)
    requires buf.Spine() && Matches(buf, vecs, w)
    ensures forall i, j :: 0 <= i < j < |vecs| ==> vecs[i].block != vecs[j].block
  {
    forall i, j | 0 <= i < j < |vecs|
      ensures vecs[i].block != vecs[j].block
    {
      OwnedAt(buf.chains, buf.Repr, w + i);
    }
  }

  /** evbuffer_reserve_space; !ok is the source's -1. */
  method ReserveSpace(buf: Evbuffer, size: nat, n: int) returns (ok: bool, vecs: seq<Iovec>, ghost k: nat)
    requires buf.Valid()
    modifies buf, buf.Repr
    ensures buf.Valid() && fresh(buf.Repr - old(buf.Repr))
    ensures buf.Contents() == old(buf.Contents())
    ensures buf.freezeEnd || n < 1 ==> !ok && unchanged(buf)
    ensures !buf.freezeEnd && n > 1 ==> (ok <==> Asked(old(buf.vals), old(buf.lwd), size, n) <= BLOCK_MAX)
    ensures !buf.freezeEnd && n == 1 ==>
      (ok <==> !NoRoom(RoomFor(old(buf.vals), old(buf.lwd), size), old(buf.vals), size))
    ensures ok ==> |vecs| <= n && Matches(buf, vecs, k) && TotalLen(vecs) >= size
    ensures ok && n > 1 ==> ReservedMany(buf, vecs, old(buf.vals), old(buf.lwd), k, size, n)
    ensures ok && n == 1 ==> ReservedOne(buf, vecs, old(buf.vals), old(buf.lwd), k, size)
    ensures unchanged(buf`freezeStart, buf`freezeEnd)
  {
    ok, vecs, k := false, [], 0;
    if buf.freezeEnd || n < 1 {
      return;
    }
    if n == 1 {
      ok, vecs, k := ReserveOne(buf, size);
    } else {
      ok, vecs, k := ReserveMany(buf, size, n);
    }
  }

  /** The vectors of a reservation in several chains are the spaces of chains from the first one with
      space on, all behind data, and the buffer has grown by one chain if it was empty or short of space. */
  ghost predicate ReservedMany(buf: Evbuffer, vecs: seq<Iovec>, vs: seq<Chunk>, lwd: nat, k: nat, size: nat, n: nat)
    requires Shape(vs, lwd)
    reads buf`vals, buf`lwd
  {
    && Shape(buf.vals, buf.lwd) && buf.vals != []
    && Positive(vecs) && k == Writable(buf.vals, buf.lwd) && (k == buf.lwd || buf.vals[buf.lwd].off > 0)
    && Spans(vecs, buf.vals, k, false) && NoMore(vecs, size)
    && (vs == [] ==> Grown([], buf.vals, size))
    && (Short(vs, lwd, size, n) ==> Grown(vs, buf.vals, Missing(vs, lwd, size)))
  }

  method ReserveMany(buf: Evbuffer, size: nat, n: nat) returns (ok: bool, vecs: seq<Iovec>, ghost k: nat)
    requires buf.Valid() && n >= 2
    modifies buf, buf.Repr
    ensures buf.Valid() && fresh(buf.Repr - old(buf.Repr))
    ensures buf.Contents() == old(buf.Contents())
    ensures ok <==> Asked(old(buf.vals), old(buf.lwd), size, n) <= BLOCK_MAX
    ensures ok ==> |vecs| <= n && Matches(buf, vecs, k) && TotalLen(vecs) >= size
    ensures ok ==> ReservedMany(buf, vecs, old(buf.vals), old(buf.lwd), k, size, n)
    ensures unchanged(buf`freezeStart, buf`freezeEnd)
  {
    vecs, k := [], 0;
    ok := ExpandFast(buf, size, n);
    if ok {
      vecs := ReadSetupVecs(buf, size, n, false);
      k := Writable(buf.vals, buf.lwd);
    }
  }

  /** The one vector of a reservation is the space of the chain that was found for it. */
  ghost predicate ReservedOne(buf: Evbuffer, vecs: seq<Iovec>, vs: seq<Chunk>, lwd: nat, k: nat, size: nat)
    requires Shape(vs, lwd)
    reads buf`chains, buf`vals, buf`lwd
  {
    && |vecs| == 1 && IsSpaceOf(buf, vecs[0], k) && vecs[0].len == buf.vals[k].Space()
    && RoomFound(buf, buf.chains[k], RoomFor(vs, lwd, size), vs, lwd, k, size)
  }

  method ReserveOne(buf: Evbuffer, size: nat) returns (ok: bool, vecs: seq<Iovec>, ghost k: nat)
    requires buf.Valid()
    modifies buf, buf.Repr
    ensures buf.Valid() && fresh(buf.Repr - old(buf.Repr))
    ensures buf.Contents() == old(buf.Contents())
    ensures ok <==> !NoRoom(RoomFor(old(buf.vals), old(buf.lwd), size), old(buf.vals), size)
    ensures ok ==>
      ReservedOne(buf, vecs, old(buf.vals), old(buf.lwd), k, size) && Matches(buf, vecs, k) && TotalLen(vecs) >= size
    ensures unchanged(buf`freezeStart, buf`freezeEnd)
  {
    var chain;
    chain, k := ExpandSinglechain(buf, size);
    ok, vecs := chain != null, [];
    if chain != null {
      buf.ValueAt(k);
      var v := Region(chain, 0, false);
      OneVec(buf, v, k);
      vecs := [v];
    }
  }

  lemma OneVec(buf: Evbuffer, v: Iovec, k: nat)
    requires IsSpaceOf(buf, v, k)
    ensures Matches(buf, [v], k) && TotalLen([v]) == v.len
  {
    assert [v][..0] == [];
    assert IsSpaceOf(buf, [v][0], k + 0);
  }
}
