/** The evbuffer of buffer.c: a singly linked list of chains, each a block of
    memory of which a window holds data. */
module Evbuffers {
  import opened Chunks

  class Chain {
    const buffer: array<byte>
    var next: Chain?
    var misalign: nat
    var off: nat

    constructor (len: nat)
      ensures fresh(buffer) && buffer.Length == len
      ensures next == null && misalign == 0 && off == 0
    {
      buffer := new byte[len](_ => 0);
      next := null;
      misalign := 0;
      off := 0;
    }

    /** n bytes of the window from position p on. */
    function Bytes(p: nat, n: nat): (d: seq<byte>)
      requires misalign + p + n <= buffer.Length
      reads this, buffer
      ensures |d| == n
    {
      buffer[misalign + p..misalign + p + n]
    }
  }

  /** The chains and their blocks lie in repr, and no block occurs twice. */
  ghost predicate Owned(cs: seq<Chain>, repr: set<object>) {
    cs != [] ==>
      && cs[0] in repr && cs[0].buffer in repr
      && (forall c :: c in cs[1..] ==> c.buffer != cs[0].buffer)
      && Owned(cs[1..], repr)
  }

  lemma {:induction false} OwnedAt(cs: seq<Chain>, repr: set<object>, k: nat)
    requires Owned(cs, repr) && k < |cs|
    ensures cs[k] in repr && cs[k].buffer in repr
    ensures forall i :: 0 <= i < |cs| && i != k ==> cs[i].buffer != cs[k].buffer
  {
    if k > 0 {
      OwnedAt(cs[1..], repr, k - 1);
      forall i | 0 <= i < |cs| && i != k
        ensures cs[i].buffer != cs[k].buffer
      {
        if i > 0 {
          assert cs[i] == cs[1..][i - 1];
        }
      }
    } else {
      forall i | 0 < i < |cs|
        ensures cs[i].buffer != cs[0].buffer
      {
        assert cs[i] in cs[1..];
      }
    }
  }

  lemma OwnedAll(cs: seq<Chain>, repr: set<object>)
    requires Owned(cs, repr)
    ensures forall i :: 0 <= i < |cs| ==> cs[i] in repr && cs[i].buffer in repr
  {
  }

  lemma {:induction false} OwnedSlice(cs: seq<Chain>, repr: set<object>, k: nat)
    requires Owned(cs, repr) && k <= |cs|
    ensures Owned(cs[..k], repr) && Owned(cs[k..], repr)
  {
    if k > 0 {
      OwnedSlice(cs[1..], repr, k - 1);
      assert cs[..k][1..] == cs[1..][..k - 1];
      assert cs[k..] == cs[1..][k - 1..];
    } else {
      assert cs[k..] == cs;
    }
  }

  lemma {:induction false} OwnedMore(cs: seq<Chain>, repr: set<object>, more: set<object>)
    requires Owned(cs, repr) && repr <= more
    ensures Owned(cs, more)
  {
    if cs != [] {
      OwnedMore(cs[1..], repr, more);
    }
  }

  lemma {:induction false} OwnedSnoc(cs: seq<Chain>, repr: set<object>, c: Chain)
    requires Owned(cs, repr) && c in repr && c.buffer in repr
    requires forall d :: d in cs ==> d.buffer != c.buffer
    ensures Owned(cs + [c], repr)
  {
    if cs != [] {
      OwnedSnoc(cs[1..], repr, c);
      assert (cs + [c])[1..] == cs[1..] + [c];
    } else {
      assert (cs + [c])[1..] == [];
    }
  }

  lemma {:induction false} OwnedUpdate(cs: seq<Chain>, repr: set<object>, k: nat, c: Chain)
    requires Owned(cs, repr) && k < |cs| && c in repr && c.buffer in repr
    requires forall d :: d in cs ==> d.buffer != c.buffer
    ensures Owned(cs[k := c], repr)
  {
    if k == 0 {
      assert cs[0 := c][1..] == cs[1..];
    } else {
      OwnedUpdate(cs[1..], repr, k - 1, c);
      assert cs[k := c][1..] == cs[1..][k - 1 := c];
    }
  }

  lemma {:induction false} OwnedAppend(xs: seq<Chain>, r: set<object>, ys: seq<Chain>, q: set<object>)
    requires Owned(xs, r) && Owned(ys, q) && r !! q
    ensures Owned(xs + ys, r + q)
  {
    if xs == [] {
      assert xs + ys == ys;
      OwnedMore(ys, q, r + q);
    } else {
      OwnedAppend(xs[1..], r, ys, q);
      OwnedAll(ys, q);
      TailOfAppend(xs, ys);
    }
  }

  /** The chains of a list and their blocks. */
  ghost function Footprint(cs: seq<Chain>): set<object> {
    (set c: Chain | c in cs :: c as object) + (set c: Chain | c in cs :: c.buffer as object)
  }

  /** A list without its first k chains owns what is left. */
  lemma {:induction false} OwnedRest(cs: seq<Chain>, repr: set<object>, gone: set<object>)
    requires Owned(cs, repr) && forall c :: c in cs ==> c !in gone && c.buffer !in gone
    ensures Owned(cs, repr - gone)
  {
    if cs != [] {
      OwnedRest(cs[1..], repr, gone);
    }
  }

  lemma {:induction false} OwnedTight(cs: seq<Chain>, repr: set<object>)
    requires Owned(cs, repr)
    ensures Owned(cs, Footprint(cs)) && Footprint(cs) <= repr
  {
    OwnedAll(cs, repr);
    OwnedWithin(cs, repr, Footprint(cs));
  }

  lemma {:induction false} OwnedWithin(cs: seq<Chain>, repr: set<object>, less: set<object>)
    requires Owned(cs, repr) && forall c :: c in cs ==> c in less && c.buffer in less
    ensures Owned(cs, less)
  {
    if cs != [] {
      OwnedWithin(cs[1..], repr, less);
    }
  }

  /** The first k chains share nothing with the others. */
  lemma OwnedSplit(cs: seq<Chain>, repr: set<object>, k: nat)
    requires Owned(cs, repr) && k <= |cs|
    ensures Owned(cs[..k], Footprint(cs[..k])) && Footprint(cs[..k]) <= repr
    ensures Owned(cs[k..], repr - Footprint(cs[..k]))
  {
    OwnedSlice(cs, repr, k);
    OwnedTight(cs[..k], repr);
    forall c: Chain | c in cs[k..]
      ensures c !in Footprint(cs[..k]) && c.buffer !in Footprint(cs[..k])
    {
      var i :| k <= i < |cs| && cs[i] == c;
      OwnedAt(cs, repr, i);
    }
    OwnedRest(cs[k..], repr, Footprint(cs[..k]));
  }

  /** c is a chain holding v that buf does not know about. */
  ghost predicate Unowned(buf: Evbuffer, c: Chain, v: Chunk)
    reads buf`Repr, c, c.buffer
  {
    && c !in buf.Repr && c.buffer !in buf.Repr && buf as object != c
    && c.next == null && v == Chunk(c.buffer[..], c.misalign, c.off)
  }

  /** The chain before position k; null when there is none. */
  ghost function PredAt(cs: seq<Chain>, k: nat): Chain?
    requires k <= |cs|
  {
    if k == 0 then null else if k == 1 then cs[0] else PredAt(cs[1..], k - 1)
  }

  lemma {:induction false} PredAtIs(cs: seq<Chain>, k: nat)
    requires k <= |cs|
    ensures k == 0 ==> PredAt(cs, k) == null
    ensures k > 0 ==> PredAt(cs, k) == cs[k - 1]
  {
    if k > 1 {
      PredAtIs(cs[1..], k - 1);
    }
  }

  lemma PredAtPush(c: Chain, cs: seq<Chain>, k: nat)
    requires k <= |cs|
    ensures PredAt([c] + cs, k + 1) == if PredAt(cs, k) == null then c else PredAt(cs, k)
  {
    PredAtIs([c] + cs, k + 1);
    PredAtIs(cs, k);
  }

  /** v is what chain c holds. */
  ghost predicate Holds(c: Chain, v: Chunk)
    reads c`misalign, c`off, c.buffer
  {
    v == Chunk(c.buffer[..], c.misalign, c.off)
  }

  /** d is c with data in its memory from place at on. */
  predicate Overwrites(c: Chunk, d: Chunk, at: nat, data: seq<byte>) {
    && d.misalign == c.misalign && d.off == c.off && |d.mem| == |c.mem| && at + |data| <= |d.mem|
    && (forall i :: 0 <= i < |data| ==> d.mem[at + i] == data[i])
    && (forall i :: 0 <= i < |d.mem| && !(at <= i < at + |data|) ==> d.mem[i] == c.mem[i])
  }

  /** The next pointers spell out cs, and the last one is after. */
  ghost predicate Linked(cs: seq<Chain>, after: Chain?)
    reads cs
  {
    forall i {:trigger cs[i].next} :: 0 <= i < |cs| ==> cs[i].next == if i + 1 < |cs| then cs[i + 1] else after
  }

  ghost predicate Held(cs: seq<Chain>, vs: seq<Chunk>)
    reads cs, set c | c in cs :: c.buffer
  {
    forall i {:trigger Holds(cs[i], vs[i])} :: 0 <= i < |cs| && i < |vs| ==> Holds(cs[i], vs[i])
  }

  /** A list whose last next pointer is the head of another list. */
  lemma LinkedJoin(xs: seq<Chain>, vs: seq<Chunk>, ys: seq<Chain>, ws: seq<Chunk>, zs: seq<Chain>, us: seq<Chunk>)
    requires |xs| == |vs| && |ys| == |ws|
    requires Linked(xs, if ys == [] then null else ys[0]) && Linked(ys, null) && Held(xs, vs) && Held(ys, ws)
    requires zs == xs + ys && us == vs + ws
    ensures Linked(zs, null) && Held(zs, us)
    ensures zs != [] ==> zs[0] == if xs != [] then xs[0] else ys[0]
  {
    forall i {:trigger zs[i].next} | 0 <= i < |zs|
      ensures zs[i].next == if i + 1 < |zs| then zs[i + 1] else null
    {
      if i < |xs| {
        assert zs[i] == xs[i];
      } else {
        var j := i - |xs|;
        assert zs[i] == ys[j] && ys[j].next == if j + 1 < |ys| then ys[j + 1] else null;
      }
    }
    forall i | 0 <= i < |zs|
      ensures Holds(zs[i], us[i])
    {
      if i < |xs| {
        assert zs[i] == xs[i] && us[i] == vs[i] && Holds(xs[i], vs[i]);
      } else {
        var j := i - |xs|;
        assert zs[i] == ys[j] && us[i] == ws[j] && Holds(ys[j], ws[j]);
      }
    }
  }

  /** A list in which c has taken the place of the chain at position k. */
  lemma LinkedSwap(cs: seq<Chain>, vs: seq<Chunk>, k: nat, c: Chain, v: Chunk, ds: seq<Chain>, us: seq<Chunk>)
    requires k < |cs| == |vs| && ds == cs[k := c] && us == vs[k := v]
    requires forall i {:trigger cs[i].next} :: 0 <= i < |cs| && i != k ==>
      cs[i].next == if i + 1 == k then c else if i + 1 < |cs| then cs[i + 1] else null
    requires c.next == if k + 1 < |cs| then cs[k + 1] else null
    requires Holds(c, v) && forall i {:trigger Holds(cs[i], vs[i])} :: 0 <= i < |cs| && i != k ==> Holds(cs[i], vs[i])
    ensures Linked(ds, null) && Held(ds, us)
  {
    forall i {:trigger ds[i].next} | 0 <= i < |ds|
      ensures ds[i].next == if i + 1 < |ds| then ds[i + 1] else null
    {
      if i != k {
        assert ds[i] == cs[i] && cs[i].next == if i + 1 == k then c else if i + 1 < |cs| then cs[i + 1] else null;
      }
    }
    forall i | 0 <= i < |ds|
      ensures Holds(ds[i], us[i])
    {
      if i != k {
        assert ds[i] == cs[i] && us[i] == vs[i] && Holds(cs[i], vs[i]);
      }
    }
  }

  /** A list of chains that belongs to no buffer. */
  ghost predicate Loose(head: Chain?, cs: seq<Chain>, vs: seq<Chunk>)
    reads cs, set c | c in cs :: c.buffer
  {
    && Owned(cs, Footprint(cs))
    && head == (if cs == [] then null else cs[0])
    && Linked(cs, null) && |vs| == |cs| && Held(cs, vs)
  }

  class Evbuffer {
    var first: Chain?
    var last: Chain?
    /** The chain whose next pointer last_with_datap is; null stands for &first. */
    var lwdPred: Chain?
    var totalLen: nat
    var freezeStart: bool
    var freezeEnd: bool

    /** The list from first, its values, and the position of the last chain with data. */
    ghost var chains: seq<Chain>
    ghost var vals: seq<Chunk>
    ghost var lwd: nat
    ghost var Repr: set<object>

    /** first and the next pointers spell out chains; no chain or block occurs twice. */
    ghost predicate Spine()
      reads this`first, this`chains, this`vals, this`Repr, chains, set c | c in chains :: c.buffer
    {
      && this !in Repr
      && Owned(chains, Repr)
      && first == (if chains == [] then null else chains[0])
      && Linked(chains, null) && |vals| == |chains| && Held(chains, vals)
    }

    ghost predicate LastOk()
      reads this`last, this`chains
    {
      last == PredAt(chains, |chains|)
    }

    ghost predicate LwdOk()
      reads this`chains, this`lwd, this`lwdPred
    {
      && lwd <= |chains|
      && lwdPred == PredAt(chains, lwd)
    }

    ghost predicate Valid()
      reads this, chains, set c | c in chains :: c.buffer
    {
      && Spine() && LastOk() && LwdOk() && Shape(vals, lwd)
      && totalLen == |Contents()|
    }

    ghost function Contents(): seq<byte>
      reads this`vals
    {
      Flatten(vals)
    }

    /** What a pointer-to-pointer denotes. */
    function Deref(pred: Chain?): Chain?
      reads this, pred
    {
      if pred == null then first else pred.next
    }

    lemma ValueAt(k: nat)
      requires Spine() && k < |chains|
      ensures vals[k] == Chunk(chains[k].buffer[..], chains[k].misalign, chains[k].off)
    {
      assert Holds(chains[k], vals[k]);
    }

    lemma NextAt(k: nat)
      requires Spine() && k < |chains|
      ensures chains[k].next == if k + 1 < |chains| then chains[k + 1] else null
    {
    }

    lemma ReadAt(c: Chain, k: nat, p: nat, n: nat)
      requires Spine() && k < |chains| && c == chains[k] && vals[k].Wf() && p + n <= vals[k].off
      ensures c.misalign + p + n <= c.buffer.Length && c.Bytes(p, n) == vals[k].Data()[p..p + n]
    {
      ValueAt(k);
    }

    lemma DerefAt(k: nat)
      requires Spine() && k <= |chains|
      ensures Deref(PredAt(chains, k)) == if k < |chains| then chains[k] else null
    {
      PredAtIs(chains, k);
      if 0 < k {
        assert chains[k - 1].next == if k < |chains| then chains[k] else null;
      }
    }

    constructor ()
      ensures Valid() && Contents() == [] && chains == [] && fresh(Repr)
      ensures !freezeStart && !freezeEnd
    {
      first, last, lwdPred := null, null, null;
      totalLen := 0;
      freezeStart, freezeEnd := false, false;
      chains, vals, lwd, Repr := [], [], 0, {};
    }

    /** *pred = NULL */
    method Cut(pred: Chain?, ghost k: nat)
      requires Spine() && k <= |chains|
      requires pred == PredAt(chains, k)
      modifies this`first, this`chains, this`vals, Repr
      ensures Spine() && chains == old(chains)[..k] && vals == old(vals)[..k]
      ensures unchanged(`last, `lwdPred, `totalLen, `lwd, `freezeStart, `freezeEnd)
    {
      PredAtIs(chains, k);
      OwnedSlice(chains, Repr, k);
      if k > 0 {
        OwnedAt(chains, Repr, k - 1);
      }
      if pred == null {
        first := null;
      } else {
        pred.next := null;
      }
      chains, vals := chains[..k], vals[..k];
    }

    /** *pred = c, where pred is the end of the list */
    method Link(pred: Chain?, c: Chain, ghost v: Chunk)
      requires Spine() && Unowned(this, c, v)
      requires pred == PredAt(chains, |chains|)
      modifies this`first, this`chains, this`vals, this`Repr, Repr
      ensures Spine() && Repr == old(Repr) + {c, c.buffer}
      ensures chains == old(chains) + [c] && vals == old(vals) + [v]
      ensures unchanged(`last, `lwdPred, `totalLen, `lwd, `freezeStart, `freezeEnd)
    {
      PredAtIs(chains, |chains|);
      OwnedAll(chains, Repr);
      OwnedMore(chains, Repr, Repr + {c, c.buffer});
      OwnedSnoc(chains, Repr + {c, c.buffer}, c);
      if chains != [] {
        OwnedAt(chains, Repr, |chains| - 1);
      }
      if pred == null {
        first := c;
      } else {
        pred.next := c;
      }
      chains, vals := chains + [c], vals + [v];
      Repr := Repr + {c, c.buffer};
    }

    /** c->next = first; first = c */
    method PushFront(c: Chain, ghost v: Chunk)
      requires Spine() && Unowned(this, c, v)
      modifies this`first, this`chains, this`vals, this`Repr, c`next
      ensures Spine() && Repr == old(Repr) + {c, c.buffer}
      ensures chains == [c] + old(chains) && vals == [v] + old(vals)
      ensures unchanged(`last, `lwdPred, `totalLen, `lwd, `freezeStart, `freezeEnd)
    {
      OwnedAll(chains, Repr);
      OwnedMore(chains, Repr, Repr + {c, c.buffer});
      assert ([c] + chains)[1..] == chains;
      c.next := first;
      first := c;
      chains, vals := [c] + chains, [v] + vals;
      Repr := Repr + {c, c.buffer};
    }

    /** first = c, dropping the k chains before it */
    method DropFront(c: Chain?, ghost k: nat)
      requires Spine() && k <= |chains|
      requires c == if k < |chains| then chains[k] else null
      modifies this`first, this`chains, this`vals
      ensures Spine() && chains == old(chains)[k..] && vals == old(vals)[k..]
      ensures unchanged(`last, `lwdPred, `totalLen, `lwd, `freezeStart, `freezeEnd)
    {
      OwnedSlice(chains, Repr, k);
      first := c;
      chains, vals := chains[k..], vals[k..];
    }

    /** first->next = c, dropping the chains between them */
    method SkipTo(c: Chain?, ghost k: nat)
      requires Spine() && 0 < k <= |chains|
      requires c == if k < |chains| then chains[k] else null
      modifies this`chains, this`vals, Repr
      ensures Spine() && chains == [old(chains)[0]] + old(chains)[k..] && vals == [old(vals)[0]] + old(vals)[k..]
      ensures unchanged(`last, `lwdPred, `totalLen, `lwd, `freezeStart, `freezeEnd, `first, `Repr)
    {
      OwnedSlice(chains, Repr, k);
      OwnedAt(chains, Repr, 0);
      assert ([chains[0]] + chains[k..])[1..] == chains[k..];
      first.next := c;
      chains, vals := [chains[0]] + chains[k..], [vals[0]] + vals[k..];
    }

    /** Copies data behind the window of the chain at position k. */
    method AppendAt(c: Chain, ghost k: nat, data: seq<byte>) returns (ghost v: Chunk)
      requires Spine() && k < |chains| && c == chains[k] && vals[k].Wf()
      requires |data| <= vals[k].Space()
      modifies this`vals, Repr
      ensures Spine() && vals == old(vals)[k := v] && v.Wf() && |v.mem| == |old(vals[k]).mem|
      ensures v.Data() == old(vals[k]).Data() + data && v.misalign == old(vals[k]).misalign
      ensures unchanged(`last, `lwdPred, `totalLen, `lwd, `freezeStart, `freezeEnd, `first, `chains, `Repr)
    {
      ValueAt(k);
      OwnedAt(chains, Repr, k);
      var at := c.misalign + c.off;
      forall i | 0 <= i < |data| {
        c.buffer[at + i] := data[i];
      }
      c.off := c.off + |data|;
      v := Chunk(c.buffer[..], c.misalign, c.off);
      vals := vals[k := v];
    }

    /** evbuffer_chain_align: moves the window to the start of the block. */
    method AlignAt(c: Chain, ghost k: nat) returns (ghost v: Chunk)
      requires Spine() && k < |chains| && c == chains[k] && vals[k].Wf()
      modifies this`vals, Repr
      ensures Spine() && vals == old(vals)[k := v] && v.Wf() && |v.mem| == |old(vals[k]).mem|
      ensures v.Data() == old(vals[k]).Data() && v.misalign == 0
      ensures unchanged(`last, `lwdPred, `totalLen, `lwd, `freezeStart, `freezeEnd, `first, `chains, `Repr)
    {
      ValueAt(k);
      OwnedAt(chains, Repr, k);
      var shift := c.misalign;
      forall i | 0 <= i < c.off {
        c.buffer[i] := c.buffer[shift + i];
      }
      c.misalign := 0;
      v := Chunk(c.buffer[..], c.misalign, c.off);
      MovedData(vals[k], v);
      vals := vals[k := v];
    }

    /** Copies data in front of the window. */
    method PrependAt(c: Chain, ghost k: nat, data: seq<byte>) returns (ghost v: Chunk)
      requires Spine() && k < |chains| && c == chains[k] && vals[k].Wf()
      requires |data| <= vals[k].misalign
      modifies this`vals, Repr
      ensures Spine() && vals == old(vals)[k := v] && v.Wf() && |v.mem| == |old(vals[k]).mem|
      ensures v.Data() == data + old(vals[k]).Data() && v.misalign == old(vals[k]).misalign - |data|
      ensures unchanged(`last, `lwdPred, `totalLen, `lwd, `freezeStart, `freezeEnd, `first, `chains, `Repr)
    {
      ValueAt(k);
      OwnedAt(chains, Repr, k);
      var at := c.misalign - |data|;
      forall i | 0 <= i < |data| {
        c.buffer[at + i] := data[i];
      }
      c.misalign := at;
      c.off := c.off + |data|;
      v := Chunk(c.buffer[..], c.misalign, c.off);
      FrontData(vals[k], v, data);
      vals := vals[k := v];
    }

    /** Drops the first n bytes of the window. */
    method SkipAt(c: Chain, ghost k: nat, n: nat) returns (ghost v: Chunk)
      requires Spine() && k < |chains| && c == chains[k] && vals[k].Wf()
      requires n <= vals[k].off
      modifies this`vals, Repr
      ensures Spine() && vals == old(vals)[k := v] && v.Wf() && |v.mem| == |old(vals[k]).mem|
      ensures v.Data() == old(vals[k]).Data()[n..]
      ensures unchanged(`last, `lwdPred, `totalLen, `lwd, `freezeStart, `freezeEnd, `first, `chains, `Repr)
    {
      ValueAt(k);
      OwnedAt(chains, Repr, k);
      c.misalign := c.misalign + n;
      c.off := c.off - n;
      v := Chunk(c.buffer[..], c.misalign, c.off);
      vals := vals[k := v];
    }

    /** Moves the empty window of a chain. */
    method RewindAt(c: Chain, ghost k: nat, at: nat) returns (ghost v: Chunk)
      requires Spine() && k < |chains| && c == chains[k] && vals[k].Wf()
      requires vals[k].off == 0 && at <= |vals[k].mem|
      modifies this`vals, Repr
      ensures Spine() && vals == old(vals)[k := v] && v.Wf() && |v.mem| == |old(vals[k]).mem|
      ensures v.Data() == [] && v == old(vals[k]).(misalign := at)
      ensures unchanged(`last, `lwdPred, `totalLen, `lwd, `freezeStart, `freezeEnd, `first, `chains, `Repr)
    {
      ValueAt(k);
      OwnedAt(chains, Repr, k);
      c.misalign := at;
      v := Chunk(c.buffer[..], c.misalign, c.off);
      vals := vals[k := v];
    }

    /** Copies data into the block of the chain at position k, outside the window. */
    method WriteAt(block: array<byte>, at: nat, data: seq<byte>, ghost k: nat) returns (ghost v: Chunk)
      requires Spine() && k < |chains| && block == chains[k].buffer && vals[k].Wf()
      requires vals[k].misalign + vals[k].off <= at && at + |data| <= block.Length
      modifies this`vals, block
      ensures Spine() && vals == old(vals)[k := v] && v.Wf() && Overwrites(old(vals[k]), v, at, data)
      ensures unchanged(`last, `lwdPred, `totalLen, `lwd, `freezeStart, `freezeEnd, `first, `chains, `Repr)
    {
      ValueAt(k);
      OwnedAt(chains, Repr, k);
      forall i | 0 <= i < |data| {
        block[at + i] := data[i];
      }
      v := vals[k].(mem := block[..]);
      vals := vals[k := v];
    }

    /** Lets n bytes behind the window count as data. */
    method ExtendAt(c: Chain, ghost k: nat, n: nat)
      requires Spine() && k < |chains| && c == chains[k]
      modifies this`vals, Repr
      ensures Spine() && vals == old(vals)[k := old(vals[k]).(off := old(vals[k]).off + n)]
      ensures unchanged(`last, `lwdPred, `totalLen, `lwd, `freezeStart, `freezeEnd, `first, `chains, `Repr)
    {
      ValueAt(k);
      OwnedAt(chains, Repr, k);
      c.off := c.off + n;
      vals := vals[k := vals[k].(off := c.off)];
    }

    method SetTail(last: Chain?, lwdPred: Chain?, ghost lwd: nat, totalLen: nat)
      requires Spine()
      modifies this`last, this`lwdPred, this`lwd, this`totalLen
      ensures Spine() && this.last == last && this.lwdPred == lwdPred && this.lwd == lwd && this.totalLen == totalLen
      ensures unchanged(`first, `chains, `vals, `Repr, `freezeStart, `freezeEnd)
    {
      this.last, this.lwdPred, this.lwd, this.totalLen := last, lwdPred, lwd, totalLen;
    }

    /** The same, when the list and the stream are known. */
    method Settle(last: Chain?, lwdPred: Chain?, ghost lwd: nat, totalLen: nat, ghost cs: seq<Chain>,
        ghost vs: seq<Chunk>, ghost d: seq<byte>)
      requires Spine() && chains == cs && vals == vs && lwd <= |cs| && Shape(vs, lwd) && Flatten(vs) == d
        && totalLen == |d|
      requires last == PredAt(cs, |cs|) && lwdPred == PredAt(cs, lwd)
      modifies this`last, this`lwdPred, this`lwd, this`totalLen
      ensures Valid() && Contents() == d && this.lwd == lwd
      ensures unchanged(`first, `chains, `vals, `Repr, `freezeStart, `freezeEnd)
    {
      SetTail(last, lwdPred, lwd, totalLen);
    }

    /** *pred = head, where pred is the end of the list */
    method SetEnd(pred: Chain?, head: Chain?)
      requires Spine() && pred == PredAt(chains, |chains|)
      modifies this`first, Repr
      ensures Linked(chains, head) && Held(chains, vals) && |vals| == |chains| && Owned(chains, Repr)
      ensures first == if chains == [] then head else chains[0]
      ensures unchanged(`last, `lwdPred, `totalLen, `lwd, `freezeStart, `freezeEnd, `chains, `vals, `Repr)
    {
      PredAtIs(chains, |chains|);
      if pred == null {
        first := head;
      } else {
        OwnedAt(chains, Repr, |chains| - 1);
        pred.next := head;
        assert forall i :: 0 <= i < |chains| ==> Holds(chains[i], vals[i]);
      }
    }

    /** *pred = src.first, where pred is the end of the list */
    method Adopt(pred: Chain?, src: Evbuffer)
      requires Spine() && src.Spine() && this != src && Repr !! src.Repr && this !in src.Repr && src !in Repr
      requires pred == PredAt(chains, |chains|)
      modifies this`first, this`chains, this`vals, this`Repr, Repr
      ensures Spine() && Repr == old(Repr) + src.Repr
      ensures chains == old(chains) + src.chains && vals == old(vals) + src.vals
      ensures src.Spine()
      ensures unchanged(`last, `lwdPred, `totalLen, `lwd, `freezeStart, `freezeEnd)
    {
      OwnedAll(src.chains, src.Repr);
      OwnedAppend(chains, Repr, src.chains, src.Repr);
      SetEnd(pred, src.first);
      LinkedJoin(chains, vals, src.chains, src.vals, chains + src.chains, vals + src.vals);
      chains, vals := chains + src.chains, vals + src.vals;
      Repr := Repr + src.Repr;
    }

    /** src.last->next = first; first = src.first. The list of src is used up. */
    method AdoptFront(src: Evbuffer)
      requires Spine() && src.Spine() && this != src && Repr !! src.Repr && this !in src.Repr && src !in Repr
      requires src.chains != [] && src.last == PredAt(src.chains, |src.chains|)
      modifies this`first, this`chains, this`vals, this`Repr, src.Repr
      ensures Spine() && Repr == old(Repr) + src.Repr
      ensures chains == src.chains + old(chains) && vals == src.vals + old(vals)
      ensures unchanged(`last, `lwdPred, `totalLen, `lwd, `freezeStart, `freezeEnd)
    {
      PredAtIs(src.chains, |src.chains|);
      OwnedAll(chains, Repr);
      OwnedAt(src.chains, src.Repr, |src.chains| - 1);
      OwnedAppend(src.chains, src.Repr, chains, Repr);
      src.last.next := first;
      first := src.first;
      LinkedJoin(src.chains, src.vals, chains, vals, src.chains + chains, src.vals + vals);
      chains, vals := src.chains + chains, src.vals + vals;
      Repr := src.Repr + Repr;
    }

    /** *pred = src.first; prev->next = NULL; src.first = chain: the first k chains
        of src go to the end of this list, at pred. */
    method AdoptPrefix(pred: Chain?, src: Evbuffer, prev: Chain, chain: Chain, ghost k: nat)
      requires Spine() && src.Spine() && this != src && Repr !! src.Repr && this !in src.Repr && src !in Repr
      requires pred == PredAt(chains, |chains|)
      requires 0 < k < |src.chains| && prev == src.chains[k - 1] && chain == src.chains[k]
      modifies this`first, this`chains, this`vals, this`Repr, Repr, src`first, src`chains, src`vals, src`Repr, prev`next
      ensures Spine() && src.Spine()
      ensures chains == old(chains) + old(src.chains)[..k] && vals == old(vals) + old(src.vals)[..k]
      ensures src.chains == old(src.chains)[k..] && src.vals == old(src.vals)[k..]
      ensures Repr == old(Repr) + Footprint(old(src.chains)[..k])
        && src.Repr == old(src.Repr) - Footprint(old(src.chains)[..k])
      ensures unchanged(`last, `lwdPred, `totalLen, `lwd, `freezeStart, `freezeEnd)
      ensures unchanged(src`last, src`lwdPred, src`totalLen, src`lwd, src`freezeStart, src`freezeEnd)
    {
      var head := src.first;
      OwnedAll(chains, Repr);
      OwnedSplit(src.chains, src.Repr, k);
      OwnedAt(src.chains, src.Repr, k - 1);
      src.Detach(prev, chain, k);
      OwnedAll(src.chains, src.Repr);
      Graft(pred, head, old(src.chains)[..k], old(src.vals)[..k]);
    }

    /** prev->next = NULL; first = chain */
    method Detach(prev: Chain, chain: Chain, ghost k: nat)
      requires Spine() && 0 < k < |chains| && prev == chains[k - 1] && chain == chains[k]
      modifies this`first, this`chains, this`vals, this`Repr, prev`next
      ensures Spine() && chains == old(chains)[k..] && vals == old(vals)[k..]
      ensures Repr == old(Repr) - Footprint(old(chains)[..k])
      ensures Loose(old(first), old(chains)[..k], old(vals)[..k])
      ensures unchanged(`last, `lwdPred, `totalLen, `lwd, `freezeStart, `freezeEnd)
    {
      OwnedSplit(chains, Repr, k);
      OwnedAt(chains, Repr, k - 1);
      prev.next := null;
      first := chain;
      Repr := Repr - Footprint(chains[..k]);
      chains, vals := chains[k..], vals[k..];
    }

    /** *pred = head, a list that nobody owns */
    method Graft(pred: Chain?, head: Chain?, ghost cs: seq<Chain>, ghost vs: seq<Chunk>)
      requires Spine() && Loose(head, cs, vs) && Footprint(cs) !! Repr && this !in Footprint(cs)
      requires pred == PredAt(chains, |chains|)
      modifies this`first, this`chains, this`vals, this`Repr, Repr
      ensures Spine() && Repr == old(Repr) + Footprint(cs)
      ensures chains == old(chains) + cs && vals == old(vals) + vs
      ensures unchanged(`last, `lwdPred, `totalLen, `lwd, `freezeStart, `freezeEnd)
    {
      OwnedAll(cs, Footprint(cs));
      OwnedAppend(chains, Repr, cs, Footprint(cs));
      SetEnd(pred, head);
      LinkedJoin(chains, vals, cs, vs, chains + cs, vals + vs);
      chains, vals := chains + cs, vals + vs;
      Repr := Repr + Footprint(cs);
    }

    /** *pred = c; c->next = old->next */
    method Hook(pred: Chain?, old_: Chain, c: Chain, ghost k: nat, ghost v: Chunk)
      requires Spine() && Unowned(this, c, v) && k < |chains| && old_ == chains[k] && pred == PredAt(chains, k)
      modifies this`first, Repr, c`next
      ensures first == chains[k := c][0] && |vals| == |chains| && Holds(c, v)
      ensures Linked(chains[k := c], null) && Held(chains[k := c], vals[k := v])
      ensures unchanged(`last, `lwdPred, `totalLen, `lwd, `freezeStart, `freezeEnd, `chains, `vals, `Repr)
    {
      PredAtIs(chains, k);
      OwnedAll(chains, Repr);
      c.next := old_.next;
      if pred == null {
        first := c;
      } else {
        OwnedAt(chains, Repr, k - 1);
        pred.next := c;
      }
      LinkedSwap(chains, vals, k, c, v, chains[k := c], vals[k := v]);
    }

    /** c takes the place of the chain at position k. */
    method Replace(pred: Chain?, old_: Chain, c: Chain, ghost k: nat, ghost v: Chunk)
      requires Spine() && Unowned(this, c, v) && k < |chains| && old_ == chains[k] && pred == PredAt(chains, k)
      modifies this`first, this`chains, this`vals, this`Repr, Repr, c`next
      ensures Spine() && Repr == old(Repr) + {c, c.buffer}
      ensures chains == old(chains)[k := c] && vals == old(vals)[k := v]
      ensures unchanged(`last, `lwdPred, `totalLen, `lwd, `freezeStart, `freezeEnd)
    {
      OwnedAll(chains, Repr);
      OwnedMore(chains, Repr, Repr + {c, c.buffer});
      OwnedUpdate(chains, Repr + {c, c.buffer}, k, c);
      Hook(pred, old_, c, k, v);
      chains, vals := chains[k := c], vals[k := v];
      Repr := Repr + {c, c.buffer};
    }

    /** first = src.first */
    method CopyList(src: Evbuffer)
      requires src.Spine() && this != src && this !in src.Repr
      modifies this`first, this`chains, this`vals, this`Repr
      ensures Spine() && Repr == src.Repr && chains == src.chains && vals == src.vals
      ensures unchanged(`last, `lwdPred, `totalLen, `lwd, `freezeStart, `freezeEnd)
    {
      first, chains, vals, Repr := src.first, src.chains, src.vals, src.Repr;
    }

    /** ZERO_CHAIN: gives up the chains. */
    method Zero()
      modifies this
      ensures Valid() && Contents() == [] && chains == [] && Repr == {}
      ensures unchanged(`freezeStart, `freezeEnd)
    {
      first, last, lwdPred := null, null, null;
      totalLen := 0;
      chains, vals, lwd, Repr := [], [], 0, {};
    }
  }
}
