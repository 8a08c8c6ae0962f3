/** Positions and searching (buffer.c). */
module EvbufferSearch {
  import opened Basics
  import opened Chunks
  import opened Evbuffers
  import opened EvbufferRead
  import opened EvbufferPullup

  /** p is a place in the window of chain k, or its end; the end of the last chain may also
      be given without a chain. */
  ghost predicate PtrLoose(buf: Evbuffer, p: Ptr, k: nat)
    reads buf`chains, buf`vals
  {
    Cursor(buf, k, p.chain, p.posInChain) && p.pos == At(buf, k, p.posInChain)
  }

  const NOT_FOUND: Ptr := Ptr(-1, null, 0)

  lemma {:induction false} OffsetMono(cs: seq<Chunk>, i: nat, j: nat)
    requires AllWf(cs) && i <= j <= |cs|
    ensures Offset(cs, i) <= Offset(cs, j)
    ensures i < j ==> Offset(cs, i) + cs[i].off <= Offset(cs, j)
    decreases j - i
  {
    if i < j {
      OffsetStep(cs, i);
      OffsetMono(cs, i + 1, j);
    }
  }

  /** A position has only one pointer: chain and position in it agree with pos. */
  lemma PtrUnique(buf: Evbuffer, p: Ptr, k: nat, q: Ptr, j: nat)
    requires buf.Valid() && PtrAt(buf, p, k) && PtrAt(buf, q, j) && p.pos == q.pos
    ensures p == q && k == j
  {
    OffsetMono(buf.vals, if k <= j then k else j, if k <= j then j else k);
  }

  /** evbuffer_ptr_set, relative when add is set. */
  method PtrSet(buf: Evbuffer, pos: Ptr, ghost k0: nat, position: nat, add: bool)
    returns (ok: bool, r: Ptr, ghost k: nat)
    requires buf.Valid() && (add && pos.pos >= 0 ==> PtrLoose(buf, pos, k0))
    ensures var wanted := if add then pos.pos + position else position;
      && (ok <==> !(add && (pos.pos < 0 || wanted > SIZE_MAX)) && wanted <= |buf.Contents()|)
      && (ok ==> r.pos == wanted)
      && (!ok ==> r == if add && (pos.pos < 0 || wanted > SIZE_MAX) then pos else NOT_FOUND)
    ensures ok ==> PtrAt(buf, r, k)
  {
    k := 0;
    OffsetEnds(buf.vals);
    if !add {
      ok, r, k := Walk(buf, buf.first, 0, 0, position, position);
    } else if pos.pos < 0 || SIZE_MAX - position < pos.pos {
      ok, r := false, pos;
    } else {
      ok, r, k := Walk(buf, pos.chain, k0, pos.posInChain, position, pos.pos + position);
    }
  }

  /** The loop of evbuffer_ptr_set. */
  method Walk(buf: Evbuffer, from: Chain?, ghost k0: nat, p0: nat, left0: nat, wanted: nat)
    returns (ok: bool, r: Ptr, ghost k: nat)
    requires buf.Valid() && Cursor(buf, k0, from, p0) && At(buf, k0, p0) + left0 == wanted
    ensures ok <==> wanted <= |buf.Contents()|
    ensures ok ==> PtrAt(buf, r, k) && r.pos == wanted
    ensures !ok ==> r == NOT_FOUND
  {
    var chain: Chain?, p: nat, left: nat := from, p0, left0;
    k := k0;
    while chain != null && p + left >= chain.off
      invariant Cursor(buf, k, chain, p) && At(buf, k, p) + left == wanted
      decreases |buf.chains| - k
    {
      buf.ValueAt(k);
      left := left - (chain.off - p);
      StepOver(buf, chain, k, k + 1);
      chain := chain.next;
      p, k := 0, k + 1;
    }
    if chain != null {
      buf.ValueAt(k);
      ok, r := true, Ptr(wanted, chain, p + left);
      PtrInRange(buf, r, k);
    } else {
      OffsetEnds(buf.vals);
      ok := left == 0;
      r := if ok then Ptr(wanted, null, 0) else NOT_FOUND;
    }
  }

  /** evbuffer_ptr_subtract */
  method PtrSubtract(buf: Evbuffer, pos: Ptr, ghost k0: nat, howfar: nat) returns (ok: bool, r: Ptr, ghost k: nat)
    requires buf.Valid() && (pos.pos >= 0 ==> PtrAt(buf, pos, k0))
    ensures ok <==> howfar <= pos.pos
    ensures ok ==> PtrAt(buf, r, k) && r.pos == pos.pos - howfar
    ensures !ok ==> r == pos
  {
    if pos.pos < 0 || howfar > pos.pos {
      return false, pos, k0;
    }
    PtrInRange(buf, pos, k0);
    if pos.chain != null && howfar <= pos.posInChain {
      return true, Ptr(pos.pos - howfar, pos.chain, pos.posInChain - howfar), k0;
    }
    ok, r, k := PtrSet(buf, pos, k0, pos.pos - howfar, false);
  }

  /** memcmp: the difference at the first place where the bytes differ. */
  function Memcmp(a: seq<byte>, b: seq<byte>): (r: int)
    requires |a| == |b|
  {
    if a == [] then 0 else if a[0] != b[0] then a[0] - b[0] else Memcmp(a[1..], b[1..])
  }

  /** What comparing mem from position i on with the stream at position at gives. */
  function Compare(s: seq<byte>, at: nat, mem: seq<byte>, i: nat): int
    requires i <= |mem| && at + (|mem| - i) <= |s|
    decreases |mem| - i
  {
    if i == |mem| then 0 else if s[at] != mem[i] then s[at] - mem[i] else Compare(s, at + 1, mem, i + 1)
  }

  lemma {:induction false} CompareEqual(s: seq<byte>, at: nat, mem: seq<byte>, i: nat)
    requires i <= |mem| && at + (|mem| - i) <= |s|
    ensures Compare(s, at, mem, i) == 0 <==> s[at..at + (|mem| - i)] == mem[i..]
    decreases |mem| - i
  {
    if i < |mem| {
      CompareEqual(s, at + 1, mem, i + 1);
      var a, b := s[at..at + (|mem| - i)], mem[i..];
      assert a[1..] == s[at + 1..at + 1 + (|mem| - (i + 1))] && b[1..] == mem[i + 1..];
      assert a == [s[at]] + a[1..] && b == [mem[i]] + b[1..];
    }
  }

  /** The result is the difference of the first two bytes that differ. */
  lemma {:induction false} FirstDifference(s: seq<byte>, at: nat, mem: seq<byte>, i: nat) returns (n: nat)
    requires i <= |mem| && at + (|mem| - i) <= |s| && Compare(s, at, mem, i) != 0
    ensures i + n < |mem| && s[at..at + n] == mem[i..i + n]
    ensures s[at + n] != mem[i + n] && Compare(s, at, mem, i) == s[at + n] as int - mem[i + n] as int
    decreases |mem| - i
  {
    n := 0;
    if s[at] == mem[i] {
      n := FirstDifference(s, at + 1, mem, i + 1);
      assert s[at..at + (n + 1)] == [s[at]] + s[at + 1..at + 1 + n];
      assert mem[i..i + (n + 1)] == [mem[i]] + mem[i + 1..i + 1 + n];
      n := n + 1;
    }
  }

  /** Comparing n bytes at a time. */
  lemma {:induction false} CompareStepwise(s: seq<byte>, at: nat, end: nat, mem: seq<byte>, i: nat, j: nat)
    requires i <= j <= |mem| && at + (|mem| - i) <= |s| && end - at == j - i
    ensures Compare(s, at, mem, i) == (var d := Memcmp(s[at..end], mem[i..j]);
      if d != 0 then d else Compare(s, end, mem, j))
    decreases j - i
  {
    if i < j {
      CompareStepwise(s, at + 1, end, mem, i + 1, j);
      assert s[at..end][1..] == s[at + 1..end] && mem[i..j][1..] == mem[i + 1..j];
    }
  }

  /** evbuffer_ptr_memcmp */
  method PtrMemcmp(buf: Evbuffer, pos: Ptr, ghost k0: nat, mem: seq<byte>) returns (r: int)
    requires buf.Valid() && (pos.pos >= 0 ==> PtrLoose(buf, pos, k0))
    ensures r == if pos.pos < 0 || pos.pos + |mem| > SIZE_MAX || pos.pos + |mem| > |buf.Contents()| then -1
      else Compare(buf.Contents(), pos.pos, mem, 0)
  {
    if pos.pos < 0 || SIZE_MAX - |mem| < pos.pos || pos.pos + |mem| > buf.totalLen {
      return -1;
    }
    r := CompareLoop(buf, pos.chain, k0, pos.posInChain, mem, pos.pos);
  }

  method CompareLoop(buf: Evbuffer, from: Chain?, ghost k0: nat, p0: nat, mem: seq<byte>, ghost start: nat)
    returns (r: int)
    requires buf.Valid() && Cursor(buf, k0, from, p0) && At(buf, k0, p0) == start && start + |mem| <= |buf.Contents()|
    ensures r == Compare(buf.Contents(), start, mem, 0)
  {
    ghost var at: nat, k: nat := start, k0;
    var chain: Chain?, p: nat, i: nat := from, p0, 0;
    while i < |mem| && chain != null
      invariant Comparing(buf, k, chain, p, mem, i, start, at)
      decreases |buf.chains| - k
    {
      buf.ValueAt(k);
      var n: nat := if |mem| - i + p > chain.off then chain.off - p else |mem| - i;
      var j := i + n;
      ghost var next, k' := at + n, k + 1;
      ComparePiece(buf, chain, k, p, mem, i, n, j, start, at, next, k');
      r := Memcmp(chain.Bytes(p, n), mem[i..j]);
      if r != 0 {
        return;
      }
      chain, p, i, at, k := chain.next, 0, j, next, k';
    }
    AtEnd(buf, k, chain, p);
    r := 0;
  }

  /** The bytes of mem before place i equal those of the stream, which goes on at the cursor (k, p). */
  ghost predicate Comparing(buf: Evbuffer, k: nat, chain: Chain?, p: nat, mem: seq<byte>, i: nat, start: nat, at: nat)
    reads buf`chains, buf`vals
  {
    && Cursor(buf, k, chain, p) && i <= |mem| && start + |mem| <= |buf.Contents()|
       && at + (|mem| - i) <= |buf.Contents()|
    && Compare(buf.Contents(), start, mem, 0) == Compare(buf.Contents(), at, mem, i)
    && (i < |mem| ==> at == At(buf, k, p))
  }

  lemma ComparePiece(buf: Evbuffer, chain: Chain, k: nat, p: nat, mem: seq<byte>, i: nat, n: nat, j: nat, start: nat,
      at: nat, next: nat, k': nat)
    requires buf.Valid() && k < |buf.chains| && Comparing(buf, k, chain, p, mem, i, start, at) && i < |mem|
    requires n == if |mem| - i + p > buf.vals[k].off then buf.vals[k].off - p else |mem| - i
    requires j == i + n && next == at + n && k' == k + 1
    ensures chain.misalign + p + n <= chain.buffer.Length
    ensures var r := Memcmp(chain.Bytes(p, n), mem[i..j]);
      if r != 0 then r == Compare(buf.Contents(), start, mem, 0)
        else Comparing(buf, k', chain.next, 0, mem, j, start, next)
  {
    WindowIs(buf, chain, k, p, n, at, next);
    CompareStepwise(buf.Contents(), at, next, mem, i, j);
    StepOver(buf, chain, k, k');
  }

  /** pat occurs in s at position i. */
  predicate Match(s: seq<byte>, pat: seq<byte>, i: nat) {
    i + |pat| <= |s| && s[i..i + |pat|] == pat
  }

  /** pat occurs nowhere from position lo up to hi. */
  predicate NoMatch(s: seq<byte>, pat: seq<byte>, lo: nat, hi: nat)
    decreases hi
  {
    lo >= hi || (!Match(s, pat, hi - 1) && NoMatch(s, pat, lo, hi - 1))
  }

  lemma {:induction false} NoMatchAt(s: seq<byte>, pat: seq<byte>, lo: nat, hi: nat, j: nat)
    requires NoMatch(s, pat, lo, hi) && lo <= j < hi
    ensures !Match(s, pat, j)
    decreases hi
  {
    if j < hi - 1 {
      NoMatchAt(s, pat, lo, hi - 1, j);
    }
  }

  lemma {:induction false} NoMatchJoin(s: seq<byte>, pat: seq<byte>, lo: nat, mid: nat, hi: nat)
    requires NoMatch(s, pat, lo, mid) && NoMatch(s, pat, mid, hi)
    ensures NoMatch(s, pat, lo, hi)
    decreases hi
  {
    if mid < hi {
      NoMatchJoin(s, pat, lo, mid, hi - 1);
    } else if lo < hi < mid {
      NoMatchLess(s, pat, lo, mid, hi);
    }
  }

  lemma {:induction false} NoMatchLess(s: seq<byte>, pat: seq<byte>, lo: nat, hi: nat, less: nat)
    requires NoMatch(s, pat, lo, hi) && less <= hi
    ensures NoMatch(s, pat, lo, less)
    decreases hi
  {
    if less < hi && lo < hi {
      NoMatchLess(s, pat, lo, hi - 1, less);
    }
  }

  /** Where the first byte of the pattern does not occur the pattern does not start. */
  lemma {:induction false} NoFirstByte(s: seq<byte>, pat: seq<byte>, at: nat, end: nat)
    requires pat != [] && at <= end <= |s| && forall i :: at <= i < end ==> s[i] != pat[0]
    ensures NoMatch(s, pat, at, end)
    decreases end
  {
    if at < end {
      NoFirstByte(s, pat, at, end - 1);
      OtherFirstByte(s, pat, end - 1);
    }
  }

  lemma OtherFirstByte(s: seq<byte>, pat: seq<byte>, i: nat)
    requires pat != [] && i < |s| && s[i] != pat[0]
    ensures !Match(s, pat, i)
  {
  }

  /** memchr: the first place of c from i on, or the length. */
  function Memchr(d: seq<byte>, c: byte, i: nat): (n: nat)
    requires i <= |d|
    ensures i <= n <= |d| && (n < |d| ==> d[n] == c) && forall j :: i <= j < n ==> d[j] != c
    decreases |d| - i
  {
    if i == |d| || d[i] == c then i else Memchr(d, c, i + 1)
  }

  /** The first byte of the pattern, looked for in what is left of a chain. */
  lemma ScanChain(buf: Evbuffer, chain: Chain, k: nat, p: nat, what: seq<byte>, pos: nat, n: nat, next: nat)
    requires buf.Valid() && k < |buf.chains| && Cursor(buf, k, chain, p) && pos == At(buf, k, p) && what != []
      && next == pos + n
    requires p <= chain.off && chain.misalign + chain.off <= chain.buffer.Length
      && n == Memchr(chain.Bytes(p, chain.off - p), what[0], 0)
    ensures p + n <= chain.off == buf.vals[k].off
    ensures next <= |buf.Contents()| && NoMatch(buf.Contents(), what, pos, next)
  {
    buf.ValueAt(k);
    var end := pos + (chain.off - p);
    WindowIs(buf, chain, k, p, chain.off - p, pos, end);
    SliceFree(buf.Contents(), pos, end, chain.Bytes(p, chain.off - p), what[0], next);
    NoFirstByte(buf.Contents(), what, pos, next);
  }

  lemma SliceFree(s: seq<byte>, at: nat, end: nat, d: seq<byte>, c: byte, next: nat)
    requires at <= next <= end <= |s| && d == s[at..end] && forall j :: 0 <= j < next - at ==> d[j] != c
    ensures forall i :: at <= i < next ==> s[i] != c
  {
    forall i | at <= i < next
      ensures s[i] != c
    {
      assert d[i - at] != c;
    }
  }

  /** The search result: the first occurrence from lo on, if it ends at hi or earlier. */
  ghost predicate FirstMatch(buf: Evbuffer, what: seq<byte>, lo: nat, hi: int, r: Ptr, k: nat)
    reads buf`chains, buf`vals
  {
    if r.pos < 0 then
      && r == NOT_FOUND
      && forall j: nat :: lo <= j && Match(buf.Contents(), what, j) ==> j + |what| > hi
    else
      && PtrAt(buf, r, k) && lo <= r.pos && Match(buf.Contents(), what, r.pos) && r.pos + |what| <= hi
      && forall j: nat :: lo <= j < r.pos ==> !Match(buf.Contents(), what, j)
  }

  /** What evbuffer_search_range promises of the position it returns. */
  predicate Within(s: seq<byte>, what: seq<byte>, pos: int, hi: int) {
    pos < 0 || (Match(s, what, pos) && pos + |what| <= hi)
  }

  lemma FoundFirst(buf: Evbuffer, what: seq<byte>, lo: nat, hi: int, r: Ptr, k: nat)
    requires r.pos >= lo && PtrAt(buf, r, k) && Match(buf.Contents(), what, r.pos)
      && NoMatch(buf.Contents(), what, lo, r.pos)
    requires r.pos + |what| <= hi
    ensures FirstMatch(buf, what, lo, hi, r, k)
  {
    forall j: nat | lo <= j < r.pos
      ensures !Match(buf.Contents(), what, j)
    {
      NoMatchAt(buf.Contents(), what, lo, r.pos, j);
    }
  }

  lemma FoundNone(buf: Evbuffer, what: seq<byte>, lo: nat, hi: int, pos: nat, k: nat)
    requires NoMatch(buf.Contents(), what, lo, pos) && (pos + |what| > hi || pos + |what| > |buf.Contents()|)
    ensures FirstMatch(buf, what, lo, hi, NOT_FOUND, k)
  {
    forall j: nat | lo <= j && Match(buf.Contents(), what, j)
      ensures j + |what| > hi
    {
      if j < pos {
        NoMatchAt(buf.Contents(), what, lo, pos, j);
      }
    }
  }

  /** evbuffer_search_range. A pattern that is empty or too long is "found" at start, so that the
      result is a match that ends at end or before exactly for other patterns, or when start is one. */
  method SearchRange(buf: Evbuffer, what: seq<byte>, start: Option<Ptr>, ghost ks: nat, end: Option<Ptr>, ghost ke: nat)
    returns (r: Ptr, ghost k: nat)
    requires buf.Valid() && |buf.Contents()| <= SIZE_MAX
    requires (start.Some? ==> PtrLoose(buf, start.value, ks)) && (end.Some? ==> PtrLoose(buf, end.value, ke))
    ensures 0 < |what| <= CHAIN_MAX ==>
      FirstMatch(buf, what,
        if start.Some? then start.value.pos else 0, if end.Some? then end.value.pos else |buf.Contents()|, r, k)
    ensures what == [] || |what| > CHAIN_MAX ==> r == if start.Some? then start.value else Ptr(0, buf.first, 0)
    ensures var lo := if start.Some? then start.value.pos else 0;
      var hi := if end.Some? then end.value.pos else |buf.Contents()|;
      Within(buf.Contents(), what, r.pos, hi) <==> 0 < |what| <= CHAIN_MAX || Within(buf.Contents(), what, lo, hi)
  {
    var pos := if start.Some? then start.value else Ptr(0, buf.first, 0);
    k := if start.Some? then ks else 0;
    if |what| == 0 || |what| > CHAIN_MAX {
      return pos, k;
    }
    r, k := SearchLoop(buf, what, pos.pos, pos.chain, pos.posInChain, k, end, ke);
  }

  method SearchLoop(buf: Evbuffer, what: seq<byte>, lo: nat, from: Chain?, p0: nat, ghost k0: nat, end: Option<Ptr>,
      ghost ke: nat)
    returns (r: Ptr, ghost k: nat)
    requires buf.Valid() && |buf.Contents()| <= SIZE_MAX && what != []
    requires Cursor(buf, k0, from, p0) && lo == At(buf, k0, p0) && (end.Some? ==> PtrLoose(buf, end.value, ke))
    ensures FirstMatch(buf, what, lo, if end.Some? then end.value.pos else |buf.Contents()|, r, k)
  {
    var chain: Chain?, p: nat, pos: nat := from, p0, lo;
    k := k0;
    ghost var hi := if end.Some? then end.value.pos else |buf.Contents()|;
    while chain != null
      invariant Searching(buf, what, lo, k, chain, p, pos)
      decreases |buf.chains| - k, |buf.Contents()| - pos
    {
      var stop;
      stop, r, chain, p, pos, k := SearchStep(buf, what, lo, chain, p, pos, k, end, ke);
      if stop {
        return;
      }
    }
    AtEnd(buf, k, chain, p);
    FoundNone(buf, what, lo, hi, pos, k);
    r := NOT_FOUND;
  }

  /** Nothing has been found between lo and the place where the search is. */
  ghost predicate Searching(buf: Evbuffer, what: seq<byte>, lo: nat, k: nat, chain: Chain?, p: nat, pos: nat)
    reads buf`chains, buf`vals
  {
    Cursor(buf, k, chain, p) && pos == At(buf, k, p) && lo <= pos && NoMatch(buf.Contents(), what, lo, pos)
  }

  /** One round of the loop. */
  method SearchStep(buf: Evbuffer, what: seq<byte>, ghost lo: nat, from: Chain, p0: nat, pos0: nat, ghost k0: nat,
      end: Option<Ptr>, ghost ke: nat)
    returns (stop: bool, r: Ptr, chain: Chain?, p: nat, pos: nat, ghost k: nat)
    requires buf.Valid() && |buf.Contents()| <= SIZE_MAX && what != []
    requires Searching(buf, what, lo, k0, from, p0, pos0) && (end.Some? ==> PtrLoose(buf, end.value, ke))
    ensures stop ==> FirstMatch(buf, what, lo, if end.Some? then end.value.pos else |buf.Contents()|, r, k)
    ensures !stop ==> Searching(buf, what, lo, k, chain, p, pos)
    ensures !stop ==> k0 <= k && pos <= |buf.Contents()| && (k0 < k || pos0 < pos) && k <= |buf.chains|
  {
    chain, p, pos, k, r := from, p0, pos0, k0, NOT_FOUND;
    buf.ValueAt(k);
    var n := Memchr(from.Bytes(p, from.off - p), what[0], 0);
    var next := pos + n;
    ScanChain(buf, from, k, p, what, pos, n, next);
    NoMatchJoin(buf.Contents(), what, lo, pos, next);
    pos, p := next, p + n;
    if p < from.off {
      next := pos + 1;
      stop, r := TryHere(buf, from, k, p, what, pos, next, lo, end, ke);
      if stop {
        return;
      }
      pos, p := next, p + 1;
      buf.ValueAt(k);
      AtEnd(buf, k, from, p);
      if p < from.off {
        return;
      }
    } else if end.Some? && from == end.value.chain {
      LastChainSeen(buf, from, k, p, end.value, ke);
      FoundNone(buf, what, lo, end.value.pos, pos, k);
      return true, NOT_FOUND, chain, p, pos, k;
    }
    AtEnd(buf, k, from, p);
    StepOver(buf, from, k, k + 1);
    stop, chain, p, k := false, from.next, 0, k + 1;
  }

  /** At a place with the right first byte: compares, and stops at a match. */
  method TryHere(buf: Evbuffer, chain: Chain, ghost k: nat, p: nat, what: seq<byte>, pos: nat, ghost next: nat,
      ghost lo: nat, end: Option<Ptr>, ghost ke: nat)
    returns (stop: bool, r: Ptr)
    requires buf.Valid() && |buf.Contents()| <= SIZE_MAX && what != []
    requires k < |buf.chains| && chain == buf.chains[k] && p < buf.vals[k].off && pos == At(buf, k, p)
    requires lo <= pos && NoMatch(buf.Contents(), what, lo, pos) && next == pos + 1
    ensures stop ==> FirstMatch(buf, what, lo, if end.Some? then end.value.pos else |buf.Contents()|, r, k)
    ensures !stop ==> NoMatch(buf.Contents(), what, lo, next)
  {
    var here := Ptr(pos, chain, p);
    var differ := PtrMemcmp(buf, here, k, what);
    r := here;
    if pos + |what| <= |buf.Contents()| {
      CompareEqual(buf.Contents(), pos, what, 0);
      assert what[0..] == what;
    }
    stop := differ == 0;
    ghost var hi := if end.Some? then end.value.pos else |buf.Contents()|;
    if stop {
      if end.Some? && pos + |what| > end.value.pos {
        FoundNone(buf, what, lo, hi, pos, k);
        r := NOT_FOUND;
      } else {
        FoundFirst(buf, what, lo, hi, here, k);
      }
    }
  }

  /** The end lies in the chain that has been searched to its end. */
  lemma LastChainSeen(buf: Evbuffer, chain: Chain, k: nat, p: nat, end: Ptr, ke: nat)
    requires buf.Valid() && k < |buf.chains| && chain == buf.chains[k] && p == buf.vals[k].off
    requires PtrLoose(buf, end, ke) && end.chain == chain
    ensures end.pos <= At(buf, k, p)
  {
    OwnedAt(buf.chains, buf.Repr, k);
  }

  /** evbuffer_search: up to the end of the buffer. */
  method Search(buf: Evbuffer, what: seq<byte>, start: Option<Ptr>, ghost ks: nat) returns (r: Ptr, ghost k: nat)
    requires buf.Valid() && |buf.Contents()| <= SIZE_MAX && (start.Some? ==> PtrLoose(buf, start.value, ks))
    ensures 0 < |what| <= CHAIN_MAX ==>
      FirstMatch(buf, what, if start.Some? then start.value.pos else 0, |buf.Contents()|, r, k)
    ensures what == [] || |what| > CHAIN_MAX ==> r == if start.Some? then start.value else Ptr(0, buf.first, 0)
  {
    r, k := SearchRange(buf, what, start, ks, None, 0);
  }

  /** evbuffer_find: makes the first occurrence contiguous; the window of the chain returned
      holds it at position at. */
  method Find(buf: Evbuffer, what: seq<byte>) returns (r: Chain?, at: nat)
    requires buf.Valid() && |buf.Contents()| <= SIZE_MAX && |what| <= CHAIN_MAX
    modifies buf, buf.Repr
    ensures buf.Valid() && fresh(buf.Repr - old(buf.Repr))
    ensures buf.Contents() == old(buf.Contents())
    ensures r != null ==> buf.chains != [] && r == buf.chains[0] && Match(buf.vals[0].Data(), what, at)
    ensures r != null ==> Match(buf.Contents(), what, at) && forall j: nat :: j < at ==> !Match(buf.Contents(), what, j)
    ensures r == null && what != [] && |buf.Contents()| <= BLOCK_MAX ==>
      forall j: nat :: !Match(buf.Contents(), what, j)
    ensures unchanged(buf`freezeStart, buf`freezeEnd)
  {
    ghost var k;
    var p;
    p, k := Search(buf, what, None, 0);
    at := 0;
    if p.pos < 0 {
      return null, 0;
    }
    at := p.pos;
    ghost var s := buf.Contents();
    r := Pullup(buf, at + |what|);
    if r != null {
      FoundInWindow(s, buf.vals[0].Data(), at, |what|);
    }
  }

  lemma FoundInWindow(s: seq<byte>, d: seq<byte>, at: nat, n: nat)
    requires at + n <= |s| && at + n <= |d| && d[..at + n] == s[..at + n]
    ensures d[at..at + n] == s[at..at + n]
  {
    assert d[at..at + n] == d[..at + n][at..] && s[at..at + n] == s[..at + n][at..];
  }
}
