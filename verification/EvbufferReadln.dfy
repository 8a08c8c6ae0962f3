/** Finding and reading lines (buffer.c). */
module EvbufferReadln {
  import opened Basics
  import opened Chunks
  import opened Evbuffers
  import opened EvbufferRead
  import opened EvbufferSearch
  import opened Lines

  const CHUNK_SZ: nat := 128

  /** find_eol_char: the first CR or LF, or the length. */
  method FindEolChar(d: seq<byte>) returns (i: nat)
    ensures i <= |d| && (i < |d| ==> d[i] in CRLF) && forall j :: 0 <= j < i ==> d[j] !in CRLF
  {
    i := 0;
    while i < |d|
      invariant i <= |d| && forall j :: 0 <= j < i ==> d[j] !in CRLF
    {
      var chunk := d[i..if i + CHUNK_SZ < |d| then i + CHUNK_SZ else |d|];
      var cr := Memchr(chunk, CR, 0);
      var lf := Memchr(chunk, LF, 0);
      ghost var least := if lf < cr then lf else cr;
      forall j | i <= j < i + least
        ensures d[j] !in CRLF
      {
        assert chunk[j - i] != CR && chunk[j - i] != LF;
      }
      if cr < |chunk| {
        i := if lf < cr then i + lf else i + cr;
        return;
      } else if lf < |chunk| {
        i := i + lf;
        return;
      }
      i := i + |chunk|;
    }
  }

  /** evbuffer_strchr, and evbuffer_find_eol_char when eol is set. */
  method Seek(buf: Evbuffer, it: Ptr, ghost k0: nat, eol: bool, chr: byte) returns (r: Ptr, ghost k: nat)
    requires buf.Valid() && PtrLoose(buf, it, k0) && it.pos <= |buf.Contents()|
    ensures var p := FirstOf(buf.Contents(), it.pos, if eol then CRLF else {chr});
      if p < |buf.Contents()| then r.pos == p else r == NOT_FOUND
    ensures r.pos >= 0 ==> PtrAt(buf, r, k)
  {
    ghost var cs := if eol then CRLF else {chr};
    var chain: Chain?, i: nat, pos: nat := it.chain, it.posInChain, it.pos;
    k := k0;
    while chain != null
      invariant Seeking(buf, k, chain, i, it.pos, pos, cs)
      decreases |buf.chains| - k
    {
      ghost var k' := k + 1;
      var found, n, next := SeekIn(buf, chain, k, i, it.pos, pos, eol, chr, k');
      if found {
        return Ptr(next, chain, i + n), k;
      }
      pos, chain, i, k := next, chain.next, 0, k';
    }
    AtEnd(buf, k, chain, i);
    r := NOT_FOUND;
  }

  /** Looks at what is left of one chain. */
  method SeekIn(buf: Evbuffer, chain: Chain, ghost k: nat, i: nat, ghost at: nat, pos: nat, eol: bool, chr: byte,
      ghost k': nat)
    returns (found: bool, n: nat, next: nat)
    requires buf.Valid() && k < |buf.chains| && k' == k + 1
      && Seeking(buf, k, chain, i, at, pos, if eol then CRLF else {chr})
    ensures found ==> next < |buf.Contents()| && FirstOf(buf.Contents(), at, if eol then CRLF else {chr}) == next
    ensures found ==> PtrAt(buf, Ptr(next, chain, i + n), k)
    ensures !found ==> Seeking(buf, k', chain.next, 0, at, next, if eol then CRLF else {chr})
  {
    buf.ValueAt(k);
    var d := Rest(chain, i);
    n := FindStop(d, eol, chr);
    found, next := n < |d|, pos + n;
    SeekPiece(buf, chain, k, i, at, pos, if eol then CRLF else {chr}, d, n, next, k');
  }

  /** What chain holds from place i of its window on. */
  function Rest(chain: Chain, i: nat): seq<byte>
    requires i <= chain.off && chain.misalign + chain.off <= chain.buffer.Length
    reads chain, chain.buffer
  {
    chain.Bytes(i, chain.off - i)
  }

  /** No byte from at up to pos is in cs, and the cursor (k, i) is at pos. */
  ghost predicate Seeking(buf: Evbuffer, k: nat, chain: Chain?, i: nat, at: nat, pos: nat, cs: set<byte>)
    reads buf`chains, buf`vals
  {
    && Cursor(buf, k, chain, i) && pos == At(buf, k, i) <= |buf.Contents()| && at <= |buf.Contents()|
    && FirstOf(buf.Contents(), at, cs) == FirstOf(buf.Contents(), pos, cs)
  }

  lemma SeekPiece(buf: Evbuffer, chain: Chain, k: nat, i: nat, at: nat, pos: nat, cs: set<byte>, d: seq<byte>, n: nat,
      next: nat, k': nat)
    requires buf.Valid() && k < |buf.chains| && Seeking(buf, k, chain, i, at, pos, cs) && next == pos + n && k' == k + 1
    requires i <= chain.off && chain.misalign + chain.off <= chain.buffer.Length && d == Rest(chain, i)
    requires n <= |d| && (n < |d| ==> d[n] in cs) && forall j :: 0 <= j < n ==> d[j] !in cs
    ensures n < |d| ==>
      next < |buf.Contents()| && FirstOf(buf.Contents(), at, cs) == next && PtrAt(buf, Ptr(next, chain, i + n), k)
    ensures n == |d| ==> Seeking(buf, k', chain.next, 0, at, next, cs)
  {
    buf.ValueAt(k);
    var end := pos + |d|;
    WholeWindow(buf, chain, k, i, pos, end);
    FirstInSlice(buf.Contents(), pos, end, d, cs, n, next);
    if n < |d| {
      StopInside(buf, chain, k, i + n, next);
    } else {
      StepOver(buf, chain, k, k');
    }
  }

  /** memchr or find_eol_char */
  method FindStop(d: seq<byte>, eol: bool, chr: byte) returns (n: nat)
    ensures var cs := if eol then CRLF else {chr};
      n <= |d| && (n < |d| ==> d[n] in cs) && forall j :: 0 <= j < n ==> d[j] !in cs
  {
    if eol {
      n := FindEolChar(d);
    } else {
      n := Memchr(d, chr, 0);
    }
  }

  /** What chain k holds from position p on. */
  lemma WholeWindow(buf: Evbuffer, chain: Chain, k: nat, p: nat, pos: nat, end: nat)
    requires buf.Valid() && k < |buf.chains| && Cursor(buf, k, chain, p) && pos == At(buf, k, p)
      && end == pos + (buf.vals[k].off - p)
    ensures p <= chain.off && chain.off == buf.vals[k].off && chain.misalign + chain.off <= chain.buffer.Length
    ensures end <= |buf.Contents()| && Rest(chain, p) == buf.Contents()[pos..end]
  {
    buf.ValueAt(k);
    WindowIs(buf, chain, k, p, chain.off - p, pos, end);
  }

  lemma FirstInSlice(s: seq<byte>, at: nat, end: nat, d: seq<byte>, cs: set<byte>, n: nat, next: nat)
    requires at <= end <= |s| && d == s[at..end] && n <= |d| && next == at + n && forall j :: 0 <= j < n ==> d[j] !in cs
    ensures FirstOf(s, at, cs) == FirstOf(s, next, cs)
    ensures n < |d| && d[n] in cs ==> FirstOf(s, next, cs) == next
  {
    forall i | at <= i < next
      ensures s[i] !in cs
    {
      assert d[i - at] !in cs;
    }
    FirstOfSkip(s, at, next, cs);
  }

  /** evbuffer_strspn: how many bytes in a row from it on are in cs. The pointer moves behind them; at
      the end of the stream its place in the last chain is 0, whatever the chain holds. */
  method Strspn(buf: Evbuffer, it: Ptr, ghost k0: nat, cs: set<byte>) returns (r: Ptr, count: nat, ghost k: nat)
    requires buf.Valid() && PtrLoose(buf, it, k0) && it.pos <= |buf.Contents()|
    ensures count == Span(buf.Contents(), it.pos, cs) && r.pos == it.pos + count <= |buf.Contents()|
    ensures r.pos < |buf.Contents()| ==> PtrAt(buf, r, k)
    ensures r.pos == |buf.Contents()| && it.chain != null ==>
      r.chain == PredAt(buf.chains, |buf.chains|) && r.posInChain == 0
  {
    k, count := k0, 0;
    AtEnd(buf, k, it.chain, it.posInChain);
    if it.chain == null {
      return it, 0, k;
    }
    var chain: Chain, i: nat := it.chain, it.posInChain;
    ghost var pos: nat := it.pos;
    while true
      invariant pos == it.pos + count && Spanning(buf, k, chain, i, it.pos, count, pos, cs)
      decreases |buf.chains| - k
    {
      buf.ValueAt(k);
      var n := CountIn(Rest(chain, i), cs, 0);
      ghost var next, k' := pos + n, k + 1;
      SpanPiece(buf, chain, k, i, it.pos, count, pos, cs, n, count + n, next, k');
      count := count + n;
      if i + n < chain.off {
        return Ptr(it.pos + count, chain, i + n), count, k;
      }
      if chain.next == null {
        return Ptr(it.pos + count, chain, 0), count, k;
      }
      chain, i, k, pos := chain.next, 0, k', next;
    }
  }

  /** The count bytes from at up to pos are in cs, and the cursor (k, i) is at pos. */
  ghost predicate Spanning(buf: Evbuffer, k: nat, chain: Chain?, i: nat, at: nat, count: nat, pos: nat, cs: set<byte>)
    reads buf`chains, buf`vals
  {
    && k < |buf.chains| && Cursor(buf, k, chain, i) && pos == At(buf, k, i) <= |buf.Contents()| && at <= pos
    && count + Span(buf.Contents(), pos, cs) == Span(buf.Contents(), at, cs)
  }

  lemma SpanPiece(buf: Evbuffer, chain: Chain, k: nat, i: nat, at: nat, count: nat, pos: nat, cs: set<byte>, n: nat,
      total: nat, next: nat, k': nat)
    requires buf.Valid() && Spanning(buf, k, chain, i, at, count, pos, cs) && total == count + n && next == pos + n
      && k' == k + 1
    requires i <= chain.off && chain.misalign + chain.off <= chain.buffer.Length && n == CountIn(Rest(chain, i), cs, 0)
    ensures i + n < chain.off ==> next < |buf.Contents()| && PtrAt(buf, Ptr(next, chain, i + n), k)
    ensures i + n < chain.off || chain.next == null ==> total == Span(buf.Contents(), at, cs)
    ensures i + n == chain.off && chain.next == null ==>
      next == |buf.Contents()| && chain == PredAt(buf.chains, |buf.chains|)
    ensures i + n == chain.off && chain.next != null ==> Spanning(buf, k', chain.next, 0, at, total, next, cs)
  {
    var d := Rest(chain, i);
    buf.ValueAt(k);
    var end := pos + |d|;
    WholeWindow(buf, chain, k, i, pos, end);
    SpanOfSlice(buf.Contents(), pos, end, d, cs, n, next);
    if i + n < chain.off {
      StopInside(buf, chain, k, i + n, next);
    } else {
      StepOver(buf, chain, k, k');
      if chain.next == null {
        LastOver(buf, chain, k, k');
      } else {
        buf.NextAt(k);
      }
    }
  }

  lemma StopInside(buf: Evbuffer, chain: Chain, k: nat, p: nat, pos: nat)
    requires buf.Valid() && k < |buf.chains| && chain == buf.chains[k] && p < buf.vals[k].off && pos == At(buf, k, p)
    ensures pos < |buf.Contents()| && PtrAt(buf, Ptr(pos, chain, p), k)
  {
    OffsetStep(buf.vals, k);
  }

  lemma LastOver(buf: Evbuffer, chain: Chain, k: nat, k': nat)
    requires buf.Valid() && k < |buf.chains| && chain == buf.chains[k] && chain.next == null && k' == k + 1
    ensures k' == |buf.chains| && At(buf, k', 0) == |buf.Contents()| && chain == PredAt(buf.chains, |buf.chains|)
  {
    buf.NextAt(k);
    OffsetEnds(buf.vals);
    PredAtIs(buf.chains, k');
  }

  /** How far the bytes from i on are in cs. */
  function CountIn(d: seq<byte>, cs: set<byte>, i: nat): (n: nat)
    requires i <= |d|
    ensures i <= n <= |d| && (n < |d| ==> d[n] !in cs) && forall j :: i <= j < n ==> d[j] in cs
    decreases |d| - i
  {
    if i == |d| || d[i] !in cs then i else CountIn(d, cs, i + 1)
  }

  lemma SpanOfSlice(s: seq<byte>, at: nat, end: nat, d: seq<byte>, cs: set<byte>, n: nat, next: nat)
    requires at <= end <= |s| && d == s[at..end] && n <= |d| && next == at + n && forall j :: 0 <= j < n ==> d[j] in cs
    ensures Span(s, at, cs) == n + Span(s, next, cs)
    ensures (n < |d| && d[n] !in cs) || next == |s| ==> Span(s, next, cs) == 0
  {
    forall i | at <= i < next
      ensures s[i] in cs
    {
      assert d[i - at] in cs;
    }
    SpanSkip(s, at, next, cs);
  }

  /** The pattern search for CR LF finds the first such pair. */
  lemma {:induction false} PairIsMatch(s: seq<byte>, lo: nat, at: nat)
    requires lo <= at <= |s| && forall j: nat :: lo <= j < at ==> !Match(s, [CR, LF], j)
    ensures Match(s, [CR, LF], at) ==> FirstPair(s, lo) == EolAt(at, 2)
    ensures at == |s| ==> FirstPair(s, lo) == NoEol
    decreases at - lo
  {
    PairAt(s, lo);
    if lo < at {
      PairIsMatch(s, lo + 1, at);
    }
  }

  lemma PairAt(s: seq<byte>, i: nat)
    requires i <= |s|
    ensures Match(s, [CR, LF], i) <==> i + 2 <= |s| && s[i] == CR && s[i + 1] == LF
  {
  }

  /** The chain byte a pointer denotes; None is the source's -1. */
  method GetChr(buf: Evbuffer, it: Ptr, ghost k: nat) returns (r: Option<byte>)
    requires buf.Valid() && PtrAt(buf, it, k)
    ensures it.pos < |buf.Contents()| ==> r == Some(buf.Contents()[it.pos])
    ensures it.pos == |buf.Contents()| ==> r == None
  {
    PtrInRange(buf, it, k);
    if it.chain == null {
      return None;
    }
    buf.ValueAt(k);
    WindowIs(buf, it.chain, k, it.posInChain, 1, it.pos, it.pos + 1);
    r := Some(it.chain.Bytes(it.posInChain, 1)[0]);
  }

  /** The result agrees with where the line ends. */
  predicate IsEol(e: Eol, r: Ptr, len: nat) {
    if e.EolAt? then r.pos == e.pos && len == e.len else r == NOT_FOUND && len == 0
  }

  /** evbuffer_search_eol */
  method SearchEol(buf: Evbuffer, start: Option<Ptr>, ghost ks: nat, style: Style)
    returns (r: Ptr, len: nat, ghost k: nat)
    requires buf.Valid() && |buf.Contents()| <= SIZE_MAX && (start.Some? ==> PtrLoose(buf, start.value, ks))
    ensures var lo := if start.Some? then start.value.pos else 0;
      0 <= lo <= |buf.Contents()| && IsEol(FindEol(style, buf.Contents(), lo), r, len)
    ensures r.pos >= 0 ==> PtrAt(buf, r, k)
  {
    len := 0;
    k := if start.Some? then ks else 0;
    var it := if start.Some? then start.value else Ptr(0, buf.first, 0);
    AtEnd(buf, k, it.chain, it.posInChain);
    if start.Some? && start.value.chain == null {
      return NOT_FOUND, 0, k;
    }
    r, len, k := SearchFrom(buf, it, k, style);
  }

  method SearchFrom(buf: Evbuffer, it: Ptr, ghost k0: nat, style: Style) returns (r: Ptr, len: nat, ghost k: nat)
    requires buf.Valid() && |buf.Contents()| <= SIZE_MAX && PtrLoose(buf, it, k0) && it.pos <= |buf.Contents()|
    ensures IsEol(FindEol(style, buf.Contents(), it.pos), r, len)
    ensures r.pos >= 0 ==> PtrAt(buf, r, k)
  {
    match style
    case Any =>
      r, len, k := SearchAny(buf, it, k0);
    case CrLfStrict =>
      r, k := SearchPair(buf, it, k0);
      len := if r.pos < 0 then 0 else 2;
    case CrLf =>
      r, len, k := SearchCrLf(buf, it, k0);
    case Lf =>
      r, k := Seek(buf, it, k0, false, LF);
      len := if r.pos < 0 then 0 else 1;
    case Nul =>
      r, k := Seek(buf, it, k0, false, 0);
      len := if r.pos < 0 then 0 else 1;
  }

  method SearchAny(buf: Evbuffer, it: Ptr, ghost k0: nat) returns (r: Ptr, len: nat, ghost k: nat)
    requires buf.Valid() && PtrLoose(buf, it, k0) && it.pos <= |buf.Contents()|
    ensures IsEol(FindEol(Any, buf.Contents(), it.pos), r, len)
    ensures r.pos >= 0 ==> PtrAt(buf, r, k)
  {
    r, k := Seek(buf, it, k0, true, 0);
    len := 0;
    if r.pos >= 0 {
      var it2;
      ghost var k2;
      it2, len, k2 := Strspn(buf, r, k, CRLF);
    }
  }

  method SearchPair(buf: Evbuffer, it: Ptr, ghost k0: nat) returns (r: Ptr, ghost k: nat)
    requires buf.Valid() && |buf.Contents()| <= SIZE_MAX && PtrLoose(buf, it, k0) && it.pos <= |buf.Contents()|
    ensures var e := FirstPair(buf.Contents(), it.pos);
      if e.EolAt? then r.pos == e.pos else r == NOT_FOUND
    ensures r.pos >= 0 ==> PtrAt(buf, r, k)
  {
    r, k := SearchRange(buf, [CR, LF], Some(it), k0, None, 0);
    PairIsMatch(buf.Contents(), it.pos, if r.pos < 0 then |buf.Contents()| else r.pos);
  }

  /** A LF, and the CR before it unless that is before the start. */
  method SearchCrLf(buf: Evbuffer, it: Ptr, ghost k0: nat) returns (r: Ptr, len: nat, ghost k: nat)
    requires buf.Valid() && PtrLoose(buf, it, k0) && it.pos <= |buf.Contents()|
    ensures IsEol(FindEol(CrLf, buf.Contents(), it.pos), r, len)
    ensures r.pos >= 0 ==> PtrAt(buf, r, k)
  {
    r, k := Seek(buf, it, k0, false, LF);
    len := 0;
    if r.pos < 0 {
      return;
    }
    len := 1;
    if r.pos == it.pos {
      return;
    }
    var ok, it2;
    ghost var k2;
    ok, it2, k2 := PtrSubtract(buf, r, k, 1);
    if !ok {
      return;
    }
    var c := GetChr(buf, it2, k2);
    if c == Some(CR) {
      r, len, k := it2, 2, k2;
    }
  }

  /** evbuffer_readln; the allocation of the line succeeds. */
  method Readln(buf: Evbuffer, style: Style) returns (ok: bool, line: seq<byte>)
    requires buf.Valid() && |buf.Contents()| <= SIZE_MAX
    modifies buf, buf.Repr
    ensures buf.Valid() && buf.Repr <= old(buf.Repr)
    ensures var e := FindEol(style, old(buf.Contents()), 0);
      && (ok <==> !buf.freezeStart && e.EolAt?)
      && (ok ==> line == old(buf.Contents())[..e.pos] && buf.Contents() == old(buf.Contents())[e.pos + e.len..])
      && (!ok ==> line == [] && buf.Contents() == old(buf.Contents()))
    ensures unchanged(buf`freezeStart, buf`freezeEnd)
  {
    ok, line := false, [];
    if buf.freezeStart {
      return;
    }
    ghost var k, s := 0, buf.Contents();
    var it, drain;
    it, drain, k := SearchEol(buf, None, 0, style);
    if it.pos < 0 {
      return;
    }
    var copied;
    copied, line := Remove(buf, it.pos);
    ReadlnParts(s, line, buf.Contents(), it.pos, drain);
    ok := Drain(buf, drain);
    ok := true;
  }

  lemma ReadlnParts(s: seq<byte>, line: seq<byte>, mid: seq<byte>, p: nat, n: nat)
    requires s == line + mid && |line| == p && p + n <= |s|
    ensures line == s[..p] && n <= |mid| && mid[n..] == s[p + n..]
  {
  }
}
