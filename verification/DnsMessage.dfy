/** Whole DNS responses (evdns.c): names that share a table of labels, and what is left of them
    in a response that is cut. */
module DnsMessage {
  import opened Basics
  import opened Chunks
  import opened DnsNames
  import opened DnsEncode

  /** A response is put together from fields, names, and names with their length in front. */
  datatype Piece = Raw(bytes: seq<byte>) | Name(v: seq<byte>) | Sized(v: seq<byte>)

  /** APPEND16 */
  function U16(n: nat): (r: seq<byte>)
    ensures |r| == 2
  {
    [n / 256 % 256, n % 256]
  }

  /** APPEND32 */
  function U32(n: nat): (r: seq<byte>)
    ensures |r| == 4
  {
    U16(n / 65536) + U16(n)
  }

  /** The most significant byte first. */
  lemma U16Is(n: nat)
    ensures U16(n)[0] as int * 256 + U16(n)[1] == n % 65536
  {
    DivTwice(n, 256, 256);
  }

  lemma U32Is(n: nat)
    ensures var r := U32(n);
      r[0] as int * 0x100_0000 + r[1] as int * 0x1_0000 + r[2] as int * 0x100 + r[3] == n % 0x1_0000_0000
  {
    U16Is(n);
    U16Is(n / 65536);
    DivTwice(n, 65536, 65536);
  }

  predicate PieceOk(p: Piece, table: seq<Entry>) {
    p.Raw? || (|p.v| <= 255 && Short(p.v, table))
  }

  function PieceBytes(p: Piece, table: seq<Entry>): seq<byte>
    requires PieceOk(p, table)
  {
    match p
    case Raw(bytes) => bytes
    case Name(v) => Enc(v, table)
    case Sized(v) => U16(|Enc(v, table)|) + Enc(v, table)
  }

  function PieceTable(p: Piece, table: seq<Entry>, j: nat): seq<Entry> {
    match p
    case Raw(_) => table
    case Name(v) => After(v, table, table, j)
    case Sized(v) => After(v, table, table, j + 2)
  }

  predicate PieceFits(p: Piece, table: seq<Entry>, j: nat, bufLen: nat) {
    match p
    case Raw(bytes) => j + |bytes| <= bufLen
    case Name(v) => Fits(v, table, j, bufLen)
    case Sized(v) => Fits(v, table, j + 2, bufLen)
  }

  /** When writing the piece leaves the buffer. */
  predicate PieceOverruns(p: Piece, table: seq<Entry>, j: nat, bufLen: nat) {
    match p
    case Raw(_) => false
    case Name(v) => Overruns(v, table, j, bufLen)
    case Sized(v) => Overruns(v, table, j + 2, bufLen)
  }

  datatype Msg = Msg(data: seq<byte>, table: seq<Entry>)

  /** The first k pieces, in a buffer without end; nothing when a name cannot be encoded. */
  function Build(ps: seq<Piece>, k: nat): Option<Msg>
    requires k <= |ps|
  {
    if k == 0 then Some(Msg([], [])) else
    match Build(ps, k - 1)
    case None => None
    case Some(m) => if PieceOk(ps[k - 1], m.table) then Some(Extend(m, ps[k - 1])) else None
  }

  function Extend(m: Msg, p: Piece): Msg
    requires PieceOk(p, m.table)
  {
    Msg(m.data + PieceBytes(p, m.table), PieceTable(p, m.table, |m.data|))
  }

  /** The first k pieces can be written one after the other. */
  predicate AllFit(ps: seq<Piece>, k: nat, bufLen: nat)
    requires k <= |ps|
    ensures AllFit(ps, k, bufLen) ==> Build(ps, k).Some?
  {
    k == 0 || (AllFit(ps, k - 1, bufLen)
      && PieceFits(ps[k - 1], Build(ps, k - 1).value.table, |Build(ps, k - 1).value.data|, bufLen))
  }

  /** Where piece i starts. */
  function Start(ps: seq<Piece>, i: nat): nat
    requires i <= |ps| && Build(ps, i).Some?
  {
    |Build(ps, i).value.data|
  }

  predicate Legal(p: Piece) {
    p.Raw? || WellFormed(p.v)
  }

  /** The first k pieces make a message of which every position fits in a pointer. */
  predicate Good(ps: seq<Piece>, k: nat) {
    k <= |ps| && Build(ps, k).Some? && |Build(ps, k).value.data| <= FAR && forall i :: 0 <= i < k ==> Legal(ps[i])
  }

  lemma GoodBefore(ps: seq<Piece>, i: nat, k: nat)
    requires i <= k && Good(ps, k)
    ensures Good(ps, i)
  {
    Prefix(ps, i, k);
  }

  /** What precedes is kept. */
  lemma {:induction false} Prefix(ps: seq<Piece>, i: nat, k: nat)
    requires i <= k <= |ps| && Build(ps, k).Some?
    ensures Build(ps, i).Some? && Build(ps, i).value.data <= Build(ps, k).value.data
  {
    if i < k {
      Prefix(ps, i, k - 1);
    }
  }

  /** The table is right at every point of the message. */
  lemma {:induction false} BuildOk(ps: seq<Piece>, k: nat)
    requires Good(ps, k)
    ensures TableOk(Build(ps, k).value.data, Build(ps, k).value.table)
  {
    if k > 0 {
      BuildOk(ps, k - 1);
      ExtendOk(Build(ps, k - 1).value, ps[k - 1]);
    }
  }

  lemma ExtendOk(m: Msg, p: Piece)
    requires TableOk(m.data, m.table) && PieceOk(p, m.table) && Legal(p) && |Extend(m, p).data| <= FAR
    ensures TableOk(Extend(m, p).data, Extend(m, p).table)
  {
    match p
    case Raw(bytes) => TableStable(m.data, m.table, bytes);
    case Name(v) => TableKept(m.data, v, m.table);
    case Sized(v) =>
      var n := U16(|Enc(v, m.table)|);
      TableStable(m.data, m.table, n);
      TableKept(m.data + n, v, m.table);
      Assoc(m.data, n, Enc(v, m.table));
  }

  /** The name of a piece starts here. */
  function NameAt(p: Piece, j: nat): nat {
    if p.Sized? then j + 2 else j
  }

  /** Behind m, piece p reads as what it is, and ends where it ends. */
  ghost predicate Reads(d: seq<byte>, p: Piece, j: nat, end: nat) {
    && j <= end <= |d|
    && (p.Raw? ==> d[j..end] == p.bytes)
    && (p.Sized? ==> j + 2 <= end && d[j..j + 2] == U16(end - (j + 2)))
    && (!p.Raw? ==> Names(d, NameAt(p, j), NameAt(p, j)) == Some(Labels(p.v)) && End(d, NameAt(p, j)) == end)
  }

  lemma ExtendReads(m: Msg, p: Piece, e: seq<byte>, d: seq<byte>)
    requires TableOk(m.data, m.table) && PieceOk(p, m.table) && Legal(p)
    requires e == PieceBytes(p, m.table) && d == m.data + e
    ensures Reads(d, p, |m.data|, |d|)
  {
    if p.Raw? {
      RawReads(m.data, e);
    } else if p.Name? {
      NameReads(m.data, p.v, m.table, e);
    } else {
      SizedReads(m.data, p.v, m.table, Enc(p.v, m.table), U16(|Enc(p.v, m.table)|));
    }
  }

  lemma RawReads(data: seq<byte>, bytes: seq<byte>)
    ensures Reads(data + bytes, Raw(bytes), |data|, |data + bytes|)
  {
  }

  lemma NameReads(data: seq<byte>, v: seq<byte>, table: seq<Entry>, e: seq<byte>)
    requires TableOk(data, table) && WellFormed(v) && Short(v, table) && e == Enc(v, table)
    ensures Reads(data + e, Name(v), |data|, |data| + |e|)
  {
    EncReads(data, v, table, |data|);
  }

  lemma SizedReads(data: seq<byte>, v: seq<byte>, table: seq<Entry>, e: seq<byte>, n: seq<byte>)
    requires TableOk(data, table) && WellFormed(v) && Short(v, table) && e == Enc(v, table) && n == U16(|e|)
    ensures Reads(data + (n + e), Sized(v), |data|, |data| + 2 + |e|)
  {
    TableStable(data, table, n);
    EncReads(data + n, v, table, |data + n|);
    Assoc(data, n, e);
    assert (data + (n + e))[|data|..|data| + 2] == n;
  }

  lemma ReadsMore(d: seq<byte>, p: Piece, j: nat, end: nat, e: seq<byte>)
    requires Reads(d, p, j, end) && d <= e
    ensures Reads(e, p, j, end)
  {
    assert e == d + e[|d|..];
    if !p.Raw? {
      Stable(d, NameAt(p, j), NameAt(p, j), e[|d|..]);
    }
  }

  lemma BuildNext(ps: seq<Piece>, i: nat, next: nat)
    requires next == i + 1 <= |ps| && Build(ps, next).Some?
    ensures Build(ps, i).Some? && PieceOk(ps[i], Build(ps, i).value.table)
    ensures Build(ps, next).value.data == Build(ps, i).value.data + PieceBytes(ps[i], Build(ps, i).value.table)
  {
  }

  lemma LastReads(ps: seq<Piece>, i: nat, next: nat)
    requires Good(ps, next) && next == i + 1
    ensures Build(ps, i).Some? && Reads(Build(ps, next).value.data, ps[i], Start(ps, i), Start(ps, next))
  {
    GoodBefore(ps, i, next);
    BuildOk(ps, i);
    BuildNext(ps, i, next);
    var m := Build(ps, i).value;
    ExtendReads(m, ps[i], PieceBytes(ps[i], m.table), Build(ps, next).value.data);
  }

  /** Every piece of a message reads at its start as what it is, and ends where the next one
      starts. */
  lemma MessageReads(ps: seq<Piece>, k: nat, i: nat, next: nat)
    requires next == i + 1 <= k && Good(ps, k)
    ensures Build(ps, i).Some? && Build(ps, next).Some?
    ensures Reads(Build(ps, k).value.data, ps[i], Start(ps, i), Start(ps, next))
  {
    Prefix(ps, next, k);
    GoodBefore(ps, next, k);
    LastReads(ps, i, next);
    ReadsMore(Build(ps, next).value.data, ps[i], Start(ps, i), Start(ps, next), Build(ps, k).value.data);
  }

  /** The packet agrees with the message on its first m bytes. */
  predicate Agrees(packet: seq<byte>, ps: seq<Piece>, k: nat, m: nat)
    requires k <= |ps| && Build(ps, k).Some?
  {
    m <= |packet| && m <= |Build(ps, k).value.data| && packet[..m] == Build(ps, k).value.data[..m]
  }

  lemma KeptName(e: seq<byte>, p: Piece, j: nat, end: nat, packet: seq<byte>, a: nat)
    requires Reads(e, p, j, end) && !p.Raw? && e <= packet && a == NameAt(p, j)
    ensures Names(packet, a, |packet|) == Some(Labels(p.v)) && End(packet, a) == end
  {
    ReadsMore(e, p, j, end, packet);
    Budget(packet, a, a, |packet|);
  }

  lemma LostName(d: seq<byte>, p: Piece, j: nat, end: nat, packet: seq<byte>, a: nat)
    requires Reads(d, p, j, end) && !p.Raw? && packet <= d && |packet| < end && a == NameAt(p, j)
    ensures Names(packet, a, |packet|) == None
  {
    CutInside(d, a, |packet|, |packet|);
    assert packet == d[..|packet|];
  }

  lemma AgreesWith(ps: seq<Piece>, i: nat, k: nat, packet: seq<byte>, m: nat)
    requires i <= k && Good(ps, k) && Agrees(packet, ps, k, m)
    ensures Good(ps, i) && (Start(ps, i) <= m ==> Build(ps, i).value.data <= packet)
    ensures m == |packet| ==> packet <= Build(ps, k).value.data
  {
    GoodBefore(ps, i, k);
    Prefix(ps, i, k);
    if Start(ps, i) <= m {
      PrefixWithin(Build(ps, i).value.data, Build(ps, k).value.data, packet, m);
    }
  }

  lemma PrefixWithin(a: seq<byte>, d: seq<byte>, packet: seq<byte>, m: nat)
    requires a <= d && |a| <= m <= |d| && m <= |packet| && packet[..m] == d[..m]
    ensures a <= packet
  {
    assert packet[..m][..|a|] == packet[..|a|] && d[..m][..|a|] == d[..|a|];
  }

  /** A response that agrees with the message on its first m bytes holds exactly the names that
      end by then: name_parse gives them back, and the index behind them. */
  lemma NamesSurvive(ps: seq<Piece>, k: nat, i: nat, next: nat, packet: seq<byte>, m: nat, a: nat)
    requires next == i + 1 <= k && Good(ps, k) && Agrees(packet, ps, k, m) && !ps[i].Raw?
    requires Build(ps, i).Some? && a == NameAt(ps[i], Start(ps, i))
    ensures Build(ps, next).Some?
    ensures Start(ps, next) <= m ==>
      Names(packet, a, |packet|) == Some(Labels(ps[i].v)) && End(packet, a) == Start(ps, next)
    ensures m == |packet| < Start(ps, next) ==> Names(packet, a, |packet|) == None
  {
    AgreesWith(ps, next, k, packet, m);
    var j, b := Start(ps, i), Start(ps, next);
    if b <= m {
      LastReads(ps, i, next);
      KeptName(Build(ps, next).value.data, ps[i], j, b, packet, a);
    } else if m == |packet| {
      MessageReads(ps, k, i, next);
      LostName(Build(ps, k).value.data, ps[i], j, b, packet, a);
    }
  }

  lemma NameSize(ps: seq<Piece>, i: nat, next: nat)
    requires next == i + 1 <= |ps| && Build(ps, next).Some? && !ps[i].Raw?
    ensures |ps[i].v| <= 255
  {
  }

  lemma TextBack(v: seq<byte>)
    requires WellFormed(v)
    ensures |Text(Labels(v))| <= |v| && (v == [] || Open(v) ==> Text(Labels(v)) == v)
  {
    TextShort(v);
    if v == [] || Open(v) {
      TextOfLabels(v);
    }
  }

  /** The text of a name is not longer than the name. */
  lemma {:induction false} TextShort(v: seq<byte>)
    requires WellFormed(v)
    ensures |Text(Labels(v))| <= |v|
    decreases |v|
  {
    if v != [] && FirstDot(v) < |v| {
      var l, rest := v[..FirstDot(v)], v[FirstDot(v) + 1..];
      TextShort(rest);
      if rest == [] {
        assert Labels(v) == [l];
      } else {
        TextCons(l, Labels(rest));
      }
    }
  }

  /** Reading a name of a response, which may be cut, the way the resolver does. */
  method ReadName(ghost ps: seq<Piece>, ghost k: nat, ghost i: nat, ghost next: nat, packet: seq<byte>, ghost m: nat,
      a: nat, out: array<byte>)
    returns (ok: bool, newIdx: nat, ghost n: nat)
    requires next == i + 1 <= k && Good(ps, k) && Agrees(packet, ps, k, m) && !ps[i].Raw?
    requires Build(ps, i).Some? && a == NameAt(ps[i], Start(ps, i)) && out.Length > 255
    modifies out
    ensures Build(ps, next).Some?
    ensures Start(ps, next) <= m ==>
      ok && newIdx == Start(ps, next) && n < out.Length && out[n] == 0 && out[..n] == Text(Labels(ps[i].v))
    ensures Start(ps, next) <= m && (ps[i].v == [] || Open(ps[i].v)) ==> out[..n] == ps[i].v
    ensures m == |packet| < Start(ps, next) ==> !ok
  {
    NamesSurvive(ps, k, i, next, packet, m, a);
    NameSize(ps, i, next);
    TextBack(ps[i].v);
    ok, newIdx, n := NameParse(packet, a, out);
  }
}
