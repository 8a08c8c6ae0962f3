/** evdns_server_request_format_response (evdns.c). */
module DnsResponse {
  import opened Basics
  import opened Chunks
  import opened DnsNames
  import opened DnsEncode
  import opened DnsMessage
  import opened DnsLayout
  import opened DnsFields

  /** What a piece that is refused leaves in the buffer, at NameAt. */
  function PieceLeft(p: Piece, table: seq<Entry>, j: nat, bufLen: nat): (r: seq<byte>)
    ensures r != [] ==> NameAt(p, j) + |r| <= bufLen + 1
  {
    if p.Raw? then [] else Puts(p.v, table, NameAt(p, j), bufLen)
  }

  /** Memory of which the first bufLen bytes are the buffer, after a piece has been refused. */
  function Refused(mem: seq<byte>, p: Piece, table: seq<Entry>, j: nat, bufLen: nat): (r: seq<byte>)
    requires bufLen < |mem|
    ensures |r| == |mem|
  {
    var e := PieceLeft(p, table, j, bufLen);
    if e == [] then mem else Overwrite(mem, NameAt(p, j), e)
  }

  /** Writes one piece at position j, if there is room. */
  method WritePiece(buf: array<byte>, bufLen: nat, j: nat, p: Piece, table: seq<Entry>)
    returns (r: int, newTable: seq<Entry>)
    requires bufLen < buf.Length && j <= buf.Length && (p.Raw? || NoZero(p.v))
    modifies buf
    ensures r >= 0 <==> PieceFits(p, table, j, bufLen)
    ensures r >= 0 ==>
      r <= bufLen + 1 && buf[..r] == old(buf[..j]) + PieceBytes(p, table) && newTable == PieceTable(p, table, j)
    ensures r < 0 ==> if p.Name? then r == Code(p.v, table, j, bufLen) else r == -2 || r == -1
    ensures r == bufLen + 1 <==> PieceOverruns(p, table, j, bufLen)
    ensures buf[..j] == old(buf[..j])
    ensures r != bufLen + 1 ==> buf[bufLen] == old(buf[bufLen])
    ensures r >= 0 ==> buf[..] == Overwrite(old(buf[..]), j, PieceBytes(p, table))
    ensures r < 0 ==> buf[..] == Refused(old(buf[..]), p, table, j, bufLen)
  {
    match p
    case Raw(bytes) =>
      if j + |bytes| > bufLen {
        return -2, table;
      }
      ghost var mem := buf[..];
      Put(buf, j, bytes);
      r, newTable := j + |bytes|, table;
      assert buf[..r] == buf[..][..r] == mem[..j] + bytes;
      assert buf[..j] == buf[..][..j] == mem[..j];
      assert buf[bufLen] == buf[..][bufLen];
    case Name(v) =>
      r, newTable := ToLabels(buf, bufLen, j, v, true, table);
    case Sized(v) =>
      r, newTable := WriteSized(buf, bufLen, j, v, table);
  }

  /** The length is written when the name is; its two bytes are skipped without a look at
      bufLen, and then the name does not fit either. */
  method WriteSized(buf: array<byte>, bufLen: nat, j: nat, v: seq<byte>, table: seq<Entry>)
    returns (r: int, newTable: seq<Entry>)
    requires bufLen < buf.Length && j <= buf.Length && NoZero(v)
    modifies buf
    ensures r >= 0 <==> Fits(v, table, j + 2, bufLen)
    ensures r >= 0 ==>
      r <= bufLen + 1 && buf[..r] == old(buf[..j]) + PieceBytes(Sized(v), table)
      && newTable == After(v, table, table, j + 2)
    ensures r < 0 ==> r == -2 || r == -1
    ensures r == bufLen + 1 <==> Overruns(v, table, j + 2, bufLen)
    ensures buf[..j] == old(buf[..j])
    ensures r != bufLen + 1 ==> buf[bufLen] == old(buf[bufLen])
    ensures r >= 0 ==> buf[..] == Overwrite(old(buf[..]), j, PieceBytes(Sized(v), table))
    ensures r < 0 ==> buf[..] == Refused(old(buf[..]), Sized(v), table, j, bufLen)
  {
    ghost var mem := buf[..];
    if j + 2 > bufLen {
      return -2, table;
    }
    var at := j + 2;
    ghost var was := buf[..at];
    assert was[..j] == buf[..j];
    r, newTable := ToLabels(buf, bufLen, at, v, true, table);
    if r >= 0 {
      PutLength(buf, bufLen, j, at, r, was, Enc(v, table));
      SizedThere(mem, j, at, Enc(v, table), U16(|Enc(v, table)|));
    } else {
      assert buf[..at] == was;
      assert buf[..at][..j] == buf[..j];
    }
  }

  /** Stores r - at in the two bytes before at. */
  method PutLength(buf: array<byte>, bufLen: nat, j: nat, at: nat, r: nat, ghost was: seq<byte>, ghost e: seq<byte>)
    requires at == j + 2 <= bufLen < buf.Length && at <= r <= buf.Length && |was| == at && buf[..r] == was + e
    modifies buf
    ensures buf[..r] == was[..j] + (U16(|e|) + e) && buf[..j] == was[..j] && buf[bufLen] == old(buf[bufLen])
    ensures buf[..] == Overwrite(old(buf[..]), j, U16(|e|))
  {
    ghost var mem := buf[..];
    assert mem[..r] == was + e && |e| == r - at;
    Put(buf, j, U16(r - at));
    Patched(was[..j], was, e, mem, j, r, bufLen, U16(|e|));
    assert buf[..r] == buf[..][..r] && buf[..j] == buf[..][..j] && buf[bufLen] == buf[..][bufLen];
  }

  lemma SizedThere(mem: seq<byte>, j: nat, at: nat, e: seq<byte>, n: seq<byte>)
    requires at == j + 2 == j + |n| && at + |e| <= |mem|
    ensures Overwrite(Overwrite(mem, at, e), j, n) == Overwrite(mem, j, n + e)
  {
  }

  lemma Patched(head: seq<byte>, skipped: seq<byte>, e: seq<byte>, mem: seq<byte>, j: nat, r: nat, bufLen: nat,
      n: seq<byte>)
    requires |head| == j && |skipped| == j + 2 <= r <= |mem| && head <= skipped && mem[..r] == skipped + e && |n| == 2
    requires j + 2 <= bufLen < |mem|
    ensures Overwrite(mem, j, n)[..r] == head + (n + e) && Overwrite(mem, j, n)[..j] == head
    ensures Overwrite(mem, j, n)[bufLen] == mem[bufLen]
  {
    assert mem[..j] == mem[..r][..j] == head;
    assert mem[j + 2..r] == mem[..r][j + 2..] == e;
    assert Overwrite(mem, j, n)[..r] == mem[..j] + n + mem[j + 2..r];
  }

  /** Piece i leaves the buffer. */
  predicate Leaves(ps: seq<Piece>, i: nat, bufLen: nat)
    requires i < |ps| && Build(ps, i).Some?
  {
    PieceOverruns(ps[i], Build(ps, i).value.table, Start(ps, i), bufLen)
  }

  /** The last of the first k pieces leaves the buffer. */
  predicate LastLeaves(ps: seq<Piece>, k: nat, bufLen: nat)
    requires k <= |ps|
  {
    k > 0 && Build(ps, k - 1).Some? && Leaves(ps, k - 1, bufLen)
  }

  lemma FitsNext(ps: seq<Piece>, k: nat, next: nat, m: Msg, bufLen: nat)
    requires k < |ps| && next == k + 1 && AllFit(ps, k, bufLen) && Build(ps, k) == Some(m)
    ensures AllFit(ps, next, bufLen) <==> PieceFits(ps[k], m.table, |m.data|, bufLen)
    ensures AllFit(ps, next, bufLen) ==> PieceOk(ps[k], m.table) && Build(ps, next) == Some(Extend(m, ps[k]))
    ensures LastLeaves(ps, next, bufLen) <==> PieceOverruns(ps[k], m.table, |m.data|, bufLen)
  {
  }

  /** The memory when the first k pieces have been written, and the next one, if any, refused. */
  function Final(ps: seq<Piece>, k: nat, mem: seq<byte>, bufLen: nat): (r: seq<byte>)
    requires bufLen < |mem| && k <= |ps| && Build(ps, k).Some? && Start(ps, k) <= bufLen + 1
    ensures |r| == |mem|
  {
    var m := Build(ps, k).value;
    var w := Overwrite(mem, 0, m.data);
    if k == |ps| then w else Refused(w, ps[k], m.table, |m.data|, bufLen)
  }

  /** Writes the pieces one after the other, until one does not fit. The byte behind the buffer
      is written exactly when the end is behind it, and then the last piece did it. */
  method WriteAll(buf: array<byte>, bufLen: nat, ps: seq<Piece>) returns (r: int, k: nat, j: nat)
    requires bufLen < buf.Length && forall i :: 0 <= i < |ps| && !ps[i].Raw? ==> NoZero(ps[i].v)
    modifies buf
    ensures k <= |ps| && AllFit(ps, k, bufLen) && (k < |ps| ==> !AllFit(ps, k + 1, bufLen))
    ensures if k == |ps| then r == 0 else
      if ps[k].Name? then r == Code(ps[k].v, Build(ps, k).value.table, Start(ps, k), bufLen) else r == -2 || r == -1
    ensures j == Start(ps, k) <= bufLen + 1 && buf[..j] == Build(ps, k).value.data
    ensures j == bufLen + 1 ==> LastLeaves(ps, k, bufLen)
    ensures j != bufLen + 1 ==> buf[bufLen] == old(buf[bufLen])
    ensures buf[..] == Final(ps, k, old(buf[..]), bufLen)
  {
    ghost var mem := buf[..];
    var table: seq<Entry> := [];
    r, k, j := 0, 0, 0;
    ghost var m := Msg([], []);
    while k < |ps|
      invariant k <= |ps| && j <= bufLen + 1 && AllFit(ps, k, bufLen) && Build(ps, k) == Some(m)
      invariant m == Msg(buf[..j], table) && buf[..] == Overwrite(mem, 0, m.data)
      invariant j == bufLen + 1 ==> LastLeaves(ps, k, bufLen)
      invariant j != bufLen + 1 ==> buf[bufLen] == old(buf[bufLen])
    {
      var next := k + 1;
      FitsNext(ps, k, next, m, bufLen);
      var end, t := WritePiece(buf, bufLen, j, ps[k], table);
      if end < 0 {
        r := end;
        return;
      }
      OverwriteTwice(mem, 0, m.data, j, PieceBytes(ps[k], table));
      m := Extend(m, ps[k]);
      table, j, k := t, end, next;
    }
  }

  /** The first bytes of the buffer, with the bit for truncation set. */
  function CutBytes(mem: seq<byte>): seq<byte>
    requires |mem| > MAX_RESPONSE
  {
    mem[2 := SetTruncated(mem[2])][..MAX_RESPONSE]
  }

  /** evdns_server_request_format_response; stack is what its buffer, and the byte behind it,
      held before. k is how many pieces it has written, as many as fit one
      after the other; overran tells whether the byte behind the buffer has been written, which
      only the last piece can do. */
  method FormatResponse(q: Request, stack: seq<byte>) returns (code: int, response: seq<byte>, k: nat, overran: bool)
    requires forall i :: 0 <= i < |Pieces(q)| && !Pieces(q)[i].Raw? ==> NoZero(Pieces(q)[i].v)
    requires |stack| == BUF_LEN + 1
    ensures 6 <= k && Formatted(Pieces(q), 6 + 3 * |q.questions|, k, code, response)
    ensures overran <==> Start(Pieces(q), k) == BUF_LEN + 1
    ensures overran ==> LastLeaves(Pieces(q), k, BUF_LEN)
    ensures Start(Pieces(q), k) <= BUF_LEN + 1
    ensures code == 0 ==> FieldsOk(q, Places(Pieces(q), k), IsCut(Pieces(q), k), response)
    ensures code == 0 && (k < |Pieces(q)| || Start(Pieces(q), k) > MAX_RESPONSE) ==>
      response == CutBytes(Final(Pieces(q), k, stack, BUF_LEN))
  {
    var ps := Pieces(q);
    HeaderFits(q, ps);
    var buf := new byte[BUF_LEN + 1](i requires 0 <= i < |stack| => stack[i]);
    assert buf[..] == stack;
    var r, n, j := WriteAll(buf, BUF_LEN, ps);
    AtLeastHeader(ps, n);
    k, overran, code, response := n, j == BUF_LEN + 1, 0, [];
    if n < 6 + 3 * |q.questions| && ps[n].Name? {
      code := r;
    } else if n < |ps| || j > MAX_RESPONSE {
      ghost var mem := buf[..];
      CutIs(ps, n, mem, CutBytes(mem));
      buf[2] := SetTruncated(buf[2]);
      response := buf[..MAX_RESPONSE];
      assert buf[..] == mem[2 := SetTruncated(mem[2])];
    } else {
      response := buf[..j];
    }
    if code == 0 {
      AllFields(q, ps, 6 + 3 * |q.questions|, k, Places(ps, k), response, IsCut(ps, k));
    }
  }

  lemma CutIs(ps: seq<Piece>, k: nat, mem: seq<byte>, response: seq<byte>)
    requires |ps| >= 2 && ps[0].Raw? && |ps[0].bytes| == 2 && ps[1].Raw? && |ps[1].bytes| == 2
    requires 2 <= k <= |ps| && Build(ps, k).Some? && Start(ps, k) <= |mem|
      && mem[..Start(ps, k)] == Build(ps, k).value.data
    requires |mem| > MAX_RESPONSE && response == CutBytes(mem)
    ensures |response| == MAX_RESPONSE && CutOf(response, ps, k)
  {
    MarkedIs(ps, k);
    var d, m := Build(ps, k).value.data, if Start(ps, k) < MAX_RESPONSE then Start(ps, k) else MAX_RESPONSE;
    assert d[2] == mem[2];
    assert response[..m] == d[2 := SetTruncated(d[2])][..m];
  }

  lemma AtLeastHeader(ps: seq<Piece>, n: nat)
    requires |ps| >= 6 && AllFit(ps, 6, BUF_LEN) && n <= |ps| && (n < |ps| ==> !AllFit(ps, n + 1, BUF_LEN))
    ensures n >= 6
  {
    if n < 6 {
      FitBefore(ps, n + 1, 6, BUF_LEN);
    }
  }

  /** What the pieces take when nothing is compressed. */
  function PlainSize(ps: seq<Piece>, k: nat): nat
    requires k <= |ps|
  {
    if k == 0 then 0 else
    PlainSize(ps, k - 1)
      + if ps[k - 1].Raw? then |ps[k - 1].bytes| else |ps[k - 1].v| + if ps[k - 1].Sized? then 4 else 2
  }

  /** Names that are legal and pieces that would fit without compression can all be written. */
  lemma {:induction false} EnoughRoom(ps: seq<Piece>, k: nat, bufLen: nat)
    requires k <= |ps| && PlainSize(ps, k) <= bufLen
    requires forall i :: 0 <= i < k && !ps[i].Raw? ==> |ps[i].v| <= 255 && Short(ps[i].v, [])
    ensures AllFit(ps, k, bufLen) && Start(ps, k) <= PlainSize(ps, k)
  {
    if k > 0 {
      EnoughRoom(ps, k - 1, bufLen);
      PieceRoom(ps[k - 1], Build(ps, k - 1).value.table);
      FitsNext(ps, k - 1, k, Build(ps, k - 1).value, bufLen);
    }
  }

  lemma PieceRoom(p: Piece, table: seq<Entry>)
    requires !p.Raw? ==> |p.v| <= 255 && Short(p.v, [])
    ensures PieceOk(p, table) && (!p.Raw? ==> Need(p.v, table) <= |p.v| + 2)
    ensures |PieceBytes(p, table)| <= if p.Raw? then |p.bytes| else |p.v| + if p.Sized? then 4 else 2
  {
    if !p.Raw? {
      ShortAnyway(p.v, table);
      Sizes(p.v, table);
    }
  }

  lemma MarkedGood(ps: seq<Piece>, k: nat)
    requires |ps| >= 2 && ps[0].Raw? && |ps[0].bytes| == 2 && ps[1].Raw? && |ps[1].bytes| == 2
    requires 2 <= k && Good(ps, k)
    ensures Good(Marked(ps), k) && Start(Marked(ps), k) == Start(ps, k)
  {
    MarkedIs(ps, k);
  }

  /** A response holds exactly the names that end within it: name_parse gives them back, and the
      index behind them. Only a response that is cut ends before a name does. */
  lemma NamesOfResponse(ps: seq<Piece>, nq: nat, k: nat, response: seq<byte>, i: nat, next: nat)
    requires Formatted(ps, nq, k, 0, response) && 6 <= k && next == i + 1 <= k && !ps[i].Raw?
      && forall i :: 0 <= i < k ==> Legal(ps[i])
    requires ps[0].Raw? && |ps[0].bytes| == 2 && ps[1].Raw? && |ps[1].bytes| == 2 && Start(ps, k) <= BUF_LEN + 1
    ensures Build(ps, i).Some? && Build(ps, next).Some?
    ensures NameKept(response, ps[i].v, NameAt(ps[i], Start(ps, i)), Start(ps, next))
  {
    GoodBefore(ps, i, k);
    GoodBefore(ps, next, k);
    Prefix(ps, next, k);
    var a := NameAt(ps[i], Start(ps, i));
    if k == |ps| && Start(ps, k) <= MAX_RESPONSE {
      NamesSurvive(ps, k, i, next, response, |response|, a);
    } else {
      NamesOfCut(ps, k, response, i, next, a);
    }
  }

  /** A name written from a up to b is read back when it ends within the response, and cannot be read otherwise. */
  ghost predicate NameKept(response: seq<byte>, v: seq<byte>, a: nat, b: nat) {
    if b <= |response| then Names(response, a, |response|) == Some(Labels(v)) && End(response, a) == b
    else Names(response, a, |response|) == None
  }

  lemma NamesOfCut(ps: seq<Piece>, k: nat, response: seq<byte>, i: nat, next: nat, a: nat)
    requires |ps| >= 2 && ps[0].Raw? && |ps[0].bytes| == 2 && ps[1].Raw? && |ps[1].bytes| == 2
    requires next == i + 1 <= k && Good(ps, i) && Good(ps, next) && Good(ps, k) && !ps[i].Raw?
      && a == NameAt(ps[i], Start(ps, i))
    requires |response| == MAX_RESPONSE && CutOf(response, ps, k) && Start(ps, next) <= Start(ps, k)
    ensures NameKept(response, ps[i].v, a, Start(ps, next))
  {
    MarkedGood(ps, k);
    MarkedGood(ps, i);
    MarkedGood(ps, next);
    assert Marked(ps)[i] == ps[i];
    NamesSurvive(Marked(ps), k, i, next, response,
      if Start(ps, k) < MAX_RESPONSE then Start(ps, k) else MAX_RESPONSE, a);
  }

  /** The first byte of the buffer that nothing has been written to, when k pieces have been
      written and the next one, if any, refused. */
  function Unwritten(ps: seq<Piece>, k: nat): nat
    requires k <= |ps| && Build(ps, k).Some?
  {
    var m := Build(ps, k).value;
    |m.data| + if k < |ps| && ps[k].Name? then |PieceLeft(ps[k], m.table, |m.data|, BUF_LEN)| else 0
  }

  /** What is written does not depend on the stack. */
  lemma WrittenPart(ps: seq<Piece>, k: nat, s: seq<byte>, t: seq<byte>, i: nat)
    requires |s| == |t| == BUF_LEN + 1 && k <= |ps| && Build(ps, k).Some? && Start(ps, k) <= BUF_LEN + 1
    requires i < Unwritten(ps, k) && i <= BUF_LEN
    ensures Final(ps, k, s, BUF_LEN)[i] == Final(ps, k, t, BUF_LEN)[i]
  {
  }

  lemma StackPart(ps: seq<Piece>, k: nat, s: seq<byte>)
    requires |s| == BUF_LEN + 1 && k <= |ps| && Build(ps, k).Some? && Start(ps, k) <= BUF_LEN + 1
    requires Unwritten(ps, k) <= BUF_LEN
    ensures Final(ps, k, s, BUF_LEN)[Unwritten(ps, k)] == s[Unwritten(ps, k)]
  {
  }

  /** A response that is cut is the same whatever was on the stack exactly when 512 bytes of the
      buffer had been written before a piece was refused. */
  lemma StackShows(ps: seq<Piece>, k: nat)
    requires k <= |ps| && Build(ps, k).Some? && 2 < Start(ps, k) <= BUF_LEN + 1
    ensures (forall s: seq<byte>, t: seq<byte> :: |s| == |t| == BUF_LEN + 1 ==>
      CutBytes(Final(ps, k, s, BUF_LEN)) == CutBytes(Final(ps, k, t, BUF_LEN))) <==> Unwritten(ps, k) >= MAX_RESPONSE
  {
    if Unwritten(ps, k) >= MAX_RESPONSE {
      forall s: seq<byte>, t: seq<byte> | |s| == |t| == BUF_LEN + 1
        ensures CutBytes(Final(ps, k, s, BUF_LEN)) == CutBytes(Final(ps, k, t, BUF_LEN))
      {
        forall i: nat | i < MAX_RESPONSE
          ensures Final(ps, k, s, BUF_LEN)[i] == Final(ps, k, t, BUF_LEN)[i]
        {
          WrittenPart(ps, k, s, t, i);
        }
      }
    } else {
      var s: seq<byte>, t: seq<byte> := seq(BUF_LEN + 1, _ => 0), seq(BUF_LEN + 1, _ => 1);
      StackPart(ps, k, s);
      StackPart(ps, k, t);
      var u := Unwritten(ps, k);
      assert CutBytes(Final(ps, k, s, BUF_LEN))[u] == 0 && CutBytes(Final(ps, k, t, BUF_LEN))[u] == 1;
    }
  }
}
