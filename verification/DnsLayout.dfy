/** The response of a DNS server, piece by piece (evdns.c:1890-1985). */
module DnsLayout {
  import opened Basics
  import opened Chunks
  import opened DnsNames
  import opened DnsEncode
  import opened DnsMessage

  /** The size of the buffer on the stack, and of the largest response. */
  const BUF_LEN: nat := 1500
  const MAX_RESPONSE: nat := 512

  /** What a reply item carries: a name, or plain bytes. */
  datatype Data = Host(v: seq<byte>) | Opaque(bytes: seq<byte>)
  datatype Question = Question(name: seq<byte>, typ: nat, class_: nat)
  datatype Reply = Reply(name: seq<byte>, typ: nat, class_: nat, ttl: nat, data: Data)
  datatype Request = Request(id: nat, flags: nat, questions: seq<Question>, answers: seq<Reply>,
      authority: seq<Reply>, additional: seq<Reply>)

  function Header(q: Request): (r: seq<Piece>)
    ensures |r| == 6
  {
    [Raw(U16(q.id)), Raw(U16(q.flags)), Raw(U16(|q.questions|)), Raw(U16(|q.answers|)), Raw(U16(|q.authority|)),
      Raw(U16(|q.additional|))]
  }

  function QuestionPieces(qs: seq<Question>): (r: seq<Piece>)
    ensures |r| == 3 * |qs|
  {
    if qs == [] then [] else
    QuestionPieces(qs[..|qs| - 1])
    + [Name(qs[|qs| - 1].name), Raw(U16(qs[|qs| - 1].typ)), Raw(U16(qs[|qs| - 1].class_))]
  }

  function ReplyPiece(x: Reply): seq<Piece> {
    [Name(x.name), Raw(U16(x.typ)), Raw(U16(x.class_)), Raw(U32(x.ttl))]
    + match x.data
      case Host(v) => [Sized(v)]
      case Opaque(bytes) => [Raw(U16(|bytes|)), Raw(bytes)]
  }

  function ReplyPieces(rs: seq<Reply>): seq<Piece> {
    if rs == [] then [] else ReplyPieces(rs[..|rs| - 1]) + ReplyPiece(rs[|rs| - 1])
  }

  /** The response, piece by piece, in the order in which the code writes it. */
  function Pieces(q: Request): (r: seq<Piece>)
    ensures |r| >= 6 + 3 * |q.questions|
  {
    Header(q) + QuestionPieces(q.questions) + ReplyPieces(q.answers) + ReplyPieces(q.authority)
      + ReplyPieces(q.additional)
  }

  /** buf[2] |= 0x02 */
  function SetTruncated(b: byte): (r: byte)
    ensures r / 2 % 2 == 1 && r % 2 == b % 2 && r / 4 == b / 4
  {
    if b / 2 % 2 == 1 then b else b + 2
  }

  /** The same message with the bit for truncation set; byte 2 is the first one of piece 1. */
  function Marked(ps: seq<Piece>): (r: seq<Piece>)
    requires |ps| >= 2 && ps[1].Raw? && |ps[1].bytes| == 2
    ensures |r| == |ps|
  {
    ps[1 := Raw([SetTruncated(ps[1].bytes[0]), ps[1].bytes[1]])]
  }

  /** The bit makes no difference to the names, and none to where they are. */
  lemma {:induction false} MarkedIs(ps: seq<Piece>, k: nat)
    requires |ps| >= 2 && ps[0].Raw? && |ps[0].bytes| == 2 && ps[1].Raw? && |ps[1].bytes| == 2
    requires 2 <= k <= |ps| && Build(ps, k).Some?
    ensures Build(Marked(ps), k).Some? && Build(Marked(ps), k).value.table == Build(ps, k).value.table
    ensures |Build(ps, k).value.data| > 2
    ensures Build(Marked(ps), k).value.data == Build(ps, k).value.data[2 := SetTruncated(Build(ps, k).value.data[2])]
  {
    if k == 2 {
      MarkedTwo(ps);
    } else {
      MarkedIs(ps, k - 1);
      MarkedNext(Build(ps, k - 1).value, Build(Marked(ps), k - 1).value, ps[k - 1]);
    }
  }

  lemma MarkedTwo(ps: seq<Piece>)
    requires |ps| >= 2 && ps[0].Raw? && |ps[0].bytes| == 2 && ps[1].Raw? && |ps[1].bytes| == 2
    ensures Build(ps, 2) == Some(Msg(ps[0].bytes + ps[1].bytes, []))
    ensures Build(Marked(ps), 2) == Some(Msg((ps[0].bytes + ps[1].bytes)[2 := SetTruncated(ps[1].bytes[0])], []))
  {
    assert Build(ps, 1) == Some(Msg([] + ps[0].bytes, []));
    assert Build(Marked(ps), 1) == Some(Msg([] + ps[0].bytes, []));
    assert [] + ps[0].bytes == ps[0].bytes;
    assert ps[0].bytes + Marked(ps)[1].bytes == (ps[0].bytes + ps[1].bytes)[2 := SetTruncated(ps[1].bytes[0])];
  }

  lemma MarkedNext(m: Msg, n: Msg, p: Piece)
    requires PieceOk(p, m.table) && n.table == m.table && |m.data| > 2 && n.data == m.data[2 := SetTruncated(m.data[2])]
    ensures Extend(n, p).table == Extend(m, p).table
    ensures Extend(n, p).data == Extend(m, p).data[2 := SetTruncated(Extend(m, p).data[2])]
  {
  }

  /** The header always fits. */
  lemma HeaderFits(q: Request, ps: seq<Piece>)
    requires ps == Pieces(q)
    ensures AllFit(ps, 6, BUF_LEN) && ps[0].Raw? && |ps[0].bytes| == 2 && ps[1].Raw? && |ps[1].bytes| == 2
  {
    assert ps[..6] == Header(q);
    assert forall i :: 0 <= i < 6 ==> ps[i] == Header(q)[i];
    RawFit(ps, 6);
  }

  lemma {:induction false} RawFit(ps: seq<Piece>, k: nat)
    requires k <= |ps| && k <= 6 && forall i :: 0 <= i < k ==> ps[i].Raw? && |ps[i].bytes| == 2
    ensures AllFit(ps, k, BUF_LEN) && Start(ps, k) == 2 * k
  {
    if k > 0 {
      RawFit(ps, k - 1);
    }
  }

  lemma {:induction false} FitBefore(ps: seq<Piece>, i: nat, k: nat, bufLen: nat)
    requires i <= k <= |ps| && AllFit(ps, k, bufLen)
    ensures AllFit(ps, i, bufLen)
  {
    if i < k {
      FitBefore(ps, i, k - 1, bufLen);
    }
  }

  /** The response agrees with the marked message as far as both go. */
  predicate CutOf(response: seq<byte>, ps: seq<Piece>, k: nat)
    requires k <= |ps| && Build(ps, k).Some?
  {
    && |ps| >= 2 && ps[1].Raw? && |ps[1].bytes| == 2
    && Build(Marked(ps), k).Some? && Start(Marked(ps), k) == Start(ps, k)
    && Agrees(response, Marked(ps), k, if Start(ps, k) < MAX_RESPONSE then Start(ps, k) else MAX_RESPONSE)
  }

  /** The outcome, when k pieces fit: nothing when the name of a question, which are among the
      first nq pieces, does not; the message when it is complete and not too long; otherwise
      the first 512 bytes of the buffer with the bit for truncation set. */
  ghost predicate Formatted(ps: seq<Piece>, nq: nat, k: nat, code: int, response: seq<byte>) {
    && k <= |ps| && nq <= |ps| && AllFit(ps, k, BUF_LEN) && (k < |ps| ==> !AllFit(ps, k + 1, BUF_LEN))
    && code == (if k < nq && ps[k].Name? then Code(ps[k].v, Build(ps, k).value.table, Start(ps, k), BUF_LEN) else 0)
    && (code == 0 ==>
      if k == |ps| && Start(ps, k) <= MAX_RESPONSE then response == Build(ps, k).value.data
      else |response| == MAX_RESPONSE && CutOf(response, ps, k))
  }
}
