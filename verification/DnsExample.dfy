/** A response that leaves its buffer, and one that shows what was in it before (evdns.c:1890-1985). */
module DnsExample {
  import opened Basics
  import opened Chunks
  import opened DnsNames
  import opened DnsEncode
  import opened DnsMessage
  import opened DnsLayout
  import opened DnsResponse

  /** The first k pieces fit, and end at position a with this table. */
  predicate At(ps: seq<Piece>, k: nat, a: nat, table: seq<Entry>) {
    && k <= |ps| && AllFit(ps, k, BUF_LEN)
    && Build(ps, k) != None && Start(ps, k) == a && Build(ps, k).value.table == table
  }

  lemma AtNext(ps: seq<Piece>, k: nat, next: nat, a: nat, b: nat, table: seq<Entry>, p: Piece)
    requires At(ps, k, a, table) && k < |ps| && next == k + 1 && ps[k] == p && PieceFits(p, table, a, BUF_LEN)
    requires PieceOk(p, table) && b == a + |PieceBytes(p, table)|
    ensures At(ps, next, b, PieceTable(p, table, a))
  {
    FitsNext(ps, k, next, Build(ps, k).value, BUF_LEN);
  }

  lemma RawNext(ps: seq<Piece>, k: nat, next: nat, a: nat, b: nat, table: seq<Entry>)
    requires At(ps, k, a, table) && k < |ps| && next == k + 1 && ps[k].Raw? && b == a + |ps[k].bytes| <= BUF_LEN
    ensures At(ps, next, b, table)
  {
    AtNext(ps, k, next, a, b, table, ps[k]);
  }

  lemma {:induction false} HeaderAt(ps: seq<Piece>, k: nat)
    requires k <= |ps| && k <= 6 && forall i :: 0 <= i < k ==> ps[i].Raw? && |ps[i].bytes| == 2
    ensures At(ps, k, 2 * k, [])
  {
    if k > 0 {
      HeaderAt(ps, k - 1);
      RawNext(ps, k - 1, k, 2 * (k - 1), 2 * k, []);
    }
  }

  lemma RootNames(table: seq<Entry>)
    requires table == [Entry([], 12)]
    ensures Fits([], [], 12, BUF_LEN) && |Enc([], [])| == 1 && After([], [], [], 12) == table
    ensures Fits([], table, 17, BUF_LEN) && |Enc([], table)| == 2 && After([], table, table, 17) == table
    ensures Fits([97, 98], table, 1497, BUF_LEN) && |Enc([97, 98], table)| == 4
  {
    var name: seq<byte>, root: seq<byte> := [97, 98], [];
    assert FirstDot(name) == 2 && FirstDot(root) == 0;
    assert table[1..] == [] && Lookup(table, root) == 12 && Lookup(table, name) == -1;
  }

  /** The pieces of a question for the root, an answer of n bytes for it, and an answer for "ab". */
  predicate Long(ps: seq<Piece>, n: nat) {
    && |ps| == 21 && ps[6] == ps[9] == Name([]) && ps[15] == Name([97, 98])
    && (forall i :: 0 <= i < 21 && i !in {6, 9, 15} ==> ps[i].Raw?)
    && (forall i :: 0 <= i < 21 && i !in {6, 9, 12, 14, 15, 18, 20} ==> |ps[i].bytes| == 2)
    && |ps[12].bytes| == 4 && |ps[14].bytes| == n
  }

  lemma LongFits(ps: seq<Piece>, n: nat, t: seq<Entry>)
    requires Long(ps, n) && t == [Entry([], 12)]
    ensures At(ps, 14, 29, t)
  {
    RootNames(t);
    HeaderAt(ps, 6);
    AtNext(ps, 6, 7, 12, 13, [], ps[6]);
    RawNext(ps, 7, 8, 13, 15, t);
    RawNext(ps, 8, 9, 15, 17, t);
    AtNext(ps, 9, 10, 17, 19, t, ps[9]);
    RawNext(ps, 10, 11, 19, 21, t);
    RawNext(ps, 11, 12, 21, 23, t);
    RawNext(ps, 12, 13, 23, 27, t);
    RawNext(ps, 13, 14, 27, 29, t);
  }

  lemma LongEnds(ps: seq<Piece>)
    requires Long(ps, 1468)
    ensures AllFit(ps, 16, BUF_LEN) && Start(ps, 16) == BUF_LEN + 1 && !AllFit(ps, 17, BUF_LEN)
  {
    var t := [Entry([], 12)];
    LongFits(ps, 1468, t);
    RawNext(ps, 14, 15, 29, 1497, t);
    RootNames(t);
    AtNext(ps, 15, 16, 1497, BUF_LEN + 1, t, ps[15]);
  }

  lemma LongStops(ps: seq<Piece>, n: nat)
    requires Long(ps, n) && 29 + n > BUF_LEN
    ensures AllFit(ps, 14, BUF_LEN) && Start(ps, 14) == 29 && !AllFit(ps, 15, BUF_LEN) && ps[14].Raw?
  {
    LongFits(ps, n, [Entry([], 12)]);
  }

  lemma LongPieces(q: Request, first: Reply, second: Reply)
    requires q.questions == [Question([], 1, 1)] && q.answers == [first, second] && q.authority == q.additional == []
    ensures Pieces(q) == Header(q) + [Name([]), Raw(U16(1)), Raw(U16(1))] + ReplyPiece(first) + ReplyPiece(second)
  {
    assert QuestionPieces(q.questions) == [Name([]), Raw(U16(1)), Raw(U16(1))];
    assert q.answers[..1] == [first] && [first][..0] == [];
    assert ReplyPieces([first]) == ReplyPiece(first);
    assert ReplyPieces(q.answers) == ReplyPiece(first) + ReplyPiece(second);
  }

  lemma IsLong(q: Request, first: Reply, second: Reply, ps: seq<Piece>)
    requires ps == Header(q) + [Name([]), Raw(U16(1)), Raw(U16(1))] + ReplyPiece(first) + ReplyPiece(second)
    requires first.name == [] && first.data.Opaque?
    requires second.name == [97, 98] && second.data.Opaque?
    ensures Long(ps, |first.data.bytes|)
  {
    var r, s := ReplyPiece(first), ReplyPiece(second);
    assert forall i :: 0 <= i < 6 ==> ps[i] == Header(q)[i];
    assert forall i :: 9 <= i < 15 ==> ps[i] == r[i - 9];
    assert forall i :: 15 <= i < 21 ==> ps[i] == s[i - 15];
  }

  lemma FitUpTo(ps: seq<Piece>, i: nat, k: nat, bufLen: nat)
    requires i < |ps| && AllFit(ps, i, bufLen) && !AllFit(ps, i + 1, bufLen)
    requires k <= |ps| && AllFit(ps, k, bufLen) && (k < |ps| ==> !AllFit(ps, k + 1, bufLen))
    ensures k == i
  {
    if k < i {
      FitBefore(ps, k + 1, i, bufLen);
    } else if k > i {
      FitBefore(ps, i + 1, k, bufLen);
    }
  }

  /** A response of the server writes the byte behind its buffer: a question for the root, an
      answer of 1468 bytes for it, and another answer, for "ab". */
  method OverrunExample(bytes: seq<byte>, stack: seq<byte>) returns (code: int, response: seq<byte>, overran: bool)
    requires |bytes| == 1468 && |stack| == BUF_LEN + 1
    ensures code == 0 && |response| == MAX_RESPONSE && overran
  {
    var first, second := Reply([], 1, 1, 0, Opaque(bytes)), Reply([97, 98], 1, 1, 0, Opaque([]));
    var q := Request(1, 0x8000, [Question([], 1, 1)], [first, second], [], []);
    var k;
    ghost var ps := Pieces(q);
    LongPieces(q, first, second);
    IsLong(q, first, second, ps);
    code, response, k, overran := FormatResponse(q, stack);
    LongEnds(ps);
    FitUpTo(ps, 16, k, BUF_LEN);
  }

  /** A response that carries what was on the stack: the first answer does not fit. */
  method StackExample(bytes: seq<byte>, stack: seq<byte>) returns (code: int, response: seq<byte>)
    requires |bytes| > 1471 && |stack| == BUF_LEN + 1
    ensures code == 0 && |response| == MAX_RESPONSE && response[29..] == stack[29..MAX_RESPONSE]
  {
    var first, second := Reply([], 1, 1, 0, Opaque(bytes)), Reply([97, 98], 1, 1, 0, Opaque([]));
    var q := Request(1, 0x8000, [Question([], 1, 1)], [first, second], [], []);
    var k, overran;
    ghost var ps := Pieces(q);
    LongPieces(q, first, second);
    IsLong(q, first, second, ps);
    code, response, k, overran := FormatResponse(q, stack);
    LongStops(ps, |bytes|);
    FitUpTo(ps, 14, k, BUF_LEN);
    StackBehind(ps, k, 29, stack);
  }

  lemma StackBehind(ps: seq<Piece>, k: nat, j: nat, stack: seq<byte>)
    requires k < |ps| && |stack| == BUF_LEN + 1 && Build(ps, k).Some? && 2 < j == Start(ps, k) < MAX_RESPONSE
    requires ps[k].Raw?
    ensures CutBytes(Final(ps, k, stack, BUF_LEN))[j..] == stack[j..MAX_RESPONSE]
  {
    BehindData(stack, Build(ps, k).value.data, j);
  }

  lemma BehindData(stack: seq<byte>, d: seq<byte>, j: nat)
    requires |stack| == BUF_LEN + 1 && 2 < j == |d| < MAX_RESPONSE
    ensures CutBytes(Overwrite(stack, 0, d))[j..] == stack[j..MAX_RESPONSE]
  {
  }
}
