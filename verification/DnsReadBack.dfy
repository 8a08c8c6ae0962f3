/** Reading a whole response back, one name and its numbers after the other. */
module DnsReadBack {
  import opened Basics
  import opened Chunks
  import opened DnsNames
  import opened DnsEncode
  import opened DnsMessage
  import opened DnsLayout
  import opened DnsFields

  /** Reading the questions of a message from a on gives these, and ends at e. */
  ghost predicate QuestionsRead(d: seq<byte>, a: nat, qs: seq<Question>, e: nat)
    decreases |qs|
  {
    if qs == [] then a == e else
    && Names(d, a, |d|) == Some(Labels(qs[0].name)) && QuestionAt(d, End(d, a), qs[0])
    && QuestionsRead(d, End(d, a) + 4, qs[1..], e)
  }

  /** The length of the data of a reply, behind its name. */
  function DataLength(d: seq<byte>, b: nat): nat
    requires b + 10 <= |d|
  {
    d[b + 8] as int * 256 + d[b + 9]
  }

  /** A reply behind its name: its data is as long as it says, and a name in it ends there. */
  ghost predicate ReplyRead(d: seq<byte>, b: nat, end: nat, x: Reply) {
    && b + 10 <= |d| && end == b + 10 + DataLength(d, b) && ReplyAt(d, b, end, x)
    && (x.data.Host? ==> Names(d, b + 10, |d|) == Some(Labels(x.data.v)) && End(d, b + 10) == end)
  }

  ghost predicate RepliesRead(d: seq<byte>, a: nat, rs: seq<Reply>, e: nat)
    decreases |rs|
  {
    if rs == [] then a == e else
    var b := End(d, a);
    && Names(d, a, |d|) == Some(Labels(rs[0].name)) && b + 10 <= |d|
    && ReplyRead(d, b, b + 10 + DataLength(d, b), rs[0])
    && RepliesRead(d, b + 10 + DataLength(d, b), rs[1..], e)
  }

  /** The names of the message are read back, each up to the start of the next piece. */
  ghost predicate NamesIn(d: seq<byte>, ps: seq<Piece>, w: seq<nat>) {
    && |w| == |ps| + 1 && w[|ps|] == |d|
    && forall i, next :: 0 <= i && next == i + 1 <= |ps| ==> NameIn(d, ps[i], w[i], w[next])
  }

  ghost predicate NameIn(d: seq<byte>, p: Piece, a: nat, e: nat) {
    p.Raw? || (Names(d, NameAt(p, a), |d|) == Some(Labels(p.v)) && End(d, NameAt(p, a)) == e <= |d|)
  }

  lemma NameInMessage(ps: seq<Piece>, d: seq<byte>, w: seq<nat>, i: nat, next: nat)
    requires Good(ps, |ps|) && d == Build(ps, |ps|).value.data && w == Places(ps, |ps|)
    requires next == i + 1 <= |ps|
    ensures NameIn(d, ps[i], w[i], w[next])
  {
    if !ps[i].Raw? {
      PlacesAre(ps, |ps|, i);
      PlacesAre(ps, |ps|, next);
      MessageReads(ps, |ps|, i, next);
      KeptName(d, ps[i], Start(ps, i), Start(ps, next), d, NameAt(ps[i], Start(ps, i)));
    }
  }

  lemma AllNames(ps: seq<Piece>, d: seq<byte>, w: seq<nat>)
    requires Good(ps, |ps|) && d == Build(ps, |ps|).value.data && w == Places(ps, |ps|)
    ensures NamesIn(d, ps, w)
  {
    PlacesAre(ps, |ps|, |ps|);
    forall i, next | 0 <= i && next == i + 1 <= |ps|
      ensures NameIn(d, ps[i], w[i], w[next])
    {
      NameInMessage(ps, d, w, i, next);
    }
  }

  lemma NameThere(d: seq<byte>, ps: seq<Piece>, w: seq<nat>, i: nat, next: nat)
    requires NamesIn(d, ps, w) && next == i + 1 <= |ps| && !ps[i].Raw?
    ensures Names(d, NameAt(ps[i], w[i]), |d|) == Some(Labels(ps[i].v)) && End(d, NameAt(ps[i], w[i])) == w[next] <= |d|
  {
    assert NameIn(d, ps[i], w[i], w[next]);
  }

  /** A whole message: its pieces in their places. */
  ghost predicate Whole(d: seq<byte>, ps: seq<Piece>, w: seq<nat>) {
    && Laid(d, ps, w) && NamesIn(d, ps, w) && |d| <= MAX_RESPONSE
    && forall i :: 0 <= i < |w| ==> w[i] <= |d|
  }

  lemma {:induction false} QuestionsBack(q: Request, d: seq<byte>, ps: seq<Piece>, w: seq<nat>, i: nat, b: nat, m: nat)
    requires ps == Pieces(q) && Whole(d, ps, w)
    requires i <= |q.questions| && b == QuestionAtPiece(i) && m == QuestionAtPiece(|q.questions|)
    ensures b <= m < |w| && QuestionsRead(d, w[b], q.questions[i..], w[m])
    decreases |q.questions| - i
  {
    if i < |q.questions| {
      var c, f := b + 1, b + 3;
      QuestionThere(q, ps, i, b);
      NameThere(d, ps, w, b, c);
      QuestionIn(d, ps, w, q.questions[i], c, b + 2, f);
      QuestionsBack(q, d, ps, w, i + 1, f, m);
      QuestionsCons(d, w[b], q.questions, i, w[f], w[m]);
    }
  }

  lemma QuestionsCons(d: seq<byte>, a: nat, qs: seq<Question>, i: nat, f: nat, e: nat)
    requires i < |qs| && Names(d, a, |d|) == Some(Labels(qs[i].name)) && QuestionAt(d, End(d, a), qs[i])
    requires f == End(d, a) + 4 && QuestionsRead(d, f, qs[i + 1..], e)
    ensures QuestionsRead(d, a, qs[i..], e)
  {
    assert qs[i..][1..] == qs[i + 1..];
  }

  lemma ReplyBack(d: seq<byte>, ps: seq<Piece>, w: seq<nat>, x: Reply, b: nat, c: nat, end: nat)
    requires Laid(d, ps, w) && NamesIn(d, ps, w) && Ends(w, end, |d|) && |d| <= MAX_RESPONSE
    requires 6 <= b && c == b + 1 && b <= end <= |ps| && ps[b..end] == ReplyPiece(x)
    ensures c < end && Names(d, w[b], |d|) == Some(Labels(x.name)) && End(d, w[b]) == w[c]
    ensures ReplyRead(d, w[c], w[end], x)
  {
    ReplyIn(d, ps, w, x, b, c, end);
    DataIs(d, w[c], w[end], x);
    PartsBack(d, ps, w, x, b, c, end);
  }

  /** The names of a reply. */
  lemma PartsBack(d: seq<byte>, ps: seq<Piece>, w: seq<nat>, x: Reply, b: nat, c: nat, end: nat)
    requires Laid(d, ps, w) && NamesIn(d, ps, w) && Ends(w, end, |d|)
    requires 6 <= b && c == b + 1 && b <= end <= |ps| && ps[b..end] == ReplyPiece(x)
    ensures c < end && Names(d, w[b], |d|) == Some(Labels(x.name)) && End(d, w[b]) == w[c]
    ensures x.data.Host? ==> Names(d, w[c] + 10, |d|) == Some(Labels(x.data.v)) && End(d, w[c] + 10) == w[end]
  {
    var e, f, g, h := c + 1, c + 2, c + 3, c + 4;
    ReplyParts(ps, x, b, c, e, f, g, h, end);
    NameThere(d, ps, w, b, c);
    if x.data.Host? {
      HostBack(d, ps, w, x, c, e, f, g, end);
    }
  }

  lemma DataIs(d: seq<byte>, b: nat, end: nat, x: Reply)
    requires ReplyAt(d, b, end, x) && |d| <= MAX_RESPONSE
    ensures end == b + 10 + DataLength(d, b)
  {
  }

  lemma HostBack(d: seq<byte>, ps: seq<Piece>, w: seq<nat>, x: Reply, c: nat, e: nat, f: nat, g: nat, end: nat)
    requires Laid(d, ps, w) && NamesIn(d, ps, w) && Ends(w, end, |d|)
    requires 6 <= c && e == c + 1 && f == e + 1 && g == f + 1 && end == g + 1
    requires ps[c] == Raw(U16(x.typ)) && ps[e] == Raw(U16(x.class_)) && ps[f] == Raw(U32(x.ttl))
    requires x.data.Host? && ps[g] == Sized(x.data.v)
    ensures Names(d, w[c] + 10, |d|) == Some(Labels(x.data.v)) && End(d, w[c] + 10) == w[end]
  {
    HostIn(d, ps, w, x, c, e, f, g, end);
    NameThere(d, ps, w, g, end);
  }

  lemma {:induction false} RepliesBack(q: Request, d: seq<byte>, ps: seq<Piece>, w: seq<nat>, i: nat, b: nat)
    requires ps == Pieces(q) && Whole(d, ps, w) && i <= |Replies(q)| && b == ReplyAtPiece(q, i)
    ensures b < |w| && RepliesRead(d, w[b], Replies(q)[i..], |d|)
    decreases |Replies(q)| - i
  {
    if i < |Replies(q)| {
      var end := ReplyAtPiece(q, i + 1);
      ReplyThere(q, ps, i, b, end);
      ReplyBack(d, ps, w, Replies(q)[i], b, b + 1, end);
      RepliesBack(q, d, ps, w, i + 1, end);
      RepliesCons(d, w[b], Replies(q), i, w[end], |d|);
    } else {
      PiecesAre(q);
    }
  }

  lemma RepliesCons(d: seq<byte>, a: nat, rs: seq<Reply>, i: nat, end: nat, e: nat)
    requires i < |rs| && Names(d, a, |d|) == Some(Labels(rs[i].name)) && ReplyRead(d, End(d, a), end, rs[i])
    requires RepliesRead(d, end, rs[i + 1..], e)
    ensures RepliesRead(d, a, rs[i..], e)
  {
    assert rs[i..][1..] == rs[i + 1..];
  }

  lemma {:induction false} PlacesWithin(ps: seq<Piece>, k: nat)
    requires k <= |ps| && Build(ps, k).Some?
    ensures forall i :: 0 <= i <= k ==> Places(ps, k)[i] <= Start(ps, k)
  {
    if k > 0 {
      PlacesWithin(ps, k - 1);
    }
  }

  lemma WholeResponse(q: Request, ps: seq<Piece>, nq: nat, response: seq<byte>, w: seq<nat>)
    requires ps == Pieces(q) && Formatted(ps, nq, |ps|, 0, response) && Start(ps, |ps|) <= MAX_RESPONSE
    requires w == Places(ps, |ps|) && forall i :: 0 <= i < |ps| ==> Legal(ps[i])
    ensures HeaderAt(response, q, false) && Whole(response, ps, w) && w[6] == 12
  {
    HeaderFirst(q, ps);
    RawFit(ps, 6);
    PlacesAre(ps, |ps|, 6);
    Prefix(ps, 6, |ps|);
    HeaderIs(q, ps, |ps|, response, false);
    ResponseLaid(q, ps, |ps|, w, response, false);
    AllNames(ps, response, w);
    PlacesWithin(ps, |ps|);
  }

  lemma BothBack(q: Request, d: seq<byte>, ps: seq<Piece>, w: seq<nat>, b: nat)
    requires ps == Pieces(q) && Whole(d, ps, w) && b == QuestionAtPiece(|q.questions|) && w[6] == 12
    ensures exists m: nat :: QuestionsRead(d, 12, q.questions, m) && RepliesRead(d, m, Replies(q), |d|)
  {
    QuestionsBack(q, d, ps, w, 0, 6, b);
    assert Replies(q)[..0] == [];
    RepliesBack(q, d, ps, w, 0, b);
    assert q.questions[0..] == q.questions && Replies(q)[0..] == Replies(q);
    assert QuestionsRead(d, 12, q.questions, w[b]) && RepliesRead(d, w[b], Replies(q), |d|);
  }

  /** A response that is not cut is read back as what it answers: behind the header the questions,
      then the answers, the authority section and the additional one, and nothing else. */
  lemma ReadBack(q: Request, ps: seq<Piece>, nq: nat, response: seq<byte>)
    requires ps == Pieces(q) && Formatted(ps, nq, |ps|, 0, response) && Start(ps, |ps|) <= MAX_RESPONSE
    requires forall i :: 0 <= i < |ps| ==> Legal(ps[i])
    ensures HeaderAt(response, q, false)
    ensures exists m: nat ::
      QuestionsRead(response, 12, q.questions, m) && RepliesRead(response, m, Replies(q), |response|)
  {
    var w := Places(ps, |ps|);
    WholeResponse(q, ps, nq, response, w);
    BothBack(q, response, ps, w, QuestionAtPiece(|q.questions|));
  }
}
