/** The fields of a response as the bytes that they are, most significant byte first. */
module DnsFields {
  import opened Basics
  import opened Chunks
  import opened DnsMessage
  import opened DnsLayout

  /** 16 bits of n, at position a. */
  predicate Be16(d: seq<byte>, a: nat, n: nat) {
    a + 2 <= |d| && d[a] as int * 256 + d[a + 1] == n % 65536
  }

  predicate Be32(d: seq<byte>, a: nat, n: nat) {
    && a + 4 <= |d|
    && d[a] as int * 0x100_0000 + d[a + 1] as int * 0x1_0000 + d[a + 2] as int * 0x100 + d[a + 3] == n % 0x1_0000_0000
  }

  /** The flags word of a response; 0x0200 says that it is cut. */
  function FlagsOf(flags: nat, cut: bool): nat {
    if cut && flags / 0x200 % 2 == 0 then flags + 0x200 else flags
  }

  /** The header: the id, the flags, and four counts. */
  predicate HeaderAt(d: seq<byte>, q: Request, cut: bool) {
    && Be16(d, 0, q.id) && Be16(d, 2, FlagsOf(q.flags, cut))
    && Be16(d, 4, |q.questions|) && Be16(d, 6, |q.answers|) && Be16(d, 8, |q.authority|) && Be16(d, 10, |q.additional|)
  }

  /** Behind the name of a question. */
  predicate QuestionAt(d: seq<byte>, a: nat, x: Question) {
    Be16(d, a, x.typ) && Be16(d, a + 2, x.class_)
  }

  /** Behind the name of a reply that ends at position end. */
  predicate ReplyAt(d: seq<byte>, a: nat, end: nat, x: Reply) {
    && Be16(d, a, x.typ) && Be16(d, a + 2, x.class_) && Be32(d, a + 4, x.ttl) && a + 10 <= end <= |d|
    && Be16(d, a + 8, end - (a + 10)) && (x.data.Opaque? ==> d[a + 10..end] == x.data.bytes)
  }

  /** The answers, then the authority section, then the additional one. */
  function Replies(q: Request): seq<Reply> {
    q.answers + q.authority + q.additional
  }

  /** The piece with the name of question i, and of reply i. */
  function QuestionAtPiece(i: nat): nat {
    6 + 3 * i
  }

  function ReplyAtPiece(q: Request, i: nat): nat
    requires i <= |Replies(q)|
  {
    6 + 3 * |q.questions| + |ReplyPieces(Replies(q)[..i])|
  }

  lemma {:induction false} RepliesJoin(xs: seq<Reply>, ys: seq<Reply>)
    ensures ReplyPieces(xs + ys) == ReplyPieces(xs) + ReplyPieces(ys)
    decreases |ys|
  {
    if ys == [] {
      assert xs + ys == xs;
    } else {
      var front, last, zs := ys[..|ys| - 1], ys[|ys| - 1], xs + ys;
      RepliesJoin(xs, front);
      assert zs[..|zs| - 1] == xs + front && zs[|zs| - 1] == last;
      Joined(ReplyPieces(xs), ReplyPieces(front), ReplyPiece(last));
    }
  }

  lemma Joined(a: seq<Piece>, b: seq<Piece>, c: seq<Piece>)
    ensures (a + b) + c == a + (b + c)
  {
  }

  lemma PiecesAre(q: Request)
    ensures Pieces(q) == (Header(q) + QuestionPieces(q.questions)) + ReplyPieces(Replies(q))
    ensures ReplyAtPiece(q, |Replies(q)|) == |Pieces(q)|
  {
    var top := Header(q) + QuestionPieces(q.questions);
    var a, b, c := ReplyPieces(q.answers), ReplyPieces(q.authority), ReplyPieces(q.additional);
    RepliesJoin(q.answers, q.authority);
    RepliesJoin(q.answers + q.authority, q.additional);
    Joined(top, a, b);
    Joined(top, a + b, c);
    assert Replies(q)[..|Replies(q)|] == Replies(q);
  }

  /** The three pieces of question i. */
  lemma {:induction false} QuestionPiece(qs: seq<Question>, i: nat)
    requires i < |qs|
    ensures var ps := QuestionPieces(qs); var x := qs[i];
      ps[3 * i] == Name(x.name) && ps[3 * i + 1] == Raw(U16(x.typ)) && ps[3 * i + 2] == Raw(U16(x.class_))
    decreases |qs|
  {
    if i < |qs| - 1 {
      QuestionPiece(qs[..|qs| - 1], i);
    }
  }

  /** The pieces of reply i. */
  lemma {:induction false} ReplyPieceAt(rs: seq<Reply>, i: nat, b: nat, e: nat)
    requires i < |rs| && b == |ReplyPieces(rs[..i])| && e == |ReplyPieces(rs[..i + 1])|
    ensures b <= e <= |ReplyPieces(rs)| && ReplyPieces(rs)[b..e] == ReplyPiece(rs[i])
    decreases |rs|
  {
    var front := rs[..|rs| - 1];
    if i < |rs| - 1 {
      assert front[..i] == rs[..i] && front[..i + 1] == rs[..i + 1];
      ReplyPieceAt(front, i, b, e);
    } else {
      assert rs[..i + 1] == rs && rs[..i] == front;
    }
  }

  /** Every piece is in the message as it was written. */
  lemma PieceThere(ps: seq<Piece>, k: nat, i: nat, next: nat)
    requires next == i + 1 <= k <= |ps| && Build(ps, k).Some?
    ensures Build(ps, i).Some? && Build(ps, next).Some? && PieceOk(ps[i], Build(ps, i).value.table)
    ensures var b := PieceBytes(ps[i], Build(ps, i).value.table);
      && Start(ps, next) == Start(ps, i) + |b| && Start(ps, next) <= Start(ps, k)
      && Build(ps, k).value.data[Start(ps, i)..Start(ps, next)] == b
  {
    Prefix(ps, next, k);
    Prefix(ps, i, next);
    var b := PieceBytes(ps[i], Build(ps, i).value.table);
    Behind(Build(ps, i).value.data, b, Build(ps, next).value.data, Build(ps, k).value.data);
  }

  lemma Behind(a: seq<byte>, b: seq<byte>, c: seq<byte>, d: seq<byte>)
    requires c == a + b && c <= d
    ensures d[|a|..|c|] == b
  {
  }

  /** The response is cut when a piece was refused, or the message is too long. */
  predicate IsCut(ps: seq<Piece>, k: nat)
    requires k <= |ps| && Build(ps, k).Some?
  {
    k < |ps| || Start(ps, k) > MAX_RESPONSE
  }

  predicate StartsRaw(ps: seq<Piece>) {
    |ps| >= 6 && forall i :: 0 <= i < 6 ==> ps[i].Raw? && |ps[i].bytes| == 2
  }

  /** What is in a response is the message, but for the bit in byte 2. */
  predicate Carries(response: seq<byte>, d: seq<byte>, cut: bool) {
    && |d| >= 12 && |response| >= 12 && (forall p :: 0 <= p < |response| && p < |d| && p != 2 ==> response[p] == d[p])
    && response[2] == if cut then SetTruncated(d[2]) else d[2]
  }

  lemma ResponseCarries(ps: seq<Piece>, nq: nat, k: nat, response: seq<byte>)
    requires StartsRaw(ps) && 6 <= k && Formatted(ps, nq, k, 0, response)
    ensures Build(ps, 6).Some? && Start(ps, 6) == 12
    ensures Carries(response, Build(ps, k).value.data, IsCut(ps, k))
  {
    FitBefore(ps, 6, k, BUF_LEN);
    RawFit(ps, 6);
    Prefix(ps, 6, k);
    if IsCut(ps, k) {
      MarkedIs(ps, k);
      var d, m := Build(ps, k).value.data, if Start(ps, k) < MAX_RESPONSE then Start(ps, k) else MAX_RESPONSE;
      CutCarries(response, d, d[2 := SetTruncated(d[2])], m);
    }
  }

  lemma CutCarries(response: seq<byte>, d: seq<byte>, marked: seq<byte>, m: nat)
    requires |d| >= 12 && marked == d[2 := SetTruncated(d[2])] && |response| == MAX_RESPONSE
    requires m == (if |d| < MAX_RESPONSE then |d| else MAX_RESPONSE) && response[..m] == marked[..m]
    ensures Carries(response, d, true)
  {
    forall p | 0 <= p < m
      ensures response[p] == marked[p]
    {
      assert response[..m][p] == marked[..m][p];
    }
  }

  /** A piece behind the header is in the response when it ends within it. */
  lemma PieceCarried(ps: seq<Piece>, k: nat, response: seq<byte>, cut: bool, i: nat, next: nat)
    requires next == i + 1 <= k <= |ps| && Build(ps, k).Some? && Carries(response, Build(ps, k).value.data, cut)
    requires Build(ps, i).Some? && Build(ps, next).Some? && 12 <= Start(ps, i) && Start(ps, next) <= |response|
    ensures PieceOk(ps[i], Build(ps, i).value.table)
    ensures var b := PieceBytes(ps[i], Build(ps, i).value.table);
      Start(ps, next) == Start(ps, i) + |b| && response[Start(ps, i)..Start(ps, next)] == b
  {
    PieceThere(ps, k, i, next);
  }

  lemma HeaderFirst(q: Request, ps: seq<Piece>)
    requires ps == Pieces(q)
    ensures StartsRaw(ps) && ps[..6] == Header(q)
  {
  }

  /** Field i of the header is in the message. */
  lemma HeaderField(q: Request, ps: seq<Piece>, k: nat, i: nat, next: nat)
    requires ps == Pieces(q) && next == i + 1 <= 6 <= k <= |ps| && Build(ps, k).Some?
    ensures 2 * next <= Start(ps, k) && Build(ps, k).value.data[2 * i..2 * next] == Header(q)[i].bytes
  {
    HeaderFirst(q, ps);
    assert ps[i] == ps[..6][i];
    RawFit(ps, i);
    PieceThere(ps, k, i, next);
  }

  lemma Field16(d: seq<byte>, a: nat, b: nat, n: nat)
    requires b == a + 2 <= |d| && d[a..b] == U16(n)
    ensures Be16(d, a, n)
  {
    U16Is(n);
    assert d[a] == d[a..b][0] && d[a + 1] == d[a..b][1];
  }

  lemma Field32(d: seq<byte>, a: nat, b: nat, n: nat)
    requires b == a + 4 <= |d| && d[a..b] == U32(n)
    ensures Be32(d, a, n)
  {
    U32Is(n);
    var e := d[a..b];
    assert d[a] == e[0] && d[a + 1] == e[1] && d[a + 2] == e[2] && d[a + 3] == e[3];
  }

  /** The bit for truncation is the second one of the first byte of the flags. */
  lemma FlagBit(flags: nat, hi: byte, lo: byte)
    requires hi as int * 256 + lo == flags % 65536
    ensures SetTruncated(hi) as int * 256 + lo == FlagsOf(flags, true) % 65536
  {
    var q, h: nat := flags / 65536, hi / 2;
    var r: nat := hi as int * 256 + lo;
    RemainderIs(flags, 0x200, 128 * q + h, hi as int % 2 * 256 + lo);
    RemainderIs(128 * q + h, 2, 64 * q + h / 2, h % 2);
    if h % 2 == 0 {
      RemainderIs(flags + 0x200, 65536, q, r + 0x200);
    }
  }

  /** The header of a response. */
  lemma HeaderIs(q: Request, ps: seq<Piece>, k: nat, response: seq<byte>, cut: bool)
    requires ps == Pieces(q) && 6 <= k <= |ps| && Build(ps, k).Some?
    requires Carries(response, Build(ps, k).value.data, cut)
    ensures HeaderAt(response, q, cut)
  {
    var d := Build(ps, k).value.data;
    HeaderField(q, ps, k, 0, 1);
    HeaderField(q, ps, k, 1, 2);
    HeaderField(q, ps, k, 2, 3);
    HeaderField(q, ps, k, 3, 4);
    HeaderField(q, ps, k, 4, 5);
    HeaderField(q, ps, k, 5, 6);
    Field16(d, 0, 2, q.id);
    Field16(d, 2, 4, q.flags);
    Field16(d, 4, 6, |q.questions|);
    Field16(d, 6, 8, |q.answers|);
    Field16(d, 8, 10, |q.authority|);
    Field16(d, 10, 12, |q.additional|);
    FlagBit(q.flags, d[2], d[3]);
  }

  /** The pieces of question i in the whole. */
  lemma QuestionThere(q: Request, ps: seq<Piece>, i: nat, b: nat)
    requires ps == Pieces(q) && i < |q.questions| && b == QuestionAtPiece(i)
    ensures b + 3 <= |ps| && ps[b] == Name(q.questions[i].name)
    ensures ps[b + 1] == Raw(U16(q.questions[i].typ)) && ps[b + 2] == Raw(U16(q.questions[i].class_))
  {
    QuestionPiece(q.questions, i);
    PiecesAre(q);
    Middle(Header(q), QuestionPieces(q.questions), ReplyPieces(Replies(q)), ps, 3 * i, b);
  }

  lemma Middle(a: seq<Piece>, b: seq<Piece>, c: seq<Piece>, ps: seq<Piece>, i: nat, j: nat)
    requires ps == (a + b) + c && i + 3 <= |b| && j == |a| + i
    ensures j + 3 <= |ps| && ps[j] == b[i] && ps[j + 1] == b[i + 1] && ps[j + 2] == b[i + 2]
  {
  }

  lemma BehindHeader(q: Request, ps: seq<Piece>, k: nat, i: nat)
    requires ps == Pieces(q) && 6 <= i <= k <= |ps| && Build(ps, k).Some?
    ensures Build(ps, i).Some? && 12 <= Start(ps, i) <= Start(ps, k)
  {
    HeaderFirst(q, ps);
    RawFit(ps, 6);
    Prefix(ps, i, k);
    Prefix(ps, 6, i);
  }

  /** Two numbers behind the name of a question. */
  lemma QuestionFrom(response: seq<byte>, x: Question, a: nat, b: nat, c: nat)
    requires b == a + 2 && c == b + 2 <= |response| && response[a..b] == U16(x.typ) && response[b..c] == U16(x.class_)
    ensures QuestionAt(response, a, x)
  {
    Field16(response, a, b, x.typ);
    Field16(response, b, c, x.class_);
  }

  /** The pieces of reply i in the whole. */
  lemma ReplyThere(q: Request, ps: seq<Piece>, i: nat, b: nat, e: nat)
    requires ps == Pieces(q) && i < |Replies(q)| && b == ReplyAtPiece(q, i) && e == ReplyAtPiece(q, i + 1)
    ensures 6 <= b <= e <= |ps| && ps[b..e] == ReplyPiece(Replies(q)[i])
  {
    var top, rs := Header(q) + QuestionPieces(q.questions), Replies(q);
    PiecesAre(q);
    ReplyPieceAt(rs, i, b - |top|, e - |top|);
    MiddleSlice(top, ReplyPieces(rs), ps, b - |top|, e - |top|, b, e);
  }

  lemma MiddleSlice(a: seq<Piece>, c: seq<Piece>, ps: seq<Piece>, i: nat, j: nat, b: nat, e: nat)
    requires ps == a + c && i <= j <= |c| && b == |a| + i && e == |a| + j
    ensures ps[b..e] == c[i..j]
  {
  }

  lemma ReplyParts(ps: seq<Piece>, x: Reply, b: nat, c: nat, e: nat, f: nat, g: nat, h: nat, end: nat)
    requires b <= end <= |ps| && ps[b..end] == ReplyPiece(x)
    requires c == b + 1 && e == c + 1 && f == e + 1 && g == f + 1 && h == g + 1
    ensures end == (if x.data.Host? then h else h + 1) && ps[b] == Name(x.name) && ps[c] == Raw(U16(x.typ))
    ensures ps[e] == Raw(U16(x.class_)) && ps[f] == Raw(U32(x.ttl))
    ensures x.data.Host? ==> ps[g] == Sized(x.data.v)
    ensures x.data.Opaque? ==> ps[g] == Raw(U16(|x.data.bytes|)) && ps[h] == Raw(x.data.bytes)
  {
    var r := ps[b..end];
    assert ps[b] == r[0] && ps[c] == r[1] && ps[e] == r[2] && ps[f] == r[3] && ps[g] == r[4];
    assert x.data.Opaque? ==> ps[h] == r[5];
  }

  lemma Front(d: seq<byte>, a: nat, c: nat, e: nat, b: seq<byte>)
    requires a <= c <= e <= |d| && d[a..e] == b
    ensures d[a..c] == b[..c - a]
  {
  }

  /** Numbers behind the name of a reply. */
  lemma ReplyFrom(response: seq<byte>, x: Reply, a: nat, b: nat, c: nat, d: nat, e: nat, end: nat)
    requires b == a + 2 && c == b + 2 && d == c + 4 && e == d + 2 <= end <= |response|
    requires response[a..b] == U16(x.typ) && response[b..c] == U16(x.class_) && response[c..d] == U32(x.ttl)
    requires response[d..e] == U16(end - e) && (x.data.Opaque? ==> response[e..end] == x.data.bytes)
    ensures ReplyAt(response, a, end, x)
  {
    Field16(response, a, b, x.typ);
    Field16(response, b, c, x.class_);
    Field32(response, c, d, x.ttl);
    Field16(response, d, e, end - e);
  }

  /** Where the first k pieces start, and where the last of them ends. */
  function Places(ps: seq<Piece>, k: nat): (w: seq<nat>)
    requires k <= |ps| && Build(ps, k).Some?
    ensures |w| == k + 1
  {
    (if k == 0 then [] else Places(ps, k - 1)) + [Start(ps, k)]
  }

  lemma {:induction false} PlacesAre(ps: seq<Piece>, k: nat, j: nat)
    requires j <= k <= |ps| && Build(ps, k).Some?
    ensures Build(ps, j).Some? && Places(ps, k)[j] == Start(ps, j)
  {
    if j < k {
      PlacesAre(ps, k - 1, j);
    }
  }

  /** A response has the header of the request, and every question and reply of it that ends
      within the response, each behind its name; w are the places of its pieces. */
  predicate FieldsOk(q: Request, w: seq<nat>, cut: bool, response: seq<byte>) {
    && HeaderAt(response, q, cut)
    && (forall i :: 0 <= i < |q.questions| && Ends(w, QuestionAtPiece(i) + 3, |response|) ==>
      QuestionAt(response, w[QuestionAtPiece(i) + 1], q.questions[i]))
    && (forall i :: 0 <= i < |Replies(q)| && Ends(w, ReplyAtPiece(q, i + 1), |response|) ==>
      ReplyAtPiece(q, i) + 1 < ReplyAtPiece(q, i + 1)
      && ReplyAt(response, w[ReplyAtPiece(q, i) + 1], w[ReplyAtPiece(q, i + 1)], Replies(q)[i]))
  }

  predicate Ends(w: seq<nat>, j: nat, n: nat) {
    j < |w| && w[j] <= n
  }

  /** Piece p is in d from a to e, but for a name. */
  predicate PieceIn(d: seq<byte>, p: Piece, a: nat, e: nat) {
    && a <= e <= |d|
    && (p.Raw? ==> d[a..e] == p.bytes)
    && (p.Sized? ==> a + 2 <= e && d[a..a + 2] == U16(e - (a + 2)))
  }

  /** The pieces behind the header that end within d are there, from place to place. */
  ghost predicate Laid(d: seq<byte>, ps: seq<Piece>, w: seq<nat>) {
    |w| <= |ps| + 1
    && forall i, next :: 6 <= i && next == i + 1 && Ends(w, next, |d|) ==> PieceIn(d, ps[i], w[i], w[next])
  }

  lemma LaidAt(d: seq<byte>, ps: seq<Piece>, w: seq<nat>, i: nat, next: nat)
    requires Laid(d, ps, w) && 6 <= i && next == i + 1 && Ends(w, next, |d|)
    ensures PieceIn(d, ps[i], w[i], w[next])
  {
  }

  /** A piece of the message that ends within the response is in it. */
  lemma CarriedIn(ps: seq<Piece>, k: nat, response: seq<byte>, cut: bool, i: nat, next: nat)
    requires next == i + 1 <= k <= |ps| && Build(ps, k).Some? && Carries(response, Build(ps, k).value.data, cut)
    requires Build(ps, i).Some? && Build(ps, next).Some? && 12 <= Start(ps, i) && Start(ps, next) <= |response|
    ensures PieceIn(response, ps[i], Start(ps, i), Start(ps, next))
  {
    PieceCarried(ps, k, response, cut, i, next);
    if ps[i].Sized? {
      var a := Start(ps, i);
      Front(response, a, a + 2, Start(ps, next), PieceBytes(ps[i], Build(ps, i).value.table));
    }
  }

  lemma PlaceIn(q: Request, ps: seq<Piece>, k: nat, w: seq<nat>, response: seq<byte>, cut: bool, i: nat, next: nat)
    requires ps == Pieces(q) && k <= |ps| && Build(ps, k).Some? && w == Places(ps, k)
    requires Carries(response, Build(ps, k).value.data, cut) && 6 <= i && next == i + 1 && Ends(w, next, |response|)
    ensures PieceIn(response, ps[i], w[i], w[next])
  {
    PlacesAre(ps, k, i);
    PlacesAre(ps, k, next);
    BehindHeader(q, ps, k, i);
    CarriedIn(ps, k, response, cut, i, next);
  }

  lemma ResponseLaid(q: Request, ps: seq<Piece>, k: nat, w: seq<nat>, response: seq<byte>, cut: bool)
    requires ps == Pieces(q) && k <= |ps| && Build(ps, k).Some? && w == Places(ps, k)
    requires Carries(response, Build(ps, k).value.data, cut)
    ensures Laid(response, ps, w)
  {
    forall i, next | 6 <= i && next == i + 1 && Ends(w, next, |response|)
      ensures PieceIn(response, ps[i], w[i], w[next])
    {
      PlaceIn(q, ps, k, w, response, cut, i, next);
    }
  }

  /** A question of the message that ends within d. */
  lemma QuestionIn(d: seq<byte>, ps: seq<Piece>, w: seq<nat>, x: Question, c: nat, e: nat, f: nat)
    requires Laid(d, ps, w) && 6 <= c && e == c + 1 && f == e + 1 && Ends(w, f, |d|)
    requires ps[c] == Raw(U16(x.typ)) && ps[e] == Raw(U16(x.class_))
    ensures QuestionAt(d, w[c], x) && w[f] == w[c] + 4
  {
    LaidAt(d, ps, w, e, f);
    LaidAt(d, ps, w, c, e);
    QuestionFrom(d, x, w[c], w[e], w[f]);
  }

  lemma HostIn(d: seq<byte>, ps: seq<Piece>, w: seq<nat>, x: Reply, c: nat, e: nat, f: nat, g: nat, end: nat)
    requires Laid(d, ps, w) && 6 <= c && e == c + 1 && f == e + 1 && g == f + 1 && end == g + 1 && Ends(w, end, |d|)
    requires ps[c] == Raw(U16(x.typ)) && ps[e] == Raw(U16(x.class_)) && ps[f] == Raw(U32(x.ttl))
    requires x.data.Host? && ps[g] == Sized(x.data.v)
    ensures ReplyAt(d, w[c], w[end], x) && w[g] == w[c] + 8
  {
    LaidAt(d, ps, w, g, end);
    LaidAt(d, ps, w, f, g);
    LaidAt(d, ps, w, e, f);
    LaidAt(d, ps, w, c, e);
    ReplyFrom(d, x, w[c], w[e], w[f], w[g], w[g] + 2, w[end]);
  }

  lemma OpaqueIn(d: seq<byte>, ps: seq<Piece>, w: seq<nat>, x: Reply, c: nat, e: nat, f: nat, g: nat, h: nat, end: nat)
    requires Laid(d, ps, w) && 6 <= c && e == c + 1 && f == e + 1 && g == f + 1 && h == g + 1
    requires end == h + 1 && Ends(w, end, |d|)
    requires ps[c] == Raw(U16(x.typ)) && ps[e] == Raw(U16(x.class_)) && ps[f] == Raw(U32(x.ttl))
    requires x.data.Opaque? && ps[g] == Raw(U16(|x.data.bytes|)) && ps[h] == Raw(x.data.bytes)
    ensures ReplyAt(d, w[c], w[end], x)
  {
    LaidAt(d, ps, w, h, end);
    LaidAt(d, ps, w, g, h);
    LaidAt(d, ps, w, f, g);
    LaidAt(d, ps, w, e, f);
    LaidAt(d, ps, w, c, e);
    ReplyFrom(d, x, w[c], w[e], w[f], w[g], w[h], w[end]);
  }

  /** A reply of the message that ends within d. */
  lemma ReplyIn(d: seq<byte>, ps: seq<Piece>, w: seq<nat>, x: Reply, b: nat, c: nat, end: nat)
    requires Laid(d, ps, w) && 6 <= b && c == b + 1 && b <= end <= |ps| && Ends(w, end, |d|)
    requires ps[b..end] == ReplyPiece(x)
    ensures c < end && ReplyAt(d, w[c], w[end], x)
  {
    var e, f, g, h := c + 1, c + 2, c + 3, c + 4;
    ReplyParts(ps, x, b, c, e, f, g, h, end);
    if x.data.Host? {
      HostIn(d, ps, w, x, c, e, f, g, end);
    } else {
      OpaqueIn(d, ps, w, x, c, e, f, g, h, end);
    }
  }

  lemma QuestionsOk(q: Request, ps: seq<Piece>, w: seq<nat>, d: seq<byte>)
    requires ps == Pieces(q) && Laid(d, ps, w)
    ensures forall i :: 0 <= i < |q.questions| && Ends(w, QuestionAtPiece(i) + 3, |d|) ==>
      QuestionAt(d, w[QuestionAtPiece(i) + 1], q.questions[i])
  {
    forall i | 0 <= i < |q.questions| && Ends(w, QuestionAtPiece(i) + 3, |d|)
      ensures QuestionAt(d, w[QuestionAtPiece(i) + 1], q.questions[i])
    {
      var b := QuestionAtPiece(i);
      QuestionThere(q, ps, i, b);
      QuestionIn(d, ps, w, q.questions[i], b + 1, b + 2, b + 3);
    }
  }

  lemma RepliesOk(q: Request, ps: seq<Piece>, w: seq<nat>, d: seq<byte>)
    requires ps == Pieces(q) && Laid(d, ps, w)
    ensures forall i :: 0 <= i < |Replies(q)| && Ends(w, ReplyAtPiece(q, i + 1), |d|) ==>
      ReplyAtPiece(q, i) + 1 < ReplyAtPiece(q, i + 1)
      && ReplyAt(d, w[ReplyAtPiece(q, i) + 1], w[ReplyAtPiece(q, i + 1)], Replies(q)[i])
  {
    forall i | 0 <= i < |Replies(q)| && Ends(w, ReplyAtPiece(q, i + 1), |d|)
      ensures ReplyAtPiece(q, i) + 1 < ReplyAtPiece(q, i + 1)
      ensures ReplyAt(d, w[ReplyAtPiece(q, i) + 1], w[ReplyAtPiece(q, i + 1)], Replies(q)[i])
    {
      var b, e := ReplyAtPiece(q, i), ReplyAtPiece(q, i + 1);
      ReplyThere(q, ps, i, b, e);
      ReplyIn(d, ps, w, Replies(q)[i], b, b + 1, e);
    }
  }

  lemma AllFields(q: Request, ps: seq<Piece>, nq: nat, k: nat, w: seq<nat>, response: seq<byte>, cut: bool)
    requires ps == Pieces(q) && 6 <= k && Formatted(ps, nq, k, 0, response) && w == Places(ps, k) && cut == IsCut(ps, k)
    ensures FieldsOk(q, w, cut, response)
  {
    HeaderFirst(q, ps);
    ResponseCarries(ps, nq, k, response);
    HeaderIs(q, ps, k, response, cut);
    ResponseLaid(q, ps, k, w, response, cut);
    QuestionsOk(q, ps, w, response);
    RepliesOk(q, ps, w, response);
  }
}
