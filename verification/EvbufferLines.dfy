/** Reading a buffer line by line until it has no line left, as users of evbuffer_readln do
    (http.c:2058), while the input arrives in pieces. */
module EvbufferLines {
  import opened Chunks
  import opened Evbuffers
  import opened EvbufferOps
  import opened EvbufferReadln
  import opened Lines

  /** The lines as evbuffer_readln returns them, without their ends. */
  function Texts(ls: seq<Line>): (r: seq<seq<byte>>)
    ensures |r| == |ls|
  {
    if ls == [] then [] else [ls[0].text] + Texts(ls[1..])
  }

  lemma {:induction false} TextsJoin(xs: seq<Line>, ys: seq<Line>)
    ensures Texts(xs + ys) == Texts(xs) + Texts(ys)
  {
    if xs == [] {
      assert xs + ys == ys;
    } else {
      assert (xs + ys)[1..] == xs[1..] + ys;
      TextsJoin(xs[1..], ys);
    }
  }

  /** What has been read, and what reading on will give, are the lines of the whole. */
  ghost predicate Reading(style: Style, whole: seq<byte>, lines: seq<seq<byte>>, rest: seq<byte>) {
    && Texts(Split(style, whole).0) == lines + Texts(Split(style, rest).0)
    && Split(style, whole).1 == Split(style, rest).1
  }

  lemma ReadingNext(style: Style, whole: seq<byte>, lines: seq<seq<byte>>, s: seq<byte>, line: seq<byte>,
      rest: seq<byte>)
    requires Reading(style, whole, lines, s) && FindEol(style, s, 0).EolAt?
    requires var e := FindEol(style, s, 0); line == s[..e.pos] && rest == s[e.pos + e.len..]
    ensures Reading(style, whole, lines + [line], rest) && |rest| < |s|
  {
    var e := FindEol(style, s, 0);
    var k := e.pos + e.len;
    var l := Line(s[..e.pos], s[e.pos..k]);
    SplitNext(style, s, e.pos, e.len, k, l, rest);
    TextsJoin([l], Split(style, rest).0);
    assert Texts([l]) == [line];
    assert lines + ([line] + Texts(Split(style, rest).0)) == (lines + [line]) + Texts(Split(style, rest).0);
  }

  lemma ReadingStarts(style: Style, whole: seq<byte>)
    ensures Reading(style, whole, [], whole)
  {
    assert [] + Texts(Split(style, whole).0) == Texts(Split(style, whole).0);
  }

  lemma ReadingEnds(style: Style, whole: seq<byte>, lines: seq<seq<byte>>, rest: seq<byte>)
    requires Reading(style, whole, lines, rest) && FindEol(style, rest, 0).NoEol?
    ensures (lines, rest) == LinesOf(Split(style, whole))
  {
    assert lines + [] == lines;
  }

  /** Reads lines until there is none. */
  method ReadLines(buf: Evbuffer, style: Style) returns (lines: seq<seq<byte>>)
    requires buf.Valid() && |buf.Contents()| <= SIZE_MAX
    modifies buf, buf.Repr
    ensures buf.Valid() && buf.Repr <= old(buf.Repr)
    ensures buf.freezeStart ==> lines == [] && buf.Contents() == old(buf.Contents())
    ensures !buf.freezeStart ==> (lines, buf.Contents()) == LinesOf(Split(style, old(buf.Contents())))
    ensures unchanged(buf`freezeStart, buf`freezeEnd)
  {
    lines := [];
    ghost var whole := buf.Contents();
    ReadingStarts(style, whole);
    var ok, line := true, [];
    while ok
      invariant buf.Valid() && buf.Repr <= old(buf.Repr) && |buf.Contents()| <= SIZE_MAX
      invariant unchanged(buf`freezeStart, buf`freezeEnd)
      invariant Reading(style, whole, lines, buf.Contents())
      invariant buf.freezeStart ==> lines == [] && buf.Contents() == whole
      invariant !ok ==> buf.freezeStart || FindEol(style, buf.Contents(), 0).NoEol?
      decreases |buf.Contents()|, ok
    {
      ghost var s := buf.Contents();
      ok, line := Readln(buf, style);
      if ok {
        ReadingNext(style, whole, lines, s, line, buf.Contents());
        lines := lines + [line];
      }
    }
    if !buf.freezeStart {
      ReadingEnds(style, whole, lines, buf.Contents());
    }
  }

  function LinesOf(r: (seq<Line>, seq<byte>)): (seq<seq<byte>>, seq<byte>) {
    (Texts(r.0), r.1)
  }

  /** Adds a piece, and reads all lines there are then. */
  method ReadPiece(buf: Evbuffer, style: Style, piece: seq<byte>) returns (ok: bool, lines: seq<seq<byte>>)
    requires buf.Valid() && !buf.freezeStart
    modifies buf, buf.Repr
    ensures buf.Valid() && fresh(buf.Repr - old(buf.Repr))
    ensures ok <==> !buf.freezeEnd && |piece| <= SIZE_MAX - |old(buf.Contents())| && |piece| <= BLOCK_MAX
    ensures ok ==> (lines, buf.Contents()) == LinesOf(Split(style, old(buf.Contents()) + piece))
    ensures !ok ==> lines == [] && buf.Contents() == old(buf.Contents())
    ensures unchanged(buf`freezeStart, buf`freezeEnd)
  {
    lines := [];
    ok := Add(buf, piece);
    if ok {
      lines := ReadLines(buf, style);
    }
  }

  /** n pieces have been added, with these lines read and this rest. */
  ghost predicate PiecesRead(style: Style, pieces: seq<seq<byte>>, n: nat, lines: seq<seq<byte>>, rest: seq<byte>) {
    n <= |pieces| && (lines, rest) == LinesOf(SplitPieces(style, pieces[..n]))
  }

  lemma NextPiece(style: Style, pieces: seq<seq<byte>>, n: nat, next: nat, lines: seq<seq<byte>>, rest: seq<byte>,
      more: seq<seq<byte>>, left: seq<byte>)
    requires next == n + 1 <= |pieces| && PiecesRead(style, pieces, n, lines, rest)
    requires (more, left) == LinesOf(Split(style, rest + pieces[n]))
    ensures PiecesRead(style, pieces, next, lines + more, left)
  {
    assert pieces[..next][..n] == pieces[..n];
    TextsJoin(SplitPieces(style, pieces[..n]).0, Split(style, rest + pieces[n]).0);
  }

  /** Adds the pieces one by one and reads all lines after each, up to a piece that is refused.
      Where the input was cut makes no difference, unless any run of CR and LF ends a line. */
  method ReadPieces(buf: Evbuffer, style: Style, pieces: seq<seq<byte>>) returns (lines: seq<seq<byte>>, n: nat)
    requires buf.Valid() && buf.Contents() == [] && !buf.freezeStart
    modifies buf, buf.Repr
    ensures buf.Valid() && fresh(buf.Repr - old(buf.Repr))
    ensures n <= |pieces| && (!buf.freezeEnd && |Concat(pieces)| <= BLOCK_MAX ==> n == |pieces|)
    ensures PiecesRead(style, pieces, n, lines, buf.Contents())
    ensures style != Any ==> (lines, buf.Contents()) == LinesOf(Split(style, Concat(pieces[..n])))
    ensures unchanged(buf`freezeStart, buf`freezeEnd)
  {
    lines, n := [], 0;
    var ok := true;
    while n < |pieces| && ok
      invariant buf.Valid() && fresh(buf.Repr - old(buf.Repr)) && n <= |pieces|
      invariant unchanged(buf`freezeStart, buf`freezeEnd)
      invariant PiecesRead(style, pieces, n, lines, buf.Contents())
      invariant !ok ==> buf.freezeEnd || |Concat(pieces)| > BLOCK_MAX
      decreases |pieces| - n, ok
    {
      ghost var rest, next := buf.Contents(), n + 1;
      Sizes(style, pieces, n, next);
      var more;
      ok, more := ReadPiece(buf, style, pieces[n]);
      if ok {
        NextPiece(style, pieces, n, next, lines, rest, more, buf.Contents());
        lines, n := lines + more, n + 1;
      }
    }
    if style != Any {
      PiecesDoNotMatter(style, pieces[..n]);
    }
  }

  /** What is left unread and the next piece are no longer than the whole input. */
  lemma Sizes(style: Style, pieces: seq<seq<byte>>, n: nat, next: nat)
    requires next == n + 1 <= |pieces|
    ensures |SplitPieces(style, pieces[..n]).1| + |pieces[n]| <= |Concat(pieces)|
  {
    RestSize(style, pieces[..n]);
    assert pieces[..next][..n] == pieces[..n];
    ConcatGrows(pieces, next);
  }

  lemma {:induction false} RestSize(style: Style, pieces: seq<seq<byte>>)
    ensures |SplitPieces(style, pieces).1| <= |Concat(pieces)|
  {
    if pieces != [] {
      var front := pieces[..|pieces| - 1];
      RestSize(style, front);
      SplitJoin(style, SplitPieces(style, front).1 + pieces[|pieces| - 1]);
    }
  }

  lemma {:induction false} ConcatGrows(pieces: seq<seq<byte>>, n: nat)
    requires n <= |pieces|
    ensures |Concat(pieces[..n])| <= |Concat(pieces)|
    decreases |pieces|
  {
    if n < |pieces| {
      var front := pieces[..|pieces| - 1];
      assert front[..n] == pieces[..n];
      ConcatGrows(front, n);
    } else {
      assert pieces[..n] == pieces;
    }
  }
}
