/** What a line is, on the bytes of a stream. */
module Lines {
  import opened Chunks

  const CR: byte := 13
  const LF: byte := 10
  const CRLF: set<byte> := {CR, LF}

  datatype Style = Any | CrLf | CrLfStrict | Lf | Nul

  /** Where a line ends and how many bytes end it. */
  datatype Eol = NoEol | EolAt(pos: nat, len: nat)

  /** The first place from lo on that holds one of cs; the length if there is none. */
  function FirstOf(s: seq<byte>, lo: nat, cs: set<byte>): (r: nat)
    requires lo <= |s|
    ensures lo <= r <= |s| && (r < |s| ==> s[r] in cs)
    decreases |s| - lo
  {
    if lo == |s| || s[lo] in cs then lo else FirstOf(s, lo + 1, cs)
  }

  /** How many bytes in a row from lo on are in cs. */
  function Span(s: seq<byte>, lo: nat, cs: set<byte>): (n: nat)
    requires lo <= |s|
    ensures lo + n <= |s|
    decreases |s| - lo
  {
    if lo == |s| || s[lo] !in cs then 0 else 1 + Span(s, lo + 1, cs)
  }

  /** The first place from lo on of a CR followed by LF. */
  function FirstPair(s: seq<byte>, lo: nat): (r: Eol)
    requires lo <= |s|
    ensures r.EolAt? ==> lo <= r.pos && r.len == 2 && r.pos + 2 <= |s| && s[r.pos] == CR && s[r.pos + 1] == LF
    decreases |s| - lo
  {
    if lo + 2 > |s| then NoEol else if s[lo] == CR && s[lo + 1] == LF then EolAt(lo, 2) else FirstPair(s, lo + 1)
  }

  /** The end of the line that starts at lo. */
  function FindEol(style: Style, s: seq<byte>, lo: nat): (r: Eol)
    requires lo <= |s|
    ensures r.EolAt? ==> lo <= r.pos && 0 < r.len && r.pos + r.len <= |s|
  {
    match style
    case Any =>
      var p := FirstOf(s, lo, CRLF);
      if p == |s| then NoEol else EolAt(p, Span(s, p, CRLF))
    case CrLfStrict => FirstPair(s, lo)
    case CrLf =>
      var p := FirstOf(s, lo, {LF});
      if p == |s| then NoEol else if p > lo && s[p - 1] == CR then EolAt(p - 1, 2) else EolAt(p, 1)
    case Lf =>
      var p := FirstOf(s, lo, {LF});
      if p == |s| then NoEol else EolAt(p, 1)
    case Nul =>
      var p := FirstOf(s, lo, {0});
      if p == |s| then NoEol else EolAt(p, 1)
  }

  /** EVBUFFER_EOL_LF and EVBUFFER_EOL_NUL: the first LF, or the first zero. */
  lemma ByteEnds(style: Style, s: seq<byte>, lo: nat)
    requires lo <= |s| && style in {Lf, Nul}
    ensures var b := if style == Lf then 10 else 0;
      match FindEol(style, s, lo)
      case NoEol => forall i :: lo <= i < |s| ==> s[i] != b
      case EolAt(p, n) => lo <= p < |s| && n == 1 && s[p] == b && forall i :: lo <= i < p ==> s[i] != b
  {
    FirstOfIs(s, lo, {if style == Lf then LF else 0});
  }

  /** EVBUFFER_EOL_CRLF: the first LF, with the byte before it when that is a CR of this line. */
  lemma CrLfEnds(s: seq<byte>, lo: nat)
    requires lo <= |s|
    ensures match FindEol(CrLf, s, lo)
      case NoEol => forall i :: lo <= i < |s| ==> s[i] != 10
      case EolAt(p, n) =>
        var q := p + n - 1;
        && lo <= p <= q < |s| && s[q] == 10 && (forall i :: lo <= i < q ==> s[i] != 10)
        && (n == 1 || n == 2) && (n == 2 <==> q > lo && s[q - 1] == 13)
  {
    FirstOfIs(s, lo, {LF});
  }

  /** EVBUFFER_EOL_CRLF_STRICT: the first CR that is followed by a LF. */
  lemma {:induction false} StrictEnds(s: seq<byte>, lo: nat)
    requires lo <= |s|
    ensures match FindEol(CrLfStrict, s, lo)
      case NoEol => forall i :: lo <= i < |s| - 1 ==> !(s[i] == 13 && s[i + 1] == 10)
      case EolAt(p, n) =>
        && lo <= p && p + 1 < |s| && n == 2 && s[p] == 13 && s[p + 1] == 10
        && forall i :: lo <= i < p ==> !(s[i] == 13 && s[i + 1] == 10)
    decreases |s| - lo
  {
    if lo + 2 <= |s| && !(s[lo] == CR && s[lo + 1] == LF) {
      StrictEnds(s, lo + 1);
    }
  }

  /** EVBUFFER_EOL_ANY: the first CR or LF, and all that follow it in a row. */
  lemma AnyEnds(s: seq<byte>, lo: nat)
    requires lo <= |s|
    ensures match FindEol(Any, s, lo)
      case NoEol => forall i :: lo <= i < |s| ==> s[i] != 10 && s[i] != 13
      case EolAt(p, n) =>
        && lo <= p && 0 < n && p + n <= |s| && (forall i :: lo <= i < p ==> s[i] != 10 && s[i] != 13)
        && (forall i :: p <= i < p + n ==> s[i] == 10 || s[i] == 13)
        && (p + n < |s| ==> s[p + n] != 10 && s[p + n] != 13)
  {
    FirstOfIs(s, lo, CRLF);
    SpanIs(s, FirstOf(s, lo, CRLF), CRLF);
  }

  lemma {:induction false} FirstOfIs(s: seq<byte>, lo: nat, cs: set<byte>)
    requires lo <= |s|
    ensures forall i :: lo <= i < FirstOf(s, lo, cs) ==> s[i] !in cs
    decreases |s| - lo
  {
    if lo < |s| && s[lo] !in cs {
      FirstOfIs(s, lo + 1, cs);
    }
  }

  lemma {:induction false} SpanIs(s: seq<byte>, lo: nat, cs: set<byte>)
    requires lo <= |s|
    ensures forall i :: lo <= i < lo + Span(s, lo, cs) ==> s[i] in cs
    ensures lo + Span(s, lo, cs) < |s| ==> s[lo + Span(s, lo, cs)] !in cs
    decreases |s| - lo
  {
    if lo < |s| && s[lo] in cs {
      SpanIs(s, lo + 1, cs);
    }
  }

  datatype Line = Line(text: seq<byte>, eol: seq<byte>)

  /** The lines that calling readln to exhaustion gives, and what is left. */
  function Split(style: Style, s: seq<byte>): (r: (seq<Line>, seq<byte>))
    decreases |s|
  {
    match FindEol(style, s, 0)
    case NoEol => ([], s)
    case EolAt(p, n) =>
      var c := CutAt(s, p, p + n);
      var r := Split(style, c.1);
      ([c.0] + r.0, r.1)
  }

  /** No line is left in what is left. */
  lemma {:induction false} SplitDone(style: Style, s: seq<byte>)
    ensures FindEol(style, Split(style, s).1, 0).NoEol?
    decreases |s|
  {
    match FindEol(style, s, 0)
    case NoEol =>
    case EolAt(p, n) => SplitDone(style, s[p + n..]);
  }

  /** The line that ends at k, with its end from p on, and the rest. */
  function CutAt(s: seq<byte>, p: nat, k: nat): (Line, seq<byte>)
    requires p <= k <= |s|
  {
    (Line(s[..p], s[p..k]), s[k..])
  }

  function Join(ls: seq<Line>): seq<byte> {
    if ls == [] then [] else ls[0].text + ls[0].eol + Join(ls[1..])
  }

  /** The lines, their ends and what is left make up the input. */
  lemma {:induction false} SplitJoin(style: Style, s: seq<byte>)
    ensures Join(Split(style, s).0) + Split(style, s).1 == s
    decreases |s|
  {
    match FindEol(style, s, 0)
    case NoEol =>
    case EolAt(p, n) =>
      var k := p + n;
      var line, rest := Line(s[..p], s[p..k]), s[k..];
      SplitJoin(style, rest);
      SplitNext(style, s, p, n, k, line, rest);
      var r := Split(style, rest);
      LineAssoc(line, r.0, [], []);
      JoinGlue(s, p, k, Join(r.0), r.1);
  }

  lemma JoinGlue(s: seq<byte>, p: nat, k: nat, j: seq<byte>, r: seq<byte>)
    requires p <= k <= |s| && j + r == s[k..]
    ensures s[..p] + s[p..k] + j + r == s
  {
    assert s[..p] + s[p..k] == s[..k];
    Assoc(s[..k], j, r);
  }

  lemma {:induction false} FirstOfSkip(s: seq<byte>, lo: nat, hi: nat, cs: set<byte>)
    requires lo <= hi <= |s| && forall i :: lo <= i < hi ==> s[i] !in cs
    ensures FirstOf(s, lo, cs) == FirstOf(s, hi, cs)
    decreases hi - lo
  {
    if lo < hi {
      FirstOfSkip(s, lo + 1, hi, cs);
    }
  }

  lemma {:induction false} SpanSkip(s: seq<byte>, lo: nat, hi: nat, cs: set<byte>)
    requires lo <= hi <= |s| && forall i :: lo <= i < hi ==> s[i] in cs
    ensures Span(s, lo, cs) == hi - lo + Span(s, hi, cs)
    decreases hi - lo
  {
    if lo < hi {
      SpanSkip(s, lo + 1, hi, cs);
    }
  }

  /** More input does not move a place that has been found. */
  lemma {:induction false} FirstOfMore(a: seq<byte>, b: seq<byte>, lo: nat, cs: set<byte>)
    requires lo <= |a|
    ensures FirstOf(a, lo, cs) < |a| ==> FirstOf(a + b, lo, cs) == FirstOf(a, lo, cs)
    ensures FirstOf(a, lo, cs) == |a| ==> FirstOf(a + b, lo, cs) == FirstOf(a + b, |a|, cs)
    decreases |a| - lo
  {
    if lo < |a| && a[lo] !in cs {
      FirstOfMore(a, b, lo + 1, cs);
    }
  }

  lemma {:induction false} FirstPairMore(a: seq<byte>, b: seq<byte>, lo: nat)
    requires lo <= |a|
    ensures FirstPair(a, lo).EolAt? ==> FirstPair(a + b, lo) == FirstPair(a, lo)
    decreases |a| - lo
  {
    if lo + 2 <= |a| {
      FirstPairMore(a, b, lo + 1);
    }
  }

  lemma FindEolMore(style: Style, a: seq<byte>, b: seq<byte>)
    requires style != Any && FindEol(style, a, 0).EolAt?
    ensures FindEol(style, a + b, 0) == FindEol(style, a, 0)
  {
    FirstOfMore(a, b, 0, {LF});
    FirstOfMore(a, b, 0, {0});
    FirstPairMore(a, b, 0);
  }

  /** What two rounds of reading give when a arrives before b. */
  function SplitTwice(style: Style, a: seq<byte>, b: seq<byte>): (seq<Line>, seq<byte>) {
    var first := Split(style, a);
    var second := Split(style, first.1 + b);
    (first.0 + second.0, second.1)
  }

  /** Reading lines does not depend on where the input was cut. */
  lemma {:induction false} SplitAnywhere(style: Style, a: seq<byte>, b: seq<byte>)
    requires style != Any
    ensures SplitTwice(style, a, b) == Split(style, a + b)
    decreases |a|
  {
    match FindEol(style, a, 0)
    case NoEol =>
      assert [] + Split(style, a + b).0 == Split(style, a + b).0;
    case EolAt(p, n) =>
      FindEolMore(style, a, b);
      SplitAnywhere(style, a[p + n..], b);
      SplitStep(style, a, b, p, n, a[p + n..]);
  }

  /** One line, then the lines of the rest. */
  lemma SplitNext(style: Style, s: seq<byte>, p: nat, n: nat, k: nat, line: Line, rest: seq<byte>)
    requires FindEol(style, s, 0) == EolAt(p, n) && k == p + n && CutAt(s, p, k) == (line, rest)
    ensures Split(style, s).0 == [line] + Split(style, rest).0 && Split(style, s).1 == Split(style, rest).1
  {
  }

  lemma CutLine(a: seq<byte>, b: seq<byte>, p: nat, k: nat)
    requires p <= k <= |a|
    ensures (a + b)[..p] == a[..p] && (a + b)[p..k] == a[p..k] && (a + b)[k..] == a[k..] + b
  {
  }

  lemma LineAssoc(line: Line, xs: seq<Line>, ys: seq<Line>, zs: seq<Line>)
    ensures ([line] + xs) + ys == [line] + (xs + ys)
    ensures [line] + xs == [line] + ys <==> xs == ys
    ensures |[line] + xs| == 1 + |xs| && ([line] + xs)[1..] == xs
  {
    assert ([line] + xs)[1..] == xs && ([line] + ys)[1..] == ys;
  }

  /** Both ways of reading start with the line that ends in a. */
  lemma SplitStep(style: Style, a: seq<byte>, b: seq<byte>, p: nat, n: nat, rest: seq<byte>)
    requires FindEol(style, a, 0) == EolAt(p, n) && FindEol(style, a + b, 0) == EolAt(p, n) && rest == a[p + n..]
    ensures SplitTwice(style, a, b) == Split(style, a + b) <==> SplitTwice(style, rest, b) == Split(style, rest + b)
    ensures |SplitTwice(style, a, b).0| == 1 + |SplitTwice(style, rest, b).0|
    ensures |Split(style, a + b).0| == 1 + |Split(style, rest + b).0|
  {
    var k := p + n;
    CutLine(a, b, p, k);
    var line := Line(a[..p], a[p..k]);
    SplitNext(style, a, p, n, k, line, rest);
    SplitNext(style, a + b, p, n, k, line, rest + b);
    var more := Split(style, rest);
    SameHead(line, more.0, Split(style, more.1 + b), Split(style, rest + b));
  }

  lemma SameHead(line: Line, xs: seq<Line>, second: (seq<Line>, seq<byte>), whole: (seq<Line>, seq<byte>))
    ensures (([line] + xs) + second.0, second.1) == ([line] + whole.0, whole.1) <==> (xs + second.0, second.1) == whole
    ensures |([line] + xs) + second.0| == 1 + |xs + second.0|
  {
    LineAssoc(line, xs, second.0, whole.0);
    LineAssoc(line, xs + second.0, whole.0, whole.0);
  }

  function Concat(pieces: seq<seq<byte>>): seq<byte> {
    if pieces == [] then [] else Concat(pieces[..|pieces| - 1]) + pieces[|pieces| - 1]
  }

  /** Feeding the pieces one by one and reading all lines after each. */
  function SplitPieces(style: Style, pieces: seq<seq<byte>>): (seq<Line>, seq<byte>) {
    if pieces == [] then ([], []) else
    var before := SplitPieces(style, pieces[..|pieces| - 1]);
    var now := Split(style, before.1 + pieces[|pieces| - 1]);
    (before.0 + now.0, now.1)
  }

  lemma {:induction false} PiecesDoNotMatter(style: Style, pieces: seq<seq<byte>>)
    requires style != Any
    ensures SplitPieces(style, pieces) == Split(style, Concat(pieces))
    decreases |pieces|
  {
    if pieces != [] {
      PiecesDoNotMatter(style, pieces[..|pieces| - 1]);
      SplitAnywhere(style, Concat(pieces[..|pieces| - 1]), pieces[|pieces| - 1]);
    }
  }

  predicate EndsInEol(a: seq<byte>) {
    a != [] && a[|a| - 1] in CRLF
  }

  predicate StartsInEol(b: seq<byte>) {
    b != [] && b[0] in CRLF
  }

  lemma {:induction false} SpanMore(a: seq<byte>, b: seq<byte>, lo: nat)
    requires lo <= |a|
    ensures lo + Span(a, lo, CRLF) < |a| || !StartsInEol(b) ==> Span(a + b, lo, CRLF) == Span(a, lo, CRLF)
    ensures lo + Span(a, lo, CRLF) == |a| ==> Span(a + b, lo, CRLF) == |a| - lo + Span(a + b, |a|, CRLF)
    decreases |a| - lo
  {
    if lo < |a| && a[lo] in CRLF {
      SpanMore(a, b, lo + 1);
    }
  }

  lemma {:induction false} SpanToEnd(a: seq<byte>, lo: nat)
    requires lo < |a| && lo + Span(a, lo, CRLF) == |a|
    ensures EndsInEol(a)
    decreases |a| - lo
  {
    if lo + 1 < |a| {
      SpanToEnd(a, lo + 1);
    }
  }

  lemma {:induction false} SpanShift(a: seq<byte>, b: seq<byte>, lo: nat)
    requires lo <= |b|
    ensures Span(a + b, |a| + lo, CRLF) == Span(b, lo, CRLF)
    decreases |b| - lo
  {
    if lo < |b| && b[lo] in CRLF {
      SpanShift(a, b, lo + 1);
    }
  }

  /** When every CR and every LF ends a line, two rounds agree with one exactly when the cut
      does not fall inside a run of them. */
  lemma {:induction false} AnyCut(a: seq<byte>, b: seq<byte>)
    ensures SplitTwice(Any, a, b) == Split(Any, a + b) <==> !(EndsInEol(a) && StartsInEol(b))
    ensures EndsInEol(a) && StartsInEol(b) ==> |SplitTwice(Any, a, b).0| == |Split(Any, a + b).0| + 1
    decreases |a|
  {
    FirstOfMore(a, b, 0, CRLF);
    match FindEol(Any, a, 0)
    case NoEol =>
      assert [] + Split(Any, a + b).0 == Split(Any, a + b).0;
      NoEolAtEnd(a);
    case EolAt(p, n) =>
      SpanMore(a, b, p);
      if p + n < |a| || !StartsInEol(b) {
        AnyCut(a[p + n..], b);
        SplitStep(Any, a, b, p, n, a[p + n..]);
        if p + n < |a| {
          TailEnds(a, p + n);
        }
      } else {
        SpanToEnd(a, p);
        AnyRun(a, b, p, n);
      }
  }

  lemma {:induction false} NoEolAtEnd(a: seq<byte>)
    requires FirstOf(a, 0, CRLF) == |a|
    ensures !EndsInEol(a)
  {
    if a != [] {
      NoneOf(a, 0, |a| - 1);
    }
  }

  lemma {:induction false} NoneOf(a: seq<byte>, lo: nat, i: nat)
    requires lo <= i < |a| && FirstOf(a, lo, CRLF) == |a|
    ensures a[i] !in CRLF
    decreases |a| - lo
  {
    if lo < i {
      NoneOf(a, lo + 1, i);
    }
  }

  lemma TailEnds(a: seq<byte>, k: nat)
    requires k < |a|
    ensures EndsInEol(a[k..]) <==> EndsInEol(a)
  {
    assert a[k..][|a| - k - 1] == a[|a| - 1];
  }

  /** The run of line ends continues in b: one round takes all of it, two make an empty line. */
  lemma AnyRun(a: seq<byte>, b: seq<byte>, p: nat, n: nat)
    requires FindEol(Any, a, 0) == EolAt(p, n) && p + n == |a| && StartsInEol(b)
    ensures |SplitTwice(Any, a, b).0| == |Split(Any, a + b).0| + 1
  {
    var m := Span(b, 0, CRLF);
    var q := n + m;
    RunEnd(a, b, p, n, m, q);
    RestOfMore(a, b, m, p + q);
    CountNext(Any, a + b, p, q, p + q, b[m..]);
    CountNext(Any, a, p, n, |a|, []);
    CountNext(Any, b, 0, m, m, b[m..]);
    AppendNil(b);
    assert Split(Any, []) == ([], []);
  }

  lemma RestOfMore(a: seq<byte>, b: seq<byte>, m: nat, k: nat)
    requires m <= |b| && k == |a| + m
    ensures (a + b)[k..] == b[m..]
  {
  }

  /** One line more than the rest has. */
  lemma CountNext(style: Style, s: seq<byte>, p: nat, n: nat, k: nat, rest: seq<byte>)
    requires FindEol(style, s, 0) == EolAt(p, n) && k == p + n && rest == s[k..]
    ensures |Split(style, s).0| == 1 + |Split(style, rest).0| && Split(style, s).1 == Split(style, rest).1
  {
  }

  lemma RunEnd(a: seq<byte>, b: seq<byte>, p: nat, n: nat, m: nat, q: nat)
    requires FindEol(Any, a, 0) == EolAt(p, n) && p + n == |a| && StartsInEol(b) && m == Span(b, 0, CRLF) && q == n + m
    ensures FindEol(Any, a + b, 0) == EolAt(p, q) && FindEol(Any, b, 0) == EolAt(0, m)
  {
    FirstOfMore(a, b, 0, CRLF);
    SpanMore(a, b, p);
    SpanShift(a, b, 0);
  }

  /** The smallest cut that matters. */
  lemma AnyDependsOnCuts()
    ensures SplitTwice(Any, [97, CR], [LF]) != Split(Any, [97, CR] + [LF])
  {
    AnyCut([97, CR], [LF]);
  }
}
