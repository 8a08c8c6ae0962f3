/** The number and tag encodings of event_tagging.c, on byte sequences. */
module TagCodec {
  import opened Basics
  import opened Chunks

  const TWO_32: nat := 0x1_0000_0000
  const TWO_64: nat := 0x1_0000_0000_0000_0000

  /** n >> 4 * j */
  function Shift(n: nat, j: nat): nat {
    if j == 0 then n else Shift(n, j - 1) / 16
  }

  /** The number of significant nibbles. */
  function Digits(n: nat): nat {
    if n == 0 then 0 else 1 + Digits(n / 16)
  }

  /** Nibble p of encoded data: 1 is the low half of the first byte, then come the high and
      the low half of each following byte. */
  function Nibble(data: seq<byte>, p: nat): (v: nat)
    requires p / 2 < |data|
    ensures v < 16
  {
    if p % 2 == 1 then data[p / 2] % 16 else data[p / 2] / 16
  }

  function SetNibble(b: byte, low: bool, v: nat): (r: byte)
    ensures r / 16 == (if low then b / 16 else v % 16) && r % 16 == (if low then v % 16 else b % 16)
  {
    if low then b / 16 * 16 + v % 16 else b % 16 + 16 * (v % 16)
  }

  /** The bytes after the first one: two nibbles each, the less significant one first. */
  function Tail(m: nat): seq<byte> {
    if m == 0 then [] else [16 * (m % 16) + m / 16 % 16] + Tail(m / 256)
  }

  /** An encoded integer: the number of nibbles less one, and then the nibbles, the least
      significant one first. */
  function EncodedInt(n: nat): seq<byte>
    requires n < TWO_64
  {
    var k := Digits(n);
    DigitsBound(n, 16);
    [16 * (if k == 0 then 0 else k - 1) + n % 16] + Tail(n / 16)
  }

  function Pow16(k: nat): nat {
    if k == 0 then 1 else 16 * Pow16(k - 1)
  }

  lemma {:induction false} DigitsBound(n: nat, k: nat)
    requires n < Pow16(k) || (k == 16 && n < TWO_64) || (k == 8 && n < TWO_32)
    ensures Digits(n) <= k
  {
    Powers();
    if n > 0 && k > 0 {
      DigitsBound(n / 16, k - 1);
    }
  }

  lemma Powers()
    ensures Pow16(8) == TWO_32 && Pow16(16) == TWO_64
  {
  }

  lemma {:induction false} ShiftMore(n: nat, j: nat)
    ensures Shift(n, j + 1) == Shift(n / 16, j)
  {
    if j > 0 {
      ShiftMore(n, j - 1);
    }
  }

  lemma {:induction false} ShiftDigits(n: nat, j: nat)
    ensures Shift(n, j) == 0 <==> Digits(n) <= j
    ensures Digits(n) > j ==> Digits(Shift(n, j)) == Digits(n) - j
    decreases j
  {
    if j > 0 {
      ShiftMore(n, j - 1);
      ShiftDigits(n / 16, j - 1);
      if n == 0 {
        ShiftZero(j);
      }
    }
  }

  lemma {:induction false} ShiftZero(j: nat)
    ensures Shift(0, j) == 0
  {
    if j > 0 {
      ShiftZero(j - 1);
    }
  }

  lemma {:induction false} TailLength(m: nat)
    ensures |Tail(m)| == (Digits(m) + 1) / 2
  {
    if m > 0 {
      TailLength(m / 256);
      assert m / 256 == m / 16 / 16;
    }
  }

  /** The nibbles of the tail: number 2 * i is the high half of byte i. */
  lemma {:induction false} TailNibbles(m: nat, i: nat)
    requires i < |Tail(m)|
    ensures Tail(m)[i] == 16 * (Shift(m, 2 * i) % 16) + Shift(m, 2 * i + 1) % 16
  {
    if i > 0 {
      TailNibbles(m / 256, i - 1);
      ShiftTwo(m, 2 * (i - 1));
      ShiftTwo(m, 2 * (i - 1) + 1);
    } else {
      assert Shift(m, 1) == m / 16;
    }
  }

  lemma ShiftTwo(m: nat, j: nat)
    ensures Shift(m / 256, j) == Shift(m, j + 2)
  {
    ShiftMore(m, j + 1);
    ShiftMore(m / 16, j);
    assert m / 256 == m / 16 / 16;
  }

  /** How many nibbles are written for n. */
  function Written(n: nat): nat {
    if n == 0 then 1 else Digits(n)
  }

  /** The length of an encoded integer, and what its first nibble says. */
  lemma EncodedShape(n: nat, e: seq<byte>, k: nat)
    requires n < TWO_64 && e == EncodedInt(n) && k == Written(n)
    ensures |e| == k / 2 + 1 && e[0] / 16 + 1 == k
  {
    DigitsBound(n, 16);
    TailLength(n / 16);
    Halves(k - 1, n % 16);
  }

  lemma Halves(hi: nat, lo: nat)
    requires lo < 16
    ensures (16 * hi + lo) / 16 == hi && (16 * hi + lo) % 16 == lo
  {
  }

  /** Nibble p of an encoded integer. */
  lemma EncodedNibble(n: nat, e: seq<byte>, k: nat, p: nat)
    requires n < TWO_64 && e == EncodedInt(n) && k == Written(n) && 0 < p <= k
    ensures p / 2 < |e| && Nibble(e, p) == Shift(n, p - 1) % 16
  {
    EncodedShape(n, e, k);
    DigitsBound(n, 16);
    if p == 1 {
      Halves(if Digits(n) == 0 then 0 else Digits(n) - 1, n % 16);
    } else {
      LaterByte(n, e, p / 2);
      var b := p / 2;
      Halves(Shift(n, 2 * b - 1) % 16, Shift(n, 2 * b) % 16);
    }
  }

  lemma LaterByte(n: nat, e: seq<byte>, b: nat)
    requires n < TWO_64 && e == EncodedInt(n) && 0 < b < |e|
    ensures e[b] == 16 * (Shift(n, 2 * b - 1) % 16) + Shift(n, 2 * b) % 16
  {
    var i := b - 1;
    assert e[b] == Tail(n / 16)[i];
    TailNibbles(n / 16, i);
    ShiftMore(n, 2 * i);
    ShiftMore(n, 2 * i + 1);
  }

  lemma {:induction false} ShiftIs(n: nat, j: nat)
    ensures Pow16(j) > 0 && Shift(n, j) == n / Pow16(j)
  {
    if j > 0 {
      ShiftIs(n, j - 1);
      DivTwice(n, Pow16(j - 1), 16);
    }
  }

  lemma {:induction false} DigitsAre(n: nat)
    requires n > 0
    ensures Pow16(Digits(n) - 1) <= n < Pow16(Digits(n))
  {
    if n >= 16 {
      DigitsAre(n / 16);
    }
  }

  /** An encoded integer in plain arithmetic: the first nibble is the number of nibbles of n less
      one, and nibble p is the one for 16 to the power p - 1, the least significant one first. */
  lemma EncodedLayout(n: nat, e: seq<byte>, p: nat)
    requires n < TWO_64 && e == EncodedInt(n) && 0 < p <= e[0] / 16 + 1
    ensures var k: nat := e[0] / 16 + 1;
      |e| == k / 2 + 1 && n < Pow16(k) && (k > 1 ==> Pow16(k - 1) <= n)
    ensures Pow16(p - 1) > 0 && p / 2 < |e|
    ensures (if p % 2 == 1 then e[p / 2] % 16 else e[p / 2] / 16) == n / Pow16(p - 1) % 16
  {
    EncodedShape(n, e, Written(n));
    EncodedNibble(n, e, Written(n), p);
    ShiftIs(n, p - 1);
    if n > 0 {
      DigitsAre(n);
    }
  }

  /** What the decoding loop computes from nibble p down. */
  function FromNibbles(data: seq<byte>, p: nat, number: nat): nat
    requires p / 2 < |data|
  {
    if p == 0 then number else FromNibbles(data, p - 1, number * 16 + Nibble(data, p))
  }

  lemma {:induction false} FromNibblesIs(data: seq<byte>, p: nat, n: nat)
    requires p / 2 < |data|
      && forall q {:trigger Nibble(data, q)} :: 0 < q <= p ==> Nibble(data, q) == Shift(n, q - 1) % 16
    ensures FromNibbles(data, p, Shift(n, p)) == n
  {
    if p > 0 {
      assert Nibble(data, p) == Shift(n, p - 1) % 16;
      assert Shift(n, p) * 16 + Shift(n, p - 1) % 16 == Shift(n, p - 1);
      FromNibblesIs(data, p - 1, n);
    }
  }

  lemma {:induction false} FromNibblesBound(data: seq<byte>, p: nat, number: nat, k: nat)
    requires p / 2 < |data| && number < Pow16(k)
    ensures FromNibbles(data, p, number) < Pow16(k + p)
    decreases p
  {
    if p > 0 {
      FromNibblesBound(data, p - 1, number * 16 + Nibble(data, p), k + 1);
    }
  }

  /** DECODE_INT_INTERNAL: the number and how many bytes it takes. */
  function DecodeInt(s: seq<byte>, maxNibbles: nat): (r: Option<(nat, nat)>)
    ensures r.Some? ==> 0 < r.value.1 <= |s|
  {
    if s == [] then None else
    var n := s[0] / 16 + 1;
    if n > maxNibbles || n / 2 + 1 > |s| then None else Some((FromNibbles(s, n, 0), n / 2 + 1))
  }

  /** The nibbles that have been read are those of the number. */
  lemma {:induction false} FromNibblesDigit(data: seq<byte>, p: nat, number: nat, j: nat)
    requires p / 2 < |data| && 0 < j
    ensures Shift(FromNibbles(data, p, number), p) == number
    ensures j <= p ==> Shift(FromNibbles(data, p, number), j - 1) % 16 == Nibble(data, j)
  {
    if p > 0 {
      FromNibblesDigit(data, p - 1, number * 16 + Nibble(data, p), j);
    }
  }

  /** What is decoded, from any bytes: an integer of as many nibbles as the first one says and
      one more, when no more are allowed for and all are there; nibble p is for 16 to the power p - 1. */
  lemma DecodedLayout(s: seq<byte>, maxNibbles: nat, p: nat)
    requires s != [] && 0 < p <= s[0] / 16 + 1
    ensures DecodeInt(s, maxNibbles).Some? <==> s[0] / 16 + 1 <= maxNibbles && (s[0] / 16 + 1) / 2 < |s|
    ensures DecodeInt(s, maxNibbles).Some? ==>
      && var (n, len) := DecodeInt(s, maxNibbles).value;
      && len == (s[0] / 16 + 1) / 2 + 1 && n < Pow16(s[0] as nat / 16 + 1)
      && Pow16(p - 1) > 0 && p / 2 < |s|
      && n / Pow16(p - 1) % 16 == if p % 2 == 1 then s[p / 2] % 16 else s[p / 2] / 16
  {
    if DecodeInt(s, maxNibbles).Some? {
      var k: nat := s[0] / 16 + 1;
      var n := FromNibbles(s, k, 0);
      FromNibblesBound(s, k, 0, 0);
      FromNibblesDigit(s, k, 0, p);
      ShiftIs(n, p - 1);
    }
  }

  lemma {:induction false} Pow16Grows(k: nat, n: nat)
    requires k <= n
    ensures Pow16(k) <= Pow16(n)
    decreases n - k
  {
    if k < n {
      Pow16Grows(k, n - 1);
    }
  }

  /** Nothing is shifted out of the variable in which the number is collected: 8 nibbles fit in
      32 bits, and 16 in 64. */
  lemma DecodedRange(s: seq<byte>, maxNibbles: nat)
    requires DecodeInt(s, maxNibbles).Some?
    ensures DecodeInt(s, maxNibbles).value.0 < Pow16(maxNibbles)
    ensures Pow16(8) == TWO_32 && Pow16(16) == TWO_64
  {
    var n: nat := s[0] / 16 + 1;
    FromNibblesBound(s, n, 0, 0);
    Pow16Grows(n, maxNibbles);
    Powers();
  }

  lemma NibblePrefix(e: seq<byte>, rest: seq<byte>, p: nat)
    requires p / 2 < |e|
    ensures Nibble(e + rest, p) == Nibble(e, p)
  {
    assert (e + rest)[p / 2] == e[p / 2];
  }

  /** The decoding loop on an encoded integer, whatever follows. */
  lemma NibblesRoundTrip(n: nat, e: seq<byte>, rest: seq<byte>, k: nat)
    requires n < TWO_64 && e == EncodedInt(n) && k == Written(n)
    ensures k / 2 < |e| && FromNibbles(e + rest, k, 0) == n
  {
    EncodedShape(n, e, k);
    var s := e + rest;
    forall p {:trigger Nibble(s, p)} | 0 < p <= k
      ensures p / 2 < |s| && Nibble(s, p) == Shift(n, p - 1) % 16
    {
      EncodedNibble(n, e, k, p);
      NibblePrefix(e, rest, p);
    }
    ShiftDigits(n, k);
    FromNibblesIs(s, k, n);
  }

  /** Decoding takes back encoding, whatever follows. */
  lemma IntRoundTrip(n: nat, maxNibbles: nat, rest: seq<byte>)
    requires n < TWO_64 && maxNibbles >= 1 && maxNibbles >= Digits(n)
    ensures DecodeInt(EncodedInt(n) + rest, maxNibbles) == Some((n, |EncodedInt(n)|))
  {
    var e, k := EncodedInt(n), Written(n);
    EncodedShape(n, e, k);
    NibblesRoundTrip(n, e, rest, k);
    DecodeBy(e + rest, e, k, n, maxNibbles);
  }

  lemma DecodeBy(s: seq<byte>, e: seq<byte>, k: nat, n: nat, maxNibbles: nat)
    requires e <= s && |e| == k / 2 + 1 && e[0] / 16 + 1 == k <= maxNibbles && FromNibbles(s, k, 0) == n
    ensures DecodeInt(s, maxNibbles) == Some((n, |e|))
  {
  }

  /** An encoded tag: seven bits a byte, the least significant ones first. */
  function EncodedTag(tag: nat): (e: seq<byte>)
    ensures |e| > 0
  {
    if tag < 128 then [tag] else [tag % 128 + 128] + EncodedTag(tag / 128)
  }

  function Pow128(k: nat): (r: nat)
    ensures r > 0
  {
    if k == 0 then 1 else 128 * Pow128(k - 1)
  }

  /** An encoded tag in plain arithmetic: byte i has the bits for 128 to the power i, and the high bit
      unless it is the last one; there are as many bytes as the tag needs. */
  lemma {:induction false} TagLayout(tag: nat, e: seq<byte>, i: nat)
    requires e == EncodedTag(tag) && i < |e|
    ensures e[i] % 128 == tag / Pow128(i) % 128 && (e[i] >= 128 <==> i < |e| - 1)
    ensures tag < Pow128(|e|) && (|e| > 1 ==> Pow128(|e| - 1) <= tag)
  {
    if tag >= 128 {
      var rest := EncodedTag(tag / 128);
      TagLayout(tag / 128, rest, if i == 0 then 0 else i - 1);
      if i > 0 {
        DivTwice(tag, 128, Pow128(i - 1));
      }
    }
  }

  /** The order of the bytes is not that of the comment in the source, which has 0x166 as 82 66:
      these decode to another tag. */
  lemma TagExample()
    ensures EncodedTag(0x166) == [0xe6, 0x02] && DecodeTag([0x82, 0x66]) == Some((0x3302, 2))
  {
    assert EncodedTag(2) == [2];
    assert DecodeTagFrom([0x82, 0x66], 1, 2, 128) == Some((0x3302, 2));
  }

  /** decode_tag_internal from byte i on, which counts for weight. */
  function DecodeTagFrom(s: seq<byte>, i: nat, number: nat, weight: nat): (r: Option<(nat, nat)>)
    requires i <= |s|
    ensures r.Some? ==> i < r.value.1 <= |s|
    decreases |s| - i
  {
    if i == |s| then None
    else if i > 4 || (i == 4 && s[i] % 128 > 15) then None
    else
      var n := number + s[i] % 128 * weight;
      if s[i] < 128 then Some((n, i + 1)) else DecodeTagFrom(s, i + 1, n, weight * 128)
  }

  /** The tag at the start of a stream, and how many bytes it takes. */
  function DecodeTag(s: seq<byte>): (r: Option<(nat, nat)>)
    ensures r.Some? ==> 0 < r.value.1 <= |s|
  {
    DecodeTagFrom(s, 0, 0, 1)
  }

  /** The first n bytes are a tag of 32 bits: a high bit on all but the last. */
  predicate IsTag(s: seq<byte>, n: nat) {
    && 0 < n <= 5 && n <= |s| && s[n - 1] < 128 && (n == 5 ==> s[4] <= 15)
    && forall i :: 0 <= i < n - 1 ==> s[i] >= 128
  }

  /** The number in the lower seven bits of n bytes, the least significant ones first. */
  function TagValue(s: seq<byte>, n: nat): nat
    requires n <= |s|
  {
    if n == 0 then 0 else TagValue(s, n - 1) + s[n - 1] % 128 * Pow128(n - 1)
  }

  /** What is decoded, from any bytes. */
  lemma DecodedTag(s: seq<byte>, n: nat, t: nat)
    ensures DecodeTag(s) == Some((t, n)) <==> IsTag(s, n) && t == TagValue(s, n)
  {
    assert Pow128(0) == 1;
    DecodedFrom(s, 0, n, t);
  }

  lemma {:induction false} DecodedFrom(s: seq<byte>, i: nat, n: nat, t: nat)
    requires i <= |s| && i <= 5 && forall k :: 0 <= k < i ==> s[k] >= 128
    ensures DecodeTagFrom(s, i, TagValue(s, i), Pow128(i)) == Some((t, n)) <==>
      i < n && IsTag(s, n) && t == TagValue(s, n)
    decreases 5 - i
  {
    if i < |s| && i < 5 && s[i] >= 128 {
      DecodedFrom(s, i + 1, n, t);
    }
  }

  /** How many bytes decode_tag_internal has looked at when it stops. */
  function TagSeen(s: seq<byte>, i: nat): (n: nat)
    requires i <= |s|
    ensures i <= n <= |s|
    decreases |s| - i
  {
    if i == |s| then i
    else if i > 4 || (i == 4 && s[i] % 128 > 15) || s[i] < 128 then i + 1
    else TagSeen(s, i + 1)
  }

  /** What evbuffer_pullup is asked to make contiguous for a tag. */
  function TagWindow(s: seq<byte>): nat {
    if |s| < 5 then |s| else 5
  }

  /** Five bytes that all announce another one, and no bits that make the number too large. */
  predicate Endless(s: seq<byte>) {
    |s| >= 6 && s[0] >= 128 && s[1] >= 128 && s[2] >= 128 && s[3] >= 128 && 128 <= s[4] < 144
  }

  /** A byte behind those pulled up is looked at exactly for an endless tag, which is refused. */
  lemma SixthByte(s: seq<byte>)
    ensures TagSeen(s, 0) > TagWindow(s) <==> Endless(s)
    ensures Endless(s) ==> TagSeen(s, 0) == 6 && DecodeTag(s) == None
  {
    SeenAfter(s, 0);
    SeenAfter(s, 1);
    SeenAfter(s, 2);
    SeenAfter(s, 3);
    SeenAfter(s, 4);
    if Endless(s) {
      EndlessRefused(s, 0, 0, 1);
    }
  }

  lemma SeenAfter(s: seq<byte>, i: nat)
    requires i <= 4
    ensures i == |s| ==> TagSeen(s, i) == i
    ensures i < |s| ==>
      TagSeen(s, i) == if (i == 4 && s[i] % 128 > 15) || s[i] < 128 || i + 1 == |s| then i + 1 else TagSeen(s, i + 1)
    ensures i == 4 && 5 < |s| ==> TagSeen(s, 5) == 6
  {
  }

  lemma {:induction false} EndlessRefused(s: seq<byte>, i: nat, number: nat, weight: nat)
    requires Endless(s) && i <= 5
    ensures DecodeTagFrom(s, i, number, weight) == None
    decreases 5 - i
  {
    if i < 5 {
      EndlessRefused(s, i + 1, number + s[i] % 128 * weight, weight * 128);
    }
  }

  /** The smallest stream for which that happens. */
  lemma SixthByteExample()
    ensures TagWindow([128, 128, 128, 128, 128, 0]) == 5 && TagSeen([128, 128, 128, 128, 128, 0], 0) == 6
  {
    SixthByte([128, 128, 128, 128, 128, 0]);
  }

  /** The largest tag that can follow after i bytes. */
  function Cap(i: nat): nat
    requires i <= 4
  {
    if i == 0 then 0xffff_ffff else if i == 1 then 0x1ff_ffff else if i == 2 then 0x3_ffff else if i == 3 then 0x7ff
      else 15
  }

  lemma {:induction false} TagDecodes(s: seq<byte>, i: nat, tag: nat, number: nat, weight: nat, rest: seq<byte>)
    requires i <= 4 && i <= |s| && s[i..] == EncodedTag(tag) + rest && tag <= Cap(i)
    ensures DecodeTagFrom(s, i, number, weight) == Some((number + tag * weight, i + |EncodedTag(tag)|))
    decreases tag
  {
    TagFirst(s, i, tag, rest);
    if tag < 128 {
      TagLast(s, i, tag, number, weight);
    } else {
      var j, q, n, w := i + 1, tag / 128, number + tag % 128 * weight, weight * 128;
      TagDecodes(s, j, q, n, w, rest);
      Weigh(tag, weight, q, w, number, n);
      TagNext(s, i, number, weight, n, w, j);
    }
  }

  lemma TagLast(s: seq<byte>, i: nat, tag: nat, number: nat, weight: nat)
    requires i <= 4 && i < |s| && s[i] == tag < 128 && (i == 4 ==> tag <= 15)
    ensures DecodeTagFrom(s, i, number, weight) == Some((number + tag * weight, i + 1))
  {
    assert s[i] % 128 == tag;
  }

  lemma TagFirst(s: seq<byte>, i: nat, tag: nat, rest: seq<byte>)
    requires i <= |s| && s[i..] == EncodedTag(tag) + rest
    ensures i < |s| && (tag < 128 ==> s[i] == tag && |EncodedTag(tag)| == 1)
    ensures tag >= 128 ==> s[i] == tag % 128 + 128 && s[i] % 128 == tag % 128
    ensures tag >= 128 ==>
      s[i + 1..] == EncodedTag(tag / 128) + rest && |EncodedTag(tag)| == 1 + |EncodedTag(tag / 128)|
  {
    assert s[i] == s[i..][0];
    assert s[i + 1..] == s[i..][1..];
  }

  lemma TagNext(s: seq<byte>, i: nat, number: nat, weight: nat, n: nat, w: nat, j: nat)
    requires i < |s| && i < 4 && j == i + 1 && s[i] >= 128
    requires n == number + s[i] % 128 * weight && w == weight * 128
    ensures DecodeTagFrom(s, i, number, weight) == DecodeTagFrom(s, j, n, w)
  {
  }

  lemma Weigh(tag: nat, weight: nat, q: nat, w: nat, number: nat, n: nat)
    requires q == tag / 128 && w == weight * 128 && n == number + tag % 128 * weight
    ensures n + q * w == number + tag * weight
  {
    assert tag == tag % 128 + 128 * q;
    assert (tag % 128 + 128 * q) * weight == tag % 128 * weight + q * w;
  }

  lemma TagRoundTrip(tag: nat, rest: seq<byte>)
    requires tag < TWO_32
    ensures DecodeTag(EncodedTag(tag) + rest) == Some((tag, |EncodedTag(tag)|))
  {
    var s := EncodedTag(tag) + rest;
    assert s[0..] == s;
    TagDecodes(s, 0, tag, 0, 1, rest);
  }

  /** A record: tag, length, payload. */
  datatype Record = Record(tag: nat, payload: seq<byte>) {
    /** Lengths are passed around as int. */
    predicate Ok() {
      tag < TWO_32 && |payload| <= 0x7fff_ffff
    }

    function Encoded(): seq<byte>
      requires Ok()
    {
      EncodedTag(tag) + EncodedInt(|payload|) + payload
    }
  }

  /** The header of a record: tag, length of the payload, length of the header. */
  function DecodeHeader(s: seq<byte>): (r: Option<(nat, nat, nat)>)
    ensures r.Some? ==> r.value.2 <= |s|
  {
    match DecodeTag(s)
    case None => None
    case Some((tag, n)) =>
      match DecodeInt(s[n..], 8)
      case None => None
      case Some((len, m)) => Some((tag, len, n + m))
  }

  /** What evtag_unmarshal_header leaves: the tag is gone once it has been decoded, and so is the length. */
  function HeaderRest(s: seq<byte>): (r: seq<byte>)
    ensures DecodeTag(s).None? ==> r == s
    ensures DecodeTag(s).Some? && DecodeHeader(s).None? ==> r == s[DecodeTag(s).value.1..]
    ensures DecodeHeader(s).Some? ==> r == s[DecodeHeader(s).value.2..]
  {
    match DecodeTag(s)
    case None => s
    case Some((tag, n)) =>
      match DecodeInt(s[n..], 8)
      case None => s[n..]
      case Some((len, m)) => s[n + m..]
  }

  /** The first record of a stream and what follows it. */
  function DecodeRecord(s: seq<byte>): Option<(Record, seq<byte>)> {
    match DecodeHeader(s)
    case None => None
    case Some((tag, len, n)) =>
      if n + len > |s| then None else Some((Record(tag, s[n..n + len]), s[n + len..]))
  }

  lemma HeaderRoundTrip(tag: nat, len: nat, rest: seq<byte>)
    requires tag < TWO_32 && len < TWO_32
    ensures DecodeHeader(EncodedTag(tag) + EncodedInt(len) + rest) ==
      Some((tag, len, |EncodedTag(tag)| + |EncodedInt(len)|))
  {
    var s, t := EncodedTag(tag) + EncodedInt(len) + rest, EncodedInt(len) + rest;
    assert s == EncodedTag(tag) + t;
    TagRoundTrip(tag, t);
    assert s[|EncodedTag(tag)|..] == t;
    DigitsBound(len, 8);
    IntRoundTrip(len, 8, rest);
  }

  /** Unmarshalling takes back marshalling and leaves exactly what follows. */
  lemma RecordRoundTrip(r: Record, rest: seq<byte>)
    requires r.Ok()
    ensures DecodeRecord(r.Encoded() + rest) == Some((r, rest))
  {
    var h := EncodedTag(r.tag) + EncodedInt(|r.payload|);
    assert r.Encoded() + rest == h + (r.payload + rest);
    HeaderRoundTrip(r.tag, |r.payload|, r.payload + rest);
    var s := h + (r.payload + rest);
    assert s[|h|..|h| + |r.payload|] == r.payload && s[|h| + |r.payload|..] == rest;
  }

  function EncodedAll(rs: seq<Record>): seq<byte>
    requires forall r :: r in rs ==> r.Ok()
  {
    if rs == [] then [] else rs[0].Encoded() + EncodedAll(rs[1..])
  }

  function DecodeAll(s: seq<byte>): (seq<Record>, seq<byte>)
    decreases |s|
  {
    match DecodeRecord(s)
    case None => ([], s)
    case Some((r, rest)) =>
      if |rest| >= |s| then ([], s) else ([r] + DecodeAll(rest).0, DecodeAll(rest).1)
  }

  /** A stream of records is read back as it was written. */
  lemma {:induction false} StreamRoundTrip(rs: seq<Record>)
    requires forall r :: r in rs ==> r.Ok()
    ensures DecodeAll(EncodedAll(rs)) == (rs, [])
  {
    if rs != [] {
      StreamRoundTrip(rs[1..]);
      RecordRoundTrip(rs[0], EncodedAll(rs[1..]));
      assert |rs[0].Encoded()| > 0;
      assert rs == [rs[0]] + rs[1..];
    }
  }
}
