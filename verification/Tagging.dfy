/** Tagged streams: the operations of event_tagging.c on a buffer. */
module Tagging {
  import opened Basics
  import opened Chunks
  import opened TagCodec

  const INT_MAX: nat := 0x7fff_ffff

  /** ENCODE_INT_INTERNAL with size bytes for the number. */
  method EncodeIntInternal(number0: nat, size: nat) returns (out: seq<byte>)
    requires (size == 4 && number0 < TWO_32) || (size == 8 && number0 < TWO_64)
    ensures out == EncodedInt(number0)
  {
    var data := new byte[size + 1](_ => 0);
    var off, nibbles: nat, number := 1, 0, number0;
    DigitsBound(number0, 2 * size);
    while number != 0
      invariant Writing(number0, number, off, data[..], size)
      decreases number
    {
      WritingStep(number0, number, off, data[..], size, off + 1);
      data[off / 2] := SetNibble(data[off / 2], off % 2 == 1, number);
      number, off := number / 16, off + 1;
    }
    ShiftDigits(number0, off - 1);
    if off > 2 {
      nibbles := off - 2;
    }
    NibblesDone(number0, off, data[..], size, nibbles);
    data[0] := SetNibble(data[0], false, nibbles);
    out := data[..(off + 1) / 2];
    BytesFromNibbles(number0, data[..], off, out);
  }

  /** off - 1 nibbles of n have been written, and number is what is left of it. */
  ghost predicate Writing(n: nat, number: nat, off: nat, data: seq<byte>, size: nat) {
    && |data| == size + 1 && Digits(n) <= 2 * size && 1 <= off <= Digits(n) + 1 && number == Shift(n, off - 1)
    && forall p {:trigger Nibble(data, p)} :: 0 <= p < 2 * size + 2 ==>
      Nibble(data, p) == if 1 <= p < off then Shift(n, p - 1) % 16 else 0
  }

  lemma WritingStep(n: nat, number: nat, off: nat, data: seq<byte>, size: nat, next: nat)
    requires Writing(n, number, off, data, size) && number != 0 && next == off + 1
    ensures off / 2 < |data|
    ensures Writing(n, number / 16, next, data[off / 2 := SetNibble(data[off / 2], off % 2 == 1, number)], size)
  {
    ShiftDigits(n, off - 1);
    NibbleSet(data, off, number, data[off / 2 := SetNibble(data[off / 2], off % 2 == 1, number)]);
  }

  lemma NibblesDone(n: nat, off: nat, data: seq<byte>, size: nat, nibbles: nat)
    requires Writing(n, 0, off, data, size) && nibbles < 16 && nibbles == if off > 2 then off - 2 else 0
    ensures NibblesOf(n, data[0 := SetNibble(data[0], false, nibbles)], off)
  {
    NibbleSet(data, 0, nibbles, data[0 := SetNibble(data[0], false, nibbles)]);
  }

  /** Setting one nibble leaves the others alone. */
  lemma NibbleSet(a: seq<byte>, p: nat, v: nat, b: seq<byte>)
    requires p / 2 < |a| && b == a[p / 2 := SetNibble(a[p / 2], p % 2 == 1, v)]
    ensures forall q {:trigger Nibble(b, q)} :: 0 <= q < 2 * |a| ==>
      Nibble(b, q) == if q == p then v % 16 else Nibble(a, q)
  {
  }

  /** The nibbles that stand in the array before its length is settled. */
  ghost predicate NibblesOf(n: nat, data: seq<byte>, off: nat) {
    forall p {:trigger Nibble(data, p)} :: 0 <= p < 2 * |data| ==>
      Nibble(data, p) ==
        if p == 0 then (if off > 2 then off - 2 else 0) else if p < off then Shift(n, p - 1) % 16 else 0
  }

  lemma BytesFromNibbles(n: nat, data: seq<byte>, off: nat, out: seq<byte>)
    requires n < TWO_64 && off == Digits(n) + 1 && (off + 1) / 2 <= |data| && out == data[..(off + 1) / 2]
    requires NibblesOf(n, data, off)
    ensures out == EncodedInt(n)
  {
    var e := EncodedInt(n);
    DigitsBound(n, 16);
    EncodedShape(n, e, Written(n));
    assert |out| == |e|;
    forall b | 0 <= b < |e|
      ensures out[b] == e[b]
    {
      ByteAt(n, data, off, e, b, 2 * b, 2 * b + 1);
    }
  }

  lemma ByteAt(n: nat, data: seq<byte>, off: nat, e: seq<byte>, b: nat, p: nat, q: nat)
    requires n < TWO_64 && off == Digits(n) + 1 && e == EncodedInt(n) && NibblesOf(n, data, off)
    requires b < |e| && b < |data| && p == 2 * b && q == p + 1
    ensures data[b] == e[b]
  {
    assert p / 2 == b && p % 2 == 0 && q / 2 == b && q % 2 == 1;
    assert Nibble(data, p) == data[b] / 16 && Nibble(data, q) == data[b] % 16;
    ByteFromNibbles(n, data[b], off, e, b);
  }

  lemma ByteFromNibbles(n: nat, d: byte, off: nat, e: seq<byte>, b: nat)
    requires n < TWO_64 && off == Digits(n) + 1 && e == EncodedInt(n) && b < |e|
    requires d / 16 ==
      (if b == 0 then (if off > 2 then off - 2 else 0) else if 2 * b < off then Shift(n, 2 * b - 1) % 16 else 0)
    requires d % 16 == if 2 * b + 1 < off then Shift(n, 2 * b) % 16 else 0
    ensures d == e[b]
  {
    ShiftDigits(n, 2 * b);
    if b == 0 {
      Halves(if Digits(n) == 0 then 0 else Digits(n) - 1, n % 16);
    } else {
      ShiftDigits(n, 2 * b - 1);
      LaterByte(n, e, b);
    }
  }

  class Stream {
    /** The bytes of the evbuffer. */
    var data: seq<byte>

    constructor ()
      ensures data == []
    {
      data := [];
    }

    /** evbuffer_add */
    method Add(bytes: seq<byte>)
      modifies this
      ensures data == old(data) + bytes
    {
      data := data + bytes;
    }

    /** evbuffer_drain */
    method Drain(n: nat)
      modifies this
      ensures data == if n >= |old(data)| then [] else old(data)[n..]
    {
      data := if n >= |data| then [] else data[n..];
    }

    /** evtag_encode_int and evtag_encode_int64 */
    method EncodeInt(number: nat, size: nat)
      requires (size == 4 && number < TWO_32) || (size == 8 && number < TWO_64)
      modifies this
      ensures data == old(data) + EncodedInt(number)
    {
      var bytes := EncodeIntInternal(number, size);
      Add(bytes);
    }

    /** evtag_encode_tag */
    method EncodeTag(tag0: nat) returns (n: nat)
      requires tag0 < TWO_32
      modifies this
      ensures data == old(data) + EncodedTag(tag0) && n == |EncodedTag(tag0)|
    {
      var tag: nat, bytes := tag0 / 128, [if tag0 / 128 != 0 then tag0 % 128 + 128 else tag0];
      assert tag0 < 128 ==> EncodedTag(tag0) == bytes;
      while tag != 0
        invariant tag != 0 ==> EncodedTag(tag0) == bytes + EncodedTag(tag)
        invariant tag == 0 ==> EncodedTag(tag0) == bytes
        decreases tag
      {
        var lower := tag % 128;
        ghost var t := tag;
        tag := tag / 128;
        if tag != 0 {
          lower := lower + 128;
        }
        assert EncodedTag(t) == [lower] + if tag != 0 then EncodedTag(tag) else [];
        bytes := bytes + [lower];
      }
      Add(bytes);
      n := |bytes|;
    }

    /** decode_tag_internal; the result is -1 or the number of bytes, and seen is how many it has
        looked at, of which only TagWindow are known to be in one block. */
    method DecodeTagInternal(doDrain: bool) returns (r: int, tag: nat, ghost seen: nat)
      requires |data| <= INT_MAX
      modifies this
      ensures seen == TagSeen(old(data), 0)
      ensures match DecodeTag(old(data))
        case None => r == -1 && data == old(data)
        case Some((t, n)) => r == n && tag == t && data == if doDrain then old(data)[n..] else old(data)
    {
      tag := 0;
      var number: nat, weight: nat, count: nat, len: nat, done := 0, 1, 0, |data|, false;
      if len == 0 {
        // evbuffer_pullup of nothing fails.
        return -1, 0, 0;
      }
      while count < len && !done
        invariant count <= len && data == old(data)
        invariant !done ==>
          DecodeTag(data) == DecodeTagFrom(data, count, number, weight) && TagSeen(data, 0) == TagSeen(data, count)
        invariant done ==> DecodeTag(data) == Some((number, count)) && TagSeen(data, 0) == count
        decreases len - count, !done
      {
        var lower := data[count];
        if count >= 4 {
          if count > 4 || lower % 128 > 15 {
            return -1, 0, count + 1;
          }
        }
        number := number + lower % 128 * weight;
        weight := weight * 128;
        count := count + 1;
        if lower < 128 {
          done := true;
        }
      }
      seen := count;
      if !done {
        return -1, 0, seen;
      }
      if doDrain {
        Drain(count);
      }
      tag := number;
      r := if count > INT_MAX then INT_MAX else count;
    }

    /** DECODE_INT_INTERNAL at an offset; the result is -1 or the number of bytes. */
    method DecodeIntInternal(maxNibbles: nat, offset: nat) returns (r: int, number: nat)
      requires offset <= |data|
      ensures match DecodeInt(data[offset..], maxNibbles)
        case None => r == -1
        case Some((v, n)) => r == n && number == v < Pow16(maxNibbles)
    {
      number := 0;
      var len := |data| - offset;
      if len <= 0 {
        return -1, 0;
      }
      var s := data[offset..];
      var nibbles: nat := s[0] / 16 + 1;
      if nibbles > maxNibbles || nibbles / 2 + 1 > len {
        return -1, 0;
      }
      r := nibbles / 2 + 1;
      DecodedRange(s, maxNibbles);
      ghost var whole := FromNibbles(s, nibbles, 0);
      while nibbles > 0
        invariant nibbles / 2 < |s| && FromNibbles(s, nibbles, number) == whole
      {
        number := number * 16 + if nibbles % 2 == 1 then s[nibbles / 2] % 16 else s[nibbles / 2] / 16;
        nibbles := nibbles - 1;
      }
    }

    /** evtag_decode_int and evtag_decode_int64 */
    method DecodeIntAndDrain(maxNibbles: nat) returns (ok: bool, number: nat)
      modifies this
      ensures match DecodeInt(old(data), maxNibbles)
        case None => !ok && data == old(data)
        case Some((v, n)) => ok && number == v < Pow16(maxNibbles) && data == old(data)[n..]
    {
      assert data[0..] == data;
      var res;
      res, number := DecodeIntInternal(maxNibbles, 0);
      ok := res != -1;
      if ok {
        Drain(res);
      }
    }

    /** evtag_marshal */
    method Marshal(tag: nat, payload: seq<byte>)
      requires Record(tag, payload).Ok()
      modifies this
      ensures data == old(data) + Record(tag, payload).Encoded()
    {
      var n := EncodeTag(tag);
      EncodeInt(|payload|, 4);
      Add(payload);
    }

    /** evtag_marshal_int and evtag_marshal_int64: the payload is an encoded integer. */
    method MarshalInt(tag: nat, number: nat, size: nat)
      requires tag < TWO_32 && ((size == 4 && number < TWO_32) || (size == 8 && number < TWO_64))
      modifies this
      ensures |EncodedInt(number)| <= 9 && data == old(data) + Record(tag, EncodedInt(number)).Encoded()
    {
      var bytes := EncodeIntInternal(number, size);
      DigitsBound(number, 16);
      EncodedShape(number, bytes, Written(number));
      var n := EncodeTag(tag);
      EncodeInt(|bytes|, 4);
      Add(bytes);
    }

    /** evtag_marshal_timeval */
    method MarshalTimeval(tag: nat, sec: nat, usec: nat)
      requires tag < TWO_32 && sec < TWO_32 && usec < TWO_32
      modifies this
      ensures var payload := EncodedInt(sec) + EncodedInt(usec);
        Record(tag, payload).Ok() && data == old(data) + Record(tag, payload).Encoded()
    {
      var a := EncodeIntInternal(sec, 4);
      var b := EncodeIntInternal(usec, 4);
      DigitsBound(sec, 8);
      DigitsBound(usec, 8);
      EncodedShape(sec, a, Written(sec));
      EncodedShape(usec, b, Written(usec));
      Marshal(tag, a + b);
    }

    /** evtag_unmarshal_header: -1, or the length of the payload that follows. When it fails
        after the tag the tag is gone, and the length too when there is one. */
    method UnmarshalHeader() returns (r: int, tag: nat)
      requires |data| <= INT_MAX
      modifies this
      ensures data == HeaderRest(old(data)) && (DecodeTag(old(data)).Some? ==> tag == DecodeTag(old(data)).value.0)
      ensures match DecodeHeader(old(data))
        case Some((t, len, n)) => tag == t && r == (if |old(data)| - n < len then -1 else len)
        case None => r == -1
    {
      var res;
      ghost var seen;
      res, tag, seen := DecodeTagInternal(true);
      if res == -1 {
        return -1, 0;
      }
      HeaderParts(old(data), old(data)[res..]);
      var ok, len := DecodeIntAndDrain(8);
      if !ok {
        return -1, tag;
      }
      if |data| < len {
        return -1, tag;
      }
      r := ToInt(len);
    }

    /** evtag_consume */
    method Consume() returns (ok: bool)
      requires |data| <= INT_MAX
      modifies this
      ensures ok <==> DecodeRecord(old(data)).Some?
      ensures data == if ok then DecodeRecord(old(data)).value.1 else HeaderRest(old(data))
    {
      var len, tag := UnmarshalHeader();
      ok := len != -1;
      RecordParts(old(data));
      if ok {
        Drain(len);
      }
    }

    /** evtag_unmarshal: appends the payload to dst. */
    method Unmarshal(dst: Stream) returns (r: int, tag: nat)
      requires |data| <= INT_MAX && dst != this
      modifies this, dst
      ensures match DecodeRecord(old(data))
        case None => r == -1 && dst.data == old(dst.data) && data == HeaderRest(old(data))
        case Some((rec, rest)) =>
          r == |rec.payload| && tag == rec.tag && data == rest && dst.data == old(dst.data) + rec.payload
    {
      r, tag := UnmarshalHeader();
      if r == -1 {
        return;
      }
      dst.Add(data[..r]);
      Drain(r);
      RecordParts(old(data));
    }

    /** evtag_unmarshal_fixed: a payload of exactly len bytes. A record that does not fit loses its header. */
    method UnmarshalFixed(needTag: nat, len: nat) returns (ok: bool, payload: seq<byte>)
      requires |data| <= INT_MAX
      modifies this
      ensures ok <==>
        DecodeRecord(old(data)).Some? && DecodeRecord(old(data)).value.0.tag == needTag
        && |DecodeRecord(old(data)).value.0.payload| == len
      ensures ok ==> payload == DecodeRecord(old(data)).value.0.payload && data == DecodeRecord(old(data)).value.1
      ensures !ok ==> payload == [] && data == HeaderRest(old(data))
    {
      payload := [];
      var n, tag := UnmarshalHeader();
      RecordParts(old(data));
      if n < 0 || tag != needTag || n != len {
        return false, [];
      }
      payload := data[..len];
      Drain(len);
      ok := true;
    }

    /** What a record is, from its header. */
    static lemma RecordParts(s: seq<byte>)
      ensures DecodeHeader(s).Some? ==> var h := DecodeHeader(s).value; var d := s[h.2..];
        && (DecodeRecord(s).Some? <==> h.1 <= |d|)
        && (h.1 <= |d| ==> DecodeRecord(s).value == (Record(h.0, d[..h.1]), d[h.1..]))
    {
      if DecodeHeader(s).Some? {
        var h := DecodeHeader(s).value;
        if h.2 + h.1 <= |s| {
          assert s[h.2..][..h.1] == s[h.2..h.2 + h.1] && s[h.2..][h.1..] == s[h.2 + h.1..];
        }
      }
    }

    /** evtag_unmarshal_int and evtag_unmarshal_int64; the result is -1 or how many bytes of
        the payload the integer takes. */
    method UnmarshalInt(needTag: nat, maxNibbles: nat) returns (r: int, number: nat)
      requires |data| <= INT_MAX
      modifies this
      ensures match DecodeTag(old(data))
        case None => r == -1 && data == old(data)
        case Some((tag, n)) =>
          if tag != needTag then r == -1 && data == old(data)[n..]
          else match DecodeRecord(old(data))
            case None => r == -1 && data == HeaderRest(old(data))
            case Some((rec, rest)) =>
              && data == rest
              && match DecodeInt(rec.payload + rest, maxNibbles)
                case None => r == -1
                case Some((v, m)) => if m > |rec.payload| then r == -1 else r == m && number == v
    {
      number := 0;
      var res, tag;
      ghost var seen;
      res, tag, seen := DecodeTagInternal(true);
      if res == -1 || needTag != tag {
        return -1, 0;
      }
      RecordParts(old(data));
      HeaderParts(old(data), old(data)[res..]);
      r, number := UnmarshalAfterTag(maxNibbles);
    }

    /** What evtag_unmarshal_int does behind the tag. */
    method UnmarshalAfterTag(maxNibbles: nat) returns (r: int, number: nat)
      requires |data| <= INT_MAX
      modifies this
      ensures match DecodeInt(old(data), 8)
        case None => r == -1 && data == old(data)
        case Some((len, m)) =>
          if |old(data)| - m < len then r == -1 && data == old(data)[m..]
          else
            && data == old(data)[m..][len..]
            && match DecodeInt(old(data)[m..][..len] + old(data)[m..][len..], maxNibbles)
              case None => r == -1
              case Some((v, k)) => if k > len then r == -1 else r == k && number == v
    {
      number := 0;
      var ok, len := DecodeIntAndDrain(8);
      if !ok || |data| < len {
        return -1, 0;
      }
      r, number := UnmarshalPayload(maxNibbles, len);
    }

    /** The header of a stream, once the tag is gone. */
    static lemma HeaderParts(s: seq<byte>, d: seq<byte>)
      requires DecodeTag(s).Some? && d == s[DecodeTag(s).value.1..]
      ensures match DecodeInt(d, 8)
        case None => DecodeHeader(s) == None && HeaderRest(s) == d
        case Some((len, m)) =>
          && DecodeHeader(s) == Some((DecodeTag(s).value.0, len, DecodeTag(s).value.1 + m))
          && HeaderRest(s) == s[DecodeHeader(s).value.2..] == d[m..]
    {
    }

    /** The integer in the payload of len bytes at the front, which is drained. */
    method UnmarshalPayload(maxNibbles: nat, len: nat) returns (r: int, number: nat)
      requires len <= |data| <= INT_MAX
      modifies this
      ensures data == old(data)[len..]
      ensures match DecodeInt(old(data)[..len] + old(data)[len..], maxNibbles)
        case None => r == -1
        case Some((v, m)) => if m > len then r == -1 else r == m && number == v
    {
      assert data[..len] + data[len..] == data && data[0..] == data;
      var result;
      result, number := DecodeIntInternal(maxNibbles, 0);
      Drain(len);
      r := if result < 0 || result > len then -1 else result;
    }

    /** evtag_unmarshal_timeval: two integers at the front of the payload. */
    method UnmarshalTimeval(needTag: nat) returns (ok: bool, sec: nat, usec: nat)
      requires |data| <= INT_MAX
      modifies this
      ensures match DecodeRecord(old(data))
        case None => !ok && data == HeaderRest(old(data))
        case Some((rec, rest)) =>
          && data == rest
          && (ok <==> rec.tag == needTag && TimevalIn(rec.payload + rest, |rec.payload|).Some?)
          && (ok ==> TimevalIn(rec.payload + rest, |rec.payload|) == Some((sec, usec)))
    {
      ok, sec, usec := false, 0, 0;
      var len, tag := UnmarshalHeader();
      RecordParts(old(data));
      if len == -1 {
        return;
      }
      if tag == needTag {
        assert data[..len] + data[len..] == data;
        ok, sec, usec := DecodeTimeval(len);
      }
      Drain(len);
    }

    method DecodeTimeval(len: nat) returns (ok: bool, sec: nat, usec: nat)
      ensures ok <==> TimevalIn(data, len).Some?
      ensures ok ==> TimevalIn(data, len) == Some((sec, usec))
    {
      ok, usec := false, 0;
      assert data[0..] == data;
      var offset, offset2;
      offset, sec := DecodeIntInternal(8, 0);
      if offset != -1 {
        offset2, usec := DecodeIntInternal(8, offset);
        ok := offset2 != -1 && offset + offset2 <= len;
      }
    }

    /** evtag_peek_length: the length of the first record, header and all. */
    method PeekLength() returns (ok: bool, length: nat)
      requires |data| <= INT_MAX
      modifies this
      ensures data == old(data)
      ensures match DecodeHeader(data)
        case None => !ok
        case Some((tag, len, n)) => ok && length == (len + n) % TWO_32
    {
      length := 0;
      var len, tag;
      ghost var seen;
      len, tag, seen := DecodeTagInternal(false);
      if len == -1 {
        return false, 0;
      }
      var res, payload := DecodeIntInternal(8, len);
      if res == -1 {
        return false, 0;
      }
      ok, length := true, (payload + res + len) % TWO_32;
    }
  }

  /** Two integers at the front of body that take no more than len bytes. */
  function TimevalIn(body: seq<byte>, len: nat): Option<(nat, nat)> {
    match DecodeInt(body, 8)
    case None => None
    case Some((s, n)) =>
      match DecodeInt(body[n..], 8)
      case None => None
      case Some((u, m)) => if n + m > len then None else Some((s, u))
  }

  /** A marshalled timeval is read back, whatever follows. */
  lemma TimevalRoundTrip(s: nat, u: nat, payload: seq<byte>, rest: seq<byte>)
    requires s < TWO_32 && u < TWO_32 && payload == EncodedInt(s) + EncodedInt(u)
    ensures TimevalIn(payload + rest, |payload|) == Some((s, u))
  {
    var a, b := EncodedInt(s), EncodedInt(u);
    DigitsBound(s, 8);
    DigitsBound(u, 8);
    IntRoundTrip(s, 8, b + rest);
    IntRoundTrip(u, 8, rest);
    Regrouped(a, b, rest, payload + rest);
    TimevalBy(payload + rest, b + rest, |a|, |b|, s, u);
  }

  lemma Regrouped(a: seq<byte>, b: seq<byte>, rest: seq<byte>, d: seq<byte>)
    requires d == (a + b) + rest
    ensures d == a + (b + rest) && d[|a|..] == b + rest
  {
  }

  lemma TimevalBy(body: seq<byte>, behind: seq<byte>, n: nat, m: nat, s: nat, u: nat)
    requires DecodeInt(body, 8) == Some((s, n)) && n <= |body| && body[n..] == behind
    requires DecodeInt(behind, 8) == Some((u, m))
    ensures TimevalIn(body, n + m) == Some((s, u))
  {
  }

  /** When a record can be consumed, the length seen by peeking is what consuming takes. */
  lemma PeekIsConsumed(s: seq<byte>)
    requires |s| <= INT_MAX && DecodeRecord(s).Some?
    ensures DecodeHeader(s).Some?
    ensures var h := DecodeHeader(s).value; (h.1 + h.2) % TWO_32 == |s| - |DecodeRecord(s).value.1|
  {
  }

  /** A marshalled integer is read back, and the whole payload is used. */
  lemma IntRecordRoundTrip(tag: nat, number: nat, maxNibbles: nat, rest: seq<byte>)
    requires tag < TWO_32 && number < TWO_64 && maxNibbles >= 1 && maxNibbles >= Digits(number)
    ensures var r := Record(tag, EncodedInt(number));
      && r.Ok() && DecodeRecord(r.Encoded() + rest) == Some((r, rest))
      && DecodeInt(r.payload + rest, maxNibbles) == Some((number, |r.payload|))
  {
    var r := Record(tag, EncodedInt(number));
    DigitsBound(number, 16);
    EncodedShape(number, EncodedInt(number), Written(number));
    RecordRoundTrip(r, rest);
    IntRoundTrip(number, maxNibbles, rest);
  }
}
