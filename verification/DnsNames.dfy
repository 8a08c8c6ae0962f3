/** Domain names in DNS messages (evdns.c): length-prefixed labels with the compression of
    section 4.1.4 of RFC 1035. */
module DnsNames {
  import opened Basics
  import opened Chunks

  const DOT: byte := 46

  /** Where a compression pointer leads. */
  function Target(hi: byte, lo: byte): nat {
    (hi as int) % 64 * 256 + lo
  }

  /** The labels that reading a message from position j on gives, with at most budget jumps. */
  function Names(packet: seq<byte>, j: nat, budget: nat): Option<seq<seq<byte>>>
    decreases budget, if j <= |packet| then |packet| - j else 0
  {
    if j >= |packet| then None
    else if packet[j] == 0 then Some([])
    else if packet[j] >= 64 then
      if j + 1 >= |packet| then None
      else
        var t := Target(packet[j], packet[j + 1]);
        if t >= |packet| || budget == 0 then None else Names(packet, t, budget - 1)
    else
      if j + 1 + packet[j] > |packet| then None
      else
        match Names(packet, j + 1 + packet[j], budget)
        case None => None
        case Some(ls) => Some([packet[j + 1..j + 1 + packet[j]]] + ls)
  }

  /** The place behind a name that starts at j. */
  function End(packet: seq<byte>, j: nat): nat
    decreases if j <= |packet| then |packet| - j else 0
  {
    if j >= |packet| then j
    else if packet[j] == 0 then j + 1
    else if packet[j] >= 64 then j + 2
    else End(packet, j + 1 + packet[j])
  }

  /** The labels with dots between them. */
  function Text(ls: seq<seq<byte>>): seq<byte> {
    if ls == [] then [] else if |ls| == 1 then ls[0] else Text(ls[..|ls| - 1]) + [DOT] + ls[|ls| - 1]
  }

  predicate NonEmpty(ls: seq<seq<byte>>) {
    forall i :: 0 <= i < |ls| ==> ls[i] != []
  }

  lemma TextSnoc(ls: seq<seq<byte>>, l: seq<byte>)
    ensures Text(ls + [l]) == if ls == [] then l else Text(ls) + [DOT] + l
  {
    assert (ls + [l])[..|ls|] == ls;
  }

  lemma {:induction false} TextGrows(ls: seq<seq<byte>>, more: seq<seq<byte>>)
    ensures |Text(ls + more)| >= |Text(ls)|
    decreases |more|
  {
    if more == [] {
      assert ls + more == ls;
    } else {
      var front, l := more[..|more| - 1], more[|more| - 1];
      TextGrows(ls, front);
      assert ls + more == (ls + front) + [l];
      TextSnoc(ls + front, l);
    }
  }

  lemma {:induction false} TextEmpty(ls: seq<seq<byte>>)
    requires NonEmpty(ls)
    ensures Text(ls) == [] <==> ls == []
  {
  }

  /** The two bytes of a pointer: where it leads. */
  method ReadPointer(packet: seq<byte>, j: nat, ghost budget: nat) returns (ok: bool, t: nat)
    requires j < |packet| && packet[j] >= 64
    ensures ok ==> j + 2 <= |packet| && t < |packet| && End(packet, j) == j + 2
    ensures Names(packet, j, budget) == if ok && budget > 0 then Names(packet, t, budget - 1) else None
  {
    ok, t := false, 0;
    if j + 1 < |packet| {
      t := Target(packet[j], packet[j + 1]);
      ok := t < |packet|;
    }
  }

  /** Where a parse that began at idx is: the text so far is that of the labels done, and what
      can be read from j on completes the name. */
  ghost predicate Parsing(packet: seq<byte>, idx: nat, text: seq<byte>, room: nat, j: nat, nameEnd: int,
      ptrCount: nat, done: seq<seq<byte>>)
  {
    && j <= |packet| && ptrCount <= |packet| && (text != [] ==> |text| < room)
    && NonEmpty(done) && text == Text(done)
    && Names(packet, idx, |packet|) == Glue(done, Names(packet, j, |packet| - ptrCount))
    && (if nameEnd < 0 then End(packet, idx) == End(packet, j) && idx <= j
        else End(packet, idx) == nameEnd && idx < nameEnd <= |packet|)
  }

  lemma ParseStart(packet: seq<byte>, idx: nat, room: nat)
    requires idx <= |packet|
    ensures Parsing(packet, idx, [], room, idx, -1, 0, [])
  {
    var whole := Names(packet, idx, |packet|);
    assert whole.Some? ==> [] + whole.value == whole.value;
  }

  method PointerStep(packet: seq<byte>, ghost idx: nat, ghost text: seq<byte>, ghost room: nat, j: nat, nameEnd: int,
      ptrCount: nat, ghost done: seq<seq<byte>>)
    returns (ok: bool, t: nat, newEnd: int)
    requires Parsing(packet, idx, text, room, j, nameEnd, ptrCount, done) && j < |packet| && packet[j] >= 64
    ensures ok ==> ptrCount < |packet| && Parsing(packet, idx, text, room, t, newEnd, ptrCount + 1, done)
    ensures !ok ==> Names(packet, idx, |packet|) == None
  {
    newEnd := nameEnd;
    ok, t := ReadPointer(packet, j, |packet| - ptrCount);
    if ok {
      if nameEnd < 0 {
        newEnd := j + 2;
      }
      if ptrCount + 1 > |packet| {
        ok := false;
      }
    }
  }

  method LabelStep(packet: seq<byte>, ghost idx: nat, out: array<byte>, cp0: nat, j: nat, ghost nameEnd: int,
      ghost ptrCount: nat, ghost done: seq<seq<byte>>)
    returns (ok: bool, cp: nat)
    requires cp0 <= out.Length && Parsing(packet, idx, out[..cp0], out.Length, j, nameEnd, ptrCount, done)
      && j < |packet| && 0 < packet[j] < 64
    modifies out
    ensures ok ==> j + 1 + packet[j] <= |packet| && cp <= out.Length
    ensures ok ==> Parsing(packet, idx, out[..cp], out.Length, j + 1 + packet[j], nameEnd, ptrCount,
      done + [packet[j + 1..j + 1 + packet[j]]])
    ensures !ok ==> Names(packet, idx, |packet|) == None || |Text(Names(packet, idx, |packet|).value)| >= out.Length
  {
    ghost var text := out[..cp0];
    ok, cp := CopyLabel(packet, j + 1, packet[j], out, cp0, done);
    if ok {
      LabelDone(packet, idx, text, out.Length, j, nameEnd, ptrCount, done, j + 1 + packet[j], out[..cp]);
    } else {
      LabelFails(packet, idx, text, out.Length, j, nameEnd, ptrCount, done);
    }
  }

  lemma LabelDone(packet: seq<byte>, idx: nat, text: seq<byte>, room: nat, j: nat, nameEnd: int, ptrCount: nat,
      done: seq<seq<byte>>, next: nat, longer: seq<byte>)
    requires Parsing(packet, idx, text, room, j, nameEnd, ptrCount, done) && j < |packet| && 0 < packet[j] < 64
    requires next == j + 1 + packet[j] <= |packet|
    requires longer == Text(done + [packet[j + 1..next]]) && |longer| < room
    ensures Parsing(packet, idx, longer, room, next, nameEnd, ptrCount, done + [packet[j + 1..next]])
  {
    LabelNext(Names(packet, idx, |packet|), done, packet, j, packet[j], |packet| - ptrCount);
  }

  lemma LabelFails(packet: seq<byte>, idx: nat, text: seq<byte>, room: nat, j: nat, nameEnd: int, ptrCount: nat,
      done: seq<seq<byte>>)
    requires Parsing(packet, idx, text, room, j, nameEnd, ptrCount, done) && j < |packet| && 0 < packet[j] < 64
    requires j + 1 + packet[j] > |packet| || |text| + (if text == [] then 0 else 1) + packet[j] >= room
    ensures Names(packet, idx, |packet|) == None || |Text(Names(packet, idx, |packet|).value)| >= room
  {
    LabelNext(Names(packet, idx, |packet|), done, packet, j, packet[j], |packet| - ptrCount);
  }

  /** name_parse. It reads the packet and writes out only within their bounds, and ends for
      every packet: jumps are counted, and between jumps the position grows. */
  method NameParse(packet: seq<byte>, idx: nat, out: array<byte>) returns (ok: bool, newIdx: nat, ghost n: nat)
    modifies out
    ensures ok <==> Names(packet, idx, |packet|).Some? && |Text(Names(packet, idx, |packet|).value)| < out.Length
    ensures ok ==> n < out.Length && out[..n] == Text(Names(packet, idx, |packet|).value) && out[n] == 0
    ensures ok ==> idx < newIdx <= |packet| && newIdx == End(packet, idx)
  {
    var j: nat, cp: nat, nameEnd: int, ptrCount: nat := idx, 0, -1, 0;
    newIdx, n := idx, 0;
    if j > |packet| {
      return false, idx, 0;
    }
    ghost var done: seq<seq<byte>> := [];
    ParseStart(packet, idx, out.Length);
    assert out[..0] == [];
    while j < |packet| && packet[j] != 0
      invariant cp <= out.Length && Parsing(packet, idx, out[..cp], out.Length, j, nameEnd, ptrCount, done)
      decreases |packet| - ptrCount, |packet| - j
    {
      var good;
      if packet[j] >= 64 {
        good, j, nameEnd := PointerStep(packet, idx, out[..cp], out.Length, j, nameEnd, ptrCount, done);
        ptrCount := ptrCount + 1;
      } else {
        good, cp := LabelStep(packet, idx, out, cp, j, nameEnd, ptrCount, done);
        if good {
          done := done + [packet[j + 1..j + 1 + packet[j]]];
          j := j + 1 + packet[j];
        }
      }
      if !good {
        return false, idx, 0;
      }
    }
    if j >= |packet| || cp >= out.Length {
      return false, idx, 0;
    }
    assert done + [] == done;
    ghost var text := out[..cp];
    out[cp] := 0;
    assert out[..cp] == text;
    n := cp;
    newIdx := if nameEnd < 0 then j + 1 else nameEnd;
    ok := true;
  }

  /** Appends a label, after a dot unless it is the first one. */
  method CopyLabel(packet: seq<byte>, j: nat, len: nat, out: array<byte>, cp0: nat, ghost done: seq<seq<byte>>)
    returns (fits: bool, cp: nat)
    requires j <= |packet| && 0 < len && cp0 <= out.Length && (cp0 > 0 ==> cp0 < out.Length)
    requires NonEmpty(done) && out[..cp0] == Text(done)
    modifies out
    ensures fits <==> cp0 + (if cp0 > 0 then 1 else 0) + len < out.Length && j + len <= |packet|
    ensures fits ==> cp < out.Length && out[..cp] == Text(done + [packet[j..j + len]])
  {
    cp := cp0;
    TextEmpty(done);
    if cp != 0 {
      if cp + 1 >= out.Length {
        return false, cp;
      }
      out[cp] := DOT;
      cp := cp + 1;
    }
    if cp + len >= out.Length || j + len > |packet| {
      return false, cp;
    }
    ghost var text := out[..cp];
    assert text == if done == [] then [] else Text(done) + [DOT];
    forall i | 0 <= i < len {
      out[cp + i] := packet[j + i];
    }
    assert out[..cp + len] == text + packet[j..j + len];
    TextSnoc(done, packet[j..j + len]);
    cp := cp + len;
    fits := true;
  }

  /** The labels found so far and those to come. */
  function Glue(done: seq<seq<byte>>, rest: Option<seq<seq<byte>>>): Option<seq<seq<byte>>> {
    match rest
    case None => None
    case Some(ls) => Some(done + ls)
  }

  /** A label that does not fit means that the whole name does not. */
  lemma LabelNext(whole: Option<seq<seq<byte>>>, done: seq<seq<byte>>, packet: seq<byte>, j: nat, len: nat, budget: nat)
    requires j < |packet| && 0 < len < 64 && packet[j] == len && whole == Glue(done, Names(packet, j, budget))
      && NonEmpty(done)
    ensures j + 1 + len > |packet| ==> whole == None
    ensures j + 1 + len <= |packet| ==>
      whole == Glue(done + [packet[j + 1..j + 1 + len]], Names(packet, j + 1 + len, budget))
      && End(packet, j) == End(packet, j + 1 + len)
    ensures whole.Some? ==> |Text(whole.value)| >= |Text(done)| + len + if Text(done) == [] then 0 else 1
  {
    TextEmpty(done);
    if j + 1 + len <= |packet| && Names(packet, j + 1 + len, budget).Some? {
      var l := packet[j + 1..j + 1 + len];
      var ls := Names(packet, j + 1 + len, budget).value;
      assert done + ([l] + ls) == (done + [l]) + ls;
      TextGrows(done + [l], ls);
      TextSnoc(done, l);
    }
  }

  /** strchr(name, '.'), or the length */
  function FirstDot(v: seq<byte>): (i: nat)
    ensures i <= |v| && (i < |v| ==> v[i] == DOT)
    ensures forall j :: 0 <= j < i ==> v[j] != DOT
  {
    if v == [] || v[0] == DOT then 0 else 1 + FirstDot(v[1..])
  }

  /** The labels of a name; the root, and what comes after a final dot, has none. */
  function Labels(v: seq<byte>): seq<seq<byte>>
    decreases |v|
  {
    if v == [] then [] else
    var i := FirstDot(v);
    if i == |v| then [v] else [v[..i]] + Labels(v[i + 1..])
  }

  /** No label is empty, and there is no zero byte. */
  predicate WellFormed(v: seq<byte>)
    decreases |v|
  {
    v != [] ==>
      && 0 < FirstDot(v) && (forall i :: 0 <= i < |v| ==> v[i] != 0)
      && (FirstDot(v) < |v| ==> WellFormed(v[FirstDot(v) + 1..]))
  }

  /** A name without a final dot is the text of its labels. */
  lemma {:induction false} TextOfLabels(v: seq<byte>)
    requires WellFormed(v) && (v != [] ==> v[|v| - 1] != DOT)
    ensures Text(Labels(v)) == v
    decreases |v|
  {
    if v != [] && FirstDot(v) < |v| {
      var i := FirstDot(v);
      var rest := v[i + 1..];
      TextOfLabels(rest);
      assert rest != [] && v == v[..i] + [DOT] + rest;
      TextCons(v[..i], Labels(rest));
    }
  }

  lemma {:induction false} TextCons(l: seq<byte>, ls: seq<seq<byte>>)
    requires ls != []
    ensures Text([l] + ls) == l + [DOT] + Text(ls)
    decreases |ls|
  {
    var front, last := ls[..|ls| - 1], ls[|ls| - 1];
    TextSnoc([l] + front, last);
    TextSnoc(front, last);
    Regroup(l, front, last);
    assert ls == front + [last];
    if front == [] {
      assert [l] + front == [l];
    } else {
      TextCons(l, front);
      DotAssoc(l, Text(front), last);
    }
  }

  lemma Regroup(l: seq<byte>, ls: seq<seq<byte>>, m: seq<byte>)
    ensures [l] + (ls + [m]) == ([l] + ls) + [m]
  {
  }

  lemma DotAssoc(a: seq<byte>, b: seq<byte>, c: seq<byte>)
    ensures (a + [DOT] + b) + [DOT] + c == a + [DOT] + (b + [DOT] + c)
  {
  }

  /** What follows does not change how a message reads. */
  lemma {:induction false} Stable(data: seq<byte>, j: nat, budget: nat, more: seq<byte>)
    requires Names(data, j, budget).Some?
    ensures Names(data + more, j, budget) == Names(data, j, budget) && End(data + more, j) == End(data, j)
    decreases budget, if j <= |data| then |data| - j else 0
  {
    var d := data + more;
    if data[j] >= 64 {
      Stable(data, Target(data[j], data[j + 1]), budget - 1, more);
    } else if data[j] != 0 {
      Stable(data, j + 1 + data[j], budget, more);
      assert d[j + 1..j + 1 + data[j]] == data[j + 1..j + 1 + data[j]];
    }
  }

  /** More jumps do no harm. */
  lemma {:induction false} Budget(data: seq<byte>, j: nat, budget: nat, more: nat)
    requires Names(data, j, budget).Some? && budget <= more
    ensures Names(data, j, more) == Names(data, j, budget)
    decreases budget, if j <= |data| then |data| - j else 0
  {
    if data[j] >= 64 {
      Budget(data, Target(data[j], data[j + 1]), budget - 1, more - 1);
    } else if data[j] != 0 {
      Budget(data, j + 1 + data[j], budget, more);
    }
  }

  /** A message that ends in the middle of a name does not hold the name. */
  lemma {:induction false} CutInside(data: seq<byte>, j: nat, n: nat, budget: nat)
    requires n < End(data, j) && n <= |data|
    ensures Names(data[..n], j, budget) == None
    decreases if j <= |data| then |data| - j else 0
  {
    if j < n && 0 < data[j] < 64 && j + 1 + data[j] <= n {
      CutInside(data, j + 1 + data[j], n, budget);
    }
  }

  /** A pointer leads to the position that its two bytes give, the high two bits taken off, most
      significant byte first; it needs to be in the packet. */
  lemma PointerLeads(packet: seq<byte>, j: nat, budget: nat, t: nat)
    requires j + 1 < |packet| && packet[j] >= 64
    requires var high := if packet[j] >= 192 then 192 else if packet[j] >= 128 then 128 else 64;
      t == (packet[j] as int - high) * 256 + packet[j + 1]
    ensures t < |packet| && budget > 0 ==> Names(packet, j, budget) == Names(packet, t, budget - 1)
    ensures t >= |packet| || budget == 0 ==> Names(packet, j, budget) == None
    ensures End(packet, j) == j + 2
  {
  }

  /** A packet must not end before a length, or in the middle of a pointer. */
  lemma CutShort(packet: seq<byte>, j: nat, budget: nat)
    requires j >= |packet| || (packet[j] >= 64 && j + 1 == |packet|)
    ensures Names(packet, j, budget) == None
  {
  }

  /** A length below 64 is followed by as many bytes of a label, and zero ends a name. */
  lemma LabelLeads(packet: seq<byte>, j: nat, budget: nat, k: nat)
    requires j < |packet| && packet[j] < 64 && k == j + 1 + packet[j]
    ensures packet[j] == 0 ==> Names(packet, j, budget) == Some([]) && End(packet, j) == j + 1
    ensures packet[j] > 0 && k > |packet| ==> Names(packet, j, budget) == None
    ensures packet[j] > 0 && k <= |packet| && Names(packet, k, budget).None? ==> Names(packet, j, budget) == None
    ensures packet[j] > 0 && k <= |packet| && Names(packet, k, budget).Some? ==>
      Names(packet, j, budget) == Some([packet[j + 1..k]] + Names(packet, k, budget).value)
    ensures packet[j] > 0 ==> End(packet, j) == End(packet, k)
  {
  }

  /** Behind a header of zeros: the name "a", and "b" with a pointer to it. */
  method ReadExample() returns (ok: bool, newIdx: nat, text: seq<byte>)
    ensures ok && newIdx == 19 && text == [98, 46, 97]
  {
    var packet: seq<byte> := seq(12, _ => 0) + [1, 97, 0, 1, 98, 0xc0, 12];
    assert packet[13..14] == [97] && packet[16..17] == [98];
    LabelLeads(packet, 14, 18, 15);
    LabelLeads(packet, 12, 18, 14);
    PointerLeads(packet, 17, 19, 12);
    LabelLeads(packet, 15, 19, 17);
    ghost var ls: seq<seq<byte>> := [[98], [97]];
    assert Names(packet, 15, 19) == Some([[98]] + ([[97]] + []));
    assert [[98]] + ([[97]] + []) == ls && ls[..1] == [[98]];
    var out := new byte[8];
    ghost var n;
    ok, newIdx, n := NameParse(packet, 15, out);
    text := out[..3];
  }
}
