/** Writing domain names into DNS messages (evdns.c), with the compression of section 4.1.4 of
    RFC 1035. */
module DnsEncode {
  import opened Basics
  import opened Chunks
  import opened DnsNames

  const MAX_LABELS: nat := 128
  /** Positions from here on do not fit in a pointer. */
  const FAR: nat := 0x4000

  /** struct dnslabel_entry */
  datatype Entry = Entry(v: seq<byte>, pos: nat)

  /** At the position of the entry the message holds its name. */
  predicate EntryOk(data: seq<byte>, e: Entry) {
    e.pos < |data| && e.pos < FAR && Names(data, e.pos, e.pos) == Some(Labels(e.v))
  }

  predicate TableOk(data: seq<byte>, table: seq<Entry>) {
    |table| <= MAX_LABELS && forall i :: 0 <= i < |table| ==> EntryOk(data, table[i])
  }

  lemma TableStable(data: seq<byte>, table: seq<Entry>, more: seq<byte>)
    requires TableOk(data, table)
    ensures TableOk(data + more, table)
  {
    forall i | 0 <= i < |table|
      ensures EntryOk(data + more, table[i])
    {
      assert EntryOk(data, table[i]);
      Stable(data, table[i].pos, table[i].pos, more);
    }
  }

  /** dnslabel_table_get_pos as a function: where v has been used, or -1. */
  function Lookup(table: seq<Entry>, v: seq<byte>): int {
    if table == [] then -1 else if table[0].v == v then table[0].pos else Lookup(table[1..], v)
  }

  lemma {:induction false} LookupFinds(table: seq<Entry>, v: seq<byte>) returns (i: nat)
    requires Lookup(table, v) >= 0
    ensures i < |table| && table[i] == Entry(v, Lookup(table, v))
  {
    if table[0].v == v {
      i := 0;
    } else {
      i := LookupFinds(table[1..], v);
      i := i + 1;
    }
  }

  /** Nothing is found exactly when the name is not in the table. */
  lemma {:induction false} LookupNone(table: seq<Entry>, v: seq<byte>)
    ensures Lookup(table, v) < 0 <==> forall i :: 0 <= i < |table| ==> table[i].v != v
  {
    if table != [] {
      LookupNone(table[1..], v);
      assert table == [table[0]] + table[1..];
    }
  }

  /** Entries for other names do not matter. */
  lemma {:induction false} LookupMore(table: seq<Entry>, e: Entry, v: seq<byte>)
    requires e.v != v
    ensures Lookup(table + [e], v) == Lookup(table, v)
  {
    if table != [] {
      LookupMore(table[1..], e, v);
      assert (table + [e])[1..] == table[1..] + [e];
    } else {
      assert [] + [e] == [e] && [e][1..] == [];
    }
  }

  /** dnslabel_table_get_pos */
  method GetPos(table: seq<Entry>, v: seq<byte>) returns (pos: int)
    ensures pos == Lookup(table, v)
  {
    var k := 0;
    while k < |table|
      invariant 0 <= k <= |table| && Lookup(table, v) == Lookup(table[k..], v)
    {
      if table[k].v == v {
        return table[k].pos;
      }
      k := k + 1;
    }
    pos := -1;
  }

  /** dnslabel_table_add; a full table stays as it is. */
  function AddLabel(table: seq<Entry>, v: seq<byte>, pos: nat): seq<Entry> {
    if |table| == MAX_LABELS then table else table + [Entry(v, pos)]
  }

  /** The labels that have to be written, up to a suffix that is in the table, are not longer
      than 63 bytes. */
  predicate Short(v: seq<byte>, table: seq<Entry>)
    decreases |v|
  {
    Lookup(table, v) >= 0 || (FirstDot(v) <= 63 && (FirstDot(v) < |v| ==> Short(v[FirstDot(v) + 1..], table)))
  }

  /** No suffix of the name is in the table, so that it has to be written in full. */
  predicate Full(v: seq<byte>, table: seq<Entry>)
    decreases |v|
  {
    Lookup(table, v) < 0 && (FirstDot(v) < |v| ==> Full(v[FirstDot(v) + 1..], table))
  }

  /** The last label is not empty: a zero has to follow it. */
  predicate Open(v: seq<byte>) {
    v != [] && v[|v| - 1] != DOT
  }

  /** APPEND16 of a pointer */
  function PointerTo(pos: nat): (r: seq<byte>)
    ensures |r| == 2 && 192 <= r[0] < 256 && r[1] < 256
    ensures pos < FAR ==> (r[0] as int - 192) * 256 + r[1] == pos
  {
    [192 + pos / 256 % 64, pos % 256]
  }

  /** The bytes of an encoded name. */
  function Enc(v: seq<byte>, table: seq<Entry>): seq<byte>
    requires Short(v, table)
    decreases |v|
  {
    if Lookup(table, v) >= 0 then PointerTo(Lookup(table, v)) else
    var i := FirstDot(v);
    if i == |v| then [i] + v + (if v == [] then [] else [0]) else [i] + v[..i] + Enc(v[i + 1..], table)
  }

  /** A name that is in the table is written as two bytes that give its position, the high two
      bits set, most significant byte first; any other begins with the length of its first label
      and that label. */
  lemma StoredPointer(v: seq<byte>, table: seq<Entry>)
    requires Short(v, table)
    ensures var e := Enc(v, table);
      if Lookup(table, v) >= 0 then
        |e| == 2 && e[0] >= 192 && (Lookup(table, v) < FAR ==> (e[0] as int - 192) * 256 + e[1] == Lookup(table, v))
      else |e| > FirstDot(v) && e[0] == FirstDot(v) <= 63 && e[1..1 + FirstDot(v)] == v[..FirstDot(v)]
  {
  }

  /** How many of them have to be within the buffer; the terminating zero need not be. */
  function Need(v: seq<byte>, table: seq<Entry>): (n: nat)
    requires Short(v, table)
    ensures n <= |Enc(v, table)|
    decreases |v|
  {
    if Lookup(table, v) >= 0 then 2 else
    var i := FirstDot(v);
    if i == |v| then 1 + i else 1 + i + Need(v[i + 1..], table)
  }

  /** The table when the name has been written at position j; cur has the entries made so far. */
  function After(v: seq<byte>, table: seq<Entry>, cur: seq<Entry>, j: nat): seq<Entry>
    decreases |v|
  {
    if Lookup(table, v) >= 0 then cur else
    var i, next := FirstDot(v), AddLabel(cur, v, j);
    if i == |v| then next else After(v[i + 1..], table, next, j + 1 + i)
  }

  /** s is v, or what is left of it behind one of its labels, and had to be written. */
  predicate IsPart(v: seq<byte>, table: seq<Entry>, s: seq<byte>)
    decreases |v|
  {
    Lookup(table, v) < 0 && (s == v || (FirstDot(v) < |v| && IsPart(v[FirstDot(v) + 1..], table, s)))
  }

  lemma {:induction false} LookupLast(cur: seq<Entry>, v: seq<byte>, j: nat)
    requires Lookup(cur, v) < 0
    ensures Lookup(cur + [Entry(v, j)], v) == j
  {
    if cur != [] {
      LookupLast(cur[1..], v, j);
      assert (cur + [Entry(v, j)])[1..] == cur[1..] + [Entry(v, j)];
    } else {
      assert [] + [Entry(v, j)] == [Entry(v, j)];
    }
  }

  /** What is stored for shorter names does not matter. */
  lemma {:induction false} AfterShorter(v: seq<byte>, table: seq<Entry>, cur: seq<Entry>, j: nat, s: seq<byte>)
    requires |s| > |v|
    ensures Lookup(After(v, table, cur, j), s) == Lookup(cur, s) && |cur| <= |After(v, table, cur, j)|
    decreases |v|
  {
    if Lookup(table, v) < 0 {
      LookupMore(cur, Entry(v, j), s);
      if FirstDot(v) < |v| {
        AfterShorter(v[FirstDot(v) + 1..], table, AddLabel(cur, v, j), j + 1 + FirstDot(v), s);
      }
    }
  }

  lemma {:induction false} Remembered(v: seq<byte>, table: seq<Entry>, cur: seq<Entry>, j: nat, s: seq<byte>)
    requires IsPart(v, table, s) && |After(v, table, cur, j)| < MAX_LABELS
    requires forall u :: |u| <= |v| ==> Lookup(cur, u) == Lookup(table, u)
    ensures |s| <= |v| && Lookup(After(v, table, cur, j), s) == j + |v| - |s|
    decreases |v|
  {
    LookupLast(cur, v, j);
    if FirstDot(v) < |v| {
      var l, rest, next := v[..FirstDot(v)], v[FirstDot(v) + 1..], AddLabel(cur, v, j);
      var k := j + 1 + |l|;
      OpenedAfter(v, table, l, rest, cur, j, k);
      AfterShorter(rest, table, next, k, v);
      if s != v {
        LookupSame(table, v, cur, j, next, rest);
        Remembered(rest, table, next, k, s);
      }
    }
  }

  /** A name that has been written, and each of its ends, is a pointer to its place from then on,
      as long as the table has room. */
  lemma Compressed(v: seq<byte>, table: seq<Entry>, j: nat, s: seq<byte>, t: seq<Entry>)
    requires IsPart(v, table, s) && t == After(v, table, table, j) && |t| < MAX_LABELS
    ensures |s| <= |v| && Short(s, t) && |Enc(s, t)| == 2 && Enc(s, t)[0] >= 192
    ensures var at := j + |v| - |s|; at < 0x4000 ==> (Enc(s, t)[0] as int - 192) * 256 + Enc(s, t)[1] == at
  {
    Remembered(v, table, table, j, s);
    StoredPointer(s, t);
  }

  /** Exactly a name in full that ends in a label has one byte more than need be there. */
  lemma {:induction false} Sizes(v: seq<byte>, table: seq<Entry>)
    requires Short(v, table)
    ensures |Enc(v, table)| == Need(v, table) + if Full(v, table) && Open(v) then 1 else 0
    ensures Full(v, table) ==> Need(v, table) == |v| + 1
    ensures Need(v, table) <= |Enc(v, table)| <= |v| + 2
    decreases |v|
  {
    if Lookup(table, v) < 0 && FirstDot(v) < |v| {
      var rest := v[FirstDot(v) + 1..];
      Sizes(rest, table);
      EncMore(v, table, rest);
      OpenMore(v, rest, FirstDot(v));
    }
  }

  lemma EncMore(v: seq<byte>, table: seq<Entry>, rest: seq<byte>)
    requires Short(v, table) && Lookup(table, v) < 0 && FirstDot(v) < |v| && rest == v[FirstDot(v) + 1..]
    ensures Short(rest, table) && |Enc(v, table)| == |Enc(rest, table)| + 1 + FirstDot(v)
  {
  }

  lemma OpenMore(v: seq<byte>, rest: seq<byte>, i: nat)
    requires i < |v| && rest == v[i + 1..] && v[i] == DOT
    ensures Open(v) <==> Open(rest)
  {
  }

  /** A name with short labels can be written whatever is in the table. */
  lemma {:induction false} ShortAnyway(v: seq<byte>, table: seq<Entry>)
    requires Short(v, [])
    ensures Short(v, table)
    decreases |v|
  {
    if FirstDot(v) < |v| {
      ShortAnyway(v[FirstDot(v) + 1..], table);
    }
  }

  lemma {:induction false} NothingStored(v: seq<byte>)
    ensures Full(v, [])
    decreases |v|
  {
    if FirstDot(v) < |v| {
      NothingStored(v[FirstDot(v) + 1..]);
    }
  }

  /** A pointer reads like the name it points to. */
  lemma PointerReads(data: seq<byte>, e: Entry, budget: nat)
    requires EntryOk(data, e) && budget > e.pos
    ensures var d := data + PointerTo(e.pos);
      Names(d, |data|, budget) == Some(Labels(e.v)) && End(d, |data|) == |d|
  {
    var d := data + PointerTo(e.pos);
    assert Target(d[|data|], d[|data| + 1]) == e.pos;
    Stable(data, e.pos, e.pos, PointerTo(e.pos));
    Budget(d, e.pos, e.pos, budget - 1);
  }

  /** One label in front of what can be read. */
  lemma LabelReads(d: seq<byte>, j: nat, l: seq<byte>, ls: seq<seq<byte>>, budget: nat)
    requires 0 < |l| < 64 && j + 1 + |l| <= |d| && d[j] == |l| && d[j + 1..j + 1 + |l|] == l
    requires Names(d, j + 1 + |l|, budget) == Some(ls)
    ensures Names(d, j, budget) == Some([l] + ls) && End(d, j) == End(d, j + 1 + |l|)
  {
  }

  lemma LabelAt(data: seq<byte>, l: seq<byte>, h: seq<byte>, rest: seq<byte>, d: seq<byte>)
    requires 0 < |l| < 64 && h == [|l|] + l && d == data + (h + rest)
    ensures d == (data + h) + rest
    ensures d[|data|] == |l| && d[|data| + 1..|data| + 1 + |l|] == l
  {
  }

  /** A name of which the first label has to be written, and is not the last one. */
  predicate Opens(v: seq<byte>, table: seq<Entry>, l: seq<byte>, rest: seq<byte>) {
    Lookup(table, v) < 0 && FirstDot(v) < |v| && l == v[..FirstDot(v)] && rest == v[FirstDot(v) + 1..]
  }

  lemma Opened(v: seq<byte>, table: seq<Entry>, l: seq<byte>, rest: seq<byte>)
    requires WellFormed(v) && Short(v, table) && Opens(v, table, l, rest)
    ensures 0 < |l| < 64 && WellFormed(rest) && Short(rest, table)
    ensures Labels(v) == [l] + Labels(rest)
    ensures Enc(v, table) == ([|l|] + l) + Enc(rest, table)
  {
  }

  lemma OpenedAfter(v: seq<byte>, table: seq<Entry>, l: seq<byte>, rest: seq<byte>, cur: seq<Entry>, j: nat, k: nat)
    requires Opens(v, table, l, rest) && k == j + 1 + |l|
    ensures After(v, table, cur, j) == After(rest, table, AddLabel(cur, v, j), k)
  {
  }

  /** What is written behind a message reads as the name, and nothing else. */
  lemma {:induction false} EncReads(data: seq<byte>, v: seq<byte>, table: seq<Entry>, budget: nat)
    requires WellFormed(v) && Short(v, table) && TableOk(data, table)
    requires forall i :: 0 <= i < |table| ==> table[i].pos < budget
    ensures Names(data + Enc(v, table), |data|, budget) == Some(Labels(v))
    ensures End(data + Enc(v, table), |data|) == |data| + |Enc(v, table)|
    decreases |v|
  {
    if Lookup(table, v) >= 0 {
      var k := LookupFinds(table, v);
      PointerReads(data, table[k], budget);
    } else if FirstDot(v) == |v| {
      LastReads(data, v, table, budget);
    } else {
      var l: seq<byte>, rest := v[..FirstDot(v)], v[FirstDot(v) + 1..];
      var h: seq<byte> := [|l|] + l;
      Opened(v, table, l, rest);
      TableStable(data, table, h);
      EncReads(data + h, rest, table, budget);
      OpenReads(data, l, h, Enc(rest, table), data + Enc(v, table), Labels(rest), budget);
    }
  }

  lemma OpenReads(data: seq<byte>, l: seq<byte>, h: seq<byte>, e: seq<byte>, d: seq<byte>, ls: seq<seq<byte>>,
      budget: nat)
    requires 0 < |l| < 64 && h == [|l|] + l && d == data + (h + e)
    requires Names((data + h) + e, |data + h|, budget) == Some(ls)
    requires End((data + h) + e, |data + h|) == |data + h| + |e|
    ensures Names(d, |data|, budget) == Some([l] + ls)
    ensures End(d, |data|) == |data| + |h + e|
  {
    LabelAt(data, l, h, e, d);
    assert |data + h| == |data| + 1 + |l|;
    LabelReads(d, |data|, l, ls, budget);
  }

  lemma LastReads(data: seq<byte>, v: seq<byte>, table: seq<Entry>, budget: nat)
    requires Short(v, table) && Lookup(table, v) < 0 && FirstDot(v) == |v|
    ensures Names(data + Enc(v, table), |data|, budget) == Some(Labels(v))
    ensures End(data + Enc(v, table), |data|) == |data| + |Enc(v, table)|
  {
    if v == [] {
      assert Enc(v, table) == [0];
    } else {
      var d := data + Enc(v, table);
      LabelAt(data, v, [|v|] + v, [0], d);
      assert Names(d, |data| + 1 + |v|, budget) == Some([]);
      LabelReads(d, |data|, v, [], budget);
      assert [v] + [] == [v];
    }
  }

  /** At each position the table keeps, the message holds the suffix that was stored. */
  lemma {:induction false} AfterOk(data: seq<byte>, v: seq<byte>, table: seq<Entry>, cur: seq<Entry>, e: Entry,
      d: seq<byte>)
    requires WellFormed(v) && Short(v, table) && TableOk(data, table) && d == data + Enc(v, table) && |d| <= FAR
    requires e in After(v, table, cur, |data|)
    ensures e in cur || EntryOk(d, e)
    decreases |v|
  {
    if Lookup(table, v) < 0 {
      NewEntryOk(data, v, table);
      if FirstDot(v) < |v| {
        var l: seq<byte>, rest := v[..FirstDot(v)], v[FirstDot(v) + 1..];
        var h: seq<byte> := [|l|] + l;
        Opened(v, table, l, rest);
        LabelAt(data, l, h, Enc(rest, table), d);
        TableStable(data, table, h);
        OpenedAfter(v, table, l, rest, cur, |data|, |data + h|);
        AfterOk(data + h, rest, table, AddLabel(cur, v, |data|), e, d);
      }
    }
  }

  lemma NewEntryOk(data: seq<byte>, v: seq<byte>, table: seq<Entry>)
    requires WellFormed(v) && Short(v, table) && TableOk(data, table) && |data| + |Enc(v, table)| <= FAR
    requires Lookup(table, v) < 0
    ensures EntryOk(data + Enc(v, table), Entry(v, |data|))
  {
    EncReads(data, v, table, |data|);
    assert |Enc(v, table)| > 0;
  }

  lemma {:induction false} AfterSize(v: seq<byte>, table: seq<Entry>, cur: seq<Entry>, j: nat)
    requires |cur| <= MAX_LABELS
    ensures |After(v, table, cur, j)| <= MAX_LABELS
    decreases |v|
  {
    if Lookup(table, v) < 0 && FirstDot(v) < |v| {
      AfterSize(v[FirstDot(v) + 1..], table, AddLabel(cur, v, j), j + 1 + FirstDot(v));
    }
  }

  /** A name written with the table keeps the table right. */
  lemma TableKept(data: seq<byte>, v: seq<byte>, table: seq<Entry>)
    requires WellFormed(v) && Short(v, table) && TableOk(data, table) && |data| + |Enc(v, table)| <= FAR
    ensures TableOk(data + Enc(v, table), After(v, table, table, |data|))
  {
    var d, t := data + Enc(v, table), After(v, table, table, |data|);
    AfterSize(v, table, table, |data|);
    TableStable(data, table, Enc(v, table));
    forall i | 0 <= i < |t|
      ensures EntryOk(d, t[i])
    {
      AfterOk(data, v, table, table, t[i], d);
    }
  }

  /** A C string. */
  predicate NoZero(v: seq<byte>) {
    forall i :: 0 <= i < |v| ==> v[i] != 0
  }

  /** What is read has no empty labels. */
  lemma {:induction false} NamesNonEmpty(packet: seq<byte>, j: nat, budget: nat)
    requires Names(packet, j, budget).Some?
    ensures NonEmpty(Names(packet, j, budget).value)
    decreases budget, if j <= |packet| then |packet| - j else 0
  {
    if packet[j] >= 64 {
      NamesNonEmpty(packet, Target(packet[j], packet[j + 1]), budget - 1);
    } else if packet[j] != 0 {
      NamesNonEmpty(packet, j + 1 + packet[j], budget);
    }
  }

  lemma {:induction false} EmptyLabel(v: seq<byte>) returns (k: nat)
    requires NoZero(v) && !WellFormed(v)
    ensures k < |Labels(v)| && Labels(v)[k] == []
    decreases |v|
  {
    var i := FirstDot(v);
    k := 0;
    if 0 < i < |v| {
      k := EmptyLabel(v[i + 1..]);
      k := k + 1;
    }
  }

  /** A string is read back as its labels exactly when none of them is empty; dnsname_to_labels
      does not look, and writes a zero for one that is. */
  lemma ReadsIff(data: seq<byte>, v: seq<byte>, table: seq<Entry>, budget: nat)
    requires NoZero(v) && Short(v, table) && TableOk(data, table)
    requires forall i :: 0 <= i < |table| ==> table[i].pos < budget
    ensures Names(data + Enc(v, table), |data|, budget) == Some(Labels(v)) <==> WellFormed(v)
  {
    if WellFormed(v) {
      EncReads(data, v, table, budget);
    } else {
      var k := EmptyLabel(v);
      if Names(data + Enc(v, table), |data|, budget).Some? {
        NamesNonEmpty(data + Enc(v, table), |data|, budget);
      }
    }
  }

  /** "a..b" is read back as "a". */
  lemma EmptyLabelExample()
    ensures Short([97, DOT, DOT, 98], []) && Enc([97, DOT, DOT, 98], []) == [1, 97, 0, 1, 98, 0]
    ensures Names([1, 97, 0, 1, 98, 0], 0, 6) == Some([[97]])
  {
    assert FirstDot([97, DOT, DOT, 98]) == 1 && FirstDot([DOT, 98]) == 0 && FirstDot([98]) == 1;
    var v: seq<byte> := [97, DOT, DOT, 98];
    assert v[2..] == [DOT, 98] && [DOT, 98][1..] == [98];
    assert Short([98], []) && Short([DOT, 98], []);
    assert Enc([98], []) == [1, 98, 0] && Enc([DOT, 98], []) == [0, 1, 98, 0];
    var d: seq<byte>, l: seq<byte> := [1, 97, 0, 1, 98, 0], [97];
    assert d[1..2] == l && Names(d, 2, 6) == Some([]);
    LabelReads(d, 0, l, [], 6);
    assert [l] + [] == [l];
  }

  /** Memory after bytes have been written at position j. */
  function Overwrite(mem: seq<byte>, j: nat, bytes: seq<byte>): (r: seq<byte>)
    requires j + |bytes| <= |mem|
    ensures |r| == |mem|
  {
    mem[..j] + bytes + mem[j + |bytes|..]
  }

  /** memcpy(buf + j, bytes, len) */
  method Put(buf: array<byte>, j: nat, bytes: seq<byte>)
    requires j + |bytes| <= buf.Length
    modifies buf
    ensures buf[..] == Overwrite(old(buf[..]), j, bytes)
  {
    forall i | 0 <= i < |bytes| {
      buf[j + i] := bytes[i];
    }
  }

  /** When a name can be written at position j of a buffer of bufLen bytes. */
  predicate Fits(v: seq<byte>, table: seq<Entry>, j: nat, bufLen: nat) {
    |v| <= 255 && Short(v, table) && j + Need(v, table) <= bufLen
  }

  /** When writing it leaves the buffer: in full, with the last label just fitting. */
  predicate Overruns(v: seq<byte>, table: seq<Entry>, j: nat, bufLen: nat) {
    |v| <= 255 && Short(v, table) && Full(v, table) && Open(v) && j + |v| + 1 == bufLen
  }

  lemma OverrunIff(v: seq<byte>, table: seq<Entry>, j: nat, bufLen: nat)
    requires Fits(v, table, j, bufLen)
    ensures j + |Enc(v, table)| <= bufLen + 1
    ensures j + |Enc(v, table)| == bufLen + 1 <==> Overruns(v, table, j, bufLen)
  {
    Sizes(v, table);
  }

  lemma OverrunFits(v: seq<byte>, table: seq<Entry>, j: nat, bufLen: nat)
    requires Overruns(v, table, j, bufLen)
    ensures Fits(v, table, j, bufLen)
  {
    Sizes(v, table);
  }

  /** What is in the buffer of a name that is refused: the labels in front of the one that is too
      long or does not fit, or of the pointer that does not fit. */
  function Left(v: seq<byte>, table: seq<Entry>, j: nat, bufLen: nat): (r: seq<byte>)
    ensures |r| == 0 || j + |r| <= bufLen
    decreases |v|
  {
    if Lookup(table, v) >= 0 then [] else
    var i := FirstDot(v);
    if i == |v| || i > 63 || j + i + 1 > bufLen then []
    else
      var l: seq<byte> := [i] + v[..i];
      l + Left(v[i + 1..], table, j + |l|, bufLen)
  }

  /** A label that has to be written is too long, and those before it fit. */
  predicate TooLong(v: seq<byte>, table: seq<Entry>, j: nat, bufLen: nat)
    decreases |v|
  {
    Lookup(table, v) < 0
    && (FirstDot(v) > 63
      || (FirstDot(v) < |v| && j + FirstDot(v) + 1 <= bufLen
        && TooLong(v[FirstDot(v) + 1..], table, j + 1 + FirstDot(v), bufLen)))
  }

  /** The result for a name that is refused. */
  function Code(v: seq<byte>, table: seq<Entry>, j: nat, bufLen: nat): (r: int)
    ensures r == -2 || r == -1
  {
    if |v| <= 255 && TooLong(v, table, j, bufLen) then -1 else -2
  }

  /** A label that is too long right away is -1, and a lack of room is -2. */
  lemma {:induction false} CodeIs(v: seq<byte>, table: seq<Entry>, j: nat, bufLen: nat)
    ensures |v| <= 255 && Lookup(table, v) < 0 && FirstDot(v) > 63 ==> Code(v, table, j, bufLen) == -1
    ensures Short(v, table) || |v| > 255 ==> Code(v, table, j, bufLen) == -2
    decreases |v|
  {
    if FirstDot(v) < |v| {
      CodeIs(v[FirstDot(v) + 1..], table, j + 1 + FirstDot(v), bufLen);
    }
  }

  /** What dnsname_to_labels puts into the buffer at position j. */
  function Puts(name: seq<byte>, table: seq<Entry>, j: nat, bufLen: nat): (r: seq<byte>)
    ensures r != [] ==> j + |r| <= bufLen + 1
  {
    if |name| > 255 then []
    else if Fits(name, table, j, bufLen) then
      OverrunIff(name, table, j, bufLen);
      Enc(name, table)
    else Left(name, table, j, bufLen)
  }

  /** What is known of the rest v of a name, done being written. */
  ghost predicate Rest(name: seq<byte>, table: seq<Entry>, done: seq<byte>, v: seq<byte>) {
    && NoZero(v) && Short(name, table) == Short(v, table)
    && (Short(name, table) ==> Enc(name, table) == done + Enc(v, table) && Need(name, table) == |done| + Need(v, table))
  }

  /** What is known of the table meanwhile. */
  ghost predicate TableSoFar(name: seq<byte>, table: seq<Entry>, j0: nat, v: seq<byte>, cur: seq<Entry>, j: nat) {
    && After(name, table, table, j0) == After(v, table, cur, j)
    && forall u :: |u| <= |v| ==> Lookup(cur, u) == Lookup(table, u)
  }

  lemma RestNext(name: seq<byte>, table: seq<Entry>, done: seq<byte>, v: seq<byte>, l: seq<byte>, h: seq<byte>,
      rest: seq<byte>)
    requires Rest(name, table, done, v) && Opens(v, table, l, rest) && |l| < 64 && h == [|l|] + l
    ensures Rest(name, table, done + h, rest)
  {
    if Short(name, table) {
      Assoc(done, h, Enc(rest, table));
    }
  }

  lemma TableNext(name: seq<byte>, table: seq<Entry>, j0: nat, v: seq<byte>, cur: seq<Entry>, j: nat, l: seq<byte>,
      rest: seq<byte>, next: seq<Entry>, k: nat)
    requires TableSoFar(name, table, j0, v, cur, j) && Opens(v, table, l, rest)
    requires next == AddLabel(cur, v, j) && k == j + 1 + |l|
    ensures TableSoFar(name, table, j0, rest, next, k)
  {
    OpenedAfter(v, table, l, rest, cur, j, k);
    LookupSame(table, v, cur, j, next, rest);
  }

  lemma LookupSame(table: seq<Entry>, v: seq<byte>, cur: seq<Entry>, j: nat, next: seq<Entry>, rest: seq<byte>)
    requires (forall u :: |u| <= |v| ==> Lookup(cur, u) == Lookup(table, u)) && next == AddLabel(cur, v, j)
      && |rest| < |v|
    ensures forall u :: |u| <= |rest| ==> Lookup(next, u) == Lookup(table, u)
  {
    forall u: seq<byte> | |u| <= |rest|
      ensures Lookup(next, u) == Lookup(table, u)
    {
      LookupMore(cur, Entry(v, j), u);
    }
  }

  lemma LastLabel(v: seq<byte>, table: seq<Entry>, h: seq<byte>)
    requires NoZero(v) && Short(v, table) && Lookup(table, v) < 0 && FirstDot(v) == |v| && h == [|v|] + v
    ensures Enc(v, table) == h + if h[|h| - 1] != 0 then [0] else []
    ensures Need(v, table) == |h|
  {
    if v == [] {
      assert h + [] == h;
    }
  }

  /** A call of dnsname_to_labels: the memory before it, the size of the buffer at its start,
      where the name goes, the name, and the table. */
  datatype Job = Job(mem: seq<byte>, bufLen: nat, j0: nat, name: seq<byte>, table: seq<Entry>, useTable: bool) {
    predicate Ok() {
      bufLen < |mem| && j0 <= |mem| && |name| <= 255 && NoZero(name) && (useTable || table == [])
    }

    function Head(): seq<byte>
      requires Ok()
    {
      mem[..j0]
    }
  }

  /** The memory in its loop: done has been written from j0 to j, and nothing behind the buffer. */
  ghost predicate MemOk(mem: seq<byte>, job: Job, done: seq<byte>, j: nat) {
    && job.Ok() && |mem| == |job.mem| && j == job.j0 + |done| <= |mem| && (done != [] ==> j <= job.bufLen)
    && mem[..j] == job.Head() + done && mem[job.bufLen..] == job.mem[job.bufLen..]
    && mem == Overwrite(job.mem, job.j0, done)
  }

  /** What a refusal leaves is what has been written and what will be. */
  ghost predicate LeftOk(job: Job, done: seq<byte>, v: seq<byte>, j: nat) {
    && Left(job.name, job.table, job.j0, job.bufLen) == done + Left(v, job.table, j, job.bufLen)
    && TooLong(job.name, job.table, job.j0, job.bufLen) == TooLong(v, job.table, j, job.bufLen)
  }

  lemma LeftNext(job: Job, done: seq<byte>, v: seq<byte>, j: nat, l: seq<byte>, h: seq<byte>, rest: seq<byte>, k: nat)
    requires LeftOk(job, done, v, j) && Opens(v, job.table, l, rest) && |l| < 64 && h == [|l|] + l
    requires k == j + |h| <= job.bufLen
    ensures LeftOk(job, done + h, rest, k)
  {
    Assoc(done, h, Left(rest, job.table, k, job.bufLen));
  }

  lemma OverwriteTwice(mem: seq<byte>, j0: nat, done: seq<byte>, j: nat, e: seq<byte>)
    requires j == j0 + |done| && j + |e| <= |mem|
    ensures Overwrite(Overwrite(mem, j0, done), j, e) == Overwrite(mem, j0, done + e)
  {
  }

  ghost predicate CurOk(job: Job, cur: seq<Entry>, v: seq<byte>, j: nat) {
    if job.useTable then TableSoFar(job.name, job.table, job.j0, v, cur, j) else cur == []
  }

  /** The state of the loop: v is left to write. */
  ghost predicate Writing(mem: seq<byte>, job: Job, cur: seq<Entry>, v: seq<byte>, done: seq<byte>, j: nat) {
    && MemOk(mem, job, done, j) && Rest(job.name, job.table, done, v) && CurOk(job, cur, v, j)
    && LeftOk(job, done, v, j)
  }

  /** What it leaves behind. */
  ghost predicate Written(mem: seq<byte>, job: Job, cur: seq<Entry>, r: int)
    requires job.Ok() && |mem| == |job.mem|
  {
    && (r >= 0 <==> Fits(job.name, job.table, job.j0, job.bufLen))
    && (r >= 0 ==> r <= job.bufLen + 1 && mem[..r] == job.Head() + Enc(job.name, job.table))
    && (r >= 0 && job.useTable ==> cur == After(job.name, job.table, job.table, job.j0))
    && (r < 0 ==> r == Code(job.name, job.table, job.j0, job.bufLen))
    && (r == job.bufLen + 1 <==> Overruns(job.name, job.table, job.j0, job.bufLen))
    && Untouched(mem, job, r) && PutThere(mem, job)
  }

  ghost predicate PutThere(mem: seq<byte>, job: Job)
    requires job.Ok() && |mem| == |job.mem|
  {
    mem == Overwrite(job.mem, job.j0, Puts(job.name, job.table, job.j0, job.bufLen))
  }

  /** The memory in front of the name, and behind the buffer. */
  ghost predicate Untouched(mem: seq<byte>, job: Job, r: int)
    requires job.Ok() && |mem| == |job.mem|
  {
    && mem[..job.j0] == job.Head() && mem[job.bufLen + 1..] == job.mem[job.bufLen + 1..]
    && (r != job.bufLen + 1 ==> mem[job.bufLen] == job.mem[job.bufLen])
  }

  lemma MemEnds(mem: seq<byte>, job: Job, done: seq<byte>, j: nat, e: seq<byte>)
    requires MemOk(mem, job, done, j) && j + |e| <= |mem| && j + |e| <= job.bufLen + 1
    ensures Overwrite(mem, j, e)[..j + |e|] == job.Head() + (done + e)
    ensures Untouched(Overwrite(mem, j, e), job, j + |e|)
    ensures Overwrite(mem, j, e) == Overwrite(job.mem, job.j0, done + e)
  {
    OverwriteTwice(job.mem, job.j0, done, j, e);
    var mem1 := Overwrite(mem, j, e);
    assert mem1[..j + |e|] == mem[..j] + e;
    assert mem1[..job.j0] == mem[..j][..job.j0];
    assert mem1[job.bufLen + 1..] == mem[job.bufLen..][1..];
  }

  /** It ends with what completes the name. */
  lemma WritingEnds(mem: seq<byte>, job: Job, cur: seq<Entry>, v: seq<byte>, done: seq<byte>, j: nat, e: seq<byte>,
      n: nat, last: seq<Entry>)
    requires Writing(mem, job, cur, v, done, j)
    requires Short(v, job.table) && e == Enc(v, job.table) && n == Need(v, job.table) && j + n <= job.bufLen
      && j + |e| <= |mem|
    requires job.useTable ==> last == After(v, job.table, cur, j)
    ensures Written(Overwrite(mem, j, e), job, last, j + |e|)
  {
    OverrunIff(job.name, job.table, job.j0, job.bufLen);
    MemEnds(mem, job, done, j, e);
  }

  lemma MemFails(mem: seq<byte>, job: Job, done: seq<byte>, j: nat, r: int)
    requires MemOk(mem, job, done, j)
    ensures Untouched(mem, job, r)
  {
    assert mem[..job.j0] == mem[..j][..job.j0];
    assert mem[job.bufLen + 1..] == mem[job.bufLen..][1..] && job.mem[job.bufLen + 1..] == job.mem[job.bufLen..][1..];
  }

  /** Or it fails, having written no more than the buffer holds. */
  lemma WritingFails(mem: seq<byte>, job: Job, cur: seq<Entry>, v: seq<byte>, done: seq<byte>, j: nat, r: int)
    requires Writing(mem, job, cur, v, done, j)
    requires Short(v, job.table) ==> j + Need(v, job.table) > job.bufLen
    requires r == if TooLong(v, job.table, j, job.bufLen) then -1 else -2
    requires Left(v, job.table, j, job.bufLen) == []
    ensures Written(mem, job, cur, r)
  {
    AppendNil(done);
    if Overruns(job.name, job.table, job.j0, job.bufLen) {
      OverrunFits(job.name, job.table, job.j0, job.bufLen);
    }
    MemFails(mem, job, done, j, r);
  }

  lemma MemNext(mem: seq<byte>, job: Job, done: seq<byte>, j: nat, h: seq<byte>)
    requires MemOk(mem, job, done, j) && j + |h| <= job.bufLen
    ensures MemOk(Overwrite(mem, j, h), job, done + h, j + |h|)
  {
    assert Overwrite(mem, j, h)[..j + |h|] == mem[..j] + h;
    assert mem[..j] + h == job.Head() + (done + h);
    OverwriteTwice(job.mem, job.j0, done, j, h);
  }

  lemma CurNext(job: Job, cur: seq<Entry>, v: seq<byte>, j: nat, l: seq<byte>, rest: seq<byte>, next: seq<Entry>,
      k: nat)
    requires CurOk(job, cur, v, j) && Opens(v, job.table, l, rest) && k == j + 1 + |l|
    requires next == if job.useTable then AddLabel(cur, v, j) else cur
    ensures CurOk(job, next, rest, k)
  {
    if job.useTable {
      TableNext(job.name, job.table, job.j0, v, cur, j, l, rest, next, k);
    }
  }

  /** The last label, and the terminating zero unless the label is empty and has written one.
      There is no look at bufLen before the zero. */
  method LastPart(buf: array<byte>, j0: nat, v: seq<byte>, ghost table: seq<Entry>) returns (r: nat)
    requires NoZero(v) && Short(v, table) && Lookup(table, v) < 0 && FirstDot(v) == |v|
      && j0 + Need(v, table) < buf.Length
    modifies buf
    ensures j0 + |Enc(v, table)| <= buf.Length && buf[..] == Overwrite(old(buf[..]), j0, Enc(v, table))
      && r == j0 + |Enc(v, table)|
  {
    ghost var mem := buf[..];
    var h: seq<byte> := [|v|] + v;
    LastLabel(v, table, h);
    Put(buf, j0, h);
    var j := j0 + |h|;
    assert buf[j - 1] == buf[..][j - 1] == h[|h| - 1];
    r := j;
    if j == 0 || buf[j - 1] != 0 {
      Put(buf, j, [0]);
      OverwriteTwice(mem, j0, h, j, [0]);
      r := j + 1;
    } else {
      assert h + [] == h;
    }
  }

  /** Looks the rest of the name up; if it is there, a pointer ends the name. */
  method TryPointer(buf: array<byte>, bufLen: nat, ghost job: Job, cur: seq<Entry>, v: seq<byte>,
      ghost done: seq<byte>, j: nat)
    returns (finished: bool, r: int)
    requires Writing(buf[..], job, cur, v, done, j) && job.useTable && bufLen == job.bufLen
    modifies buf
    ensures finished ==> Written(buf[..], job, cur, r)
    ensures !finished ==> buf[..] == old(buf[..]) && Lookup(job.table, v) < 0
  {
    ghost var mem := buf[..];
    var ref := GetPos(cur, v);
    finished, r := ref >= 0, -2;
    if finished {
      if j + 2 > bufLen {
        WritingFails(mem, job, cur, v, done, j, r);
        return;
      }
      Put(buf, j, PointerTo(ref));
      r := j + 2;
      WritingEnds(mem, job, cur, v, done, j, PointerTo(ref), 2, cur);
    }
  }

  lemma NoRoom(v: seq<byte>, table: seq<Entry>, j: nat, bufLen: nat)
    requires Lookup(table, v) < 0 && (FirstDot(v) > 63 || j + FirstDot(v) + 1 > bufLen)
    ensures FirstDot(v) > 63 <==> TooLong(v, table, j, bufLen)
    ensures Short(v, table) ==> j + Need(v, table) > bufLen
  {
  }

  /** Writes the last label, and what ends the name. */
  method LastOfAll(buf: array<byte>, ghost job: Job, cur: seq<Entry>, v: seq<byte>, ghost done: seq<byte>, j: nat,
      ghost last: seq<Entry>)
    returns (r: int)
    requires Writing(buf[..], job, cur, v, done, j) && Lookup(job.table, v) < 0
    requires FirstDot(v) == |v| <= 63 && j + |v| + 1 <= job.bufLen && (job.useTable ==> last == AddLabel(cur, v, j))
    modifies buf
    ensures Written(buf[..], job, last, r)
  {
    ghost var mem := buf[..];
    assert Short(v, job.table) && Need(v, job.table) == 1 + |v|;
    r := LastPart(buf, j, v, job.table);
    WritingEnds(mem, job, cur, v, done, j, Enc(v, job.table), 1 + |v|, last);
  }

  /** Writes a label that is not the last one. */
  method OneOfMore(buf: array<byte>, ghost job: Job, ghost cur: seq<Entry>, ghost v: seq<byte>, ghost done: seq<byte>,
      j: nat, l: seq<byte>, ghost rest: seq<byte>, ghost next: seq<Entry>)
    returns (ghost newDone: seq<byte>, newJ: nat)
    requires Writing(buf[..], job, cur, v, done, j) && Opens(v, job.table, l, rest) && |l| < 64
      && j + |l| + 1 <= job.bufLen
    requires next == if job.useTable then AddLabel(cur, v, j) else cur
    modifies buf
    ensures Writing(buf[..], job, next, rest, newDone, newJ)
  {
    var h: seq<byte> := [|l|] + l;
    newJ, newDone := j + |h|, done + h;
    RestNext(job.name, job.table, done, v, l, h, rest);
    CurNext(job, cur, v, j, l, rest, next, newJ);
    LeftNext(job, done, v, j, l, h, rest, newJ);
    PutInside(buf, job, done, j, h);
  }

  method PutInside(buf: array<byte>, ghost job: Job, ghost done: seq<byte>, j: nat, h: seq<byte>)
    requires MemOk(buf[..], job, done, j) && j + |h| <= job.bufLen
    modifies buf
    ensures MemOk(buf[..], job, done + h, j + |h|)
  {
    MemNext(buf[..], job, done, j, h);
    Put(buf, j, h);
  }

  /** Writes the next label, and what ends the name if it is the last one. */
  method NextLabel(buf: array<byte>, bufLen: nat, ghost job: Job, useTable: bool, cur: seq<Entry>, v: seq<byte>,
      ghost done: seq<byte>, j: nat)
    returns (finished: bool, r: int, newTable: seq<Entry>, rest: seq<byte>, ghost newDone: seq<byte>, newJ: nat)
    requires Writing(buf[..], job, cur, v, done, j) && useTable == job.useTable && bufLen == job.bufLen
      && Lookup(job.table, v) < 0
    modifies buf
    ensures finished ==> Written(buf[..], job, newTable, r)
    ensures !finished ==> Writing(buf[..], job, newTable, rest, newDone, newJ) && |rest| < |v|
  {
    finished, r, newTable, rest, newDone, newJ := true, -2, cur, v, done, j;
    var i := FirstDot(v);
    if i > 63 || j + i + 1 > bufLen {
      NoRoom(v, job.table, j, bufLen);
      if i > 63 {
        r := -1;
      }
      WritingFails(buf[..], job, cur, v, done, j, r);
      return;
    }
    if useTable {
      newTable := AddLabel(cur, v, j);
    }
    if i == |v| {
      r := LastOfAll(buf, job, cur, v, done, j, newTable);
    } else {
      rest := v[i + 1..];
      newDone, newJ := OneOfMore(buf, job, cur, v, done, j, v[..i], rest, newTable);
      finished := false;
    }
  }

  /** The loop over the labels. */
  method LabelLoop(buf: array<byte>, bufLen: nat, ghost job: Job, useTable: bool, table: seq<Entry>, name: seq<byte>,
      j0: nat)
    returns (r: int, newTable: seq<Entry>)
    requires Writing(buf[..], job, table, name, [], j0) && useTable == job.useTable && bufLen == job.bufLen
    modifies buf
    ensures Written(buf[..], job, newTable, r)
  {
    ghost var done: seq<byte> := [];
    var j, v := j0, name;
    newTable := table;
    while true
      invariant Writing(buf[..], job, newTable, v, done, j)
      decreases |v|
    {
      var finished := false;
      if useTable {
        finished, r := TryPointer(buf, bufLen, job, newTable, v, done, j);
      }
      if !finished {
        finished, r, newTable, v, done, j := NextLabel(buf, bufLen, job, useTable, newTable, v, done, j);
      }
      if finished {
        return;
      }
    }
  }

  /** dnsname_to_labels; buf is memory of which the first bufLen bytes are the buffer, so that
      a write behind it shows. */
  method ToLabels(buf: array<byte>, bufLen: nat, j0: nat, name: seq<byte>, useTable: bool, table: seq<Entry>)
    returns (r: int, newTable: seq<Entry>)
    requires bufLen < buf.Length && j0 <= buf.Length && NoZero(name) && (useTable || table == [])
    modifies buf
    ensures r >= 0 <==> Fits(name, table, j0, bufLen)
    ensures r >= 0 ==> r <= bufLen + 1 && buf[..r] == old(buf[..j0]) + Enc(name, table)
    ensures r >= 0 && useTable ==> newTable == After(name, table, table, j0)
    ensures r < 0 ==> r == Code(name, table, j0, bufLen)
    ensures r == bufLen + 1 <==> Overruns(name, table, j0, bufLen)
    ensures buf[..j0] == old(buf[..j0]) && buf[bufLen + 1..] == old(buf[bufLen + 1..])
    ensures r != bufLen + 1 ==> buf[bufLen] == old(buf[bufLen])
    ensures buf[..] == Overwrite(old(buf[..]), j0, Puts(name, table, j0, bufLen))
  {
    newTable, r := table, -2;
    ghost var mem := buf[..];
    if |name| > 255 {
      assert buf[bufLen] == mem[bufLen] && buf[..] == Overwrite(mem, j0, []);
      return;
    }
    ghost var job := Job(mem, bufLen, j0, name, table, useTable);
    WritingStarts(job);
    r, newTable := LabelLoop(buf, bufLen, job, useTable, table, name, j0);
    Unpack(buf[..], job, newTable, r);
  }

  lemma Unpack(mem: seq<byte>, job: Job, cur: seq<Entry>, r: int)
    requires job.Ok() && |mem| == |job.mem| && Written(mem, job, cur, r)
    ensures mem[job.bufLen + 1..] == job.mem[job.bufLen + 1..] && mem[..job.j0] == job.mem[..job.j0]
  {
  }

  lemma WritingStarts(job: Job)
    requires job.Ok()
    ensures Writing(job.mem, job, job.table, job.name, [], job.j0)
  {
    AppendNil(job.Head());
    assert job.mem == Overwrite(job.mem, job.j0, []);
    assert [] + Left(job.name, job.table, job.j0, job.bufLen) == Left(job.name, job.table, job.j0, job.bufLen);
    if Short(job.name, job.table) {
      assert [] + Enc(job.name, job.table) == Enc(job.name, job.table);
    }
  }

  /** A name that leaves the buffer: "ab" in three bytes. */
  method OverrunExample() returns (r: int, behind: byte)
    ensures r == 4 && behind == 0
  {
    var buf := new byte[4](_ => 7);
    var name: seq<byte>, table := [97, 98], [];
    assert FirstDot(name) == 2;
    r, table := ToLabels(buf, 3, 0, name, false, []);
    NothingStored(name);
    assert Enc(name, []) == [2, 97, 98, 0];
    assert buf[..4] == [] + [2, 97, 98, 0];
    behind := buf[3];
  }
}
