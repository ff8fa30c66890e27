/** The 16-bit RTCP forms of the retransmission request: `rist_receiver_send_nacks` of
    src/udp.c against `rist_sender_recv_nack` of src/rist-common.c. */
module NackRtcp {
  import opened Nack
  import opened SeqNo

  /** One four-byte record, and the length field of the packet with its records. */
  datatype Record = Record(start: nat, extra: nat)
  datatype Packet = Packet(len: nat, records: seq<Record>)

  const RECORD_CAP: nat := 256
  const PACKET_CAP: nat := 4096
  const NO_CAP: nat := 0xffff

  // ----- ranges ---------------------------------------------------------------------------

  function Numbers(first: nat, count: nat): (s: seq<int>)
    ensures |s| == count
  {
    seq(count, (i: nat) => first + i)
  }

  /** The numbers the records span when each is cut to `cap` beyond its start. */
  function Flat(records: seq<Record>, cap: nat): seq<int> {
    if records == [] then []
    else Flat(records[..|records| - 1], cap) + FlatOne(records[|records| - 1], cap)
  }

  function FlatOne(r: Record, cap: nat): seq<int> {
    Numbers(r.start, Min(r.extra, cap) + 1)
  }

  lemma FlatMore(records: seq<Record>, r: Record, cap: nat)
    ensures Flat(records + [r], cap) == Flat(records, cap) + FlatOne(r, cap)
  {
    assert (records + [r])[..|records|] == records;
  }

  function First(s: seq<int>, n: nat): (f: seq<int>) {
    if |s| <= n then s else s[..n]
  }

  /** The requested numbers: the upper half comes from the caller. */
  function Shift(s: seq<int>, msb: nat): (r: seq<int>)
    ensures |r| == |s| && forall i :: 0 <= i < |s| ==> r[i] == (msb + s[i]) % B32
  {
    seq(|s|, i requires 0 <= i < |s| => (msb + s[i]) % B32)
  }

  /** The low halves of the listed numbers. */
  function Lows(list: seq<int>): (r: seq<int>)
    ensures |r| == |list| && forall i :: 0 <= i < |list| ==> r[i] == list[i] % B16
  {
    seq(|list|, i requires 0 <= i < |list| => list[i] % B16)
  }

  lemma {:induction false} FlatPrefix(records: seq<Record>, i: nat, cap: nat)
    requires i < |records|
    ensures Flat(records[..i], cap) + FlatOne(records[i], cap) <= Flat(records, cap)
  {
    assert records[..i + 1][..i] == records[..i];
    if i == |records| - 1 {
      assert records[..i + 1] == records;
    } else {
      var init := records[..|records| - 1];
      FlatPrefix(init, i, cap);
      assert init[..i] == records[..i];
    }
  }

  /** The range branch of `rist_sender_recv_nack`; a length field that does not fit the
      packet asks for nothing, and both caps are applied. */
  method ReceiveRanges(p: Packet, msb: nat) returns (asked: seq<int>)
    ensures asked == if p.len < 2 || p.len - 2 > |p.records| then []
                     else Shift(First(Flat(p.records[..p.len - 2], 256), 4096), msb)
  {
    hide Flat, FlatOne, Shift, First, Numbers;
    asked := [];
    if p.len < 2 || p.len - 2 > |p.records| {
      return;
    }
    var records := p.records[..p.len - 2];
    ghost var all := Flat(records, RECORD_CAP);
    ghost var seen: seq<int> := [];
    NothingYet(records, msb);
    var i := 0;
    while i < |records|
      invariant 0 <= i <= |records|
      invariant seen == Flat(records[..i], RECORD_CAP) && |seen| < PACKET_CAP && asked == Shift(seen, msb)
    {
      var missing, additional := records[i].start, records[i].extra;
      if additional > 256 {
        additional := 256;
      }
      ghost var before, part := seen, FlatOne(records[i], RECORD_CAP);
      Entering(records, i);
      ShiftMore(seen, missing, msb);
      asked := asked + [(msb + missing) % B32];
      seen := seen + [missing];
      if |asked| >= PACKET_CAP {
        Cut(seen, all, before, part, 1);
        return;
      }
      var j := 0;
      while j < additional
        invariant 0 <= j <= additional
        invariant seen == before + part[..j + 1] && |seen| < PACKET_CAP && asked == Shift(seen, msb)
      {
        ShiftMore(seen, missing + j + 1, msb);
        PartMore(records[i], j);
        asked := asked + [(msb + missing + j + 1) % B32];
        seen := seen + [missing + j + 1];
        assert seen == before + part[..j + 2];
        if |asked| >= PACKET_CAP {
          Cut(seen, all, before, part, j + 2);
          return;
        }
        j := j + 1;
      }
      assert part[..additional + 1] == part;
      i := i + 1;
    }
    assert records[..i] == records;
    Uncut(all);
  }

  lemma NothingYet(records: seq<Record>, msb: nat)
    ensures Flat(records[..0], RECORD_CAP) == [] && Shift([], msb) == []
  {
  }

  lemma ShiftMore(seen: seq<int>, x: int, msb: nat)
    ensures |Shift(seen, msb)| == |seen|
    ensures Shift(seen + [x], msb) == Shift(seen, msb) + [(msb + x) % B32]
  {
  }

  /** What a record contributes, and where that stands in the whole. */
  lemma Entering(records: seq<Record>, i: nat)
    requires i < |records|
    ensures var part := FlatOne(records[i], RECORD_CAP);
            && |part| == Min(records[i].extra, RECORD_CAP) + 1
            && part[..1] == [records[i].start]
            && Flat(records[..i], RECORD_CAP) + part <= Flat(records, RECORD_CAP)
            && Flat(records[..i], RECORD_CAP) + part == Flat(records[..i + 1], RECORD_CAP)
  {
    FlatPrefix(records, i, RECORD_CAP);
    FlatMore(records[..i], records[i], RECORD_CAP);
    assert records[..i] + [records[i]] == records[..i + 1];
  }

  lemma PartMore(r: Record, j: nat)
    requires j < Min(r.extra, RECORD_CAP)
    ensures var part := FlatOne(r, RECORD_CAP);
            j + 2 <= |part| && part[..j + 2] == part[..j + 1] + [r.start + j + 1]
  {
  }

  lemma Uncut(all: seq<int>)
    requires |all| < PACKET_CAP
    ensures First(all, PACKET_CAP) == all
  {
  }

  /** Where the packet cap cuts, exactly the first numbers were taken. */
  lemma Cut(seen: seq<int>, all: seq<int>, before: seq<int>, part: seq<int>, j: nat)
    requires j <= |part| && seen == before + part[..j] && before + part <= all && |seen| == PACKET_CAP
    ensures First(all, PACKET_CAP) == seen
  {
  }

  /** Appending a record to those closed already. */
  lemma Closing(records: seq<Record>, start: nat, extra: nat)
    requires extra <= NO_CAP
    ensures Flat(records + [Record(start, extra)], NO_CAP) == Flat(records, NO_CAP) + Numbers(start, extra + 1)
  {
    FlatMore(records, Record(start, extra), NO_CAP);
  }

  lemma Growing(before: seq<int>, start: nat, extra: nat, list: seq<int>, i: nat)
    requires i < |list| && before + Numbers(start, extra + 1) == Lows(list[..i])
    requires list[i] % B16 == start + extra + 1
    ensures before + Numbers(start, extra + 2) == Lows(list[..i + 1])
  {
    assert Numbers(start, extra + 2) == Numbers(start, extra + 1) + [start + extra + 1];
    assert before + Numbers(start, extra + 2) == before + Numbers(start, extra + 1) + [start + extra + 1];
    assert Lows(list[..i + 1]) == Lows(list[..i]) + [list[i] % B16];
  }

  lemma Opening(list: seq<int>, i: nat)
    requires i < |list|
    ensures Lows(list[..i]) + Numbers(list[i] % B16, 1) == Lows(list[..i + 1])
  {
    assert Lows(list[..i + 1]) == Lows(list[..i]) + [list[i] % B16];
  }

  /** The next record could not have gone into this one, which is full or ends before. */
  predicate Breaks(r: Record, next: Record) {
    r.extra == 0xffff || next.start != r.start + r.extra + 1
  }

  ghost predicate Packed(records: seq<Record>) {
    forall i, j :: 0 <= i && j == i + 1 < |records| ==> Breaks(records[i], records[j])
  }

  lemma PackedMore(records: seq<Record>, r: Record)
    requires Packed(records) && (records != [] ==> Breaks(records[|records| - 1], r))
    ensures Packed(records + [r])
  {
    hide Breaks;
  }

  /** The range branch of `rist_receiver_send_nacks`: the records span, in order, the low
      halves of the list, each as many as can be; the packet's length field counts them
      modulo 2^16. */
  method SendRanges16(list: seq<int>) returns (p: Packet)
    requires 0 < |list| && Words(list)
    ensures Flat(p.records, 0xffff) == Lows(list)
    ensures p.len == (2 + |p.records|) % B16 && |p.records| <= |list|
    ensures forall k :: 0 <= k < |p.records| ==> p.records[k].extra < |list|
    ensures Packed(p.records)
  {
    hide Flat, Lows, Numbers, FlatOne, Words, Packed;
    NothingPacked();
    var records: seq<Record> := [];
    var fciCount := 1;
    var tmpSeq: nat := list[0] % B16;
    var lastSeq := tmpSeq;
    var start, extra: nat := tmpSeq, 0;
    NoRecords(list);
    Opening(list, 0);
    for i := 1 to |list|
      invariant fciCount == |records| + 1 <= i
      invariant 0 <= start <= lastSeq < B16 && lastSeq == start + extra && extra < i
      invariant forall k :: 0 <= k < |records| ==> records[k].extra < |list|
      invariant Flat(records, NO_CAP) + Numbers(start, extra + 1) == Lows(list[..i])
      invariant Packed(records) && (records != [] ==> Breaks(records[|records| - 1], Record(start, extra)))
    {
      tmpSeq := list[i] % B16;
      if extra != NO_CAP && tmpSeq == lastSeq + 1 {
        Growing(Flat(records, NO_CAP), start, extra, list, i);
        extra := extra + 1;
      } else {
        Closing(records, start, extra);
        Opening(list, i);
        PackedMore(records, Record(start, extra));
        records := records + [Record(start, extra)];
        fciCount := fciCount + 1;
        start, extra := tmpSeq, 0;
      }
      lastSeq := tmpSeq;
    }
    Closing(records, start, extra);
    assert list[..|list|] == list;
    PackedMore(records, Record(start, extra));
    p := Packet((2 + fciCount) % B16, records + [Record(start, extra)]);
  }

  lemma NothingPacked()
    ensures Packed([])
  {
  }

  lemma NoRecords(list: seq<int>)
    ensures Flat([], NO_CAP) == Lows(list[..0])
  {
  }

  /** The caps cost a number exactly when some record spans more than the first, or the
      whole more than the second. */
  lemma {:induction false} RecordCapCosts(records: seq<Record>)
    requires forall k :: 0 <= k < |records| ==> records[k].extra <= NO_CAP
    ensures |Flat(records, RECORD_CAP)| <= |Flat(records, NO_CAP)|
    ensures |Flat(records, RECORD_CAP)| == |Flat(records, NO_CAP)| <==> forall k :: 0 <= k < |records| ==> records[k].extra <= RECORD_CAP
    ensures |Flat(records, RECORD_CAP)| == |Flat(records, NO_CAP)| ==> Flat(records, RECORD_CAP) == Flat(records, NO_CAP)
  {
    if records != [] {
      var init := records[..|records| - 1];
      RecordCapCosts(init);
      assert records == init + [records[|records| - 1]];
    }
  }

  /** Sending a list as RTCP ranges and receiving them asks for its numbers, in order,
      with the receiver's upper half: exactly if no record spans more than 257 numbers and
      the list has at most 4096. A receiver's list of 200 always passes. */
  method RangeRoundTrip16(list: seq<int>, msb: nat) returns (p: Packet, asked: seq<int>)
    requires 0 < |list| && Words(list)
    ensures Flat(p.records, 0xffff) == Lows(list)
    ensures |list| <= 4096 ==>
              (asked == Shift(Lows(list), msb) <==> forall k :: 0 <= k < |p.records| ==> p.records[k].extra <= 256)
    ensures |list| > 4096 ==> asked != Shift(Lows(list), msb)
    ensures |list| <= 257 ==> asked == Shift(Lows(list), msb)
  {
    hide Flat, Words;
    p := SendRanges16(list);
    asked := ReceiveRanges(p, msb);
    if |list| <= PACKET_CAP {
      assert p.records[..p.len - 2] == p.records;
      RecordCapCosts(p.records);
    }
  }

  // ----- bitmasks ----------------------------------------------------------------------------

  /** What the records ask for, each read against the given base. */
  function Read(records: seq<Record>, bases: seq<int>): seq<int>
    requires |bases| == |records| && forall k :: 0 <= k < |bases| ==> bases[k] >= 0
  {
    if records == [] then []
    else Read(records[..|records| - 1], bases[..|records| - 1])
         + ReadOne(bases[|records| - 1], records[|records| - 1].extra)
  }

  function ReadOne(base: nat, extra: nat): seq<int> {
    [base % B32] + Marked(base, extra, 16)
  }

  lemma ReadMore(records: seq<Record>, bases: seq<int>, r: Record, base: nat)
    requires |bases| == |records| && forall k :: 0 <= k < |bases| ==> bases[k] >= 0
    ensures Read(records + [r], bases + [base]) == Read(records, bases) + ReadOne(base, r.extra)
  {
    assert (records + [r])[..|records|] == records && (bases + [base])[..|bases|] == bases;
  }

  /** The bases a receiver puts together from the starts and its upper half. */
  function Starts(records: seq<Record>, msb: nat): (b: seq<int>)
    ensures |b| == |records| && forall k :: 0 <= k < |b| ==> b[k] == msb + records[k].start
  {
    seq(|records|, k requires 0 <= k < |records| => msb + records[k].start)
  }

  /** The bitmask branch of `rist_sender_recv_nack`. */
  method ReceiveBitmasks(p: Packet, msb: nat) returns (asked: seq<int>)
    ensures asked == if p.len < 2 || p.len - 2 > |p.records| then []
                     else Read(p.records[..p.len - 2], Starts(p.records[..p.len - 2], msb))
  {
    hide Read;
    asked := [];
    if p.len < 2 || p.len - 2 > |p.records| {
      return;
    }
    var records := p.records[..p.len - 2];
    assert Read(records[..0], Starts(records[..0], msb)) == [] by {
      NothingRead();
    }
    for i := 0 to |records|
      invariant asked == Read(records[..i], Starts(records[..i], msb))
    {
      var missing, bitmask := records[i].start, records[i].extra;
      ghost var before := asked;
      asked := asked + [(msb + missing) % B32];
      for j := 0 to 16
        invariant asked == before + ([(msb + missing) % B32] + Marked(msb + missing, bitmask, j))
      {
        if HasBit(bitmask, j) {
          asked := asked + [(msb + missing + j + 1) % B32];
        }
      }
      ReadMore(records[..i], Starts(records[..i], msb), records[i], msb + missing);
      assert records[..i] + [records[i]] == records[..i + 1];
      assert Starts(records[..i], msb) + [msb + missing] == Starts(records[..i + 1], msb);
    }
    assert records[..|records|] == records;
  }

  lemma NothingRead()
    ensures Read([], []) == []
  {
  }

  /** The number is not one of the next 16, or they wrap. */
  predicate Beyond(base: int, number: int) {
    !(base < number <= (base + 16) % B32)
  }

  ghost predicate Spaced(bases: seq<int>) {
    forall k, n :: 0 <= k && n == k + 1 < |bases| ==> Beyond(bases[k], bases[n])
  }

  lemma SpacedMore(bases: seq<int>, base: int)
    requires Spaced(bases) && (bases != [] ==> Beyond(bases[|bases| - 1], base))
    ensures Spaced(bases + [base])
  {
    hide Beyond;
  }

  lemma NothingSpaced()
    ensures Spaced([])
  {
  }

  lemma IsBeyond(base: nat, number: nat, boundary: nat)
    requires boundary == (base + 16) % B32 && !(base < number <= boundary)
    ensures Beyond(base, number)
  {
  }

  /** The bitmask branch of `rist_receiver_send_nacks`. Read against the 32-bit numbers
      the records were opened with, of which only the low halves are sent, the records ask
      for the numbers of the list and no others, and a new one is begun only for a number
      that is not one of the next 16, or wraps. */
  method SendBitmasks16(list: seq<int>) returns (p: Packet, ghost bases: seq<int>)
    requires 0 < |list| && Words(list)
    ensures |bases| == |p.records| <= |list| && p.len == (2 + |p.records|) % B16
    ensures forall k :: 0 <= k < |bases| ==> bases[k] in list && bases[k] >= 0 && p.records[k].start == bases[k] % B16
    ensures Covers(Read(p.records, bases), list)
    ensures Spaced(bases)
  {
    hide Covers, Read, Marked, WithBit, Beyond, Spaced;
    NothingSpaced();
    var records: seq<Record> := [];
    bases := [];
    var fciCount := 1;
    var lastSeq, extra: nat := list[0], 0;
    var boundary := (lastSeq + 16) % B32;
    NoneRead(list);
    FirstBase(Read([], []), list, 0);
    for i := 1 to |list|
      invariant |bases| == |records| == fciCount - 1 < i
      invariant 0 <= lastSeq < B32 && lastSeq in list && boundary == (lastSeq + 16) % B32
      invariant forall k :: 0 <= k < |bases| ==> bases[k] in list && bases[k] >= 0 && records[k].start == bases[k] % B16
      invariant Covers(Read(records, bases) + ReadOne(lastSeq, extra), list[..i])
      invariant Spaced(bases) && (bases != [] ==> Beyond(bases[|bases| - 1], lastSeq))
    {
      var tmpSeq: nat := list[i];
      if lastSeq < tmpSeq <= boundary {
        var bitnum := tmpSeq - lastSeq;
        NextBit(Read(records, bases), lastSeq, extra, bitnum - 1, list, i);
        extra := WithBit(extra, bitnum - 1);
      } else {
        ReadMore(records, bases, Record(lastSeq % B16, extra), lastSeq);
        records := records + [Record(lastSeq % B16, extra)];
        SpacedMore(bases, lastSeq);
        IsBeyond(lastSeq, tmpSeq, boundary);
        bases := bases + [lastSeq];
        fciCount := fciCount + 1;
        FirstBase(Read(records, bases), list, i);
        extra := 0;
        lastSeq := tmpSeq;
        boundary := (tmpSeq + 16) % B32;
      }
    }
    ReadMore(records, bases, Record(lastSeq % B16, extra), lastSeq);
    assert list[..|list|] == list;
    SpacedMore(bases, lastSeq);
    bases := bases + [lastSeq];
    p := Packet((2 + fciCount) % B16, records + [Record(lastSeq % B16, extra)]);
  }

  lemma NoneRead(list: seq<int>)
    ensures Covers(Read([], []), list[..0])
  {
  }

  lemma NextBit(before: seq<int>, base: nat, mask: nat, k: nat, list: seq<int>, i: nat)
    requires i < |list| && k < 16 && list[i] == (base + k + 1) % B32
    requires Covers(before + ReadOne(base, mask), list[..i])
    ensures Covers(before + ReadOne(base, WithBit(mask, k)), list[..i + 1])
  {
    hide Covers, Marked, WithBit;
    assert before + ReadOne(base, mask) == before + [base % B32] + Marked(base, mask, 16);
    MarkNext(before + [base % B32], base, mask, 16, k, list, i);
    assert before + ReadOne(base, WithBit(mask, k)) == before + [base % B32] + Marked(base, WithBit(mask, k), 16);
  }

  lemma FirstBase(before: seq<int>, list: seq<int>, i: nat)
    requires i < |list| && Words(list) && Covers(before, list[..i])
    ensures 0 <= list[i] < B32 && Covers(before + ReadOne(list[i], 0), list[..i + 1])
  {
    hide Covers, Marked;
    BaseNext(before, 16, list, i);
    assert before + ReadOne(list[i], 0) == before + [list[i]] + Marked(list[i], 0, 16);
  }

  /** A number asked for stands for a number of the list: the low halves agree, and where
      the list is of 16-bit numbers, it is that number under the receiver's upper half. */
  predicate Stands(asked: int, number: int, msb: nat, short: bool) {
    && (asked - number - msb) % B16 == 0
    && (short ==> asked == (msb + number) % B32)
  }

  predicate StandAll(asked: seq<int>, numbers: seq<int>, msb: nat, short: bool) {
    |asked| == |numbers| && forall i :: 0 <= i < |asked| ==> Stands(asked[i], numbers[i], msb, short)
  }

  lemma StandsAt(base: nat, c: nat, msb: nat)
    ensures Stands((msb + base % B16 + c) % B32, (base + c) % B32, msb, base < B16)
  {
    LowHalves(msb + base % B16 + c, base + c, msb, base);
    if base < B16 {
      WrapTwice(msb, base + c);
    }
  }

  lemma LowHalves(a: nat, b: nat, msb: nat, base: nat)
    requires a == b + msb + base % B16 - base
    ensures (a % B32 - b % B32 - msb) % B16 == 0
  {
    var i, j, k := a / B32, b / B32, base / B16;
    assert a % B32 == a - B32 * i && b % B32 == b - B32 * j && base % B16 == base - B16 * k;
    var q := B16 * (j - i) - k;
    assert a % B32 - b % B32 - msb == q * B16;
    ZeroRest(a % B32 - b % B32 - msb, q);
  }

  lemma ZeroRest(x: int, q: int)
    requires x == q * B16
    ensures x % B16 == 0
  {
  }

  lemma WrapTwice(m: nat, x: nat)
    ensures (m + x % B32) % B32 == (m + x) % B32
  {
    var k := x / B32;
    assert x % B32 == x - k * B32;
    WrapAway(m + x % B32, k);
  }

  lemma WrapAway(x: nat, k: nat)
    ensures (x + k * B32) % B32 == x % B32
  {
  }

  lemma {:induction false} MarkedStand(base: nat, mask: nat, width: nat, msb: nat, short: bool)
    requires short ==> base < B16
    ensures StandAll(Marked(msb + base % B16, mask, width), Marked(base, mask, width), msb, short)
  {
    hide Stands;
    if width > 0 {
      MarkedStand(base, mask, width - 1, msb, short);
      StandsAt(base, width, msb);
      Weaken((msb + base % B16 + width) % B32, (base + width) % B32, msb, base < B16, short);
    }
  }

  lemma Weaken(asked: int, number: int, msb: nat, exact: bool, short: bool)
    requires Stands(asked, number, msb, exact) && (short ==> exact)
    ensures Stands(asked, number, msb, short)
  {
  }

  lemma {:induction false} ReadsStand(records: seq<Record>, bases: seq<int>, msb: nat, short: bool)
    requires |bases| == |records|
    requires forall k :: 0 <= k < |bases| ==>
      bases[k] >= 0 && records[k].start == bases[k] % B16 && (short ==> bases[k] < B16)
    ensures StandAll(Read(records, Starts(records, msb)), Read(records, bases), msb, short)
  {
    hide Stands, Marked;
    if records != [] {
      var n := |records| - 1;
      ReadsStand(records[..n], bases[..n], msb, short);
      assert Starts(records, msb)[..n] == Starts(records[..n], msb);
      MarkedStand(bases[n], records[n].extra, 16, msb, short);
      StandsAt(bases[n], 0, msb);
      Weaken((msb + bases[n] % B16) % B32, bases[n] % B32, msb, bases[n] < B16, short);
      StandAppend(Read(records[..n], Starts(records[..n], msb)), Read(records[..n], bases[..n]),
                  ReadOne(msb + bases[n] % B16, records[n].extra), ReadOne(bases[n], records[n].extra), msb, short);
    }
  }

  lemma StandAppend(a: seq<int>, n: seq<int>, b: seq<int>, m: seq<int>, msb: nat, short: bool)
    requires StandAll(a, n, msb, short) && StandAll(b, m, msb, short)
    ensures StandAll(a + b, n + m, msb, short)
  {
    hide Stands;
  }

  /** What is asked for stands, one for one, for numbers that cover the list. */
  ghost predicate AsksFor(asked: seq<int>, list: seq<int>, msb: nat) {
    exists numbers: seq<int> :: Covers(numbers, list) && StandAll(asked, numbers, msb, Short(list))
  }

  predicate Short(list: seq<int>) {
    forall k :: 0 <= k < |list| ==> list[k] < B16
  }

  /** Sending a list as RTCP bitmasks and receiving them asks for what covers the list: no
      cap applies, only the length field has to fit. */
  method BitmaskRoundTrip16(list: seq<int>, msb: nat) returns (asked: seq<int>)
    requires 0 < |list| <= 65533 && Words(list)
    ensures AsksFor(asked, list, msb)
  {
    hide Covers, Read, Stands, StandAll;
    var p, bases := SendBitmasks16(list);
    asked := ReceiveBitmasks(p, msb);
    assert p.records[..p.len - 2] == p.records;
    ReadsStand(p.records, bases, msb, Short(list));
    assert Covers(Read(p.records, bases), list);
  }
}
