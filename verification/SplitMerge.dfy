/** Splitting written payloads in two and merging the halves: `rist_sender_data_write` of
    src/rist.c against the merging branch of `receiver_output`. */
module SplitMerge {
  import opened Pass
  import opened Ring
  import opened SeqNo

  const MAX_PAYLOAD: nat := 10000 - 32
  const TS_PACKET: nat := 188

  datatype Mode = Half | Auto

  datatype Payload = Payload(data: seq<int>, ts: nat)

  /** A packet handed to the sender's queue. */
  datatype Wire = Wire(seqNo: nat, data: seq<int>, ts: nat)

  /** Where a payload is cut: in the middle or, for transport packets, between two of them. */
  function FirstLen(mode: Mode, data: seq<int>): (n: nat)
    ensures n <= |data| && (|data| >= 2 ==> 0 < n < |data|)
  {
    if mode == Auto && |data| >= 2 * TS_PACKET && |data| % TS_PACKET == 0 && data[0] == 0x47 then
      |data| / TS_PACKET / 2 * TS_PACKET
    else |data| / 2
  }

  /** Two or more transport packets are cut between two of them, as near the middle as
      can be, the first half being the shorter; anything else is cut in the middle. */
  lemma CutsBetween(mode: Mode, data: seq<int>)
    ensures var n := FirstLen(mode, data);
            if mode.Auto? && |data| >= 376 && |data| % 188 == 0 && data[0] == 0x47
            then n % 188 == 0 && 2 * n <= |data| < 2 * n + 376
            else 2 * n <= |data| <= 2 * n + 1
  {
  }

  /** The half with unwrapped number `u`, when payload 0's first half is number `base`. */
  function HalfOf(written: seq<Payload>, mode: Mode, base: nat, u: nat): seq<int>
    requires base <= u < base + 2 * |written|
  {
    var data := written[(u - base) / 2].data;
    if (u - base) % 2 == 0 then data[..FirstLen(mode, data)] else data[FirstLen(mode, data)..]
  }

  /** A packet is the half with number `u`. */
  predicate Traces(seqNo: nat, data: seq<int>, ts: nat, written: seq<Payload>, mode: Mode, base: nat, u: nat) {
    && base <= u < base + 2 * |written|
    && seqNo == u % B16 && data == HalfOf(written, mode, base, u) && ts == written[(u - base) / 2].ts
  }

  /** Later writes change nothing about a half. */
  lemma TracesOn(seqNo: nat, data: seq<int>, ts: nat, written: seq<Payload>, mode: Mode, base: nat, u: nat, p: Payload)
    requires Traces(seqNo, data, ts, written, mode, base, u)
    ensures Traces(seqNo, data, ts, written + [p], mode, base, u)
  {
  }

  function RoundUp(x: nat): nat {
    if x % 2 == 1 then (x + 1) % B32 else x
  }

  class Writer {
    const mode: Mode
    var seqRtp: nat
    ghost var base: nat
    ghost var written: seq<Payload>

    /** First halves have even numbers, and the next one is next in line. */
    ghost predicate Valid()
      reads this
    {
      seqRtp < B32 && base % 2 == 0 && RoundUp(seqRtp) == (base + 2 * |written|) % B32
    }

    constructor (mode: Mode, seqRtp: nat)
      requires seqRtp < B32
      ensures Valid() && written == []
    {
      this.mode, this.seqRtp, base, written := mode, seqRtp, RoundUp(seqRtp), [];
    }

    /** The next even number and the one after it, as sent. */
    method TakeNumbers() returns (first: nat, last: nat)
      requires Valid()
      modifies this`seqRtp
      ensures var u := base + 2 * |written|; first == u % B16 && last == (u + 1) % B16
      ensures seqRtp == RoundUp(seqRtp) == (base + 2 * (|written| + 1)) % B32
    {
      ghost var u := base + 2 * |written|;
      assert u % 2 == 0;
      Numbers(u);
      if seqRtp % 2 == 1 {
        seqRtp := (seqRtp + 1) % B32;
      }
      assert seqRtp == u % B32;
      first := seqRtp % B16;
      seqRtp := (seqRtp + 1) % B32;
      last := seqRtp % B16;
      seqRtp := (seqRtp + 1) % B32;
    }

    /** `rist_sender_data_write` in a split mode; `ret0` and `ret1` are what queueing the
        halves returned. The packets queued are the halves of the payload, under the next
        two numbers, with the time given or else the time `now`. */
    method Write(data: seq<int>, given: nat, now: nat, ret0: int, ret1: int) returns (ret: int, packets: seq<Wire>)
      requires Valid()
      modifies this`seqRtp, this`written
      ensures Valid()
      ensures |data| == 0 || |data| > 9968 ==> ret == -1 && packets == [] && written == old(written)
      ensures 0 < |data| <= 9968 ==>
        && written == old(written) + [Payload(data, if given == 0 then now else given)]
        && |packets| == (if ret0 != 0 then 0 else if ret1 != 0 then 1 else 2)
        && (forall k :: 0 <= k < |packets| ==>
              Traces(packets[k].seqNo, packets[k].data, packets[k].ts, written, mode, base, base + 2 * |old(written)| + k))
        && ret == (if ret0 < 0 then ret0 else if ret0 == 0 && ret1 < 0 then ret1 else |data|)
    {
      hide Traces, FirstLen, RoundUp;
      if |data| == 0 || |data| > MAX_PAYLOAD {
        return -1, [];
      }
      var ts := if given == 0 then now else given;
      var firstLen := FirstLen(mode, data);
      var first, last := TakeNumbers();
      HalvesTrace(written, data, ts, mode, base);
      written := written + [Payload(data, ts)];
      var a, b := Wire(first, data[..firstLen], ts), Wire(last, data[firstLen..], ts);
      packets := [];
      ret := ret0;
      if ret0 == 0 {
        packets := [a];
        ret := ret1;
        if ret1 == 0 {
          packets := [a, b];
        }
      }
      if ret >= 0 {
        ret := |data|;
      }
    }
  }

  /** The two packets of a payload trace to its numbers. */
  lemma HalvesTrace(written: seq<Payload>, data: seq<int>, ts: nat, mode: Mode, base: nat)
    ensures var u, n, after := base + 2 * |written|, FirstLen(mode, data), written + [Payload(data, ts)];
            && Traces(u % B16, data[..n], ts, after, mode, base, u)
            && Traces((u + 1) % B16, data[n..], ts, after, mode, base, u + 1)
  {
    hide FirstLen;
    var u := base + 2 * |written|;
    assert (u - base) / 2 == |written| && (u + 1 - base) / 2 == |written|;
  }

  lemma Rest16(x: int, c: int, r: nat)
    requires x == c * B16 + r && r < B16
    ensures x % B16 == r
  {
  }

  lemma Rest32(x: int, c: int, r: nat)
    requires x == c * B32 + r && r < B32
    ensures x % B32 == r
  {
  }

  lemma Rest2(x: int, c: int)
    ensures (x - 2 * c) % 2 == x % 2
  {
  }

  /** Counting in 32 bits and sending the low half. */
  lemma LowHalf(u: nat)
    ensures u % B32 % B16 == u % B16 && u % B32 % 2 == u % 2
  {
    var q, k := u / B32, u / B16;
    Rest16(u % B32, k - q * B16, u % B16);
    Rest2(u, q * (B32 / 2));
    assert u % B32 == u - 2 * (q * (B32 / 2));
  }

  lemma CountOn(u: nat, n: nat)
    requires n < B32
    ensures (u % B32 + n) % B32 == (u + n) % B32
  {
    var q := u / B32;
    if u % B32 + n < B32 {
      Rest32(u % B32 + n, 0, u % B32 + n);
      Rest32(u + n, q, u % B32 + n);
    } else {
      Rest32(u % B32 + n, 1, u % B32 + n - B32);
      Rest32(u + n, q + 1, u % B32 + n - B32);
    }
  }

  lemma Numbers(u: nat)
    ensures u % B32 % B16 == u % B16 && (u % B32 + 1) % B32 == (u + 1) % B32 && ((u + 1) % B32 + 1) % B32 == (u + 2) % B32
    ensures u % 2 == 0 ==> u % B32 % 2 == 0 && (u + 2) % B32 % 2 == 0
    ensures (u + 1) % B32 % B16 == (u + 1) % B16
  {
    LowHalf(u);
    LowHalf(u + 1);
    LowHalf(u + 2);
    CountOn(u, 1);
    CountOn(u + 1, 1);
  }

  // ----- what the reader merges --------------------------------------------------------

  /** Fewer than 65536 numbers apart, packets that pass for partners are the two halves of
      one payload. */
  lemma PartnersAreHalves(b: Buffer, c: Buffer, written: seq<Payload>, mode: Mode, base: nat, u: nat, v: nat, lo: nat)
    requires base % 2 == 0 && Partners(b, c, true)
    requires Traces(b.seqNo, b.data, b.sourceTime, written, mode, base, u)
    requires Traces(c.seqNo, c.data, c.sourceTime, written, mode, base, v)
    requires lo <= u < lo + B16 - 1 && lo <= v < lo + B16 - 1
    ensures v == u + 1 && (u - base) % 2 == 0 && b.data + c.data == written[(u - base) / 2].data
  {
    hide FirstLen, HalfOf, Next;
    SameNumber(u, v, lo);
    var k := (u - base) / 2;
    Whole(base, u);
    HalvesJoin(written, mode, base, k);
  }

  lemma Whole(base: nat, u: nat)
    requires base % 2 == 0 && u % 2 == 0 && base <= u
    ensures u == base + 2 * ((u - base) / 2) && (u - base) % 2 == 0
  {
  }

  lemma Index(base: nat, k: nat)
    ensures var u := base + 2 * k;
            (u - base) / 2 == k == (u + 1 - base) / 2 && (u - base) % 2 == 0 && (u + 1 - base) % 2 == 1
  {
  }

  /** The two halves make up the payload. */
  lemma HalvesJoin(written: seq<Payload>, mode: Mode, base: nat, k: nat)
    requires k < |written|
    ensures HalfOf(written, mode, base, base + 2 * k) + HalfOf(written, mode, base, base + 2 * k + 1) == written[k].data
  {
    hide FirstLen;
    Index(base, k);
    var data := written[k].data;
    assert data[..FirstLen(mode, data)] + data[FirstLen(mode, data)..] == data;
  }

  lemma SameNumber(u: nat, v: nat, lo: nat)
    requires v % B16 == Next(u % B16, true) && u % B16 % 2 == 0
    requires lo <= u < lo + B16 - 1 && lo <= v < lo + B16 - 1
    ensures v == u + 1 && u % 2 == 0
  {
    EvenNext(u % B16);
    Turns(u, v, u / B16, v / B16, u % B16, lo);
  }

  lemma EvenNext(x: nat)
    requires x % 2 == 0 && x < B16
    ensures Next(x, true) == x + 1
  {
  }

  lemma Turns(u: nat, v: nat, i: nat, j: nat, x: nat, lo: nat)
    requires u == i * B16 + x && v == j * B16 + x + 1 && x % 2 == 0
    requires lo <= u < lo + B16 - 1 && lo <= v < lo + B16 - 1
    ensures v == u + 1 && u % 2 == 0
  {
    assert i == j;
  }

  /** Whatever was lost or reordered on the way: in a ring whose packets were all sent
      within fewer than 65536 numbers, a merged block is one written payload. */
  lemma MergedIsWritten(q: seq<Slot>, i: nat, numbers: seq<nat>, written: seq<Payload>, mode: Mode, base: nat, lo: nat)
    requires base % 2 == 0 && |numbers| == |q| && i < |q| && q[i].Held? && HasPartner(q, i, true)
    requires forall s :: 0 <= s < |q| && q[s].Held? ==>
               && lo <= numbers[s] < lo + B16 - 1
               && Traces(q[s].b.seqNo, q[s].b.data, q[s].b.sourceTime, written, mode, base, numbers[s])
    ensures var k := (numbers[i] - base) / 2;
            && base <= numbers[i] && k < |written|
            && q[i].b.data + q[(i + 1) % |q|].b.data == written[k].data
            && q[i].b.seqNo / 2 == (base / 2 + k) % (B16 / 2)
  {
    hide Partners, HalfOf;
    var j := (i + 1) % |q|;
    assert q[j].Held?;
    PartnersAreHalves(q[i].b, q[j].b, written, mode, base, numbers[i], numbers[j], lo);
    PairNumber(numbers[i], base);
  }

  /** Whatever was lost: in a pass over such a ring every merged block is one written
      payload and carries its number, and every other block is one half. */
  lemma BlocksAreWritten(q: seq<Slot>, blocks: seq<Block>, handed: seq<Exit>, i: nat, numbers: seq<nat>, written: seq<Payload>,
                         mode: Mode, base: nat, lo: nat)
    requires base % 2 == 0 && |numbers| == |q| && Delivered(q, blocks, handed, true) && i < |blocks|
    requires forall s :: 0 <= s < |q| && q[s].Held? ==>
               && lo <= numbers[s] < lo + B16 - 1
               && Traces(q[s].b.seqNo, q[s].b.data, q[s].b.sourceTime, written, mode, base, numbers[s])
    ensures handed[i].slot < |q| && base <= numbers[handed[i].slot]
    ensures var u := numbers[handed[i].slot];
            var k := (u - base) / 2;
            && k < |written|
            && if blocks[i].parts == 2 then blocks[i].data == written[k].data && blocks[i].seqNo == (base / 2 + k) % (B16 / 2)
               else blocks[i].data == HalfOf(written, mode, base, u) && blocks[i].seqNo == u % B16
  {
    hide HalfOf, HasPartner, Delivered, Modulus;
    BlockAt(q, blocks, handed, i);
    var e := handed[i];
    assert q[e.slot].Held?;
    if e.parts == 2 {
      MergedIsWritten(q, e.slot, numbers, written, mode, base, lo);
    }
  }

  lemma BlockAt(q: seq<Slot>, blocks: seq<Block>, handed: seq<Exit>, i: nat)
    requires Delivered(q, blocks, handed, true) && i < |blocks|
    ensures |handed| == |blocks| && BlockOf(blocks[i], handed[i], q, true)
  {
  }

  /** However far apart the numbers: where no two payloads have the same time, packets that
      pass for partners are the two halves of one payload. */
  lemma PartnersByTime(b: Buffer, c: Buffer, written: seq<Payload>, mode: Mode, base: nat, u: nat, v: nat)
    requires base % 2 == 0 && Partners(b, c, true)
    requires Traces(b.seqNo, b.data, b.sourceTime, written, mode, base, u)
    requires Traces(c.seqNo, c.data, c.sourceTime, written, mode, base, v)
    requires forall i, j :: 0 <= i < j < |written| ==> written[i].ts != written[j].ts
    ensures v == u + 1 && (u - base) % 2 == 0 && b.data + c.data == written[(u - base) / 2].data
  {
    hide HalfOf, FirstLen;
    assert (u - base) / 2 == (v - base) / 2;
    PartnersAreHalves(b, c, written, mode, base, u, v, if u < v then u else v);
  }

  lemma PairNumber(u: nat, base: nat)
    requires base % 2 == 0 && u >= base && (u - base) % 2 == 0
    ensures u % B16 / 2 == (base / 2 + (u - base) / 2) % (B16 / 2)
  {
    var k := u / 2;
    assert u == 2 * k && base / 2 + (u - base) / 2 == k;
    assert u % B16 == 2 * (k % (B16 / 2));
  }

  /** Two packets of the stream pass for partners if and only if the first is a first half,
      the numbers follow on each other modulo 65536, and the payloads have the same time. */
  lemma PartnersExactly(b: Buffer, c: Buffer, written: seq<Payload>, mode: Mode, base: nat, u: nat, v: nat)
    requires Traces(b.seqNo, b.data, b.sourceTime, written, mode, base, u)
    requires Traces(c.seqNo, c.data, c.sourceTime, written, mode, base, v)
    ensures Partners(b, c, true) <==>
              u % 2 == 0 && (v - u - 1) % B16 == 0 && written[(u - base) / 2].ts == written[(v - base) / 2].ts
  {
    hide HalfOf, Next;
    SameParity(u);
    Following(u, v);
  }

  lemma SameParity(u: nat)
    ensures u % B16 % 2 == u % 2
  {
    var q := u / B16;
    Rest2(u, q * (B16 / 2));
    assert u % B16 == u - 2 * (q * (B16 / 2));
  }

  lemma Following(u: nat, v: nat)
    ensures v % B16 == Next(u % B16, true) <==> (v - u - 1) % B16 == 0
  {
    hide Next;
    var e := v % B16 - u % B16 - 1;
    NextIs(u % B16);
    SameRest(v - u - 1, v / B16 - u / B16, e);
    NoRest(e);
  }

  lemma NextIs(x: nat)
    requires x < B16
    ensures Next(x, true) == if x + 1 == B16 then 0 else x + 1
  {
  }

  lemma SameRest(x: int, d: int, e: int)
    requires x == d * B16 + e
    ensures x % B16 == e % B16
  {
  }

  lemma NoRest(e: int)
    requires e + B16 >= 0 && e < B16
    ensures e % B16 == 0 <==> e == 0 || e + B16 == 0
  {
  }

  /** The packet with number `u`, as it comes off the wire. */
  function PacketOf(written: seq<Payload>, mode: Mode, base: nat, u: nat): Buffer
    requires base <= u < base + 2 * |written|
  {
    Buffer(u % B16, HalfOf(written, mode, base, u), 0, 0, written[(u - base) / 2].ts)
  }

  /** The packets pass for partners, but are not the two halves of one payload. */
  predicate Mistaken(written: seq<Payload>, mode: Mode, base: nat, u: nat, v: nat) {
    && base <= u < base + 2 * |written| && base <= v < base + 2 * |written|
    && Partners(PacketOf(written, mode, base, u), PacketOf(written, mode, base, v), true)
    && !(v == u + 1 && (u - base) % 2 == 0)
  }

  /** Two payloads a multiple of 32768 apart have the same time, and the window holds the
      first half of the one and the second half of the other. */
  predicate Clashes(written: seq<Payload>, base: nat, window: set<nat>, k: nat, l: nat) {
    && k < |written| && l < |written| && k != l && (k - l) % (B16 / 2) == 0 && written[k].ts == written[l].ts
    && base + 2 * k in window && base + 2 * l + 1 in window
  }

  lemma MistakenClashes(written: seq<Payload>, mode: Mode, base: nat, window: set<nat>, u: nat, v: nat)
    requires base % 2 == 0 && u in window && v in window && Mistaken(written, mode, base, u, v)
    ensures Clashes(written, base, window, (u - base) / 2, (v - base) / 2)
  {
    hide Partners, HalfOf;
    PartnersExactly(PacketOf(written, mode, base, u), PacketOf(written, mode, base, v), written, mode, base, u, v);
    var k, l := (u - base) / 2, (v - base) / 2;
    Halved(u, v, base, k, l);
  }

  lemma Halved(u: nat, v: nat, base: nat, k: int, l: int)
    requires base % 2 == 0 && base <= u && base <= v && k == (u - base) / 2 && l == (v - base) / 2
    requires u % 2 == 0 && (v - u - 1) % B16 == 0
    ensures u == base + 2 * k && v == base + 2 * l + 1 && (k - l) % (B16 / 2) == 0
  {
    var m := (v - u - 1) / B16;
    assert v == u + 1 + m * B16;
    assert k - l == (-m) * (B16 / 2);
  }

  lemma ClashesMistaken(written: seq<Payload>, mode: Mode, base: nat, window: set<nat>, k: nat, l: nat)
    requires base % 2 == 0 && Clashes(written, base, window, k, l)
    ensures Mistaken(written, mode, base, base + 2 * k, base + 2 * l + 1)
  {
    hide Partners, HalfOf;
    var u, v := base + 2 * k, base + 2 * l + 1;
    Doubled(base, u, v, k, l);
    PartnersExactly(PacketOf(written, mode, base, u), PacketOf(written, mode, base, v), written, mode, base, u, v);
  }

  lemma Doubled(base: nat, u: nat, v: nat, k: nat, l: nat)
    requires base % 2 == 0 && u == base + 2 * k && v == base + 2 * l + 1 && (k - l) % (B16 / 2) == 0
    ensures u % 2 == 0 && (v - u - 1) % B16 == 0 && (u - base) / 2 == k && (v - base) / 2 == l
    ensures k != l ==> v != u + 1
  {
    var m := (k - l) / (B16 / 2);
    assert k - l == m * (B16 / 2);
    Multiple(v - u - 1, -m);
  }

  lemma Multiple(x: int, m: int)
    requires x == m * B16
    ensures x % B16 == 0
  {
  }

  /** Every pair in a window merges right if and only if no two payloads in it clash. */
  lemma WindowMerges(written: seq<Payload>, mode: Mode, base: nat, window: set<nat>)
    requires base % 2 == 0
    ensures (forall u, v :: u in window && v in window ==> !Mistaken(written, mode, base, u, v)) <==>
            (forall k: nat, l: nat :: !Clashes(written, base, window, k, l))
  {
    hide Mistaken, Clashes;
    forall u, v | u in window && v in window && Mistaken(written, mode, base, u, v)
      ensures exists k: nat, l: nat :: Clashes(written, base, window, k, l)
    {
      InStream(written, mode, base, u, v);
      MistakenClashes(written, mode, base, window, u, v);
    }
    forall k: nat, l: nat | Clashes(written, base, window, k, l)
      ensures exists u, v :: u in window && v in window && Mistaken(written, mode, base, u, v)
    {
      InHand(written, base, window, k, l);
      ClashesMistaken(written, mode, base, window, k, l);
    }
  }

  lemma InStream(written: seq<Payload>, mode: Mode, base: nat, u: nat, v: nat)
    requires Mistaken(written, mode, base, u, v)
    ensures base <= u && base <= v
  {
  }

  lemma InHand(written: seq<Payload>, base: nat, window: set<nat>, k: nat, l: nat)
    requires Clashes(written, base, window, k, l)
    ensures base + 2 * k in window && base + 2 * l + 1 in window
  {
  }

  /** With 65536 numbers in flight the guarantee is gone: the last first half passes for
      the partner of the first second half. */
  lemma OneTooMany() returns (written: seq<Payload>, b: Buffer, c: Buffer, lo: nat, u: nat, v: nat)
    ensures lo <= u < lo + B16 && lo <= v < lo + B16 && Partners(b, c, true)
    ensures Traces(b.seqNo, b.data, b.sourceTime, written, Half, 0, u)
    ensures Traces(c.seqNo, c.data, c.sourceTime, written, Half, 0, v)
    ensures forall k :: 0 <= k < |written| ==> b.data + c.data != written[k].data
  {
    written := seq(32769, (i: nat) => Payload([i, i], 1));
    b, c, lo, u, v := Buffer(0, [32768], 0, 0, 1), Buffer(1, [0], 0, 0, 1), 1, 65536, 1;
    assert written[32768].data == [32768, 32768] && written[0].data == [0, 0];
    forall k | 0 <= k < |written| ensures b.data + c.data != written[k].data {
      assert (b.data + c.data)[0] == 32768 && (b.data + c.data)[1] == 0;
      assert written[k].data == [k, k];
    }
  }

  lemma NextToEach(u: nat)
    requires u % 2 == 0
    ensures u % B16 % 2 == 0 && (u + 1) % B16 == Next(u % B16, true)
  {
    var k := u / B16;
    Rest2(u, k * (B16 / 2));
    assert u % B16 == u - 2 * (k * (B16 / 2));
    EvenNext(u % B16);
    Rest16(u + 1, k, u % B16 + 1);
  }

  lemma HalvesPair(b: Buffer, c: Buffer, written: seq<Payload>, mode: Mode, base: nat, k: nat)
    requires base % 2 == 0 && k < |written|
    requires Traces(b.seqNo, b.data, b.sourceTime, written, mode, base, base + 2 * k)
    requires Traces(c.seqNo, c.data, c.sourceTime, written, mode, base, base + 2 * k + 1)
    ensures Partners(b, c, true) && b.data + c.data == written[k].data
  {
    hide FirstLen, HalfOf, Next;
    NextToEach(base + 2 * k);
    Index(base, k);
    HalvesJoin(written, mode, base, k);
  }

  // ----- what is sent ------------------------------------------------------------------

  /** The packets are the halves of the payloads, in order. */
  ghost predicate Halves(sent: seq<Wire>, written: seq<Payload>, mode: Mode, base: nat) {
    && |sent| == 2 * |written|
    && forall i :: 0 <= i < |sent| ==> WireTraces(sent[i], written, mode, base, i)
  }

  predicate WireTraces(p: Wire, written: seq<Payload>, mode: Mode, base: nat, i: nat) {
    Traces(p.seqNo, p.data, p.ts, written, mode, base, base + i)
  }

  lemma TwoMore(sent: seq<Wire>, written: seq<Payload>, mode: Mode, base: nat, p: Payload, packets: seq<Wire>)
    requires Halves(sent, written, mode, base) && |packets| == 2
    requires forall k :: 0 <= k < 2 ==> WireTraces(packets[k], written + [p], mode, base, 2 * |written| + k)
    ensures Halves(sent + packets, written + [p], mode, base)
  {
    hide Traces;
    var more := sent + packets;
    forall i | 0 <= i < |more| ensures WireTraces(more[i], written + [p], mode, base, i) {
      if i < |sent| {
        assert WireTraces(sent[i], written, mode, base, i);
        TracesOn(sent[i].seqNo, sent[i].data, sent[i].ts, written, mode, base, base + i, p);
      } else {
        assert more[i] == packets[i - |sent|] && i == 2 * |written| + (i - |sent|);
      }
    }
  }

  /** Payloads small enough are all split and sent, each with its time. */
  method WriteAll(w: Writer, payloads: seq<Payload>) returns (sent: seq<Wire>)
    requires w.Valid() && w.written == []
    requires forall i :: 0 <= i < |payloads| ==> 0 < |payloads[i].data| <= MAX_PAYLOAD
    modifies w
    ensures w.Valid() && w.written == payloads && w.base == old(w.base) && Halves(sent, payloads, w.mode, w.base)
  {
    hide Traces, Writer.Valid;
    sent := [];
    for n := 0 to |payloads|
      invariant w.Valid() && w.written == payloads[..n] && w.base == old(w.base) && Halves(sent, w.written, w.mode, w.base)
    {
      ghost var before := w.written;
      var ret, packets := w.Write(payloads[n].data, payloads[n].ts, payloads[n].ts, 0, 0);
      assert payloads[..n + 1] == before + [payloads[n]];
      TwoMore(sent, before, w.mode, w.base, payloads[n], packets);
      sent := sent + packets;
    }
    assert payloads[..|payloads|] == payloads;
  }
}
