/** The receiver's reorder ring as a value: slots, distances and what taking out and putting
    in packets does to them. */
module Ring {
  import opened Arith
  import opened SeqNo

  // ----- sequence numbers and slots --------------------------------------------------

  /** Ring sizes divide the range of the numbers they hold. */
  predicate RingSize(queueMax: nat, shortSeq: bool) {
    && 2 <= queueMax <= Modulus(shortSeq) && (shortSeq ==> queueMax == B16)
    && Modulus(shortSeq) % queueMax == 0
  }

  lemma ShiftSlot(x: int, q: int, size: nat, whole: nat)
    requires size > 0 && whole % size == 0
    ensures (x + q * whole) % size == x % size
  {
    DivMod(whole, size);
    DivMod(x, size);
    var k := whole / size;
    assert q * whole == (q * k) * size by {
      assert whole == k * size;
      Regroup(q, k, size);
    }
    assert x + q * whole == (x / size + q * k) * size + x % size by {
      Spread(x / size, q * k, size);
    }
    ModUnique(x + q * whole, x / size + q * k, x % size, size);
  }

  /** A number lies as many slots past the reader's slot as it is ahead of it. */
  lemma SlotOf(seqNo: nat, next: nat, shortSeq: bool, queueMax: nat)
    requires RingSize(queueMax, shortSeq) && seqNo < Modulus(shortSeq)
    ensures seqNo % queueMax == (next + Gap(seqNo, next, shortSeq)) % queueMax
  {
    var m, d := Modulus(shortSeq), Gap(seqNo, next, shortSeq);
    var q := (seqNo - next) / m;
    assert seqNo - next == q * m + d by {
      DivMod(seqNo - next, m);
    }
    ShiftSlot(next + d, q, queueMax, m);
  }

  /** Within one turn of the ring, equal slots mean equal distances. */
  lemma SameSlot(x: nat, d: nat, h: nat, size: nat)
    requires size > 0 && d < size && h < size && (x + d) % size == (x + h) % size
    ensures d == h
  {
    DivMod(x + d, size);
    DivMod(x + h, size);
    var q := (x + d) / size - (x + h) / size;
    assert d - h == q * size by {
      Spread((x + d) / size, -((x + h) / size), size);
    }
    SmallMultiple(q, size);
  }

  // ----- contents ------------------------------------------------------------------------

  datatype Buffer = Buffer(seqNo: nat, data: seq<int>, time: nat, targetOutputTime: nat, sourceTime: nat)
  datatype Slot = Vacant | Held(b: Buffer)

  /** Bytes and packets held. */
  function Bytes(q: seq<Slot>): nat {
    if q == [] then 0
    else Bytes(q[..|q| - 1]) + if q[|q| - 1].Held? then |q[|q| - 1].b.data| else 0
  }

  function Count(q: seq<Slot>): nat {
    if q == [] then 0
    else Count(q[..|q| - 1]) + if q[|q| - 1].Held? then 1 else 0
  }

  function SizeOf(s: Slot): nat {
    if s.Held? then |s.b.data| else 0
  }

  lemma {:induction false} Replace(q: seq<Slot>, i: nat, s: Slot)
    requires i < |q|
    ensures Bytes(q[i := s]) == Bytes(q) - SizeOf(q[i]) + SizeOf(s)
    ensures Count(q[i := s]) == Count(q) - (if q[i].Held? then 1 else 0) + (if s.Held? then 1 else 0)
    ensures SizeOf(q[i]) <= Bytes(q) && (q[i].Held? ==> Count(q) >= 1)
  {
    var n := |q| - 1;
    if i < n {
      Replace(q[..n], i, s);
      assert q[i := s][..n] == q[..n][i := s];
    } else {
      assert q[i := s][..n] == q[..n];
    }
  }

  lemma {:induction false} AllVacant(q: seq<Slot>)
    requires forall i :: 0 <= i < |q| ==> q[i].Vacant?
    ensures Bytes(q) == 0 && Count(q) == 0
  {
    if q != [] {
      AllVacant(q[..|q| - 1]);
    }
  }

  lemma {:induction false} NoBytes(q: seq<Slot>)
    requires Bytes(q) == 0
    ensures forall i :: 0 <= i < |q| && q[i].Held? ==> q[i].b.data == []
  {
    if q != [] {
      NoBytes(q[..|q| - 1]);
    }
  }

  /** Every packet is in the slot of its number. */
  predicate Placed(q: seq<Slot>, shortSeq: bool) {
    |q| > 0 && forall i :: 0 <= i < |q| && q[i].Held? ==> q[i].b.seqNo < Modulus(shortSeq) && q[i].b.seqNo % |q| == i
  }

  /** Every packet is within one ring ahead of the reader. */
  predicate Live(q: seq<Slot>, next: nat, shortSeq: bool) {
    forall i :: 0 <= i < |q| && q[i].Held? ==> Gap(q[i].b.seqNo, next, shortSeq) < |q|
  }

  /** The slot `h` places past `out`. */
  function At(q: seq<Slot>, out: nat, h: nat): Slot
    requires |q| > 0
  {
    q[(out + h) % |q|]
  }

  /** The first packet met from the reader's slot on. */
  predicate FirstAt(q: seq<Slot>, out: nat, h: nat) {
    |q| > 0 && h < |q| && At(q, out, h).Held? && forall i :: 0 <= i < h ==> At(q, out, i).Vacant?
  }

  /** In a live ring the first packet met is the nearest one, and the slots stepped over
      are exactly the numbers missing before it. */
  lemma HolesAreTheGap(q: seq<Slot>, next: nat, shortSeq: bool, h: nat)
    requires RingSize(|q|, shortSeq) && Placed(q, shortSeq) && Live(q, next, shortSeq) && FirstAt(q, next % |q|, h)
    ensures Gap(At(q, next % |q|, h).b.seqNo, next, shortSeq) == h
  {
    var i := (next % |q| + h) % |q|;
    InSlot(q, next, shortSeq, i, h);
  }

  lemma InSlot(q: seq<Slot>, next: nat, shortSeq: bool, i: nat, h: nat)
    requires RingSize(|q|, shortSeq) && Placed(q, shortSeq) && Live(q, next, shortSeq)
    requires i < |q| && q[i].Held? && h < |q| && i == (next % |q| + h) % |q|
    ensures Gap(q[i].b.seqNo, next, shortSeq) == h
  {
    var d := Gap(q[i].b.seqNo, next, shortSeq);
    SlotOf(q[i].b.seqNo, next, shortSeq, |q|);
    ModAdd(next, h, |q|);
    SameSlot(next, d, h, |q|);
  }

  lemma ModAdd(x: nat, h: nat, size: nat)
    requires size > 0
    ensures (x % size + h) % size == (x + h) % size
  {
    DivMod(x, size);
    OneTurn(x % size + h, x / size, size);
  }

  lemma OneTurn(x: nat, k: nat, size: nat)
    requires size > 0
    ensures (x + k * size) % size == x % size
  {
    DivMod(x, size);
    Spread(x / size, k, size);
    ModUnique(x + k * size, x / size + k, x % size, size);
  }

  // ----- the reader's moves --------------------------------------------------------------

  /** The number expected after `b`. */
  function After(b: Buffer, shortSeq: bool): nat {
    Next(b.seqNo, shortSeq)
  }

  lemma GapIs(seqNo: nat, next: nat, shortSeq: bool)
    requires seqNo < Modulus(shortSeq) && next < Modulus(shortSeq)
    ensures Gap(seqNo, next, shortSeq) == if seqNo >= next then seqNo - next else seqNo - next + Modulus(shortSeq)
  {
  }

  lemma NoGap(seqNo: nat, next: nat, shortSeq: bool)
    requires seqNo < Modulus(shortSeq) && next < Modulus(shortSeq)
    ensures Gap(seqNo, next, shortSeq) == 0 <==> seqNo == next
  {
    GapIs(seqNo, next, shortSeq);
  }

  lemma GapAfter(c: nat, b: nat, next: nat, shortSeq: bool)
    requires c < Modulus(shortSeq) && b < Modulus(shortSeq) && next < Modulus(shortSeq)
    requires Gap(c, next, shortSeq) > Gap(b, next, shortSeq)
    ensures Gap(c, Next(b, shortSeq), shortSeq) == Gap(c, next, shortSeq) - Gap(b, next, shortSeq) - 1
  {
    hide Gap;
    GapIs(c, next, shortSeq);
    GapIs(b, next, shortSeq);
    GapIs(c, Next(b, shortSeq), shortSeq);
  }

  lemma NextIs(seqNo: nat, shortSeq: bool)
    requires seqNo < Modulus(shortSeq)
    ensures Next(seqNo, shortSeq) == if seqNo + 1 == Modulus(shortSeq) then 0 else seqNo + 1
  {
  }

  /** The slot after a packet's slot is the slot of the number after it. */
  lemma NextSlot(seqNo: nat, shortSeq: bool, queueMax: nat)
    requires RingSize(queueMax, shortSeq) && seqNo < Modulus(shortSeq)
    ensures Next(seqNo, shortSeq) % queueMax == (seqNo % queueMax + 1) % queueMax
  {
    hide Next;
    NextIs(seqNo, shortSeq);
    ModAdd(seqNo, 1, queueMax);
    var m := Modulus(shortSeq);
    if seqNo + 1 == m {
      ShiftSlot(0, 1, queueMax, m);
    }
  }

  /** Taking out the first packet met keeps every other one in place, and a live ring live. */
  lemma TakeKeeps(q: seq<Slot>, next: nat, shortSeq: bool, h: nat, limit: nat)
    requires next < Modulus(shortSeq) && RingSize(|q|, shortSeq) && Placed(q, shortSeq) && FirstAt(q, next % |q|, h)
    ensures var i := (next % |q| + h) % |q|;
            && Placed(q[i := Vacant], shortSeq)
            && After(q[i].b, shortSeq) % |q| == (i + 1) % |q|
            && (Live(q, next, shortSeq) ==> Live(q[i := Vacant], After(q[i].b, shortSeq), shortSeq))
            && (Live(q, next, shortSeq) && Near(q, next, shortSeq, limit) ==>
                  Near(q[i := Vacant], After(q[i].b, shortSeq), shortSeq, limit))
  {
    var i := (next % |q| + h) % |q|;
    NextSlot(q[i].b.seqNo, shortSeq, |q|);
    if Live(q, next, shortSeq) {
      HolesAreTheGap(q, next, shortSeq, h);
      forall s | 0 <= s < |q| && s != i && q[s].Held?
        ensures Gap(q[s].b.seqNo, After(q[i].b, shortSeq), shortSeq) < Gap(q[s].b.seqNo, next, shortSeq)
      {
        Farther(q, next, shortSeq, h, s);
        GapAfter(q[s].b.seqNo, q[i].b.seqNo, next, shortSeq);
      }
    }
  }

  /** Every packet is at most `limit` ahead. */
  predicate Near(q: seq<Slot>, next: nat, shortSeq: bool, limit: nat) {
    forall i :: 0 <= i < |q| && q[i].Held? ==> Gap(q[i].b.seqNo, next, shortSeq) <= limit
  }

  lemma Farther(q: seq<Slot>, next: nat, shortSeq: bool, h: nat, s: nat)
    requires RingSize(|q|, shortSeq) && Placed(q, shortSeq) && Live(q, next, shortSeq) && FirstAt(q, next % |q|, h)
    requires s < |q| && q[s].Held? && s != (next % |q| + h) % |q|
    ensures Gap(q[s].b.seqNo, next, shortSeq) > h
  {
    var d := Gap(q[s].b.seqNo, next, shortSeq);
    SlotOf(q[s].b.seqNo, next, shortSeq, |q|);
    ModAdd(next, d, |q|);
    assert At(q, next % |q|, d) == q[s];
  }

  /** Putting a packet in its slot keeps a live ring live exactly if it is within one ring
      ahead itself. */
  lemma PutKeeps(q: seq<Slot>, next: nat, shortSeq: bool, b: Buffer)
    requires RingSize(|q|, shortSeq) && Placed(q, shortSeq) && Live(q, next, shortSeq) && b.seqNo < Modulus(shortSeq)
    ensures Placed(q[b.seqNo % |q| := Held(b)], shortSeq)
    ensures Live(q[b.seqNo % |q| := Held(b)], next, shortSeq) <==> Gap(b.seqNo, next, shortSeq) < |q|
  {
    assert q[b.seqNo % |q| := Held(b)][b.seqNo % |q|] == Held(b);
  }

  lemma PutNear(q: seq<Slot>, next: nat, shortSeq: bool, b: Buffer, limit: nat)
    requires |q| > 0
    ensures b.seqNo % |q| < |q|
    ensures Near(q, next, shortSeq, limit) && Gap(b.seqNo, next, shortSeq) <= limit ==>
              Near(q[b.seqNo % |q| := Held(b)], next, shortSeq, limit)
  {
    hide Gap;
  }

  lemma PutPlaced(q: seq<Slot>, shortSeq: bool, b: Buffer)
    requires Placed(q, shortSeq) && b.seqNo < Modulus(shortSeq)
    ensures b.seqNo % |q| < |q| && Placed(q[b.seqNo % |q| := Held(b)], shortSeq)
  {
  }

  /** In a live ring a slot holds at most the packet of its number. */
  lemma NoStaleSlot(q: seq<Slot>, next: nat, shortSeq: bool, seqNo: nat)
    requires RingSize(|q|, shortSeq) && Placed(q, shortSeq) && Live(q, next, shortSeq)
    requires seqNo < Modulus(shortSeq) && next < Modulus(shortSeq) && Gap(seqNo, next, shortSeq) < |q| && q[seqNo % |q|].Held?
    ensures q[seqNo % |q|].b.seqNo == seqNo
  {
    var c := q[seqNo % |q|].b.seqNo;
    SlotOf(seqNo, next, shortSeq, |q|);
    SlotOf(c, next, shortSeq, |q|);
    SameSlot(next, Gap(seqNo, next, shortSeq), Gap(c, next, shortSeq), |q|);
    SameGap(seqNo, c, next, shortSeq);
  }

  lemma SameGap(a: nat, b: nat, next: nat, shortSeq: bool)
    requires a < Modulus(shortSeq) && b < Modulus(shortSeq) && next < Modulus(shortSeq)
    requires Gap(a, next, shortSeq) == Gap(b, next, shortSeq)
    ensures a == b
  {
    hide Gap;
    GapIs(a, next, shortSeq);
    GapIs(b, next, shortSeq);
  }

  /** In a 16-bit flow the ring holds the whole range, so it is always live. */
  lemma ShortIsLive(q: seq<Slot>, next: nat)
    requires |q| == B16
    ensures Live(q, next, true)
  {
  }

  /** Every packet arrived before `now`. */
  predicate Past(q: seq<Slot>, now: nat) {
    forall i :: 0 <= i < |q| && q[i].Held? ==> q[i].b.time <= now
  }

  /** `b` is a first half and `c` passes for its second half. */
  predicate Partners(b: Buffer, c: Buffer, shortSeq: bool) {
    b.seqNo % 2 == 0 && c.seqNo == Next(b.seqNo, shortSeq) && c.sourceTime == b.sourceTime
  }

  /** The packet at `i` is a first half and its second half is in the next slot. */
  predicate HasPartner(q: seq<Slot>, i: nat, shortSeq: bool)
    requires i < |q| && q[i].Held?
  {
    var j := (i + 1) % |q|;
    q[j].Held? && Partners(q[i].b, q[j].b, shortSeq)
  }

  function Without(q: seq<Slot>, i: nat, both: bool): seq<Slot>
    requires i < |q|
  {
    if both then q[i := Vacant][(i + 1) % |q| := Vacant] else q[i := Vacant]
  }

  lemma Small(x: nat, size: nat)
    requires x < size
    ensures x % size == x
  {
    ModUnique(x, 0, x, size);
  }

  /** The first `n` slots from `out` on are vacant. */
  ghost predicate Seen(q: seq<Slot>, out: nat, n: nat)
    requires |q| > 0
  {
    forall i :: 0 <= i < n ==> At(q, out, i).Vacant?
  }

  /** Some packets were taken out, none was moved. */
  ghost predicate Emptier(was: seq<Slot>, q: seq<Slot>) {
    |q| == |was| && forall i :: 0 <= i < |q| ==> q[i] == was[i] || q[i].Vacant?
  }

  lemma NoEmptier(q: seq<Slot>)
    ensures Emptier(q, q)
  {
  }

  lemma ClearedOne(was: seq<Slot>, q: seq<Slot>, r: seq<Slot>, out: nat, n: nat)
    requires Emptier(was, q) && |q| > 0 && Seen(q, out, n) && r == q[(out + n) % |q| := Vacant]
    ensures Emptier(was, r) && Seen(r, out, n + 1)
  {
    forall i | 0 <= i < n + 1 ensures At(r, out, i).Vacant? {
      assert i < n ==> At(q, out, i).Vacant?;
    }
  }

  lemma PutPast(q: seq<Slot>, b: Buffer, now: nat)
    requires Past(q, now) && b.time <= now && |q| > 0
    ensures b.seqNo % |q| < |q| && Past(q[b.seqNo % |q| := Held(b)], now)
  {
  }

  lemma Fewer(q: seq<Slot>, i: nat, both: bool, now: nat)
    requires i < |q| && q[i].Held? && (i + 1) % |q| < |q|
    ensures Count(Without(q, i, both)) < Count(q)
    ensures Past(q, now) ==> Past(Without(q, i, both), now)
  {
    Replace(q, i, Vacant);
    Replace(q[i := Vacant], (i + 1) % |q|, Vacant);
  }

  lemma StepOn(out: nat, h: nat, size: nat)
    requires size > 0
    ensures ((out + h) % size + 1) % size == (out + h + 1) % size < size
  {
    ModAdd(out + h, 1, size);
  }

  lemma HolesMove(out: nat, h: nat, size: nat)
    requires out < size && 0 < h < size
    ensures (out + h) % size != out
  {
    Small(out, size);
    if (out + h) % size == out {
      SameSlot(out, h, 0, size);
    }
  }

  /** Short of a full turn the walk is not back. */
  lemma NotBack(out: nat, h: nat, size: nat)
    requires out < size && h <= size && (out + h) % size != out
    ensures h < size
  {
    if h == size {
      OneTurn(out, 1, size);
      Small(out, size);
    }
  }

  lemma Neighbour(i: nat, size: nat)
    requires i < size && size >= 2
    ensures (i + 1) % size < size && (i + 1) % size != i
  {
    if i + 1 < size {
      Small(i + 1, size);
    } else {
      ModUnique(i + 1, 1, 0, size);
    }
  }

  lemma Reach(out: nat, s: nat, size: nat)
    requires out < size && s < size
    ensures (out + (if s >= out then s - out else s - out + size)) % size == s
  {
    ModUnique(out + (if s >= out then s - out else s - out + size), if s >= out then 0 else 1, s, size);
  }

  /** Back at the reader's slot the whole ring was seen. */
  lemma FullTurn(q: seq<Slot>, out: nat, h: nat)
    requires 0 < h <= |q| && out < |q| && (out + h) % |q| == out
    requires forall i :: 0 <= i < h ==> At(q, out, i).Vacant?
    ensures forall s :: 0 <= s < |q| ==> q[s].Vacant?
  {
    Small(out, |q|);
    if h < |q| {
      SameSlot(out, h, 0, |q|);
    }
    forall s | 0 <= s < |q| ensures q[s].Vacant? {
      Reach(out, s, |q|);
      assert At(q, out, if s >= out then s - out else s - out + |q|) == q[s];
    }
  }

  lemma InRange(q: seq<Slot>, i: nat, shortSeq: bool)
    requires Placed(q, shortSeq) && i < |q| && q[i].Held?
    ensures q[i].b.seqNo < Modulus(shortSeq) && q[i].b.seqNo % |q| == i
  {
  }

  /** The other half is the first packet met once the first is out. */
  lemma PartnerNext(q: seq<Slot>, i: nat, shortSeq: bool)
    requires RingSize(|q|, shortSeq) && Placed(q, shortSeq) && i < |q| && q[i].Held? && HasPartner(q, i, shortSeq)
    ensures var j, r, next := (i + 1) % |q|, q[i := Vacant], Next(q[i].b.seqNo, shortSeq);
            && j < |r| && j != i && r[j] == q[j] && q[j].b.seqNo == next < Modulus(shortSeq)
            && next % |q| == j && (next % |q| + 0) % |q| == j && FirstAt(r, next % |r|, 0)
  {
    hide Next;
    Neighbour(i, |q|);
    var j := (i + 1) % |q|;
    InRange(q, j, shortSeq);
    Small(j, |q|);
    assert At(q[i := Vacant], j, 0) == q[j];
  }
}
