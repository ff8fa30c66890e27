/** A split stream from end to end: payloads written without bound, their halves arriving in
    any order, and the reader passing over the ring again and again. */
module Streaming {
  import opened Clock
  import opened Pass
  import Receiver
  import opened Ring
  import opened SeqNo
  import opened SplitMerge

  // ----- halves in the ring -------------------------------------------------------------

  function SlotFor(q: seq<Slot>, u: nat): Slot
    requires |q| == B16
  {
    q[u % B16]
  }

  /** The slot holds the half with number `u`. */
  predicate HalfIn(s: Slot, written: seq<Payload>, mode: Mode, base: nat, u: nat) {
    s.Held? && Traces(s.b.seqNo, s.b.data, s.b.sourceTime, written, mode, base, u)
  }

  /** The ring holds the halves in `there`, each in its slot, and nothing else. */
  ghost predicate Carries(q: seq<Slot>, written: seq<Payload>, mode: Mode, base: nat, there: set<nat>) {
    && |q| == B16 && (forall u :: u in there ==> HalfIn(SlotFor(q, u), written, mode, base, u))
    && forall i :: 0 <= i < |q| && q[i].Held? ==> exists u :: u in there && u % B16 == i
  }

  /** All numbers lie in one turn of the ring, short of the slot behind the reader. */
  ghost predicate InWindow(there: set<nat>, low: nat) {
    forall u :: u in there ==> low <= u < low + B16 - 1
  }

  /** Less than a turn apart, two numbers have the same slot only if they are the same. */
  lemma SlotsApart(u: nat, v: nat)
    requires u < v + B16 && v < u + B16
    ensures u % B16 == v % B16 <==> u == v
  {
  }

  lemma PairSlots(u: nat)
    ensures (u % B16 + 1) % B16 == (u + 1) % B16
  {
  }

  /** Taking out a pair leaves the other halves. */
  lemma PairOut(q: seq<Slot>, written: seq<Payload>, mode: Mode, base: nat, there: set<nat>, u: nat)
    requires Carries(q, written, mode, base, there) && InWindow(there, u) && u in there && u + 1 in there
    ensures Carries(Without(q, u % B16, true), written, mode, base, there - {u, u + 1})
    ensures InWindow(there - {u, u + 1}, u + 2)
  {
    hide HalfIn;
    var r, rest := Without(q, u % B16, true), there - {u, u + 1};
    PairSlots(u);
    forall v | v in rest ensures HalfIn(SlotFor(r, v), written, mode, base, v) {
      assert v in there;
      SlotsApart(u, v);
      SlotsApart(u + 1, v);
      assert SlotFor(r, v) == SlotFor(q, v);
    }
    forall i | 0 <= i < |r| && r[i].Held? ensures exists v :: v in rest && v % B16 == i {
      var v :| v in there && v % B16 == i;
      assert v != u && v != u + 1;
      assert v in rest;
    }
  }

  /** A packet put in its slot joins the halves in the ring; one found there is there already. */
  lemma HalfArrives(q: seq<Slot>, written: seq<Payload>, mode: Mode, base: nat, there: set<nat>, low: nat, u: nat, b: Buffer)
    requires Carries(q, written, mode, base, there) && InWindow(there + {u}, low)
    requires Traces(b.seqNo, b.data, b.sourceTime, written, mode, base, u)
    ensures b.seqNo == b.seqNo % B16 == u % B16
    ensures Carries(q[u % B16 := Held(b)], written, mode, base, there + {u})
    ensures q[u % B16].Held? <==> u in there
  {
    hide HalfOf;
    var r := q[u % B16 := Held(b)];
    assert u in there + {u};
    forall v | v in there ensures v % B16 == u % B16 ==> v == u {
      assert v in there + {u};
      SlotsApart(u, v);
    }
    forall v | v in there + {u} ensures HalfIn(SlotFor(r, v), written, mode, base, v) {
      if v in there {
        assert HalfIn(SlotFor(q, v), written, mode, base, v);
      }
    }
    forall i | 0 <= i < |r| && r[i].Held? ensures exists v :: v in there + {u} && v % B16 == i {
      if i != u % B16 {
        var v :| v in there && v % B16 == i;
        assert v in there + {u};
      }
    }
    if u in there {
      assert HalfIn(SlotFor(q, u), written, mode, base, u);
    }
  }

  /** A pair in the ring is complete. */
  lemma PairThere(q: seq<Slot>, written: seq<Payload>, mode: Mode, base: nat, there: set<nat>, k: nat, i: nat)
    requires base % 2 == 0 && Carries(q, written, mode, base, there) && i == (base + 2 * k) % B16
    requires base + 2 * k in there && base + 2 * k + 1 in there
    ensures |q| == B16 && k < |written| && q[i].Held? && q[i].b.seqNo == i && q[(i + 1) % B16].Held? && HasPartner(q, i, true)
    ensures q[i].b.data + q[(i + 1) % B16].b.data == written[k].data
  {
    hide Partners, HalfOf;
    var u := base + 2 * k;
    PairSlots(u);
    assert HalfIn(SlotFor(q, u), written, mode, base, u) && HalfIn(SlotFor(q, u + 1), written, mode, base, u + 1);
    HalvesPair(SlotFor(q, u).b, SlotFor(q, u + 1).b, written, mode, base, k);
  }

  /** The packet met `h` slots past number `low` is the half with number `low + h`. */
  lemma MetNumber(q: seq<Slot>, written: seq<Payload>, mode: Mode, base: nat, there: set<nat>, low: nat, h: nat)
    requires Carries(q, written, mode, base, there) && InWindow(there, low) && FirstAt(q, low % B16, h)
    ensures low + h in there && (low % B16 + h) % B16 == (low + h) % B16
    ensures low in there ==> h == 0
  {
    hide HalfIn, InWindow, FirstAt;
    MetSlot(q, low, h);
    OnFrom(low, h);
    var u :| u in there && u % B16 == (low + h) % B16;
    WithinWindow(there, low, u);
    SlotsApart(u, low + h);
    if low in there {
      HeldHalf(SlotFor(q, low), written, mode, base, low);
      OnFrom(low, 0);
      NothingBefore(q, low % B16, h);
    }
  }

  lemma MetSlot(q: seq<Slot>, low: nat, h: nat)
    requires |q| == B16 && FirstAt(q, low % B16, h)
    ensures h < B16 && (low % B16 + h) % B16 < B16 && q[(low % B16 + h) % B16].Held?
  {
  }

  lemma WithinWindow(there: set<nat>, low: nat, u: nat)
    requires InWindow(there, low) && u in there
    ensures low <= u < low + B16 - 1
  {
  }

  lemma NothingBefore(q: seq<Slot>, out: nat, h: nat)
    requires FirstAt(q, out, h) && At(q, out, 0).Held?
    ensures h == 0
  {
  }

  lemma HeldHalf(s: Slot, written: seq<Payload>, mode: Mode, base: nat, u: nat)
    requires HalfIn(s, written, mode, base, u)
    ensures s.Held?
  {
  }

  lemma OnFrom(low: nat, h: nat)
    ensures (low % B16 + h) % B16 == (low + h) % B16
  {
  }

  // ----- the stream as a value ---------------------------------------------------------------

  /** When a half arrived and when it is due. */
  datatype Stamp = Stamp(time: nat, target: nat)

  /** How many payloads were read, and the halves now in the ring. */
  datatype Stream = Stream(k: nat, held: map<nat, Stamp>)

  /** A half leaves when it is due, or has been held for more than 1.1 buffers. */
  predicate Releasable(s: Stamp, now: nat, buffer: nat) {
    s.target <= now || (now - s.time) * 10 > buffer * 11
  }

  /** The first number not yet read. */
  function Low(s: Stream, base: nat): nat {
    base + 2 * s.k
  }

  /** The other half's number or its own, whichever is later. */
  function LastOf(u: nat, base: nat): nat {
    if (u - base) % 2 == 0 then u + 1 else u
  }

  /** Whatever a pass could release by its last reading is complete and has everything before
      it in the ring, and nothing is held for more than two buffers. */
  ghost predicate ReadsWell(s: Stream, base: nat, last: nat, buffer: nat) {
    && (forall u :: u in s.held ==> last - s.held[u].time <= 2 * buffer)
    && forall u, v :: u in s.held && Releasable(s.held[u], last, buffer) && Low(s, base) <= v <= LastOf(u, base) ==> v in s.held
  }

  /** The pair of payload `k + j` is in the ring and leaves in round `j`. */
  predicate PairLeaves(s: Stream, base: nat, clock: nat -> nat, buffer: nat, j: nat) {
    var u := Low(s, base) + 2 * j;
    u in s.held && u + 1 in s.held && Releasable(s.held[u], Tick(clock, j + 1), buffer)
  }

  /** How many pairs leave in a pass. */
  function Leaving(s: Stream, base: nat, clock: nat -> nat, buffer: nat, j: nat): nat
    decreases B16 - j
  {
    if j < B16 && PairLeaves(s, base, clock, buffer, j) then Leaving(s, base, clock, buffer, j + 1) else j
  }

  /** What the clock says when a pass reads it last. */
  function LastReading(s: Stream, base: nat, clock: nat -> nat, buffer: nat): nat {
    Tick(clock, Leaving(s, base, clock, buffer, 0) + 1)
  }

  /** The stream once `m` pairs have left. */
  function Out(s: Stream, base: nat, m: nat): Stream {
    Stream(s.k + m, map u | u in s.held && u >= Low(s, base) + 2 * m :: s.held[u])
  }

  predicate AsStamped(s: Stream, u: nat, b: Buffer) {
    u in s.held && b.time == s.held[u].time && b.targetOutputTime == s.held[u].target
  }

  /** Every half is in its slot with its times, within one turn of the reader. */
  ghost predicate Stamped(q: seq<Slot>, s: Stream)
    requires |q| == B16
  {
    forall u :: u in s.held ==>
      var slot := SlotFor(q, u); slot.Held? && AsStamped(s, u, slot.b)
  }

  /** The state of the reader and its ring is that of the stream. */
  ghost predicate Streams(t: State, s: Stream, written: seq<Payload>, mode: Mode, base: nat) {
    && s.k <= |written| && base % 2 == 0 && Expected(t, true) == Low(s, base) % B16 && t.size == Bytes(t.q)
    && Carries(t.q, written, mode, base, s.held.Keys) && InWindow(s.held.Keys, Low(s, base)) && Stamped(t.q, s)
  }

  lemma OutNone(s: Stream, base: nat)
    requires InWindow(s.held.Keys, Low(s, base))
    ensures Out(s, base, 0) == s
  {
    forall u | u in s.held ensures u in Out(s, base, 0).held {
      assert u in s.held.Keys;
    }
    assert Out(s, base, 0).held == s.held;
  }

  lemma OutMore(s: Stream, base: nat, m: nat)
    ensures var t, u := Out(s, base, m), Low(s, base) + 2 * m;
            && Low(t, base) == u && Low(Out(s, base, m + 1), base) == u + 2
            && Out(s, base, m + 1).held.Keys == t.held.Keys - {u, u + 1}
  {
  }

  /** What has left is behind the reader, the rest as it was. */
  lemma OutHas(s: Stream, base: nat, m: nat, u: nat)
    ensures u in Out(s, base, m).held <==> u in s.held && u >= Low(s, base) + 2 * m
    ensures u in Out(s, base, m).held ==> Out(s, base, m).held[u] == s.held[u]
  {
  }

  lemma TwoOn(position: nat, base: nat, k: nat)
    requires (position + 1) % B16 == (base + 2 * k) % B16
    ensures (position + 1 + 1 + 1) % B16 == (base + 2 * (k + 1)) % B16
  {
    var x, y := position + 1, base + 2 * k;
    var m := x / B16 - y / B16;
    assert x == y + m * B16;
    Shifted(y + 2, x + 2, m);
  }

  lemma Shifted(x: nat, y: nat, m: int)
    requires y == x + m * B16
    ensures x % B16 == y % B16
  {
    var q := x / B16;
    Rest16(y, q + m, x % B16);
  }

  lemma PairHasBytes(q: seq<Slot>, i: nat)
    requires i < |q| && q[i].Held? && (i + 1) % |q| < |q| && q[(i + 1) % |q|].Held?
    requires q[i].b.data + q[(i + 1) % |q|].b.data != []
    ensures Bytes(q) > 0
  {
    Replace(q, i, Vacant);
    Replace(q, (i + 1) % |q|, Vacant);
  }

  // ----- one round --------------------------------------------------------------------------------

  /** A packet released is the first half next in line, and its other half is there. */
  lemma NextInLine(t: State, e: Exit, s: Stream, written: seq<Payload>, mode: Mode, base: nat, before: nat, now: nat, last: nat,
                   c: Setting)
    requires c.shortSeq && Streams(t, s, written, mode, base) && Departs(t, e, before, now, c)
    requires ReadsWell(s, base, last, c.buffer) && before <= now <= last
    ensures e.holes == 0 && e.parts > 0 && e.slot == Low(s, base) % B16 && e.at == t.position + 1
    ensures Low(s, base) in s.held && Low(s, base) + 1 in s.held && Releasable(s.held[Low(s, base)], now, c.buffer)
  {
    hide *;
    var b := HalfMet(t, e, s, written, mode, base, before, now, c);
    ReleasedWell(s, base, e.holes, b, e, t.tooLate, before, now, last, c);
    MetAtHand(t, e, s, written, mode, base, before, now, c);
  }

  /** What leaves is a half in the ring, and decided on by its stamp. */
  lemma HalfMet(t: State, e: Exit, s: Stream, written: seq<Payload>, mode: Mode, base: nat, before: nat, now: nat, c: Setting)
    returns (b: Buffer)
    requires c.shortSeq && Streams(t, s, written, mode, base) && Departs(t, e, before, now, c)
    ensures AsStamped(s, Low(s, base) + e.holes, b) && e.slot == (Low(s, base) + e.holes) % B16
    ensures Decide(e.holes, b, t.tooLate, c.buffer, before, now) == (if e.parts == 0 then Drops else Releases)
    ensures Low(s, base) in s.held ==> e.holes == 0
  {
    hide Carries, Stamped, InWindow, HasPartner, FirstAt, Bytes, Gap, Decide;
    var u := Low(s, base) + e.holes;
    FullRing(t.q, written, mode, base, s.held.Keys);
    TwiceModulo(Low(s, base));
    MetNumber(t.q, written, mode, base, s.held.Keys, Low(s, base), e.holes);
    StampOf(t.q, s, u);
    b := SlotFor(t.q, u).b;
  }

  /** A half that a well-timed pass releases has everything before it in the ring. */
  lemma ReleasedWell(s: Stream, base: nat, h: nat, b: Buffer, e: Exit, tooLate: nat, before: nat, now: nat, last: nat, c: Setting)
    requires ReadsWell(s, base, last, c.buffer) && before <= now <= last && AsStamped(s, Low(s, base) + h, b)
    requires Decide(h, b, tooLate, c.buffer, before, now) == if e.parts == 0 then Drops else Releases
    requires Low(s, base) in s.held ==> h == 0
    ensures e.parts > 0 && h == 0 && Low(s, base) in s.held && Low(s, base) + 1 in s.held
    ensures Releasable(s.held[Low(s, base)], now, c.buffer)
  {
    var u := Low(s, base) + h;
    assert last - s.held[u].time <= 2 * c.buffer;
    assert Releasable(s.held[u], now, c.buffer) && Releasable(s.held[u], last, c.buffer);
    assert Low(s, base) <= LastOf(u, base);
    assert Low(s, base) in s.held;
    assert LastOf(u, base) == u + 1;
  }

  lemma MetAtHand(t: State, e: Exit, s: Stream, written: seq<Payload>, mode: Mode, base: nat, before: nat, now: nat, c: Setting)
    requires c.shortSeq && Streams(t, s, written, mode, base) && Departs(t, e, before, now, c)
    requires e.holes == 0 && Low(s, base) in s.held && e.slot == (Low(s, base) + e.holes) % B16
    ensures e.slot == Low(s, base) % B16 && e.at == t.position + 1
  {
    hide Carries, Stamped, InWindow, HasPartner, FirstAt, Bytes, Gap, Decide;
    FullRing(t.q, written, mode, base, s.held.Keys);
    NumberIs(t.q, written, mode, base, s.held.Keys, Low(s, base));
    NoGap(t.q[e.slot].b.seqNo, Expected(t, true), true);
  }

  lemma FullRing(q: seq<Slot>, written: seq<Payload>, mode: Mode, base: nat, there: set<nat>)
    requires Carries(q, written, mode, base, there)
    ensures |q| == B16
  {
  }

  lemma TwiceModulo(u: nat)
    ensures u % B16 % B16 == u % B16
  {
  }

  lemma StampOf(q: seq<Slot>, s: Stream, u: nat)
    requires |q| == B16 && Stamped(q, s) && u in s.held
    ensures SlotFor(q, u).Held? && SlotFor(q, u).b.time == s.held[u].time && SlotFor(q, u).b.targetOutputTime == s.held[u].target
  {
  }

  lemma NumberIs(q: seq<Slot>, written: seq<Payload>, mode: Mode, base: nat, there: set<nat>, u: nat)
    requires Carries(q, written, mode, base, there) && u in there
    ensures SlotFor(q, u).Held? && SlotFor(q, u).b.seqNo == u % B16
  {
    assert HalfIn(SlotFor(q, u), written, mode, base, u);
  }

  /** The stream with its first pair out. */
  ghost predicate OnePairOn(s: Stream, r: Stream, base: nat) {
    && r.k == s.k + 1 && r.held.Keys == s.held.Keys - {Low(s, base), Low(s, base) + 1}
    && forall u :: u in r.held ==> u in s.held && r.held[u] == s.held[u]
  }

  lemma OutOnePair(s: Stream, base: nat, m: nat)
    requires InWindow(s.held.Keys, Low(s, base))
    ensures OnePairOn(Out(s, base, m), Out(s, base, m + 1), base)
  {
    OutMore(s, base, m);
  }

  /** The pair that leaves is handed over as its payload, and the stream goes on behind it. */
  lemma PairGone(t: State, e: Exit, block: Block, s: Stream, r: Stream, written: seq<Payload>, mode: Mode, base: nat,
                 before: nat, now: nat, c: Setting)
    requires c.shortSeq && c.merging && Streams(t, s, written, mode, base) && OnePairOn(s, r, base)
    requires Departs(t, e, before, now, c) && Made(t, e, block, c)
    requires e.parts > 0 && e.slot == Low(s, base) % B16 && e.at == t.position + 1
    requires Low(s, base) in s.held && Low(s, base) + 1 in s.held
    ensures e.parts == 2 && s.k < |written| && block.data == written[s.k].data
    ensures Streams(AfterRound(t, e, now, c), r, written, mode, base)
  {
    hide Carries, Stamped, InWindow, HasPartner, FirstAt, Bytes, Gap, Decide, Counted, Without;
    var u := Low(s, base);
    PairThere(t.q, written, mode, base, s.held.Keys, s.k, u % B16);
    PairOut(t.q, written, mode, base, s.held.Keys, u);
    StillStamped(t.q, s, r, base, u);
    TwoOn(t.position, base, s.k);
  }

  lemma StillStamped(q: seq<Slot>, s: Stream, r: Stream, base: nat, u: nat)
    requires |q| == B16 && Stamped(q, s) && OnePairOn(s, r, base) && u == Low(s, base) && InWindow(s.held.Keys, u)
    requires u in s.held && u + 1 in s.held
    ensures Stamped(Without(q, u % B16, true), r)
  {
    hide InWindow, OnePairOn;
    var w := Without(q, u % B16, true);
    forall v | v in r.held ensures var slot := SlotFor(w, v); slot.Held? && AsStamped(r, v, slot.b) {
      StampKept(q, s, r, base, u, v);
    }
  }

  lemma StampKept(q: seq<Slot>, s: Stream, r: Stream, base: nat, u: nat, v: nat)
    requires |q| == B16 && Stamped(q, s) && OnePairOn(s, r, base) && u == Low(s, base) && InWindow(s.held.Keys, u)
    requires u in s.held && u + 1 in s.held && v in r.held
    ensures var slot := SlotFor(Without(q, u % B16, true), v); slot.Held? && AsStamped(r, v, slot.b)
  {
    hide InWindow, Stamped;
    assert v in r.held.Keys;
    WithinWindow(s.held.Keys, u, v);
    PairSlots(u);
    SlotsApart(u, v);
    SlotsApart(u + 1, v);
    StampOf(q, s, v);
    assert SlotFor(Without(q, u % B16, true), v) == SlotFor(q, v);
  }

  // ----- a pass -----------------------------------------------------------------------------------

  /** A pass in which so many pairs have left has not read the clock for the last time yet. */
  lemma ClockOrder(s: Stream, base: nat, clock: nat -> nat, buffer: nat, n: nat)
    requires Running(clock) && AllLeave(s, base, clock, buffer, n) && n < B16
    ensures Tick(clock, n) <= Tick(clock, n + 1) <= LastReading(s, base, clock, buffer)
  {
    hide PairLeaves, Leaving;
    LeavingAtLeast(s, base, clock, buffer, 0, n);
  }

  lemma {:induction false} LeavingAtLeast(s: Stream, base: nat, clock: nat -> nat, buffer: nat, j: nat, n: nat)
    requires AllLeave(s, base, clock, buffer, n) && j <= n < B16
    ensures Leaving(s, base, clock, buffer, j) >= n
    decreases n - j
  {
    hide PairLeaves;
    if j < n {
      LeavingAtLeast(s, base, clock, buffer, j + 1, n);
    } else {
      PairsLeave(s, base, clock, buffer, j);
    }
  }

  lemma {:induction false} PairsLeave(s: Stream, base: nat, clock: nat -> nat, buffer: nat, j: nat)
    requires j <= B16
    ensures var m := Leaving(s, base, clock, buffer, j);
            j <= m <= B16 && forall i :: j <= i < m ==> PairLeaves(s, base, clock, buffer, i)
    decreases B16 - j
  {
    hide PairLeaves;
    if j < B16 && PairLeaves(s, base, clock, buffer, j) {
      PairsLeave(s, base, clock, buffer, j + 1);
    }
  }

  /** A pass reads well at every round if it does at the first. */
  lemma StillReadsWell(s: Stream, base: nat, m: nat, last: nat, buffer: nat)
    requires ReadsWell(s, base, last, buffer) && InWindow(s.held.Keys, Low(s, base))
    ensures ReadsWell(Out(s, base, m), base, last, buffer)
  {
    hide InWindow;
    var t := Out(s, base, m);
    forall u, v | u in t.held && Releasable(t.held[u], last, buffer) && Low(t, base) <= v <= LastOf(u, base)
      ensures v in t.held
    {
      OutHas(s, base, m, u);
      assert v in s.held;
      OutHas(s, base, m, v);
    }
    forall u | u in t.held ensures last - t.held[u].time <= 2 * buffer {
      OutHas(s, base, m, u);
    }
  }

  /** The blocks are the payloads from `k` on. */
  predicate AsWritten(blocks: seq<Block>, written: seq<Payload>, k: nat) {
    k + |blocks| <= |written| && forall i :: 0 <= i < |blocks| ==> blocks[i].data == written[k + i].data
  }

  lemma OneMoreWritten(blocks: seq<Block>, written: seq<Payload>, k: nat)
    requires blocks != [] && AsWritten(blocks[..|blocks| - 1], written, k)
    requires k + |blocks| <= |written| && blocks[|blocks| - 1].data == written[k + |blocks| - 1].data
    ensures AsWritten(blocks, written, k)
  {
    var n := |blocks| - 1;
    assert forall i :: 0 <= i < n ==> blocks[i] == blocks[..n][i];
  }

  /** Pairs that left lie in one turn of the ring. */
  lemma FewPairs(s: Stream, base: nat, clock: nat -> nat, buffer: nat, m: nat)
    requires InWindow(s.held.Keys, Low(s, base)) && (m > 0 ==> PairLeaves(s, base, clock, buffer, m - 1))
    ensures m < B16
  {
    if m > 0 {
      var u := Low(s, base) + 2 * (m - 1);
      assert u in s.held.Keys;
    }
  }

  ghost predicate AllLeave(s: Stream, base: nat, clock: nat -> nat, buffer: nat, m: nat) {
    forall j :: 0 <= j < m ==> PairLeaves(s, base, clock, buffer, j)
  }

  /** Round by round the next payload is handed over. */
  lemma {:induction false} PairByPair(t: State, exits: seq<Exit>, blocks: seq<Block>, s: Stream, written: seq<Payload>, mode: Mode,
                                      base: nat, clock: nat -> nat, c: Setting)
    requires c.shortSeq && c.merging && Running(clock) && Ran(t, exits, blocks, clock, c)
    requires Streams(t, s, written, mode, base) && ReadsWell(s, base, LastReading(s, base, clock, c.buffer), c.buffer)
    ensures |blocks| == |exits| < B16 && AsWritten(blocks, written, s.k) && AllLeave(s, base, clock, c.buffer, |exits|)
    ensures Streams(Reached(t, exits, clock, c), Out(s, base, |exits|), written, mode, base)
    ensures exits != [] ==> Reached(t, exits, clock, c).lastOutput == Tick(clock, |exits|)
    decreases |exits|
  {
    hide *;
    InTurn(t, s, written, mode, base);
    if exits == [] {
      NoRounds(t, blocks, s, written, mode, base, clock, c);
    } else {
      var n := |exits| - 1;
      var r, o, block := Reached(t, exits[..n], clock, c), Out(s, base, n), LastOne(blocks);
      var last := LastReading(s, base, clock, c.buffer);
      LastRound(t, exits, blocks, clock, c);
      PairByPair(t, exits[..n], Pass.Earlier(exits, blocks), s, written, mode, base, clock, c);
      ClockOrder(s, base, clock, c.buffer, n);
      StillReadsWell(s, base, n, last, c.buffer);
      NextInLine(r, exits[n], o, written, mode, base, Tick(clock, n), Tick(clock, n + 1), last, c);
      OutOnePair(s, base, n);
      OneMoreLeaves(s, base, clock, c.buffer, n);
      OneBlockMore(exits, blocks);
      PairGone(r, exits[n], block, o, Out(s, base, n + 1), written, mode, base, Tick(clock, n), Tick(clock, n + 1), c);
      StreamAt(s, base, n);
      OneMoreWritten(blocks, written, s.k);
      FewPairs(s, base, clock, c.buffer, n + 1);
      OutputNow(r, exits[n], Tick(clock, n + 1), c);
    }
  }

  lemma NoRounds(t: State, blocks: seq<Block>, s: Stream, written: seq<Payload>, mode: Mode, base: nat, clock: nat -> nat,
                 c: Setting)
    requires Ran(t, [], blocks, clock, c) && Streams(t, s, written, mode, base)
    ensures |blocks| == 0 < B16 && AsWritten(blocks, written, s.k) && AllLeave(s, base, clock, c.buffer, 0)
    ensures Streams(Reached(t, [], clock, c), Out(s, base, 0), written, mode, base)
  {
    hide InWindow, Carries, Stamped;
    OutNone(s, base);
  }

  lemma OneBlockMore(exits: seq<Exit>, blocks: seq<Block>)
    requires exits != [] && exits[|exits| - 1].parts > 0 && blocks != []
    ensures Pass.Earlier(exits, blocks) == blocks[..|blocks| - 1] && LastOne(blocks) == blocks[|blocks| - 1]
  {
  }

  lemma StreamAt(s: Stream, base: nat, m: nat)
    ensures Out(s, base, m).k == s.k + m
  {
  }

  lemma InTurn(t: State, s: Stream, written: seq<Payload>, mode: Mode, base: nat)
    requires Streams(t, s, written, mode, base)
    ensures InWindow(s.held.Keys, Low(s, base)) && |t.q| == B16
  {
    hide InWindow;
    FullRing(t.q, written, mode, base, s.held.Keys);
  }

  lemma OneMoreLeaves(s: Stream, base: nat, clock: nat -> nat, buffer: nat, n: nat)
    requires AllLeave(s, base, clock, buffer, n)
    requires var o := Out(s, base, n);
             Low(o, base) in o.held && Low(o, base) + 1 in o.held && Releasable(o.held[Low(o, base)], Tick(clock, n + 1), buffer)
    ensures AllLeave(s, base, clock, buffer, n + 1) && PairLeaves(s, base, clock, buffer, n)
  {
    var o := Out(s, base, n);
    OutMore(s, base, n);
    OutHas(s, base, n, Low(o, base));
    OutHas(s, base, n, Low(o, base) + 1);
  }

  lemma OutputNow(t: State, e: Exit, now: nat, c: Setting)
    requires e.parts > 0
    ensures AfterRound(t, e, now, c).lastOutput == now
  {
  }

  /** With the next pair in the ring and to be released the pass goes on; and it never ends by
      giving up, nor without a packet. */
  lemma EndsInTurn(t: State, why: Ending, s: Stream, written: seq<Payload>, mode: Mode, base: nat, before: nat, now: nat, last: nat,
                   c: Setting)
    requires c.shortSeq && Streams(t, s, written, mode, base) && Ends(t, why, before, now, c)
    requires ReadsWell(s, base, last, c.buffer) && before <= now <= last
    requires forall i :: 0 <= i < |written| ==> written[i].data != []
    ensures why.Emptied? || why.StillEarly?
    ensures !(Low(s, base) in s.held && Low(s, base) + 1 in s.held && Releasable(s.held[Low(s, base)], now, c.buffer))
  {
    hide Carries, Stamped, InWindow, FirstAt, Bytes, HasPartner, Gap;
    var u, keys := Low(s, base), s.held.Keys;
    FullRing(t.q, written, mode, base, keys);
    TwiceModulo(u);
    if why.StillEarly? || why.GaveUp? {
      var h := why.holes;
      MetNumber(t.q, written, mode, base, keys, u, h);
      StampOf(t.q, s, u + h);
      if u in s.held {
        assert h == 0;
      }
    } else if why.NoneHeld? {
      NoBytesThere(t.q);
    } else if u in s.held && u + 1 in s.held {
      PairThere(t.q, written, mode, base, keys, s.k, u % B16);
      PairHasBytes(t.q, u % B16);
    }
  }

  lemma NoBytesThere(q: seq<Slot>)
    requires forall i :: 0 <= i < |q| ==> q[i].Vacant?
    ensures Bytes(q) == 0
  {
    AllVacant(q);
  }

  /** As many pairs leave as the clock releases. */
  lemma {:induction false} LeavingIs(s: Stream, base: nat, clock: nat -> nat, buffer: nat, j: nat, m: nat)
    requires AllLeave(s, base, clock, buffer, m) && !PairLeaves(s, base, clock, buffer, m) && j <= m < B16
    ensures Leaving(s, base, clock, buffer, j) == m
    decreases m - j
  {
    hide PairLeaves;
    if j < m {
      LeavingIs(s, base, clock, buffer, j + 1, m);
    }
  }

  /** A pass that reads well hands over the next payloads as they were written, as many as
      the clock releases, and goes on behind them. */
  lemma NothingLost(t: State, exits: seq<Exit>, blocks: seq<Block>, why: Ending, s: Stream, written: seq<Payload>, mode: Mode,
                    base: nat, clock: nat -> nat, c: Setting)
    requires c.shortSeq && c.merging && Running(clock) && Ran(t, exits, blocks, clock, c)
    requires Ends(Reached(t, exits, clock, c), why, Tick(clock, |exits|), Tick(clock, |exits| + 1), c)
    requires Streams(t, s, written, mode, base) && ReadsWell(s, base, LastReading(s, base, clock, c.buffer), c.buffer)
    requires forall i :: 0 <= i < |written| ==> written[i].data != []
    ensures var m := Leaving(s, base, clock, c.buffer, 0);
            && |blocks| == |exits| == m && AsWritten(blocks, written, s.k)
            && Streams(Closed(Reached(t, exits, clock, c), why, c), Out(s, base, m), written, mode, base)
    ensures !why.GaveUp? && !why.NoneHeld? && !WentIdle(t, exits, clock, c)
  {
    hide *;
    var m := |exits|;
    var r, o := Reached(t, exits, clock, c), Out(s, base, m);
    PairByPair(t, exits, blocks, s, written, mode, base, clock, c);
    ClockOrder(s, base, clock, c.buffer, m);
    InTurn(t, s, written, mode, base);
    StillReadsWell(s, base, m, LastReading(s, base, clock, c.buffer), c.buffer);
    EndsInTurn(r, why, o, written, mode, base, Tick(clock, m), Tick(clock, m + 1), LastReading(s, base, clock, c.buffer), c);
    PairStays(s, base, clock, c.buffer, m);
    LeavingIs(s, base, clock, c.buffer, 0, m);
    SameAtEnd(r, why, c);
    NotIdle(t, exits, clock, c);
  }

  lemma PairStays(s: Stream, base: nat, clock: nat -> nat, buffer: nat, m: nat)
    requires var o := Out(s, base, m);
             !(Low(o, base) in o.held && Low(o, base) + 1 in o.held
               && Releasable(o.held[Low(o, base)], Tick(clock, m + 1), buffer))
    ensures !PairLeaves(s, base, clock, buffer, m)
  {
    OutMore(s, base, m);
    OutHas(s, base, m, Low(s, base) + 2 * m);
    OutHas(s, base, m, Low(s, base) + 2 * m + 1);
  }

  lemma SameAtEnd(t: State, why: Ending, c: Setting)
    requires why.Emptied? || why.StillEarly?
    ensures Closed(t, why, c) == t && !why.GaveUp? && !why.NoneHeld?
  {
  }

  lemma NotIdle(t: State, exits: seq<Exit>, clock: nat -> nat, c: Setting)
    requires exits != [] ==> Reached(t, exits, clock, c).lastOutput == Tick(clock, |exits|)
    ensures !WentIdle(t, exits, clock, c)
  {
    hide Reached;
  }

  // ----- arrivals -----------------------------------------------------------------------------------

  /** The half with index `i` arrives, perhaps again. */
  datatype Arrival = Arrival(i: nat, packetTime: nat, lastPacketTs: nat, now: nat, retry: bool)

  /** It has not been read yet, is less than a ring ahead of the reader, and not too old. */
  predicate ArrivesWell(s: Stream, base: nat, a: Arrival, payloads: nat, buffer: nat) {
    && a.i < 2 * payloads && Low(s, base) <= base + a.i < Low(s, base) + B16 - 1
    && (a.packetTime >= a.lastPacketTs || (a.now - a.packetTime) * 10 <= buffer * 11)
  }

  function StampFor(a: Arrival, buffer: nat): Stamp {
    Stamp(a.now, a.packetTime + buffer)
  }

  /** A half found in the ring already stays as it is. */
  function Arrived(s: Stream, base: nat, a: Arrival, buffer: nat): Stream {
    if base + a.i in s.held then s else s.(held := s.held[base + a.i := StampFor(a, buffer)])
  }

  /** The flow has items, and it and its ring are as the stream says. */
  ghost predicate Carrying(f: Receiver.Flow, s: Stream, written: seq<Payload>, mode: Mode, base: nat)
    reads f, f.queue
  {
    f.Valid() && f.shortSeq && f.hasItems && Streams(f.View(), s, written, mode, base)
  }

  lemma FlowSizes(f: Receiver.Flow)
    requires f.Valid() && f.shortSeq
    ensures f.queueMax == B16 == f.queue.Length && f.outputIdx == f.Expected() == Expected(f.View(), true) < B16
    ensures f.queueSize == Bytes(f.queue[..]) + f.ledger.stale
  {
    hide Placed;
  }

  /** No half in the window has the slot just behind the reader. */
  lemma NotBehind(low: nat, u: nat)
    requires low <= u < low + B16 - 1
    ensures u % B16 != (low % B16 - 1) % B16
  {
    if u % B16 == (low % B16 - 1) % B16 {
      var y := low % B16 - 1 + low / B16 * B16;
      NotSame(u, y, low / B16);
    }
  }

  lemma NotSame(x: nat, y: int, k: nat)
    requires x > y >= k * B16 - 1 && x < y + B16
    ensures x % B16 != (y - k * B16) % B16
  {
  }

  /** A half that was not there joins the stream. */
  lemma HalfJoins(t: State, r: State, s: Stream, written: seq<Payload>, mode: Mode, base: nat, a: Arrival, b: Buffer, buffer: nat)
    requires Streams(t, s, written, mode, base) && ArrivesWell(s, base, a, |written|, buffer)
    requires Traces(b.seqNo, b.data, b.sourceTime, written, mode, base, base + a.i)
    requires b.time == a.now && b.targetOutputTime == a.packetTime + buffer
    ensures |t.q| == B16 && b.seqNo == b.seqNo % B16 == (base + a.i) % B16
    ensures base + a.i in s.held <==> t.q[b.seqNo].Held? && t.q[b.seqNo].b.seqNo == b.seqNo
    ensures base + a.i !in s.held && r.q == t.q[b.seqNo := Held(b)] && r.size == t.size + |b.data| && r.position == t.position ==>
              Streams(r, Arrived(s, base, a, buffer), written, mode, base)
  {
    hide Carries, Traces, HalfIn, Bytes;
    var u, keys := base + a.i, s.held.Keys;
    FullRing(t.q, written, mode, base, keys);
    assert InWindow(keys + {u}, Low(s, base));
    HalfArrives(t.q, written, mode, base, keys, Low(s, base), u, b);
    if u in s.held {
      NumberIs(t.q, written, mode, base, keys, u);
    } else {
      Replace(t.q, u % B16, Held(b));
      assert Arrived(s, base, a, buffer).held.Keys == keys + {u};
      JoinStamped(t.q, s, base, a, b, buffer);
    }
  }

  lemma JoinStamped(q: seq<Slot>, s: Stream, base: nat, a: Arrival, b: Buffer, buffer: nat)
    requires |q| == B16 && Stamped(q, s) && base + a.i !in s.held && InWindow(s.held.Keys + {base + a.i}, Low(s, base))
    requires b.time == a.now && b.targetOutputTime == a.packetTime + buffer
    ensures Stamped(q[(base + a.i) % B16 := Held(b)], Arrived(s, base, a, buffer))
  {
    var u, r := base + a.i, Arrived(s, base, a, buffer);
    assert u in s.held.Keys + {u};
    forall v | v in r.held
      ensures var slot := SlotFor(q[u % B16 := Held(b)], v);
              slot.Held? && slot.b.time == r.held[v].time && slot.b.targetOutputTime == r.held[v].target
    {
      if v != u {
        assert v in s.held.Keys + {u};
        SlotsApart(u, v);
        assert SlotFor(q, v) == SlotFor(q[u % B16 := Held(b)], v);
      }
    }
  }

  /** A half arrives at the flow. */
  method Arrive(f: Receiver.Flow, p: Wire, a: Arrival, ghost s: Stream, ghost written: seq<Payload>, ghost mode: Mode,
                ghost base: nat)
    requires Carrying(f, s, written, mode, base) && Past(f.queue[..], a.now)
    requires ArrivesWell(s, base, a, |written|, f.recoveryBufferTicks) && WireTraces(p, written, mode, base, a.i)
    modifies f, f.queue
    ensures Carrying(f, Arrived(s, base, a, f.recoveryBufferTicks), written, mode, base) && Past(f.queue[..], a.now)
  {
    hide Receiver.Flow.Valid, Streams, HalfOf, Past, Arrived, Bytes;
    FlowSizes(f);
    ghost var t := f.View();
    ghost var b := f.Arriving(p.seqNo, p.data, p.ts, a.packetTime, a.now);
    LowSlot(t, s, written, mode, base);
    NotBehind(Low(s, base), base + a.i);
    HalfJoins(t, f.View(), s, written, mode, base, a, b, f.recoveryBufferTicks);
    ArrivedAgain(s, base, a, f.recoveryBufferTicks);
    var r, _ := f.Enqueue(p.seqNo, p.data, p.ts, a.packetTime, a.lastPacketTs, a.now, a.retry);
    HalfJoins(t, f.View(), s, written, mode, base, a, b, f.recoveryBufferTicks);
  }

  lemma LowSlot(t: State, s: Stream, written: seq<Payload>, mode: Mode, base: nat)
    requires Streams(t, s, written, mode, base)
    ensures Expected(t, true) == Low(s, base) % B16
  {
    hide Carries, InWindow, Stamped, Bytes;
  }

  lemma ArrivedAgain(s: Stream, base: nat, a: Arrival, buffer: nat)
    ensures base + a.i in s.held ==> Arrived(s, base, a, buffer) == s
  {
  }

  /** The reader passes over the ring. */
  method ReadOnce(f: Receiver.Flow, clock: nat -> nat, ghost s: Stream, ghost written: seq<Payload>, ghost mode: Mode,
                  ghost base: nat)
    returns (blocks: seq<Block>)
    requires Carrying(f, s, written, mode, base) && Running(clock) && Past(f.queue[..], Tick(clock, 0))
    requires ReadsWell(s, base, LastReading(s, base, clock, f.recoveryBufferTicks), f.recoveryBufferTicks)
    requires forall i :: 0 <= i < |written| ==> written[i].data != []
    modifies f, f.queue
    ensures var m := Leaving(s, base, clock, f.recoveryBufferTicks, 0);
            && |blocks| == m && AsWritten(blocks, written, s.k)
            && Carrying(f, Out(s, base, m), written, mode, base) && Past(f.queue[..], Tick(clock, 0))
  {
    hide Receiver.Flow.Valid, Streams, AsWritten, Past, Ran, Reached, Ends, Closed, Remains, Delivered, DroppedLate, Ascending,
         WentIdle, Leaving, ReadsWell, Out, Receiver.Flow.LiveRing, Receiver.Flow.NearRing, Receiver.HandedOver;
    ghost var t, c := f.View(), f.Settings(true);
    ghost var exits, why;
    blocks, exits, why := f.Output(clock, true);
    NothingLost(t, exits, blocks, why, s, written, mode, base, clock, c);
  }

  /** A 16-bit flow without items or forgotten bytes, which takes this packet to start with. */
  ghost predicate Ready(f: Receiver.Flow, ts: nat, now: nat)
    reads f, f.queue
  {
    && f.Valid() && f.shortSeq && !f.hasItems && f.ledger.stale == 0 && Past(f.queue[..], now)
    && (forall i :: 0 <= i < |f.queue[..]| && f.queue[..][i].Held? ==> f.queue[..][i].b.data != [])
    && !Receiver.MustWait(ts, f.maxSourceTime, f.recoveryBufferTicks, f.reanchorWaitSince, now)
  }

  /** The stream begun by the first half. */
  function Begun(base: nat, a: Arrival, buffer: nat): Stream {
    Stream(0, map[base := StampFor(a, buffer)])
  }

  lemma FirstHalf(t: State, written: seq<Payload>, mode: Mode, base: nat, a: Arrival, b: Buffer, buffer: nat)
    requires |t.q| == B16 && t.q[base % B16] == Held(b) && forall i :: 0 <= i < |t.q| && i != base % B16 ==> t.q[i].Vacant?
    requires Traces(b.seqNo, b.data, b.sourceTime, written, mode, base, base) && base % 2 == 0
    requires b.time == a.now && b.targetOutputTime == a.packetTime + buffer
    requires Expected(t, true) == base % B16 && t.size == Bytes(t.q)
    ensures Streams(t, Begun(base, a, buffer), written, mode, base)
  {
    hide Traces, Bytes;
    var s := Begun(base, a, buffer);
    assert s.held.Keys == {base};
    forall u | u in {base} ensures HalfIn(SlotFor(t.q, u), written, mode, base, u) {
      assert SlotFor(t.q, u) == Held(b);
    }
    forall i | 0 <= i < |t.q| && t.q[i].Held? ensures exists u :: u in {base} && u % B16 == i {
      assert base in {base};
    }
  }

  /** The first half anchors the flow. */
  method ArriveFirst(f: Receiver.Flow, p: Wire, a: Arrival, ghost written: seq<Payload>, ghost mode: Mode, ghost base: nat)
    requires Ready(f, p.ts, a.now) && a.i == 0 && !a.retry && WireTraces(p, written, mode, base, 0) && base % 2 == 0
    modifies f, f.queue
    ensures Carrying(f, Begun(base, a, f.recoveryBufferTicks), written, mode, base) && Past(f.queue[..], a.now)
  {
    hide Receiver.Flow.Valid, Streams, HalfOf, Past, Bytes;
    FlowSizes(f);
    var _, _ := f.Enqueue(p.seqNo, p.data, p.ts, a.packetTime, a.lastPacketTs, a.now, a.retry);
    FlowSizes(f);
    FirstHalf(f.View(), written, mode, base, a, f.Arriving(p.seqNo, p.data, p.ts, a.packetTime, a.now), f.recoveryBufferTicks);
  }

  // ----- any interleaving -----------------------------------------------------------------------------

  datatype Event = Arrives(a: Arrival) | Reads(clock: nat -> nat)

  function Start(e: Event): nat {
    match e
    case Arrives(a) => a.now
    case Reads(clock) => Tick(clock, 0)
  }

  /** What an event makes of the stream. */
  function AfterOne(s: Stream, base: nat, e: Event, buffer: nat): Stream {
    match e
    case Arrives(a) => Arrived(s, base, a, buffer)
    case Reads(clock) => Out(s, base, Leaving(s, base, clock, buffer, 0))
  }

  function After(s: Stream, base: nat, events: seq<Event>, buffer: nat): Stream {
    if events == [] then s
    else
      var n := |events| - 1;
      AfterOne(After(s, base, events[..n], buffer), base, events[n], buffer)
  }

  ghost predicate GoesWell(s: Stream, base: nat, e: Event, payloads: nat, buffer: nat) {
    match e
    case Arrives(a) => ArrivesWell(s, base, a, payloads, buffer)
    case Reads(clock) => Running(clock) && ReadsWell(s, base, LastReading(s, base, clock, buffer), buffer)
  }

  /** No event comes too early or too late for the stream as it then is. */
  ghost predicate AllWell(s: Stream, base: nat, events: seq<Event>, payloads: nat, buffer: nat) {
    if events == [] then true
    else
      var n := |events| - 1;
      && AllWell(s, base, events[..n], payloads, buffer)
      && GoesWell(After(s, base, events[..n], buffer), base, events[n], payloads, buffer)
  }

  lemma {:induction false} WellSoFar(s: Stream, base: nat, events: seq<Event>, payloads: nat, buffer: nat, j: nat)
    requires AllWell(s, base, events, payloads, buffer) && j < |events|
    ensures GoesWell(After(s, base, events[..j], buffer), base, events[j], payloads, buffer)
    decreases |events|
  {
    hide GoesWell, After;
    var n := |events| - 1;
    if j < n {
      assert events[..n][..j] == events[..j];
      WellSoFar(s, base, events[..n], payloads, buffer, j);
    }
  }

  lemma OneEventMore(s: Stream, base: nat, events: seq<Event>, buffer: nat, j: nat)
    requires j < |events|
    ensures After(s, base, events[..j + 1], buffer) == AfterOne(After(s, base, events[..j], buffer), base, events[j], buffer)
  {
    hide AfterOne;
    assert events[..j + 1][..j] == events[..j];
  }

  lemma MoreWritten(blocks: seq<Block>, more: seq<Block>, written: seq<Payload>)
    requires AsWritten(blocks, written, 0) && AsWritten(more, written, |blocks|)
    ensures AsWritten(blocks + more, written, 0)
  {
  }

  /** The events happen to the flow, one after the other. */
  method Play(f: Receiver.Flow, sent: seq<Wire>, events: seq<Event>, ghost s: Stream, ghost written: seq<Payload>, ghost mode: Mode,
              ghost base: nat, ghost since: nat)
    returns (blocks: seq<Block>)
    requires Carrying(f, s, written, mode, base) && s.k == 0 && Halves(sent, written, mode, base) && Past(f.queue[..], since)
    requires AllWell(s, base, events, |written|, f.recoveryBufferTicks)
    requires forall i, j :: 0 <= i <= j < |events| ==> since <= Start(events[i]) <= Start(events[j])
    requires forall i :: 0 <= i < |written| ==> written[i].data != []
    modifies f, f.queue
    ensures var r := After(s, base, events, f.recoveryBufferTicks);
            |blocks| == r.k && AsWritten(blocks, written, 0) && Carrying(f, r, written, mode, base)
  {
    hide Carrying, Past, AsWritten, After, AllWell, ReadsWell, ArrivesWell, Arrived, Traces, Leaving;
    blocks := [];
    AsWrittenNone(written);
    NoEvents(s, base, events, f.recoveryBufferTicks);
    ghost var time := since;
    for j := 0 to |events|
      invariant var r := After(s, base, events[..j], f.recoveryBufferTicks);
                |blocks| == r.k && AsWritten(blocks, written, 0) && Carrying(f, r, written, mode, base)
      invariant Past(f.queue[..], time) && (if j == 0 then time == since else time == Start(events[j - 1]))
    {
      ghost var r := After(s, base, events[..j], f.recoveryBufferTicks);
      WellSoFar(s, base, events, |written|, f.recoveryBufferTicks, j);
      OneEventMore(s, base, events, f.recoveryBufferTicks, j);
      PastLater(f.queue[..], time, Start(events[j]));
      time := Start(events[j]);
      match events[j]
      case Arrives(a) =>
        IsSent(r, base, a, |written|, f.recoveryBufferTicks);
        Arrive(f, sent[a.i], a, r, written, mode, base);
        SameCount(r, base, a, f.recoveryBufferTicks);
      case Reads(clock) =>
        var more := ReadOnce(f, clock, r, written, mode, base);
        MoreWritten(blocks, more, written);
        blocks := blocks + more;
    }
    assert events[..|events|] == events;
  }

  lemma AsWrittenNone(written: seq<Payload>)
    ensures AsWritten([], written, 0)
  {
  }

  lemma NoEvents(s: Stream, base: nat, events: seq<Event>, buffer: nat)
    ensures After(s, base, events[..0], buffer) == s
  {
  }

  lemma IsSent(s: Stream, base: nat, a: Arrival, payloads: nat, buffer: nat)
    requires ArrivesWell(s, base, a, payloads, buffer)
    ensures a.i < 2 * payloads
  {
  }

  lemma SameCount(s: Stream, base: nat, a: Arrival, buffer: nat)
    ensures Arrived(s, base, a, buffer).k == s.k
  {
  }

  // ----- everything is read --------------------------------------------------------------------------

  predicate Brings(e: Event, i: nat) {
    e.Arrives? && e.a.i == i
  }

  ghost predicate Came(events: seq<Event>, i: nat) {
    exists j :: 0 <= j < |events| && Brings(events[j], i)
  }

  /** Every arrival is due by then. */
  ghost predicate DueBy(events: seq<Event>, due: nat, buffer: nat) {
    forall j :: 0 <= j < |events| && events[j].Arrives? ==> events[j].a.packetTime + buffer <= due
  }

  /** The halves in the ring are of payloads not read, and due by then. */
  ghost predicate Bounded(s: Stream, base: nat, payloads: nat, due: nat) {
    && s.k <= payloads && InWindow(s.held.Keys, Low(s, base))
    && forall u :: u in s.held ==> Low(s, base) <= u < base + 2 * payloads && s.held[u].target <= due
  }

  /** The half is in the ring or was read. */
  predicate Seen(s: Stream, base: nat, i: nat) {
    base + i in s.held || base + i < Low(s, base)
  }

  /** Whatever came is. */
  ghost predicate Accounted(s: Stream, base: nat, events: seq<Event>) {
    forall i: nat :: Came(events, i) ==> Seen(s, base, i)
  }

  lemma BoundedOut(s: Stream, base: nat, payloads: nat, due: nat, clock: nat -> nat, buffer: nat)
    requires Bounded(s, base, payloads, due)
    ensures var m := Leaving(s, base, clock, buffer, 0);
            m < B16 && s.k + m <= payloads && Bounded(Out(s, base, m), base, payloads, due)
  {
    hide InWindow, Leaving;
    var m := Leaving(s, base, clock, buffer, 0);
    PairsLeave(s, base, clock, buffer, 0);
    if m > 0 {
      var u := Low(s, base) + 2 * (m - 1);
      assert PairLeaves(s, base, clock, buffer, m - 1);
      assert u + 1 in s.held;
    }
    FewPairs(s, base, clock, buffer, m);
    OutWindow(s, base, m);
    forall u | u in Out(s, base, m).held
      ensures Low(s, base) + 2 * m <= u < base + 2 * payloads && Out(s, base, m).held[u].target <= due
    {
      OutHas(s, base, m, u);
    }
  }

  lemma OutWindow(s: Stream, base: nat, m: nat)
    requires InWindow(s.held.Keys, Low(s, base))
    ensures InWindow(Out(s, base, m).held.Keys, Low(s, base) + 2 * m) && Low(Out(s, base, m), base) == Low(s, base) + 2 * m
  {
    forall u | u in Out(s, base, m).held.Keys ensures Low(s, base) + 2 * m <= u < Low(s, base) + 2 * m + B16 - 1 {
      OutHas(s, base, m, u);
      assert u in s.held.Keys;
    }
  }

  lemma AccountedOut(s: Stream, base: nat, events: seq<Event>, e: Event, m: nat)
    requires Accounted(s, base, events) && e.Reads?
    ensures Accounted(Out(s, base, m), base, events + [e])
  {
    forall i: nat | Came(events + [e], i) ensures Seen(Out(s, base, m), base, i) {
      var j :| 0 <= j < |events + [e]| && Brings((events + [e])[j], i);
      assert Brings(events[j], i);
      assert Came(events, i);
      OutHas(s, base, m, base + i);
    }
  }

  lemma AccountedIn(s: Stream, base: nat, events: seq<Event>, e: Event, buffer: nat)
    requires Accounted(s, base, events) && e.Arrives?
    ensures Accounted(Arrived(s, base, e.a, buffer), base, events + [e])
  {
    var r := Arrived(s, base, e.a, buffer);
    forall i: nat | Came(events + [e], i) ensures Seen(r, base, i) {
      var j :| 0 <= j < |events + [e]| && Brings((events + [e])[j], i);
      if j < |events| {
        assert Brings(events[j], i);
        assert Came(events, i);
      }
    }
  }

  lemma BoundedIn(s: Stream, base: nat, payloads: nat, due: nat, a: Arrival, buffer: nat)
    requires Bounded(s, base, payloads, due) && ArrivesWell(s, base, a, payloads, buffer) && a.packetTime + buffer <= due
    ensures Bounded(Arrived(s, base, a, buffer), base, payloads, due)
  {
    forall u | u in Arrived(s, base, a, buffer).held.Keys ensures Low(s, base) <= u < Low(s, base) + B16 - 1 {
      assert u in s.held.Keys || u == base + a.i;
    }
  }

  /** Over any run, whatever came is in the ring or was read. */
  lemma {:induction false} NoneForgotten(s: Stream, base: nat, before: seq<Event>, events: seq<Event>, payloads: nat, due: nat,
                                        buffer: nat)
    requires AllWell(s, base, events, payloads, buffer) && DueBy(events, due, buffer)
    requires Bounded(s, base, payloads, due) && Accounted(s, base, before)
    ensures var r := After(s, base, events, buffer); Bounded(r, base, payloads, due) && Accounted(r, base, before + events)
    decreases |events|
  {
    if events == [] {
      assert before + events == before;
    } else {
      hide Bounded, Accounted, ReadsWell, ArrivesWell, Arrived, Leaving, Out;
      var n := |events| - 1;
      var e, r := events[n], After(s, base, events[..n], buffer);
      NoneForgotten(s, base, before, events[..n], payloads, due, buffer);
      assert before + events == before + events[..n] + [e];
      if e.Arrives? {
        AccountedIn(r, base, before + events[..n], e, buffer);
        BoundedIn(r, base, payloads, due, e.a, buffer);
      } else {
        AccountedOut(r, base, before + events[..n], e, Leaving(r, base, e.clock, buffer, 0));
        BoundedOut(r, base, payloads, due, e.clock, buffer);
      }
    }
  }

  /** A pass with every half in the ring or read, and due, reads everything. */
  lemma ReadsAll(s: Stream, base: nat, payloads: nat, clock: nat -> nat, buffer: nat)
    requires Bounded(s, base, payloads, Tick(clock, 0)) && Running(clock)
    requires forall i :: 0 <= i < 2 * payloads ==> Seen(s, base, i)
    ensures s.k + Leaving(s, base, clock, buffer, 0) == payloads
  {
    hide Leaving, InWindow;
    var m := payloads - s.k;
    forall j | 0 <= j < m ensures PairLeaves(s, base, clock, buffer, j) {
      var u := Low(s, base) + 2 * j;
      var i := 2 * (s.k + j);
      assert Seen(s, base, i) && Seen(s, base, i + 1) && base + i == u;
      assert Tick(clock, 0) <= Tick(clock, j + 1);
    }
    FewPairs(s, base, clock, buffer, m);
    assert Low(s, base) + 2 * m == base + 2 * payloads;
    LeavingIs(s, base, clock, buffer, 0, m);
  }

  /** The last event is a pass by which every half has come and is due. */
  ghost predicate Completes(first: Event, events: seq<Event>, payloads: nat, buffer: nat) {
    && events != [] && events[|events| - 1].Reads?
    && DueBy([first] + events, Tick(events[|events| - 1].clock, 0), buffer)
    && forall i :: 0 <= i < 2 * payloads ==> Came([first] + events, i)
  }

  /** Then everything is read. */
  lemma AllRead(base: nat, a: Arrival, events: seq<Event>, payloads: nat, buffer: nat)
    requires a.i == 0 && payloads > 0 && AllWell(Begun(base, a, buffer), base, events, payloads, buffer)
    requires Completes(Arrives(a), events, payloads, buffer)
    ensures After(Begun(base, a, buffer), base, events, buffer).k == payloads
  {
    hide ReadsWell, ArrivesWell, Leaving, Out, Arrived, Bounded, Accounted, InWindow;
    var n, s := |events| - 1, Begun(base, a, buffer);
    var clock, r := events[n].clock, After(s, base, events[..n], buffer);
    var due := Tick(clock, 0);
    DueParts(a, events, due, buffer);
    BeginsBounded(base, a, payloads, due, buffer);
    NoneForgotten(s, base, [Arrives(a)], events[..n], payloads, due, buffer);
    forall i | 0 <= i < 2 * payloads ensures Seen(r, base, i) {
      CameBefore(a, events, i);
      AccountedFor(r, base, [Arrives(a)] + events[..n], i);
    }
    ReadsAll(r, base, payloads, clock, buffer);
    StreamAt(r, base, Leaving(r, base, clock, buffer, 0));
  }

  lemma AccountedFor(s: Stream, base: nat, events: seq<Event>, i: nat)
    requires Accounted(s, base, events) && Came(events, i)
    ensures Seen(s, base, i)
  {
  }

  lemma DueParts(a: Arrival, events: seq<Event>, due: nat, buffer: nat)
    requires DueBy([Arrives(a)] + events, due, buffer) && events != []
    ensures DueBy(events[..|events| - 1], due, buffer) && a.packetTime + buffer <= due
  {
    var all := [Arrives(a)] + events;
    assert all[0] == Arrives(a);
    forall j | 0 <= j < |events| - 1 && events[j].Arrives? ensures events[j].a.packetTime + buffer <= due {
      assert all[j + 1] == events[j];
    }
  }

  lemma BeginsBounded(base: nat, a: Arrival, payloads: nat, due: nat, buffer: nat)
    requires a.i == 0 && payloads > 0 && a.packetTime + buffer <= due
    ensures Bounded(Begun(base, a, buffer), base, payloads, due) && Accounted(Begun(base, a, buffer), base, [Arrives(a)])
  {
  }

  /** A pass brings nothing. */
  lemma CameBefore(a: Arrival, events: seq<Event>, i: nat)
    requires events != [] && events[|events| - 1].Reads? && Came([Arrives(a)] + events, i)
    ensures Came([Arrives(a)] + events[..|events| - 1], i)
  {
    var all, less := [Arrives(a)] + events, [Arrives(a)] + events[..|events| - 1];
    var j :| 0 <= j < |all| && Brings(all[j], i);
    assert less[j] == all[j];
  }

  lemma EvenBase(w: Writer)
    requires w.Valid()
    ensures w.base % 2 == 0
  {
  }

  lemma FirstSent(sent: seq<Wire>, written: seq<Payload>, mode: Mode, base: nat)
    requires Halves(sent, written, mode, base) && written != []
    ensures |sent| == 2 * |written| && sent[0].ts == written[0].ts && WireTraces(sent[0], written, mode, base, 0)
  {
    assert WireTraces(sent[0], written, mode, base, 0);
  }

  /** Any number of payloads is written in a split mode; the halves arrive in any order and
      any number of times, the first one first, between passes of the reader. As long as no
      event comes too early or too late, what is read at any time is what was written up to
      there, and after a pass by which everything has come and is due it is all of it. */
  method Transfer(w: Writer, f: Receiver.Flow, payloads: seq<Payload>, a: Arrival, events: seq<Event>)
    returns (blocks: seq<Block>)
    requires w.Valid() && w.written == [] && payloads != []
    requires forall i :: 0 <= i < |payloads| ==> 0 < |payloads[i].data| <= MAX_PAYLOAD
    requires Ready(f, payloads[0].ts, a.now) && a.i == 0 && !a.retry
    requires AllWell(Begun(w.base, a, f.recoveryBufferTicks), w.base, events, |payloads|, f.recoveryBufferTicks)
    requires forall i, j :: 0 <= i <= j < |events| ==> a.now <= Start(events[i]) <= Start(events[j])
    modifies w, f, f.queue
    ensures AsWritten(blocks, payloads, 0)
    ensures |blocks| == After(Begun(old(w.base), a, f.recoveryBufferTicks), old(w.base), events, f.recoveryBufferTicks).k
    ensures Completes(Arrives(a), events, |payloads|, f.recoveryBufferTicks) ==> |blocks| == |payloads|
  {
    hide Halves, Carrying, AsWritten, Past, Completes, AllWell, After, Begun, WireTraces, Receiver.Flow.Valid, Writer.Valid;
    ghost var base, buffer := w.base, f.recoveryBufferTicks;
    ghost var s := Begun(base, a, buffer);
    EvenBase(w);
    var sent := WriteAll(w, payloads);
    FirstSent(sent, payloads, w.mode, base);
    ArriveFirst(f, sent[0], a, payloads, w.mode, base);
    StartsAtNone(base, a, buffer);
    blocks := Play(f, sent, events, s, payloads, w.mode, base, a.now);
    if Completes(Arrives(a), events, |payloads|, buffer) {
      AllRead(base, a, events, |payloads|, buffer);
    }
  }

  lemma StartsAtNone(base: nat, a: Arrival, buffer: nat)
    ensures Begun(base, a, buffer).k == 0
  {
  }

  // ----- too late -------------------------------------------------------------------------------------

  lemma BehindIsAhead(low: nat, u: nat)
    requires u < low < u + B16
    ensures Gap(u % B16, low % B16, true) == B16 - (low - u)
  {
    GapIs(u % B16, low % B16, true);
    var d := low - u;
    assert low % B16 == if u % B16 + d < B16 then u % B16 + d else u % B16 + d - B16;
  }

  /** A half that comes again after it was read, but before it is too old, is taken for one
      almost a whole range ahead: alone in the ring it is handed over again, and the reader is
      set back behind it. */
  lemma ReadAgain(t: State, b: Buffer, low: nat, u: nat, before: nat, now: nat, c: Setting) returns (e: Exit)
    requires c.shortSeq && |t.q| == B16 && t.size > 0 && Expected(t, true) == low % B16 && u < low < u + B16
    requires b.seqNo == u % B16 && t.q[u % B16] == Held(b) && forall i :: 0 <= i < B16 && i != u % B16 ==> t.q[i].Vacant?
    requires before <= now && b.targetOutputTime <= before && now - b.time <= 2 * c.buffer
    ensures Departs(t, e, before, now, c) && e.parts == 1 && e.at == t.position + 1 + B16 - (low - u)
    ensures Expected(AfterRound(t, e, now, c), true) == (u + 1) % B16
  {
    hide Gap, Bytes, Counted;
    var h := B16 - (low - u);
    BehindIsAhead(low, u);
    TwiceModulo(low);
    OnFrom(low, h);
    Turned(low, u, h);
    forall i | 0 <= i < h ensures At(t.q, low % B16, i).Vacant? {
      OnFrom(low, i);
      SlotsApart(low + i, u + B16);
    }
    e := Exit(h, u % B16, t.position + 1 + h, 1);
    assert At(t.q, low % B16, h) == t.q[u % B16];
    PairSlots(u);
    SetBack(t.position, low, u, h);
  }

  lemma Turned(low: nat, u: nat, h: nat)
    requires u < low < u + B16 && h == B16 - (low - u)
    ensures (low + h) % B16 == u % B16 == (u + B16) % B16 && (u + 1) % B16 != u % B16
  {
  }

  lemma SetBack(position: nat, low: nat, u: nat, h: nat)
    requires (position + 1) % B16 == low % B16 && low + h == u + B16
    ensures (position + 1 + h + 1) % B16 == (u + 1) % B16
  {
    var m := (position + 1) / B16 - low / B16;
    assert position + 1 == low + m * B16;
    Shifted(u + 1, position + 1 + h + 1, m + 1);
  }

  /** The packet in the slot is the only one. */
  ghost predicate Alone(q: seq<Slot>, i: nat, b: Buffer) {
    |q| == B16 && i < |q| && q[i] == Held(b) && forall j :: 0 <= j < |q| && j != i ==> q[j].Vacant?
  }

  ghost predicate Bare(q: seq<Slot>) {
    |q| == B16 && forall j :: 0 <= j < |q| ==> q[j].Vacant?
  }

  /** It leaves as itself and the reader is set back behind it. */
  lemma AloneLeaves(t: State, e: Exit, b: Buffer, low: nat, u: nat, before: nat, now: nat, c: Setting)
    requires c.shortSeq && Alone(t.q, u % B16, b) && b.seqNo == u % B16 && Departs(t, e, before, now, c)
    requires Expected(t, true) == low % B16 && u < low < u + B16 && now - b.time <= 2 * c.buffer
    ensures e.parts == 1 && e.slot == u % B16 && Bare(AfterRound(t, e, now, c).q)
    ensures Expected(AfterRound(t, e, now, c), true) == (u + 1) % B16
  {
    hide Gap, Bytes, Counted, FirstAt;
    var h := B16 - (low - u);
    BehindIsAhead(low, u);
    Turned(low, u, h);
    PairSlots(u);
    AtMet(t, e, before, now, c);
    SetBack(t.position, low, u, h);
  }

  lemma AtMet(t: State, e: Exit, before: nat, now: nat, c: Setting)
    requires Departs(t, e, before, now, c)
    ensures e.at == t.position + 1 + Gap(t.q[e.slot].b.seqNo, Expected(t, c.shortSeq), c.shortSeq)
  {
    hide Gap, FirstAt, Bytes, Decide, HasPartner;
  }

  /** No packet leaves a ring without packets. */
  lemma NoneLeaves(t: State, e: Exit, before: nat, now: nat, c: Setting)
    requires Bare(t.q)
    ensures !Departs(t, e, before, now, c)
  {
    hide Gap, FirstAt, Bytes, Decide, HasPartner;
  }

  /** Due and not held too long, it does leave. */
  lemma NotKept(t: State, why: Ending, b: Buffer, i: nat, before: nat, now: nat, c: Setting)
    requires Alone(t.q, i, b) && b.targetOutputTime <= before <= now && now - b.time <= 2 * c.buffer && t.size > 0
    ensures !Ends(t, why, before, now, c)
  {
    if why.StillEarly? || why.GaveUp? {
      if Meets(t, why.holes, c.shortSeq) {
        assert Met(t, why.holes, c.shortSeq) == b;
      }
    }
  }

  /** A pass over a ring without packets. */
  lemma ReadsNone(t: State, exits: seq<Exit>, blocks: seq<Block>, clock: nat -> nat, c: Setting)
    requires Ran(t, exits, blocks, clock, c) && Bare(t.q)
    ensures exits == [] && blocks == []
  {
    hide *;
    if exits != [] {
      RanAt(t, exits, blocks, clock, c, 0);
      NoneYet(t, exits, clock, c);
      NoneLeaves(t, exits[0], Tick(clock, 0), Tick(clock, 1), c);
    } else {
      NothingRead(t, blocks, clock, c);
    }
  }

  lemma NoneYet(t: State, exits: seq<Exit>, clock: nat -> nat, c: Setting)
    ensures Reached(t, exits[..0], clock, c) == t
  {
  }

  lemma NothingRead(t: State, blocks: seq<Block>, clock: nat -> nat, c: Setting)
    requires Ran(t, [], blocks, clock, c)
    ensures blocks == []
  {
  }

  /** A pass over a ring with one packet, which is due. */
  lemma ReadsAlone(t: State, exits: seq<Exit>, blocks: seq<Block>, why: Ending, b: Buffer, low: nat, u: nat, clock: nat -> nat,
                   c: Setting)
    requires c.shortSeq && Alone(t.q, u % B16, b) && b.seqNo == u % B16 && t.size > 0
    requires Expected(t, true) == low % B16 && u < low < u + B16 && Running(clock)
    requires b.targetOutputTime <= Tick(clock, 0) && Tick(clock, 1) - b.time <= 2 * c.buffer
    requires Ran(t, exits, blocks, clock, c)
    requires Ends(Reached(t, exits, clock, c), why, Tick(clock, |exits|), Tick(clock, |exits| + 1), c)
    ensures |exits| == 1 && exits[0].parts == 1 && exits[0].slot == u % B16
    ensures Bare(Reached(t, exits, clock, c).q) && Expected(Reached(t, exits, clock, c), true) == (u + 1) % B16
  {
    hide *;
    NoneYet(t, exits, clock, c);
    if exits == [] {
      Due(clock, b);
      assert exits[..0] == exits;
      NotKept(t, why, b, u % B16, Tick(clock, 0), Tick(clock, 1), c);
      assert false;
    }
    RanAt(t, exits, blocks, clock, c, 0);
    AloneLeaves(t, exits[0], b, low, u, Tick(clock, 0), Tick(clock, 1), c);
    OneRound(t, exits, clock, c);
    if |exits| > 1 {
      RanAt(t, exits, blocks, clock, c, 1);
      NoneLeaves(Reached(t, exits[..1], clock, c), exits[1], Tick(clock, 1), Tick(clock, 2), c);
      assert false;
    }
    assert exits[..1] == exits;
  }

  lemma Due(clock: nat -> nat, b: Buffer)
    requires Running(clock) && b.targetOutputTime <= Tick(clock, 0)
    ensures b.targetOutputTime <= Tick(clock, 0) <= Tick(clock, 1)
  {
  }

  lemma OneRound(t: State, exits: seq<Exit>, clock: nat -> nat, c: Setting)
    requires exits != []
    ensures Reached(t, exits[..1], clock, c) == AfterRound(t, exits[0], Tick(clock, 1), c)
  {
    hide AfterRound;
    assert exits[..1][..0] == exits[..0];
  }

  /** The end of a pass does not move the reader. */
  lemma StillThere(t: State, why: Ending, before: nat, now: nat, c: Setting)
    requires Ends(t, why, before, now, c)
    ensures Expected(Closed(t, why, c), true) == Expected(t, true)
  {
    hide Gap, Counted, FirstAt, Decide;
  }

  lemma {:induction false} OneHandedOver(exits: seq<Exit>, blocks: seq<Block>, q: seq<Slot>, b: Buffer, i: nat)
    requires |exits| == 1 && exits[0].parts == 1 && exits[0].slot == i && i < |q| && q[i] == Held(b)
    requires Delivered(q, blocks, HandedOut(exits), true)
    ensures |blocks| == 1 && blocks[0].data == b.data
  {
    assert HandedOut(exits[..0]) == [];
    assert HandedOut(exits) == [exits[0]];
    assert BlockOf(blocks[0], exits[0], q, true);
  }

  lemma EmptyStream(t: State, s: Stream, written: seq<Payload>, mode: Mode, base: nat)
    requires Streams(t, s, written, mode, base) && s.held == map[]
    ensures Bare(t.q)
  {
    hide Bytes, HalfIn;
  }

  lemma OnlyHeld(q: seq<Slot>, i: nat, b: Buffer)
    requires Bare(q) && i < B16
    ensures Alone(q[i := Held(b)], i, b)
  {
  }

  lemma WireNumber(p: Wire, written: seq<Payload>, mode: Mode, base: nat, i: nat)
    requires WireTraces(p, written, mode, base, i)
    ensures p.seqNo == (base + i) % B16 == p.seqNo % B16 < B16
  {
    hide HalfOf;
  }

  lemma JustBehind(low: nat, u: nat)
    requires u < low < u + B16
    ensures u % B16 == (low % B16 - 1) % B16 <==> u == low - 1
  {
    var y := low % B16 - 1 + low / B16 * B16;
    assert y == low - 1;
    Aligned(low % B16 - 1, y, low / B16);
    if u != low - 1 {
      SlotsApart(u, low - 1);
    }
  }

  lemma Aligned(x: int, y: int, k: nat)
    requires y == x + k * B16
    ensures x % B16 == y % B16
  {
  }

  /** A half that was read comes again, with nothing else in the ring, and a pass is made once
      it is due: it is handed over again exactly if it is taken, that is if it is not too old
      and not the one read last; and then the reader is set back behind it. */
  method Repeat(f: Receiver.Flow, p: Wire, a: Arrival, clock: nat -> nat, merging: bool, ghost s: Stream,
                ghost written: seq<Payload>, ghost mode: Mode, ghost base: nat)
    returns (r: int, blocks: seq<Block>)
    requires Carrying(f, s, written, mode, base) && s.held == map[] && Past(f.queue[..], a.now)
    requires WireTraces(p, written, mode, base, a.i) && p.data != [] && base + a.i < Low(s, base) < base + a.i + B16
    requires Running(clock) && a.now <= Tick(clock, 0) && a.packetTime + f.recoveryBufferTicks <= Tick(clock, 0)
    requires Tick(clock, 1) - a.now <= 2 * f.recoveryBufferTicks
    modifies f, f.queue
    ensures f.Valid()
    ensures r == 0 <==> !old(f.TooOld(p.seqNo, a.packetTime, a.lastPacketTs, f.lastSeqFound, a.now)) && base + a.i != Low(s, base) - 1
    ensures r == 0 ==> |blocks| == 1 && blocks[0].data == p.data && f.Expected() == (base + a.i + 1) % B16
    ensures r != 0 ==> blocks == [] && f.Expected() == Low(s, base) % B16
  {
    hide Receiver.Flow.Valid, Streams, Past, Ran, Reached, Ends, Closed, Remains, Delivered, DroppedLate, Ascending, WentIdle,
         Receiver.Flow.LiveRing, Receiver.Flow.NearRing, Receiver.HandedOver, WireTraces, Bare, Alone, HandedOut, Low, Gap;
    ghost var low, u, b := Low(s, base), base + a.i, f.Arriving(p.seqNo, p.data, p.ts, a.packetTime, a.now);
    FlowSizes(f);
    LowSlot(f.View(), s, written, mode, base);
    EmptyStream(f.View(), s, written, mode, base);
    WireNumber(p, written, mode, base, a.i);
    JustBehind(low, u);
    Unheld(f.queue[..], u % B16);
    OnlyHeld(f.queue[..], u % B16, b);
    var mark;
    r, mark := f.Enqueue(p.seqNo, p.data, p.ts, a.packetTime, a.lastPacketTs, a.now, a.retry);
    PastLater(f.queue[..], a.now, Tick(clock, 0));
    FlowSizes(f);
    ghost var t, c := f.View(), f.Settings(merging);
    ghost var exits, why;
    blocks, exits, why := f.Output(clock, merging);
    StillThere(Reached(t, exits, clock, c), why, Tick(clock, |exits|), Tick(clock, |exits| + 1), c);
    FlowSizes(f);
    if r == 0 {
      ReadsAlone(t, exits, blocks, why, b, low, u, clock, c);
      OneHandedOver(exits, blocks, t.q, b, u % B16);
    } else {
      ReadsNone(t, exits, blocks, clock, c);
      NoneReached(t, clock, c);
    }
  }

  lemma Unheld(q: seq<Slot>, i: nat)
    requires Bare(q) && i < B16
    ensures |q| == B16 && q[i].Vacant?
  {
  }

  lemma NoneReached(t: State, clock: nat -> nat, c: Setting)
    ensures Reached(t, [], clock, c) == t
  {
  }
}
