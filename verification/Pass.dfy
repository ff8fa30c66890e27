/** A pass of the reader over the ring, packet by packet: what `receiver_output` of
    src/rist-common.c reads, changes and hands over, as a run of states. */
module Pass {
  import opened Clock
  import opened Ring
  import opened SeqNo

  const B64: nat := 0x1_0000_0000_0000_0000

  datatype Setting = Setting(shortSeq: bool, buffer: nat, merging: bool)

  /** What a pass reads and changes. `size` counts bytes, `position` is the last number
      output, unwrapped. */
  datatype State = State(q: seq<Slot>, size: int, position: nat, tooLate: nat, lost: nat, flowStart: bool,
                         lastOutput: nat, hasItems: bool)

  /** A packet, or a pair, that leaves: met `holes` slots past the reader's, with unwrapped
      number `at`. It is handed over as one or two parts; 0 parts is a packet dropped. */
  datatype Exit = Exit(holes: nat, slot: nat, at: nat, parts: nat)

  /** Why a pass ends. */
  datatype Ending = Emptied | StillEarly(holes: nat) | GaveUp(holes: nat) | NoneHeld

  /** A block handed to the application: one packet, or a merged pair. */
  datatype Block = Block(seqNo: nat, data: seq<int>, parts: nat, discontinuity: bool, flowStart: bool)

  datatype Verdict = Waits | Resets | Drops | Releases

  // ----- one packet ----------------------------------------------------------------------

  /** The time a packet is in the ring decides: beyond two buffers it is dropped, or resets
      the flow after a hundred of its kind; before its time it waits; otherwise, or when it
      is past 1.1 buffers, it is released. Behind holes it waits up to two buffers, by the
      clock as read `before`. */
  function Decide(holes: nat, b: Buffer, tooLate: nat, buffer: nat, before: nat, now: nat): (v: Verdict)
    ensures v.Waits? ==> b.targetOutputTime > before || b.targetOutputTime > now
    ensures v.Waits? ==> now - b.time <= 2 * buffer || (holes > 0 && before - b.time <= 2 * buffer)
    ensures v.Drops? ==> now - b.time > 2 * buffer && tooLate < 100
    ensures v.Resets? ==> now - b.time > 2 * buffer && tooLate >= 100
    ensures v.Releases? ==> now - b.time <= 2 * buffer && (b.targetOutputTime <= now || (now - b.time) * 10 > buffer * 11)
  {
    if holes > 0 && before - b.time <= 2 * buffer && b.targetOutputTime > before then Waits
    else if now - b.time > 2 * buffer then (if tooLate >= 100 then Resets else Drops)
    else if b.targetOutputTime > now && (now - b.time) * 10 <= buffer * 11 then Waits
    else Releases
  }

  /** The widest gap counted as lost. */
  function Cap(queueMax: nat, shortSeq: bool): nat {
    if shortSeq then B16 / 2 else queueMax / 2
  }

  /** What a gap counts as lost: holes count their gap up to the cap, a discontinuity
      without holes counts one when the packet is released. */
  function Counted(holes: nat, gap: nat, released: bool, cap: nat): nat {
    if holes > 0 then (if gap <= cap then gap else 0)
    else if released && gap > 0 then 1 else 0
  }

  /** Half the 16-bit range or half the ring is the widest gap counted. */
  lemma WhatCounts(holes: nat, gap: nat, released: bool, queueMax: nat, shortSeq: bool)
    ensures Counted(holes, gap, released, Cap(queueMax, shortSeq))
            == if holes == 0 then (if released && gap > 0 then 1 else 0)
               else if gap <= (if shortSeq then 32768 else queueMax / 2) then gap else 0
  {
  }

  /** The number the reader expects. */
  function Expected(s: State, shortSeq: bool): nat {
    (s.position + 1) % Modulus(shortSeq)
  }

  /** The first packet from the reader's slot on is `holes` slots away. */
  predicate Meets(s: State, holes: nat, shortSeq: bool) {
    |s.q| > 0 && FirstAt(s.q, Expected(s, shortSeq) % |s.q|, holes)
  }

  function Met(s: State, holes: nat, shortSeq: bool): Buffer
    requires Meets(s, holes, shortSeq)
  {
    At(s.q, Expected(s, shortSeq) % |s.q|, holes).b
  }

  /** The numbers missing before it. */
  function GapBefore(s: State, holes: nat, shortSeq: bool): nat
    requires Meets(s, holes, shortSeq)
  {
    Gap(Met(s, holes, shortSeq).seqNo, Expected(s, shortSeq), shortSeq)
  }

  /** A block made of the packet at `idx` alone or, where merging is on and its other half
      is in the next slot, of the pair. */
  ghost predicate Formed(block: Block, q: seq<Slot>, idx: nat, c: Setting)
    requires idx < |q| && q[idx].Held?
  {
    && block.parts == (if c.merging && HasPartner(q, idx, c.shortSeq) then 2 else 1)
    && block.data == q[idx].b.data + (if block.parts == 2 then q[(idx + 1) % |q|].b.data else [])
    && block.seqNo == if block.parts == 2 then q[idx].b.seqNo / 2 else q[idx].b.seqNo
  }

  /** `e` is what the clock readings make of the first packet met. */
  ghost predicate Departs(s: State, e: Exit, before: nat, now: nat, c: Setting) {
    && s.size > 0 && Meets(s, e.holes, c.shortSeq)
    && e.slot == (Expected(s, c.shortSeq) % |s.q| + e.holes) % |s.q| && e.slot < |s.q| && s.q[e.slot].Held?
    && e.at == s.position + 1 + GapBefore(s, e.holes, c.shortSeq)
    && Decide(e.holes, s.q[e.slot].b, s.tooLate, c.buffer, before, now) == (if e.parts == 0 then Drops else Releases)
    && (e.parts > 0 ==> e.parts == if c.merging && HasPartner(s.q, e.slot, c.shortSeq) then 2 else 1)
  }

  /** The block handed over, with its two flags. */
  ghost predicate Made(s: State, e: Exit, block: Block, c: Setting) {
    && e.slot < |s.q| && s.q[e.slot].Held? && Formed(block, s.q, e.slot, c)
    && (block.discontinuity <==> e.at != s.position + 1) && block.flowStart == s.flowStart
  }

  /** The state once the packet is out of its slot. */
  function Gone(s: State, e: Exit, now: nat, c: Setting): State {
    var q := if e.slot < |s.q| then Without(s.q, e.slot, e.parts == 2) else s.q;
    var gap := if e.at > s.position then e.at - s.position - 1 else 0;
    State(q, s.size - Bytes(s.q) + Bytes(q), if e.parts == 2 then e.at + 1 else e.at,
          if e.parts == 0 then s.tooLate + 1 else 0,
          s.lost + Counted(e.holes, gap, e.parts > 0, Cap(|s.q|, c.shortSeq)),
          s.flowStart && e.parts == 0, if e.parts == 0 then s.lastOutput else now, s.hasItems)
  }

  /** The end of a round: an emptied ring resets the flow if nothing has been output for
      more than a buffer. */
  function Rested(s: State, now: nat, buffer: nat): State {
    if s.size == 0 then
      var last := if s.lastOutput == 0 then now else s.lastOutput;
      s.(lastOutput := last, hasItems := s.hasItems && (now - last) % 0x1_0000_0000_0000_0000 <= buffer)
    else s.(lastOutput := now)
  }

  function AfterRound(s: State, e: Exit, now: nat, c: Setting): State {
    Rested(Gone(s, e, now, c), now, c.buffer)
  }

  // ----- a whole pass -----------------------------------------------------------------------

  /** The state after some packets have left; round k reads the clock the (k + 1)-st time. */
  function Reached(s: State, exits: seq<Exit>, clock: nat -> nat, c: Setting): State {
    if exits == [] then s
    else
      var n := |exits| - 1;
      AfterRound(Reached(s, exits[..n], clock, c), exits[n], Tick(clock, n + 1), c)
  }

  /** The blocks handed over before the last packet left. */
  function Earlier(exits: seq<Exit>, blocks: seq<Block>): seq<Block> {
    if exits == [] || exits[|exits| - 1].parts == 0 || blocks == [] then blocks else blocks[..|blocks| - 1]
  }

  /** Round by round the packets that leave are those met first, for the reasons given, and
      `blocks` is what they are handed over as. */
  ghost predicate Ran(s: State, exits: seq<Exit>, blocks: seq<Block>, clock: nat -> nat, c: Setting)
    decreases |exits|
  {
    if exits == [] then blocks == []
    else
      var n := |exits| - 1;
      var e, t := exits[n], Reached(s, exits[..n], clock, c);
      && Ran(s, exits[..n], Earlier(exits, blocks), clock, c)
      && Departs(t, e, Tick(clock, n), Tick(clock, n + 1), c)
      && (e.parts > 0 ==> blocks != [] && Made(t, e, blocks[|blocks| - 1], c))
  }

  /** The pass ends in state `s` for the right reason. */
  ghost predicate Ends(s: State, why: Ending, before: nat, now: nat, c: Setting) {
    match why
    case Emptied => s.size == 0
    case StillEarly(h) =>
      && s.size > 0 && Meets(s, h, c.shortSeq)
      && Decide(h, Met(s, h, c.shortSeq), s.tooLate, c.buffer, before, now) == Waits
    case GaveUp(h) =>
      && s.size > 0 && Meets(s, h, c.shortSeq)
      && Decide(h, Met(s, h, c.shortSeq), s.tooLate, c.buffer, before, now) == Resets
    case NoneHeld => s.size > 0 && forall i :: 0 <= i < |s.q| ==> s.q[i].Vacant?
  }

  /** What the end itself changes: giving up and finding nothing reset the flow. */
  ghost function Closed(s: State, why: Ending, c: Setting): State
    requires why.GaveUp? ==> Meets(s, why.holes, c.shortSeq)
  {
    match why
    case GaveUp(h) =>
      var counted := Counted(h, GapBefore(s, h, c.shortSeq), false, Cap(|s.q|, c.shortSeq));
      s.(lost := s.lost + counted, tooLate := 0, hasItems := false)
    case NoneHeld => s.(size := 0, hasItems := false)
    case _ => s
  }

  lemma RanOn(s: State, exits: seq<Exit>, blocks: seq<Block>, clock: nat -> nat, c: Setting, e: Exit, block: Block)
    requires Ran(s, exits, blocks, clock, c)
    requires var t := Reached(s, exits, clock, c);
             Departs(t, e, Tick(clock, |exits|), Tick(clock, |exits| + 1), c) && (e.parts > 0 ==> Made(t, e, block, c))
    ensures Ran(s, exits + [e], if e.parts == 0 then blocks else blocks + [block], clock, c)
    ensures Reached(s, exits + [e], clock, c) == AfterRound(Reached(s, exits, clock, c), e, Tick(clock, |exits| + 1), c)
  {
    hide Departs, Made, AfterRound;
    assert (exits + [e])[..|exits|] == exits;
    assert (blocks + [block])[..|blocks|] == blocks;
  }

  /** The last round of a pass. */
  lemma LastRound(s: State, exits: seq<Exit>, blocks: seq<Block>, clock: nat -> nat, c: Setting)
    requires Ran(s, exits, blocks, clock, c) && exits != []
    ensures var n := |exits| - 1;
            var e, t := exits[n], Reached(s, exits[..n], clock, c);
            && Ran(s, exits[..n], Earlier(exits, blocks), clock, c)
            && Departs(t, e, Tick(clock, n), Tick(clock, n + 1), c)
            && (e.parts > 0 ==> blocks != [] && Made(t, e, blocks[|blocks| - 1], c))
            && Reached(s, exits, clock, c) == AfterRound(t, e, Tick(clock, n + 1), c)
  {
    hide Departs, Made, AfterRound;
  }

  /** Every packet that leaves does so by the rules, from the state then reached. */
  lemma {:induction false} RanAt(s: State, exits: seq<Exit>, blocks: seq<Block>, clock: nat -> nat, c: Setting, k: nat)
    requires Ran(s, exits, blocks, clock, c) && k < |exits|
    ensures Departs(Reached(s, exits[..k], clock, c), exits[k], Tick(clock, k), Tick(clock, k + 1), c)
    decreases |exits|
  {
    hide Departs, Made, Reached, AfterRound, Ran;
    var n := |exits| - 1;
    LastRound(s, exits, blocks, clock, c);
    if k < n {
      assert exits[..n][..k] == exits[..k];
      RanAt(s, exits[..n], Earlier(exits, blocks), clock, c, k);
    }
  }

  // ----- which packets leave ------------------------------------------------------------------

  predicate TakesSlot(e: Exit, i: nat, size: nat) {
    e.slot < size && (i == e.slot || (e.parts == 2 && i == (e.slot + 1) % size))
  }

  ghost predicate Takes(exits: seq<Exit>, i: nat, size: nat) {
    exists k :: 0 <= k < |exits| && TakesSlot(exits[k], i, size)
  }

  /** The ring `was` less exactly the packets that left. */
  ghost predicate Remains(was: seq<Slot>, q: seq<Slot>, exits: seq<Exit>) {
    |q| == |was| && forall i :: 0 <= i < |q| ==> q[i] == if Takes(exits, i, |was|) then Vacant else was[i]
  }

  lemma {:induction false} LeavesTheRest(s: State, exits: seq<Exit>, clock: nat -> nat, c: Setting)
    ensures Remains(s.q, Reached(s, exits, clock, c).q, exits)
    decreases |exits|
  {
    if exits != [] {
      hide AfterRound, Takes, TakesSlot;
      var n := |exits| - 1;
      var t, q := Reached(s, exits[..n], clock, c), Reached(s, exits, clock, c).q;
      LeavesTheRest(s, exits[..n], clock, c);
      RingAfter(t, exits[n], Tick(clock, n + 1), c);
      forall i | 0 <= i < |q| ensures q[i] == if Takes(exits, i, |s.q|) then Vacant else s.q[i] {
        TakesOneMore(exits, i, |s.q|);
        assert t.q[i] == if Takes(exits[..n], i, |s.q|) then Vacant else s.q[i];
      }
    }
  }

  lemma RingAfter(s: State, e: Exit, now: nat, c: Setting)
    ensures var q := AfterRound(s, e, now, c).q;
            |q| == |s.q| && forall i :: 0 <= i < |q| ==> q[i] == if TakesSlot(e, i, |s.q|) then Vacant else s.q[i]
  {
  }

  lemma TakesOneMore(exits: seq<Exit>, i: nat, size: nat)
    requires exits != []
    ensures var n := |exits| - 1;
            Takes(exits, i, size) <==> Takes(exits[..n], i, size) || TakesSlot(exits[n], i, size)
  {
    hide TakesSlot;
    var n := |exits| - 1;
    if Takes(exits, i, size) {
      var k :| 0 <= k < |exits| && TakesSlot(exits[k], i, size);
      assert k < n ==> exits[..n][k] == exits[k];
    }
    if Takes(exits[..n], i, size) {
      var k :| 0 <= k < n && TakesSlot(exits[..n][k], i, size);
      assert exits[k] == exits[..n][k];
    }
  }

  lemma Prefix(s: State, exits: seq<Exit>, clock: nat -> nat, c: Setting, k: nat, i: nat)
    requires k <= |exits| && i < |s.q|
    ensures var q := Reached(s, exits[..k], clock, c).q;
            |q| == |s.q| && (q[i].Held? ==> q[i] == s.q[i] && !Takes(exits[..k], i, |s.q|))
  {
    LeavesTheRest(s, exits[..k], clock, c);
  }

  /** No packet leaves twice. */
  lemma LeavesOnce(s: State, exits: seq<Exit>, blocks: seq<Block>, clock: nat -> nat, c: Setting, j: nat, k: nat)
    requires Ran(s, exits, blocks, clock, c) && j < k < |exits|
    ensures !TakesSlot(exits[j], exits[k].slot, |s.q|)
  {
    hide TakesSlot, Ran, Reached, Decide, HasPartner;
    RanAt(s, exits, blocks, clock, c, k);
    LeavesTheRest(s, exits[..k], clock, c);
    Prefix(s, exits, clock, c, k, exits[k].slot);
    assert exits[..k][j] == exits[j];
  }

  // ----- what the blocks are ------------------------------------------------------------------

  /** The packets and pairs handed over, without those dropped. */
  function HandedOut(exits: seq<Exit>): seq<Exit> {
    if exits == [] then []
    else
      var n := |exits| - 1;
      if exits[n].parts == 0 then HandedOut(exits[..n]) else HandedOut(exits[..n]) + [exits[n]]
  }

  /** The block is the packet in that slot of the ring with that number, or the pair. */
  ghost predicate BlockOf(block: Block, e: Exit, q: seq<Slot>, shortSeq: bool) {
    && e.slot < |q| && q[e.slot].Held? && q[e.slot].b.seqNo == e.at % Modulus(shortSeq)
    && block.parts == e.parts && 1 <= e.parts <= 2
    && (e.parts == 2 ==> HasPartner(q, e.slot, shortSeq))
    && block.data == q[e.slot].b.data + (if e.parts == 2 then q[(e.slot + 1) % |q|].b.data else [])
    && block.seqNo == if e.parts == 2 then q[e.slot].b.seqNo / 2 else q[e.slot].b.seqNo
  }

  ghost predicate Delivered(q: seq<Slot>, blocks: seq<Block>, handed: seq<Exit>, shortSeq: bool) {
    |blocks| == |handed| && forall i :: 0 <= i < |blocks| ==> BlockOf(blocks[i], handed[i], q, shortSeq)
  }

  lemma NumberOf(position: nat, seqNo: nat, shortSeq: bool)
    requires seqNo < Modulus(shortSeq)
    ensures (position + 1 + Gap(seqNo, (position + 1) % Modulus(shortSeq), shortSeq)) % Modulus(shortSeq) == seqNo
  {
    var next := (position + 1) % Modulus(shortSeq);
    GapIs(seqNo, next, shortSeq);
    if shortSeq {
      Rest(position + 1, next, seqNo, B16);
    } else {
      Rest(position + 1, next, seqNo, B32);
    }
  }

  lemma Rest(x: nat, next: nat, seqNo: nat, m: nat)
    requires m == B16 || m == B32
    requires next == x % m && seqNo < m
    ensures (x + (if seqNo >= next then seqNo - next else seqNo - next + m)) % m == seqNo
  {
  }

  /** A packet that leaves is one of the ring as it was, and so is its partner. */
  lemma WasHeld(s: State, exits: seq<Exit>, blocks: seq<Block>, clock: nat -> nat, c: Setting, k: nat)
    requires Ran(s, exits, blocks, clock, c) && k < |exits| && Placed(s.q, c.shortSeq)
    ensures var e, q := exits[k], Reached(s, exits[..k], clock, c).q;
            && |q| == |s.q| && e.slot < |q| && q[e.slot].Held? && s.q[e.slot] == q[e.slot]
            && q[e.slot].b.seqNo == e.at % Modulus(c.shortSeq)
            && (HasPartner(q, e.slot, c.shortSeq) ==>
                  HasPartner(s.q, e.slot, c.shortSeq) && s.q[(e.slot + 1) % |q|] == q[(e.slot + 1) % |q|])
  {
    hide Ran, Reached, Decide, Gap, Modulus, FirstAt;
    RanAt(s, exits, blocks, clock, c, k);
    var t, e := Reached(s, exits[..k], clock, c), exits[k];
    LeavesTheRest(s, exits[..k], clock, c);
    Prefix(s, exits, clock, c, k, e.slot);
    Prefix(s, exits, clock, c, k, (e.slot + 1) % |s.q|);
    NumberOf(t.position, t.q[e.slot].b.seqNo, c.shortSeq);
  }

  /** Every block is a packet of the ring as it was, or a pair of partners. */
  lemma {:induction false} BlocksAreHeld(s: State, exits: seq<Exit>, blocks: seq<Block>, clock: nat -> nat, c: Setting)
    requires Ran(s, exits, blocks, clock, c) && Placed(s.q, c.shortSeq)
    ensures Delivered(s.q, blocks, HandedOut(exits), c.shortSeq)
    decreases |exits|
  {
    hide Departs, Made, Placed, HasPartner, Modulus, Reached, AfterRound, BlockOf;
    if exits != [] {
      hide Ran;
      var n, m := |exits| - 1, |blocks| - 1;
      LastRound(s, exits, blocks, clock, c);
      WasHeld(s, exits, blocks, clock, c, n);
      BlocksAreHeld(s, exits[..n], Earlier(exits, blocks), clock, c);
      if exits[n].parts > 0 {
        LastBlock(Reached(s, exits[..n], clock, c), exits[n], blocks[m], s.q, Tick(clock, n), Tick(clock, n + 1), c);
      }
    }
  }

  lemma LastBlock(t: State, e: Exit, block: Block, q: seq<Slot>, before: nat, now: nat, c: Setting)
    requires Departs(t, e, before, now, c) && e.parts > 0 && Made(t, e, block, c) && |t.q| == |q| && t.q[e.slot] == q[e.slot]
    requires q[e.slot].b.seqNo == e.at % Modulus(c.shortSeq)
    requires HasPartner(t.q, e.slot, c.shortSeq) ==>
               HasPartner(q, e.slot, c.shortSeq) && q[(e.slot + 1) % |q|] == t.q[(e.slot + 1) % |q|]
    ensures BlockOf(block, e, q, c.shortSeq)
  {
    hide Decide, Meets, HasPartner, Modulus;
  }

  // ----- order, drops and resets ----------------------------------------------------------------

  /** The numbers leave in strictly increasing order, after `low` and up to `high`. */
  ghost predicate Ascending(exits: seq<Exit>, low: nat, high: nat) {
    && low <= high && (forall i :: 0 <= i < |exits| ==> low < exits[i].at <= high)
    && forall i, j :: 0 <= i < j < |exits| ==> exits[i].at < exits[j].at
  }

  lemma {:induction false} LeavesInOrder(s: State, exits: seq<Exit>, blocks: seq<Block>, clock: nat -> nat, c: Setting)
    requires Ran(s, exits, blocks, clock, c)
    ensures Ascending(exits, s.position, Reached(s, exits, clock, c).position)
    decreases |exits|
  {
    hide Departs, Made, AfterRound;
    if exits != [] {
      hide Ran, Reached;
      var n := |exits| - 1;
      LastRound(s, exits, blocks, clock, c);
      LeavesInOrder(s, exits[..n], Earlier(exits, blocks), clock, c);
      var t := Reached(s, exits[..n], clock, c);
      MovesOn(t, exits[n], Tick(clock, n), Tick(clock, n + 1), c);
      assert forall i :: 0 <= i < n ==> exits[i] == exits[..n][i];
    }
  }

  lemma MovesOn(t: State, e: Exit, before: nat, now: nat, c: Setting)
    requires Departs(t, e, before, now, c)
    ensures t.position < e.at <= AfterRound(t, e, now, c).position
  {
  }

  /** A packet dropped was held for longer than two buffers. */
  ghost predicate DroppedLate(q: seq<Slot>, exits: seq<Exit>, clock: nat -> nat, buffer: nat) {
    forall k :: 0 <= k < |exits| && exits[k].parts == 0 ==>
      var e := exits[k]; e.slot < |q| && q[e.slot].Held? && clock(k + 1) - q[e.slot].b.time > 2 * buffer
  }

  lemma DropsAreLate(s: State, exits: seq<Exit>, blocks: seq<Block>, clock: nat -> nat, c: Setting)
    requires Ran(s, exits, blocks, clock, c) && Placed(s.q, c.shortSeq)
    ensures DroppedLate(s.q, exits, clock, c.buffer)
  {
    hide Ran, Reached, Placed, HasPartner, Modulus;
    forall k | 0 <= k < |exits| && exits[k].parts == 0
      ensures var e := exits[k]; e.slot < |s.q| && s.q[e.slot].Held? && clock(k + 1) - s.q[e.slot].b.time > 2 * c.buffer
    {
      RanAt(s, exits, blocks, clock, c, k);
      WasHeld(s, exits, blocks, clock, c, k);
    }
  }

  /** The last round emptied the ring, with nothing output for more than a buffer. */
  ghost predicate WentIdle(s: State, exits: seq<Exit>, clock: nat -> nat, c: Setting) {
    && exits != [] && Reached(s, exits, clock, c).size == 0
    && (Tick(clock, |exits|) - Reached(s, exits, clock, c).lastOutput) % 0x1_0000_0000_0000_0000 > c.buffer
  }

  /** Packets leaving reset the flow only if the last of them leaves the ring idle. */
  lemma {:induction false} StaysUp(s: State, exits: seq<Exit>, blocks: seq<Block>, clock: nat -> nat, c: Setting)
    requires Ran(s, exits, blocks, clock, c)
    ensures Reached(s, exits, clock, c).hasItems <==> s.hasItems && !WentIdle(s, exits, clock, c)
    decreases |exits|
  {
    hide Departs, Made, AfterRound;
    if exits != [] {
      hide Ran, Reached;
      var n := |exits| - 1;
      LastRound(s, exits, blocks, clock, c);
      StaysUp(s, exits[..n], Earlier(exits, blocks), clock, c);
      UpOrIdle(Reached(s, exits[..n], clock, c), exits[n], Tick(clock, n), Tick(clock, n + 1), c);
    }
  }

  lemma UpOrIdle(t: State, e: Exit, before: nat, now: nat, c: Setting)
    requires Departs(t, e, before, now, c)
    ensures t.size > 0
    ensures var r := AfterRound(t, e, now, c);
            r.hasItems <==> t.hasItems && !(r.size == 0 && (now - r.lastOutput) % 0x1_0000_0000_0000_0000 > c.buffer)
  {
    hide Meets, Decide, Bytes, Counted;
  }

  /** A packet met leaves if it is decided so, whatever has been counted meanwhile. */
  lemma LeavesNow(s: State, t: State, e: Exit, block: Block, before: nat, now: nat, c: Setting)
    requires s.size > 0 && t.q == s.q && t.position == s.position && Meets(t, e.holes, c.shortSeq)
    requires e.slot == (Expected(t, c.shortSeq) % |t.q| + e.holes) % |t.q| && e.slot < |t.q|
    requires t.q[e.slot].Held? && e.at == s.position + 1 + GapBefore(t, e.holes, c.shortSeq)
    requires Decide(e.holes, t.q[e.slot].b, s.tooLate, c.buffer, before, now) == if e.parts == 0 then Drops else Releases
    requires e.parts > 0 ==> e.parts == block.parts && Formed(block, t.q, e.slot, c)
    ensures Departs(s, e, before, now, c) && (e.parts > 0 ==> Formed(block, s.q, e.slot, c))
  {
    hide Decide, HasPartner, FirstAt, Gap;
  }

  lemma IsGone(s: State, r: State, e: Exit, now: nat, c: Setting)
    requires e.slot < |s.q| && r.q == Without(s.q, e.slot, e.parts == 2) && r.size - Bytes(r.q) == s.size - Bytes(s.q)
    requires e.at > s.position && r.position == (if e.parts == 2 then e.at + 1 else e.at)
    requires r.tooLate == (if e.parts == 0 then s.tooLate + 1 else 0) && r.hasItems == s.hasItems
    requires r.lost == s.lost + Counted(e.holes, e.at - s.position - 1, e.parts > 0, Cap(|s.q|, c.shortSeq))
    requires r.flowStart == (s.flowStart && e.parts == 0) && r.lastOutput == if e.parts == 0 then s.lastOutput else now
    ensures r == Gone(s, e, now, c)
  {
    hide Without, Bytes, Counted, Cap;
  }

  lemma EndsEmpty(s: State, before: nat, now: nat, c: Setting)
    requires s.size == 0
    ensures Ends(s, Emptied, before, now, c) && Closed(s, Emptied, c) == s
  {
  }

  /** A packet met ends the pass if it is decided so. */
  lemma EndsHere(s: State, t: State, why: Ending, before: nat, now: nat, c: Setting)
    requires s.size > 0 && t.q == s.q && t.position == s.position && (why.StillEarly? || why.GaveUp?)
    requires Meets(t, why.holes, c.shortSeq)
    requires Decide(why.holes, Met(t, why.holes, c.shortSeq), s.tooLate, c.buffer, before, now)
             == if why.GaveUp? then Resets else Waits
    ensures Ends(s, why, before, now, c)
    ensures Closed(s, why, c) ==
              if why.StillEarly? then s
              else
                var counted := Counted(why.holes, GapBefore(t, why.holes, c.shortSeq), false, Cap(|s.q|, c.shortSeq));
                s.(lost := s.lost + counted, tooLate := 0, hasItems := false)
  {
    hide Decide, FirstAt, Gap;
  }

  lemma EndsBare(s: State, before: nat, now: nat, c: Setting)
    requires s.size > 0 && forall i :: 0 <= i < |s.q| ==> s.q[i].Vacant?
    ensures Ends(s, NoneHeld, before, now, c) && Closed(s, NoneHeld, c) == s.(size := 0, hasItems := false)
  {
  }

  lemma NothingRan(s: State, clock: nat -> nat, c: Setting)
    ensures Ran(s, [], [], clock, c) && Reached(s, [], clock, c) == s
  {
  }

  /** What a finished pass means for the ring, the blocks and the flow. */
  lemma Concluded(s: State, exits: seq<Exit>, blocks: seq<Block>, clock: nat -> nat, c: Setting, why: Ending)
    requires Ran(s, exits, blocks, clock, c) && Placed(s.q, c.shortSeq)
    requires Ends(Reached(s, exits, clock, c), why, Tick(clock, |exits|), Tick(clock, |exits| + 1), c)
    ensures var r := Closed(Reached(s, exits, clock, c), why, c);
            && Ascending(exits, s.position, r.position) && Remains(s.q, r.q, exits)
            && (r.hasItems <==> s.hasItems && !why.GaveUp? && !why.NoneHeld? && !WentIdle(s, exits, clock, c))
    ensures Delivered(s.q, blocks, HandedOut(exits), c.shortSeq) && DroppedLate(s.q, exits, clock, c.buffer)
  {
    hide Ran, Reached, Placed, Ascending, Remains, WentIdle, Delivered, DroppedLate, Decide;
    LeavesInOrder(s, exits, blocks, clock, c);
    LeavesTheRest(s, exits, clock, c);
    StaysUp(s, exits, blocks, clock, c);
    BlocksAreHeld(s, exits, blocks, clock, c);
    DropsAreLate(s, exits, blocks, clock, c);
  }

  lemma PastLater(q: seq<Slot>, before: nat, now: nat)
    requires Past(q, before) && before <= now
    ensures Past(q, now)
  {
  }

  lemma RemainsPast(was: seq<Slot>, q: seq<Slot>, exits: seq<Exit>, now: nat)
    requires Remains(was, q, exits) && Past(was, now)
    ensures Past(q, now)
  {
  }

  // ----- how far the reader travels -------------------------------------------------------------

  /** Packets handed over in all. */
  function Parts(blocks: seq<Block>): nat {
    if blocks == [] then 0 else Parts(blocks[..|blocks| - 1]) + blocks[|blocks| - 1].parts
  }

  lemma MoreParts(blocks: seq<Block>, block: Block)
    ensures Parts(blocks + [block]) == Parts(blocks) + block.parts
  {
    assert (blocks + [block])[..|blocks|] == blocks;
  }

  lemma {:induction false} PartsAdd(some: seq<Block>, more: seq<Block>)
    ensures Parts(some + more) == Parts(some) + Parts(more)
  {
    if more == [] {
      assert some + more == some;
    } else {
      var n := |more| - 1;
      PartsAdd(some, more[..n]);
      assert more == more[..n] + [more[n]];
      assert some + more == (some + more[..n]) + [more[n]];
      MoreParts(some + more[..n], more[n]);
    }
  }

  /** What a packet's gap adds to the travel without being counted as lost. */
  function Hidden(t: State, e: Exit, c: Setting): int {
    var gap := if e.at > t.position then e.at - t.position - 1 else 0;
    e.at - t.position - 1 - Counted(e.holes, gap, e.parts > 0, Cap(|t.q|, c.shortSeq))
  }

  /** And all the gaps of a run. */
  function AllHidden(s: State, exits: seq<Exit>, clock: nat -> nat, c: Setting): int {
    if exits == [] then 0
    else
      var n := |exits| - 1;
      AllHidden(s, exits[..n], clock, c) + Hidden(Reached(s, exits[..n], clock, c), exits[n], c)
  }

  /** The distance travelled in a run is made up of the packets handed over, the packets
      dropped, the numbers counted as lost, and those in gaps that are not counted. */
  lemma {:induction false} Travels(s: State, exits: seq<Exit>, blocks: seq<Block>, clock: nat -> nat, c: Setting)
    requires Ran(s, exits, blocks, clock, c)
    ensures var r := Reached(s, exits, clock, c);
            r.position - s.position == Parts(blocks) + (|exits| - |blocks|) + (r.lost - s.lost) + AllHidden(s, exits, clock, c)
    decreases |exits|
  {
    if exits == [] {
    } else {
      hide *;
      var n, block := |exits| - 1, LastOne(blocks);
      var t := Reached(s, exits[..n], clock, c);
      LastRound(s, exits, blocks, clock, c);
      Travels(s, exits[..n], Earlier(exits, blocks), clock, c);
      OneRoundOn(t, exits[n], block, Tick(clock, n), Tick(clock, n + 1), c);
      LastParts(exits, blocks);
      LastHidden(s, exits, clock, c);
    }
  }

  function LastOne(blocks: seq<Block>): (b: Block)
    ensures blocks != [] ==> b == blocks[|blocks| - 1]
  {
    if blocks == [] then Block(0, [], 0, false, false) else blocks[|blocks| - 1]
  }

  lemma LastParts(exits: seq<Exit>, blocks: seq<Block>)
    requires exits != [] && (exits[|exits| - 1].parts > 0 ==> blocks != [])
    ensures var e, some := exits[|exits| - 1], Earlier(exits, blocks);
            && Parts(blocks) == Parts(some) + (if e.parts > 0 then LastOne(blocks).parts else 0)
            && |blocks| == |some| + if e.parts > 0 then 1 else 0
  {
  }

  lemma LastHidden(s: State, exits: seq<Exit>, clock: nat -> nat, c: Setting)
    requires exits != []
    ensures var n := |exits| - 1;
            AllHidden(s, exits, clock, c)
            == AllHidden(s, exits[..n], clock, c) + Hidden(Reached(s, exits[..n], clock, c), exits[n], c)
  {
    hide Hidden, Reached;
  }

  lemma OneRoundOn(t: State, e: Exit, block: Block, before: nat, now: nat, c: Setting)
    requires Departs(t, e, before, now, c) && (e.parts > 0 ==> Made(t, e, block, c))
    ensures var r := AfterRound(t, e, now, c);
            r.position - t.position == (if e.parts > 0 then block.parts else 1) + (r.lost - t.lost) + Hidden(t, e, c)
  {
    hide Meets, Decide, HasPartner, Bytes, Without, Gap;
  }

  // ----- which gaps are hidden ----------------------------------------------------------------------

  /** Every packet is in its slot and at most `limit` numbers ahead, which is less than a
      ring. */
  predicate CloseRing(q: seq<Slot>, next: nat, shortSeq: bool, limit: nat) {
    && RingSize(|q|, shortSeq) && next < Modulus(shortSeq) && Placed(q, shortSeq)
    && limit < |q| && Near(q, next, shortSeq, limit)
  }

  predicate Close(s: State, shortSeq: bool, limit: nat) {
    CloseRing(s.q, Expected(s, shortSeq), shortSeq, limit)
  }

  /** The packets that leave do so behind gaps no wider than the cap. */
  predicate GapsCounted(exits: seq<Exit>, cap: nat) {
    forall k :: 0 <= k < |exits| ==> exits[k].holes <= cap
  }

  lemma CloseIsLive(q: seq<Slot>, next: nat, shortSeq: bool, limit: nat)
    requires CloseRing(q, next, shortSeq, limit)
    ensures Live(q, next, shortSeq)
  {
    hide Gap, Placed, RingSize;
  }

  lemma NextNumber(at: nat, shortSeq: bool)
    ensures (at + 1) % Modulus(shortSeq) == Next(at % Modulus(shortSeq), shortSeq) < Modulus(shortSeq)
  {
    if shortSeq {
      OneOn(at, at / B16, at % B16, B16);
    } else {
      OneOn(at, at / B32, at % B32, B32);
    }
  }

  lemma OneOn(at: nat, q: nat, r: nat, m: nat)
    requires (m == B16 || m == B32) && at == q * m + r && r < m
    ensures (at + 1) % m == if r + 1 == m then 0 else r + 1
  {
    if r + 1 == m {
      assert at + 1 == (q + 1) * m;
    }
  }

  lemma TakeClose(q: seq<Slot>, next: nat, shortSeq: bool, h: nat, limit: nat)
    requires CloseRing(q, next, shortSeq, limit) && FirstAt(q, next % |q|, h)
    ensures var i := (next % |q| + h) % |q|;
            && i < |q| && q[i].Held? && q[i].b.seqNo < Modulus(shortSeq)
            && Gap(q[i].b.seqNo, next, shortSeq) == h <= limit
            && CloseRing(q[i := Vacant], Next(q[i].b.seqNo, shortSeq), shortSeq, limit)
  {
    hide Gap, Next, FirstAt, Live, Placed;
    var i := (next % |q| + h) % |q|;
    CloseIsLive(q, next, shortSeq, limit);
    HolesAreTheGap(q, next, shortSeq, h);
    MetHeld(q, next % |q|, h);
    InRange(q, i, shortSeq);
    NextNumber(q[i].b.seqNo, shortSeq);
    Whole(q[i].b.seqNo, shortSeq);
    TakeKeeps(q, next, shortSeq, h, limit);
  }

  lemma Whole(seqNo: nat, shortSeq: bool)
    requires seqNo < Modulus(shortSeq)
    ensures seqNo % Modulus(shortSeq) == seqNo
  {
  }

  lemma MetHeld(q: seq<Slot>, out: nat, h: nat)
    requires FirstAt(q, out, h)
    ensures (out + h) % |q| < |q| && q[(out + h) % |q|].Held?
  {
  }

  /** A packet, or a pair, at hand is taken out of a close ring. */
  lemma TakeBothClose(q: seq<Slot>, next: nat, shortSeq: bool, h: nat, both: bool, limit: nat)
    requires CloseRing(q, next, shortSeq, limit) && FirstAt(q, next % |q|, h)
    requires var i := (next % |q| + h) % |q|; both ==> i < |q| && q[i].Held? && HasPartner(q, i, shortSeq)
    ensures var i := (next % |q| + h) % |q|;
            && i < |q| && q[i].Held? && Gap(q[i].b.seqNo, next, shortSeq) == h <= limit
            && var after := Next(q[i].b.seqNo, shortSeq);
               CloseRing(Without(q, i, both), if both then Next(after, shortSeq) else after, shortSeq, limit)
  {
    hide Gap, Next, FirstAt, Live, Near, HasPartner;
    var i := (next % |q| + h) % |q|;
    TakeClose(q, next, shortSeq, h, limit);
    if both {
      PartnerNext(q, i, shortSeq);
      TakeClose(q[i := Vacant], Next(q[i].b.seqNo, shortSeq), shortSeq, 0, limit);
    }
  }

  /** The ring stays so, and the packet's gap is counted in full if it is within the cap, and
      hidden in full if it is not. */
  lemma StaysClose(t: State, e: Exit, before: nat, now: nat, c: Setting, limit: nat)
    requires Departs(t, e, before, now, c) && Close(t, c.shortSeq, limit)
    ensures Hidden(t, e, c) == (if e.holes <= (if c.shortSeq then 32768 else |t.q| / 2) then 0 else e.holes) && e.holes <= limit
    ensures Close(AfterRound(t, e, now, c), c.shortSeq, limit) && |AfterRound(t, e, now, c).q| == |t.q|
  {
    hide *;
    DepartsFrom(t, e, before, now, c, limit);
    TakeBothClose(t.q, Expected(t, c.shortSeq), c.shortSeq, e.holes, e.parts == 2, limit);
    CountedOrHidden(t, e, c);
    SeqInRange(t.q, Expected(t, c.shortSeq), e.slot, c.shortSeq, limit);
    NextExpected(t, e, now, c, limit);
    SameSize(t, e, now, c);
  }

  lemma SameSize(t: State, e: Exit, now: nat, c: Setting)
    ensures |AfterRound(t, e, now, c).q| == |t.q|
  {
    hide Bytes, Counted;
  }

  lemma DepartsFrom(t: State, e: Exit, before: nat, now: nat, c: Setting, limit: nat)
    requires Departs(t, e, before, now, c) && Close(t, c.shortSeq, limit)
    ensures CloseRing(t.q, Expected(t, c.shortSeq), c.shortSeq, limit) && |t.q| > 0
    ensures var next := Expected(t, c.shortSeq);
            && FirstAt(t.q, next % |t.q|, e.holes) && e.slot == (next % |t.q| + e.holes) % |t.q| && e.slot < |t.q|
            && t.q[e.slot].Held? && (e.parts == 2 ==> HasPartner(t.q, e.slot, c.shortSeq))
            && e.at == t.position + 1 + Gap(t.q[e.slot].b.seqNo, next, c.shortSeq)
  {
    hide Decide, Gap, FirstAt, CloseRing, HasPartner, Modulus;
  }

  lemma CountedOrHidden(t: State, e: Exit, c: Setting)
    requires e.at == t.position + 1 + e.holes
    ensures Hidden(t, e, c) == if e.holes <= (if c.shortSeq then 32768 else |t.q| / 2) then 0 else e.holes
  {
  }

  lemma NextExpected(t: State, e: Exit, now: nat, c: Setting, limit: nat)
    requires |t.q| > 0 && e.slot < |t.q| && t.q[e.slot].Held? && t.q[e.slot].b.seqNo < Modulus(c.shortSeq)
    requires e.at == t.position + 1 + Gap(t.q[e.slot].b.seqNo, Expected(t, c.shortSeq), c.shortSeq)
    requires var after := Next(t.q[e.slot].b.seqNo, c.shortSeq);
             CloseRing(Without(t.q, e.slot, e.parts == 2), if e.parts == 2 then Next(after, c.shortSeq) else after, c.shortSeq, limit)
    ensures Close(AfterRound(t, e, now, c), c.shortSeq, limit)
  {
    hide *;
    RingThen(t, e, now, c);
    NumberAt(t, e.at, t.q[e.slot].b.seqNo, c.shortSeq);
    NextTwo(e.at, t.q[e.slot].b.seqNo, c.shortSeq);
    CloseIs(AfterRound(t, e, now, c), c.shortSeq, limit);
  }

  lemma NumberAt(t: State, at: nat, seqNo: nat, shortSeq: bool)
    requires seqNo < Modulus(shortSeq) && at == t.position + 1 + Gap(seqNo, Expected(t, shortSeq), shortSeq)
    ensures at % Modulus(shortSeq) == seqNo
  {
    hide Gap, Modulus;
    NumberOf(t.position, seqNo, shortSeq);
  }

  lemma NextTwo(at: nat, seqNo: nat, shortSeq: bool)
    requires seqNo < Modulus(shortSeq) && at % Modulus(shortSeq) == seqNo
    ensures (at + 1) % Modulus(shortSeq) == Next(seqNo, shortSeq)
    ensures (at + 1 + 1) % Modulus(shortSeq) == Next(Next(seqNo, shortSeq), shortSeq)
  {
    hide Next, Modulus;
    NextNumber(at, shortSeq);
    NextNumber(at + 1, shortSeq);
  }

  lemma CloseIs(s: State, shortSeq: bool, limit: nat)
    ensures Close(s, shortSeq, limit) == CloseRing(s.q, Expected(s, shortSeq), shortSeq, limit)
  {
    hide CloseRing, Expected;
  }

  lemma RingThen(t: State, e: Exit, now: nat, c: Setting)
    requires e.slot < |t.q|
    ensures var r := AfterRound(t, e, now, c);
            && r.q == Without(t.q, e.slot, e.parts == 2)
            && Expected(r, c.shortSeq) == (if e.parts == 2 then e.at + 1 + 1 else e.at + 1) % Modulus(c.shortSeq)
  {
    hide Without, Bytes, Counted, Cap, Modulus;
  }

  lemma SeqInRange(q: seq<Slot>, next: nat, i: nat, shortSeq: bool, limit: nat)
    requires CloseRing(q, next, shortSeq, limit) && i < |q| && q[i].Held?
    ensures q[i].b.seqNo < Modulus(shortSeq)
  {
  }

  /** In a run over a ring with every packet less than a ring ahead, gaps are hidden if and
      only if one is wider than the cap. */
  lemma {:induction false} HiddenExactly(s: State, exits: seq<Exit>, blocks: seq<Block>, clock: nat -> nat, c: Setting, limit: nat)
    requires Ran(s, exits, blocks, clock, c) && Close(s, c.shortSeq, limit)
    ensures AllHidden(s, exits, clock, c) >= 0
    ensures AllHidden(s, exits, clock, c) == 0 <==> GapsCounted(exits, if c.shortSeq then 32768 else |s.q| / 2)
    ensures GapsCounted(exits, limit)
    ensures Close(Reached(s, exits, clock, c), c.shortSeq, limit) && |Reached(s, exits, clock, c).q| == |s.q|
    decreases |exits|
  {
    if exits == [] {
    } else {
      hide *;
      var n := |exits| - 1;
      var t := Reached(s, exits[..n], clock, c);
      LastRound(s, exits, blocks, clock, c);
      HiddenExactly(s, exits[..n], Earlier(exits, blocks), clock, c, limit);
      StaysClose(t, exits[n], Tick(clock, n), Tick(clock, n + 1), c, limit);
      LastHidden(s, exits, clock, c);
      LastGap(exits, if c.shortSeq then 32768 else |s.q| / 2);
      LastGap(exits, limit);
    }
  }

  lemma LastGap(exits: seq<Exit>, cap: nat)
    requires exits != []
    ensures var n := |exits| - 1; GapsCounted(exits, cap) <==> GapsCounted(exits[..n], cap) && exits[n].holes <= cap
  {
    var n := |exits| - 1;
    assert forall k :: 0 <= k < n ==> exits[..n][k] == exits[k];
  }

  /** In a run over a ring with nothing farther ahead than the cap no gap is hidden. */
  lemma NothingHidden(s: State, exits: seq<Exit>, blocks: seq<Block>, clock: nat -> nat, c: Setting)
    requires Ran(s, exits, blocks, clock, c) && Close(s, c.shortSeq, if c.shortSeq then 32768 else |s.q| / 2)
    ensures AllHidden(s, exits, clock, c) == 0
  {
    hide *;
    HiddenExactly(s, exits, blocks, clock, c, if c.shortSeq then 32768 else |s.q| / 2);
  }
}
