/** The receiver's reorder ring at work: `receiver_enqueue` and `receiver_output` of
    src/rist-common.c, `empty_receiver_queue` of src/flow.c. */
module Receiver {
  import opened Arith
  import opened Clock
  import opened Pass
  import opened Ring
  import opened SeqNo

  /** How the reader's travel since the last anchor is accounted for, and what became of
      every packet accepted. `position` is the last number output, unwrapped. */
  datatype Ledger = Ledger(origin: nat, position: nat, delivered: nat, dropped: nat, uncounted: nat, overcounted: nat,
                           accepted: nat, left: nat, replaced: nat, cleared: nat, stale: nat)

  /** The account after a packet behind a gap has left, `counted` of the gap as lost. */
  ghost function LedgerAfter(l: Ledger, gap: nat, counted: nat, released: bool): Ledger
    requires counted <= gap
  {
    l.(position := l.position + gap + 1, uncounted := l.uncounted + gap - counted, left := l.left + 1,
       delivered := if released then l.delivered + 1 else l.delivered,
       dropped := if released then l.dropped else l.dropped + 1)
  }

  /** The account after a packet was taken. */
  ghost function OneMore(was: Ledger, became: Ledger): Ledger {
    was.(accepted := was.accepted + 1, replaced := became.replaced, stale := became.stale)
  }

  /** The account begun by a packet. */
  ghost function NewAccount(was: Ledger, became: Ledger): Ledger {
    was.(origin := became.origin, position := became.origin, delivered := 0, dropped := 0, uncounted := 0, overcounted := 0,
         accepted := became.accepted, replaced := became.replaced, cleared := became.cleared, stale := became.stale)
  }

  /** Apart from a reset the account is not touched before a packet leaves. */
  ghost predicate LedgerKept(was: Ledger, became: Ledger, reset: bool) {
    if reset then became == was.(stale := became.stale, overcounted := became.overcounted) else became == was
  }

  /** The account after a packet, or a pair, was handed over. */
  ghost function Handed(l: Ledger, gap: nat, counted: nat, both: bool): Ledger
    requires counted <= gap
  {
    if both then LedgerAfter(LedgerAfter(l, gap, counted, true), 0, 0, true) else LedgerAfter(l, gap, counted, true)
  }

  /** The reader moved to `at`, with `parts` packets handed over or one dropped there. */
  ghost predicate Moved(was: Ledger, became: Ledger, at: nat, parts: nat) {
    && became.position == (if parts == 2 then at + 1 else at)
    && became.delivered == was.delivered + parts && became.dropped == was.dropped + (if parts == 0 then 1 else 0)
    && became.left == was.left + (if parts == 0 then 1 else parts)
    && became.overcounted == was.overcounted && became.origin == was.origin && became.accepted == was.accepted
  }

  /** The account of the blocks handed over, and of the packets dropped, since `was`. */
  ghost predicate HandedOver(was: Ledger, l: Ledger, blocks: seq<Block>, exits: seq<Exit>) {
    && l.delivered == was.delivered + Parts(blocks) && l.dropped == was.dropped + |exits| - |blocks|
    && l.left == was.left + Parts(blocks) + |exits| - |blocks| && l.accepted == was.accepted
  }

  lemma NothingHanded(was: Ledger)
    ensures HandedOver(was, was, [], [])
  {
  }

  lemma HandedAtEnd(was: Ledger, before: Ledger, l: Ledger, blocks: seq<Block>, exits: seq<Exit>, reset: bool)
    requires HandedOver(was, before, blocks, exits) && LedgerKept(before, l, reset)
    ensures HandedOver(was, l, blocks, exits) && l.uncounted == before.uncounted
  {
  }

  lemma OneHanded(was: Ledger, before: Ledger, l: Ledger, blocks: seq<Block>, exits: seq<Exit>, e: Exit, block: Block)
    requires HandedOver(was, before, blocks, exits) && Moved(before, l, e.at, e.parts)
    requires e.parts > 0 ==> block.parts == e.parts
    ensures HandedOver(was, l, if e.parts == 0 then blocks else blocks + [block], exits + [e])
  {
    MoreParts(blocks, block);
  }

  lemma PositionAfter(position: nat, next: nat, seqNo: nat, shortSeq: bool)
    requires next == (position + 1) % Modulus(shortSeq) && seqNo < Modulus(shortSeq)
    ensures Next(seqNo, shortSeq) == (position + Gap(seqNo, next, shortSeq) + 2) % Modulus(shortSeq)
  {
    hide Gap, Next, Modulus;
    NumberOf(position, seqNo, shortSeq);
    NextNumber(position + 1 + Gap(seqNo, next, shortSeq), shortSeq);
  }

  /** A packet more than a buffer behind the newest source time is no baseline, until waiting
      for a better one has lasted a whole buffer. */
  predicate MustWait(sourceTime: nat, maxSourceTime: nat, buffer: nat, waitingSince: nat, now: nat) {
    && maxSourceTime != 0 && buffer != 0 && sourceTime + buffer < maxSourceTime
    && !(waitingSince != 0 && now - waitingSince >= buffer)
  }

  datatype Reanchor = Baseline | Forced | Wait

  /** `rist_flow_reanchor_check`. */
  method ReanchorCheck(sourceTime: nat, maxSourceTime: nat, buffer: nat, waitingSince: nat, now: nat) returns (r: Reanchor)
    ensures r.Wait? <==> MustWait(sourceTime, maxSourceTime, buffer, waitingSince, now)
    ensures r.Forced? ==> waitingSince != 0 && now - waitingSince >= buffer && sourceTime + buffer < maxSourceTime
  {
    if maxSourceTime == 0 || buffer == 0 {
      return Baseline;
    }
    if sourceTime + buffer >= maxSourceTime {
      return Baseline;
    }
    if waitingSince != 0 && now - waitingSince >= buffer {
      return Forced;
    }
    return Wait;
  }

  class Flow {
    const shortSeq: bool
    const queueMax: nat
    const recoveryBufferTicks: nat
    const queue: array<Slot>
    var outputIdx: nat
    var queueSize: nat
    var lastSeqOutput: nat
    var lastSeqFound: nat
    var hasItems: bool
    var flowStart: bool
    var tooLateCtr: nat
    var lastOutputTime: nat
    var lost: nat
    var received: nat
    var droppedLate: nat
    var droppedFull: nat
    var maxSourceTime: nat
    var reanchorWaitSince: nat
    ghost var ledger: Ledger

    /** The number the reader expects. */
    ghost function Expected(): nat
      reads this`lastSeqOutput
    {
      Next(lastSeqOutput, shortSeq)
    }

    /** The travel is made up of packets delivered, packets dropped as too late, numbers
        counted as lost, and numbers in gaps too wide to be counted; `ahead` of the losses
        are counted for a gap not yet travelled. */
    ghost predicate Balanced(ahead: nat)
      reads this`lost, this`ledger
    {
      ledger.position + ledger.overcounted + ahead
      == ledger.origin + ledger.delivered + ledger.dropped + lost + ledger.uncounted
    }

    ghost predicate Conserved()
      reads this`queueSize, this`ledger, queue
    {
      && queueSize == Bytes(queue[..]) + ledger.stale
      && ledger.accepted == Count(queue[..]) + ledger.left + ledger.replaced + ledger.cleared
    }

    ghost predicate Sound()
      reads this`queueSize, this`ledger, this`lastSeqOutput, this`outputIdx, queue
    {
      && RingSize(queueMax, shortSeq) && queue.Length == queueMax && Placed(queue[..], shortSeq)
      && lastSeqOutput < B32 && outputIdx == Expected() % queueMax
      && Expected() == (ledger.position + 1) % Modulus(shortSeq)
      && Conserved()
    }

    /** What every operation keeps: every packet in its slot, the reader's slot that of the
        number it expects, and both accounts in order. */
    ghost predicate Valid()
      reads this, queue
    {
      Sound() && Balanced(0)
    }

    /** Every packet is at most `limit` numbers ahead of the reader. */
    ghost predicate NearRing(limit: nat)
      reads this`lastSeqOutput, queue
    {
      Near(queue[..], Expected(), shortSeq, limit)
    }

    ghost predicate LiveRing()
      reads this`lastSeqOutput, queue
    {
      Live(queue[..], Expected(), shortSeq)
    }

    constructor (shortSeq: bool, queueMax: nat, recoveryBufferTicks: nat)
      requires RingSize(queueMax, shortSeq)
      ensures Valid() && LiveRing() && !hasItems && queueSize == maxSourceTime == reanchorWaitSince == 0 && fresh(queue)
      ensures this.shortSeq == shortSeq && this.queueMax == queueMax && this.recoveryBufferTicks == recoveryBufferTicks
    {
      this.shortSeq, this.queueMax, this.recoveryBufferTicks := shortSeq, queueMax, recoveryBufferTicks;
      queue := new Slot[queueMax](_ => Vacant);
      outputIdx, queueSize, lastSeqOutput, lastSeqFound := 1 % queueMax, 0, 0, 0;
      hasItems, flowStart, tooLateCtr, lastOutputTime := false, false, 0, 0;
      lost, received, droppedLate, droppedFull, maxSourceTime, reanchorWaitSince := 0, 0, 0, 0, 0, 0;
      ledger := Ledger(0, 0, 0, 0, 0, 0, 0, 0, 0, 0, 0);
      new;
      AllVacant(queue[..]);
    }

    /** Looking for the first packet from the reader's slot on. */
    method FindFirst() returns (holes: nat, counter: nat)
      requires Sound()
      ensures holes <= queueMax
      ensures holes == queueMax ==> forall i :: 0 <= i < queueMax ==> queue[i].Vacant?
      ensures holes < queueMax ==> counter == (outputIdx + holes) % queueMax && FirstAt(queue[..], outputIdx, holes)
    {
      hide Flow.Sound;
      Reader();
      counter, holes := outputIdx, 0;
      ghost var q := queue[..];
      while queue[counter].Vacant?
        invariant holes < queueMax && counter == (outputIdx + holes) % queueMax && counter < queueMax
        invariant forall i :: 0 <= i < holes ==> At(q, outputIdx, i).Vacant?
        decreases queueMax - holes
      {
        assert At(q, outputIdx, holes).Vacant?;
        StepOn(outputIdx, holes, queueMax);
        counter := (counter + 1) % queueMax;
        holes := holes + 1;
        if counter == outputIdx {
          FullTurn(q, outputIdx, holes);
          return queueMax, counter;
        }
        NotBack(outputIdx, holes, queueMax);
      }
    }

    /** Taking a packet out and moving the reader behind it. */
    method Leave(idx: nat, ghost holes: nat, ghost released: bool, ghost counted: nat, ghost limit: nat)
      requires Sound() && Balanced(counted) && FirstAt(queue[..], outputIdx, holes) && idx == (outputIdx + holes) % queueMax
      requires counted <= Gap(queue[idx].b.seqNo, Expected(), shortSeq)
      modifies this`queueSize, this`lastSeqOutput, this`outputIdx, this`ledger, queue
      ensures Valid() && queue[..] == old(queue[..])[idx := Vacant]
      ensures lastSeqOutput == old(queue[idx].b.seqNo) && outputIdx == (idx + 1) % queueMax
      ensures ledger == LedgerAfter(old(ledger), Gap(lastSeqOutput, old(Expected()), shortSeq), counted, released)
      ensures old(LiveRing()) ==> LiveRing()
      ensures old(LiveRing()) && old(NearRing(limit)) ==> NearRing(limit)
    {
      hide RingSize, Placed, Live, Near, FirstAt, Gap, Next;
      ghost var q := queue[..];
      Bounds(q, outputIdx, holes);
      var b := queue[idx].b;
      TakeKeeps(q, Expected(), shortSeq, holes, limit);
      PositionAfter(ledger.position, Expected(), b.seqNo, shortSeq);
      Replace(q, idx, Vacant);
      ledger := LedgerAfter(ledger, Gap(b.seqNo, Expected(), shortSeq), counted, released);
      lastSeqOutput := b.seqNo;
      queueSize := queueSize - |b.data|;
      queue[idx] := Vacant;
      outputIdx := (idx + 1) % queueMax;
      assert queue[..] == q[idx := Vacant];
    }

    lemma Bounds(q: seq<Slot>, out: nat, holes: nat)
      requires RingSize(queueMax, shortSeq) && |q| == queueMax && Placed(q, shortSeq) && FirstAt(q, out, holes)
      ensures var i := (out + holes) % queueMax;
              i < queueMax && q[i].Held? && q[i].b.seqNo < Modulus(shortSeq) <= B32
      ensures Expected() < Modulus(shortSeq) && queueMax >= 2
    {
    }

    /** Judging the packet met, behind a gap of `gap` numbers, which is counted as lost at
        once if there are holes. */
    method Judge(b: Buffer, holes: nat, gap: nat, before: nat, now: nat) returns (v: Verdict, counted: nat)
      requires Valid() && before <= now && (holes == 0 ==> (gap > 0 <==> b.seqNo != Expected()))
      modifies this`lost, this`tooLateCtr, this`hasItems, this`ledger
      ensures Sound() && v == Decide(holes, b, old(tooLateCtr), recoveryBufferTicks, before, now)
      ensures counted == if v.Waits? then 0 else Counted(holes, gap, v.Releases?, Cap(queueMax, shortSeq))
      ensures ledger == if v.Resets? then old(ledger).(overcounted := old(ledger).overcounted + counted) else old(ledger)
      ensures Balanced(if v.Resets? then 0 else counted) && lost == old(lost) + counted && hasItems == (old(hasItems) && !v.Resets?)
      ensures tooLateCtr == if v.Waits? then old(tooLateCtr) else if v.Drops? then old(tooLateCtr) + 1 else 0
    {
      hide Flow.Sound, Next;
      counted := 0;
      if holes > 0 {
        if before - b.time > 2 * recoveryBufferTicks {
        } else if b.targetOutputTime > before {
          return Waits, 0;
        }
        var maxHoles := if shortSeq then 65536 / 2 else queueMax / 2;
        if gap <= maxHoles {
          lost := lost + gap;
          counted := gap;
        }
      }
      if (now - b.time) * 10 > recoveryBufferTicks * 11 {
        if now - b.time > 2 * recoveryBufferTicks {
          tooLateCtr := tooLateCtr + 1;
          if tooLateCtr > 100 {
            GiveUp(counted);
            return Resets, counted;
          }
          return Drops, counted;
        }
      } else if b.targetOutputTime > now {
        return Waits, 0;
      }
      tooLateCtr := 0;
      if b.seqNo != Next(lastSeqOutput, shortSeq) && holes == 0 {
        lost := lost + 1;
        counted := 1;
      }
      return Releases, counted;
    }

    /** Looking at the first packet: is it to wait, to be dropped or to be released? What
        the gap before it counts as lost is `counted`, unless it waits. */
    method Look(before: nat, now: nat) returns (v: Verdict, holes: nat, idx: nat, counted: nat)
      requires Valid() && Past(queue[..], before) && before <= now
      modifies this`lost, this`tooLateCtr, this`hasItems, this`queueSize, this`ledger
      ensures Sound() && LedgerKept(old(ledger), ledger, v.Resets?) && Balanced(if v.Resets? then 0 else counted)
      ensures holes >= queueMax ==>
        v.Resets? && ledger.overcounted == old(ledger.overcounted) && forall i :: 0 <= i < queueMax ==> queue[i].Vacant?
      ensures holes < queueMax ==>
        Found(holes, idx) && v == Decide(holes, queue[idx].b, old(tooLateCtr), recoveryBufferTicks, before, now)
      ensures counted == if v.Waits? || holes >= queueMax then 0
                         else Counted(holes, Gap(queue[idx].b.seqNo, Expected(), shortSeq), v.Releases?, Cap(queueMax, shortSeq))
      ensures lost == old(lost) + counted && queueSize == (if holes >= queueMax then 0 else old(queueSize))
      ensures 0 < holes < queueMax && !v.Waits? ==>
        var gap := Gap(queue[idx].b.seqNo, Expected(), shortSeq);
        lost == old(lost) + if gap <= (if shortSeq then 32768 else queueMax / 2) then gap else 0
      ensures holes == 0 ==>
        lost == old(lost) + if v.Releases? && queue[idx].b.seqNo != Expected() then 1 else 0
      ensures hasItems == (old(hasItems) && !v.Resets?)
      ensures tooLateCtr == if v.Waits? || holes >= queueMax then old(tooLateCtr) else if v.Drops? then old(tooLateCtr) + 1 else 0
    {
      hide Flow.Sound, Placed, FirstAt, Gap, Next, Decide, Counted;
      holes, idx := FindFirst();
      if holes == queueMax {
        ForgetStale();
        return Resets, holes, idx, 0;
      }
      Bounded(holes, idx);
      var gap := Gap(queue[idx].b.seqNo, Next(lastSeqOutput, shortSeq), shortSeq);
      NoGap(queue[idx].b.seqNo, Expected(), shortSeq);
      v, counted := Judge(queue[idx].b, holes, gap, before, now);
      WhatCounts(holes, gap, v.Releases?, queueMax, shortSeq);
    }

    lemma Bounded(holes: nat, idx: nat)
      requires Sound() && FirstAt(queue[..], outputIdx, holes) && idx == (outputIdx + holes) % queueMax
      ensures queueMax > 0 && idx < queue.Length && queue[idx].Held? && queue[idx].b.seqNo < Modulus(shortSeq)
      ensures Expected() < Modulus(shortSeq)
    {
      Bounds(queue[..], outputIdx, holes);
    }

    /** An empty ring that claims bytes is reset. */
    method ForgetStale()
      requires Sound() && forall i :: 0 <= i < queueMax ==> queue[i].Vacant?
      modifies this`hasItems, this`queueSize, this`ledger
      ensures Sound() && !hasItems && queueSize == 0 && ledger == old(ledger).(stale := 0)
    {
      NothingHeld();
      hasItems := false;
      queueSize := 0;
      ledger := ledger.(stale := 0);
    }

    /** Too many packets too late: the flow is reset before the reader moves. */
    method GiveUp(ghost counted: nat)
      requires Sound()
      modifies this`hasItems, this`tooLateCtr, this`ledger
      ensures Sound() && !hasItems && tooLateCtr == 0
      ensures ledger == old(ledger).(overcounted := old(ledger).overcounted + counted)
    {
      tooLateCtr := 0;
      hasItems := false;
      ledger := ledger.(overcounted := ledger.overcounted + counted);
    }

    /** The first packet met is `holes` slots past the reader's, in slot `idx`. */
    ghost predicate Found(holes: nat, idx: nat)
      reads this`outputIdx, queue
    {
      queueMax > 0 && FirstAt(queue[..], outputIdx, holes) && idx == (outputIdx + holes) % queueMax
      && idx < queue.Length && queue[idx].Held?
    }

    lemma NothingHeld()
      requires queue.Length == queueMax && forall i :: 0 <= i < queueMax ==> queue[i].Vacant?
      ensures Bytes(queue[..]) == 0 && Count(queue[..]) == 0
    {
      AllVacant(queue[..]);
    }

    /** The block made of the packet at `idx`, merged with its other half where merging is
        on and the half is there. */
    method FormBlock(idx: nat, holes: nat, mergeActive: bool) returns (block: Block)
      requires Sound() && Found(holes, idx)
      modifies this`flowStart
      ensures Formed(block, queue[..], idx, Settings(mergeActive))
      ensures block.discontinuity <==> queue[idx].b.seqNo != Expected()
      ensures block.flowStart == old(flowStart) && !flowStart
    {
      hide Flow.Sound, Placed, FirstAt, Next;
      Narrow(holes, idx);
      var b := queue[idx].b;
      var next := Next(lastSeqOutput, shortSeq);
      var discontinuity := holes > 0 || b.seqNo != next;
      var partner := queue[(idx + 1) % queueMax];
      if mergeActive && b.seqNo % 2 == 0 && partner.Held? && partner.b.seqNo == Next(b.seqNo, shortSeq)
         && partner.b.sourceTime == b.sourceTime {
        block := Block(b.seqNo / 2, b.data + partner.b.data, 2, discontinuity, flowStart);
      } else {
        block := Block(b.seqNo, b.data, 1, discontinuity, flowStart);
      }
      flowStart := false;
    }

    /** Moving the reader behind what was handed over. */
    method Depart(idx: nat, both: bool, ghost holes: nat, ghost counted: nat, ghost limit: nat)
      requires Sound() && Balanced(counted) && Found(holes, idx) && (both ==> HasPartner(queue[..], idx, shortSeq))
      requires counted <= Gap(queue[idx].b.seqNo, Expected(), shortSeq)
      modifies this`queueSize, this`lastSeqOutput, this`outputIdx, this`ledger, queue
      ensures Valid() && queue[..] == Without(old(queue[..]), idx, both)
      ensures ledger == Handed(old(ledger), Gap(old(queue[idx].b.seqNo), old(Expected()), shortSeq), counted, both)
      ensures old(LiveRing()) ==> LiveRing()
      ensures old(LiveRing()) && old(NearRing(limit)) ==> NearRing(limit)
    {
      hide Flow.Sound, Flow.LiveRing, Flow.NearRing, Placed, FirstAt, Gap, Next;
      Narrow(holes, idx);
      Bounded(holes, idx);
      ghost var partner := queue[(idx + 1) % queueMax];
      Leave(idx, holes, true, counted, limit);
      if both {
        NextExpected(partner.b.seqNo);
        AtHand((idx + 1) % queueMax);
        Leave((idx + 1) % queueMax, 0, true, 0, limit);
      }
    }

    lemma NextExpected(seqNo: nat)
      requires Sound() && seqNo == Expected()
      ensures Gap(seqNo, Expected(), shortSeq) == 0
    {
    }

    /** Holes mean a gap. */
    lemma Narrow(holes: nat, idx: nat)
      requires Sound() && Found(holes, idx)
      ensures holes > 0 ==> queue[idx].b.seqNo != Expected()
      ensures queue.Length == queueMax >= 2 && (idx + 1) % queueMax < queueMax && (idx + 1) % queueMax != idx
    {
      hide Next, Flow.Conserved;
      Neighbour(idx, queueMax);
      assert queue[..][idx] == queue[idx];
      if holes > 0 && queue[idx].b.seqNo == Expected() {
        assert idx == outputIdx;
        HolesMove(outputIdx, holes, queueMax);
      }
    }

    lemma AtHand(idx: nat)
      requires Sound() && idx == outputIdx && idx < queueMax && queue[idx].Held?
      ensures FirstAt(queue[..], outputIdx, 0) && idx == (outputIdx + 0) % queueMax
    {
      Small(outputIdx, queueMax);
    }

    /** What a pass reads and changes, and what it depends on. */
    ghost function View(): State
      reads this`queueSize, this`ledger, this`tooLateCtr, this`lost, this`flowStart, this`lastOutputTime, this`hasItems, queue
    {
      State(queue[..], queueSize, ledger.position, tooLateCtr, lost, flowStart, lastOutputTime, hasItems)
    }

    function Settings(merging: bool): Setting {
      Setting(shortSeq, recoveryBufferTicks, merging)
    }

    /** After a packet: an emptied ring ends the pass, and resets the flow if nothing has
        been output for a whole buffer. */
    method EndOfPacket(now: nat) returns (stop: bool)
      requires Valid()
      modifies this`lastOutputTime, this`hasItems
      ensures Valid() && (stop <==> queueSize == 0)
      ensures View() == Rested(old(View()), now, recoveryBufferTicks)
    {
      if queueSize == 0 {
        if lastOutputTime == 0 {
          lastOutputTime := now;
        }
        var delta := (now - lastOutputTime) % B64;
        if delta > recoveryBufferTicks {
          hasItems := false;
        }
        return true;
      }
      lastOutputTime := now;
      return false;
    }

    /** The packet found is the one the pass meets. */
    lemma FoundIsMet(holes: nat, idx: nat)
      requires Sound() && Found(holes, idx)
      ensures Meets(View(), holes, shortSeq) && Met(View(), holes, shortSeq) == queue[idx].b
      ensures GapBefore(View(), holes, shortSeq) == Gap(queue[idx].b.seqNo, Expected(), shortSeq)
      ensures idx == (Pass.Expected(View(), shortSeq) % queueMax + holes) % queueMax
    {
      hide FirstAt, Gap, Next, Placed, Flow.Conserved;
    }

    lemma BytesHeld()
      requires Sound()
      ensures queueSize == Bytes(queue[..]) + ledger.stale
    {
    }

    /** In a live ring no wider than the cap, every gap is counted in full. */
    lemma AllCounted(holes: nat, idx: nat, released: bool, counted: nat)
      requires Sound() && Found(holes, idx)
      requires counted == Counted(holes, Gap(queue[idx].b.seqNo, Expected(), shortSeq), released, Cap(queueMax, shortSeq))
      ensures counted <= Gap(queue[idx].b.seqNo, Expected(), shortSeq)
      ensures LiveRing() && NearRing(Cap(queueMax, shortSeq)) ==> counted == Gap(queue[idx].b.seqNo, Expected(), shortSeq)
    {
      hide Next, Gap, Flow.Conserved;
      assert queue[..][idx] == queue[idx];
      if LiveRing() && NearRing(Cap(queueMax, shortSeq)) {
        HolesAreTheGap(queue[..], Expected(), shortSeq, holes);
      }
      NoGap(queue[idx].b.seqNo, Expected(), shortSeq);
      Narrow(holes, idx);
    }

    /** The packet found leaves the ring, with its other half if it is merged. */
    method TakeOut(released: bool, idx: nat, holes: nat, now: nat, mergeActive: bool, ghost counted: nat)
      returns (block: Block, ghost e: Exit)
      requires Sound() && Balanced(counted) && Found(holes, idx)
      requires counted == Counted(holes, Gap(queue[idx].b.seqNo, Expected(), shortSeq), released, Cap(queueMax, shortSeq))
      modifies this`queueSize, this`lastSeqOutput, this`outputIdx, this`ledger, this`flowStart, this`lastOutputTime, queue
      ensures Valid() && e.holes == holes && e.slot == idx
      ensures e.at == old(ledger.position) + 1 + Gap(old(queue[idx].b.seqNo), old(Expected()), shortSeq)
      ensures e.parts == (if released then block.parts else 0) && queue[..] == Without(old(queue[..]), idx, e.parts == 2)
      ensures released ==>
        && Formed(block, old(queue[..]), idx, Settings(mergeActive)) && 1 <= block.parts <= 2 && block.flowStart == old(flowStart)
        && (block.discontinuity <==> e.at != old(ledger.position) + 1)
      ensures flowStart == (old(flowStart) && !released) && lastOutputTime == if released then now else old(lastOutputTime)
      ensures Moved(old(ledger), ledger, e.at, e.parts) && ledger.stale == old(ledger.stale)
      ensures old(LiveRing()) ==> LiveRing()
      ensures old(LiveRing()) && old(NearRing(Cap(queueMax, shortSeq))) ==>
                NearRing(Cap(queueMax, shortSeq)) && ledger.uncounted == old(ledger.uncounted)
    {
      hide Flow.Sound, Flow.LiveRing, Flow.NearRing, Flow.Balanced, Placed, FirstAt, Gap, Next, HasPartner;
      block := Block(0, [], 0, false, false);
      Bounded(holes, idx);
      Narrow(holes, idx);
      NoGap(queue[idx].b.seqNo, Expected(), shortSeq);
      AllCounted(holes, idx, released, counted);
      ghost var at := ledger.position + 1 + Gap(queue[idx].b.seqNo, Expected(), shortSeq);
      if released {
        lastOutputTime := now;
        block := FormBlock(idx, holes, mergeActive);
        Depart(idx, block.parts == 2, holes, counted, Cap(queueMax, shortSeq));
      } else {
        Leave(idx, holes, false, counted, Cap(queueMax, shortSeq));
      }
      e := Exit(holes, idx, at, if released then block.parts else 0);
    }

    /** The packet met first waits, resets the flow, or is to leave. */
    method Glance(before: nat, now: nat, ghost c: Setting) returns (v: Verdict, h: nat, i: nat, counted: nat, ghost why: Ending)
      requires Valid() && queueSize > 0 && Past(queue[..], before) && before <= now
      requires c.shortSeq == shortSeq && c.buffer == recoveryBufferTicks
      modifies this`lost, this`tooLateCtr, this`hasItems, this`queueSize, this`ledger
      ensures Sound() && LedgerKept(old(ledger), ledger, v.Resets?) && Balanced(if v.Waits? || v.Resets? then 0 else counted)
      ensures v.Waits? || v.Resets? ==>
        && Ends(old(View()), why, before, now, c) && View() == Closed(old(View()), why, c)
        && !why.Emptied? && (v.Waits? <==> why.StillEarly?) && (ledger.overcounted != old(ledger.overcounted) ==> why.GaveUp?)
      ensures v.Drops? || v.Releases? ==>
        && Found(h, i) && v == Decide(h, queue[i].b, old(tooLateCtr), recoveryBufferTicks, before, now)
        && counted == Counted(h, Gap(queue[i].b.seqNo, Expected(), shortSeq), v.Releases?, Cap(queueMax, shortSeq))
        && View() == old(View()).(lost := old(lost) + counted, tooLate := if v.Drops? then old(tooLateCtr) + 1 else 0)
    {
      hide Flow.Sound, Flow.Balanced, Flow.Found, Placed, FirstAt, Gap, Next, Past, Decide, Ends, Closed, Meets, Met, GapBefore,
           Pass.Expected, Counted;
      why := Emptied;
      ghost var s := View();
      Reader();
      v, h, i, counted := Look(before, now);
      assert queue[..] == s.q;
      if v.Waits? || v.Resets? {
        why := if v.Waits? then StillEarly(h) else if h < queueMax then GaveUp(h) else NoneHeld;
        if h < queueMax {
          FoundIsMet(h, i);
          EndsHere(s, View(), why, before, now, c);
        } else {
          assert forall j :: 0 <= j < |s.q| ==> s.q[j] == queue[j];
          EndsBare(s, before, now, c);
        }
      }
    }

    /** One round of the output loop: the packet met first waits, resets the flow, or leaves. */
    method Step(before: nat, now: nat, mergeActive: bool) returns (v: Verdict, block: Block, ghost e: Exit, ghost why: Ending)
      requires Valid() && queueSize > 0 && Past(queue[..], before) && before <= now
      modifies this, queue
      ensures Valid()
      ensures v.Waits? || v.Resets? ==>
        && Ends(old(View()), why, before, now, Settings(mergeActive)) && View() == Closed(old(View()), why, Settings(mergeActive))
        && LedgerKept(old(ledger), ledger, v.Resets?) && !why.Emptied? && (v.Waits? <==> why.StillEarly?)
        && (ledger.overcounted != old(ledger.overcounted) ==> why.GaveUp?)
      ensures v.Drops? || v.Releases? ==>
        && Departs(old(View()), e, before, now, Settings(mergeActive)) && (v.Drops? <==> e.parts == 0)
        && View() == Gone(old(View()), e, now, Settings(mergeActive))
        && Moved(old(ledger), ledger, e.at, e.parts) && Count(queue[..]) < Count(old(queue[..])) && Past(queue[..], before)
      ensures v.Releases? ==> Made(old(View()), e, block, Settings(mergeActive)) && block.parts == e.parts
      ensures old(LiveRing()) ==> LiveRing()
      ensures old(LiveRing()) && old(NearRing(Cap(queueMax, shortSeq))) ==>
                NearRing(Cap(queueMax, shortSeq)) && ledger.uncounted == old(ledger.uncounted)
    {
      hide Flow.Sound, Flow.LiveRing, Flow.NearRing, Flow.Balanced, FirstAt, Gap, Next, HasPartner, Past, Count, Decide, Counted,
           Departs, Ends, Closed, Formed, Meets, Met, GapBefore, Gone, Without, Pass.Expected, RingSize;
      block, e := Block(0, [], 0, false, false), Exit(0, 0, 0, 0);
      ghost var s, c := View(), Settings(mergeActive);
      Reader();
      var h, i, counted;
      v, h, i, counted, why := Glance(before, now, c);
      if v.Waits? || v.Resets? {
        return;
      }
      Narrow(h, i);
      BytesHeld();
      FoundIsMet(h, i);
      ghost var t := View();
      block, e := TakeOut(v.Releases?, i, h, now, mergeActive, counted);
      BytesHeld();
      LeavesNow(s, t, e, block, before, now, c);
      IsGone(s, View(), e, now, c);
      Fewer(t.q, i, e.parts == 2, before);
    }

    /** A round and its end, which stops the pass if the ring is emptied. */
    method Round(before: nat, now: nat, mergeActive: bool)
      returns (v: Verdict, block: Block, ghost e: Exit, ghost why: Ending, stop: bool)
      requires Valid() && queueSize > 0 && Past(queue[..], before) && before <= now
      modifies this, queue
      ensures Valid() && (why.Emptied? ==> (stop <==> queueSize == 0))
      ensures v.Waits? || v.Resets? <==> !why.Emptied?
      ensures !why.Emptied? ==>
        && Ends(old(View()), why, before, now, Settings(mergeActive)) && View() == Closed(old(View()), why, Settings(mergeActive))
        && LedgerKept(old(ledger), ledger, v.Resets?) && (ledger.overcounted != old(ledger.overcounted) ==> why.GaveUp?)
      ensures why.Emptied? ==>
        && Departs(old(View()), e, before, now, Settings(mergeActive)) && (v.Drops? <==> e.parts == 0)
        && View() == AfterRound(old(View()), e, now, Settings(mergeActive))
        && Moved(old(ledger), ledger, e.at, e.parts) && ledger.overcounted == old(ledger.overcounted)
        && Count(queue[..]) < Count(old(queue[..])) && Past(queue[..], before)
      ensures v.Releases? ==> Made(old(View()), e, block, Settings(mergeActive)) && block.parts == e.parts
      ensures old(LiveRing()) ==> LiveRing()
      ensures old(LiveRing()) && old(NearRing(Cap(queueMax, shortSeq))) ==>
                NearRing(Cap(queueMax, shortSeq)) && ledger.uncounted == old(ledger.uncounted)
    {
      hide Flow.Valid, Flow.LiveRing, Flow.NearRing, Past, Count, Ends, Closed, Departs, Made, Gone, Rested;
      v, block, e, why := Step(before, now, mergeActive);
      stop := true;
      if v.Drops? || v.Releases? {
        why := Emptied;
        stop := EndOfPacket(now);
      }
    }

    lemma StartsPlaced()
      requires Valid()
      ensures Placed(queue[..], shortSeq)
    {
    }

    /** `receiver_output`: the blocks handed over, with the packets that left and the reason
        the pass ended. Round by round the first packet met leaves for the reason the clock
        gives; blocks are the packets and pairs of the ring as it was, in strictly increasing
        order, and the ring is left without exactly those handed over and those held for more
        than two buffers; what the reader travelled is what was delivered, dropped, lost, or
        lies in gaps wider than the cap; and a live ring stays live, with no gap uncounted as
        long as nothing is farther ahead than the cap. */
    method Output(clock: nat -> nat, mergeActive: bool)
      returns (blocks: seq<Block>, ghost exits: seq<Exit>, ghost why: Ending)
      requires Valid() && Running(clock) && Past(queue[..], Tick(clock, 0))
      modifies this, queue
      ensures Valid() && Past(queue[..], Tick(clock, 0)) && HandedOver(old(ledger), ledger, blocks, exits)
      ensures Ran(old(View()), exits, blocks, clock, Settings(mergeActive))
      ensures var s := Reached(old(View()), exits, clock, Settings(mergeActive));
              && Ends(s, why, Tick(clock, |exits|), Tick(clock, |exits| + 1), Settings(mergeActive))
              && View() == Closed(s, why, Settings(mergeActive))
      ensures Delivered(old(queue[..]), blocks, HandedOut(exits), shortSeq)
      ensures Ascending(exits, old(ledger.position), ledger.position)
      ensures Remains(old(queue[..]), queue[..], exits) && DroppedLate(old(queue[..]), exits, clock, recoveryBufferTicks)
      ensures hasItems <==>
        old(hasItems) && !why.GaveUp? && !why.NoneHeld? && !WentIdle(old(View()), exits, clock, Settings(mergeActive))
      ensures ledger.overcounted != old(ledger.overcounted) ==> why.GaveUp?
      ensures old(LiveRing()) ==> LiveRing()
      ensures old(LiveRing()) && old(NearRing(Cap(queueMax, shortSeq))) ==>
                NearRing(Cap(queueMax, shortSeq)) && ledger.uncounted == old(ledger.uncounted)
    {
      hide Flow.Valid, Flow.LiveRing, Flow.NearRing, Past, Count, HandedOver, Ran, Reached, Ends, Closed, Departs, Made, Gone,
           Rested, Remains, Delivered, Ascending, DroppedLate, WentIdle, AfterRound, LedgerKept, Moved, Placed, HandedOut;
      blocks, exits, why := [], [], Emptied;
      ghost var was, s, c := ledger, View(), Settings(mergeActive);
      ghost var start := queue[..];
      StartsPlaced();
      var k := 0;
      NothingHanded(was);
      NothingRan(s, clock, c);
      while queueSize > 0
        invariant Valid() && Past(queue[..], Tick(clock, k)) && k == |exits| && HandedOver(was, ledger, blocks, exits)
        invariant Ran(s, exits, blocks, clock, c) && View() == Reached(s, exits, clock, c)
        invariant ledger.overcounted == was.overcounted && why == Emptied
        invariant old(LiveRing()) ==> LiveRing()
        invariant old(LiveRing()) && old(NearRing(Cap(queueMax, shortSeq))) ==>
                    NearRing(Cap(queueMax, shortSeq)) && ledger.uncounted == was.uncounted
        decreases Count(queue[..])
      {
        ghost var before := ledger;
        var v, block, e, ending, stop := Round(Tick(clock, k), Tick(clock, k + 1), mergeActive);
        if v.Waits? || v.Resets? {
          HandedAtEnd(was, before, ledger, blocks, exits, v.Resets?);
          why := ending;
          break;
        }
        OneHanded(was, before, ledger, blocks, exits, e, block);
        RanOn(s, exits, blocks, clock, c, e, block);
        exits := exits + [e];
        if v.Releases? {
          blocks := blocks + [block];
        }
        PastLater(queue[..], Tick(clock, k), Tick(clock, k + 1));
        k := k + 1;
        if stop {
          break;
        }
      }
      if why.Emptied? {
        EndsEmpty(View(), Tick(clock, k), Tick(clock, k + 1), c);
      }
      Concluded(s, exits, blocks, clock, c, why);
      RemainsPast(start, queue[..], exits, Tick(clock, 0));
    }

    /** Putting a packet in its slot. A packet of another number found there is forgotten,
        but its bytes stay counted. */
    method Insert(b: Buffer)
      requires Valid() && b.seqNo < Modulus(shortSeq)
      modifies this`queueSize, this`ledger, queue
      ensures Valid() && queue[..] == old(queue[..])[b.seqNo % queueMax := Held(b)]
      ensures var was := old(queue[..])[b.seqNo % queueMax];
              && queueSize == old(queueSize) + |b.data|
              && ledger == old(ledger).(accepted := old(ledger).accepted + 1,
                                        replaced := old(ledger).replaced + (if was.Held? then 1 else 0),
                                        stale := old(ledger).stale + SizeOf(was))
      ensures old(LiveRing()) ==> (LiveRing() <==> Gap(b.seqNo, Expected(), shortSeq) < queueMax)
      ensures old(NearRing(Cap(queueMax, shortSeq))) && Gap(b.seqNo, Expected(), shortSeq) <= Cap(queueMax, shortSeq) ==>
                NearRing(Cap(queueMax, shortSeq))
    {
      hide Placed, Live, Near, Gap, Next;
      ghost var q := queue[..];
      var idx := b.seqNo % queueMax;
      PutNear(q, Expected(), shortSeq, b, Cap(queueMax, shortSeq));
      if LiveRing() {
        PutKeeps(q, Expected(), shortSeq, b);
      }
      PutPlaced(q, shortSeq, b);
      Replace(q, idx, Held(b));
      ledger := ledger.(accepted := ledger.accepted + 1, replaced := ledger.replaced + (if q[idx].Held? then 1 else 0),
                        stale := ledger.stale + SizeOf(q[idx]));
      queue[idx] := Held(b);
      queueSize := queueSize + |b.data|;
      assert queue[..] == q[idx := Held(b)];
    }

    /** `empty_receiver_queue`: the packets are removed; where every packet has a payload
        the ring is empty afterwards. */
    method Empty()
      requires Valid()
      modifies this`queueSize, this`ledger, queue
      ensures Valid() && ledger == old(ledger).(cleared := ledger.cleared)
      ensures Emptier(old(queue[..]), queue[..])
      ensures forall i :: 0 <= i < queueMax ==> queue[i].Vacant? || queue[i].b.data == []
    {
      hide Flow.Sound, Flow.Balanced, Emptier;
      Reader();
      var counter, n := outputIdx, 0;
      ghost var was := queue[..];
      NoEmptier(was);
      while queueSize > 0
        invariant n < queueMax && counter == (outputIdx + n) % queueMax && counter < queueMax
        invariant Valid() && ledger == old(ledger).(cleared := ledger.cleared) && Emptier(was, queue[..])
        invariant Seen(queue[..], outputIdx, n)
        decreases queueMax - n
      {
        ghost var q := queue[..];
        if queue[counter].Held? {
          Clear(counter);
        }
        assert queue[..] == q[counter := Vacant];
        ClearedOne(was, q, queue[..], outputIdx, n);
        StepOn(outputIdx, n, queueMax);
        counter := (counter + 1) % queueMax;
        n := n + 1;
        if counter == outputIdx {
          FullTurn(queue[..], outputIdx, n);
          return;
        }
        NotBack(outputIdx, n, queueMax);
      }
      Drained();
    }

    lemma Drained()
      requires Valid() && queueSize == 0
      ensures forall i :: 0 <= i < queueMax ==> queue[i].Vacant? || queue[i].b.data == []
    {
      NoBytes(queue[..]);
    }

    method Clear(idx: nat)
      requires Valid() && idx < queueMax && queue[idx].Held?
      modifies this`queueSize, this`ledger, queue
      ensures Valid() && queue[..] == old(queue[..])[idx := Vacant] && ledger == old(ledger).(cleared := old(ledger).cleared + 1)
    {
      hide Gap, Next, RingSize;
      ghost var q := queue[..];
      Replace(q, idx, Vacant);
      queueSize := queueSize - |queue[idx].b.data|;
      queue[idx] := Vacant;
      ledger := ledger.(cleared := ledger.cleared + 1);
      assert queue[..] == q[idx := Vacant];
    }

    /** Moving the reader to just before `seqNo`, which starts a new account. */
    method Rebase(seqNo: nat)
      requires Valid() && seqNo < Modulus(shortSeq)
      modifies this`lastSeqOutput, this`outputIdx, this`lost, this`ledger
      ensures Valid() && Expected() == seqNo && lost == 0
      ensures ledger == old(ledger).(origin := ledger.origin, position := ledger.origin, delivered := 0, dropped := 0,
                                     uncounted := 0, overcounted := 0)
    {
      hide Placed, RingSize, Bytes, Count;
      Reader();
      Rebased(seqNo, shortSeq);
      lastSeqOutput := (seqNo - 1) % B32;
      outputIdx := seqNo % queueMax;
      lost := 0;
      var origin := seqNo + Modulus(shortSeq) - 1;
      ledger := ledger.(origin := origin, position := origin, delivered := 0, dropped := 0, uncounted := 0, overcounted := 0);
    }

    /** Emptying the ring and placing the reader before `seqNo`. */
    method Restart(seqNo: nat, ghost now: nat)
      requires Valid() && seqNo < Modulus(shortSeq) && Past(queue[..], now)
      modifies this`queueSize, this`lastSeqOutput, this`outputIdx, this`lost, this`ledger, queue
      ensures Valid() && Past(queue[..], now) && Expected() == seqNo && lost == 0
      ensures ledger == old(ledger).(origin := ledger.origin, position := ledger.origin, delivered := 0, dropped := 0,
                                     uncounted := 0, overcounted := 0, cleared := ledger.cleared)
      ensures (forall i :: 0 <= i < queueMax && old(queue[..])[i].Held? ==> old(queue[..])[i].b.data != []) ==>
                LiveRing() && forall i :: 0 <= i < queueMax ==> queue[i].Vacant?
    {
      hide Flow.Sound, Flow.Balanced, Flow.LiveRing, Past, Next;
      ghost var was := queue[..];
      Reader();
      if queueSize > 0 {
        Empty();
      } else {
        Drained();
        NoEmptier(was);
      }
      Rebase(seqNo);
      Fresh(was, queue[..], now);
    }

    /** The packet as it is kept. */
    function Arriving(seqNo: nat, data: seq<int>, sourceTime: nat, packetTime: nat, now: nat): Buffer {
      Buffer(seqNo, data, now, packetTime + recoveryBufferTicks, sourceTime)
    }

    /** The first packet after a reset: the ring is emptied and the reader placed before it. */
    method Anchor(seqNo: nat, data: seq<int>, sourceTime: nat, packetTime: nat, now: nat)
      requires Valid() && seqNo < Modulus(shortSeq) && Past(queue[..], now)
      modifies this, queue
      ensures Valid() && Past(queue[..], now) && hasItems && Expected() == lastSeqFound == seqNo
      ensures lost == received == droppedLate == droppedFull == 0 && flowStart && lastOutputTime == tooLateCtr == 0
      ensures ledger == NewAccount(old(ledger), ledger) && ledger.accepted == old(ledger.accepted) + 1
      ensures queue[seqNo % queueMax] == Held(Arriving(seqNo, data, sourceTime, packetTime, now))
      ensures (forall i :: 0 <= i < queueMax && old(queue[..])[i].Held? ==> old(queue[..])[i].b.data != []) ==>
                && LiveRing() && ledger.stale == old(ledger.stale) && ledger.replaced == old(ledger.replaced)
                && forall i :: 0 <= i < queueMax && i != seqNo % queueMax ==> queue[i].Vacant?
    {
      hide Flow.Sound, Flow.Balanced, Flow.LiveRing, Flow.NearRing, Past, Next, Gap;
      ThisSlot(seqNo);
      Restart(seqNo, now);
      ghost var cleared := queue[..];
      var b := Arriving(seqNo, data, sourceTime, packetTime, now);
      Insert(b);
      PutPast(cleared, b, now);
      Begin(seqNo, sourceTime);
    }

    method Begin(seqNo: nat, sourceTime: nat)
      modifies this`flowStart, this`lastSeqFound, this`maxSourceTime, this`reanchorWaitSince, this`lastOutputTime,
               this`tooLateCtr, this`hasItems, this`received, this`droppedLate, this`droppedFull
      ensures flowStart && hasItems && lastSeqFound == seqNo && maxSourceTime == sourceTime && reanchorWaitSince == 0
      ensures lastOutputTime == tooLateCtr == 0 && received == droppedLate == droppedFull == 0
    {
      flowStart, lastSeqFound, maxSourceTime, reanchorWaitSince := true, seqNo, sourceTime, 0;
      lastOutputTime, tooLateCtr, hasItems := 0, 0, true;
      received, droppedLate, droppedFull := 0, 0, 0;
    }

    lemma ThisSlot(seqNo: nat)
      requires Sound() && seqNo < Modulus(shortSeq)
      ensures queue.Length == queueMax > 0 && seqNo % queueMax < queueMax && Gap(seqNo, seqNo, shortSeq) == 0
    {
    }

    /** Where every packet had a payload, an emptied ring is vacant and so live. */
    lemma Fresh(was: seq<Slot>, q: seq<Slot>, now: nat)
      requires Sound() && q == queue[..] && Emptier(was, q) && forall i :: 0 <= i < |q| ==> q[i].Vacant? || q[i].b.data == []
      ensures Past(was, now) ==> Past(q, now)
      ensures (forall i :: 0 <= i < |was| && was[i].Held? ==> was[i].b.data != []) ==>
                LiveRing() && forall i :: 0 <= i < |q| ==> q[i].Vacant?
    {
    }

    /** A packet behind the newest, and not the one expected next, that is too late for the
        buffer. */
    predicate TooOld(seqNo: nat, packetTime: nat, lastPacketTs: nat, lastFound: nat, now: nat) {
      packetTime < lastPacketTs && seqNo != Next(lastFound, shortSeq) && (now - packetTime) * 10 > recoveryBufferTicks * 11
    }

    /** The slot just behind the reader is kept free. */
    predicate BehindReader(seqNo: nat, out: nat)
      requires queueMax > 0
    {
      seqNo % queueMax == (out - 1) % queueMax
    }

    /** The packet in the slot of `seqNo` has that number. */
    predicate IsHeld(q: seq<Slot>, seqNo: nat)
      requires |q| > 0
    {
      q[seqNo % |q|].Held? && q[seqNo % |q|].b.seqNo == seqNo
    }

    /** The age check for a packet behind the newest: too late for the buffer or, if not a
        retransmission, out of order. Too many late packets for those received reset the
        flow. */
    method Age(seqNo: nat, packetTime: nat, lastPacketTs: nat, now: nat, retry: bool) returns (late: bool, outOfOrder: bool)
      modifies this`droppedLate, this`hasItems
      ensures late <==> TooOld(seqNo, packetTime, lastPacketTs, lastSeqFound, now)
      ensures outOfOrder <==> packetTime < lastPacketTs && seqNo != Next(lastSeqFound, shortSeq) && !late && !retry
      ensures droppedLate == old(droppedLate) + (if late then 1 else 0)
      ensures hasItems == (old(hasItems) && !(late && droppedLate > 5 * received))
    {
      late, outOfOrder := false, false;
      if packetTime < lastPacketTs && seqNo != Next(lastSeqFound, shortSeq) {
        if (now - packetTime) * 10 > recoveryBufferTicks * 11 {
          droppedLate := droppedLate + 1;
          if droppedLate > 5 * received {
            hasItems := false;
          }
          if (droppedLate > received * 5 && received > 100) || (droppedLate > 100 && received == 0) {
            hasItems := false;
          }
          return true, false;
        }
        outOfOrder := !retry;
      }
    }

    /** A packet for the slot just behind the reader is dropped as one too many, though it
        counts as found if it is the newest. After a hundred of them the flow is reset. */
    method DropFull(seqNo: nat, packetTime: nat, lastPacketTs: nat)
      modifies this`lastSeqFound, this`droppedFull, this`hasItems
      ensures lastSeqFound == if packetTime > lastPacketTs then seqNo else old(lastSeqFound)
      ensures droppedFull == old(droppedFull) + 1 && hasItems == (old(hasItems) && droppedFull <= 100)
    {
      if packetTime > lastPacketTs {
        lastSeqFound := seqNo;
      }
      droppedFull := droppedFull + 1;
      if droppedFull > 100 {
        hasItems := false;
      }
    }

    /** `receiver_enqueue` for a flow already anchored: 0 for a packet taken, 1 for a
        duplicate, -1 for one dropped; `mark` tells whether missing numbers are to be marked. */
    method Accept(seqNo: nat, data: seq<int>, sourceTime: nat, packetTime: nat, lastPacketTs: nat, now: nat, retry: bool)
      returns (r: int, mark: bool)
      requires Valid() && seqNo < Modulus(shortSeq) && Past(queue[..], now)
      modifies this`droppedLate, this`hasItems, this`lastSeqFound, this`droppedFull, this`received, this`queueSize,
               this`maxSourceTime, this`ledger, queue
      ensures Valid() && Past(queue[..], now)
      ensures r == -1 <==> TooOld(seqNo, packetTime, lastPacketTs, old(lastSeqFound), now) || BehindReader(seqNo, outputIdx)
      ensures r == 1 <==> r != -1 && IsHeld(old(queue[..]), seqNo)
      ensures r == 0 || r == 1 || r == -1
      ensures r != 0 ==>
        queue[..] == old(queue[..]) && queueSize == old(queueSize) && ledger == old(ledger) && received == old(received) && !mark
      ensures r == 0 ==>
        && queue[..] == old(queue[..])[seqNo % queueMax := Held(Arriving(seqNo, data, sourceTime, packetTime, now))]
        && queueSize == old(queueSize) + |data| && received == old(received) + 1
        && ledger == OneMore(old(ledger), ledger)
      ensures old(LiveRing()) ==> (LiveRing() <==> r != 0 || Gap(seqNo, Expected(), shortSeq) < queueMax)
      ensures old(LiveRing()) && Gap(seqNo, Expected(), shortSeq) < queueMax ==>
                ledger.replaced == old(ledger.replaced) && ledger.stale == old(ledger.stale)
      ensures old(NearRing(Cap(queueMax, shortSeq))) && Gap(seqNo, Expected(), shortSeq) <= Cap(queueMax, shortSeq) ==>
                NearRing(Cap(queueMax, shortSeq))
      ensures maxSourceTime == if sourceTime > old(maxSourceTime) then sourceTime else old(maxSourceTime)
      ensures mark <==> r == 0 && !retry && packetTime >= lastPacketTs && Next(old(lastSeqFound), shortSeq) != seqNo
      ensures r == 0 ==> lastSeqFound == if !retry && (packetTime >= lastPacketTs || Next(old(lastSeqFound), shortSeq) == seqNo)
                                         then seqNo else old(lastSeqFound)
      ensures var late := TooOld(seqNo, packetTime, lastPacketTs, old(lastSeqFound), now);
              && droppedLate == old(droppedLate) + (if late then 1 else 0)
              && droppedFull == old(droppedFull) + (if r == -1 && !late then 1 else 0)
              && (r != 0 ==> lastSeqFound == if r == -1 && !late && packetTime > lastPacketTs then seqNo else old(lastSeqFound))
              && hasItems == (old(hasItems) && !(late && droppedLate > 5 * received) && !(r == -1 && !late && droppedFull > 100))
    {
      hide Flow.Sound, Flow.Balanced, Flow.LiveRing, Flow.NearRing, Past, Next, Gap;
      ThisSlot(seqNo);
      Reader();
      mark := false;
      if sourceTime > maxSourceTime {
        maxSourceTime := sourceTime;
      }
      var late, outOfOrder := Age(seqNo, packetTime, lastPacketTs, now, retry);
      if late {
        return -1, false;
      }
      var idx := seqNo % queueMax;
      if idx == (outputIdx - 1) % queueMax {
        DropFull(seqNo, packetTime, lastPacketTs);
        return -1, false;
      }
      NotStale(seqNo);
      if queue[idx].Held? && queue[idx].b.seqNo == seqNo {
        return 1, false;
      }
      mark := Store(Arriving(seqNo, data, sourceTime, packetTime, now), outOfOrder, retry, now);
      r := 0;
    }

    /** The packet is put in its slot and, if it is a first transmission in order, becomes the
        newest found. */
    method Store(b: Buffer, outOfOrder: bool, retry: bool, ghost now: nat) returns (mark: bool)
      requires Valid() && b.seqNo < Modulus(shortSeq) && Past(queue[..], now) && b.time <= now && queueMax > 0
      modifies this`lastSeqFound, this`received, this`queueSize, this`ledger, queue
      ensures Valid() && Past(queue[..], now)
      ensures queue[..] == old(queue[..])[b.seqNo % queueMax := Held(b)] && queueSize == old(queueSize) + |b.data|
      ensures received == old(received) + 1 && ledger == OneMore(old(ledger), ledger)
      ensures var was := old(queue[..])[b.seqNo % queueMax];
              was.Vacant? ==> ledger.replaced == old(ledger.replaced) && ledger.stale == old(ledger.stale)
      ensures old(LiveRing()) ==> (LiveRing() <==> Gap(b.seqNo, Expected(), shortSeq) < queueMax)
      ensures old(NearRing(Cap(queueMax, shortSeq))) && Gap(b.seqNo, Expected(), shortSeq) <= Cap(queueMax, shortSeq) ==>
                NearRing(Cap(queueMax, shortSeq))
      ensures mark <==> !retry && !outOfOrder && Next(old(lastSeqFound), shortSeq) != b.seqNo
      ensures lastSeqFound == if !retry && !outOfOrder then b.seqNo else old(lastSeqFound)
    {
      hide Flow.Sound, Flow.Balanced, Flow.LiveRing, Flow.NearRing, Past, Next, Gap;
      ghost var q := queue[..];
      Reader();
      ThisSlot(b.seqNo);
      Insert(b);
      PutPast(q, b, now);
      received := received + 1;
      mark := false;
      if !retry {
        mark := !outOfOrder && Next(lastSeqFound, shortSeq) != b.seqNo;
        if !outOfOrder {
          lastSeqFound := b.seqNo;
        }
      }
    }

    lemma NotStale(seqNo: nat)
      requires Sound() && seqNo < Modulus(shortSeq)
      ensures queueMax > 0
      ensures LiveRing() && Gap(seqNo, Expected(), shortSeq) < queueMax && queue[seqNo % queueMax].Held? ==>
                queue[seqNo % queueMax].b.seqNo == seqNo
    {
      hide Gap, Next;
      assert queue[..][seqNo % queueMax] == queue[seqNo % queueMax];
      if LiveRing() && Gap(seqNo, Expected(), shortSeq) < queueMax && queue[seqNo % queueMax].Held? {
        NoStaleSlot(queue[..], Expected(), shortSeq, seqNo);
      }
    }

    /** `receiver_enqueue`: a flow without items is anchored by a first transmission that is
        current, or once waiting for one has lasted a whole buffer; otherwise the packet is
        accepted, dropped or a duplicate as `Accept` says. */
    method Enqueue(seqNo: nat, data: seq<int>, sourceTime: nat, packetTime: nat, lastPacketTs: nat, now: nat, retry: bool)
      returns (r: int, mark: bool)
      requires Valid() && seqNo < Modulus(shortSeq) && Past(queue[..], now)
      modifies this, queue
      ensures Valid() && Past(queue[..], now) && (r == 0 || r == 1 || r == -1)
      ensures old(hasItems) ==>
        && (r == -1 <==> TooOld(seqNo, packetTime, lastPacketTs, old(lastSeqFound), now) || BehindReader(seqNo, old(outputIdx)))
        && (r == 1 <==> r != -1 && IsHeld(old(queue[..]), seqNo))
        && queue[..] == (if r != 0 then old(queue[..])
                         else old(queue[..])[seqNo % queueMax := Held(Arriving(seqNo, data, sourceTime, packetTime, now))])
        && (mark <==> r == 0 && !retry && packetTime >= lastPacketTs && Next(old(lastSeqFound), shortSeq) != seqNo)
        && (r == 0 ==> lastSeqFound == if !retry && (packetTime >= lastPacketTs || Next(old(lastSeqFound), shortSeq) == seqNo)
                                       then seqNo else old(lastSeqFound))
        && queueSize == old(queueSize) + (if r != 0 then 0 else |data|)
        && ledger == (if r != 0 then old(ledger) else OneMore(old(ledger), ledger))
        && lost == old(lost) && tooLateCtr == old(tooLateCtr) && flowStart == old(flowStart)
        && lastOutputTime == old(lastOutputTime) && outputIdx == old(outputIdx) && lastSeqOutput == old(lastSeqOutput)
        && maxSourceTime == if sourceTime > old(maxSourceTime) then sourceTime else old(maxSourceTime)
      ensures old(hasItems) && old(LiveRing()) && Gap(seqNo, Expected(), shortSeq) < queueMax ==>
                ledger.replaced == old(ledger.replaced) && ledger.stale == old(ledger.stale)
      ensures old(hasItems && NearRing(Cap(queueMax, shortSeq))) && Gap(seqNo, Expected(), shortSeq) <= Cap(queueMax, shortSeq) ==>
                NearRing(Cap(queueMax, shortSeq))
      ensures old(hasItems) && r != -1 ==> hasItems && droppedLate == old(droppedLate) && droppedFull == old(droppedFull)
      ensures old(hasItems) && old(LiveRing()) ==> (LiveRing() <==> r != 0 || Gap(seqNo, Expected(), shortSeq) < queueMax)
      ensures !old(hasItems) ==>
        (r == 0 <==> !retry && !MustWait(sourceTime, old(maxSourceTime), recoveryBufferTicks, old(reanchorWaitSince), now))
      ensures !old(hasItems) && r == 0 ==>
        && hasItems && Expected() == lastSeqFound == seqNo && lost == received == droppedLate == droppedFull == 0 && !mark
        && queue[seqNo % queueMax] == Held(Arriving(seqNo, data, sourceTime, packetTime, now))
        && flowStart && lastOutputTime == tooLateCtr == 0 && ledger == NewAccount(old(ledger), ledger)
        && ((forall i :: 0 <= i < queueMax && old(queue[..])[i].Held? ==> old(queue[..])[i].b.data != []) ==>
              && LiveRing() && ledger.stale == old(ledger.stale) && ledger.replaced == old(ledger.replaced)
              && forall i :: 0 <= i < queueMax && i != seqNo % queueMax ==> queue[i].Vacant?)
      ensures !old(hasItems) && r != 0 ==>
        && r == -1 && !hasItems && !mark
        && queue[..] == old(queue[..]) && ledger == old(ledger) && lastSeqFound == old(lastSeqFound)
        && reanchorWaitSince == if retry || old(reanchorWaitSince) != 0 then old(reanchorWaitSince) else now
      ensures ledger.accepted == old(ledger.accepted) + if r == 0 then 1 else 0
    {
      hide Flow.Sound, Flow.Balanced, Flow.LiveRing, Flow.NearRing, Flow.TooOld, Flow.BehindReader, Past, Next, Gap;
      Reader();
      if hasItems {
        r, mark := Accept(seqNo, data, sourceTime, packetTime, lastPacketTs, now, retry);
        return;
      }
      mark := false;
      if retry {
        return -1, false;
      }
      var check := ReanchorCheck(sourceTime, maxSourceTime, recoveryBufferTicks, reanchorWaitSince, now);
      if check.Wait? {
        if reanchorWaitSince == 0 {
          reanchorWaitSince := now;
        }
        return -1, false;
      }
      Anchor(seqNo, data, sourceTime, packetTime, now);
      r := 0;
    }

    lemma Reader()
      requires Sound()
      ensures queueMax >= 2 && queue.Length == queueMax && outputIdx < queueMax && (outputIdx + 0) % queueMax == outputIdx
    {
      hide Placed, Flow.Conserved, Next;
      Small(outputIdx, queueMax);
    }
  }

  lemma Rebased(seqNo: nat, shortSeq: bool)
    requires seqNo < Modulus(shortSeq)
    ensures Next((seqNo - 1) % B32, shortSeq) == seqNo == (seqNo + Modulus(shortSeq) - 1 + 1) % Modulus(shortSeq)
  {
  }
}
