/** The sender's retransmission ring: `rist_sender_enqueue` and `rist_sender_index_get` of
    src/udp.c, `sender_send_data` of src/rist-common.c. */
module SenderRing {
  import opened Arith
  import opened Clock
  import opened Wrappers

  /** What the ring needs of a `rist_buffer`. A buffer gets its `seqNo` when it is sent. */
  datatype Buffer = Buffer(size: nat, time: nat, seqNo: nat, seqRtp: nat)

  const RIST_CLOCK: nat := 4294967
  const TICKS_RANGE: nat := 0x1_0000_0000_0000_0000
  const SEQ_RANGE: nat := 0x1_0000_0000
  const RTP_RANGE: nat := 0x1_0000

  // ----- time ---------------------------------------------------------------------

  /** Ages are counted in milliseconds, from a 64-bit difference. */
  function Age(now: nat, time: nat): nat {
    (now - time) % TICKS_RANGE / RIST_CLOCK
  }

  /** At least `age` milliseconds, of 4294967 ticks, lie between the two times. */
  predicate OldAt(now: nat, time: nat, age: nat) {
    (now - time) % 0x1_0000_0000_0000_0000 >= age * 4294967
  }

  /** More than 1.1 times as many do, in whole milliseconds. */
  predicate OverdueAt(now: nat, time: nat, age: nat) {
    (now - time) % 0x1_0000_0000_0000_0000 >= (age * 11 / 10 + 1) * 4294967
  }

  /** The ages the deletion loop compares say so. */
  lemma AgeInTicks(now: nat, time: nat, age: nat)
    ensures Age(now, time) >= age <==> OldAt(now, time, age)
    ensures 10 * Age(now, time) > 11 * age <==> OverdueAt(now, time, age)
  {
    InTicks((now - time) % TICKS_RANGE, age);
    InTicks((now - time) % TICKS_RANGE, age * 11 / 10 + 1);
  }

  lemma InTicks(ticks: nat, age: nat)
    ensures ticks / RIST_CLOCK >= age <==> ticks >= age * 4294967
  {
  }

  /** At its i-th reading the clock shows the buffer to be old enough to be freed. */
  predicate OldEnough(clock: nat -> nat, i: nat, b: Buffer, age: nat) {
    OldAt(clock(i), b.time, age)
  }

  /** So old that the window shrinks. */
  predicate Overdue(clock: nat -> nat, i: nat, b: Buffer, age: nat) {
    OverdueAt(clock(i), b.time, age)
  }

  /** Where the retained buffers start, and how often the clock has been read. */
  datatype Window = Window(lo: nat, readings: nat)

  /** One deletion pass over buffers `lo` to `mid`: the oldest is freed if it is old enough,
      and the next one too if the oldest was overdue. */
  function Trimmed(w: Window, mid: nat, log: seq<Buffer>, clock: nat -> nat, age: nat): (r: Window)
    requires w.lo < mid <= |log|
    ensures w.lo <= r.lo <= w.lo + 2 && r.lo <= mid && w.readings < r.readings <= w.readings + 2
  {
    if !OldEnough(clock, w.readings, log[w.lo], age) then Window(w.lo, w.readings + 1)
    else if w.lo + 1 == mid || !Overdue(clock, w.readings, log[w.lo], age) then Window(w.lo + 1, w.readings + 1)
    else if !OldEnough(clock, w.readings + 1, log[w.lo + 1], age) then Window(w.lo + 1, w.readings + 2)
    else Window(w.lo + 2, w.readings + 2)
  }

  /** The passes after each of `n` buffers sent. */
  function TrimmedAfter(lo: nat, mid: nat, n: nat, log: seq<Buffer>, clock: nat -> nat, age: nat): (r: Window)
    requires lo <= mid && mid + n <= |log|
    ensures lo <= r.lo <= mid + n && n <= r.readings <= 2 * n
  {
    if n == 0 then Window(lo, 0)
    else Trimmed(TrimmedAfter(lo, mid, n - 1, log, clock, age), mid + n, log, clock, age)
  }

  ghost predicate FoundOld(b: Buffer, readings: nat, clock: nat -> nat, age: nat) {
    exists i :: 0 <= i < readings && OldEnough(clock, i, b, age)
  }

  /** Every buffer freed was found old enough at one of the readings. */
  ghost predicate FreedOld(lo: nat, upto: nat, readings: nat, log: seq<Buffer>, clock: nat -> nat, age: nat)
    requires upto <= |log|
  {
    forall p :: lo <= p < upto ==> FoundOld(log[p], readings, clock, age)
  }

  lemma OnePass(w: Window, mid: nat, log: seq<Buffer>, clock: nat -> nat, age: nat, p: nat)
    requires w.lo < mid <= |log| && w.lo <= p < Trimmed(w, mid, log, clock, age).lo
    ensures var i := w.readings + (p - w.lo);
            i < Trimmed(w, mid, log, clock, age).readings && OldEnough(clock, i, log[p], age)
  {
    hide OldAt, OverdueAt;
  }

  lemma OneMorePass(lo: nat, mid: nat, n: nat, log: seq<Buffer>, clock: nat -> nat, age: nat)
    requires lo <= mid && mid + n <= |log| && n > 0
    ensures TrimmedAfter(lo, mid, n, log, clock, age) ==
            Trimmed(TrimmedAfter(lo, mid, n - 1, log, clock, age), mid + n, log, clock, age)
  {
    hide Trimmed;
  }

  /** Whatever the clock shows, no buffer is freed that was not found old enough. */
  lemma {:induction false} FreesOnlyOld(lo: nat, mid: nat, n: nat, log: seq<Buffer>, clock: nat -> nat, age: nat)
    requires lo <= mid && mid + n <= |log|
    ensures var w := TrimmedAfter(lo, mid, n, log, clock, age); FreedOld(lo, w.lo, w.readings, log, clock, age)
  {
    hide OldEnough, Overdue, Trimmed;
    if n > 0 {
      hide TrimmedAfter;
      FreesOnlyOld(lo, mid, n - 1, log, clock, age);
      OneMorePass(lo, mid, n, log, clock, age);
      var v := TrimmedAfter(lo, mid, n - 1, log, clock, age);
      var w := Trimmed(v, mid + n, log, clock, age);
      forall p | lo <= p < w.lo ensures FoundOld(log[p], w.readings, clock, age) {
        if p < v.lo {
          var i :| 0 <= i < v.readings && OldEnough(clock, i, log[p], age);
          assert i < w.readings;
        } else {
          OnePass(v, mid + n, log, clock, age, p);
        }
      }
    }
  }

  /** A buffer old enough at every reading is freed in its turn: the passes after `n` buffers
      free at least one each while there is one. */
  lemma {:induction false} FreesAtLeast(lo: nat, mid: nat, n: nat, log: seq<Buffer>, clock: nat -> nat, age: nat)
    requires lo <= mid && mid + n <= |log|
    requires forall p, i :: lo <= p < mid + n && 0 <= i < 2 * n ==> OldEnough(clock, i, log[p], age)
    ensures TrimmedAfter(lo, mid, n, log, clock, age).lo >= lo + n
  {
    hide OldAt, Overdue;
    if n > 0 {
      hide TrimmedAfter;
      OneMorePass(lo, mid, n, log, clock, age);
      FreesAtLeast(lo, mid, n - 1, log, clock, age);
    }
  }

  lemma SamePass(w: Window, mid: nat, log: seq<Buffer>, log': seq<Buffer>, clock: nat -> nat, age: nat)
    requires w.lo < mid <= |log| == |log'| && forall p :: 0 <= p < |log| ==> log[p].time == log'[p].time
    ensures Trimmed(w, mid, log, clock, age) == Trimmed(w, mid, log', clock, age)
  {
    hide OldAt, OverdueAt;
  }

  lemma {:induction false} SameTimesSameWindow(lo: nat, mid: nat, n: nat, log: seq<Buffer>, log': seq<Buffer>, clock: nat -> nat,
                                               age: nat)
    requires lo <= mid && mid + n <= |log| == |log'| && forall p :: 0 <= p < |log| ==> log[p].time == log'[p].time
    ensures TrimmedAfter(lo, mid, n, log, clock, age) == TrimmedAfter(lo, mid, n, log', clock, age)
  {
    hide Trimmed;
    if n > 0 {
      hide TrimmedAfter;
      OneMorePass(lo, mid, n, log, clock, age);
      OneMorePass(lo, mid, n, log', clock, age);
      SameTimesSameWindow(lo, mid, n - 1, log, log', clock, age);
      SamePass(TrimmedAfter(lo, mid, n - 1, log, clock, age), mid + n, log, log', clock, age);
    }
  }

  // ----- positions and slots ------------------------------------------------------

  // Every buffer ever enqueued has a position, counted from 1; position p lives in slot
  // p % max. `log[p]` is that buffer (log[0] is unused).

  function Slot(p: int, max: nat): (i: nat)
    requires max > 0
    ensures i < max
  {
    p % max
  }

  lemma SlotsDiffer(p: int, q: int, max: nat)
    requires max > 0 && p < q < p + max
    ensures Slot(p, max) != Slot(q, max)
  {
    DivMod(p, max);
    DivMod(q, max);
    if p % max == q % max {
      FactorOut(q / max, p / max, max);
      SmallMultiple(q / max - p / max, max);
      assert false;
    }
  }

  lemma FactorOut(a: int, b: int, m: int)
    ensures a * m - b * m == (a - b) * m
  {
  }

  lemma SlotNext(p: int, max: nat)
    requires max > 0
    ensures (Slot(p, max) + 1) % max == Slot(p + 1, max)
    ensures Slot(p + max, max) == Slot(p, max)
  {
    DivMod(p, max);
    if p % max + 1 == max {
      FactorOut(p / max, -1, max);
      ModUnique(p + 1, p / max + 1, 0, max);
      ModUnique(p % max + 1, 1, 0, max);
    } else {
      ModUnique(p + 1, p / max, p % max + 1, max);
      ModUnique(p % max + 1, 0, p % max + 1, max);
    }
    FactorOut(p / max, -1, max);
    ModUnique(p + max, p / max + 1, p % max, max);
  }

  /** A window of `max` consecutive positions ending before `hi` fills every slot once: the
      live ones, from `lo` on, hold their buffer and the others are empty. */
  ghost predicate Holds(queue: seq<Option<Buffer>>, log: seq<Buffer>, lo: nat, max: nat)
    requires max > 0 && lo <= |log|
  {
    && |queue| == max && |log| - max < lo
    && forall p {:trigger Slot(p, max)} :: |log| - max <= p < |log| ==>
         queue[Slot(p, max)] == if p >= lo then Some(log[p]) else None
  }

  /** Filling the slot at the write position. */
  lemma HoldsAppend(queue: seq<Option<Buffer>>, log: seq<Buffer>, lo: nat, max: nat, b: Buffer)
    requires max > 0 && lo <= |log| && Holds(queue, log, lo, max) && |log| + 1 - max < lo
    ensures queue[Slot(|log|, max)] == None
    ensures Holds(queue[Slot(|log|, max) := Some(b)], log + [b], lo, max)
  {
    var w, next := Slot(|log|, max), queue[Slot(|log|, max) := Some(b)];
    SlotNext(|log| - max, max);
    forall p {:trigger Slot(p, max)} | |log| + 1 - max <= p < |log| + 1
      ensures next[Slot(p, max)] == if p >= lo then Some((log + [b])[p]) else None
    {
      if p < |log| { SlotsDiffer(p, |log|, max); }
    }
  }

  /** Clearing the slot of the oldest live position. */
  lemma HoldsDelete(queue: seq<Option<Buffer>>, log: seq<Buffer>, lo: nat, max: nat)
    requires max > 0 && lo < |log| && Holds(queue, log, lo, max)
    ensures queue[Slot(lo, max)] == Some(log[lo])
    ensures Holds(queue[Slot(lo, max) := None], log, lo + 1, max)
  {
    var next := queue[Slot(lo, max) := None];
    forall p {:trigger Slot(p, max)} | |log| - max <= p < |log|
      ensures next[Slot(p, max)] == if p >= lo + 1 then Some(log[p]) else None
    {
      if p < lo { SlotsDiffer(p, lo, max); } else if lo < p { SlotsDiffer(lo, p, max); }
    }
  }

  /** Changing the buffer at a live position. */
  lemma HoldsUpdate(queue: seq<Option<Buffer>>, log: seq<Buffer>, lo: nat, max: nat, q: nat, b: Buffer)
    requires max > 0 && lo <= q < |log| && Holds(queue, log, lo, max)
    ensures Holds(queue[Slot(q, max) := Some(b)], log[q := b], lo, max)
  {
    var next := queue[Slot(q, max) := Some(b)];
    forall p {:trigger Slot(p, max)} | |log| - max <= p < |log|
      ensures next[Slot(p, max)] == if p >= lo then Some(log[q := b][p]) else None
    {
      if p < q { SlotsDiffer(p, q, max); } else if q < p { SlotsDiffer(q, p, max); }
    }
  }

  /** The bytes held by positions `lo` up to `hi`. */
  function Bytes(log: seq<Buffer>, lo: nat, hi: nat): nat
    requires lo <= hi <= |log|
  {
    if lo == hi then 0 else Bytes(log, lo, hi - 1) + log[hi - 1].size
  }

  lemma {:induction false} BytesFirst(log: seq<Buffer>, lo: nat, hi: nat)
    requires lo < hi <= |log|
    ensures Bytes(log, lo, hi) == log[lo].size + Bytes(log, lo + 1, hi)
  {
    if lo + 1 < hi { BytesFirst(log, lo, hi - 1); }
  }

  lemma {:induction false} BytesDepend(log: seq<Buffer>, log': seq<Buffer>, lo: nat, hi: nat)
    requires lo <= hi <= |log| && hi <= |log'| && forall p :: lo <= p < hi ==> log[p].size == log'[p].size
    ensures Bytes(log, lo, hi) == Bytes(log', lo, hi)
  {
    if lo < hi { BytesDepend(log, log', lo, hi - 1); }
  }

  lemma BytesAppend(log: seq<Buffer>, b: Buffer, lo: nat)
    requires lo <= |log|
    ensures Bytes(log + [b], lo, |log| + 1) == Bytes(log, lo, |log|) + b.size
  {
    BytesDepend(log, log + [b], lo, |log|);
  }

  // ----- the two retransmission indices ---------------------------------------------

  /** The newest sent position, below `mid`, with the 16-bit number `x`; 0 if there is none. */
  function Newest(log: seq<Buffer>, mid: nat, x: nat): (p: nat)
    requires mid <= |log|
    ensures p < mid || p == 0
    ensures p > 0 ==> log[p].seqRtp == x && forall q :: p < q < mid ==> log[q].seqRtp != x
    ensures p == 0 ==> forall q :: 0 < q < mid ==> log[q].seqRtp != x
  {
    if mid <= 1 then 0 else if log[mid - 1].seqRtp == x then mid - 1 else Newest(log, mid - 1, x)
  }

  lemma {:induction false} NewestDepends(log: seq<Buffer>, log': seq<Buffer>, mid: nat, x: nat)
    requires mid <= |log| && mid <= |log'| && forall p :: 0 < p < mid ==> log[p].seqRtp == log'[p].seqRtp
    ensures Newest(log, mid, x) == Newest(log', mid, x)
  {
    if mid > 1 { NewestDepends(log, log', mid - 1, x); }
  }

  /** The 16-bit index points at the slot of the newest sent buffer with each number. */
  ghost predicate RtpIndexed(index: seq<nat>, log: seq<Buffer>, mid: nat, max: nat)
    requires max > 0 && mid <= |log|
  {
    |index| >= RTP_RANGE && forall x :: 0 <= x < RTP_RANGE ==> index[x] == Slot(Newest(log, mid, x), max)
  }

  lemma RtpIndexedStep(index: seq<nat>, log: seq<Buffer>, mid: nat, max: nat, b: Buffer)
    requires max > 0 && 0 < mid < |log| && RtpIndexed(index, log, mid, max)
    requires b.seqRtp == log[mid].seqRtp < RTP_RANGE
    ensures RtpIndexed(index[b.seqRtp := Slot(mid, max)], log[mid := b], mid + 1, max)
  {
    var next := index[b.seqRtp := Slot(mid, max)];
    forall x | 0 <= x < RTP_RANGE ensures next[x] == Slot(Newest(log[mid := b], mid + 1, x), max) {
      NewestDepends(log, log[mid := b], mid, x);
    }
  }

  /** The 32-bit number of sent position `p`, counting from `first` at position 1. */
  function Number(first: nat, p: int): (n: nat)
    ensures n < SEQ_RANGE
  {
    (first + p - 1) % 0x1_0000_0000
  }

  /** The 32-bit index points at the slot of every sent buffer not yet overwritten in it. */
  ghost predicate SeqIndexed(index: seq<nat>, first: nat, lo: nat, mid: nat, max: nat)
    requires max > 0
  {
    && |index| == max && (forall i :: 0 <= i < max ==> index[i] < max)
    && forall p :: lo <= p < mid ==> index[Slot(Number(first, p), max)] == Slot(p, max)
  }

  /** Because the ring size divides 2^32, reducing a number modulo 2^32 first changes nothing. */
  lemma NumberSlot(first: nat, p: int, max: nat, k: nat)
    requires max > 0 && k * max == SEQ_RANGE
    ensures Slot(Number(first, p), max) == Slot(first + p - 1, max)
  {
    var n := first + p - 1;
    var q := n / SEQ_RANGE;
    DivMod(n % SEQ_RANGE, max);
    Regroup(q, k, max);
    Spread(q * k, (n % SEQ_RANGE) / max, max);
    ModUnique(n, q * k + (n % SEQ_RANGE) / max, (n % SEQ_RANGE) % max, max);
  }

  lemma SeqIndexedStep(index: seq<nat>, first: nat, lo: nat, mid: nat, max: nat, k: nat)
    requires max > 0 && k * max == SEQ_RANGE && lo <= mid < lo + max && SeqIndexed(index, first, lo, mid, max)
    ensures SeqIndexed(index[Slot(Number(first, mid), max) := Slot(mid, max)], first, lo, mid + 1, max)
  {
    forall p | lo <= p < mid ensures Slot(Number(first, p), max) != Slot(Number(first, mid), max) {
      NumberSlot(first, p, max, k);
      NumberSlot(first, mid, max, k);
      SlotsDiffer(first + p - 1, first + mid - 1, max);
    }
  }

  // ----- the ring as a value ----------------------------------------------------------

  datatype Ring = Ring(queue: seq<Option<Buffer>>, seqIndex: seq<nat>, rtpIndex: seq<nat>,
                       max: nat, first: nat, advanced: bool)

  /** The slots hold exactly the live buffers, sent buffers carry their numbers, and the
      indices point at them. An Advanced sender keeps the 32-bit index as well. */
  ghost predicate RingInv(v: Ring, log: seq<Buffer>, lo: nat, mid: nat) {
    && 2 <= v.max && 1 <= lo <= mid <= |log| && |log| - lo <= v.max - 1
    && Holds(v.queue, log, lo, v.max)
    && (forall p :: 1 <= p < |log| ==>
          log[p].seqRtp < RTP_RANGE && log[p].seqNo == if p < mid then Number(v.first, p) else 0)
    && SeqIndexed(v.seqIndex, v.first, if v.advanced then lo else mid, mid, v.max)
    && RtpIndexed(v.rtpIndex, log, mid, v.max)
  }

  lemma RingStarts(v: Ring)
    requires 2 <= v.max && |v.queue| == |v.seqIndex| == v.max && |v.rtpIndex| == RTP_RANGE
    requires (forall i :: 0 <= i < v.max ==> v.queue[i] == None && v.seqIndex[i] == 0)
    requires forall i :: 0 <= i < RTP_RANGE ==> v.rtpIndex[i] == 0
    ensures RingInv(v, [Buffer(0, 0, 0, 0)], 1, 1)
  {
    ModUnique(0, 0, 0, v.max);
  }

  lemma RingAppend(v: Ring, log: seq<Buffer>, lo: nat, mid: nat, b: Buffer)
    requires RingInv(v, log, lo, mid) && |log| + 1 - lo <= v.max - 1 && b.seqRtp < RTP_RANGE && b.seqNo == 0
    ensures v.queue[Slot(|log|, v.max)] == None
    ensures RingInv(v.(queue := v.queue[Slot(|log|, v.max) := Some(b)]), log + [b], lo, mid)
  {
    hide Holds, RtpIndexed, SeqIndexed, Slot, Number;
    HoldsAppend(v.queue, log, lo, v.max, b);
    RtpIndexedSame(v.rtpIndex, log, log + [b], mid, v.max);
  }

  lemma RingSend(v: Ring, log: seq<Buffer>, lo: nat, mid: nat, b: Buffer, k: nat)
    requires RingInv(v, log, lo, mid) && mid < |log| && k * v.max == SEQ_RANGE
    requires b == log[mid].(seqNo := Number(v.first, mid))
    ensures v.queue[Slot(mid, v.max)] == Some(log[mid]) && b.seqRtp < |v.rtpIndex|
    ensures RingInv(v.(queue := v.queue[Slot(mid, v.max) := Some(b)],
                       rtpIndex := v.rtpIndex[b.seqRtp := Slot(mid, v.max)],
                       seqIndex := if v.advanced then v.seqIndex[Slot(b.seqNo, v.max) := Slot(mid, v.max)] else v.seqIndex),
                    log[mid := b], lo, mid + 1)
  {
    hide Holds, RtpIndexed, Slot, Number;
    LiveSlot(v.queue, log, lo, v.max, mid);
    HoldsUpdate(v.queue, log, lo, v.max, mid, b);
    RtpIndexedStep(v.rtpIndex, log, mid, v.max, b);
    if v.advanced { SeqIndexedStep(v.seqIndex, v.first, lo, mid, v.max, k); }
    RtpFits(v.rtpIndex, log, mid, v.max);
  }

  lemma RtpFits(index: seq<nat>, log: seq<Buffer>, mid: nat, max: nat)
    requires max > 0 && mid <= |log| && RtpIndexed(index, log, mid, max)
    ensures |index| >= RTP_RANGE
  {
  }

  lemma RingFree(v: Ring, log: seq<Buffer>, lo: nat, mid: nat)
    requires RingInv(v, log, lo, mid) && lo < mid
    ensures |v.queue| == v.max && v.queue[Slot(lo, v.max)] == Some(log[lo])
    ensures RingInv(v.(queue := v.queue[Slot(lo, v.max) := None]), log, lo + 1, mid)
  {
    hide RtpIndexed, Slot, Number;
    LiveSlot(v.queue, log, lo, v.max, lo);
    HoldsDelete(v.queue, log, lo, v.max);
  }

  lemma RingAt(v: Ring, log: seq<Buffer>, lo: nat, mid: nat, p: nat)
    requires RingInv(v, log, lo, mid) && lo <= p < |log|
    ensures |v.queue| == v.max && v.queue[Slot(p, v.max)] == Some(log[p]) && log[p].seqRtp < RTP_RANGE
  {
    LiveSlot(v.queue, log, lo, v.max, p);
  }

  /** The answer to a retransmission request: the slot to send, or nothing. */
  datatype Lookup = NotFound | Found(slot: nat)

  class Sender {
    const max: nat
    const first: nat
    const advanced: bool
    const recoverMinTime: nat

    const queue: array<Option<Buffer>>
    const seqIndex: array<nat>
    /** `seq_rtp_index` of an Advanced sender; for Main, `seq_index` itself. */
    const rtpIndex: array<nat>
    var readIndex: nat
    var writeIndex: nat
    var deleteIndex: nat
    var bufferSize: nat
    var queueSize: nat
    var queueBytes: nat
    var nextSeq: nat

    ghost const k: nat
    /** All buffers ever enqueued; those from `lo` on are live, those below `mid` sent. */
    ghost var log: seq<Buffer>
    ghost var lo: nat
    ghost var mid: nat

    /** Everything but the size of the retention window, which lags while a buffer is sent. */
    ghost predicate Core()
      reads this, queue, seqIndex, rtpIndex
    {
      && k * max == SEQ_RANGE && rtpIndex != seqIndex && RingInv(View(), log, lo, mid)
      && 2 <= max && 1 <= lo <= mid <= |log| && |log| - lo <= max - 1
      && queue.Length == max == seqIndex.Length && rtpIndex.Length == RTP_RANGE
      && readIndex == Slot(mid - 1, max) && writeIndex == Slot(|log|, max)
      && queueSize == |log| - lo
      && queueBytes == Bytes(log, lo, |log|)
      && nextSeq == Number(first, mid)
    }

    ghost function View(): Ring
      reads queue, seqIndex, rtpIndex
    {
      Ring(queue[..], seqIndex[..], rtpIndex[..], max, first, advanced)
    }

    /** Between operations, `sender_buffer_size` is the number of retained sent buffers. */
    ghost predicate Valid()
      reads this, queue, seqIndex, rtpIndex
    {
      Core() && bufferSize == mid - lo
    }

    /** `rist_sender_create`: indices 1 and 0, nothing queued. */
    constructor (max: nat, first: nat, advanced: bool, recoverMinTime: nat, ghost k: nat)
      requires 2 <= max && k * max == SEQ_RANGE && first < SEQ_RANGE
      ensures Valid() && mid == 1 == lo == |log| && this.max == max && this.advanced == advanced
      ensures this.recoverMinTime == recoverMinTime && this.first == first
      ensures readIndex == 0 && writeIndex == deleteIndex == 1
    {
      this.max, this.first, this.advanced, this.recoverMinTime, this.k := max, first, advanced, recoverMinTime, k;
      queue := new Option<Buffer>[max](_ => None);
      seqIndex := new nat[max](_ => 0);
      rtpIndex := new nat[RTP_RANGE](_ => 0);
      readIndex, writeIndex, deleteIndex := 0, 1, 1;
      bufferSize, queueSize, queueBytes, nextSeq := 0, 0, 0, first;
      log, lo, mid := [Buffer(0, 0, 0, 0)], 1, 1;
      new;
      hide RingInv;
      RingStarts(View());
      ModUnique(0, 0, 0, max);
      ModUnique(1, 0, 1, max);
      ModUnique(first, 0, first, SEQ_RANGE);
    }

    /** `rist_sender_enqueue`: 0, or -2 when the ring is full. The slot it fills is empty. */
    method Enqueue(size: nat, now: nat, seqRtp: nat) returns (ret: int)
      requires Valid()
      modifies this, queue
      ensures Valid() && lo == old(lo) && mid == old(mid)
      ensures ret == if old(queueSize) >= max - 1 then -2 else 0
      ensures ret == 0 ==> log == old(log) + [Buffer(size, now, 0, seqRtp % 0x1_0000)]
      ensures ret == 0 ==> old(queue[writeIndex] == None)
      ensures ret != 0 ==> unchanged(this) && unchanged(queue)
    {
      hide RingInv, Slot, Number, Bytes, Sender.View;
      if queueSize >= max - 1 {
        return -2;
      }
      var b := Buffer(size, now, 0, seqRtp % RTP_RANGE);
      ghost var was := log;
      SlotNext(|log|, max);
      BytesAppend(log, b, lo);
      Append(b);
      queueBytes := queueBytes + size;
      queueSize := queueSize + 1;
      writeIndex := (writeIndex + 1) % max;
      ret := 0;
    }

    /** The buffer's slot, at the write index. */
    method Append(b: Buffer)
      requires Core() && |log| + 1 - lo <= max - 1 && b.seqRtp < RTP_RANGE && b.seqNo == 0
      modifies this`log, queue
      ensures log == old(log) + [b] && RingInv(View(), log, lo, mid) && old(queue[writeIndex] == None)
    {
      hide RingInv, Slot, Number, Bytes;
      ghost var was := View();
      RingAppend(was, log, lo, mid, b);
      queue[writeIndex] := Some(b);
      assert View() == was.(queue := was.queue[Slot(|log|, max) := Some(b)]);
      log := log + [b];
    }

    /** The first half of one round of `sender_send_data`: the oldest unsent buffer gets the
        next number, goes out, and is entered into the indices. */
    method MarkSent() returns (sent: bool)
      requires Valid()
      modifies this`readIndex, this`nextSeq, this`log, this`mid, queue, seqIndex, rtpIndex
      ensures sent == old(mid < |log|)
      ensures !sent ==> Valid() && log == old(log) && mid == old(mid)
      ensures sent ==> Core() && mid == old(mid) + 1 && bufferSize == mid - lo - 1
      ensures sent ==> log == old(log[mid := log[mid].(seqNo := nextSeq)])
    {
      hide RingInv, Slot, Bytes, Number;
      SlotNext(mid - 1, max);
      var idx := (readIndex + 1) % max;
      if mid < |log| { SlotsDiffer(mid, |log|, max); }
      if idx == writeIndex {
        return false;
      }
      RingAt(View(), log, lo, mid, mid);
      var buffer := queue[idx].value.(seqNo := nextSeq);
      NumberNext(first, mid);
      BytesDepend(log, log[mid := buffer], lo, |log|);
      EnterIndices(idx, buffer);
      readIndex := idx;
      nextSeq := (nextSeq + 1) % SEQ_RANGE;
      log := log[mid := buffer];
      mid := mid + 1;
      sent := true;
    }

    /** The buffer's slot and the index entries for its numbers. */
    method EnterIndices(idx: nat, buffer: Buffer)
      requires Core() && mid < |log| && idx == Slot(mid, max) && buffer == log[mid].(seqNo := Number(first, mid))
      modifies queue, seqIndex, rtpIndex
      ensures RingInv(View(), log[mid := buffer], lo, mid + 1)
    {
      hide RingInv, Slot, Bytes, Number;
      ghost var was := View();
      RingSend(was, log, lo, mid, buffer, k);
      queue[idx] := Some(buffer);
      if advanced {
        seqIndex[SlotOf(buffer.seqNo)] := idx;
      }
      rtpIndex[buffer.seqRtp] := idx;
      assert queue[..] == was.queue[Slot(mid, max) := Some(buffer)];
      assert rtpIndex[..] == was.rtpIndex[buffer.seqRtp := Slot(mid, max)];
      assert seqIndex[..] ==
             if advanced then was.seqIndex[Slot(buffer.seqNo, max) := Slot(mid, max)] else was.seqIndex;
    }

    /** One buffer leaves the ring: always the oldest one. */
    method FreeOldest(deleteIdx: nat)
      requires Core() && lo < mid && deleteIdx == Slot(lo, max)
      modifies this`queueBytes, this`queueSize, this`lo, queue
      ensures Core() && lo == old(lo) + 1
    {
      hide RingInv, Slot, Number;
      ghost var was := View();
      RingFree(was, log, lo, mid);
      BytesFirst(log, lo, |log|);
      queueBytes := queueBytes - queue[deleteIdx].value.size;
      queueSize := queueSize - 1;
      queue[deleteIdx] := None;
      assert View() == was.(queue := was.queue[Slot(lo, max) := None]);
      lo := lo + 1;
    }

    /** One round of the deletion loop: the buffer at the far end of the window is freed if it
        is old enough; if not, the window grows. If it is overdue the window shrinks, once. */
    method TrimOldest(now: nat, reduced: bool) returns (reduce: bool)
      requires Core() && bufferSize == mid - lo - 1 && lo < mid
      modifies this`queueBytes, this`queueSize, this`lo, this`bufferSize, this`deleteIndex, queue
      ensures Core() && lo == old(lo) + if OldAt(now, log[old(lo)].time, recoverMinTime) then 1 else 0
      ensures reduce == (!reduced && lo > old(lo) && lo < mid && OverdueAt(now, log[old(lo)].time, recoverMinTime))
      ensures bufferSize == (if reduce then mid - lo - 1 else mid - lo) && deleteIndex == Slot(old(lo), max)
    {
      hide RingInv, Slot, Number, Bytes, Age, OldAt, OverdueAt;
      AgeInTicks(now, log[lo].time, recoverMinTime);
      SlotMinus(mid - 1, bufferSize, max);
      var deleteIdx := (readIndex - bufferSize) % max;
      deleteIndex := deleteIdx;
      RingAt(View(), log, lo, mid, lo);
      var delay := Age(now, queue[deleteIdx].value.time);
      reduce := false;
      if delay < recoverMinTime {
        if bufferSize < max - 1 { bufferSize := bufferSize + 1; }
        return;
      } else if !reduced && 10 * delay > 11 * recoverMinTime {
        if bufferSize > 0 {
          reduce := true;
          bufferSize := bufferSize - 1;
        }
      }
      FreeOldest(deleteIdx);
    }

    /** The oldest buffer was overdue, and there was another. */
    ghost predicate FirstGone(first: nat, mid: nat, log: seq<Buffer>, clock: nat -> nat, from: nat) {
      && first + 1 < mid <= |log| && OldEnough(clock, from, log[first], recoverMinTime)
      && Overdue(clock, from, log[first], recoverMinTime)
    }

    /** The deletion loop, which reads the clock from reading `from` on: it frees exactly the
        buffers it should. */
    method Trim(clock: nat -> nat, from: nat) returns (upto: nat)
      requires Core() && bufferSize == mid - lo - 1 && lo < mid
      modifies this`queueBytes, this`queueSize, this`lo, this`bufferSize, this`deleteIndex, queue
      ensures Valid() && Window(lo, upto) == Trimmed(Window(old(lo), from), mid, log, clock, recoverMinTime)
    {
      hide RingInv, Slot, Number, Bytes, OldAt, OverdueAt;
      var reduce, again := false, true;
      upto := from;
      while again
        invariant Core() && (if again then bufferSize == mid - lo - 1 && lo < mid else Valid())
        invariant again ==> lo == old(lo) + (upto - from)
        invariant again ==> (if reduce then FirstGone(old(lo), mid, log, clock, from) && upto == from + 1 else upto == from)
        invariant !again ==> Window(lo, upto) == Trimmed(Window(old(lo), from), mid, log, clock, recoverMinTime)
        decreases again, !reduce
      {
        reduce := TrimOldest(Tick(clock, upto), reduce);
        upto := upto + 1;
        again := reduce && queueSize > 0;
      }
    }

    /** One round: the next buffer goes out, and the deletion loop follows. */
    method SendOne(clock: nat -> nat, from: nat) returns (sent: bool, upto: nat)
      requires Valid()
      modifies this, queue, seqIndex, rtpIndex
      ensures Valid() && sent == old(mid < |log|) && SameButNumbers(old(log), log)
      ensures !sent ==> log == old(log) && mid == old(mid) && lo == old(lo) && upto == from
      ensures sent ==>
        mid == old(mid) + 1 && Window(lo, upto) == Trimmed(Window(old(lo), from), mid, log, clock, recoverMinTime)
    {
      hide RingInv, Slot, Number, Bytes, Trimmed, SameButNumbers;
      ghost var was := log;
      sent := MarkSent();
      upto := from;
      if sent {
        SameTimes(was, log, mid - 1);
        upto := Trim(clock, from);
      } else {
        Unchanged(was);
      }
    }

    /** `sender_send_data`: buffers go out in the order they came, at most `maxcount + 1`
        of them, and after each one the oldest sent ones are freed if they are old enough by
        the clock as then read. */
    method SendData(maxcount: nat, clock: nat -> nat) returns (ghost readings: nat)
      requires Valid()
      modifies this, queue, seqIndex, rtpIndex
      ensures Valid() && |log| == |old(log)| && old(lo) <= lo
      ensures mid == if |log| - old(mid) <= maxcount + 1 then |log| else old(mid) + maxcount + 1
      ensures SameButNumbers(old(log), log)
      ensures Window(lo, readings) == TrimmedAfter(old(lo), old(mid), mid - old(mid), log, clock, recoverMinTime)
      ensures FreedOld(old(lo), lo, readings, log, clock, recoverMinTime)
    {
      hide RingInv, Slot, Number, Bytes, Trimmed, TrimmedAfter, FreedOld, SameButNumbers, Sender.Core;
      ghost var start, lo0, mid0 := log, lo, mid;
      Ordered();
      Unchanged(log);
      NoPass(lo0, mid0, log, clock, recoverMinTime);
      var counter, more, from := 0, true, 0;
      while more
        invariant Valid() && SameButNumbers(start, log) && counter == mid - mid0 <= maxcount + 1
        invariant lo0 <= mid0 <= mid <= |log| == |start|
        invariant !more ==> mid == |log| || counter == maxcount + 1
        invariant Window(lo, from) == TrimmedAfter(lo0, mid0, counter, log, clock, recoverMinTime)
        decreases more, maxcount + 1 - counter
      {
        if counter > maxcount {
          break;
        }
        counter := counter + 1;
        ghost var was := log;
        more, from := SendOne(clock, from);
        Ordered();
        StillSame(start, was, log);
        if more {
          SameWindowOn(lo0, mid0, counter, was, log, clock, recoverMinTime);
        } else {
          counter := counter - 1;
        }
      }
      readings := from;
      FreesOnlyOld(lo0, mid0, counter, log, clock, recoverMinTime);
    }

    lemma Ordered()
      requires Valid()
      ensures 1 <= lo <= mid <= |log|
    {
    }

    /** `rist_sender_index_get` and the checks of `rist_retry_dequeue` that follow it. */
    method Find(seqNo: nat, rtpDomain: bool) returns (r: Lookup)
      requires Valid() && seqNo < SEQ_RANGE
      ensures advanced && !rtpDomain ==> AgreesWithScan(r, queue[..], log, lo, mid, max, BySeq(seqNo))
      ensures !advanced || rtpDomain ==>
                AgreesWithScan(r, queue[..], log, lo, mid, max, ByRtp(seqNo % 0x1_0000))
    {
      hide Slot, Newest, Number;
      var idx := if advanced && !rtpDomain then seqIndex[SlotOf(seqNo)] else rtpIndex[seqNo % RTP_RANGE];
      if queue[idx] == None {
        r := NotFound;
      } else if (if advanced && !rtpDomain then seqNo != queue[idx].value.seqNo
                 else seqNo % RTP_RANGE != queue[idx].value.seqRtp) {
        r := NotFound;
      } else {
        r := Found(idx);
      }
      if advanced && !rtpDomain {
        SeqLookup(queue[..], seqIndex[..], log, first, lo, mid, max, k, seqNo);
      } else {
        RtpLookup(queue[..], rtpIndex[..], log, lo, mid, max, seqNo % RTP_RANGE);
      }
    }

    /** `seq & (sender_queue_max - 1)`. */
    function SlotOf(seqNo: nat): (i: nat)
      requires max > 0
      ensures i == Slot(seqNo, max)
    {
      seqNo % max
    }
  }

  /** What a request identifies a buffer by: its 32-bit or its 16-bit number. */
  datatype Query = BySeq(n: nat) | ByRtp(x: nat) {
    predicate Matches(b: Buffer) {
      if BySeq? then b.seqNo == n else b.seqRtp == x
    }
  }

  /** A linear scan of the retained sent buffers, newest first. */
  function Scan(log: seq<Buffer>, lo: nat, mid: nat, wanted: Query): (p: Option<nat>)
    requires lo <= mid <= |log|
    ensures p.Some? ==> lo <= p.value < mid && wanted.Matches(log[p.value])
    ensures p.Some? ==> forall q :: p.value < q < mid ==> !wanted.Matches(log[q])
    ensures p.None? ==> forall q :: lo <= q < mid ==> !wanted.Matches(log[q])
  {
    if lo == mid then None else if wanted.Matches(log[mid - 1]) then Some(mid - 1) else Scan(log, lo, mid - 1, wanted)
  }

  /** The lookup finds what the scan finds. When the scan finds nothing, a buffer that is
      found all the same has the wanted number too, and is still waiting to be sent. */
  ghost predicate AgreesWithScan(r: Lookup, queue: seq<Option<Buffer>>, log: seq<Buffer>, lo: nat, mid: nat,
                                 max: nat, wanted: Query)
    requires max > 0 && lo <= mid <= |log|
  {
    match Scan(log, lo, mid, wanted)
    case Some(p) => r == Found(Slot(p, max))
    case None => r.Found? ==>
      exists u :: mid <= u < |log| && r == Found(Slot(u, max)) && wanted.Matches(log[u])
  }

  /** Every slot is the slot of some position in the window. */
  lemma SlotPosition(i: nat, hi: nat, max: nat) returns (p: int)
    requires i < max
    ensures hi - max <= p < hi && Slot(p, max) == i
  {
    var base := hi - max;
    p := base + (i - base) % max;
    DivMod(i - base, max);
    FactorOut(0, (i - base) / max, max);
    ModUnique(p, -((i - base) / max), i, max);
  }

  /** What the lookup reads: either a live buffer at its position, or nothing. */
  lemma SlotContents(queue: seq<Option<Buffer>>, log: seq<Buffer>, lo: nat, max: nat, i: nat) returns (p: int)
    requires max > 0 && lo <= |log| && Holds(queue, log, lo, max) && i < max
    ensures |log| - max <= p < |log| && Slot(p, max) == i && queue[i] == if p >= lo then Some(log[p]) else None
  {
    p := SlotPosition(i, |log|, max);
  }

  /** The answer given by slot `i`. */
  function At(queue: seq<Option<Buffer>>, i: nat, wanted: Query): Lookup
    requires i < |queue|
  {
    if queue[i].Some? && wanted.Matches(queue[i].value) then Found(i) else NotFound
  }

  /** If the index points at the position the scan finds, the lookup agrees with the scan. */
  lemma LookupAgrees(queue: seq<Option<Buffer>>, log: seq<Buffer>, lo: nat, mid: nat, max: nat, i: nat,
                     wanted: Query)
    requires max > 0 && lo <= mid <= |log| && Holds(queue, log, lo, max) && i < max
    requires Scan(log, lo, mid, wanted).Some? ==> i == Slot(Scan(log, lo, mid, wanted).value, max)
    ensures AgreesWithScan(At(queue, i, wanted), queue, log, lo, mid, max, wanted)
  {
    hide Slot;
    var p := SlotContents(queue, log, lo, max, i);
    var s := Scan(log, lo, mid, wanted);
    if s.Some? {
      assert queue[Slot(s.value, max)] == Some(log[s.value]);
    }
  }

  lemma SeqLookup(queue: seq<Option<Buffer>>, index: seq<nat>, log: seq<Buffer>, first: nat, lo: nat, mid: nat,
                  max: nat, k: nat, seqNo: nat)
    requires max > 0 && lo <= mid <= |log| && Holds(queue, log, lo, max) && 1 <= lo
    requires SeqIndexed(index, first, lo, mid, max)
    requires forall p :: lo <= p < mid ==> log[p].seqNo == Number(first, p)
    ensures AgreesWithScan(At(queue, index[Slot(seqNo, max)], BySeq(seqNo)), queue, log, lo, mid, max,
                           BySeq(seqNo))
  {
    LookupAgrees(queue, log, lo, mid, max, index[Slot(seqNo, max)], BySeq(seqNo));
  }

  lemma RtpLookup(queue: seq<Option<Buffer>>, index: seq<nat>, log: seq<Buffer>, lo: nat, mid: nat, max: nat, x: nat)
    requires max > 0 && 1 <= lo <= mid <= |log| && Holds(queue, log, lo, max) && x < RTP_RANGE
    requires RtpIndexed(index, log, mid, max)
    ensures AgreesWithScan(At(queue, index[x], ByRtp(x)), queue, log, lo, mid, max, ByRtp(x))
  {
    LookupAgrees(queue, log, lo, mid, max, index[x], ByRtp(x));
  }

  /** The same buffers, but for the numbers they were sent with. */
  ghost predicate SameButNumbers(was: seq<Buffer>, log: seq<Buffer>) {
    |was| == |log| && forall p :: 0 <= p < |log| ==> log[p].(seqNo := 0) == was[p].(seqNo := 0)
  }

  lemma SameTimes(was: seq<Buffer>, log: seq<Buffer>, q: nat)
    requires q < |was| == |log| && log == was[q := was[q].(seqNo := log[q].seqNo)]
    ensures SameButNumbers(was, log)
  {
  }

  lemma Unchanged(log: seq<Buffer>)
    ensures SameButNumbers(log, log)
  {
  }

  lemma StillSame(start: seq<Buffer>, was: seq<Buffer>, log: seq<Buffer>)
    requires SameButNumbers(start, was) && SameButNumbers(was, log)
    ensures SameButNumbers(start, log) && |start| == |log|
  {
  }

  lemma NoPass(lo: nat, mid: nat, log: seq<Buffer>, clock: nat -> nat, age: nat)
    requires lo <= mid <= |log|
    ensures TrimmedAfter(lo, mid, 0, log, clock, age) == Window(lo, 0)
  {
  }

  /** One pass more, over the log as it then is. */
  lemma SameWindowOn(lo: nat, mid: nat, n: nat, was: seq<Buffer>, log: seq<Buffer>, clock: nat -> nat, age: nat)
    requires lo <= mid && n > 0 && mid + n <= |log| && SameButNumbers(was, log)
    ensures |was| == |log|
    ensures TrimmedAfter(lo, mid, n, log, clock, age)
            == Trimmed(TrimmedAfter(lo, mid, n - 1, was, clock, age), mid + n, log, clock, age)
  {
    hide TrimmedAfter, Trimmed;
    forall p | 0 <= p < |log| ensures log[p].time == was[p].time {
      assert log[p].(seqNo := 0) == was[p].(seqNo := 0);
    }
    SameTimesSameWindow(lo, mid, n - 1, was, log, clock, age);
    OneMorePass(lo, mid, n, log, clock, age);
  }

  /** A live position's slot holds its buffer. */
  lemma LiveSlot(queue: seq<Option<Buffer>>, log: seq<Buffer>, lo: nat, max: nat, p: nat)
    requires max > 0 && lo <= p < |log| && Holds(queue, log, lo, max)
    ensures |queue| == max && queue[Slot(p, max)] == Some(log[p])
  {
  }

  lemma NumberNext(first: nat, p: nat)
    ensures p > 0 ==> Number(first, p + 1) == (Number(first, p) + 1) % SEQ_RANGE
  {
  }

  lemma SlotMinus(a: int, b: nat, max: nat)
    requires max > 0
    ensures (Slot(a, max) - b) % max == Slot(a - b, max)
  {
    DivMod(a, max);
    DivMod(a % max - b, max);
    FactorOut(a / max, -((a % max - b) / max), max);
    ModUnique(a - b, a / max + (a % max - b) / max, (a % max - b) % max, max);
  }

  lemma RtpIndexedSame(index: seq<nat>, log: seq<Buffer>, log': seq<Buffer>, mid: nat, max: nat)
    requires max > 0 && mid <= |log| && log <= log' && RtpIndexed(index, log, mid, max)
    ensures RtpIndexed(index, log', mid, max)
  {
    forall x | 0 <= x < RTP_RANGE ensures index[x] == Slot(Newest(log', mid, x), max) {
      NewestDepends(log, log', mid, x);
    }
  }
}
