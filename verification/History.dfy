/** Runs of a receiving flow between two resets: packets arriving and passes of the reader, in
    any order. */
module History {
  import opened Clock
  import opened Pass
  import Receiver
  import opened Ring
  import opened SeqNo

  /** What happens to a flow: a packet arrives, or the reader passes over the ring. */
  datatype Input =
    | Arrives(seqNo: nat, data: seq<int>, sourceTime: nat, packetTime: nat, lastPacketTs: nat, now: nat, retry: bool)
    | Reads(clock: nat -> nat)

  /** And what comes of it. */
  datatype Result = Refused | Taken | Read(exits: seq<Exit>, blocks: seq<Block>, why: Ending)

  function Start(input: Input): nat {
    match input
    case Arrives(_, _, _, _, _, now, _) => now
    case Reads(clock) => Tick(clock, 0)
  }

  /** The inputs come in the order of their times. */
  ghost predicate InOrder(inputs: seq<Input>, shortSeq: bool) {
    && (forall i, j :: 0 <= i <= j < |inputs| ==> Start(inputs[i]) <= Start(inputs[j]))
    && (forall i :: 0 <= i < |inputs| && inputs[i].Arrives? ==> inputs[i].seqNo < Modulus(shortSeq))
    && forall i :: 0 <= i < |inputs| && inputs[i].Reads? ==> Running(inputs[i].clock)
  }

  /** One step: a packet refused changes nothing but, perhaps, the latch; one taken is put in
      its slot; a pass is a run of rounds to its end. */
  ghost predicate Follows(a: State, b: State, input: Input, result: Result, c: Setting) {
    match result
    case Refused => input.Arrives? && b == a.(hasItems := b.hasItems)
    case Taken =>
      && input.Arrives? && |a.q| > 0 && input.seqNo % |a.q| < |a.q|
      && b == a.(q := a.q[input.seqNo % |a.q| := Held(Kept(input, c))], size := a.size + |input.data|)
    case Read(exits, blocks, why) =>
      && input.Reads? && Ran(a, exits, blocks, input.clock, c)
      && var r := Reached(a, exits, input.clock, c);
         Ends(r, why, Tick(input.clock, |exits|), Tick(input.clock, |exits| + 1), c) && b == Closed(r, why, c)
  }

  function Kept(input: Input, c: Setting): Buffer
    requires input.Arrives?
  {
    Buffer(input.seqNo, input.data, input.now, input.packetTime + c.buffer, input.sourceTime)
  }

  /** The states a flow went through, each with items but perhaps the last. */
  ghost predicate Lived(states: seq<State>, inputs: seq<Input>, results: seq<Result>, c: Setting) {
    && |states| == |results| + 1 && |results| <= |inputs|
    && forall i :: 0 <= i < |results| ==> StepAt(states, inputs, results, i, c)
  }

  ghost predicate StepAt(states: seq<State>, inputs: seq<Input>, results: seq<Result>, i: nat, c: Setting)
    requires i < |results| < |states| && |results| <= |inputs|
  {
    states[i].hasItems && Follows(states[i], states[i + 1], inputs[i], results[i], c)
  }

  /** The blocks of all passes, one after the other. */
  function Given(results: seq<Result>): seq<Block> {
    if results == [] then []
    else
      var n := |results| - 1;
      Given(results[..n]) + if results[n].Read? then results[n].blocks else []
  }

  /** Packets dropped by the reader. */
  function Dropped(results: seq<Result>): int {
    if results == [] then 0
    else
      var n := |results| - 1;
      Dropped(results[..n]) + if results[n].Read? then |results[n].exits| - |results[n].blocks| else 0
  }

  /** Numbers in gaps not counted as lost, and numbers counted for a gap the reader gave up on. */
  function Unseen(a: State, input: Input, result: Result, c: Setting): int {
    if result.Read? && input.Reads? then AllHidden(a, result.exits, input.clock, c) else 0
  }

  ghost function Ahead(a: State, input: Input, result: Result, c: Setting): int {
    if result.Read? && input.Reads? && result.why.GaveUp? then
      var r := Reached(a, result.exits, input.clock, c);
      if Meets(r, result.why.holes, c.shortSeq) then Closed(r, result.why, c).lost - r.lost else 0
    else 0
  }

  ghost function Balance(states: seq<State>, inputs: seq<Input>, results: seq<Result>, c: Setting): int
    requires |states| == |results| + 1 && |results| <= |inputs|
  {
    if results == [] then 0
    else
      var n := |results| - 1;
      Balance(states[..n + 1], inputs, results[..n], c)
      + Unseen(states[n], inputs[n], results[n], c) - Ahead(states[n], inputs[n], results[n], c)
  }

  /** No packet is taken that is more than `limit` numbers ahead of the reader. */
  ghost predicate NeverFar(states: seq<State>, inputs: seq<Input>, results: seq<Result>, c: Setting, limit: nat) {
    forall i :: 0 <= i < |results| && i < |inputs| && i < |states| && results[i].Taken? && inputs[i].Arrives? ==>
      Gap(inputs[i].seqNo, Expected(states[i], c.shortSeq), c.shortSeq) <= limit
  }

  /** No packet leaves behind a gap wider than the cap. */
  predicate AllCounted(results: seq<Result>, cap: nat) {
    forall i :: 0 <= i < |results| && results[i].Read? ==> GapsCounted(results[i].exits, cap)
  }

  lemma OneMoreCounted(results: seq<Result>, cap: nat)
    requires results != []
    ensures var n := |results| - 1;
            AllCounted(results, cap) <==> AllCounted(results[..n], cap) && (results[n].Read? ==> GapsCounted(results[n].exits, cap))
  {
    var n := |results| - 1;
    hide GapsCounted;
    assert forall i :: 0 <= i < n ==> results[..n][i] == results[i];
  }

  lemma StepTravels(a: State, b: State, input: Input, result: Result, c: Setting)
    requires Follows(a, b, input, result, c)
    ensures b.position - a.position ==
            (if result.Read? then Parts(result.blocks) + |result.exits| - |result.blocks| else 0)
            + (b.lost - a.lost) + Unseen(a, input, result, c) - Ahead(a, input, result, c)
  {
    hide Ran, Reached, AllHidden, Ends, Counted;
    if result.Read? {
      Travels(a, result.exits, result.blocks, input.clock, c);
      EndsAt(Reached(a, result.exits, input.clock, c), result.why, Tick(input.clock, |result.exits|),
             Tick(input.clock, |result.exits| + 1), c);
    }
  }

  lemma EndsAt(s: State, why: Ending, before: nat, now: nat, c: Setting)
    requires Ends(s, why, before, now, c)
    ensures why.GaveUp? ==> Meets(s, why.holes, c.shortSeq)
    ensures Closed(s, why, c).position == s.position && Closed(s, why, c).q == s.q
    ensures !why.GaveUp? ==> Closed(s, why, c).lost == s.lost
  {
    hide Counted;
  }

  lemma StepClose(a: State, b: State, input: Input, result: Result, c: Setting, limit: nat)
    requires Follows(a, b, input, result, c) && Close(a, c.shortSeq, limit)
    requires result.Taken? ==> input.seqNo < Modulus(c.shortSeq)
    requires result.Taken? ==> Gap(input.seqNo, Expected(a, c.shortSeq), c.shortSeq) <= limit
    ensures Close(b, c.shortSeq, limit) && |b.q| == |a.q| && Unseen(a, input, result, c) >= 0
    ensures Unseen(a, input, result, c) == 0 <==> (result.Read? ==> GapsCounted(result.exits, if c.shortSeq then 32768 else |a.q| / 2))
    ensures result.Read? ==> GapsCounted(result.exits, limit)
  {
    hide Ran, Reached, AllHidden, Ends, Counted, CloseRing, Closed, GapsCounted;
    match result
    case Refused =>
    case Taken =>
      PutClose(a.q, Expected(a, c.shortSeq), c.shortSeq, Kept(input, c), limit);
    case Read(exits, blocks, why) =>
      HiddenExactly(a, exits, blocks, input.clock, c, limit);
      EndsAt(Reached(a, exits, input.clock, c), why, Tick(input.clock, |exits|), Tick(input.clock, |exits| + 1), c);
  }

  lemma PutClose(q: seq<Slot>, next: nat, shortSeq: bool, b: Buffer, limit: nat)
    requires CloseRing(q, next, shortSeq, limit) && b.seqNo < Modulus(shortSeq) && Gap(b.seqNo, next, shortSeq) <= limit
    ensures b.seqNo % |q| < |q| && CloseRing(q[b.seqNo % |q| := Held(b)], next, shortSeq, limit)
  {
    hide Gap, Placed, Near;
    PutPlaced(q, shortSeq, b);
    PutNear(q, next, shortSeq, b, limit);
  }

  lemma Shorter(states: seq<State>, inputs: seq<Input>, results: seq<Result>, c: Setting)
    requires Lived(states, inputs, results, c) && results != []
    ensures var n := |results| - 1;
            Lived(states[..n + 1], inputs, results[..n], c) && StepAt(states, inputs, results, n, c)
    ensures forall limit: nat :: NeverFar(states, inputs, results, c, limit) ==>
              var n := |results| - 1; NeverFar(states[..n + 1], inputs, results[..n], c, limit)
  {
    hide Follows, Gap;
    var n := |results| - 1;
    var front, some := states[..n + 1], results[..n];
    forall i | 0 <= i < n ensures StepAt(front, inputs, some, i, c) {
      assert StepAt(states, inputs, results, i, c);
    }
  }

  /** Between two resets the distance the reader travelled is what was handed over, dropped
      and counted as lost, and what lies in gaps wider than the cap. */
  lemma {:induction false} Account(states: seq<State>, inputs: seq<Input>, results: seq<Result>, c: Setting)
    requires Lived(states, inputs, results, c)
    ensures var n := |results|;
            states[n].position - states[0].position ==
            Parts(Given(results)) + Dropped(results) + (states[n].lost - states[0].lost) + Balance(states, inputs, results, c)
    decreases |results|
  {
    if results != [] {
      hide Follows, Unseen, Ahead, Lived;
      var n := |results| - 1;
      Shorter(states, inputs, results, c);
      Account(states[..n + 1], inputs, results[..n], c);
      StepTravels(states[n], states[n + 1], inputs[n], results[n], c);
      PartsAdd(Given(results[..n]), if results[n].Read? then results[n].blocks else []);
    }
  }

  /** Where every packet is taken less than a ring ahead, distance is delivered plus dropped
      plus lost if and only if no packet left behind a gap wider than the cap, as long as the
      flow has items. */
  lemma {:induction false} AccountExact(states: seq<State>, inputs: seq<Input>, results: seq<Result>, c: Setting, limit: nat)
    requires Lived(states, inputs, results, c) && InOrder(inputs, c.shortSeq)
    requires NeverFar(states, inputs, results, c, limit) && Close(states[0], c.shortSeq, limit)
    ensures var n := |results|; Close(states[n], c.shortSeq, limit) && |states[n].q| == |states[0].q|
    ensures AllCounted(results, limit)
    ensures states[|results|].hasItems ==>
      && Balance(states, inputs, results, c) >= 0
      && (Balance(states, inputs, results, c) == 0 <==> AllCounted(results, if c.shortSeq then 32768 else |states[0].q| / 2))
    decreases |results|
  {
    if results == [] {
    } else {
      hide Follows, Unseen, Ahead, Lived, Close, Gap, Modulus, AllCounted, GapsCounted;
      var n, cap := |results| - 1, if c.shortSeq then 32768 else |states[0].q| / 2;
      Shorter(states, inputs, results, c);
      AccountExact(states[..n + 1], inputs, results[..n], c, limit);
      StepClose(states[n], states[n + 1], inputs[n], results[n], c, limit);
      NotAhead(states[n], states[n + 1], inputs[n], results[n], c);
      OneMoreCounted(results, cap);
      OneMoreCounted(results, limit);
    }
  }

  /** So it is where nothing is ever farther ahead than the cap. */
  lemma NeverFarIsExact(states: seq<State>, inputs: seq<Input>, results: seq<Result>, c: Setting)
    requires Lived(states, inputs, results, c) && InOrder(inputs, c.shortSeq) && states[|results|].hasItems
    requires NeverFar(states, inputs, results, c, if c.shortSeq then 32768 else |states[0].q| / 2)
    requires Close(states[0], c.shortSeq, if c.shortSeq then 32768 else |states[0].q| / 2)
    ensures Balance(states, inputs, results, c) == 0
  {
    var cap := if c.shortSeq then 32768 else |states[0].q| / 2;
    hide Lived, NeverFar, Close, AllCounted, Balance;
    AccountExact(states, inputs, results, c, cap);
  }

  /** In a 16-bit flow everything is less than a ring ahead. */
  lemma ShortIsNear(states: seq<State>, inputs: seq<Input>, results: seq<Result>, c: Setting)
    requires c.shortSeq && |states| > 0 && RingSize(|states[0].q|, true) && Placed(states[0].q, true)
    ensures NeverFar(states, inputs, results, c, B16 - 1) && Close(states[0], true, B16 - 1)
  {
  }

  /** Nothing is counted ahead unless the flow is reset. */
  lemma NotAhead(a: State, b: State, input: Input, result: Result, c: Setting)
    requires Follows(a, b, input, result, c)
    ensures b.hasItems ==> Ahead(a, input, result, c) == 0
  {
    hide Ran, Reached, Ends, Counted, Meets;
  }

  // ----- the flow itself ----------------------------------------------------------------------

  /** One input to a flow with items. */
  method Do(f: Receiver.Flow, input: Input, merging: bool) returns (ghost result: Result, blocks: seq<Block>)
    requires f.Valid() && f.hasItems && Past(f.queue[..], Start(input))
    requires if input.Arrives? then input.seqNo < Modulus(f.shortSeq) else Running(input.clock)
    modifies f, f.queue
    ensures f.Valid() && Past(f.queue[..], Start(input))
    ensures Follows(old(f.View()), f.View(), input, result, f.Settings(merging))
    ensures blocks == if result.Read? then result.blocks else []
  {
    hide Receiver.Flow.Valid, Past, Modulus, Ran, Reached, Ends, Closed, Remains, Delivered, DroppedLate, Ascending, WentIdle,
         Receiver.Flow.LiveRing, Receiver.Flow.NearRing, Receiver.HandedOver;
    match input
    case Arrives(seqNo, data, sourceTime, packetTime, lastPacketTs, now, retry) =>
      RingThere(f, seqNo);
      var r, _ := f.Enqueue(seqNo, data, sourceTime, packetTime, lastPacketTs, now, retry);
      result := if r == 0 then Taken else Refused;
      blocks := [];
    case Reads(clock) =>
      ghost var exits, why;
      blocks, exits, why := f.Output(clock, merging);
      result := Read(exits, blocks, why);
  }

  lemma RingThere(f: Receiver.Flow, seqNo: nat)
    requires f.Valid()
    ensures f.queue.Length == f.queueMax > 0 && seqNo % f.queueMax < f.queueMax
  {
  }

  lemma OneMoreStep(states: seq<State>, inputs: seq<Input>, results: seq<Result>, b: State, result: Result, c: Setting)
    requires Lived(states, inputs, results, c) && |results| < |inputs| && states[|results|].hasItems
    requires Follows(states[|results|], b, inputs[|results|], result, c)
    ensures Lived(states + [b], inputs, results + [result], c)
    ensures Given(results + [result]) == Given(results) + if result.Read? then result.blocks else []
  {
    hide Follows;
    var more, all := states + [b], results + [result];
    forall i | 0 <= i < |all| ensures StepAt(more, inputs, all, i, c) {
      if i < |results| {
        assert StepAt(states, inputs, results, i, c);
      }
    }
    assert all[..|results|] == results;
  }

  lemma FlowPlaced(f: Receiver.Flow)
    requires f.Valid()
    ensures RingSize(f.queueMax, f.shortSeq) && |f.View().q| == f.queueMax && Placed(f.View().q, f.shortSeq)
  {
  }

  /** A flow with items goes on until the inputs end or it is reset. What it travelled is
      delivered plus dropped plus lost, and what lies in gaps wider than the cap. As long as it
      was not reset and every packet was taken less than a ring ahead, as it always is in a
      16-bit flow, there is nothing of that exactly if no packet left behind such a gap. */
  method Run(f: Receiver.Flow, inputs: seq<Input>, merging: bool, ghost limit: nat)
    returns (blocks: seq<Block>, ghost states: seq<State>, ghost results: seq<Result>)
    requires f.Valid() && f.hasItems && InOrder(inputs, f.shortSeq)
    requires inputs != [] ==> Past(f.queue[..], Start(inputs[0]))
    modifies f, f.queue
    ensures f.Valid() && Lived(states, inputs, results, f.Settings(merging))
    ensures states[0] == old(f.View()) && states[|results|] == f.View() && (|results| == |inputs| || !f.hasItems)
    ensures blocks == Given(results)
    ensures f.View().position - old(f.View().position)
            == Parts(blocks) + Dropped(results) + (f.lost - old(f.lost)) + Balance(states, inputs, results, f.Settings(merging))
    ensures old(Close(f.View(), f.shortSeq, limit)) && NeverFar(states, inputs, results, f.Settings(merging), limit) && f.hasItems ==>
              var balance, widest := Balance(states, inputs, results, f.Settings(merging)), if f.shortSeq then 32768 else f.queueMax / 2;
              && balance >= 0 && (balance == 0 <==> AllCounted(results, widest)) && (limit <= widest ==> balance == 0)
    ensures f.shortSeq && f.hasItems ==>
              && Balance(states, inputs, results, f.Settings(merging)) >= 0
              && (Balance(states, inputs, results, f.Settings(merging)) == 0 <==> AllCounted(results, 32768))
  {
    hide Receiver.Flow.Valid, Past, Modulus, Follows, Lived, Close, NeverFar, Balance, AllCounted;
    ghost var c := f.Settings(merging);
    blocks, states, results := [], [f.View()], [];
    NoSteps(f.View(), inputs, c);
    FlowPlaced(f);
    ghost var start := f.View();
    var n := 0;
    while n < |inputs| && f.hasItems
      invariant n == |results| <= |inputs| && |states| == n + 1 && f.Valid() && states[n] == f.View()
      invariant Lived(states, inputs, results, c) && states[0] == start && blocks == Given(results)
      invariant n < |inputs| ==> Past(f.queue[..], Start(inputs[n]))
    {
      ghost var result;
      var given;
      result, given := Do(f, inputs[n], merging);
      OneMoreStep(states, inputs, results, f.View(), result, c);
      blocks, states, results := blocks + given, states + [f.View()], results + [result];
      if n + 1 < |inputs| {
        PastLater(f.queue[..], Start(inputs[n]), Start(inputs[n + 1]));
      }
      n := n + 1;
    }
    Account(states, inputs, results, c);
    if Close(start, f.shortSeq, limit) && NeverFar(states, inputs, results, c, limit) {
      AccountExact(states, inputs, results, c, limit);
      WiderCap(results, limit, if f.shortSeq then 32768 else f.queueMax / 2);
    }
    if f.shortSeq {
      ShortIsNear(states, inputs, results, c);
      AccountExact(states, inputs, results, c, B16 - 1);
    }
  }

  lemma WiderCap(results: seq<Result>, limit: nat, cap: nat)
    requires AllCounted(results, limit)
    ensures limit <= cap ==> AllCounted(results, cap)
  {
  }

  lemma NoSteps(s: State, inputs: seq<Input>, c: Setting)
    ensures Lived([s], inputs, [], c)
  {
  }
}
