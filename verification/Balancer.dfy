/** Weighted balancing of packets over bonded caller legs: `rist_sender_send_data_balanced`
    of src/udp.c with the ramped weight of src/rist-rtt-mute.h. */
module Balancer {
  import opened Arith

  const RIST_CLOCK: nat := 4294967
  const UINT64_MAX: nat := 0xffff_ffff_ffff_ffff

  /** What one leg looks like to the balancer. `shut` stands for a leg that is not
      authenticated or is dead beyond its buffer, judged at the time of the packet. */
  datatype View = View(weight: nat, wCount: nat, isData: bool, hasParent: bool, shut: bool, dead: bool,
                       rttMuted: bool, stalled: bool, eightTimesRtt: nat, recoveryLengthMax: nat,
                       trickleEvery: nat, trickleCount: nat, rampStart: nat, rttDropSettle: nat)

  // ----- share of a rejoining leg -------------------------------------------------------

  /** `rist_rtt_ramped_weight`. */
  function RampedWeight(weight: nat, rampStart: nat, ramp: nat, now: nat): (w: nat)
    ensures w <= weight
    ensures weight > 0 ==> w > 0
  {
    if rampStart == 0 || ramp == 0 || weight <= 1 then weight
    else if now <= rampStart || now - rampStart >= ramp then weight
    else
      Scaled(weight, now - rampStart, ramp);
      var scaled := weight * (now - rampStart) / ramp;
      if scaled != 0 then scaled else 1
  }

  lemma Scaled(weight: nat, part: nat, whole: nat)
    requires part < whole
    ensures 0 <= weight * part / whole <= weight
  {
    assert weight * part <= weight * whole;
    Quotient(weight * part, weight, whole);
  }

  lemma Quotient(x: nat, q: nat, d: nat)
    requires d > 0 && x <= q * d
    ensures 0 <= x / d <= q
  {
    DivMod(x, d);
    Sign(x / d - q, d);
    assert (x / d - q) * d == x / d * d - q * d;
  }

  lemma QuotientGrows(x: nat, y: nat, d: nat)
    requires d > 0 && x <= y
    ensures x / d <= y / d
  {
    DivMod(x, d);
    DivMod(y, d);
    Sign(x / d - y / d, d);
    assert (x / d - y / d) * d == x / d * d - y / d * d;
  }

  /** Once it has begun, the ramp only rises, and it ends at the full weight. */
  lemma RampRises(weight: nat, rampStart: nat, ramp: nat, now: nat, later: nat)
    requires rampStart < now <= later
    ensures RampedWeight(weight, rampStart, ramp, now) <= RampedWeight(weight, rampStart, ramp, later)
    ensures later - rampStart >= ramp ==> RampedWeight(weight, rampStart, ramp, later) == weight
  {
    if rampStart != 0 && ramp != 0 && weight > 1 && later - rampStart < ramp {
      assert weight * (now - rampStart) <= weight * (later - rampStart);
      QuotientGrows(weight * (now - rampStart), weight * (later - rampStart), ramp);
    }
  }

  /** While the ramp runs, the share grows with time in proportion, rounded down, but is
      never nothing; before and after it is the whole weight. */
  lemma RampIs(weight: nat, rampStart: nat, ramp: nat, now: nat)
    ensures var w := RampedWeight(weight, rampStart, ramp, now);
            if rampStart == 0 || now <= rampStart || now >= rampStart + ramp then w == weight
            else if weight > 1 && w > 1 then w * ramp <= weight * (now - rampStart) < w * ramp + ramp
            else w == (if weight == 0 then 0 else 1) && (weight > 1 ==> weight * (now - rampStart) < 2 * ramp)
  {
    if rampStart != 0 && ramp != 0 && rampStart < now < rampStart + ramp {
      DivMod(weight * (now - rampStart), ramp);
    }
  }

  /** `rist_peer_effective_weight`. */
  function Effective(v: View, now: nat): nat {
    RampedWeight(v.weight, v.rampStart, 2 * v.rttDropSettle * 4294967, now)
  }

  // ----- one leg in the pass over the legs ------------------------------------------------

  predicate TakesPart(v: View) {
    v.isData && !v.hasParent
  }

  predicate Held(v: View) {
    TakesPart(v) && !v.shut && (v.rttMuted || v.stalled)
  }

  predicate Skipped(v: View) {
    TakesPart(v) && (v.shut || v.rttMuted || v.stalled)
  }

  predicate Open(v: View) {
    TakesPart(v) && !v.shut && !v.rttMuted && !v.stalled
  }

  predicate Duplicate(v: View) {
    Open(v) && v.weight == 0
  }

  predicate Weighted(v: View) {
    Open(v) && v.weight != 0
  }

  /** `rist_rtt_trickle_useful`, with the other conditions for a trickle to be counted. */
  predicate MayTrickle(v: View) {
    && Held(v) && v.rttMuted && v.trickleEvery > 0 && !v.dead
    && (v.recoveryLengthMax == 0 || v.eightTimesRtt / 16 <= v.recoveryLengthMax * 4294967)
  }

  predicate Trickles(v: View) {
    MayTrickle(v) && v.trickleCount + 1 >= v.trickleEvery
  }

  function Passed(v: View, now: nat): View {
    if Skipped(v) then
      v.(wCount := Effective(v, now),
         trickleCount := if Trickles(v) then 0 else if MayTrickle(v) then v.trickleCount + 1 else v.trickleCount)
    else v
  }

  function Smoothed(v: View): nat {
    if v.eightTimesRtt == 0 then 0xffff_ffff_ffff_ffff else v.eightTimesRtt / 8
  }

  // ----- the pass over all legs -------------------------------------------------------------

  /** Legs the packet goes out on during the pass: duplicates and due trickles. */
  function Early(vs: seq<View>): (e: seq<nat>)
    ensures forall i :: 0 <= i < |e| ==> e[i] < |vs| && (Duplicate(vs[e[i]]) || Trickles(vs[e[i]]))
    ensures forall x :: 0 <= x < |vs| && (Duplicate(vs[x]) || Trickles(vs[x])) ==> x in e
    ensures forall i, j :: 0 <= i < j < |e| ==> e[i] < e[j]
  {
    if vs == [] then []
    else
      var n := |vs| - 1;
      var e := Early(vs[..n]);
      assert forall x :: 0 <= x < n ==> vs[..n][x] == vs[x];
      if Duplicate(vs[n]) || Trickles(vs[n]) then e + [n] else e
  }

  /** The leg elected to carry the packet: the first with the most weight left, -1 if every
      open weighted leg has spent its share. */
  function Elect(vs: seq<View>): (k: int)
    ensures -1 <= k < |vs|
    ensures k >= 0 ==> Weighted(vs[k]) && vs[k].wCount > 0
    ensures forall j :: 0 <= j < |vs| && Weighted(vs[j]) ==> vs[j].wCount <= Remainder(vs, k)
    ensures forall j :: 0 <= j < k && Weighted(vs[j]) ==> vs[j].wCount < Remainder(vs, k)
  {
    if vs == [] then -1
    else
      var n := |vs| - 1;
      var k := Elect(vs[..n]);
      if Weighted(vs[n]) && vs[n].wCount > Remainder(vs[..n], k) then n else k
  }

  function Remainder(vs: seq<View>, k: int): nat
    requires -1 <= k < |vs|
  {
    if k == -1 then 0 else vs[k].wCount
  }

  predicate CanFallBack(v: View) {
    Held(v) && !v.dead
  }

  /** Of two held legs, the one to fall back to rather. */
  predicate Beats(a: View, b: View) {
    (b.stalled && !a.stalled) || (a.stalled == b.stalled && Smoothed(a) < Smoothed(b))
  }

  function Fallback(vs: seq<View>): (k: int)
    ensures -1 <= k < |vs|
    ensures k >= 0 ==> CanFallBack(vs[k])
    ensures forall j :: 0 <= j < |vs| && CanFallBack(vs[j]) ==> k >= 0 && !Beats(vs[j], vs[k])
  {
    if vs == [] then -1
    else
      var n := |vs| - 1;
      var k := Fallback(vs[..n]);
      if CanFallBack(vs[n]) && (k == -1 || Beats(vs[n], vs[k])) then n else k
  }

  /** The weight counter after every skipped leg's share is taken from it. */
  function Drained(vs: seq<View>, counter: int, total: nat): int {
    if vs == [] then counter
    else
      var n := |vs| - 1;
      var c := Drained(vs[..n], counter, total);
      if !Skipped(vs[n]) then c else if c - vs[n].weight <= 0 then total else c - vs[n].weight
  }

  function OpenCount(vs: seq<View>): (n: nat)
    ensures n == 0 <==> forall j :: 0 <= j < |vs| ==> !Open(vs[j])
  {
    if vs == [] then 0 else OpenCount(vs[..|vs| - 1]) + if Open(vs[|vs| - 1]) then 1 else 0
  }

  function PassedAll(vs: seq<View>, now: nat): (r: seq<View>)
    ensures |r| == |vs| && forall i :: 0 <= i < |vs| ==> r[i] == Passed(vs[i], now)
  {
    seq(|vs|, i requires 0 <= i < |vs| => Passed(vs[i], now))
  }

  function ResetAll(vs: seq<View>, now: nat): (r: seq<View>)
    ensures |r| == |vs| && forall i :: 0 <= i < |vs| ==> r[i] == vs[i].(wCount := Effective(vs[i], now))
  {
    seq(|vs|, i requires 0 <= i < |vs| => vs[i].(wCount := Effective(vs[i], now)))
  }

  // ----- one packet ---------------------------------------------------------------------------

  /** After the pass the packet goes to the elected leg or, where none is open at all, to
      the one to fall back to. */
  function Late(vs: seq<View>): (e: seq<nat>) {
    var k, f := Elect(vs), Fallback(vs);
    if k >= 0 then [k] else if OpenCount(vs) == 0 && f >= 0 then [f] else []
  }

  function Egress(vs: seq<View>): seq<nat> {
    Early(vs) + Late(vs)
  }

  datatype SendState = SendState(vs: seq<View>, counter: int)

  /** A share spent by the elected leg, and all shares restored where the counter is used up
      or nobody was elected. */
  function Settle(vs: seq<View>, k: int, counter: int, total: nat, now: nat): (s: SendState)
    requires -1 <= k < |vs| && (k >= 0 ==> vs[k].wCount > 0)
    ensures |s.vs| == |vs|
  {
    var spent := if k >= 0 then Spent(vs, k) else vs;
    var left := if k >= 0 then counter - 1 else counter;
    if total > 0 && (left == 0 || k == -1) then SendState(ResetAll(spent, now), total) else SendState(spent, left)
  }

  function Spent(vs: seq<View>, k: nat): seq<View>
    requires k < |vs| && vs[k].wCount > 0
  {
    vs[k := vs[k].(wCount := vs[k].wCount - 1)]
  }

  /** `rist_sender_send_data_balanced`; the retry after the reset never runs. */
  function Send(vs: seq<View>, counter: int, total: nat, now: nat): (s: SendState)
    ensures |s.vs| == |vs|
  {
    Settle(PassedAll(vs, now), Elect(vs), Drained(vs, counter, total), total, now)
  }

  /** No leg carries the packet exactly if no duplicate leg is open and no trickle is due,
      every open weighted leg has spent its share, and there is no leg to fall back to, be
      it only because some open leg is left. */
  lemma DroppedExactly(vs: seq<View>)
    ensures Egress(vs) == [] <==>
              && (forall i :: 0 <= i < |vs| ==> !Duplicate(vs[i]) && !Trickles(vs[i]))
              && (forall i :: 0 <= i < |vs| && Weighted(vs[i]) ==> vs[i].wCount == 0)
              && ((exists i :: 0 <= i < |vs| && Open(vs[i])) || forall i :: 0 <= i < |vs| ==> !CanFallBack(vs[i]))
  {
    var e := Early(vs);
    if e != [] {
      assert Duplicate(vs[e[0]]) || Trickles(vs[e[0]]);
    }
  }

  /** Every packet goes once to each open duplicate leg and to at most one other leg that
      is not due a trickle. */
  lemma WherePacketsGo(vs: seq<View>, i: nat)
    requires i < |vs|
    ensures Duplicate(vs[i]) ==> multiset(Egress(vs))[i] == 1
    ensures Weighted(vs[i]) ==> multiset(Egress(vs))[i] == if i == Elect(vs) then 1 else 0
    ensures !vs[i].isData || vs[i].hasParent || vs[i].shut ==> i !in Egress(vs)
  {
    hide Early, Elect, Fallback, OpenCount;
    Once(Early(vs), i);
    assert multiset(Egress(vs))[i] == multiset(Early(vs))[i] + multiset(Late(vs))[i];
    var e := Early(vs);
    if i in e {
      var x :| 0 <= x < |e| && e[x] == i;
    }
  }

  lemma Once(e: seq<nat>, x: nat)
    requires forall i, j :: 0 <= i < j < |e| ==> e[i] < e[j]
    ensures multiset(e)[x] == if x in e then 1 else 0
  {
    if e != [] {
      var n := |e| - 1;
      Once(e[..n], x);
      assert e == e[..n] + [e[n]];
    }
  }

  // ----- exact shares ---------------------------------------------------------------------

  function Weights(vs: seq<View>): nat {
    if vs == [] then 0 else Weights(vs[..|vs| - 1]) + vs[|vs| - 1].weight
  }

  function Counts(vs: seq<View>): nat {
    if vs == [] then 0 else Counts(vs[..|vs| - 1]) + vs[|vs| - 1].wCount
  }

  /** Every leg is open and none is ramping. */
  predicate Steady(vs: seq<View>, now: nat) {
    forall i :: 0 <= i < |vs| ==> Open(vs[i]) && Effective(vs[i], now) == vs[i].weight
  }

  /** The counter is what is left of the legs' shares, and a round is never left spent. */
  predicate Consistent(vs: seq<View>, counter: int, total: nat) {
    && total == Weights(vs) && counter == Counts(vs)
    && (forall i :: 0 <= i < |vs| ==> vs[i].wCount <= vs[i].weight)
    && (total > 0 ==> counter > 0)
  }

  lemma {:induction false} SteadyPass(vs: seq<View>, counter: int, total: nat, now: nat)
    requires Steady(vs, now)
    ensures PassedAll(vs, now) == vs && Drained(vs, counter, total) == counter
  {
    if vs != [] {
      SteadyPass(vs[..|vs| - 1], counter, total, now);
    }
  }

  lemma {:induction false} CountsBound(vs: seq<View>, i: nat)
    requires i < |vs|
    ensures vs[i].wCount <= Counts(vs)
  {
    if i < |vs| - 1 {
      CountsBound(vs[..|vs| - 1], i);
    }
  }

  lemma {:induction false} CountsUpdate(vs: seq<View>, i: nat, v: View)
    requires i < |vs|
    ensures Counts(vs[i := v]) == Counts(vs) - vs[i].wCount + v.wCount
    ensures v.weight == vs[i].weight ==> Weights(vs[i := v]) == Weights(vs)
  {
    var n := |vs| - 1;
    if i < n {
      CountsUpdate(vs[..n], i, v);
      assert vs[i := v][..n] == vs[..n][i := v];
    } else {
      assert vs[i := v][..n] == vs[..n];
    }
  }

  lemma {:induction false} CountsEmpty(vs: seq<View>)
    requires forall i :: 0 <= i < |vs| ==> vs[i].wCount == 0
    ensures Counts(vs) == 0
  {
    if vs != [] {
      CountsEmpty(vs[..|vs| - 1]);
    }
  }

  lemma {:induction false} CountsFull(vs: seq<View>, us: seq<View>)
    requires |us| == |vs| && forall i :: 0 <= i < |vs| ==> us[i].weight == vs[i].weight
    requires forall i :: 0 <= i < |vs| ==> us[i].wCount == us[i].weight
    ensures Weights(us) == Counts(us) == Weights(vs)
  {
    if vs != [] {
      CountsFull(vs[..|vs| - 1], us[..|us| - 1]);
    }
  }

  function Full(vs: seq<View>): (r: seq<View>)
    ensures |r| == |vs| && forall i :: 0 <= i < |vs| ==> r[i] == vs[i].(wCount := vs[i].weight)
  {
    seq(|vs|, i requires 0 <= i < |vs| => vs[i].(wCount := vs[i].weight))
  }

  /** A packet over steady legs takes one share from the elected leg, and there is one as
      long as some leg has weight; the last share of a round fills them all again. */
  lemma SteadySend(vs: seq<View>, counter: int, total: nat, now: nat)
    requires Steady(vs, now) && Consistent(vs, counter, total) && total > 0
    ensures var k := Elect(vs);
            && k >= 0
            && Send(vs, counter, total, now).vs == (if counter == 1 then Full(vs) else Spent(vs, k))
            && Send(vs, counter, total, now).counter == (if counter == 1 then total else counter - 1)
    ensures Consistent(Send(vs, counter, total, now).vs, Send(vs, counter, total, now).counter, total)
  {
    hide Elect, Drained, PassedAll, Effective;
    SteadyPass(vs, counter, total, now);
    var k := Elect(vs);
    SomeoneElected(vs);
    CountsUpdate(vs, k, vs[k].(wCount := vs[k].wCount - 1));
    if counter == 1 {
      assert ResetAll(Spent(vs, k), now) == Full(vs) by {
        Refill(vs, k, now);
      }
      CountsFull(vs, Full(vs));
    }
  }

  lemma SomeoneElected(vs: seq<View>)
    requires forall i :: 0 <= i < |vs| ==> Open(vs[i]) && vs[i].wCount <= vs[i].weight
    requires Counts(vs) > 0
    ensures Elect(vs) >= 0
  {
    if Elect(vs) == -1 {
      CountsEmpty(vs);
    }
  }

  lemma Refill(vs: seq<View>, k: nat, now: nat)
    requires Steady(vs, now) && k < |vs| && vs[k].wCount > 0
    ensures ResetAll(Spent(vs, k), now) == Full(vs)
  {
    var r, f := ResetAll(Spent(vs, k), now), Full(vs);
    forall i | 0 <= i < |vs| ensures r[i] == f[i] {
      assert Spent(vs, k)[i].(wCount := vs[i].wCount) == vs[i];
      assert Effective(Spent(vs, k)[i], now) == Effective(vs[i], now);
    }
  }

  // ----- runs -------------------------------------------------------------------------------

  /** The state after packets sent at the given times. */
  function Run(s: SendState, total: nat, times: seq<nat>): (r: SendState)
    ensures |r.vs| == |s.vs|
  {
    if times == [] then s
    else
      var p := Run(s, total, times[..|times| - 1]);
      Send(p.vs, p.counter, total, times[|times| - 1])
  }

  /** How many of those packets leg `i` was elected to carry. */
  function Served(s: SendState, total: nat, times: seq<nat>, i: nat): nat {
    if times == [] then 0
    else
      Served(s, total, times[..|times| - 1], i)
      + if Elect(Run(s, total, times[..|times| - 1]).vs) == i then 1 else 0
  }

  predicate RoundStart(s: SendState, total: nat) {
    && total == s.counter == Weights(s.vs) && total > 0
    && forall i :: 0 <= i < |s.vs| ==> s.vs[i].wCount == s.vs[i].weight
  }

  predicate SteadyThrough(vs: seq<View>, times: seq<nat>) {
    forall t :: 0 <= t < |times| ==> Steady(vs, times[t])
  }

  /** `us` is `vs` with each leg's share less what it has served. */
  predicate LessServed(us: seq<View>, s: SendState, total: nat, times: seq<nat>) {
    && |us| == |s.vs|
    && forall i :: 0 <= i < |us| ==>
         && Served(s, total, times, i) <= s.vs[i].weight
         && us[i] == s.vs[i].(wCount := s.vs[i].weight - Served(s, total, times, i))
  }

  lemma {:induction false} Partway(s: SendState, total: nat, times: seq<nat>)
    requires RoundStart(s, total) && |times| < total && SteadyThrough(s.vs, times)
    ensures var r := Run(s, total, times);
            r.counter == total - |times| && Consistent(r.vs, r.counter, total) && LessServed(r.vs, s, total, times)
  {
    hide Send, Elect, Effective;
    if times == [] {
      CountsFull(s.vs, s.vs);
    } else {
      var init, now := times[..|times| - 1], times[|times| - 1];
      Partway(s, total, init);
      var p := Run(s, total, init);
      StaysSteady(s, p.vs, total, init, now);
      SteadySend(p.vs, p.counter, total, now);
    }
  }

  lemma StaysSteady(s: SendState, us: seq<View>, total: nat, times: seq<nat>, now: nat)
    requires LessServed(us, s, total, times) && Steady(s.vs, now)
    ensures Steady(us, now)
  {
    forall i | 0 <= i < |us| ensures Open(us[i]) && Effective(us[i], now) == us[i].weight {
      assert Open(s.vs[i]) && Effective(s.vs[i], now) == s.vs[i].weight;
    }
  }

  /** A round of as many packets as there is weight gives every leg exactly its weight, and
      ends where it began. */
  lemma {:induction false} Round(s: SendState, total: nat, times: seq<nat>)
    requires RoundStart(s, total) && |times| == total && SteadyThrough(s.vs, times)
    ensures Run(s, total, times) == s
    ensures forall i :: 0 <= i < |s.vs| ==> Served(s, total, times, i) == s.vs[i].weight
  {
    hide Send, Elect, Effective;
    var init, now := times[..total - 1], times[total - 1];
    Partway(s, total, init);
    var p := Run(s, total, init);
    StaysSteady(s, p.vs, total, init, now);
    SteadySend(p.vs, p.counter, total, now);
    var k := Elect(p.vs);
    assert Full(p.vs) == s.vs;
    forall i | 0 <= i < |s.vs| ensures Served(s, total, times, i) == s.vs[i].weight {
      if i == k {
        CountsBound(p.vs, i);
      } else {
        OneLeft(p.vs, k, i);
      }
    }
  }

  /** With one share left in all and leg `k` elected, the others have none. */
  lemma OneLeft(vs: seq<View>, k: nat, i: nat)
    requires k < |vs| && i < |vs| && i != k && Counts(vs) == 1 && vs[k].wCount > 0
    ensures vs[i].wCount == 0
  {
    var v := vs[k].(wCount := vs[k].wCount - 1);
    CountsUpdate(vs, k, v);
    CountsBound(vs[k := v], i);
  }

  lemma {:induction false} RunsAdd(s: SendState, total: nat, times: seq<nat>, more: seq<nat>, i: nat)
    ensures Run(s, total, times + more) == Run(Run(s, total, times), total, more)
    ensures Served(s, total, times + more, i) == Served(s, total, times, i) + Served(Run(s, total, times), total, more, i)
  {
    hide Send, Elect;
    if more == [] {
      assert times + more == times;
    } else {
      RunsAdd(s, total, times, more[..|more| - 1], i);
      assert (times + more)[..|times + more| - 1] == times + more[..|more| - 1];
    }
  }

  /** Over any number of rounds every leg carries its weight once a round. */
  lemma {:induction false} Rounds(s: SendState, total: nat, times: seq<nat>, rounds: nat, i: nat)
    requires RoundStart(s, total) && |times| == rounds * total && SteadyThrough(s.vs, times) && i < |s.vs|
    ensures Run(s, total, times) == s && Served(s, total, times, i) == rounds * s.vs[i].weight
  {
    hide Steady, Run, Served, RoundStart;
    if rounds == 0 {
      NoPackets(s, total, i);
    } else {
      OneRoundMore(rounds - 1, total);
      OneRoundMore(rounds - 1, s.vs[i].weight);
      var n := (rounds - 1) * total;
      assert times == times[..n] + times[n..];
      Rounds(s, total, times[..n], rounds - 1, i);
      Round(s, total, times[n..]);
      RunsAdd(s, total, times[..n], times[n..], i);
    }
  }

  lemma NoPackets(s: SendState, total: nat, i: nat)
    ensures Run(s, total, []) == s && Served(s, total, [], i) == 0
  {
  }

  lemma OneRoundMore(q: nat, w: nat)
    ensures 0 <= q * w && (q + 1) * w == q * w + w
  {
  }

  // ----- a muted leg starves the others -----------------------------------------------------

  const HEALTHY: View := View(5, 5, true, false, false, false, false, false, 8, 0, 0, 0, 0, 0)
  const MUTED: View := HEALTHY.(rttMuted := true)

  function Ticks(n: nat): (t: seq<nat>)
    ensures |t| == n
  {
    seq(n, _ => 0)
  }

  /** Two legs of equal weight, one muted and not trickling. The muted leg's share is drained
      from the counter at every packet, so the counter is not at zero when the healthy leg has
      spent its own share: the sixth packet is sent to nobody, though the healthy leg is open
      and the muted one alive. */
  lemma MutedLegCostsPackets()
    ensures var s := SendState([HEALTHY, MUTED], 10);
            var vs := Run(s, 10, Ticks(5)).vs;
            Egress(vs) == [] && |vs| == 2 && Open(vs[0]) && CanFallBack(vs[1])
  {
    hide Run;
    FiveSends(SendState([HEALTHY, MUTED], 10));
    LastShareSpent([HEALTHY.(wCount := 0), MUTED]);
  }

  lemma LastShareSpent(vs: seq<View>)
    requires vs == [HEALTHY.(wCount := 0), MUTED]
    ensures Egress(vs) == [] && Open(vs[0]) && CanFallBack(vs[1])
  {
    hide Egress;
    DroppedExactly(vs);
    assert vs[0] == HEALTHY.(wCount := 0) && vs[1] == MUTED;
    assert Open(vs[0]);
  }

  /** One packet over the two legs while the healthy one has a share left. */
  lemma HalfOpen(n: nat, counter: int)
    requires 0 < n <= 5 && counter in {10, 9, 4, 3}
    ensures var o := Send([HEALTHY.(wCount := n), MUTED], counter, 10, 0);
            o.vs == [HEALTHY.(wCount := n - 1), MUTED] && o.counter == (if counter == 10 then 4 else if counter == 9 then 3 else 9)
  {
    var vs := [HEALTHY.(wCount := n), MUTED];
    assert vs[..1] == [HEALTHY.(wCount := n)];
    assert vs[..1][..0] == [];
    assert Drained(vs[..1], counter, 10) == counter;
    assert Elect(vs) == 0;
    assert PassedAll(vs, 0) == vs;
  }

  lemma FiveSends(s: SendState)
    requires s == SendState([HEALTHY, MUTED], 10)
    ensures Run(s, 10, Ticks(5)) == SendState([HEALTHY.(wCount := 0), MUTED], 3)
  {
    hide Send, Run;
    assert [HEALTHY.(wCount := 5), MUTED] == s.vs;
    FirstPacket(s);
    HalfOpen(5, 10);
    NextPacket(s, 0);
    HalfOpen(4, 4);
    NextPacket(s, 1);
    HalfOpen(3, 9);
    NextPacket(s, 2);
    HalfOpen(2, 3);
    NextPacket(s, 3);
    HalfOpen(1, 9);
    NextPacket(s, 4);
  }

  lemma FirstPacket(s: SendState)
    ensures Run(s, 10, Ticks(0)) == s
  {
  }

  lemma NextPacket(s: SendState, n: nat)
    ensures var p := Run(s, 10, Ticks(n));
            Run(s, 10, Ticks(n + 1)) == Send(p.vs, p.counter, 10, 0)
  {
    hide Send;
    assert Ticks(n + 1)[..n] == Ticks(n);
  }

  // ----- the code ---------------------------------------------------------------------------

  class Leg {
    const weight: nat
    const isData: bool
    const hasParent: bool
    const recoveryLengthMax: nat
    const trickleEvery: nat
    const rttDropSettle: nat

    var shut: bool
    var dead: bool
    var rttMuted: bool
    var stalled: bool
    var eightTimesRtt: nat
    var rampStart: nat
    var wCount: nat
    var trickleCount: nat

    constructor (v: View)
      ensures this.State() == v
    {
      weight, isData, hasParent := v.weight, v.isData, v.hasParent;
      recoveryLengthMax, trickleEvery, rttDropSettle := v.recoveryLengthMax, v.trickleEvery, v.rttDropSettle;
      shut, dead, rttMuted, stalled := v.shut, v.dead, v.rttMuted, v.stalled;
      eightTimesRtt, rampStart, wCount, trickleCount := v.eightTimesRtt, v.rampStart, v.wCount, v.trickleCount;
    }

    function State(): View
      reads this
    {
      View(weight, wCount, isData, hasParent, shut, dead, rttMuted, stalled, eightTimesRtt,
           recoveryLengthMax, trickleEvery, trickleCount, rampStart, rttDropSettle)
    }

    /** A skipped leg's share is restored, and a muted leg's trickle counted. */
    method Skip(now: nat) returns (trickled: bool)
      requires Skipped(State())
      modifies this`wCount, this`trickleCount
      ensures State() == Passed(old(State()), now)
      ensures trickled == Trickles(old(State()))
    {
      trickled := false;
      if !shut && rttMuted && trickleEvery > 0 && !dead
         && (recoveryLengthMax == 0 || eightTimesRtt / 8 / 2 <= recoveryLengthMax * RIST_CLOCK) {
        trickleCount := trickleCount + 1;
        if trickleCount >= trickleEvery {
          trickleCount := 0;
          trickled := true;
        }
      }
      wCount := RampedWeight(weight, rampStart, rttDropSettle * RIST_CLOCK * 2, now);
    }
  }

  /** What the pass keeps track of. */
  datatype Tally = Tally(egress: seq<nat>, selected: int, maxRemainder: nat, fallback: int, fallbackRtt: nat,
                         fallbackStalled: bool, peercnt: nat, counter: int)

  /** The tally after the first `i` legs. */
  ghost predicate Tallied(vs: seq<View>, i: nat, counter: int, total: nat, t: Tally)
    requires i <= |vs|
  {
    && t.egress == Early(vs[..i]) && t.selected == Elect(vs[..i]) && t.maxRemainder == Remainder(vs[..i], t.selected)
    && t.fallback == Fallback(vs[..i])
    && (t.fallback >= 0 ==> t.fallbackRtt == Smoothed(vs[t.fallback]) && t.fallbackStalled == vs[t.fallback].stalled)
    && t.peercnt == OpenCount(vs[..i]) && t.counter == Drained(vs[..i], counter, total)
  }

  function Take(t: Tally, weight: nat, total: nat): Tally {
    t.(counter := if t.counter - weight <= 0 then total else t.counter - weight)
  }

  /** One leg added to the tally, branch by branch. */
  function Add(t: Tally, v: View, i: nat, total: nat): Tally {
    if !TakesPart(v) then t
    else if v.shut then Take(t, v.weight, total)
    else if v.rttMuted || v.stalled then
      var u := Take(t, v.weight, total).(egress := if Trickles(v) then t.egress + [i] else t.egress);
      if !v.dead && (t.fallback == -1 || (t.fallbackStalled && !v.stalled)
                     || (t.fallbackStalled == v.stalled && Smoothed(v) < t.fallbackRtt))
      then u.(fallback := i, fallbackRtt := Smoothed(v), fallbackStalled := v.stalled) else u
    else if v.weight == 0 then t.(peercnt := t.peercnt + 1, egress := t.egress + [i])
    else if v.wCount > t.maxRemainder then t.(peercnt := t.peercnt + 1, maxRemainder := v.wCount, selected := i)
    else t.(peercnt := t.peercnt + 1)
  }

  lemma NoLegsYet(vs: seq<View>, counter: int, total: nat, t: Tally)
    requires t.egress == [] && t.selected == t.fallback == -1 && t.maxRemainder == t.peercnt == 0 && t.counter == counter
    ensures Tallied(vs, 0, counter, total, t)
  {
  }

  lemma Extend(vs: seq<View>, i: nat, counter: int, total: nat)
    requires i < |vs|
    ensures Early(vs[..i + 1]) == if Duplicate(vs[i]) || Trickles(vs[i]) then Early(vs[..i]) + [i] else Early(vs[..i])
    ensures var k := Elect(vs[..i]);
            Elect(vs[..i + 1]) == if Weighted(vs[i]) && vs[i].wCount > Remainder(vs[..i], k) then i else k
    ensures var k := Fallback(vs[..i]);
            Fallback(vs[..i + 1]) == if CanFallBack(vs[i]) && (k == -1 || Beats(vs[i], vs[k])) then i else k
    ensures var c := Drained(vs[..i], counter, total);
            Drained(vs[..i + 1], counter, total)
            == if !Skipped(vs[i]) then c else if c - vs[i].weight <= 0 then total else c - vs[i].weight
    ensures OpenCount(vs[..i + 1]) == OpenCount(vs[..i]) + if Open(vs[i]) then 1 else 0
  {
    hide Duplicate, Trickles, Weighted, CanFallBack, Beats, Skipped, Open;
    assert vs[..i + 1][..i] == vs[..i];
  }

  lemma Tallying(vs: seq<View>, i: nat, counter: int, total: nat, t: Tally)
    requires i < |vs| && Tallied(vs, i, counter, total, t)
    ensures Tallied(vs, i + 1, counter, total, Add(t, vs[i], i, total))
  {
    hide Early, Elect, Fallback, Drained, OpenCount, Smoothed;
    Extend(vs, i, counter, total);
  }

  class Rotation {
    const legs: seq<Leg>
    const totalWeight: nat
    var weightCounter: int

    ghost predicate Distinct() {
      forall i, j :: 0 <= i < j < |legs| ==> legs[i] != legs[j]
    }

    function Views(): (vs: seq<View>)
      reads legs
      ensures |vs| == |legs| && forall i :: 0 <= i < |legs| ==> vs[i] == legs[i].State()
    {
      seq(|legs|, i requires 0 <= i < |legs| reads legs => legs[i].State())
    }

    constructor (legs: seq<Leg>)
      requires forall i, j :: 0 <= i < j < |legs| ==> legs[i] != legs[j]
      ensures this.legs == legs && Distinct() && totalWeight == weightCounter == Weights(Views())
    {
      var vs := seq(|legs|, i requires 0 <= i < |legs| reads legs => legs[i].State());
      this.legs, totalWeight, weightCounter := legs, Weights(vs), Weights(vs);
      new;
      assert vs == Views();
    }

    /** The pass over the legs. */
    method Pass(now: nat) returns (t: Tally)
      requires Distinct()
      modifies this`weightCounter, legs
      ensures Views() == PassedAll(old(Views()), now)
      ensures weightCounter == t.counter && Tallied(old(Views()), |legs|, old(weightCounter), totalWeight, t)
    {
      hide Tallied, Passed, Trickles, Leg.State, Rotation.Views;
      ghost var vs, counter := Views(), weightCounter;
      t := Tally([], -1, 0, -1, UINT64_MAX, false, 0, weightCounter);
      NoLegsYet(vs, counter, totalWeight, t);
      for i := 0 to |legs|
        invariant forall j :: i <= j < |legs| ==> legs[j].State() == vs[j]
        invariant forall j :: 0 <= j < i ==> legs[j].State() == Passed(vs[j], now)
        invariant t.counter == weightCounter && Tallied(vs, i, counter, totalWeight, t)
      {
        Tallying(vs, i, counter, totalWeight, t);
        t := PassOver(legs[i], i, t, now);
      }
      assert Views() == PassedAll(vs, now);
    }

    /** One leg in the pass. */
    method PassOver(leg: Leg, i: nat, before: Tally, now: nat) returns (t: Tally)
      requires before.counter == weightCounter
      modifies this`weightCounter, leg
      ensures t == Add(before, old(leg.State()), i, totalWeight) && t.counter == weightCounter
      ensures leg.State() == Passed(old(leg.State()), now)
    {
      hide Trickles, Effective;
      var v := leg.State();
      t := before;
      if v.isData && !v.hasParent {
        if v.shut {
          TakeShare(v.weight);
          var _ := leg.Skip(now);
        } else if v.rttMuted || v.stalled {
          TakeShare(v.weight);
          var trickled := leg.Skip(now);
          if trickled {
            t := t.(egress := t.egress + [i]);
          }
          if !v.dead {
            var s := if v.eightTimesRtt != 0 then v.eightTimesRtt / 8 else UINT64_MAX;
            if t.fallback == -1 || (t.fallbackStalled && !v.stalled) || (t.fallbackStalled == v.stalled && s < t.fallbackRtt) {
              t := t.(fallback := i, fallbackRtt := s, fallbackStalled := v.stalled);
            }
          }
        } else {
          t := t.(peercnt := t.peercnt + 1);
          if v.weight == 0 {
            t := t.(egress := t.egress + [i]);
          } else if v.wCount > t.maxRemainder {
            t := t.(maxRemainder := v.wCount, selected := i);
          }
        }
      }
      t := t.(counter := weightCounter);
    }

    method TakeShare(weight: nat)
      modifies this`weightCounter
      ensures weightCounter == if old(weightCounter) - weight <= 0 then totalWeight else old(weightCounter) - weight
    {
      weightCounter := weightCounter - weight;
      if weightCounter <= 0 {
        weightCounter := totalWeight;
      }
    }

    /** `rist_sender_send_data_balanced`. */
    method SendData(now: nat) returns (egress: seq<nat>)
      requires Distinct()
      modifies this`weightCounter, legs
      ensures SendState(Views(), weightCounter) == Send(old(Views()), old(weightCounter), totalWeight, now)
      ensures egress == Egress(old(Views()))
    {
      hide Early, Fallback, Drained, OpenCount, Elect, Passed, Effective, Rotation.Views, Tallied, Settle;
      ghost var vs := Views();
      var t := Pass(now);
      TallyMeans(vs, old(weightCounter), t);
      egress := t.egress;
      var k := t.selected;
      if k >= 0 {
        NotSkipped(vs[k], now);
        egress := egress + [k];
      }
      SettleUp(k, now);
      if t.peercnt == 0 && k == -1 && t.fallback >= 0 {
        egress := egress + [t.fallback];
      }
    }

    method SettleUp(k: int, now: nat)
      requires Distinct() && -1 <= k < |legs| && (k >= 0 ==> Views()[k].wCount > 0)
      modifies this`weightCounter, legs
      ensures SendState(Views(), weightCounter) == Settle(old(Views()), k, old(weightCounter), totalWeight, now)
    {
      hide Rotation.Views, ResetAll, Spent;
      if k >= 0 {
        weightCounter := weightCounter - 1;
        Spend(k);
      }
      if totalWeight > 0 && (weightCounter == 0 || k == -1) {
        weightCounter := totalWeight;
        ResetCounts(now);
      }
    }

    lemma TallyMeans(vs: seq<View>, counter: int, t: Tally)
      requires Tallied(vs, |vs|, counter, totalWeight, t)
      ensures t.egress == Early(vs) && t.selected == Elect(vs) && t.fallback == Fallback(vs)
      ensures t.peercnt == OpenCount(vs) && t.counter == Drained(vs, counter, totalWeight)
    {
      assert vs[..|vs|] == vs;
    }

    lemma NotSkipped(v: View, now: nat)
      requires Weighted(v)
      ensures Passed(v, now) == v
    {
    }

    method Spend(k: nat)
      requires Distinct() && k < |legs| && Views()[k].wCount > 0
      modifies legs
      ensures Views() == Spent(old(Views()), k)
    {
      legs[k].wCount := legs[k].wCount - 1;
    }

    method ResetCounts(now: nat)
      requires Distinct()
      modifies legs
      ensures Views() == ResetAll(old(Views()), now)
    {
      ghost var vs := Views();
      for i := 0 to |legs|
        invariant forall j :: i <= j < |legs| ==> legs[j].State() == vs[j]
        invariant forall j :: 0 <= j < i ==> legs[j].State() == vs[j].(wCount := Effective(vs[j], now))
      {
        legs[i].wCount := RampedWeight(legs[i].weight, legs[i].rampStart, legs[i].rttDropSettle * RIST_CLOCK * 2, now);
      }
    }
  }
}
