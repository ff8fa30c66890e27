/** Which legs a packet of retransmission requests is sent to: `send_nack_group` of
    src/rist-common.c with `rist_nack_peer_preferred` of src/rist-nack-select.h. */
module NackRoute {

  const U64: nat := 0x1_0000_0000_0000_0000

  datatype Leg = Leg(isRtcp: bool, dead: bool, priority: nat, rtt: nat, deadSince: nat)

  /** `rist_nack_peer_preferred`. */
  predicate Preferred(priority: nat, rtt: nat, bestPriority: nat, bestRtt: nat) {
    priority > bestPriority || (priority == bestPriority && rtt < bestRtt)
  }

  /** The order of preference: higher priority, then shorter round trip. */
  predicate Better(a: Leg, b: Leg) {
    a.priority > b.priority || (a.priority == b.priority && a.rtt < b.rtt)
  }

  /** A live leg that carries control packets. One of priority 0 whose round trip has the
      largest value never beats the starting point of the search. */
  predicate Usable(l: Leg) {
    l.isRtcp && !l.dead && (l.priority > 0 || l.rtt < 0xffff_ffff_ffff_ffff)
  }

  /** A leg the fallback takes. */
  predicate Gone(l: Leg) {
    l.isRtcp && l.deadSince > 0
  }

  /** The first of the best among the first `n` legs. */
  ghost predicate Best(legs: seq<Leg>, n: nat, k: nat) {
    && k < n <= |legs| && Usable(legs[k])
    && (forall i :: 0 <= i < n && Usable(legs[i]) ==> !Better(legs[i], legs[k]))
    && forall i :: 0 <= i < k && Usable(legs[i]) ==> Better(legs[k], legs[i])
  }

  ghost predicate NoneUsable(legs: seq<Leg>, n: nat) {
    n <= |legs| && forall i :: 0 <= i < n ==> !Usable(legs[i])
  }

  /** From the first leg gone on, every turn sends to the latest leg gone so far. */
  ghost predicate Fallen(legs: seq<Leg>, n: nat, to: seq<nat>) {
    && |to| <= n <= |legs|
    && (forall i :: 0 <= i < n - |to| ==> !Gone(legs[i]))
    && forall t :: 0 <= t < |to| ==> LatestGone(legs, n - |to| + t, to[t])
  }

  ghost predicate LatestGone(legs: seq<Leg>, i: nat, k: nat) {
    k <= i < |legs| && Gone(legs[k]) && forall j :: k < j <= i ==> !Gone(legs[j])
  }

  lemma FallenFurther(legs: seq<Leg>, n: nat, to: seq<nat>, k: nat)
    requires Fallen(legs, n, to) && n < |legs|
    requires if Gone(legs[n]) then k == n else to != [] && k == to[|to| - 1]
    ensures Fallen(legs, n + 1, to + [k])
  {
    hide Gone;
    var more := to + [k];
    forall t | 0 <= t < |more| ensures LatestGone(legs, n + 1 - |more| + t, more[t]) {
      if t < |to| {
        assert LatestGone(legs, n - |to| + t, to[t]);
      } else if to != [] {
        assert LatestGone(legs, n - |to| + (|to| - 1), to[|to| - 1]);
      }
    }
  }

  /** A packet goes to the best usable leg; without one it goes to the legs gone. */
  ghost predicate Routed(legs: seq<Leg>, to: seq<nat>) {
    if NoneUsable(legs, |legs|) then Fallen(legs, |legs|, to) else |to| == 1 && Best(legs, |legs|, to[0])
  }

  /** The choice of the leg: the first of the best usable ones. */
  method Choose(legs: seq<Leg>) returns (found: bool, k: nat)
    ensures if found then Best(legs, |legs|, k) else NoneUsable(legs, |legs|)
  {
    found, k := false, 0;
    var bestRtt, bestPriority := U64 - 1, 0;
    for i := 0 to |legs|
      invariant if found then Best(legs, i, k) && bestPriority == legs[k].priority && bestRtt == legs[k].rtt
                else NoneUsable(legs, i) && bestPriority == 0 && bestRtt == U64 - 1
    {
      if legs[i].isRtcp && !legs[i].dead && Preferred(legs[i].priority, legs[i].rtt, bestPriority, bestRtt) {
        found, k, bestPriority, bestRtt := true, i, legs[i].priority, legs[i].rtt;
      }
    }
  }

  /** `send_nack_group`: where a packet goes. */
  method Route(legs: seq<Leg>) returns (to: seq<nat>)
    ensures Routed(legs, to)
  {
    var found, k := Choose(legs);
    if found {
      return [k];
    }
    to := [];
    var latest, any := 0, false;
    for i := 0 to |legs|
      invariant Fallen(legs, i, to) && any == (to != []) && (any ==> to[|to| - 1] == latest)
    {
      ghost var before := to;
      if legs[i].isRtcp && legs[i].deadSince > 0 {
        latest, any := i, true;
      }
      if any {
        FallenFurther(legs, i, to, latest);
        to := to + [latest];
      }
    }
  }

  /** A packet of requests is lost exactly if no leg is usable and none is gone; it is sent
      once exactly if one is usable, or only the last leg is gone. */
  lemma SentOnce(legs: seq<Leg>, to: seq<nat>)
    requires Routed(legs, to)
    ensures to == [] <==> NoneUsable(legs, |legs|) && forall i :: 0 <= i < |legs| ==> !Gone(legs[i])
    ensures |to| == 1 <==>
              !NoneUsable(legs, |legs|) ||
              (legs != [] && Gone(legs[|legs| - 1]) && forall i :: 0 <= i < |legs| - 1 ==> !Gone(legs[i]))
  {
    hide Gone, NoneUsable;
    var first := |legs| - |to|;
    if to != [] && NoneUsable(legs, |legs|) {
      assert LatestGone(legs, first, to[0]);
      assert Gone(legs[first]);
    }
  }
}
