/** Which bonded legs may carry payload: the hysteresis of src/rist-rtt-mute.h, the stall
    and mute checks of src/rist-common.c, the RTT average of src/rist-private.h. */
module Bonding {

  const RIST_CLOCK: nat := 4294967
  const STALL_MUTE_PINGS: nat := 3
  const SOLE_CARRIER_MARGIN: nat := 2
  const UINT64_MAX: nat := 0xffff_ffff_ffff_ffff
  /** Round trips fit the eightfold average. */
  const RTT_MAX: nat := UINT64_MAX / 8

  // ----- hysteresis of one leg ---------------------------------------------------------

  datatype Action = NoAction | Drop | Restore

  /** What the hysteresis of a leg remembers. */
  datatype Memory = Memory(muted: bool, pending: bool, pendingSince: nat)

  /** A condition that holds is first noted, then acted upon once it has held for the
      settling time; one that does not is forgotten. */
  function Stepped(m: Memory, smoothed: nat, drop: nat, restore: nat, dropSettle: nat, restoreSettle: nat, now: nat): Memory {
    if drop == 0 then Memory(false, false, m.pendingSince)
    else if !(if m.muted then smoothed < restore else smoothed > drop) then m.(pending := false)
    else if !m.pending then m.(pending := true, pendingSince := now)
    else if now - m.pendingSince < if m.muted then restoreSettle else dropSettle then m
    else m.(pending := false, muted := !m.muted)
  }

  class MuteState {
    var muted: bool
    var pending: bool
    var pendingSince: nat

    /** When the leg last changed sides, and the latest step. */
    ghost var changedAt: nat
    ghost var lastStep: nat

    function State(): Memory
      reads this`muted, this`pending, this`pendingSince
    {
      Memory(muted, pending, pendingSince)
    }

    ghost predicate Valid()
      reads this
    {
      changedAt <= lastStep && (pending ==> changedAt <= pendingSince <= lastStep)
    }

    constructor ()
      ensures Valid() && State() == Memory(false, false, 0) && changedAt == 0 && lastStep == 0
    {
      muted, pending, pendingSince, changedAt, lastStep := false, false, 0, 0, 0;
    }

    /** `rist_rtt_mute_step`. A leg changes sides only on a condition held for the whole
        settling time, so two changes are at least a settling time apart. */
    method Step(smoothed: nat, drop: nat, restore: nat, dropSettle: nat, restoreSettle: nat, now: nat)
      returns (action: Action)
      requires Valid() && lastStep <= now
      modifies this
      ensures Valid() && lastStep == now
      ensures State() == Stepped(old(State()), smoothed, drop, restore, dropSettle, restoreSettle, now)
      ensures muted == match action case NoAction => old(muted) case Drop => true case Restore => false
      ensures action == Drop ==>
                !old(muted) && drop > 0 && smoothed > drop && old(pending) && now - old(pendingSince) >= dropSettle
      ensures action == Restore ==>
                old(muted) && (drop == 0 || (smoothed < restore && old(pending) && now - old(pendingSince) >= restoreSettle))
      ensures action != NoAction && drop > 0 ==>
                changedAt == now && now - old(changedAt) >= if action == Drop then dropSettle else restoreSettle
      ensures pending ==> drop > 0 && if muted then smoothed < restore else smoothed > drop
      ensures old(pending) && pending ==> pendingSince == old(pendingSince)
      ensures action != NoAction ==> !pending
      ensures !old(pending) && pending ==> pendingSince == now
      ensures drop > 0 && (if old(muted) then smoothed < restore else smoothed > drop) && action == NoAction ==>
                pending && (!old(pending) || now - pendingSince < if muted then restoreSettle else dropSettle)
    {
      lastStep := now;
      if drop == 0 {
        pending := false;
        if muted {
          muted := false;
          changedAt := now;
          return Restore;
        }
        return NoAction;
      }
      var condition := if muted then smoothed < restore else smoothed > drop;
      if !condition {
        pending := false;
        return NoAction;
      }
      if !pending {
        pending := true;
        pendingSince := now;
        return NoAction;
      }
      var settle := if muted then restoreSettle else dropSettle;
      if now - pendingSince < settle {
        return NoAction;
      }
      pending := false;
      changedAt := now;
      if muted {
        muted := false;
        return Restore;
      }
      muted := true;
      return Drop;
    }
  }

  /** `rist_rtt_sole_carrier_handover`. */
  predicate Handover(incumbentRtt: nat, challengerRtt: nat, heldFor: nat, heldMin: nat, margin: nat) {
    heldFor >= heldMin && challengerRtt * margin <= incumbentRtt
  }

  // ----- legs ------------------------------------------------------------------------------

  datatype LegState = LegState(lastPktReceived: nat, eightTimesRtt: nat, stalled: bool, rttMuted: bool, muteCount: nat,
                               soleCarrier: bool, soleSince: nat, trickleCounter: nat, rampStart: nat)

  class Peer {
    const isData: bool
    const hasParent: bool
    const listening: bool
    const weight: nat
    const rttDrop: nat
    const rttRestore: nat
    const rttDropSettle: nat
    const keepaliveInterval: nat
    const mute: MuteState

    var lastPktReceived: nat
    var eightTimesRtt: nat
    var stalled: bool
    var rttMuted: bool
    var muteCount: nat
    var soleCarrier: bool
    var soleSince: nat
    var trickleCounter: nat
    var rampStart: nat

    constructor (isData: bool, hasParent: bool, listening: bool, weight: nat, rttDrop: nat, rttRestore: nat,
                 rttDropSettle: nat, keepaliveInterval: nat)
      ensures fresh(this) && fresh(mute) && Invariant() && State() == LegState(0, 0, false, false, 0, false, 0, 0, 0)
      ensures this.isData == isData && this.hasParent == hasParent && this.listening == listening && this.weight == weight
      ensures this.rttDrop == rttDrop && this.rttRestore == rttRestore && this.rttDropSettle == rttDropSettle
      ensures this.keepaliveInterval == keepaliveInterval && mute.State() == Memory(false, false, 0)
    {
      this.isData, this.hasParent, this.listening, this.weight := isData, hasParent, listening, weight;
      this.rttDrop, this.rttRestore, this.rttDropSettle := rttDrop, rttRestore, rttDropSettle;
      this.keepaliveInterval := keepaliveInterval;
      lastPktReceived, eightTimesRtt, stalled, rttMuted, muteCount := 0, 0, false, false, 0;
      soleCarrier, soleSince, trickleCounter, rampStart := false, 0, 0, 0;
      mute := new MuteState();
    }

    /** `rist_peer_bonded_data_leg`. */
    predicate Bonded() {
      isData && !hasParent && !listening && weight != 0
    }

    /** `rist_peer_rtt_mute_eligible`. */
    predicate Eligible() {
      Bonded() && rttDrop > 0
    }

    /** `rist_peer_stall_silent`. */
    predicate Silent(now: nat)
      reads this`lastPktReceived
    {
      lastPktReceived > 0 && now > lastPktReceived
      && now - lastPktReceived > STALL_MUTE_PINGS * keepaliveInterval
    }

    /** The thresholds of `rist_sender_rtt_mute_check`, in clock ticks. */
    function DropAt(): nat {
      rttDrop * RIST_CLOCK
    }

    function RestoreAt(): (at: nat)
      ensures DropAt() > 0 ==> at < DropAt()
    {
      if rttRestore > 0 && rttRestore * RIST_CLOCK < DropAt() then rttRestore * RIST_CLOCK else DropAt() * 4 / 5
    }

    function Settle(): nat {
      rttDropSettle * RIST_CLOCK
    }

    /** Wants to be muted: eligible, and its hysteresis says so. */
    predicate Wants()
      reads mute
    {
      Eligible() && mute.muted
    }

    /** Actually carries payload. */
    predicate Carries()
      reads this`rttMuted, this`stalled
    {
      Bonded() && !rttMuted && !stalled
    }

    /** The mutable fields of the leg itself. */
    ghost function State(): LegState
      reads this
    {
      LegState(lastPktReceived, eightTimesRtt, stalled, rttMuted, muteCount, soleCarrier, soleSince, trickleCounter,
               rampStart)
    }

    /** The round trip the mute check compares, and the mark for "not measured". */
    function Smoothed(): nat
      reads this`eightTimesRtt
    {
      if eightTimesRtt != 0 then eightTimesRtt / 8 else UINT64_MAX
    }

    /** Only the role changed, timed from when it was taken. */
    static ghost predicate RoleOnly(was: LegState, became: LegState, now: nat) {
      && became == was.(soleCarrier := became.soleCarrier, soleSince := became.soleSince)
      && became.soleSince == if became.soleCarrier && !was.soleCarrier then now else was.soleSince
    }

    /** One leg's turn in the loop that hands out the sole-carrier role. */
    method SetSole(keep: bool, now: nat)
      requires Invariant()
      modifies this`soleCarrier, this`soleSince
      ensures Invariant() && RoleOnly(old(State()), State(), now)
      ensures Bonded() ==> soleCarrier == keep
      ensures soleSince == now || soleSince == old(soleSince)
    {
      if Bonded() {
        if !keep {
          soleCarrier := false;
        } else if !soleCarrier {
          soleCarrier := true;
          soleSince := now;
        }
      }
    }

    /** A leg after being muted or not: a transition to muted is counted, a transition
        back starts the weight ramp anew. */
    static ghost function Toggled(was: LegState, muted: bool, now: nat): LegState {
      if muted && !was.rttMuted then was.(rttMuted := true, muteCount := was.muteCount + 1)
      else if !muted && was.rttMuted then was.(rttMuted := false, trickleCounter := 0, rampStart := now)
      else was
    }

    /** One leg's turn in the last loop of the mute check. */
    method Apply(kept: bool, now: nat)
      requires Invariant()
      modifies this
      ensures Invariant()
      ensures rttMuted == (Wants() && !kept)
      ensures State() == Toggled(old(State()), rttMuted, now)
    {
      if Eligible() {
        var muting := mute.muted && !kept;
        if muting && !rttMuted {
          rttMuted := true;
          muteCount := muteCount + 1;
        } else if !muting && rttMuted {
          rttMuted := false;
          trickleCounter := 0;
          rampStart := now;
        }
      }
    }

    /** What every operation keeps of one leg: a leg that wants muting has been measured,
        and only eligible legs are ever muted. */
    ghost predicate Invariant()
      reads this`eightTimesRtt, this`rttMuted, mute
    {
      && mute.Valid()
      && eightTimesRtt <= 8 * RTT_MAX
      && (mute.muted ==> eightTimesRtt > 0)
      && (rttMuted ==> Eligible())
    }

    /** What a leg's hysteresis may do: change sides only across its threshold, once the
        leg has spent its settling time on the side it leaves. */
    ghost predicate Fair(wasMuted: bool, wasChangedAt: nat, now: nat)
      reads this`eightTimesRtt, mute
    {
      && (mute.muted && !wasMuted ==>
            Eligible() && eightTimesRtt / 8 > DropAt() && now - wasChangedAt >= Settle())
      && (!mute.muted && wasMuted ==>
            Eligible() && eightTimesRtt / 8 < RestoreAt() < DropAt() && now - wasChangedAt >= 2 * Settle())
    }

    /** The hysteresis after a leg's turn, with thresholds and times from milliseconds to ticks;
        a restore threshold not below the drop threshold is replaced by four fifths of that.
        Legs that are not eligible or not measured keep theirs. */
    function Judged(m: Memory, now: nat): Memory
      reads this`eightTimesRtt
    {
      if isData && !hasParent && !listening && weight != 0 && rttDrop > 0 && eightTimesRtt != 0 then
        Stepped(m, eightTimesRtt / 8, rttDrop * 4294967,
                if 0 < rttRestore < rttDrop then rttRestore * 4294967 else rttDrop * 4294967 * 4 / 5,
                rttDropSettle * 4294967, 2 * rttDropSettle * 4294967, now)
      else m
    }

    /** A leg after its turn in the hysteresis loop. */
    ghost predicate Turned(was: Memory, wasChangedAt: nat, now: nat)
      reads this`eightTimesRtt, mute
    {
      mute.State() == Judged(was, now) && Fair(was.muted, wasChangedAt, now)
    }

    /** One leg's turn in the hysteresis loop of the mute check. */
    method Advance(now: nat)
      requires Invariant() && mute.lastStep <= now
      modifies mute
      ensures Invariant() && mute.lastStep <= now
      ensures Turned(old(mute.State()), old(mute.changedAt), now)
    {
      if Eligible() && eightTimesRtt != 0 {
        assert DropAt() > 0;
        var _ := mute.Step(eightTimesRtt / 8, DropAt(), RestoreAt(), Settle(), 2 * Settle(), now);
      }
    }

    /** `rist_peer_rtt_update`; `leg` is the data leg the measurement is mirrored onto,
        which may be the measuring peer itself. The leg's invariant survives unless a
        first measurement of 0 is mirrored onto a leg that wants muting. */
    method RttUpdate(rtt: nat, leg: Peer)
      requires leg.Invariant() && eightTimesRtt <= 8 * RTT_MAX && rtt <= RTT_MAX
      modifies this`eightTimesRtt, leg`eightTimesRtt
      ensures eightTimesRtt == leg.eightTimesRtt == old(eightTimesRtt) - old(eightTimesRtt) / 8 + rtt
      ensures eightTimesRtt <= 8 * RTT_MAX
      ensures leg.Invariant() <==> !(leg.mute.muted && old(eightTimesRtt) == 0 && rtt == 0)
      ensures leg == this ==> leg.Invariant()
    {
      eightTimesRtt := eightTimesRtt - eightTimesRtt / 8;
      eightTimesRtt := eightTimesRtt + rtt;
      if leg != this {
        leg.eightTimesRtt := eightTimesRtt;
      }
    }
  }

  class Bond {
    const peers: seq<Peer>
    ghost var lastCheck: nat

    ghost function Mutes(): set<MuteState> {
      set p | p in peers :: p.mute
    }

    ghost predicate Distinct() {
      forall i, j :: 0 <= i < j < |peers| ==> peers[i] != peers[j] && peers[i].mute != peers[j].mute
    }

    /** Legs are sound, and at most one bonded leg holds the sole-carrier role. */
    ghost predicate Valid()
      reads this, peers, Mutes()
    {
      && Distinct()
      && (forall i :: 0 <= i < |peers| ==> peers[i].Invariant() && peers[i].mute.lastStep <= lastCheck && peers[i].soleSince <= lastCheck)
      && AtMostOneSole()
    }

    ghost predicate AtMostOneSole()
      reads peers
    {
      forall i, j :: 0 <= i < j < |peers| && peers[i].Bonded() && peers[j].Bonded() ==>
        !(peers[i].soleCarrier && peers[j].soleCarrier)
    }

    /** The peer list as it stands after the check at `checked`, once legs were added to
        it or removed from it. */
    constructor (legs: seq<Peer>, ghost checked: nat)
      requires forall p :: p in legs ==> p.Invariant() && p.mute.lastStep <= checked && p.soleSince <= checked
      requires forall i, j :: 0 <= i < j < |legs| ==> legs[i] != legs[j] && legs[i].mute != legs[j].mute
      requires forall i, j :: 0 <= i < j < |legs| && legs[i].Bonded() && legs[j].Bonded() ==>
                 !(legs[i].soleCarrier && legs[j].soleCarrier)
      ensures Valid() && peers == legs && lastCheck == checked
    {
      peers, lastCheck := legs, checked;
    }

    /** Some bonded leg is not stalled. */
    ghost predicate SomeLive()
      reads peers
    {
      exists i :: 0 <= i < |peers| && Live(peers[i])
    }

    ghost predicate Live(p: Peer)
      reads p`stalled
    {
      p.Bonded() && !p.stalled
    }

    /** Carries because nothing wants it muted. */
    ghost predicate Natural(p: Peer)
      reads p`stalled, p.mute
    {
      p.Bonded() && !p.Wants() && !p.stalled
    }

    /** Wants muting but could still carry. */
    ghost predicate Candidate(p: Peer)
      reads p`stalled, p.mute
    {
      p.Bonded() && p.Wants() && !p.stalled
    }

    /** The legs `rist_sender_stall_check` leaves stalled: silent ones, when some other
        bonded leg is heard. */
    ghost predicate StalledAsHeard(now: nat)
      reads peers
    {
      forall i :: 0 <= i < |peers| ==>
        peers[i].stalled == (Leg(peers[i]) && Unheard(peers[i], now) && Heard(now))
    }

    ghost predicate Heard(now: nat)
      reads peers
    {
      exists j :: 0 <= j < |peers| && Audible(peers[j], now)
    }

    ghost predicate Audible(p: Peer, now: nat)
      reads p`lastPktReceived
    {
      Leg(p) && !Unheard(p, now)
    }

    /** Carries data itself: it is no child and no listener, and has a weight. */
    ghost predicate Leg(p: Peer) {
      p.isData && !p.hasParent && !p.listening && p.weight != 0
    }

    /** It was heard once, and then not for more than three keepalive intervals. */
    ghost predicate Unheard(p: Peer, now: nat)
      reads p`lastPktReceived
    {
      p.lastPktReceived > 0 && now > p.lastPktReceived + 3 * p.keepaliveInterval
    }

    lemma Hearing(now: nat)
      ensures forall i :: 0 <= i < |peers| ==>
        Leg(peers[i]) == peers[i].Bonded() && Unheard(peers[i], now) == peers[i].Silent(now)
    {
    }

    /** The counting loop of the stall check. */
    method CountLive(now: nat) returns (eligible: nat, live: nat)
      ensures live > 0 <==> Heard(now)
      ensures eligible > 0 <==> exists i :: 0 <= i < |peers| && peers[i].Bonded()
      ensures eligible < 2 ==> forall i, j :: 0 <= i < j < |peers| ==> !(peers[i].Bonded() && peers[j].Bonded())
    {
      Hearing(now);
      eligible, live := 0, 0;
      for i := 0 to |peers|
        invariant live > 0 <==> exists j :: 0 <= j < i && Audible(peers[j], now)
        invariant eligible > 0 <==> exists j :: 0 <= j < i && peers[j].Bonded()
        invariant eligible < 2 ==> forall j, k :: 0 <= j < k < i ==> !(peers[j].Bonded() && peers[k].Bonded())
      {
        if peers[i].Bonded() {
          eligible := eligible + 1;
          if !peers[i].Silent(now) {
            live := live + 1;
          }
        }
      }
    }

    /** `rist_sender_stall_check`. Only the stall flags change; a leg is left stalled
        exactly if it is silent while another is heard, so some bonded leg stays live. */
    method StallCheck(now: nat)
      requires Valid()
      modifies peers
      ensures Valid() && StalledAsHeard(now)
      ensures (exists i :: 0 <= i < |peers| && peers[i].Bonded()) ==> SomeLive()
      ensures forall i :: 0 <= i < |peers| ==> peers[i].State() == old(peers[i].State()).(stalled := peers[i].stalled)
    {
      hide Peer.Silent, Peer.Bonded, Peer.Eligible, Peer.Wants, MuteState.Valid, Bond.Heard, Bond.SomeLive, Bond.StalledAsHeard, Bond.Leg;
      var eligible, live := CountLive(now);
      if eligible < 2 {
        ClearStalls();
        AloneIsHeard(now);
      } else {
        MarkStalls(now, live);
      }
      SomeLegLive(now);
    }

    method ClearStalls()
      modifies peers
      ensures forall i :: 0 <= i < |peers| ==> peers[i].State() == old(peers[i].State()).(stalled := peers[i].stalled)
      ensures forall j :: 0 <= j < |peers| ==> !peers[j].stalled
    {
      for i := 0 to |peers|
        invariant forall j :: 0 <= j < |peers| ==> peers[j].State() == old(peers[j].State()).(stalled := peers[j].stalled)
        invariant forall j :: 0 <= j < i ==> !peers[j].stalled
      {
        peers[i].stalled := false;
      }
    }

    method MarkStalls(now: nat, live: nat)
      requires Distinct() && (live > 0 <==> Heard(now))
      modifies peers
      ensures StalledAsHeard(now)
      ensures forall i :: 0 <= i < |peers| ==> peers[i].State() == old(peers[i].State()).(stalled := peers[i].stalled)
    {
      Hearing(now);
      hide Peer.Bonded, Peer.Silent, Bond.Leg, Bond.Unheard;
      for i := 0 to |peers|
        invariant forall j :: 0 <= j < |peers| ==> Leg(peers[j]) == peers[j].Bonded() && Unheard(peers[j], now) == peers[j].Silent(now)
        invariant forall j :: 0 <= j < |peers| ==> peers[j].State() == old(peers[j].State()).(stalled := peers[j].stalled)
        invariant live > 0 <==> Heard(now)
        invariant forall j :: 0 <= j < i ==>
          peers[j].stalled == (peers[j].Bonded() && peers[j].Silent(now) && live > 0)
      {
        if !peers[i].Bonded() {
          peers[i].stalled := false;
        } else {
          peers[i].stalled := peers[i].Silent(now) && live > 0;
        }
      }
    }

    /** Whatever is stalled this way, a live leg is left. */
    lemma SomeLegLive(now: nat)
      requires StalledAsHeard(now)
      ensures (exists i :: 0 <= i < |peers| && peers[i].Bonded()) ==> SomeLive()
    {
      Hearing(now);
      hide Peer.Silent;
      if Heard(now) {
        var j :| 0 <= j < |peers| && Audible(peers[j], now);
        assert Live(peers[j]);
      } else if i :| 0 <= i < |peers| && peers[i].Bonded() {
        assert Live(peers[i]);
      }
    }

    /** A leg on its own is silent only if nothing is heard. */
    lemma AloneIsHeard(now: nat)
      requires forall i, j :: 0 <= i < j < |peers| ==> !(peers[i].Bonded() && peers[j].Bonded())
      requires forall j :: 0 <= j < |peers| ==> !peers[j].stalled
      ensures StalledAsHeard(now)
    {
    }

    // ----- mute check ------------------------------------------------------------------

    /** Fewer than two legs could ever be muted, so the mute check leaves all as it is. */
    ghost predicate NothingToFailOverTo() {
      forall i, j :: 0 <= i < j < |peers| ==> !(peers[i].Eligible() && peers[j].Eligible())
    }

    method CountEligible() returns (eligible: nat)
      ensures eligible < 2 <==> NothingToFailOverTo()
    {
      eligible := 0;
      for i := 0 to |peers|
        invariant eligible > 0 <==> exists j :: 0 <= j < i && peers[j].Eligible()
        invariant eligible < 2 <==> forall j, k :: 0 <= j < k < i ==> !(peers[j].Eligible() && peers[k].Eligible())
      {
        if peers[i].Eligible() {
          eligible := eligible + 1;
        }
      }
    }

    /** The hysteresis loop: each measured eligible leg is judged by its own thresholds.
        A leg changes sides only across its threshold and after its settling time. */
    method StepAll(now: nat)
      requires Valid() && lastCheck <= now
      modifies this`lastCheck, Mutes()
      ensures Valid() && lastCheck == now
      ensures forall i :: 0 <= i < |peers| ==> peers[i].Turned(old(peers[i].mute.State()), old(peers[i].mute.changedAt), now)
    {
      hide Peer.Turned, MuteState.Valid;
      lastCheck := now;
      for i := 0 to |peers|
        invariant lastCheck == now && Distinct() && AtMostOneSole()
        invariant forall j :: 0 <= j < |peers| ==>
          peers[j].Invariant() && peers[j].mute.lastStep <= now && peers[j].soleSince <= now
        invariant forall j :: i <= j < |peers| ==>
          peers[j].mute.State() == old(peers[j].mute.State()) && peers[j].mute.changedAt == old(peers[j].mute.changedAt)
        invariant forall j :: 0 <= j < i ==> peers[j].Turned(old(peers[j].mute.State()), old(peers[j].mute.changedAt), now)
      {
        peers[i].Advance(now);
      }
    }

    /** The best leg of those found so far: the first with the least round trip. */
    ghost predicate Best(k: int, upTo: nat)
      requires upTo <= |peers|
      reads peers, Mutes()
    {
      && 0 <= k < upTo && Candidate(peers[k])
      && forall j :: 0 <= j < upTo && Candidate(peers[j]) ==>
           var own, other := peers[k].eightTimesRtt / 8, peers[j].eightTimesRtt / 8;
           own <= other && (j < k ==> own < other)
    }

    ghost predicate Incumbent(p: Peer)
      reads p`stalled, p`soleCarrier, p.mute
    {
      Candidate(p) && p.soleCarrier
    }

    /** Counting carriers and finding the incumbent and the best challenger. */
    method Survey() returns (carriers: nat, incumbent: int, best: int)
      requires Valid()
      ensures carriers == 0 <==> forall i :: 0 <= i < |peers| ==> !Natural(peers[i])
      ensures if best == -1 then forall j :: 0 <= j < |peers| ==> !Candidate(peers[j]) else 0 <= best && Best(best, |peers|)
      ensures if incumbent == -1 then forall j :: 0 <= j < |peers| ==> !Incumbent(peers[j])
              else 0 <= incumbent < |peers| && Incumbent(peers[incumbent])
    {
      carriers, incumbent, best := 0, -1, -1;
      var bestRtt := UINT64_MAX;
      for i := 0 to |peers|
        invariant carriers == 0 <==> forall j :: 0 <= j < i ==> !Natural(peers[j])
        invariant if best == -1 then forall j :: 0 <= j < i ==> !Candidate(peers[j]) else 0 <= best && Best(best, i)
        invariant bestRtt == if best == -1 then UINT64_MAX else peers[best].Smoothed()
        invariant if incumbent == -1 then forall j :: 0 <= j < i ==> !Incumbent(peers[j])
                  else 0 <= incumbent < i && Incumbent(peers[incumbent])
      {
        var p := peers[i];
        if p.Bonded() {
          var want := p.Wants();
          if !want && !p.stalled {
            carriers := carriers + 1;
          } else if want && !p.stalled {
            var smoothed := p.Smoothed();
            if smoothed < bestRtt {
              bestRtt, best := smoothed, i;
            }
            if p.soleCarrier {
              incumbent := i;
            }
          }
        }
      }
    }

    /** Leg `k` is the one to keep carrying: no leg carries of itself, `k` could, and it is
        either the incumbent, with no challenger entitled to take over, or the best leg,
        where the incumbent (if any) has served its time and is beaten by the margin. */
    ghost predicate Kept(k: int, now: nat)
      reads peers, Mutes()
    {
      && 0 <= k < |peers| && Candidate(peers[k])
      && (forall i :: 0 <= i < |peers| ==> !Natural(peers[i]))
      && (peers[k].soleCarrier || Best(k, |peers|))
      && (forall m :: 0 <= m < |peers| && m != k && Incumbent(peers[m]) ==> Beaten(peers[m], peers[k], now))
      && (peers[k].soleCarrier ==> forall b :: Best(b, |peers|) && b != k ==> !Beaten(peers[k], peers[b], now))
    }

    ghost predicate Beaten(incumbent: Peer, challenger: Peer, now: nat)
      reads incumbent`soleSince, incumbent`eightTimesRtt, challenger`eightTimesRtt
    {
      && now - incumbent.soleSince >= incumbent.rttDropSettle * 4294967
      && challenger.eightTimesRtt / 8 * 2 <= incumbent.eightTimesRtt / 8
    }

    /** Choosing the leg to keep; -1 stands for none. */
    method PickKeep(now: nat) returns (keep: int)
      requires Valid() && lastCheck <= now
      ensures Valid() && (keep == -1 || Kept(keep, now))
      ensures keep == -1 <==> (exists i :: 0 <= i < |peers| && Natural(peers[i])) || forall i :: 0 <= i < |peers| ==> !Live(peers[i])
    {
      var carriers, incumbent, best := Survey();
      keep := -1;
      if carriers == 0 {
        keep := if incumbent != -1 then incumbent else best;
        if incumbent != -1 && best != -1 && best != incumbent
           && Handover(peers[incumbent].Smoothed(), peers[best].Smoothed(), now - peers[incumbent].soleSince,
                       peers[incumbent].Settle(), SOLE_CARRIER_MARGIN) {
          keep := best;
        }
      }
    }

    /** Handing out the sole-carrier role. */
    method AssignSole(keep: int, now: nat)
      requires Valid() && lastCheck == now && -1 <= keep < |peers|
      requires keep >= 0 ==> peers[keep].Bonded()
      modifies peers
      ensures Valid()
      ensures forall i :: 0 <= i < |peers| && peers[i].Bonded() ==> (peers[i].soleCarrier <==> i == keep)
      ensures forall i :: 0 <= i < |peers| ==> Peer.RoleOnly(old(peers[i].State()), peers[i].State(), now)
    {
      hide Peer.Bonded, Peer.Eligible, Peer.Wants, Peer.Invariant, MuteState.Valid, Peer.RoleOnly, Peer.State;
      for i := 0 to |peers|
        invariant Distinct()
        invariant forall j :: 0 <= j < |peers| ==>
          peers[j].Invariant() && peers[j].soleSince <= now && peers[j].mute.lastStep <= now
        invariant forall j :: i <= j < |peers| ==> peers[j].State() == old(peers[j].State())
        invariant forall j :: 0 <= j < i ==> Peer.RoleOnly(old(peers[j].State()), peers[j].State(), now)
        invariant forall j :: 0 <= j < i && peers[j].Bonded() ==> (peers[j].soleCarrier <==> j == keep)
      {
        peers[i].SetSole(i == keep, now);
      }
    }

    /** Muting and restoring the legs, each transition counted once. */
    method ApplyMute(keep: int, now: nat)
      requires Valid()
      modifies peers
      ensures Valid()
      ensures forall i :: 0 <= i < |peers| ==> peers[i].rttMuted == (peers[i].Wants() && i != keep)
      ensures forall i :: 0 <= i < |peers| ==>
        peers[i].State() == Peer.Toggled(old(peers[i].State()), peers[i].rttMuted, now)
    {
      hide Peer.Bonded, Peer.Eligible, Peer.Wants, MuteState.Valid;
      for i := 0 to |peers|
        invariant Distinct()
        invariant forall j :: 0 <= j < |peers| ==> peers[j].Invariant()
        invariant forall j :: i <= j < |peers| ==> peers[j].State() == old(peers[j].State())
        invariant forall j :: 0 <= j < i ==> peers[j].rttMuted == (peers[j].Wants() && j != keep)
        invariant forall j :: 0 <= j < i ==> peers[j].State() == Peer.Toggled(old(peers[j].State()), peers[j].rttMuted, now)
      {
        peers[i].Apply(i == keep, now);
      }
    }

    /** Some bonded leg carries payload. */
    ghost predicate Carried()
      reads peers
    {
      exists i :: 0 <= i < |peers| && peers[i].Carries()
    }

    /** The flags the mute check leaves: a leg that wants muting is muted unless it is the
        sole carrier, and there is a sole carrier only where no leg carries of itself. */
    ghost predicate Settled()
      reads peers, Mutes()
    {
      && (forall i :: 0 <= i < |peers| && peers[i].Bonded() ==> (peers[i].rttMuted <==> peers[i].Wants() && !peers[i].soleCarrier))
      && forall i, j :: 0 <= i < |peers| && 0 <= j < |peers| && peers[i].Bonded() && peers[i].soleCarrier ==> !Natural(peers[j])
    }

    /** The keeper found by `PickKeep`, as far as muting goes; `carrier` tells whether
        some leg is left to carry. */
    ghost predicate Stands(keep: int, carrier: bool)
      reads peers, Mutes()
    {
      && -1 <= keep < |peers|
      && (keep >= 0 ==> Candidate(peers[keep]) && forall i :: 0 <= i < |peers| ==> !Natural(peers[i]))
      && (carrier && keep == -1 ==> exists i :: 0 <= i < |peers| && Natural(peers[i]))
    }

    /** Sparing the keeper settles the bond, with a leg to carry if any is live. */
    lemma KeeperCarries(keep: int, carrier: bool)
      requires Valid() && Stands(keep, carrier)
      requires forall i :: 0 <= i < |peers| && peers[i].Bonded() ==> (peers[i].soleCarrier <==> i == keep)
      requires forall i :: 0 <= i < |peers| ==> peers[i].rttMuted == (peers[i].Wants() && i != keep)
      ensures Settled() && (carrier ==> Carried())
    {
      hide Peer.Bonded, Peer.Eligible, Bond.Valid;
      if keep >= 0 {
        assert peers[keep].Carries();
      } else if i :| 0 <= i < |peers| && Natural(peers[i]) {
        assert peers[i].Carries();
      }
    }

    /** Choosing whom to keep. The role changes hands only to a leg that beats the
        incumbent by the margin, once the incumbent has served its settling time. */
    method ChooseSole(now: nat) returns (keep: int)
      requires Valid() && lastCheck == now
      modifies peers
      ensures Valid() && Stands(keep, old(SomeLive()))
      ensures forall i :: 0 <= i < |peers| && peers[i].Bonded() ==> (peers[i].soleCarrier <==> i == keep)
      ensures forall i :: 0 <= i < |peers| ==> Peer.RoleOnly(old(peers[i].State()), peers[i].State(), now)
      ensures keep >= 0 ==> forall j :: 0 <= j < |peers| && j != keep && old(Incumbent(peers[j])) ==> Beaten(peers[j], peers[keep], now)
    {
      hide Peer.Bonded, Peer.Eligible, Bond.Valid, Bond.Best;
      keep := PickKeep(now);
      ghost var carrier := SomeLive();
      assert Stands(keep, carrier);
      AssignSole(keep, now);
    }

    /** The second half of the mute check: choose whom to keep, then mute the rest. */
    method Arbitrate(now: nat)
      requires Valid() && lastCheck == now
      modifies peers
      ensures Valid() && Settled() && (old(SomeLive()) ==> Carried())
      ensures forall i :: 0 <= i < |peers| ==>
        peers[i].stalled == old(peers[i].stalled) && peers[i].eightTimesRtt == old(peers[i].eightTimesRtt)
      ensures forall i, j :: 0 <= i < |peers| && 0 <= j < |peers| && i != j && Incumbent(peers[i]) && Candidate(peers[j]) ==>
        old(peers[j].soleCarrier) ==> Beaten(peers[j], peers[i], now)
    {
      hide Peer.Bonded, Peer.Eligible, Bond.Valid, Bond.Settled, Bond.Carried, Bond.SomeLive, Bond.Natural;
      ghost var carrier := SomeLive();
      var keep := ChooseSole(now);
      ApplyMute(keep, now);
      KeeperCarries(keep, carrier);
    }

    /** `rist_sender_rtt_mute_check`. */
    method MuteCheck(now: nat)
      requires Valid() && lastCheck <= now
      modifies this`lastCheck, peers, Mutes()
      ensures Valid()
      ensures NothingToFailOverTo() ==> unchanged(peers) && unchanged(Mutes()) && Carried() == old(Carried())
      ensures !NothingToFailOverTo() ==> Settled() && (old(SomeLive()) ==> Carried())
      ensures forall i :: 0 <= i < |peers| ==> peers[i].stalled == old(peers[i].stalled)
      ensures !NothingToFailOverTo() ==>
        forall i :: 0 <= i < |peers| ==> peers[i].Turned(old(peers[i].mute.State()), old(peers[i].mute.changedAt), now)
      ensures forall i :: 0 <= i < |peers| ==> peers[i].Fair(old(peers[i].mute.muted), old(peers[i].mute.changedAt), now)
      ensures !NothingToFailOverTo() ==>
        forall i, j :: 0 <= i < |peers| && 0 <= j < |peers| && i != j && Incumbent(peers[i]) && Candidate(peers[j]) ==>
          old(peers[j].soleCarrier) ==> Beaten(peers[j], peers[i], now)
    {
      hide Peer.Bonded, Peer.Eligible, Bond.Valid, Bond.Settled, Bond.Carried, Bond.SomeLive;
      var eligible := CountEligible();
      if eligible >= 2 {
        ghost var live := SomeLive();
        StepAll(now);
        assert live ==> SomeLive();
        Arbitrate(now);
      }
    }

    /** A bonded leg not muted from before, which the stall check will leave alone. */
    ghost predicate LegLeft(now: nat)
      reads peers
    {
      exists i :: 0 <= i < |peers| && Leg(peers[i]) && !peers[i].rttMuted && !(Unheard(peers[i], now) && Heard(now))
    }

    /** The stall check as the mute check finds its result. */
    method Reroute(now: nat)
      requires Valid()
      modifies peers
      ensures Valid()
      ensures (exists i :: 0 <= i < |peers| && peers[i].Bonded()) ==> SomeLive()
      ensures Carried() == old(LegLeft(now))
      ensures forall i :: 0 <= i < |peers| ==> peers[i].soleCarrier == old(peers[i].soleCarrier)
    {
      Hearing(now);
      hide Peer.Silent, Peer.Bonded, Peer.Eligible, Peer.Invariant, Bond.Valid, Bond.SomeLive;
      ghost var heard := Heard(now);
      StallCheck(now);
      assert heard == Heard(now);
    }

    /** One tick of the sender's loop: the stall check, then the mute check. With two legs
        that could be muted some leg carries afterwards, whatever was measured. With fewer
        the mute check is skipped, so a leg muted earlier stays muted for good: some leg
        carries then exactly if one was left unmuted and is not stalled now. */
    method Tick(now: nat)
      requires Valid() && lastCheck <= now
      modifies this`lastCheck, peers, Mutes()
      ensures Valid()
      ensures !NothingToFailOverTo() ==> Carried() && Settled()
      ensures NothingToFailOverTo() ==> Carried() == old(LegLeft(now))
      ensures forall i :: 0 <= i < |peers| ==> peers[i].Fair(old(peers[i].mute.muted), old(peers[i].mute.changedAt), now)
      ensures !NothingToFailOverTo() ==>
        forall i, j :: 0 <= i < |peers| && 0 <= j < |peers| && i != j && Incumbent(peers[i]) && Candidate(peers[j]) ==>
          old(peers[j].soleCarrier) ==> Beaten(peers[j], peers[i], now)
    {
      hide Peer.Bonded, Peer.Eligible, Peer.Fair, Peer.Invariant;
      hide Bond.Valid, Bond.SomeLive, Bond.Settled, Bond.Carried, Bond.LegLeft, Bond.Beaten, Bond.Candidate, Bond.NothingToFailOverTo;
      Reroute(now);
      EligibleIsBonded();
      MuteCheck(now);
    }

    lemma EligibleIsBonded()
      ensures !NothingToFailOverTo() ==> exists i :: 0 <= i < |peers| && peers[i].Bonded()
    {
      if i, j :| 0 <= i < j < |peers| && peers[i].Eligible() && peers[j].Eligible() {
        assert peers[i].Bonded();
      }
    }
  }
}
