/** Rebuilding the sender's clock from 32-bit microsecond timestamps: src/rist-adv-ts.h. */
module AdvTs {

  const B31: int := 0x8000_0000
  const B32: int := 0x1_0000_0000
  const B62: int := 0x4000_0000_0000_0000
  const B63: int := 0x8000_0000_0000_0000
  const B64: int := 0x1_0000_0000_0000_0000
  const NUMERATOR: int := 67108864
  const DENOMINATOR: int := 15625

  /** Division as in C: toward zero. */
  function Truncated(a: int, b: nat): int
    requires b > 0
  {
    if a >= 0 then a / b else -((-a) / b)
  }

  /** A 32-bit difference read as signed. */
  function Signed32(x: nat): int
    requires x < B32
  {
    if x < B31 then x else x - B32
  }

  /** Microseconds as clock ticks, rounded toward zero. */
  function Ticks(d: int): int {
    Truncated(d * NUMERATOR, DENOMINATOR)
  }

  /** The product never leaves 64 bits, and a step of `d` millionths of 2^32 ticks is off by
      less than a tick, toward zero. */
  lemma TicksExact(d: int)
    requires -B31 <= d < B31
    ensures -B63 <= d * NUMERATOR < B63
    ensures d >= 0 ==> 1000000 * Ticks(d) <= 0x1_0000_0000 * d < 1000000 * Ticks(d) + 1000000
    ensures d <= 0 ==> 1000000 * Ticks(d) >= 0x1_0000_0000 * d > 1000000 * Ticks(d) - 1000000
    ensures -15624 <= DENOMINATOR * Ticks(d) - NUMERATOR * d <= 15624
  {
  }

  /** A wire difference is the true step wherever the 32-bit counter has wrapped. */
  lemma WireDelta(time: int, step: int)
    requires -B31 <= step < B31
    ensures Signed32(((time + step) % B32 - time % B32) % B32) == step
  {
  }

  lemma AddWraps(a: int, t: int)
    ensures (a % B64 + t) % B64 == (a + t) % B64
  {
  }

  lemma SubWraps(a: int, b: int)
    ensures (a % B64 - b % B64) % B64 == (a - b) % B64
  {
  }

  /** `ticks` stand for `micros` microseconds taken in `steps` roundings. */
  ghost predicate Close(ticks: int, micros: int, steps: nat) {
    -15624 * steps <= DENOMINATOR * ticks - NUMERATOR * micros <= 15624 * steps
  }

  lemma CloseNothing()
    ensures Close(0, 0, 0)
  {
  }

  lemma Unwrapped(clock: nat, time: nat)
    requires clock < B64 && time < B32
    ensures clock % B64 == clock && time % B32 == time
  {
  }

  lemma CloseStep(ticks: int, micros: int, steps: nat, d: int)
    requires Close(ticks, micros, steps) && -B31 <= d < B31
    ensures Close(ticks + Ticks(d), micros + d, steps + 1)
  {
    TicksExact(d);
  }

  /** How far two clocks' elapsed times differ, as the code compares them. */
  function Drift(src: nat, arr: nat): nat {
    if src > arr then src - arr else arr - src
  }

  /** `micros` microseconds are within half of the `arr` ticks that passed here, the
      roundings granted; or off by more than half even if they are. */
  predicate WithinHalf(micros: int, steps: nat, arr: nat) {
    && NUMERATOR * micros - DENOMINATOR * arr <= DENOMINATOR * (arr / 2 - steps)
    && DENOMINATOR * arr - NUMERATOR * micros <= DENOMINATOR * (arr / 2 - steps)
  }

  predicate BeyondHalf(micros: int, steps: nat, arr: nat) {
    || NUMERATOR * micros - DENOMINATOR * arr > DENOMINATOR * (arr / 2 + steps)
    || DENOMINATOR * arr - NUMERATOR * micros > DENOMINATOR * (arr / 2 + steps)
  }

  /** A window's verdict, told by the true elapsed time: a clock within half of real time,
      the rounding granted, is kept. */
  lemma VerdictKeeps(start: int, clock: int, micros: int, steps: nat, arr: nat)
    requires Close(clock - start, micros, steps) && arr < B63 && WithinHalf(micros, steps, arr)
    ensures Drift((clock % B64 - start % B64) % B64, arr) <= arr / 2
  {
    assert -(arr / 2) <= clock - start - arr <= arr / 2;
    WrappedDifference(clock, start);
  }

  /** And one further off than that is given up, and so is one that went back. */
  lemma VerdictDrops(start: int, clock: int, micros: int, steps: nat, arr: nat)
    requires Close(clock - start, micros, steps) && -B63 <= clock - start < B64 && arr < B62
    requires BeyondHalf(micros, steps, arr) || clock < start
    ensures Drift((clock % B64 - start % B64) % B64, arr) > arr / 2
  {
    if clock >= start {
      WrappedDifference(clock, start);
    } else {
      WrappedDifference(clock + B64, start);
      OneTurnMore(clock);
    }
  }

  lemma WrappedDifference(a: int, b: int)
    requires 0 <= a - b < B64
    ensures (a % B64 - b % B64) % B64 == a - b
  {
  }

  lemma OneTurnMore(a: int)
    ensures (a + B64) % B64 == a % B64
  {
  }

  /** The verdict is right: the clock is trusted if the sender's time since `start` is within
      half of the ticks that passed here, and not if it is further off or went back. */
  ghost predicate Fair(clock: int, start: int, micros: int, steps: nat, arr: nat, trusted: bool) {
    && Close(clock - start, micros, steps)
    && (arr < B63 && WithinHalf(micros, steps, arr) ==> trusted)
    && (arr < B62 && -B63 <= clock - start < B64 && (BeyondHalf(micros, steps, arr) || clock < start) ==> !trusted)
  }

  lemma VerdictIsFair(start: int, clock: int, micros: int, steps: nat, arr: nat)
    requires Close(clock - start, micros, steps)
    ensures Fair(clock, start, micros, steps, arr, Drift((clock - start) % B64, arr) <= arr / 2)
  {
    hide Drift, Close, WithinHalf, BeyondHalf;
    SubWraps(clock, start);
    if arr < B63 && WithinHalf(micros, steps, arr) {
      VerdictKeeps(start, clock, micros, steps, arr);
    }
    if arr < B62 && -B63 <= clock - start < B64 && (BeyondHalf(micros, steps, arr) || clock < start) {
      VerdictDrops(start, clock, micros, steps, arr);
    }
  }

  class State {
    var seeded: bool
    var calibrating: bool
    var useSource: bool
    var last: nat
    var accum: nat
    var seedNow: nat
    var deadline: nat
    var reconAnchor: nat

    /** The sender's unwrapped clock in microseconds, the rebuilt one unwrapped in ticks,
        both as anchored, and as they stood when the current window began. */
    ghost var time: int
    ghost var clock: int
    ghost var time0: int
    ghost var clock0: int
    ghost var steps: nat
    ghost var windowTime: int
    ghost var windowClock: int
    ghost var windowSteps: nat

    /** The rebuilt clock is the sender's, off by at most a tick a packet. */
    ghost predicate Valid()
      reads this
    {
      seeded ==>
        && last == time % B32 && accum == clock % B64 && reconAnchor == windowClock % B64
        && Close(clock - clock0, time - time0, steps)
        && windowSteps <= steps && Close(clock - windowClock, time - windowTime, windowSteps)
        && (calibrating ==> seedNow == windowClock % B64)
    }

    /** The clock is on trial, and its window is over. */
    ghost predicate DueBy(now: nat)
      reads this
    {
      (calibrating || !useSource) && deadline <= now
    }

    /** A window begins. */
    ghost predicate NewWindow(now: nat, window: nat)
      reads this
    {
      && seedNow == now && deadline == (now + window) % 0x1_0000_0000_0000_0000
      && windowClock == clock && windowTime == time && windowSteps == 0
    }

    constructor ()
      ensures Valid() && !seeded && !calibrating && !useSource
    {
      seeded, calibrating, useSource := false, false, false;
      last, accum, seedNow, deadline, reconAnchor := 0, 0, 0, 0, 0;
    }

    /** `rist_adv_ts_reconstruct`, for a packet sent `step` microseconds from the last live
        one. A retransmission changes nothing; a live packet moves the rebuilt clock by its
        step. The result is the rebuilt clock or, while there is none or it is not trusted,
        the arrival time. */
    method Reconstruct(wireTs: nat, now: nat, window: nat, advance: bool, ghost step: int) returns (r: nat)
      requires Valid() && now < B64 && wireTs < B32
      requires seeded ==> wireTs == (time + step) % B32 && -B31 <= step < B31 && seedNow <= now
      modifies this
      ensures Valid()
      ensures !advance ==> unchanged(this)
      ensures advance && !old(seeded) ==>
        seeded && calibrating && r == now == clock == clock0 && steps == 0 && time == time0 && time % B32 == wireTs
      ensures old(seeded) ==> seeded && clock0 == old(clock0) && time0 == old(time0)
      ensures old(seeded) && advance ==>
        time == old(time) + step && clock == old(clock) + Ticks(step) && steps == old(steps) + 1
      ensures r == if !old(seeded) then now
                   else if (if old(calibrating) && advance then calibrating || useSource else old(calibrating || useSource))
                        then (old(clock) + Ticks(step)) % 0x1_0000_0000_0000_0000
                   else now
      ensures advance && !old(seeded) ==> NewWindow(now, window) && useSource == old(useSource)
      ensures old(seeded) && advance && old(DueBy(now)) ==>
        var arr := now - old(seedNow);
        && !calibrating && NewWindow(now, window)
        && (useSource <==> Drift((old(clock) + Ticks(step) - old(windowClock)) % B64, arr) <= arr / 2)
        && Fair(old(clock) + Ticks(step), old(windowClock), old(time) + step - old(windowTime), old(windowSteps) + 1, arr,
                useSource)
      ensures old(seeded) && advance && !old(DueBy(now)) ==>
        && calibrating == old(calibrating) && useSource == old(useSource) && seedNow == old(seedNow) && deadline == old(deadline)
        && windowClock == old(windowClock) && windowTime == old(windowTime) && windowSteps == old(windowSteps) + 1
    {
      hide State.Valid, Ticks, Signed32, Drift, Fair;
      if !seeded {
        if !advance {
          return now;
        }
        Seed(wireTs, now, window);
        return now;
      }
      var recon := Position(wireTs, step);
      if !advance {
        return if calibrating || useSource then recon else now;
      }
      Follow(wireTs, recon, step);
      if calibrating {
        if now < deadline {
          return recon;
        }
        SinceWindow(now - seedNow);
        var srcElapsed := (accum - seedNow) % B64;
        Verdict(srcElapsed, now, window);
        return if useSource then recon else now;
      }
      if !useSource {
        if now >= deadline {
          SinceWindow(now - seedNow);
          var srcElapsed := (accum - reconAnchor) % B64;
          Verdict(srcElapsed, now, window);
        }
        return now;
      }
      return recon;
    }

    /** The first live packet anchors the clock. */
    method Seed(wireTs: nat, now: nat, window: nat)
      requires now < B64 && wireTs < B32
      modifies this
      ensures Valid() && seeded && calibrating && clock == clock0 == now && time == time0 == wireTs && steps == 0
      ensures NewWindow(now, window) && useSource == old(useSource)
    {
      hide Close;
      CloseNothing();
      Unwrapped(now, wireTs);
      seeded, calibrating := true, true;
      last, accum, seedNow, deadline := wireTs, now, now, (now + window) % B64;
      reconAnchor := accum;
      time, time0, windowTime := wireTs, wireTs, wireTs;
      clock, clock0, windowClock := now, now, now;
      steps, windowSteps := 0, 0;
    }

    /** Where a packet stands on the rebuilt clock. */
    method Position(wireTs: nat, ghost step: int) returns (recon: nat)
      requires Valid() && seeded && wireTs == (time + step) % B32 && -B31 <= step < B31
      ensures recon == (clock + Ticks(step)) % B64
    {
      hide Ticks, Close, Signed32;
      WireDelta(time, step);
      AddWraps(clock, Ticks(step));
      var d := Signed32((wireTs - last) % B32);
      recon := (accum + Ticks(d)) % B64;
    }

    /** A live packet moves the clock. */
    method Follow(wireTs: nat, recon: nat, ghost step: int)
      requires Valid() && seeded && wireTs == (time + step) % B32 && -B31 <= step < B31
      requires recon == (clock + Ticks(step)) % B64
      modifies this`accum, this`last, this`time, this`clock, this`steps, this`windowSteps
      ensures Valid() && time == old(time) + step && clock == old(clock) + Ticks(step) && steps == old(steps) + 1
      ensures windowSteps == old(windowSteps) + 1
    {
      hide Ticks, Close;
      CloseStep(clock - clock0, time - time0, steps, step);
      CloseStep(clock - windowClock, time - windowTime, windowSteps, step);
      time, clock, steps, windowSteps := time + step, clock + Ticks(step), steps + 1, windowSteps + 1;
      accum := recon;
      last := wireTs;
    }

    lemma SinceWindow(arr: nat)
      requires Valid() && seeded
      ensures (accum - reconAnchor) % B64 == (clock - windowClock) % B64
      ensures calibrating ==> (accum - seedNow) % B64 == (clock - windowClock) % B64
      ensures Fair(clock, windowClock, time - windowTime, windowSteps, arr, Drift((clock - windowClock) % B64, arr) <= arr / 2)
    {
      hide Drift, Fair, Close;
      VerdictIsFair(windowClock, clock, time - windowTime, windowSteps, arr);
      SubWraps(clock, windowClock);
    }

    /** The verdict on a window, and the start of the next. */
    method Verdict(srcElapsed: nat, now: nat, window: nat)
      requires Valid() && seeded && seedNow <= now
      modifies this`calibrating, this`useSource, this`reconAnchor, this`seedNow, this`deadline,
               this`windowTime, this`windowClock, this`windowSteps
      ensures Valid() && !calibrating && NewWindow(now, window)
      ensures useSource <==> Drift(srcElapsed, now - old(seedNow)) <= (now - old(seedNow)) / 2
    {
      hide Close;
      CloseNothing();
      calibrating := false;
      var arrElapsed := now - seedNow;
      var drift := if srcElapsed > arrElapsed then srcElapsed - arrElapsed else arrElapsed - srcElapsed;
      useSource := drift <= arrElapsed / 2;
      reconAnchor := accum;
      seedNow := now;
      deadline := (now + window) % B64;
      windowTime, windowClock, windowSteps := time, clock, 0;
    }
  }
}
