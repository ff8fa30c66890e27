/** The output pacer's rate estimate and schedule: src/rist_pacer.c. */
module Pacer {
  import opened Arith

  const WINDOW_US: nat := 1000000
  const STALL_FACTOR: nat := 3

  // ----- rate estimate -----------------------------------------------------------------

  /** Bits a second, from bytes counted over `dt` microseconds. */
  function WindowRate(bytes: nat, dt: nat): nat
    requires dt > 0
  {
    8 * bytes * 1000000 / dt
  }

  /** The bits of the window are its rate times its length in seconds, rounded down. */
  lemma RateIs(bytes: nat, dt: nat)
    requires dt > 0
    ensures WindowRate(bytes, dt) * dt <= 8000000 * bytes < WindowRate(bytes, dt) * dt + dt
  {
    DivMod(8 * bytes * 1000000, dt);
  }

  /** The average after a window measured at `rate`. */
  function Averaged(eightTimes: nat, rate: nat): nat {
    eightTimes + rate - eightTimes / 8
  }

  /** The average stays in the range the measured rates are in. */
  lemma StaysInRange(eightTimes: nat, rate: nat, low: nat, high: nat)
    requires 8 * low <= eightTimes <= 8 * high && low <= rate <= high
    ensures 8 * low <= Averaged(eightTimes, rate) <= 8 * high
  {
  }

  /** The average after `n` windows all measured at the same rate. */
  function After(eightTimes: nat, rate: nat, n: nat): nat {
    if n == 0 then eightTimes else Averaged(After(eightTimes, rate, n - 1), rate)
  }

  function Distance(a: nat, b: nat): nat {
    if a >= b then a - b else b - a
  }

  /** Fed a constant rate the estimate reaches it exactly, within as many windows as the
      average is away from it, and stays there. */
  lemma {:induction false} Converges(eightTimes: nat, rate: nat, n: nat)
    ensures n >= Distance(eightTimes, 8 * rate) ==> After(eightTimes, rate, n) / 8 == rate
    ensures After(eightTimes, rate, n) / 8 == rate
            || Distance(After(eightTimes, rate, n), 8 * rate) + n <= Distance(eightTimes, 8 * rate)
  {
    if n > 0 {
      Converges(eightTimes, rate, n - 1);
    }
  }

  class Rate {
    var eightTimes: nat
    var bps: nat
    var bytes: nat
    var lastCalcUs: nat

    /** The rates measured so far, a seed included. */
    ghost var seen: seq<nat>

    ghost predicate Valid()
      reads this
    {
      && bps == eightTimes / 8
      && (seen == [] ==> eightTimes == 0)
      && forall low: nat, high: nat :: InRange(seen, low, high) && seen != [] ==> 8 * low <= eightTimes <= 8 * high
    }

    static ghost predicate InRange(seen: seq<nat>, low: nat, high: nat) {
      forall i :: 0 <= i < |seen| ==> low <= seen[i] <= high
    }

    constructor (seedBps: nat)
      ensures Valid() && bps == seedBps && lastCalcUs == 0
    {
      eightTimes, bps, bytes, lastCalcUs := 8 * seedBps, seedBps, 0, 0;
      seen := if seedBps > 0 then [seedBps] else [];
      new;
      assert seedBps > 0 ==> seen[0] == seedBps;
    }

    /** `rist_pacer_rate_add`: a window that ends in time adds its rate to the average; one
        that spans an outage changes nothing but the window. */
    method Add(n: nat, nowUs: nat)
      requires Valid() && (lastCalcUs != 0 ==> nowUs >= lastCalcUs)
      modifies this
      ensures Valid()
      ensures var dt := nowUs - old(lastCalcUs);
              if old(lastCalcUs) != 0 && 1000000 <= dt <= 3000000
              then
                var rate := WindowRate(old(bytes) + n, dt);
                && seen == old(seen) + [rate] && rate * dt <= 8000000 * (old(bytes) + n) < rate * dt + dt
                && eightTimes == if old(eightTimes) == 0 then 8 * rate else Averaged(old(eightTimes), rate)
              else seen == old(seen) && eightTimes == old(eightTimes)
      ensures var ends := old(lastCalcUs) == 0 || nowUs - old(lastCalcUs) >= 1000000;
              lastCalcUs == (if ends then nowUs else old(lastCalcUs)) && bytes == if ends then 0 else old(bytes) + n
    {
      hide WindowRate, Rate.InRange;
      if lastCalcUs == 0 {
        lastCalcUs := nowUs;
        bytes := 0;
        return;
      }
      bytes := bytes + n;
      var dt := nowUs - lastCalcUs;
      if dt < WINDOW_US {
        return;
      }
      if dt <= WINDOW_US * STALL_FACTOR {
        RateIs(bytes, dt);
        Measure(WindowRate(bytes, dt));
      }
      lastCalcUs := nowUs;
      bytes := 0;
    }

    method Measure(bitrate: nat)
      requires Valid()
      modifies this`eightTimes, this`bps, this`seen
      ensures Valid() && seen == old(seen) + [bitrate]
      ensures eightTimes == if old(eightTimes) == 0 then 8 * bitrate else Averaged(old(eightTimes), bitrate)
    {
      ghost var was, before := seen, eightTimes;
      if eightTimes == 0 {
        eightTimes := bitrate * 8;
      } else {
        eightTimes := eightTimes + bitrate - eightTimes / 8;
      }
      bps := eightTimes / 8;
      seen := seen + [bitrate];
      forall low: nat, high: nat | InRange(seen, low, high) ensures 8 * low <= eightTimes <= 8 * high {
        assert seen[|was|] == bitrate;
        assert InRange(was, low, high) by {
          assert forall i :: 0 <= i < |was| ==> was[i] == seen[i];
        }
        if before != 0 {
          StaysInRange(before, bitrate, low, high);
        }
      }
    }
  }

  // ----- schedule -------------------------------------------------------------------------

  /** The next datagram's due time as `rist_pacer_due_ns` settles it: now for a first one,
      and now for one that has slipped too far behind. */
  function Due(nextDue: nat, now: nat, slip: nat): (d: nat)
    ensures nextDue <= d || d == now
  {
    if nextDue == 0 || now > nextDue + slip then now else nextDue
  }

  /** How many of at most `max` datagrams are released when the next is due at `due`. */
  function Released(due: nat, now: nat, interval: nat, max: nat): (n: nat)
    requires interval > 0
    ensures n <= max
    decreases max
  {
    if max > 0 && due <= now then 1 + Released(due + interval, now, interval, max - 1) else 0
  }

  /** The last one released is due, and unless the call asked for no more the next is not. */
  ghost predicate AsDue(due: nat, now: nat, interval: nat, max: nat, n: nat) {
    n <= max && (n > 0 ==> due + (n - 1) * interval <= now) && (n < max ==> due + n * interval > now)
  }

  lemma {:induction false} ReleasedBound(due: nat, now: nat, interval: nat, max: nat)
    requires interval > 0
    ensures AsDue(due, now, interval, max, Released(due, now, interval, max))
    decreases max
  {
    if max > 0 && due <= now {
      ReleasedBound(due + interval, now, interval, max - 1);
      var n := Released(due + interval, now, interval, max - 1);
      if n > 0 {
        OneMore(n, interval);
      }
    }
  }

  lemma OneMore(n: nat, interval: nat)
    requires n > 0
    ensures n * interval == interval + (n - 1) * interval
  {
  }

  /** A call of `rist_pacer_quota`. */
  datatype Call = Call(now: nat, max: nat)

  /** The due time and the number released after a run of calls. */
  datatype Outcome = Outcome(nextDue: nat, released: nat)

  function Run(nextDue: nat, calls: seq<Call>, interval: nat, slip: nat): Outcome
    requires interval > 0
    decreases |calls|
  {
    if calls == [] then Outcome(nextDue, 0)
    else
      var n := |calls| - 1;
      var before := Run(nextDue, calls[..n], interval, slip);
      var due := Due(before.nextDue, calls[n].now, slip);
      var k := Released(due, calls[n].now, interval, calls[n].max);
      Outcome(due + k * interval, before.released + k)
  }

  predicate Within(calls: seq<Call>, from: nat, window: nat) {
    && (forall i :: 0 <= i < |calls| ==> from <= calls[i].now <= from + window)
    && forall i, j :: 0 <= i < j < |calls| ==> calls[i].now <= calls[j].now
  }

  /** What is released pushes the due time on by an interval each, never back. */
  lemma {:induction false} PushesOn(nextDue: nat, calls: seq<Call>, interval: nat, slip: nat, from: nat, window: nat)
    requires interval > 0 && from > 0 && Within(calls, from, window)
    ensures var o := Run(nextDue, calls, interval, slip);
            o.released > 0 ==>
              && o.nextDue + slip >= from + o.released * interval
              && o.nextDue <= from + window + interval
  {
    if calls != [] {
      var n := |calls| - 1;
      PushesOn(nextDue, calls[..n], interval, slip, from, window);
      var before := Run(nextDue, calls[..n], interval, slip);
      var now := calls[n].now;
      var due := Due(before.nextDue, now, slip);
      var k := Released(due, now, interval, calls[n].max);
      ReleasedBound(due, now, interval, calls[n].max);
      Spread(before.released, k, interval);
      if k > 0 {
        OneMore(k, interval);
      }
    }
  }

  /** At a constant interval, however the calls fall and whatever they ask for, no window
      sees more datagrams than fit in it and the tolerated slip, plus one. */
  lemma {:induction false} ReleasedInWindow(nextDue: nat, calls: seq<Call>, interval: nat, slip: nat, from: nat, window: nat)
    requires interval > 0 && from > 0 && Within(calls, from, window)
    ensures Run(nextDue, calls, interval, slip).released <= (window + slip) / interval + 1
  {
    PushesOn(nextDue, calls, interval, slip, from, window);
    var r := Run(nextDue, calls, interval, slip).released;
    if r > 0 {
      OneMore(r, interval);
      QuotientAtLeast(window + slip, r - 1, interval);
    }
  }

  lemma QuotientAtLeast(x: nat, q: nat, d: nat)
    requires d > 0 && q * d <= x
    ensures q <= x / d
  {
    DivMod(x, d);
    Sign(q - x / d, d);
    assert (q - x / d) * d == q * d - x / d * d;
  }

  class Pacing {
    const maxSlipNs: nat
    var nextDueNs: nat
    var underruns: nat

    constructor (maxSlipNs: nat)
      ensures nextDueNs == 0 && underruns == 0 && this.maxSlipNs == maxSlipNs
    {
      this.maxSlipNs, nextDueNs, underruns := maxSlipNs, 0, 0;
    }

    /** `rist_pacer_due_ns`. */
    method DueNs(now: nat) returns (due: nat)
      modifies this
      ensures due == nextDueNs == Due(old(nextDueNs), now, maxSlipNs)
      ensures underruns == old(underruns) + if old(nextDueNs) != 0 && now > old(nextDueNs) + maxSlipNs then 1 else 0
    {
      if nextDueNs == 0 {
        nextDueNs := now;
      } else if now > nextDueNs + maxSlipNs {
        nextDueNs := now;
        underruns := underruns + 1;
      }
      due := nextDueNs;
    }

    /** `rist_pacer_quota`: one call of a run. Without an estimate nothing is held back. */
    method Quota(now: nat, interval: nat, max: nat) returns (n: nat)
      modifies this
      ensures interval == 0 ==> n == max && unchanged(this)
      ensures interval > 0 ==>
        var due := Due(old(nextDueNs), now, maxSlipNs);
        n == Released(due, now, interval, max) && AsDue(due, now, interval, max, n) && nextDueNs == due + n * interval
    {
      hide AsDue;
      if interval == 0 {
        return max;
      }
      var due := DueNs(now);
      ReleasedBound(due, now, interval, max);
      n := 0;
      while n < max && nextDueNs <= now
        invariant n <= max && nextDueNs == due + n * interval
        invariant n + Released(nextDueNs, now, interval, max - n) == Released(due, now, interval, max)
      {
        Spread(n, 1, interval);
        nextDueNs := nextDueNs + interval;
        n := n + 1;
      }
    }
  }
}
