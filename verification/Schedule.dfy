/** Schedules by which a split stream goes well: everything in time for one pass, and payloads
    coming steadily for any length of time. */
module Schedule {
  import opened Clock
  import opened Pass
  import Receiver
  import opened SeqNo
  import opened SplitMerge
  import opened Streaming

  // ----- one pass -----------------------------------------------------------------------------------

  /** Early enough for a pass that reads the clock up to `last`. */
  predicate InTime(e: Event, payloads: nat, buffer: nat, last: nat) {
    e.Arrives? && e.a.i < 2 * payloads && (e.a.now - e.a.packetTime) * 10 <= buffer * 11 && last - e.a.now <= 2 * buffer
  }

  ghost predicate NotLate(s: Stream, base: nat, payloads: nat, buffer: nat, last: nat) {
    s.k == 0 && forall u :: u in s.held ==> base <= u < base + 2 * payloads && last - s.held[u].time <= 2 * buffer
  }

  lemma {:induction false} ArrivalsGoWell(s: Stream, base: nat, events: seq<Event>, payloads: nat, buffer: nat, last: nat)
    requires NotLate(s, base, payloads, buffer, last) && 2 * payloads < B16
    requires forall j :: 0 <= j < |events| ==> InTime(events[j], payloads, buffer, last)
    ensures AllWell(s, base, events, payloads, buffer) && NotLate(After(s, base, events, buffer), base, payloads, buffer, last)
    decreases |events|
  {
    if events != [] {
      var n := |events| - 1;
      ArrivalsGoWell(s, base, events[..n], payloads, buffer, last);
      assert InTime(events[n], payloads, buffer, last);
    }
  }

  /** If fewer than 32768 payloads arrive in time for one pass, and all are due, all goes well
      and everything is read. */
  lemma OnePass(base: nat, a: Arrival, arrivals: seq<Event>, clock: nat -> nat, payloads: nat, buffer: nat)
    requires a.i == 0 && 0 < payloads && 2 * payloads < B16 && Running(clock)
    requires InTime(Arrives(a), payloads, buffer, Tick(clock, payloads + 1))
    requires forall j :: 0 <= j < |arrivals| ==> InTime(arrivals[j], payloads, buffer, Tick(clock, payloads + 1))
    requires Completes(Arrives(a), arrivals + [Reads(clock)], payloads, buffer)
    ensures AllWell(Begun(base, a, buffer), base, arrivals + [Reads(clock)], payloads, buffer)
  {
    hide InTime, Completes, DueBy, Came, Bounded, Accounted, NotLate, InWindow, Begun;
    var s, due, events := Begun(base, a, buffer), Tick(clock, 0), arrivals + [Reads(clock)];
    var last := Tick(clock, payloads + 1);
    var r := After(s, base, arrivals, buffer);
    BegunInTime(base, a, payloads, buffer, last);
    ArrivalsGoWell(s, base, arrivals, payloads, buffer, last);
    CompletesMeans(a, events, payloads, buffer);
    assert events[..|events| - 1] == arrivals && events[|events| - 1] == Reads(clock);
    DueParts(a, events, due, buffer);
    BeginsBounded(base, a, payloads, due, buffer);
    NoneForgotten(s, base, [Arrives(a)], arrivals, payloads, due, buffer);
    forall i | 0 <= i < 2 * payloads ensures Seen(r, base, i) {
      CameBefore(a, events, i);
      AccountedFor(r, base, [Arrives(a)] + arrivals, i);
    }
    BoundedOut(r, base, payloads, due, clock, buffer);
    EverythingThere(r, base, payloads, buffer, last, LastReading(r, base, clock, buffer));
  }

  lemma BegunInTime(base: nat, a: Arrival, payloads: nat, buffer: nat, last: nat)
    requires a.i == 0 && InTime(Arrives(a), payloads, buffer, last)
    ensures NotLate(Begun(base, a, buffer), base, payloads, buffer, last)
  {
  }

  lemma CompletesMeans(a: Arrival, events: seq<Event>, payloads: nat, buffer: nat)
    requires Completes(Arrives(a), events, payloads, buffer)
    ensures events != [] && events[|events| - 1].Reads?
    ensures DueBy([Arrives(a)] + events, Tick(events[|events| - 1].clock, 0), buffer)
    ensures forall i :: 0 <= i < 2 * payloads ==> Came([Arrives(a)] + events, i)
  {
  }

  lemma EverythingThere(s: Stream, base: nat, payloads: nat, buffer: nat, last: nat, now: nat)
    requires NotLate(s, base, payloads, buffer, last) && forall i :: 0 <= i < 2 * payloads ==> Seen(s, base, i)
    requires now <= last
    ensures ReadsWell(s, base, now, buffer)
  {
    forall u, v | u in s.held && Releasable(s.held[u], now, buffer) && Low(s, base) <= v <= LastOf(u, base) ensures v in s.held {
      assert Seen(s, base, v - base);
    }
  }

  // ----- a schedule of any length -------------------------------------------------------------------

  /** Payloads come at most a buffer apart, and a buffer is over by the d-th one after. */
  ghost predicate Steady(at: nat -> nat, buffer: nat, d: nat) {
    && Running(at) && (forall i: nat, j: nat :: j == i + 1 ==> Tick(at, j) <= Tick(at, i) + buffer)
    && forall i: nat, j: nat :: j == i + d ==> Tick(at, i) + buffer <= Tick(at, j)
  }

  function Evenly(start: nat, period: nat): nat -> nat {
    (i: nat) => start + i * period
  }

  /** Payloads that come at a constant rate, `d` of them in a buffer, do so steadily. */
  lemma ConstantRate(start: nat, period: nat, d: nat)
    requires d > 0
    ensures Steady(Evenly(start, period), d * period, d)
  {
    var at := Evenly(start, period);
    forall i: nat, j: nat | i <= j ensures Tick(at, i) <= Tick(at, j) {
      Ordered(i, j, period);
    }
    forall i: nat, j: nat | j == i + 1 ensures Tick(at, j) <= Tick(at, i) + d * period {
      Ordered(1, d, period);
      Spread(i, 1, period);
    }
    forall i: nat, j: nat | j == i + d ensures Tick(at, i) + d * period <= Tick(at, j) {
      Spread(i, d, period);
    }
  }

  lemma Ordered(i: nat, j: nat, period: nat)
    requires i <= j
    ensures i * period <= j * period
  {
  }

  lemma Spread(i: nat, d: nat, period: nat)
    ensures (i + d) * period == i * period + d * period
  {
  }

  /** A half arrives at the time of its payload. */
  function OnTime(h: nat, at: nat -> nat): Arrival {
    var t := Tick(at, h / 2);
    Arrival(h, t, t, t, false)
  }

  function Still(t: nat): nat -> nat {
    (i: nat) => t
  }

  /** Both halves of a payload arrive, the very first half apart, and the reader passes. */
  function Round(i: nat, payloads: nat, at: nat -> nat): seq<Event> {
    (if i >= payloads then []
     else if i == 0 then [Arrives(OnTime(1, at))]
     else [Arrives(OnTime(2 * i, at)), Arrives(OnTime(2 * i + 1, at))])
    + [Reads(Still(Tick(at, i)))]
  }

  function Rounds(r: nat, payloads: nat, at: nat -> nat): seq<Event> {
    if r == 0 then [] else Rounds(r - 1, payloads, at) + Round(r - 1, payloads, at)
  }

  /** The first `h` halves have come, and those not read are in the ring. */
  ghost predicate Holds(s: Stream, base: nat, h: nat, at: nat -> nat, buffer: nat) {
    && 2 * s.k <= h && (forall u: nat :: u in s.held <==> Low(s, base) <= u < base + h)
    && forall u: nat :: u in s.held ==> u >= base && s.held[u] == StampFor(OnTime(u - base, at), buffer)
  }

  /** The next payload, if it came, is not due yet. */
  predicate NotDue(s: Stream, payloads: nat, at: nat -> nat, buffer: nat, now: nat) {
    s.k < payloads ==> now < Tick(at, s.k) + buffer
  }

  lemma HalfComes(s: Stream, base: nat, h: nat, payloads: nat, at: nat -> nat, buffer: nat)
    requires Holds(s, base, h, at, buffer) && h < 2 * payloads && h - 2 * s.k < B16 - 1
    ensures ArrivesWell(s, base, OnTime(h, at), payloads, buffer)
    ensures Holds(Arrived(s, base, OnTime(h, at), buffer), base, h + 1, at, buffer)
  {
    hide StampFor;
  }

  /** At most `d` payloads are waiting when the next one comes. */
  lemma FewWait(s: Stream, base: nat, i: nat, payloads: nat, at: nat -> nat, buffer: nat, d: nat)
    requires Steady(at, buffer, d) && NotDue(s, payloads, at, buffer, Tick(at, i)) && s.k < payloads
    ensures i < s.k + d
  {
    var j := s.k + d;
    assert Tick(at, s.k) + buffer <= Tick(at, j);
  }

  lemma StampAt(s: Stream, base: nat, h: nat, at: nat -> nat, buffer: nat, u: nat)
    requires Holds(s, base, h, at, buffer) && u in s.held
    ensures u >= Low(s, base) && (u - base) / 2 >= s.k
    ensures s.held[u].time == Tick(at, (u - base) / 2) && s.held[u].target == Tick(at, (u - base) / 2) + buffer
  {
  }

  /** A pass with whole payloads in the ring, the oldest of them due within a buffer. */
  lemma PassGoesWell(s: Stream, base: nat, m: nat, now: nat, at: nat -> nat, buffer: nat)
    requires Holds(s, base, 2 * m, at, buffer) && Running(at) && (s.k < m ==> now <= Tick(at, s.k) + 2 * buffer)
    ensures ReadsWell(s, base, now, buffer)
  {
    forall u | u in s.held ensures now - s.held[u].time <= 2 * buffer {
      StampAt(s, base, 2 * m, at, buffer, u);
      assert Tick(at, s.k) <= Tick(at, (u - base) / 2);
    }
  }

  lemma {:induction false} LeavingStops(s: Stream, base: nat, clock: nat -> nat, buffer: nat, j: nat)
    requires j <= B16 && Leaving(s, base, clock, buffer, j) < B16
    ensures !PairLeaves(s, base, clock, buffer, Leaving(s, base, clock, buffer, j))
    decreases B16 - j
  {
    hide PairLeaves;
    if j < B16 && PairLeaves(s, base, clock, buffer, j) {
      LeavingStops(s, base, clock, buffer, j + 1);
    }
  }

  /** It takes out exactly the payloads due. */
  lemma PassTakes(s: Stream, base: nat, m: nat, now: nat, at: nat -> nat, buffer: nat)
    requires Holds(s, base, 2 * m, at, buffer) && 2 * m - 2 * s.k < B16
    ensures var r := Out(s, base, Leaving(s, base, Still(now), buffer, 0));
            Holds(r, base, 2 * m, at, buffer) && NotDue(r, m, at, buffer, now)
  {
    hide Leaving, StampFor, OnTime;
    var n := Leaving(s, base, Still(now), buffer, 0);
    PairsLeave(s, base, Still(now), buffer, 0);
    if n > 0 {
      assert PairLeaves(s, base, Still(now), buffer, n - 1);
      assert Low(s, base) + 2 * (n - 1) + 1 in s.held;
    }
    LeavingStops(s, base, Still(now), buffer, 0);
    var u := Low(s, base) + 2 * n;
    if s.k + n < m {
      assert u in s.held && u + 1 in s.held;
      StampAt(s, base, 2 * m, at, buffer, u);
    }
  }

  lemma AddEvent(s: Stream, base: nat, events: seq<Event>, e: Event, payloads: nat, buffer: nat)
    requires AllWell(s, base, events, payloads, buffer) && GoesWell(After(s, base, events, buffer), base, e, payloads, buffer)
    ensures AllWell(s, base, events + [e], payloads, buffer)
    ensures After(s, base, events + [e], buffer) == AfterOne(After(s, base, events, buffer), base, e, buffer)
  {
    hide GoesWell, AfterOne;
    assert (events + [e])[..|events|] == events;
  }

  lemma AddHalf(s: Stream, base: nat, events: seq<Event>, h: nat, payloads: nat, at: nat -> nat, buffer: nat)
    requires AllWell(s, base, events, payloads, buffer) && h < 2 * payloads
    requires var r := After(s, base, events, buffer); Holds(r, base, h, at, buffer) && h - 2 * r.k < B16 - 1
    ensures var r := After(s, base, events + [Arrives(OnTime(h, at))], buffer);
            Holds(r, base, h + 1, at, buffer) && r.k == After(s, base, events, buffer).k
    ensures AllWell(s, base, events + [Arrives(OnTime(h, at))], payloads, buffer)
  {
    hide Holds, After, AllWell, OnTime, ArrivesWell;
    var r := After(s, base, events, buffer);
    HalfComes(r, base, h, payloads, at, buffer);
    AddEvent(s, base, events, Arrives(OnTime(h, at)), payloads, buffer);
  }

  lemma AddPass(s: Stream, base: nat, events: seq<Event>, m: nat, now: nat, payloads: nat, at: nat -> nat, buffer: nat)
    requires AllWell(s, base, events, payloads, buffer) && Running(at)
    requires var r := After(s, base, events, buffer);
             && Holds(r, base, 2 * m, at, buffer) && 2 * m - 2 * r.k < B16
             && (r.k < m ==> now <= Tick(at, r.k) + 2 * buffer)
    ensures var r := After(s, base, events + [Reads(Still(now))], buffer);
            Holds(r, base, 2 * m, at, buffer) && NotDue(r, m, at, buffer, now)
    ensures AllWell(s, base, events + [Reads(Still(now))], payloads, buffer)
  {
    hide Holds, NotDue, After, AllWell, ReadsWell, Leaving, Out;
    var r := After(s, base, events, buffer);
    PassGoesWell(r, base, m, now, at, buffer);
    PassTakes(r, base, m, now, at, buffer);
    AddEvent(s, base, events, Reads(Still(now)), payloads, buffer);
  }

  /** How many payloads have come before round `i`. */
  function Until(i: nat, payloads: nat): nat {
    if i <= payloads then i else payloads
  }

  /** One round more. */
  lemma AddRound(s: Stream, base: nat, i: nat, payloads: nat, at: nat -> nat, buffer: nat, d: nat)
    requires Steady(at, buffer, d) && 2 * d + 2 < B16 && i > 0
    requires var events, m := Rounds(i, payloads, at), Until(i, payloads);
             var r := After(s, base, events, buffer);
             && AllWell(s, base, events, payloads, buffer)
             && Holds(r, base, 2 * m, at, buffer) && NotDue(r, m, at, buffer, Tick(at, i - 1))
    ensures var events, m := Rounds(i + 1, payloads, at), Until(i + 1, payloads);
            var r := After(s, base, events, buffer);
            && AllWell(s, base, events, payloads, buffer)
            && Holds(r, base, 2 * m, at, buffer) && NotDue(r, m, at, buffer, Tick(at, i))
  {
    hide Holds, After, AllWell, OnTime, Still, Rounds;
    var events, m := Rounds(i, payloads, at), Until(i, payloads);
    var r := After(s, base, events, buffer);
    NotMore(r, base, m, at, buffer);
    Waited(r, base, i, m, at, buffer, d);
    RoundsOn(i, payloads, at);
    if i < payloads {
      var first, second := Arrives(OnTime(2 * i, at)), Arrives(OnTime(2 * i + 1, at));
      AddHalf(s, base, events, 2 * i, payloads, at, buffer);
      AddHalf(s, base, events + [first], 2 * i + 1, payloads, at, buffer);
      AddPass(s, base, events + [first] + [second], i + 1, Tick(at, i), payloads, at, buffer);
      assert events + [first] + [second] + [Reads(Still(Tick(at, i)))] == events + Round(i, payloads, at);
    } else {
      AddPass(s, base, events, payloads, Tick(at, i), payloads, at, buffer);
      assert events + [Reads(Still(Tick(at, i)))] == events + Round(i, payloads, at);
    }
  }

  lemma RoundsOn(i: nat, payloads: nat, at: nat -> nat)
    ensures Rounds(i + 1, payloads, at) == Rounds(i, payloads, at) + Round(i, payloads, at)
  {
  }

  lemma NotMore(s: Stream, base: nat, m: nat, at: nat -> nat, buffer: nat)
    requires Holds(s, base, 2 * m, at, buffer)
    ensures s.k <= m
  {
  }

  /** What waits when a round begins is not yet two buffers old. */
  lemma Waited(s: Stream, base: nat, i: nat, m: nat, at: nat -> nat, buffer: nat, d: nat)
    requires Steady(at, buffer, d) && i > 0 && s.k <= m <= i && NotDue(s, m, at, buffer, Tick(at, i - 1))
    ensures m - s.k <= d && (s.k < m ==> Tick(at, i) <= Tick(at, s.k) + 2 * buffer)
    ensures Running(at)
  {
    var before := i - 1;
    assert Tick(at, i) <= Tick(at, before) + buffer;
    if s.k < m {
      FewWait(s, base, before, m, at, buffer, d);
    }
  }

  lemma FirstRound(base: nat, payloads: nat, at: nat -> nat, buffer: nat)
    requires Running(at) && payloads > 0
    ensures var s, events := Begun(base, OnTime(0, at), buffer), Rounds(1, payloads, at);
            var r := After(s, base, events, buffer);
            && AllWell(s, base, events, payloads, buffer)
            && Holds(r, base, 2, at, buffer) && NotDue(r, 1, at, buffer, Tick(at, 0))
  {
    hide NotDue, Still, StampFor;
    var s, second := Begun(base, OnTime(0, at), buffer), Arrives(OnTime(1, at));
    assert Holds(s, base, 1, at, buffer);
    hide Holds, OnTime, After, AllWell;
    NoEvents(s, base, [], buffer);
    AddHalf(s, base, [], 1, payloads, at, buffer);
    AddPass(s, base, [] + [second], 1, Tick(at, 0), payloads, at, buffer);
    assert [] + [second] + [Reads(Still(Tick(at, 0)))] == Rounds(1, payloads, at);
  }

  /** However many payloads come, each is read in the first pass after it is due. */
  lemma {:induction false} RoundsGoWell(base: nat, payloads: nat, at: nat -> nat, buffer: nat, d: nat, i: nat)
    requires Steady(at, buffer, d) && 2 * d + 2 < B16 && payloads > 0 && i > 0
    ensures var s, events, m := Begun(base, OnTime(0, at), buffer), Rounds(i, payloads, at), Until(i, payloads);
            var r := After(s, base, events, buffer);
            && AllWell(s, base, events, payloads, buffer)
            && Holds(r, base, 2 * m, at, buffer) && NotDue(r, m, at, buffer, Tick(at, i - 1))
  {
    hide *;
    if i == 1 {
      First(at, buffer, d, payloads);
      FirstRound(base, payloads, at, buffer);
    } else {
      RoundsGoWell(base, payloads, at, buffer, d, i - 1);
      AddRound(Begun(base, OnTime(0, at), buffer), base, i - 1, payloads, at, buffer, d);
    }
  }

  lemma First(at: nat -> nat, buffer: nat, d: nat, payloads: nat)
    requires Steady(at, buffer, d) && payloads > 0
    ensures Running(at) && Until(1, payloads) == 1
  {
  }

  ghost predicate InOrder(events: seq<Event>, low: nat, high: nat) {
    && (forall i :: 0 <= i < |events| ==> low <= Start(events[i]) <= high)
    && forall i, j :: 0 <= i <= j < |events| ==> Start(events[i]) <= Start(events[j])
  }

  lemma OneRoundMore(events: seq<Event>, i: nat, payloads: nat, at: nat -> nat, low: nat, high: nat)
    requires InOrder(events, low, high) && low <= Tick(at, i) && (events == [] || high <= Tick(at, i))
    ensures InOrder(events + Round(i, payloads, at), low, Tick(at, i))
  {
    hide Start, Round;
    forall j | 0 <= j < |Round(i, payloads, at)| ensures Start(Round(i, payloads, at)[j]) == Tick(at, i) {
      RoundAt(i, payloads, at, j);
    }
  }

  /** The events of a round are at its time, those before earlier. */
  lemma {:induction false} RoundsInOrder(payloads: nat, at: nat -> nat, r: nat)
    requires Running(at) && r > 0
    ensures InOrder(Rounds(r, payloads, at), Tick(at, 0), Tick(at, r - 1))
  {
    hide Round, InOrder;
    RoundsOn(r - 1, payloads, at);
    if r == 1 {
      NoneInOrder(Tick(at, 0));
      OneRoundMore([], 0, payloads, at, Tick(at, 0), Tick(at, 0));
    } else {
      RoundsInOrder(payloads, at, r - 1);
      assert Tick(at, 0) <= Tick(at, r - 2) <= Tick(at, r - 1);
      OneRoundMore(Rounds(r - 1, payloads, at), r - 1, payloads, at, Tick(at, 0), Tick(at, r - 2));
    }
  }

  lemma NoneInOrder(t: nat)
    ensures InOrder([], t, t)
  {
  }

  lemma RoundAt(i: nat, payloads: nat, at: nat -> nat, j: nat)
    requires j < |Round(i, payloads, at)|
    ensures Start(Round(i, payloads, at)[j]) == Tick(at, i)
  {
  }

  /** So any number of payloads that come steadily are read, all of them and in order. */
  method Relay(w: Writer, f: Receiver.Flow, payloads: seq<Payload>, at: nat -> nat, d: nat) returns (blocks: seq<Block>)
    requires w.Valid() && w.written == [] && payloads != []
    requires forall i :: 0 <= i < |payloads| ==> 0 < |payloads[i].data| <= MAX_PAYLOAD
    requires Ready(f, payloads[0].ts, Tick(at, 0)) && Steady(at, f.recoveryBufferTicks, d) && 2 * d + 2 < B16
    modifies w, f, f.queue
    ensures |blocks| == |payloads| && AsWritten(blocks, payloads, 0)
  {
    hide Ready, Writer.Valid, AllWell, After, Begun, AsWritten, Completes, Steady, Rounds, Holds;
    ghost var base, buffer, n, r := w.base, f.recoveryBufferTicks, |payloads|, |payloads| + d;
    RoundsGoWell(base, n, at, buffer, d, r);
    First(at, buffer, d, n);
    RoundsInOrder(n, at, r);
    AllDue(After(Begun(base, OnTime(0, at), buffer), base, Rounds(r, n, at), buffer), base, n, at, buffer, d);
    blocks := Transfer(w, f, payloads, OnTime(0, at), Rounds(|payloads| + d, |payloads|, at));
  }

  lemma AllDue(s: Stream, base: nat, payloads: nat, at: nat -> nat, buffer: nat, d: nat)
    requires Steady(at, buffer, d) && payloads > 0 && Holds(s, base, 2 * payloads, at, buffer)
    requires NotDue(s, payloads, at, buffer, Tick(at, payloads + d - 1))
    ensures s.k == payloads
  {
    NotMore(s, base, payloads, at, buffer);
    if s.k < payloads {
      FewWait(s, base, payloads + d - 1, payloads, at, buffer, d);
      assert false;
    }
  }
}
