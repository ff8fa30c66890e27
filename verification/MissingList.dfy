/** The list of missing packets of a receiver's flow and the passes that ask for them again:
    `receiver_mark_missing`, `rist_process_nack` and `receiver_nack_output` of
    src/rist-common.c with `rist_receiver_missing` of src/flow.c. */
module MissingList {
  import opened NackRoute
  import opened SeqNo

  const MAX_NACKS: nat := 200

  datatype CongestionControl = Off | Normal | Aggressive

  /** A peer's configuration. */
  class Peer {
    const recoveryDisabled: bool
    const maxRetries: nat
    const rttMin: nat
    const rttMax: nat
    const congestion: CongestionControl
    const missingCounterMax: nat

    constructor (recoveryDisabled: bool, maxRetries: nat, rttMin: nat, rttMax: nat, congestion: CongestionControl,
                 missingCounterMax: nat)
      ensures this.recoveryDisabled == recoveryDisabled && this.maxRetries == maxRetries && this.congestion == congestion
      ensures this.rttMin == rttMin && this.rttMax == rttMax && this.missingCounterMax == missingCounterMax
    {
      this.recoveryDisabled, this.maxRetries, this.rttMin, this.rttMax := recoveryDisabled, maxRetries, rttMin, rttMax;
      this.congestion, this.missingCounterMax := congestion, missingCounterMax;
    }

    /** The round trip a retry waits for, from the smoothed one. */
    function Rtt(eightTimesRtt: nat): nat {
      if eightTimesRtt / 8 < rttMin then rttMin else if eightTimesRtt / 8 > rttMax then rttMax else eightTimesRtt / 8
    }
  }

  /** What the receive side has last measured of a peer. */
  datatype Reading = Reading(eightTimesRtt: nat, bufferBloatActive: bool)

  /** One request on the wire: when, and the round trip assumed then. */
  datatype Request = Request(at: nat, rtt: nat)

  /** A packet of requests, and the legs it is sent to. */
  datatype Packet = Packet(numbers: seq<int>, to: seq<nat>)

  /** What a list entry holds besides its number, its insertion time and its peer. */
  datatype Standing = Standing(nextNack: nat, nackCount: nat, log: seq<Request>)

  /** Requests are at least 1.1 round trips apart and no more than the peer's limit. */
  ghost predicate Paced(e: Standing, maxRetries: nat) {
    && e.nackCount == |e.log| <= maxRetries
    && (forall i :: 0 <= i < |e.log| - 1 ==> e.log[i + 1].at >= e.log[i].at + e.log[i].rtt * 11 / 10)
    && (e.log != [] ==> e.nextNack == e.log[|e.log| - 1].at + e.log[|e.log| - 1].rtt * 11 / 10)
  }

  /** A request when it is due keeps the pace. */
  lemma StillPaced(e: Standing, maxRetries: nat, rtt: nat, now: nat)
    requires Paced(e, maxRetries) && e.nackCount < maxRetries && now >= e.nextNack
    ensures Paced(Updated(e, Ask, rtt, now), maxRetries)
  {
  }

  class Node {
    const seqNo: nat
    const insertionTime: nat
    const peer: Peer
    var nextNack: nat
    var nackCount: nat
    var next: Node?
    ghost var log: seq<Request>

    constructor (seqNo: nat, insertionTime: nat, nextNack: nat, peer: Peer)
      ensures this.seqNo == seqNo && this.insertionTime == insertionTime && this.peer == peer && next == null
      ensures State() == Standing(nextNack, 0, [])
    {
      this.seqNo, this.insertionTime, this.nextNack, this.peer := seqNo, insertionTime, nextNack, peer;
      nackCount, next, log := 0, null, [];
    }

    ghost function State(): Standing
      reads this`nextNack, this`nackCount, this`log
    {
      Standing(nextNack, nackCount, log)
    }
  }

  function Min(a: int, b: int): int {
    if a <= b then a else b
  }

  /** How many numbers the walk of `receiver_mark_missing` meets when nothing limits it:
      those strictly between the two, unless they are equal, when it runs round the ring. */
  function WalkLength(gap: nat, shortSeq: bool, queueMax: nat): nat {
    var cap := if shortSeq then B16 / 2 else queueMax / 2;
    if gap > cap then 0
    else if gap > 0 then gap - 1
    else Min(Modulus(shortSeq) - 1, queueMax)
  }

  /** What the limits on the list leave room for; the counter may overshoot by one. */
  function Room(bloated: bool, counter: nat, counterMax: nat): nat {
    if bloated || counter > counterMax then 0 else counterMax + 1 - counter
  }

  /** The walk stands at the current number exactly after the whole gap. */
  lemma WalkEnds(current: nat, last: nat, shortSeq: bool, counter: nat)
    requires current < Modulus(shortSeq) && last < Modulus(shortSeq) && 0 < counter < Modulus(shortSeq)
    ensures (last + counter) % Modulus(shortSeq) == current <==> counter == Gap(current, last, shortSeq)
  {
  }

  lemma NoWalk(gap: nat, shortSeq: bool, queueMax: nat)
    ensures gap > (if shortSeq then B16 / 2 else queueMax / 2) ==> WalkLength(gap, shortSeq, queueMax) == 0
  {
  }

  /** Where the walk is after `counter - 1` numbers, and that it does not get further than
      once round the ring. */
  lemma WalkAt(current: nat, last: nat, shortSeq: bool, queueMax: nat, counter: nat)
    requires current < Modulus(shortSeq) && last < Modulus(shortSeq) && 2 <= queueMax <= Modulus(shortSeq)
    requires Gap(current, last, shortSeq) <= if shortSeq then B16 / 2 else queueMax / 2
    requires shortSeq ==> queueMax == B16
    requires 1 <= counter <= queueMax && counter - 1 <= WalkLength(Gap(current, last, shortSeq), shortSeq, queueMax)
    ensures (last + counter) % Modulus(shortSeq) == current
            <==> counter - 1 == WalkLength(Gap(current, last, shortSeq), shortSeq, queueMax)
    ensures WalkLength(Gap(current, last, shortSeq), shortSeq, queueMax) <= queueMax
  {
    if counter < Modulus(shortSeq) {
      WalkEnds(current, last, shortSeq, counter);
    }
  }

  /** Below the cap the walk marks exactly the numbers strictly between the two, unless
      they are equal: then it marks numbers all round the ring. */
  lemma MarksWhatIsBetween(current: nat, last: nat, shortSeq: bool, queueMax: nat)
    requires current < Modulus(shortSeq) && last < Modulus(shortSeq) && 2 <= queueMax <= Modulus(shortSeq)
    requires Gap(current, last, shortSeq) <= if shortSeq then B16 / 2 else queueMax / 2
    ensures var walk := WalkLength(Gap(current, last, shortSeq), shortSeq, queueMax);
            && (current != last <==> walk + 1 == Gap(current, last, shortSeq))
            && (current == last ==> walk >= queueMax - 1)
  {
  }

  /** The numbers strictly between two, unwrapped. */
  function Between(last: nat, current: nat): (r: seq<nat>)
    ensures |r| == if last + 1 < current then current - last - 1 else 0
    ensures forall i :: 0 <= i < |r| ==> r[i] == last + 1 + i
  {
    seq(if last + 1 < current then current - last - 1 else 0, (i: nat) => last + 1 + i)
  }

  /** What is listed as one newest packet after the other is found, when nothing limits it. */
  function Listed(found: seq<nat>): seq<nat> {
    if |found| < 2 then []
    else
      var n := |found| - 1;
      Listed(found[..n]) + Between(found[n - 1], found[n])
  }

  ghost predicate Increasing(found: seq<nat>) {
    forall i, j :: 0 <= i < j < |found| ==> found[i] < found[j]
  }

  /** From the first packet found to the newest every number was found or listed, and none
      was both. */
  lemma {:induction false} FoundOrListed(found: seq<nat>, u: nat)
    requires Increasing(found) && found != []
    ensures u in Listed(found) <==> found[0] <= u <= found[|found| - 1] && u !in found
    decreases |found|
  {
    if |found| >= 2 {
      var n := |found| - 1;
      FoundOrListed(found[..n], u);
      assert found == found[..n] + [found[n]];
      BetweenHas(found[n - 1], found[n], u);
      assert u in Listed(found) <==> u in Listed(found[..n]) || u in Between(found[n - 1], found[n]);
      if u in found[..n] {
        var i :| 0 <= i < n && found[..n][i] == u;
        assert found[i] <= found[n - 1];
      }
    }
  }

  lemma BetweenHas(last: nat, current: nat, u: nat)
    ensures u in Between(last, current) <==> last < u < current
  {
    if last < u < current {
      assert Between(last, current)[u - last - 1] == u;
    }
  }

  /** A newest packet no farther ahead than the cap makes the walk as long as the numbers
      between. */
  lemma WalkIsBetween(last: nat, current: nat, shortSeq: bool, queueMax: nat)
    requires 2 <= queueMax <= Modulus(shortSeq) && 0 < current - last <= if shortSeq then B16 / 2 else queueMax / 2
    ensures WalkLength(Gap(current % Modulus(shortSeq), last % Modulus(shortSeq), shortSeq), shortSeq, queueMax)
            == |Between(last, current)|
  {
    hide WalkLength, Gap;
    var m := Modulus(shortSeq);
    GapFrom(last, current, shortSeq);
    MarksWhatIsBetween(current % m, last % m, shortSeq, queueMax);
  }

  /** And each number appended is the one between. */
  lemma BetweenNumber(last: nat, current: nat, shortSeq: bool, i: nat)
    requires i < |Between(last, current)|
    ensures Between(last, current)[i] % Modulus(shortSeq) == (last % Modulus(shortSeq) + 1 + i) % Modulus(shortSeq)
  {
    var m := Modulus(shortSeq);
    if shortSeq {
      Reduced(last, last / B16, last % B16, 1 + i, B16);
    } else {
      Reduced(last, last / B32, last % B32, 1 + i, B32);
    }
  }

  lemma Reduced(a: nat, q: nat, r: nat, d: nat, m: nat)
    requires (m == B16 || m == B32) && a == q * m + r && r < m
    ensures (r + d) % m == (a + d) % m
  {
  }

  lemma GapFrom(last: nat, current: nat, shortSeq: bool)
    requires 0 < current - last < Modulus(shortSeq)
    ensures Gap(current % Modulus(shortSeq), last % Modulus(shortSeq), shortSeq) == current - last
    ensures current % Modulus(shortSeq) != last % Modulus(shortSeq)
  {
    if shortSeq {
      Turned(last, last / B16, last % B16, current - last, B16);
    } else {
      Turned(last, last / B32, last % B32, current - last, B32);
    }
  }

  lemma Turned(a: nat, q: nat, r: nat, d: nat, m: nat)
    requires (m == B16 || m == B32) && a == q * m + r && r < m && d < m
    ensures (a + d) % m == if r + d < m then r + d else r + d - m
  {
  }

  // ----- what a pass does with an entry -------------------------------------------------

  datatype Verdict = Keep | Ask | Remove(reason: nat)

  /** The tests of `receiver_nack_output` and `rist_process_nack` for one entry; `slot` is
      the number in its place of the ring, -1 if empty. */
  function Judge(n: Node, s: Standing, bloated: bool, slot: int, recoveryBufferTicks: nat, now: nat): Verdict {
    var peer := n.peer;
    if peer.recoveryDisabled then Remove(10)
    else if slot != -1 then (if slot == n.seqNo then Remove(3) else Remove(4))
    else if bloated then
      if peer.congestion == Aggressive then Remove(5)
      else if peer.congestion == Normal && s.nackCount > 4 then Remove(6)
      else Keep
    else if s.nackCount >= peer.maxRetries then Remove(8)
    else if (now - n.insertionTime) * 10 > recoveryBufferTicks * 11 then Remove(9)
    else if now >= s.nextNack then Ask
    else Keep
  }

  ghost function States(ns: seq<Node>): (r: seq<Standing>)
    reads ns
    ensures |r| == |ns| && forall i :: 0 <= i < |ns| ==> r[i] == ns[i].State()
  {
    seq(|ns|, i requires 0 <= i < |ns| reads ns => ns[i].State())
  }

  /** What the ring holds in the place of a number. */
  function Slot(queue: seq<int>, seqNo: nat): int
    requires |queue| > 0
  {
    queue[seqNo % |queue|]
  }

  predicate Read(ns: seq<Node>, readings: map<Peer, Reading>) {
    forall i :: 0 <= i < |ns| ==> ns[i].peer in readings
  }

  predicate Past(ns: seq<Node>, now: nat) {
    forall i :: 0 <= i < |ns| ==> now >= ns[i].insertionTime
  }

  function Judged(ns: seq<Node>, ss: seq<Standing>, readings: map<Peer, Reading>, queue: seq<int>, recoveryBufferTicks: nat,
                  now: nat): (vs: seq<Verdict>)
    requires |queue| > 0 && |ss| == |ns| && Read(ns, readings)
    ensures |vs| == |ns|
  {
    if ns == [] then []
    else
      var k := |ns| - 1;
      Judged(ns[..k], ss[..k], readings, queue, recoveryBufferTicks, now)
      + [Judge(ns[k], ss[k], readings[ns[k].peer].bufferBloatActive, Slot(queue, ns[k].seqNo), recoveryBufferTicks, now)]
  }

  lemma {:induction false} JudgedAt(ns: seq<Node>, ss: seq<Standing>, readings: map<Peer, Reading>, queue: seq<int>,
                                    recoveryBufferTicks: nat, now: nat, i: nat)
    requires |queue| > 0 && |ss| == |ns| && Read(ns, readings) && i < |ns|
    ensures ns[i].peer in readings && (Past(ns, now) ==> now >= ns[i].insertionTime)
    ensures Judged(ns, ss, readings, queue, recoveryBufferTicks, now)[i]
         == Judge(ns[i], ss[i], readings[ns[i].peer].bufferBloatActive, Slot(queue, ns[i].seqNo), recoveryBufferTicks, now)
  {
    hide Judge;
    var k := |ns| - 1;
    if i < k {
      JudgedAt(ns[..k], ss[..k], readings, queue, recoveryBufferTicks, now, i);
    }
  }

  /** The entries not removed. */
  ghost function Kept(ns: seq<Node>, vs: seq<Verdict>): seq<Node>
    requires |ns| == |vs|
  {
    if ns == [] then []
    else
      var k := |ns| - 1;
      Kept(ns[..k], vs[..k]) + if vs[k].Remove? then [] else [ns[k]]
  }

  /** The numbers asked for. */
  ghost function AskedFor(ns: seq<Node>, vs: seq<Verdict>): seq<int>
    requires |ns| == |vs|
  {
    if ns == [] then []
    else
      var k := |ns| - 1;
      AskedFor(ns[..k], vs[..k]) + if vs[k].Ask? then [ns[k].seqNo as int] else []
  }

  lemma OneJudged(ns: seq<Node>, vs: seq<Verdict>, k: nat)
    requires |ns| == |vs| && k < |ns|
    ensures Kept(ns[..k + 1], vs[..k + 1]) == if vs[k].Remove? then Kept(ns[..k], vs[..k]) else Kept(ns[..k], vs[..k]) + [ns[k]]
    ensures AskedFor(ns[..k + 1], vs[..k + 1]) == AskedFor(ns[..k], vs[..k]) + if vs[k].Ask? then [ns[k].seqNo as int] else []
  {
    assert ns[..k + 1][..k] == ns[..k] && vs[..k + 1][..k] == vs[..k];
  }

  /** An entry after its turn. */
  ghost function Updated(s: Standing, v: Verdict, rtt: nat, now: nat): Standing {
    if v.Ask? then Standing(now + rtt * 11 / 10, s.nackCount + 1, s.log + [Request(now, rtt)]) else s
  }

  function Flatten(groups: seq<Packet>): seq<int> {
    if groups == [] then [] else Flatten(groups[..|groups| - 1]) + groups[|groups| - 1].numbers
  }

  /** A list from `head` through `ns`, whose links are `nx`. */
  ghost predicate Chain(head: Node?, ns: seq<Node>, nx: seq<Node?>) {
    && |nx| == |ns| && head == (if ns == [] then null else ns[0])
    && (forall i :: 0 <= i < |ns| ==> nx[i] == if i == |ns| - 1 then null else ns[i + 1])
    && (forall i, j :: 0 <= i < j < |ns| ==> ns[i] != ns[j])
  }

  ghost function Nexts(ns: seq<Node>): (nx: seq<Node?>)
    reads ns
    ensures |nx| == |ns| && forall i :: 0 <= i < |ns| ==> nx[i] == ns[i].next
  {
    seq(|ns|, i requires 0 <= i < |ns| reads ns => ns[i].next)
  }

  lemma ChainAppend(head: Node?, ns: seq<Node>, nx: seq<Node?>, m: Node)
    requires Chain(head, ns, nx) && m !in ns
    ensures ns == [] <==> head == null
    ensures Chain(if ns == [] then m else head, ns + [m], if ns == [] then [null] else nx[..|nx| - 1] + [m, null])
  {
  }

  lemma LastIs(head: Node?, ns: seq<Node>, nx: seq<Node?>)
    requires Chain(head, ns, nx) && head != null
    ensures ns != [] && nx[|ns| - 1] == null
    ensures forall i :: 0 <= i < |ns| - 1 ==> ns[i] != ns[|ns| - 1]
  {
  }

  lemma Separate(head: Node?, ns: seq<Node>, nx: seq<Node?>, k: nat)
    requires Chain(head, ns, nx) && k < |ns|
    ensures forall i :: 0 <= i < |ns| && i != k ==> ns[i] != ns[k]
  {
  }

  function Without<T>(s: seq<T>, j: nat): (r: seq<T>)
    requires j < |s|
    ensures |r| == |s| - 1 && forall i :: 0 <= i < |r| ==> r[i] == s[if i < j then i else i + 1]
  {
    s[..j] + s[j + 1..]
  }

  lemma ChainNext(head: Node?, ns: seq<Node>, nx: seq<Node?>, j: nat)
    requires Chain(head, ns, nx) && j < |ns|
    ensures nx[j] == if j == |ns| - 1 then null else ns[j + 1]
  {
  }

  /** Taking an entry out: the one before it links past it. */
  lemma ChainRemove(head: Node?, ns: seq<Node>, nx: seq<Node?>, j: nat)
    requires Chain(head, ns, nx) && j < |ns|
    ensures Chain(if j == 0 then nx[0] else head, Without(ns, j), Without(if j == 0 then nx else nx[j - 1 := nx[j]], j))
  {
    hide Without;
  }

  lemma NextsWithout(ns: seq<Node>, j: nat)
    requires j < |ns|
    ensures Nexts(Without(ns, j)) == Without(Nexts(ns), j)
  {
    hide Without;
  }

  class Flow {
    const shortSeq: bool
    const queueMax: nat
    const recoveryBufferTicks: nat
    const nacks: array<int>
    var nacksCounter: nat
    var lastSeqFound: nat
    var missing: Node?
    var missingTail: Node?
    var missingCounter: nat
    ghost var nodes: seq<Node>

    /** The list runs through `nodes` and ends there. */
    ghost predicate Linked()
      reads this`missing, this`nodes, nodes
    {
      Chain(missing, nodes, Nexts(nodes))
    }

    /** The list is linked, counted, and its tail known. */
    ghost predicate Shape()
      reads this`missing, this`missingTail, this`missingCounter, this`nodes, nodes
    {
      Linked() && (nodes != [] ==> missingTail == nodes[|nodes| - 1]) && missingCounter == |nodes|
    }

    ghost predicate PacedAll()
      reads this`nodes, nodes
    {
      forall i :: 0 <= i < |nodes| ==> Paced(nodes[i].State(), nodes[i].peer.maxRetries)
    }

    ghost predicate Valid()
      reads this, nodes
    {
      && Shape() && PacedAll()
      && nacks.Length == MAX_NACKS && nacksCounter <= MAX_NACKS
      && lastSeqFound < Modulus(shortSeq)
      && (shortSeq ==> queueMax == B16) && 2 <= queueMax <= B32
    }

    constructor (shortSeq: bool, queueMax: nat, recoveryBufferTicks: nat)
      requires (shortSeq ==> queueMax == B16) && 2 <= queueMax <= B32
      ensures Valid() && nodes == [] && nacksCounter == 0 && lastSeqFound == 0
      ensures this.shortSeq == shortSeq && this.queueMax == queueMax && this.recoveryBufferTicks == recoveryBufferTicks
    {
      this.shortSeq, this.queueMax, this.recoveryBufferTicks := shortSeq, queueMax, recoveryBufferTicks;
      missing, missingTail, missingCounter, nodes, lastSeqFound, nacksCounter := null, null, 0, [], 0, 0;
      nacks := new int[MAX_NACKS];
    }

    /** `rist_flush_missing_flow_queue`: the tail is left dangling, which does no harm. */
    method Flush()
      requires Valid()
      modifies this`missing, this`missingCounter, this`nodes
      ensures Valid() && nodes == [] && missingTail == old(missingTail)
    {
      missing := null;
      missingCounter := 0;
      nodes := [];
    }

    /** Linking a new entry in at the tail. */
    method LinkIn(m: Node)
      requires Shape() && m !in nodes && m.next == null
      modifies this`missing, this`missingTail, this`missingCounter, this`nodes, nodes
      ensures Shape() && nodes == old(nodes) + [m] && m.State() == old(m.State())
      ensures forall i :: 0 <= i < old(|nodes|) ==> old(nodes)[i].State() == old(nodes[i].State())
    {
      hide Chain, Node.State;
      ghost var was, nx := nodes, Nexts(nodes);
      ChainAppend(missing, was, nx, m);
      if missing == null {
        missing := m;
        missingTail := m;
      } else {
        LastIs(missing, was, nx);
        missingTail.next := m;
        missingTail := m;
      }
      nodes := was + [m];
      missingCounter := missingCounter + 1;
      assert Nexts(nodes) == if was == [] then [null] else nx[..|nx| - 1] + [m, null];
    }

    /** Linking the entry after `previous` out. */
    method LinkOut(previous: Node?, mb: Node, ghost j: nat)
      requires Shape() && j < |nodes| && mb == nodes[j] && previous == if j > 0 then nodes[j - 1] else null
      modifies this`missing, this`missingTail, this`missingCounter, this`nodes, if previous == null then {} else {previous}
      ensures Shape() && nodes == Without(old(nodes), j)
      ensures previous != null ==> previous.State() == old(previous.State())
    {
      hide Chain, Node.State, Without;
      ghost var was, nx := nodes, Nexts(nodes);
      ChainNext(missing, was, nx, j);
      ChainRemove(missing, was, nx, j);
      if j > 0 {
        Separate(missing, was, nx, j - 1);
      }
      var next := mb.next;
      if next == null {
        missingTail := previous;
      }
      if previous == null {
        missing := next;
      } else {
        previous.next := next;
      }
      missingCounter := missingCounter - 1;
      nodes := Without(was, j);
      assert Nexts(was) == if j == 0 then nx else nx[j - 1 := nx[j]];
      NextsWithout(was, j);
    }

    /** `rist_receiver_missing`. */
    method Append(peer: Peer, nackTime: nat, seqNo: nat, rtt: nat, now: nat)
      requires Valid() && now >= recoveryBufferTicks
      modifies this`missing, this`missingTail, this`missingCounter, this`nodes, nodes
      ensures Valid()
      ensures |nodes| == old(|nodes|) + 1 && nodes[..old(|nodes|)] == old(nodes)
      ensures var m := nodes[|nodes| - 1];
              fresh(m) && m.seqNo == seqNo && m.peer == peer && m.State() == Standing(now + rtt, 0, [])
              && m.insertionTime == if now - recoveryBufferTicks <= nackTime <= now then nackTime else now
      ensures forall i :: 0 <= i < old(|nodes|) ==> nodes[i].State() == old(nodes[i].State())
    {
      hide Flow.Shape, Modulus;
      var time := nackTime;
      if time > now {
        time := now;
      }
      if time < now - recoveryBufferTicks {
        time := now;
      }
      var m := new Node(seqNo, time, now + rtt, peer);
      LinkIn(m);
    }

    /** The time between two of the packets missing. */
    static function Stride(last: nat, next: nat, gap: nat): nat {
      Divides((next - last) % U64, gap + 1);
      (next - last) % U64 / (gap + 1)
    }

    /** A gap's strides make up the time between the packets around it, rounded down. */
    static lemma StrideIs(last: nat, next: nat, gap: nat)
      ensures var s := Stride(last, next, gap);
              s * (gap + 1) <= (next - last) % 0x1_0000_0000_0000_0000 < s * (gap + 1) + gap + 1
    {
      Divides((next - last) % U64, gap + 1);
    }

    static lemma Divides(x: nat, d: nat)
      requires d > 0
      ensures x / d >= 0 && x / d * d <= x < x / d * d + d
    {
    }

    /** A list entry as the walk leaves it, `i` numbers after the last one found. */
    ghost predicate Marked(n: Node, i: nat, peer: Peer, last: nat, step: nat, rtt: nat, now: nat)
      reads this`lastSeqFound, n`nextNack, n`nackCount, n`log
    {
      && n.seqNo == (lastSeqFound + 1 + i) % Modulus(shortSeq) && n.peer == peer
      && n.State() == Standing(now + rtt, 0, [])
      && n.insertionTime == Interpolated(last, step, i, now)
    }

    /** The time of a missing packet, in equal steps from that of the last one found; one that
        is past the buffer or to come counts as now. */
    function Interpolated(last: nat, step: nat, i: nat, now: nat): nat {
      var time := (last + (i + 1) * step) % 0x1_0000_0000_0000_0000;
      if now - recoveryBufferTicks <= time <= now then time else now
    }

    /** Everything from `n0` on was marked by the walk. */
    ghost predicate MarkedFrom(n0: nat, peer: Peer, last: nat, step: nat, rtt: nat, now: nat)
      reads this`lastSeqFound, this`nodes, nodes
    {
      forall i :: n0 <= i < |nodes| ==> Marked(nodes[i], i - n0, peer, last, step, rtt, now)
    }

    method AppendMarked(ghost n0: nat, peer: Peer, ghost last: nat, ghost step: nat, nackTime: nat, seqNo: nat, rtt: nat, now: nat)
      requires Valid() && now >= recoveryBufferTicks && n0 <= |nodes| && MarkedFrom(n0, peer, last, step, rtt, now)
      requires TimeAt(nackTime, last, step, |nodes| - n0 + 1) && nackTime < U64
      requires seqNo == (lastSeqFound + 1 + |nodes| - n0) % Modulus(shortSeq)
      modifies this`missing, this`missingTail, this`missingCounter, this`nodes, nodes
      ensures Valid() && MarkedFrom(n0, peer, last, step, rtt, now)
      ensures |nodes| == old(|nodes|) + 1 && nodes[..old(|nodes|)] == old(nodes) && fresh(nodes[|nodes| - 1])
      ensures forall i :: 0 <= i < n0 ==> nodes[i].State() == old(nodes[i].State())
    {
      hide Flow.Valid, Modulus;
      Settled(nackTime, last, step, |nodes| - n0, now);
      hide Flow.Interpolated, Flow.TimeAt;
      Append(peer, nackTime, seqNo, rtt, now);
    }

    /** `receiver_mark_missing`, given the packet times found in the ring. The numbers
        appended are those of the walk, in order, as far as the limits on the list allow. */
    method MarkMissing(peer: Peer, bloated: bool, currentSeq: nat, packetTimeLast: nat, packetTimeNow: nat, rtt: nat, now: nat)
      requires Valid() && now >= recoveryBufferTicks && currentSeq < Modulus(shortSeq)
      modifies this`missing, this`missingTail, this`missingCounter, this`nodes, nodes
      ensures Valid()
      ensures |nodes| == old(|nodes|) + Min(WalkLength(Gap(currentSeq, lastSeqFound, shortSeq), shortSeq, queueMax),
                                            Room(bloated, old(missingCounter), peer.missingCounterMax))
      ensures nodes[..old(|nodes|)] == old(nodes)
      ensures MarkedFrom(old(|nodes|), peer, packetTimeLast,
                         Stride(packetTimeLast, packetTimeNow, Gap(currentSeq, lastSeqFound, shortSeq)), rtt, now)
      ensures forall i :: old(|nodes|) <= i < |nodes| ==> fresh(nodes[i])
      ensures forall i :: 0 <= i < old(|nodes|) ==> nodes[i].State() == old(nodes[i].State())
    {
      hide Flow.Linked, Flow.PacedAll, Flow.MarkedFrom, Flow.TimeAt, Flow.Stride, Node.State, WalkLength, Gap;
      var counter := 1;
      var missingCount := Gap(currentSeq, lastSeqFound, shortSeq);
      var cap := if shortSeq then B16 / 2 else queueMax / 2;
      ghost var walk := WalkLength(missingCount, shortSeq, queueMax);
      ghost var before, n0 := nodes, |nodes|;
      var interpacketTime: nat := Stride(packetTimeLast, packetTimeNow, missingCount);
      NoMarks(peer, packetTimeLast, interpacketTime, rtt, now);
      NoStep(packetTimeLast, interpacketTime);
      if missingCount > cap {
        NoWalk(missingCount, shortSeq, queueMax);
        return;
      }
      var missingSeq := (lastSeqFound + counter) % Modulus(shortSeq);
      var nackTime: nat := packetTimeLast;
      WalkAt(currentSeq, lastSeqFound, shortSeq, queueMax, counter);
      while missingSeq != currentSeq
        invariant Valid() && lastSeqFound == old(lastSeqFound)
        invariant 1 <= counter <= queueMax && missingSeq == (lastSeqFound + counter) % Modulus(shortSeq)
        invariant counter - 1 <= walk && (missingSeq == currentSeq <==> counter - 1 == walk)
        invariant counter - 1 <= Room(bloated, n0, peer.missingCounterMax)
        invariant |nodes| == n0 + counter - 1 && nodes[..n0] == before
        invariant MarkedFrom(n0, peer, packetTimeLast, interpacketTime, rtt, now)
        invariant TimeAt(nackTime, packetTimeLast, interpacketTime, counter - 1)
        invariant forall i :: n0 <= i < |nodes| ==> fresh(nodes[i])
        invariant forall i :: 0 <= i < n0 ==> nodes[i].State() == old(nodes[i].State())
        decreases walk - counter
      {
        OneStepOn(nackTime, packetTimeLast, interpacketTime, counter - 1);
        nackTime := (nackTime + interpacketTime) % U64;
        if bloated || missingCounter > peer.missingCounterMax {
          break;
        }
        AppendMarked(n0, peer, packetTimeLast, interpacketTime, nackTime, missingSeq, rtt, now);
        if counter == queueMax {
          break;
        }
        counter := counter + 1;
        missingSeq := (lastSeqFound + counter) % Modulus(shortSeq);
        WalkAt(currentSeq, lastSeqFound, shortSeq, queueMax, counter);
      }
    }

    lemma NoMarks(peer: Peer, last: nat, step: nat, rtt: nat, now: nat)
      ensures MarkedFrom(|nodes|, peer, last, step, rtt, now)
    {
    }

    /** The time after so many steps, in 64 bits. */
    static ghost predicate TimeAt(time: nat, last: nat, step: nat, n: nat) {
      time % U64 == (last + n * step) % U64
    }

    static lemma OneStepOn(time: nat, last: nat, step: nat, n: nat)
      requires TimeAt(time, last, step, n)
      ensures TimeAt((time + step) % U64, last, step, n + 1)
    {
      assert (n + 1) * step == n * step + step;
      SameRest(time, last + n * step, step);
    }

    static lemma NoStep(last: nat, step: nat)
      ensures TimeAt(last, last, step, 0)
    {
    }

    lemma Settled(time: nat, last: nat, step: nat, i: nat, now: nat)
      requires TimeAt(time, last, step, i + 1) && time < U64
      ensures Interpolated(last, step, i, now) == if now - recoveryBufferTicks <= time <= now then time else now
    {
    }

    static lemma SameRest(a: nat, b: nat, d: nat)
      requires a % U64 == b % U64
      ensures (a + d) % U64 == (b + d) % U64
    {
      var q := a / U64 - b / U64;
      assert a + d == b + d + q * U64;
    }

    // ----- one pass ------------------------------------------------------------------------

    /** What `receiver_enqueue` does about missing numbers: they are listed if they are to be
        marked, and a first transmission in order becomes the newest found. */
    method Found(peer: Peer, bloated: bool, seqNo: nat, packetTimeLast: nat, packetTimeNow: nat, rtt: nat, now: nat,
                 mark: bool, newest: bool)
      requires Valid() && now >= recoveryBufferTicks && seqNo < Modulus(shortSeq)
      modifies this`missing, this`missingTail, this`missingCounter, this`nodes, this`lastSeqFound, nodes
      ensures Valid() && lastSeqFound == if newest then seqNo else old(lastSeqFound)
      ensures |nodes| == old(|nodes|) + if !mark then 0
                                        else Min(WalkLength(Gap(seqNo, old(lastSeqFound), shortSeq), shortSeq, queueMax),
                                                 Room(bloated, old(missingCounter), peer.missingCounterMax))
      ensures nodes[..old(|nodes|)] == old(nodes)
      ensures forall i :: old(|nodes|) <= i < |nodes| ==>
                && fresh(nodes[i]) && nodes[i].seqNo == (old(lastSeqFound) + 1 + i - old(|nodes|)) % Modulus(shortSeq)
                && nodes[i].peer == peer && nodes[i].State() == Standing(now + rtt, 0, [])
                && var step := Stride(packetTimeLast, packetTimeNow, Gap(seqNo, old(lastSeqFound), shortSeq));
                   nodes[i].insertionTime == Interpolated(packetTimeLast, step, i - old(|nodes|), now)
    {
      hide Flow.Shape, Flow.PacedAll, Flow.Interpolated, Flow.Stride, WalkLength, Gap, Room, Modulus;
      if mark {
        MarkMissing(peer, bloated, seqNo, packetTimeLast, packetTimeNow, rtt, now);
      }
      if newest {
        lastSeqFound := seqNo;
      }
    }

    /** `rist_process_nack`. */
    method ProcessNack(n: Node, eightTimesRtt: nat, now: nat) returns (reason: nat)
      requires nacks.Length == MAX_NACKS && nacksCounter < MAX_NACKS && Paced(n.State(), n.peer.maxRetries)
      requires now >= n.insertionTime && !n.peer.recoveryDisabled
      modifies n`nextNack, n`nackCount, n`log, nacks, this`nacksCounter
      ensures Paced(n.State(), n.peer.maxRetries) && nacksCounter <= MAX_NACKS
      ensures var v := Judge(n, old(n.State()), false, -1, recoveryBufferTicks, now);
              && n.State() == Updated(old(n.State()), v, n.peer.Rtt(eightTimesRtt), now)
              && reason == (if v.Remove? then v.reason else 0)
              && nacks[..nacksCounter] == old(nacks[..nacksCounter]) + if v.Ask? then [n.seqNo as int] else []
    {
      hide Paced;
      var peer := n.peer;
      if n.nackCount >= peer.maxRetries {
        return 8;
      }
      if (now - n.insertionTime) * 10 > recoveryBufferTicks * 11 {
        return 9;
      }
      if now >= n.nextNack {
        var rtt := eightTimesRtt / 8;
        if rtt < peer.rttMin {
          rtt := peer.rttMin;
        } else if rtt > peer.rttMax {
          rtt := peer.rttMax;
        }
        StillPaced(n.State(), peer.maxRetries, rtt, now);
        n.nextNack := now + rtt * 11 / 10;
        n.nackCount := n.nackCount + 1;
        n.log := n.log + [Request(now, rtt)];
        nacks[nacksCounter] := n.seqNo;
        nacksCounter := nacksCounter + 1;
      }
      return 0;
    }

    /** `send_nack_group`; a flow without peers keeps what it has collected. */
    method SendGroup(legs: seq<Leg>, ghost whole: bool, ghost collected: seq<int>, groups: seq<Packet>) returns (after: seq<Packet>)
      requires Valid() && Groups(groups, legs)
      requires whole ==> legs != [] && Flatten(groups) + nacks[..nacksCounter] == collected
      modifies this`nacksCounter
      ensures Valid() && Sent(after, legs) && groups <= after
      ensures old(nacksCounter) == 199 ==> Groups(after, legs)
      ensures legs != [] && old(nacksCounter) > 0 ==>
                |after| == |groups| + 1 && after[|groups|].numbers == nacks[..old(nacksCounter)]
      ensures old(nacksCounter) == 0 ==> after == groups
      ensures legs != [] ==> nacksCounter == 0
      ensures whole ==> Flatten(after) == collected
      ensures legs == [] ==> nacksCounter == old(nacksCounter) && after == groups
    {
      hide Flow.Shape, Flow.PacedAll;
      after := groups;
      if nacksCounter == 0 || legs == [] {
        return;
      }
      var to := Route(legs);
      after := groups + [Packet(nacks[..nacksCounter], to)];
      assert after[..|groups|] == groups;
      nacksCounter := 0;
    }

    /** Packets of requests sent for want of room carry 199 numbers. */
    ghost predicate Groups(groups: seq<Packet>, legs: seq<Leg>) {
      forall i :: 0 <= i < |groups| ==> |groups[i].numbers| == 199 && Routed(legs, groups[i].to)
    }

    /** The last packet carries 1 to 200 numbers, those before it 199; and each goes where it
        should. */
    ghost predicate Sent(groups: seq<Packet>, legs: seq<Leg>) {
      forall i :: 0 <= i < |groups| ==>
        && (if i < |groups| - 1 then |groups[i].numbers| == 199 else 1 <= |groups[i].numbers| <= 200)
        && Routed(legs, groups[i].to)
    }

    /** Room is made where the packet is full, then the entry is judged on its own. */
    method Retry(n: Node, eightTimesRtt: nat, now: nat, legs: seq<Leg>, ghost whole: bool, ghost collected: seq<int>,
                 groups: seq<Packet>)
      returns (reason: nat, after: seq<Packet>)
      requires Valid() && Groups(groups, legs) && Paced(n.State(), n.peer.maxRetries)
      requires whole ==> legs != [] && nacksCounter < MAX_NACKS && Flatten(groups) + nacks[..nacksCounter] == collected
      requires now >= n.insertionTime && !n.peer.recoveryDisabled
      modifies n`nextNack, n`nackCount, n`log, nacks, this`nacksCounter
      ensures nacksCounter <= MAX_NACKS && Groups(after, legs) && Paced(n.State(), n.peer.maxRetries)
      ensures var v := Judge(n, old(n.State()), false, -1, recoveryBufferTicks, now);
              && n.State() == Updated(old(n.State()), v, n.peer.Rtt(eightTimesRtt), now)
              && reason == (if v.Remove? then v.reason else 0) && (reason != 0 <==> v.Remove?)
              && (whole ==> nacksCounter < MAX_NACKS)
              && (whole ==> Flatten(after) + nacks[..nacksCounter] == collected + if v.Ask? then [n.seqNo as int] else [])
              && (old(nacksCounter) >= 200 ==> after == groups && nacks[..nacksCounter] == if v.Ask? then [n.seqNo as int] else [])
    {
      hide Paced, Flatten, Updated, Flow.Shape, Flow.PacedAll, Flow.Groups, Node.State;
      after := groups;
      if nacksCounter == MAX_NACKS - 1 {
        after := SendGroup(legs, whole, collected, groups);
      } else if nacksCounter >= MAX_NACKS {
        nacksCounter := 0;
      }
      ghost var left := nacks[..nacksCounter];
      reason := ProcessNack(n, eightTimesRtt, now);
    }

    /** One entry's turn in the pass: the verdict is carried out, short of unlinking. */
    method Turn(n: Node, reading: Reading, slot: int, now: nat, legs: seq<Leg>, ghost whole: bool, ghost collected: seq<int>,
                groups: seq<Packet>)
      returns (reason: nat, after: seq<Packet>)
      requires Valid() && n in nodes && Groups(groups, legs)
      requires whole ==> legs != [] && nacksCounter < MAX_NACKS && Flatten(groups) + nacks[..nacksCounter] == collected
      requires now >= n.insertionTime
      modifies n`nextNack, n`nackCount, n`log, nacks, this`nacksCounter
      ensures Valid() && Groups(after, legs) && n.next == old(n.next)
      ensures var v := Judge(n, old(n.State()), reading.bufferBloatActive, slot, recoveryBufferTicks, now);
              && n.State() == Updated(old(n.State()), v, n.peer.Rtt(reading.eightTimesRtt), now)
              && reason == (if v.Remove? then v.reason else 0) && (reason != 0 <==> v.Remove?)
              && (whole ==> nacksCounter < MAX_NACKS)
              && (whole ==> Flatten(after) + nacks[..nacksCounter] == collected + if v.Ask? then [n.seqNo as int] else [])
    {
      hide Paced, Flatten, Chain, Modulus, Flow.Groups;
      ghost var nx := Nexts(nodes);
      after := groups;
      reason := 0;
      var peer := n.peer;
      if peer.recoveryDisabled {
        reason := 10;
      } else if slot != -1 {
        reason := if slot == n.seqNo then 3 else 4;
      } else if reading.bufferBloatActive {
        if peer.congestion == Aggressive {
          reason := 5;
        } else if peer.congestion == Normal {
          if n.nackCount > 4 {
            reason := 6;
          }
        }
      } else {
        reason, after := Retry(n, reading.eightTimesRtt, now, legs, whole, collected, groups);
      }
      assert Nexts(nodes) == nx;
    }

    /** Where the pass stands: the first `k` entries judged, `j` of them kept. */
    static ghost predicate Progress(ns: seq<Node>, was: seq<Node>, vs: seq<Verdict>, j: nat, k: nat)
      requires |was| == |vs|
    {
      k <= |was| && j == |Kept(was[..k], vs[..k])| && ns == Kept(was[..k], vs[..k]) + was[k..]
    }

    /** Where the walk over the list is. */
    static ghost predicate At(ns: seq<Node>, previous: Node?, mb: Node?, j: nat) {
      j <= |ns| && mb == (if j < |ns| then ns[j] else null) && previous == if j > 0 then ns[j - 1] else null
    }

    static lemma KeepOne(ns: seq<Node>, was: seq<Node>, vs: seq<Verdict>, j: nat, k: nat, next: Node?)
      requires |was| == |vs| && k < |was| && Progress(ns, was, vs, j, k) && j < |ns| && !vs[k].Remove?
      requires next == if j + 1 < |ns| then ns[j + 1] else null
      ensures Progress(ns, was, vs, j + 1, k + 1) && At(ns, ns[j], next, j + 1)
    {
      hide Kept;
      OneJudged(was, vs, k);
    }

    static lemma DropOne(ns: seq<Node>, was: seq<Node>, vs: seq<Verdict>, j: nat, k: nat, previous: Node?, next: Node?)
      requires |was| == |vs| && k < |was| && Progress(ns, was, vs, j, k) && j < |ns| && vs[k].Remove?
      requires At(ns, previous, ns[j], j) && next == if j + 1 < |ns| then ns[j + 1] else null
      ensures Progress(Without(ns, j), was, vs, j, k + 1) && At(Without(ns, j), previous, next, j)
    {
      hide Kept, Without;
      OneJudged(was, vs, k);
      ghost var kept := Kept(was[..k], vs[..k]);
      assert Without(ns, j) == kept + was[k + 1..];
    }

    static lemma {:induction false} KeptWithin(was: seq<Node>, vs: seq<Verdict>)
      requires |was| == |vs|
      ensures forall n :: n in Kept(was, vs) ==> n in was
    {
      if was != [] {
        KeptWithin(was[..|was| - 1], vs[..|was| - 1]);
      }
    }

    static lemma InPlace(ns: seq<Node>, was: seq<Node>, vs: seq<Verdict>, j: nat, k: nat, previous: Node?, mb: Node?)
      requires |was| == |vs| && Progress(ns, was, vs, j, k) && At(ns, previous, mb, j)
      ensures mb != null <==> k < |was|
      ensures k < |was| ==> j < |ns| && mb == ns[j] == was[k] && previous == if j > 0 then ns[j - 1] else null
      ensures k == |was| ==> ns == Kept(was, vs)
      ensures previous != null ==> previous in was
    {
      hide Kept;
      var kept := Kept(was[..k], vs[..k]);
      if k == |was| {
        assert was[..k] == was && vs[..k] == vs && was[k..] == [];
      } else {
        Joint(ns, kept, was, k);
      }
      if j > 0 {
        KeptWithin(was[..k], vs[..k]);
        assert ns[j - 1] == kept[j - 1] && kept[j - 1] in kept;
      }
    }

    static lemma Joint(ns: seq<Node>, kept: seq<Node>, was: seq<Node>, k: nat)
      requires k < |was| && ns == kept + was[k..]
      ensures |kept| < |ns| && ns[|kept|] == was[k]
    {
    }

    /** The entries judged carry their verdicts, the others are as they were. */
    static ghost predicate Done(was: seq<Node>, ss: seq<Standing>, vs: seq<Verdict>, readings: map<Peer, Reading>, k: nat, now: nat)
      requires |was| == |vs| == |ss| && Read(was, readings)
      reads was
    {
      forall i :: 0 <= i < |was| ==>
        was[i].State() == if i < k then Updated(ss[i], vs[i], was[i].peer.Rtt(readings[was[i].peer].eightTimesRtt), now) else ss[i]
    }

    static ghost predicate Distinct(was: seq<Node>) {
      forall i, j :: 0 <= i < j < |was| ==> was[i] != was[j]
    }

    static lemma Apart(was: seq<Node>, k: nat)
      requires Distinct(was) && k < |was|
      ensures forall i :: 0 <= i < |was| && i != k ==> was[i] != was[k]
    {
    }

    lemma AtNext(j: nat)
      requires Valid() && j < |nodes|
      ensures nodes[j].next == if j + 1 < |nodes| then nodes[j + 1] else null
    {
      ChainNext(missing, nodes, Nexts(nodes), j);
    }

    /** What is collected and sent so far: exactly the numbers asked for. */
    ghost predicate Collected(whole: bool, legs: seq<Leg>, groups: seq<Packet>, pending: seq<int>, was: seq<Node>,
                              vs: seq<Verdict>, k: nat)
      requires k <= |was| == |vs|
      reads this`nacksCounter, nacks
    {
      && Groups(groups, legs)
      && (whole ==> nacksCounter < nacks.Length && Flatten(groups) + nacks[..nacksCounter] == pending + AskedFor(was[..k], vs[..k]))
    }

    /** One round of the pass's loop. */
    method Visit(ghost frame: set<Node>, previous: Node?, mb: Node, slot: int, now: nat, readings: map<Peer, Reading>,
                 legs: seq<Leg>, groups: seq<Packet>, ghost was: seq<Node>, ghost ss: seq<Standing>,
                 ghost vs: seq<Verdict>, ghost j: nat, ghost k: nat, ghost whole: bool, ghost pending: seq<int>)
      returns (before: Node?, after: Node?, ghost i: nat, sent: seq<Packet>)
      requires Valid() && |was| == |vs| == |ss| && k < |was| && Read(was, readings) && Distinct(was)
      requires Progress(nodes, was, vs, j, k) && At(nodes, previous, mb, j) && Done(was, ss, vs, readings, k, now)
      requires was[k].peer in readings && now >= was[k].insertionTime
      requires vs[k] == Judge(was[k], ss[k], readings[was[k].peer].bufferBloatActive, slot, recoveryBufferTicks, now)
      requires Collected(whole, legs, groups, pending, was, vs, k) && (whole ==> legs != [])
      requires mb in frame && (previous == null || previous in frame)
      modifies this`missing, this`missingTail, this`missingCounter, this`nodes, this`nacksCounter, nacks, frame
      ensures Valid() && Collected(whole, legs, sent, pending, was, vs, k + 1)
      ensures Progress(nodes, was, vs, i, k + 1) && Done(was, ss, vs, readings, k + 1, now) && At(nodes, before, after, i)
    {
      hide Flow.Shape, Flow.PacedAll, Flow.Progress, Flow.At, Flow.Groups, Flow.Distinct, Read;
      hide Judge, Updated, Flatten, Node.State, Paced, AskedFor;
      InPlace(nodes, was, vs, j, k, previous, mb);
      Apart(was, k);
      OneAsked(pending, was, vs, k);
      var reason;
      ghost var collected := pending + AskedFor(was[..k], vs[..k]);
      reason, sent := Turn(mb, readings[mb.peer], slot, now, legs, whole, collected, groups);
      AtNext(j);
      var next := mb.next;
      if reason != 0 {
        DropOne(nodes, was, vs, j, k, previous, next);
        DropAt(previous, mb, j);
        before, after, i := previous, next, j;
      } else {
        KeepOne(nodes, was, vs, j, k, next);
        before, after, i := mb, next, j + 1;
      }
    }

    method DropAt(previous: Node?, mb: Node, ghost j: nat)
      requires Valid() && j < |nodes| && mb == nodes[j] && previous == if j > 0 then nodes[j - 1] else null
      modifies this`missing, this`missingTail, this`missingCounter, this`nodes, if previous == null then {} else {previous}
      ensures Valid() && nodes == Without(old(nodes), j)
      ensures previous != null ==> previous.State() == old(previous.State())
    {
      hide Flow.Shape, Node.State, Paced, Without;
      LinkOut(previous, mb, j);
    }

    /** The pass's loop over the list. */
    method Walk(ghost frame: set<Node>, queue: seq<int>, readings: map<Peer, Reading>, legs: seq<Leg>, now: nat,
                ghost was: seq<Node>, ghost ss: seq<Standing>, ghost vs: seq<Verdict>, ghost whole: bool,
                ghost pending: seq<int>)
      returns (groups: seq<Packet>)
      requires Valid() && was == nodes && |ss| == |was| && |queue| == queueMax && Read(was, readings) && Past(was, now)
      requires vs == Judged(was, ss, readings, queue, recoveryBufferTicks, now)
      requires Progress(nodes, was, vs, 0, 0) && At(nodes, null, missing, 0) && Distinct(was)
      requires Done(was, ss, vs, readings, 0, now) && Collected(whole, legs, [], pending, was, vs, 0) && (whole ==> legs != [])
      requires forall n :: n in was ==> n in frame
      modifies this`missing, this`missingTail, this`missingCounter, this`nodes, this`nacksCounter, nacks, frame
      ensures Valid() && nodes == Kept(was, vs)
      ensures Done(was, ss, vs, readings, |was|, now) && Collected(whole, legs, groups, pending, was, vs, |was|)
    {
      hide Flow.Valid, Flow.Progress, Flow.At, Flow.Done, Flow.Distinct, Flow.Collected;
      hide Read, Past, Judge, Judged, Kept;
      Sizes();
      groups := [];
      var mb: Node?, previous: Node? := missing, null;
      ghost var j, k := 0, 0;
      while mb != null
        invariant k <= |was| && Valid() && Progress(nodes, was, vs, j, k) && At(nodes, previous, mb, j)
        invariant Done(was, ss, vs, readings, k, now) && Collected(whole, legs, groups, pending, was, vs, k)
        decreases |was| - k
      {
        InPlace(nodes, was, vs, j, k, previous, mb);
        JudgedAt(was, ss, readings, queue, recoveryBufferTicks, now, k);
        previous, mb, j, groups := Visit(frame, previous, mb, queue[mb.seqNo % queueMax], now, readings, legs, groups,
                                         was, ss, vs, j, k, whole, pending);
        k := k + 1;
      }
      InPlace(nodes, was, vs, j, k, previous, mb);
    }

    /** `receiver_nack_output`: every entry is judged once; exactly the entries not removed
        stay, in order; an entry asked for waits 1.1 round trips before it is asked for
        again; and the packets sent carry exactly the numbers asked for, in order, after
        whatever was still collected. */
    method NackOutput(queue: seq<int>, readings: map<Peer, Reading>, legs: seq<Leg>, now: nat) returns (groups: seq<Packet>)
      requires Valid() && |queue| == queueMax && Read(nodes, readings) && Past(nodes, now)
      modifies this`missing, this`missingTail, this`missingCounter, this`nodes, this`nacksCounter, (set n | n in nodes), nacks
      ensures Valid() && Sent(groups, legs)
      ensures var vs := Judged(old(nodes), old(States(nodes)), readings, queue, recoveryBufferTicks, now);
              && nodes == Kept(old(nodes), vs)
              && Done(old(nodes), old(States(nodes)), vs, readings, |vs|, now)
              && (legs != [] && old(nacksCounter) < MAX_NACKS ==>
                    nacksCounter == 0 && Flatten(groups) == old(nacks[..nacksCounter]) + AskedFor(old(nodes), vs))
    {
      hide Flow.Valid, Flow.Progress, Flow.At, Flow.Done, Flow.Distinct, Flow.Collected, Flow.Groups;
      hide Read, Past, Slot, Judge, Judged, States, Flatten, Kept, AskedFor;
      ghost var was, ss := nodes, States(nodes);
      Sizes();
      ghost var vs := Judged(was, ss, readings, queue, recoveryBufferTicks, now);
      ghost var whole, pending := legs != [] && nacksCounter < MAX_NACKS, nacks[..nacksCounter];
      Begin(whole, legs, pending, ss, vs, readings, now);
      groups := Walk((set n | n in nodes), queue, readings, legs, now, was, ss, vs, whole, pending);
      AllCollected(whole, legs, groups, pending, was, vs);
      groups := SendGroup(legs, whole, pending + AskedFor(was, vs), groups);
    }

    lemma Sizes()
      requires Valid()
      ensures nacks.Length == MAX_NACKS && nacksCounter <= MAX_NACKS && queueMax >= 2
    {
    }

    lemma AllCollected(whole: bool, legs: seq<Leg>, groups: seq<Packet>, pending: seq<int>, was: seq<Node>, vs: seq<Verdict>)
      requires |was| == |vs| && Collected(whole, legs, groups, pending, was, vs, |was|)
      ensures Groups(groups, legs)
      ensures whole ==> nacksCounter < nacks.Length && Flatten(groups) + nacks[..nacksCounter] == pending + AskedFor(was, vs)
    {
      assert was[..|was|] == was && vs[..|was|] == vs;
    }

    static lemma OneAsked(pending: seq<int>, was: seq<Node>, vs: seq<Verdict>, k: nat)
      requires |was| == |vs| && k < |was|
      ensures pending + AskedFor(was[..k + 1], vs[..k + 1])
           == pending + AskedFor(was[..k], vs[..k]) + if vs[k].Ask? then [was[k].seqNo as int] else []
    {
      hide AskedFor;
      OneJudged(was, vs, k);
    }

    /** Before the first entry. */
    lemma Begin(whole: bool, legs: seq<Leg>, pending: seq<int>, ss: seq<Standing>, vs: seq<Verdict>,
                readings: map<Peer, Reading>, now: nat)
      requires Valid() && |vs| == |nodes| && ss == States(nodes) && Read(nodes, readings)
      requires pending == nacks[..nacksCounter] && (whole ==> nacksCounter < MAX_NACKS)
      ensures Progress(nodes, nodes, vs, 0, 0) && Done(nodes, ss, vs, readings, 0, now) && At(nodes, null, missing, 0)
      ensures Distinct(nodes) && Collected(whole, legs, [], pending, nodes, vs, 0)
    {
      assert AskedFor(nodes[..0], vs[..0]) == [] && Flatten([]) == [];
    }
  }

  // ----- a run of newest packets ------------------------------------------------------------

  /** One newest packet after the other, each within the cap of the one before, where the
      list has room for everything. */
  ghost predicate Unlimited(found: seq<nat>, shortSeq: bool, queueMax: nat, peer: Peer) {
    && Increasing(found) && found != [] && |Listed(found)| <= peer.missingCounterMax
    && forall i, j :: 0 <= i && j == i + 1 < |found| ==> found[j] - found[i] <= if shortSeq then B16 / 2 else queueMax / 2
  }

  /** The entries stand for these numbers. */
  ghost predicate StandFor(nodes: seq<Node>, numbers: seq<nat>, shortSeq: bool) {
    |nodes| == |numbers| && forall i :: 0 <= i < |nodes| ==> nodes[i].seqNo == numbers[i] % Modulus(shortSeq)
  }

  lemma {:induction false} ListedGrows(found: seq<nat>, n: nat)
    requires n <= |found|
    ensures |Listed(found[..n])| <= |Listed(found)|
    decreases |found|
  {
    if n < |found| {
      var m := |found| - 1;
      ListedGrows(found[..m], n);
      assert found[..m][..n] == found[..n];
    } else {
      assert found[..n] == found;
    }
  }

  lemma ListedMore(found: seq<nat>, n: nat)
    requires 0 < n < |found|
    ensures Listed(found[..n + 1]) == Listed(found[..n]) + Between(found[n - 1], found[n])
  {
    assert found[..n + 1][..n] == found[..n];
  }

  lemma StandMore(was: seq<Node>, nodes: seq<Node>, numbers: seq<nat>, last: nat, current: nat, shortSeq: bool)
    requires StandFor(was, numbers, shortSeq) && |was| <= |nodes| && nodes[..|was|] == was
    requires |nodes| == |was| + |Between(last, current)|
    requires forall i :: |was| <= i < |nodes| ==>
               nodes[i].seqNo == (last % Modulus(shortSeq) + 1 + i - |was|) % Modulus(shortSeq)
    ensures StandFor(nodes, numbers + Between(last, current), shortSeq)
  {
    hide Between;
    var all := numbers + Between(last, current);
    forall i | 0 <= i < |nodes| ensures nodes[i].seqNo == all[i] % Modulus(shortSeq) {
      if i < |was| {
        assert nodes[i] == nodes[..|was|][i];
      } else {
        BetweenNumber(last, current, shortSeq, i - |was|);
      }
    }
  }

  /** The first packet found has nothing missing before it. */
  lemma NothingListed(found: seq<nat>, shortSeq: bool)
    requires found != []
    ensures StandFor([], Listed(found[..1]), shortSeq)
  {
  }

  /** The next walk is as long as the numbers between, and the list has room for it. */
  lemma RoomForMore(f: Flow, found: seq<nat>, peer: Peer, n: nat)
    requires f.Valid() && Unlimited(found, f.shortSeq, f.queueMax, peer) && 0 < n < |found|
    requires |f.nodes| == |Listed(found[..n])| && f.lastSeqFound == found[n - 1] % Modulus(f.shortSeq)
    ensures Min(WalkLength(Gap(found[n] % Modulus(f.shortSeq), f.lastSeqFound, f.shortSeq), f.shortSeq, f.queueMax),
                Room(false, f.missingCounter, peer.missingCounterMax))
            == |Between(found[n - 1], found[n])|
  {
    hide WalkLength, Gap, Listed, Between;
    WalkIsBetween(found[n - 1], found[n], f.shortSeq, f.queueMax);
    ListedMore(found, n);
    ListedGrows(found, n + 1);
  }

  /** A run of newest packets from an empty list on lists exactly the numbers missing between
      them, in order. */
  method FindAll(f: Flow, found: seq<nat>, peer: Peer, rtt: nat, time: nat -> nat, now: nat -> nat)
    requires f.Valid() && f.nodes == [] && Unlimited(found, f.shortSeq, f.queueMax, peer)
    requires f.lastSeqFound == found[0] % Modulus(f.shortSeq) && forall n :: now(n) >= f.recoveryBufferTicks
    modifies f
    ensures f.Valid() && StandFor(f.nodes, Listed(found), f.shortSeq)
    ensures f.lastSeqFound == found[|found| - 1] % Modulus(f.shortSeq)
  {
    hide Flow.Valid, Listed, Between, WalkLength, Gap, Room, Min;
    NothingListed(found, f.shortSeq);
    for n := 1 to |found|
      invariant f.Valid() && StandFor(f.nodes, Listed(found[..n]), f.shortSeq)
      invariant f.lastSeqFound == found[n - 1] % Modulus(f.shortSeq)
      invariant forall i :: 0 <= i < |f.nodes| ==> fresh(f.nodes[i])
    {
      ghost var was, last, current := f.nodes, found[n - 1], found[n];
      RoomForMore(f, found, peer, n);
      f.Found(peer, false, found[n] % Modulus(f.shortSeq), time(n - 1), time(n), rtt, now(n), true, true);
      StandMore(was, f.nodes, Listed(found[..n]), last, current, f.shortSeq);
      ListedMore(found, n);
    }
    assert found[..|found|] == found;
  }
}
