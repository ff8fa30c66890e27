/** Removing and restoring null transport packets: src/mpegts.c. */
module MpegTs {
  import opened Arith
  import opened Nack

  const SYNC: int := 0x47

  /** The size of the packets a payload is made of: 188 if that divides it, else 204. */
  function PacketSize(len: nat): nat {
    if len % 188 == 0 then 188 else 204
  }

  /** A payload that suppression looks at: whole packets, at most seven. */
  predicate Whole(len: nat) {
    (len % 188 == 0 || len % 204 == 0) && len / PacketSize(len) <= 7
  }

  /** Packet `i` of size `ps`. */
  function Packet(p: seq<int>, ps: nat, i: nat): (r: seq<int>)
    requires (i + 1) * ps <= |p|
    ensures |r| == ps
  {
    Extent(i, ps);
    p[i * ps..(i + 1) * ps]
  }

  lemma Extent(i: nat, ps: nat)
    ensures 0 <= i * ps && (i + 1) * ps == i * ps + ps
  {
  }

  lemma Fits(i: nat, n: nat, ps: nat)
    requires i < n
    ensures (i + 1) * ps <= n * ps
  {
    Product(n - (i + 1), ps);
    assert n * ps == (i + 1) * ps + (n - (i + 1)) * ps;
  }

  lemma Product(a: nat, b: nat)
    ensures 0 <= a * b
  {
  }

  /** Transport error, unit start and priority clear, and the null packets' identifier. */
  predicate IsNull(packet: seq<int>)
    requires |packet| >= 4
  {
    packet[1] * 256 + packet[2] == 0x1FFF
  }

  /** A null packet as expansion writes it. */
  function Canonical(ps: nat): (r: seq<int>)
    requires ps >= 4
    ensures |r| == ps
  {
    [SYNC, 0x1F, 0xFF, 0x10] + seq(ps - 4, _ => 0xFF)
  }

  /** It is in sync and null, has a payload and no adaptation field, and is stuffed with 0xFF. */
  lemma CanonicalIs(ps: nat)
    requires ps >= 4
    ensures var r := Canonical(ps); r[0] == 0x47 && IsNull(r) && r[3] == 16 && forall i :: 4 <= i < ps ==> r[i] == 255
  {
  }

  predicate Sized(p: seq<int>, ps: nat, n: nat) {
    ps >= 4 && n * ps <= |p|
  }

  /** The packets among the first `n` that are not null, one after the other. */
  function Kept(p: seq<int>, ps: nat, n: nat): seq<int>
    requires Sized(p, ps, n)
  {
    if n == 0 then []
    else
      Extent(n - 1, ps);
      Kept(p, ps, n - 1) + if IsNull(Packet(p, ps, n - 1)) then [] else Packet(p, ps, n - 1)
  }

  function Nulls(p: seq<int>, ps: nat, n: nat): (k: nat)
    requires Sized(p, ps, n)
    ensures k <= n
  {
    if n == 0 then 0
    else
      Extent(n - 1, ps);
      Nulls(p, ps, n - 1) + if IsNull(Packet(p, ps, n - 1)) then 1 else 0
  }

  /** The first `n` packets with every null one in canonical form. */
  function Normal(p: seq<int>, ps: nat, n: nat): (r: seq<int>)
    requires Sized(p, ps, n)
  {
    if n == 0 then []
    else
      Extent(n - 1, ps);
      Normal(p, ps, n - 1) + if IsNull(Packet(p, ps, n - 1)) then Canonical(ps) else Packet(p, ps, n - 1)
  }

  lemma {:induction false} Sizes(p: seq<int>, ps: nat, n: nat)
    requires Sized(p, ps, n)
    ensures |Kept(p, ps, n)| == n * ps - Nulls(p, ps, n) * ps
    ensures |Normal(p, ps, n)| == n * ps
  {
    if n > 0 {
      Extent(n - 1, ps);
      Sizes(p, ps, n - 1);
      Extent(Nulls(p, ps, n - 1), ps);
    }
  }

  /** The bits of the extension header tell the null ones among the first `n` of the `m`
      packets. */
  predicate Marked(bits: nat, p: seq<int>, ps: nat, m: nat, n: nat)
    requires Sized(p, ps, m) && n <= m <= 7
  {
    forall i :: 0 <= i < 7 ==> MarkedAt(bits, p, ps, m, n, i)
  }

  predicate MarkedAt(bits: nat, p: seq<int>, ps: nat, m: nat, n: nat, i: nat)
    requires Sized(p, ps, m) && n <= m <= 7 && i < 7
  {
    HasBit(bits, 6 - i) <==> i < n && NullAt(p, ps, m, i)
  }

  predicate NullAt(p: seq<int>, ps: nat, n: nat, i: nat)
    requires Sized(p, ps, n) && i < n
  {
    Fits(i, n, ps);
    IsNull(Packet(p, ps, i))
  }

  // ----- expansion as a function ----------------------------------------------------------

  /** Packets among the first `n` positions that the bits leave in the payload. */
  function Present(bits: nat, n: nat): (k: nat)
    requires n <= 7
    ensures k <= n
  {
    if n == 0 then 0 else Present(bits, n - 1) + if HasBit(bits, 7 - n) then 0 else 1
  }

  /** The first `n` positions filled from the payload `q` and with null packets. */
  function Filled(q: seq<int>, ps: nat, bits: nat, n: nat): (r: seq<int>)
    requires n <= 7 && ps >= 4 && Present(bits, n) * ps <= |q|
  {
    if n == 0 then []
    else
      var k := Present(bits, n - 1);
      Extent(k, ps);
      Filled(q, ps, bits, n - 1) + if HasBit(bits, 7 - n) then Canonical(ps) else Packet(q, ps, k)
  }

  lemma NextPresent(q: seq<int>, before: seq<int>, packet: seq<int>, ps: nat, k: nat)
    requires before + packet <= q && |before| == k * ps && |packet| == ps
    ensures (k + 1) * ps <= |q| && Packet(q, ps, k) == packet
  {
    Extent(k, ps);
    var both := before + packet;
    assert q[k * ps..(k + 1) * ps] == both[k * ps..(k + 1) * ps];
  }

  /** One packet more, seen from both sides. */
  lemma OneMorePacket(p: seq<int>, ps: nat, m: nat, n: nat, bits: nat)
    requires Sized(p, ps, m) && n < m <= 7 && Marked(bits, p, ps, m, m) && n * ps <= (n + 1) * ps <= m * ps
    ensures HasBit(bits, 6 - n) <==> NullAt(p, ps, m, n)
    ensures Kept(p, ps, n + 1) == Kept(p, ps, n) + if NullAt(p, ps, m, n) then [] else Packet(p, ps, n)
    ensures Normal(p, ps, n + 1) == Normal(p, ps, n) + if NullAt(p, ps, m, n) then Canonical(ps) else Packet(p, ps, n)
    ensures Nulls(p, ps, n + 1) == Nulls(p, ps, n) + if NullAt(p, ps, m, n) then 1 else 0
    ensures Present(bits, n + 1) == Present(bits, n) + if NullAt(p, ps, m, n) then 0 else 1
  {
    hide HasBit, Canonical;
    assert MarkedAt(bits, p, ps, m, m, n);
  }

  /** Filling what suppression left restores the payload, null packets in canonical form. */
  lemma {:induction false} Restores(p: seq<int>, ps: nat, m: nat, n: nat, bits: nat)
    requires Sized(p, ps, m) && n <= m <= 7 && Marked(bits, p, ps, m, m)
    ensures n * ps <= m * ps && Present(bits, n) == n - Nulls(p, ps, n)
    ensures Present(bits, n) * ps == |Kept(p, ps, n)| && Kept(p, ps, n) <= Kept(p, ps, m)
    ensures Filled(Kept(p, ps, m), ps, bits, n) == Normal(p, ps, n)
  {
    Monotone(n, m, ps);
    Prefix(p, ps, n, m);
    if n > 0 {
      var j := n - 1;
      Restores(p, ps, m, j, bits);
      Extent(j, ps);
      OneMorePacket(p, ps, m, j, bits);
      Extent(Present(bits, j), ps);
      RestoresOne(p, Kept(p, ps, m), ps, m, j, bits);
    }
  }

  lemma RestoresOne(p: seq<int>, q: seq<int>, ps: nat, m: nat, j: nat, bits: nat)
    requires Sized(p, ps, m) && j < m <= 7 && Marked(bits, p, ps, m, m) && j * ps <= (j + 1) * ps <= m * ps
    requires Kept(p, ps, j) <= q && Kept(p, ps, j + 1) <= q
    requires Present(bits, j) * ps == |Kept(p, ps, j)| <= |q|
    requires Filled(q, ps, bits, j) == Normal(p, ps, j)
    ensures Present(bits, j + 1) * ps == |Kept(p, ps, j + 1)| <= |q|
    ensures Filled(q, ps, bits, j + 1) == Normal(p, ps, j + 1)
  {
    hide Kept, Normal, Nulls, Present, Canonical, Marked, HasBit, NullAt, Packet, Filled;
    OneMorePacket(p, ps, m, j, bits);
    Extent(Present(bits, j), ps);
    FilledOne(q, ps, bits, j);
    if !NullAt(p, ps, m, j) {
      NextPresent(q, Kept(p, ps, j), Packet(p, ps, j), ps, Present(bits, j));
    }
  }

  lemma Difference(n: nat, k: nat, ps: nat)
    requires k <= n
    ensures (n - k) * ps == n * ps - k * ps
  {
  }

  lemma Monotone(n: nat, m: nat, ps: nat)
    requires n <= m
    ensures n * ps <= m * ps
  {
    Product(m - n, ps);
    Difference(m, n, ps);
  }

  lemma {:induction false} Prefix(p: seq<int>, ps: nat, n: nat, m: nat)
    requires Sized(p, ps, m) && n <= m
    ensures n * ps <= m * ps && Kept(p, ps, n) <= Kept(p, ps, m)
  {
    Monotone(n, m, ps);
    if n < m {
      Extent(m - 1, ps);
      Prefix(p, ps, n, m - 1);
    }
  }

  /** Each packet of the normal form: as it was, or canonical. */
  lemma {:induction false} NormalAt(p: seq<int>, ps: nat, n: nat, i: nat)
    requires Sized(p, ps, n) && i < n
    ensures |Normal(p, ps, n)| == n * ps && (i + 1) * ps <= n * ps
    ensures Packet(Normal(p, ps, n), ps, i) == if NullAt(p, ps, n, i) then Canonical(ps) else Packet(p, ps, i)
  {
    Sizes(p, ps, n);
    Fits(i, n, ps);
    Extent(n - 1, ps);
    Extent(i, ps);
    Sizes(p, ps, n - 1);
    if i < n - 1 {
      Fits(i, n - 1, ps);
      NormalAt(p, ps, n - 1, i);
      assert Packet(Normal(p, ps, n), ps, i) == Packet(Normal(p, ps, n - 1), ps, i);
    }
  }

  // ----- the code -----------------------------------------------------------------------------

  class Header {
    var flags: nat
    var npdBits: nat

    constructor ()
      ensures flags == npdBits == 0
    {
      flags, npdBits := 0, 0;
    }
  }

  predicate Synced(p: seq<int>, ps: nat, n: nat, i: nat)
    requires Sized(p, ps, n) && i < n
  {
    Fits(i, n, ps);
    Packet(p, ps, i)[0] == SYNC
  }

  /** The packets before the first one without a sync byte. */
  function SyncedPrefix(p: seq<int>, ps: nat, n: nat, from: nat): (k: nat)
    requires Sized(p, ps, n) && from <= n
    ensures from <= k <= n && (k < n ==> !Synced(p, ps, n, k))
    ensures forall i :: from <= i < k ==> Synced(p, ps, n, i)
    decreases n - from
  {
    if from < n && Synced(p, ps, n, from) then SyncedPrefix(p, ps, n, from + 1) else from
  }

  /** memcpy. */
  method Copy(src: seq<int>, dst: array<int>, at: nat)
    requires at + |src| <= dst.Length
    modifies dst
    ensures dst[..at + |src|] == old(dst[..at]) + src
  {
    forall k | at <= k < at + |src| {
      dst[k] := src[k - at];
    }
    ghost var whole := dst[..at + |src|];
    assert forall k :: at <= k < |whole| ==> whole[k] == src[k - at];
  }

  /** The scan of `suppress_null_packets` over the headers: `scanned` packets in, either the
      end or a packet without sync byte is met. */
  method Scan(p: seq<int>, ps: nat, count: nat, header: Header) returns (scanned: nat, suppressed: nat)
    requires Sized(p, ps, count) && count <= 7 && (header.npdBits == 0 || header.npdBits == 128)
    modifies header`npdBits
    ensures scanned == SyncedPrefix(p, ps, count, 0) && scanned * ps <= count * ps
    ensures suppressed == Nulls(p, ps, scanned)
    ensures Marked(header.npdBits, p, ps, count, scanned)
    ensures HasBit(header.npdBits, 7) == old(HasBit(header.npdBits, 7))
  {
    hide Nulls, IsNull, HasBit, WithBit, Packet;
    var offset := 0;
    scanned, suppressed := 0, 0;
    NoMarks(header.npdBits, p, ps, count);
    while scanned < count
      invariant scanned <= count && offset == scanned * ps && scanned * ps <= count * ps
      invariant SyncedPrefix(p, ps, count, scanned) == SyncedPrefix(p, ps, count, 0)
      invariant suppressed == Nulls(p, ps, scanned) && Marked(header.npdBits, p, ps, count, scanned)
      invariant HasBit(header.npdBits, 7) == old(HasBit(header.npdBits, 7))
    {
      Extent(scanned, ps);
      Fits(scanned, count, ps);
      var packet := p[offset..offset + ps];
      OnePacket(p, ps, count, scanned);
      if packet[0] != SYNC {
        return;
      }
      if packet[1] * 256 + packet[2] == 0x1FFF {
        MarkNull(header.npdBits, p, ps, count, scanned);
        SetThenTest(header.npdBits, 6 - scanned, 7);
        header.npdBits := WithBit(header.npdBits, 6 - scanned);
        suppressed := suppressed + 1;
      } else {
        MarkOther(header.npdBits, p, ps, count, scanned);
      }
      offset := offset + ps;
      scanned := scanned + 1;
    }
  }

  lemma NoMarks(bits: nat, p: seq<int>, ps: nat, m: nat)
    requires Sized(p, ps, m) && m <= 7 && (bits == 0 || bits == 128)
    ensures 0 * ps == 0 && Marked(bits, p, ps, m, 0) && Nulls(p, ps, 0) == 0
  {
    forall i | 0 <= i < 7 ensures MarkedAt(bits, p, ps, m, 0, i) {
      if bits == 0 {
        NoBits(6 - i);
      } else {
        FirstBit(7);
        assert Pow2(7) == 128;
        SetThenTest(0, 7, 6 - i);
        NoBits(6 - i);
      }
    }
  }

  lemma MarkNull(bits: nat, p: seq<int>, ps: nat, m: nat, n: nat)
    requires Sized(p, ps, m) && n < m <= 7 && Marked(bits, p, ps, m, n) && NullAt(p, ps, m, n)
    ensures Marked(WithBit(bits, 6 - n), p, ps, m, n + 1)
  {
    hide HasBit, WithBit, NullAt;
    var set1, n1 := WithBit(bits, 6 - n), n + 1;
    forall i | 0 <= i < 7 ensures MarkedAt(set1, p, ps, m, n1, i) {
      SetThenTest(bits, 6 - n, 6 - i);
      assert MarkedAt(bits, p, ps, m, n, i);
    }
  }

  lemma MarkOther(bits: nat, p: seq<int>, ps: nat, m: nat, n: nat)
    requires Sized(p, ps, m) && n < m <= 7 && Marked(bits, p, ps, m, n) && !NullAt(p, ps, m, n)
    ensures Marked(bits, p, ps, m, n + 1)
  {
    hide HasBit, NullAt;
    var n1 := n + 1;
    forall i | 0 <= i < 7 ensures MarkedAt(bits, p, ps, m, n1, i) {
      assert MarkedAt(bits, p, ps, m, n, i);
    }
  }

  /** What the scan reads of one packet. */
  lemma OnePacket(p: seq<int>, ps: nat, m: nat, n: nat)
    requires Sized(p, ps, m) && n < m && (n + 1) * ps <= m * ps && n * ps + ps == (n + 1) * ps
    ensures p[n * ps..n * ps + ps] == Packet(p, ps, n)
    ensures Synced(p, ps, m, n) <==> p[n * ps..n * ps + ps][0] == SYNC
    ensures NullAt(p, ps, m, n) <==> p[n * ps..n * ps + ps][1] * 256 + p[n * ps..n * ps + ps][2] == 0x1FFF
    ensures Nulls(p, ps, n + 1) == Nulls(p, ps, n) + if NullAt(p, ps, m, n) then 1 else 0
    ensures SyncedPrefix(p, ps, m, n) == if Synced(p, ps, m, n) then SyncedPrefix(p, ps, m, n + 1) else n
  {
  }

  /** The copying loop of `suppress_null_packets`. */
  method CopyKept(p: seq<int>, ps: nat, count: nat, bits: nat, dst: array<int>)
    requires Sized(p, ps, count) && count <= 7 && Marked(bits, p, ps, count, count) && dst.Length >= count * ps
    modifies dst
    ensures |Kept(p, ps, count)| <= dst.Length && dst[..|Kept(p, ps, count)|] == Kept(p, ps, count)
  {
    hide Kept, Normal, Nulls, Marked, HasBit, NullAt, Packet, Present;
    var offset, outputOffset := 0, 0;
    var i := 0;
    NothingKept(p, ps, count);
    while i < count
      invariant i <= count && offset == i * ps && i * ps <= count * ps
      invariant outputOffset == |Kept(p, ps, i)| <= i * ps && dst[..outputOffset] == Kept(p, ps, i)
    {
      Extent(i, ps);
      Fits(i, count, ps);
      OneMorePacket(p, ps, count, i, bits);
      PacketIs(p, ps, i);
      if !HasBit(bits, 6 - i) {
        Copy(p[offset..offset + ps], dst, outputOffset);
        outputOffset := outputOffset + ps;
      }
      offset := offset + ps;
      i := i + 1;
    }
  }

  lemma NothingKept(p: seq<int>, ps: nat, m: nat)
    requires Sized(p, ps, m)
    ensures 0 * ps == 0 <= m * ps && Kept(p, ps, 0) == []
  {
    Product(m, ps);
  }

  lemma PacketIs(p: seq<int>, ps: nat, i: nat)
    requires (i + 1) * ps <= |p| && i * ps + ps == (i + 1) * ps
    ensures Packet(p, ps, i) == p[i * ps..i * ps + ps]
  {
  }

  lemma Divided(len: nat)
    requires len % 188 == 0 || len % 204 == 0
    ensures len / PacketSize(len) * PacketSize(len) == len
  {
  }

  /** `suppress_null_packets`, into a buffer at least as long as the payload. It refuses
      payloads that are not one to seven whole packets, or with a packet out of sync; on
      meeting one out of sync it has already taken the null packets before it off the length,
      and the header's flag stays set. */
  method Suppress(p: seq<int>, dst: array<int>, header: Header) returns (r: int, len: nat)
    requires header.npdBits == 0 && dst.Length >= |p|
    modifies header, dst
    ensures !Whole(|p|) ==> r == -1 && len == |p| && header.flags == old(header.flags)
    ensures Whole(|p|) ==>
      var ps, count := PacketSize(|p|), |p| / PacketSize(|p|);
      && Sized(p, ps, count)
      && var k := SyncedPrefix(p, ps, count, 0);
         && k * ps <= count * ps
         && (r == -1 <==> k < count)
         && len == |p| - Nulls(p, ps, k) * ps
         && HasBit(header.flags, 7) && header.flags == (if k < count then 128 else WithBit(old(header.flags), 7))
         && (k == count ==>
               && r == Nulls(p, ps, count) * ps && Marked(header.npdBits, p, ps, count, count)
               && (HasBit(header.npdBits, 7) <==> ps == 204)
               && (r > 0 ==> len <= dst.Length && dst[..len] == Kept(p, ps, count)))
  {
    hide Kept, Normal, Nulls, Marked, HasBit, WithBit, SyncedPrefix, Synced;
    len := |p|;
    var packetSize := 188;
    FlagBits();
    if len % packetSize != 0 {
      packetSize := 204;
      if len % packetSize != 0 {
        return -1, len;
      }
      header.npdBits := WithBit(header.npdBits, 7);
    }
    var count := len / packetSize;
    if count > 7 {
      return -1, len;
    }
    Divided(|p|);
    SetThenTest(header.flags, 7, 7);
    header.flags := WithBit(header.flags, 7);
    var scanned, suppressed := Scan(p, packetSize, count, header);
    Monotone(scanned, count, packetSize);
    Sizes(p, packetSize, scanned);
    Product(suppressed, packetSize);
    len := |p| - suppressed * packetSize;
    if scanned < count {
      header.flags := OnlyBit7(header.flags);
      return -1, len;
    }
    if suppressed == 0 {
      return 0, len;
    }
    CopyKept(p, packetSize, count, header.npdBits, dst);
    r := suppressed * packetSize;
  }

  /** `UNSET_BIT(flags, 7)`, which clears every other bit. */
  function OnlyBit7(flags: nat): nat {
    if HasBit(flags, 7) then 128 else 0
  }

  lemma FlagBits()
    ensures WithBit(0, 7) == 128 && HasBit(128, 7) && !HasBit(0, 7)
  {
    FirstBit(7);
    assert Pow2(7) == 128;
    SetThenTest(0, 7, 7);
    NoBits(7);
  }

  /** The filling loop of `expand_null_packets`: false where the payload runs out. */
  method Fill(q: seq<int>, ps: nat, bits: nat, total: nat, dst: array<int>) returns (ok: bool)
    requires total <= 7 && ps >= 4 && dst.Length >= total * ps
    modifies dst
    ensures ok <==> Present(bits, total) * ps <= |q|
    ensures ok ==> dst[..total * ps] == Filled(q, ps, bits, total)
  {
    hide HasBit, Canonical, Packet, Present, Filled;
    NothingFilled(q, ps, bits);
    var offset, inputOffset := 0, 0;
    var i := 0;
    Product(total, ps);
    while i < total
      invariant i <= total && offset == i * ps && i * ps <= total * ps
      invariant inputOffset == Present(bits, i) * ps <= |q|
      invariant dst[..offset] == Filled(q, ps, bits, i)
    {
      Extent(i, ps);
      Fits(i, total, ps);
      Extent(Present(bits, i), ps);
      FilledOne(q, ps, bits, i);
      if !HasBit(bits, 6 - i) {
        if inputOffset + ps > |q| {
          PresentGrows(bits, i + 1, total, ps);
          return false;
        }
        PacketIs(q, ps, Present(bits, i));
        Copy(q[inputOffset..inputOffset + ps], dst, offset);
        inputOffset := inputOffset + ps;
      } else {
        Copy(Canonical(ps), dst, offset);
      }
      offset := offset + ps;
      i := i + 1;
    }
    ok := true;
  }

  lemma NothingFilled(q: seq<int>, ps: nat, bits: nat)
    requires ps >= 4
    ensures Present(bits, 0) * ps == 0 == 0 * ps && Filled(q, ps, bits, 0) == []
  {
  }

  lemma FilledOne(q: seq<int>, ps: nat, bits: nat, i: nat)
    requires i < 7 && ps >= 4 && Present(bits, i) * ps <= |q|
    ensures Present(bits, i + 1) == Present(bits, i) + if HasBit(bits, 6 - i) then 0 else 1
    ensures Present(bits, i + 1) * ps <= |q| ==>
              Filled(q, ps, bits, i + 1)
              == Filled(q, ps, bits, i) + if HasBit(bits, 6 - i) then Canonical(ps) else Packet(q, ps, Present(bits, i))
  {
    hide HasBit, Canonical, Packet;
  }

  lemma {:induction false} PresentGrows(bits: nat, n: nat, m: nat, ps: nat)
    requires n <= m <= 7
    ensures Present(bits, n) * ps <= Present(bits, m) * ps
  {
    if n < m {
      PresentGrows(bits, n, m - 1, ps);
      Monotone(Present(bits, m - 1), Present(bits, m), ps);
    }
  }

  /** `expand_null_packets`, into a buffer for seven packets. */
  method Expand(q: seq<int>, bits: nat, dst: array<int>) returns (r: int, len: nat)
    requires dst.Length >= 7 * 204
    modifies dst
    ensures var ps, nulls := (if HasBit(bits, 7) then 204 else 188), 7 - Present(bits, 7);
            var total := |q| / ps + nulls;
            && (nulls == 0 || total > 7 ==> r == 0 && len == |q|)
            && (0 < nulls && total <= 7 ==>
                  if Present(bits, total) * ps <= |q|
                  then r == nulls * ps && len == total * ps && dst[..len] == Filled(q, ps, bits, total)
                  else r == -1 && len == |q|)
  {
    hide HasBit, Filled;
    len := |q|;
    var packetSize := if HasBit(bits, 7) then 204 else 188;
    var tsCount := |q| / packetSize;
    var nullCount := CountNulls(bits);
    if nullCount == 0 || tsCount + nullCount > 7 {
      return 0, len;
    }
    tsCount := tsCount + nullCount;
    Monotone(tsCount, 7, packetSize);
    var ok := Fill(q, packetSize, bits, tsCount, dst);
    if !ok {
      return -1, len;
    }
    Product(nullCount, packetSize);
    Product(tsCount, packetSize);
    return nullCount * packetSize, tsCount * packetSize;
  }

  method CountNulls(bits: nat) returns (n: nat)
    ensures n == 7 - Present(bits, 7)
  {
    hide HasBit;
    n := 0;
    for i := 0 to 7
      invariant n == i - Present(bits, i)
    {
      if HasBit(bits, 6 - i) {
        n := n + 1;
      }
    }
  }

  /** Null packets taken out by suppression come back on expansion: the length, every other
      packet in its place, every null packet in canonical form, and both sides count the
      same bytes. */
  method RoundTrip(p: seq<int>, sent: array<int>, received: array<int>) returns (suppressed: int, expanded: int, len: nat)
    requires sent.Length >= |p| && received.Length >= 7 * 204 && sent != received
    modifies sent, received
    ensures suppressed > 0 ==>
      var ps := PacketSize(|p|);
      && expanded == suppressed && len == |p| == |p| / ps * ps <= received.Length
      && received[..len] == Normal(p, ps, |p| / ps)
    ensures suppressed <= 0 ==> expanded == 0 && len == |p|
  {
    hide Kept, Normal, Nulls, Marked, HasBit, SyncedPrefix, Filled, Present;
    var header := new Header();
    var sentLen;
    suppressed, sentLen := Suppress(p, sent, header);
    expanded, len := 0, |p|;
    if suppressed > 0 {
      var ps, count := PacketSize(|p|), |p| / PacketSize(|p|);
      var q := sent[..sentLen];
      Divided(|p|);
      Expected(p, q, ps, count, header.npdBits, suppressed);
      expanded, len := Expand(q, header.npdBits, received);
    }
  }

  /** What expansion makes of the bits and the payload that suppression sends. */
  lemma Expected(p: seq<int>, q: seq<int>, ps: nat, count: nat, bits: nat, removed: int)
    requires Sized(p, ps, count) && count <= 7 && count * ps == |p| && Marked(bits, p, ps, count, count)
    requires removed == Nulls(p, ps, count) * ps > 0 && q == Kept(p, ps, count)
    ensures Present(bits, 7) == 7 - Nulls(p, ps, count) && Nulls(p, ps, count) > 0
    ensures |q| / ps + Nulls(p, ps, count) == count
    ensures Present(bits, count) * ps <= |q| && Filled(q, ps, bits, count) == Normal(p, ps, count)
  {
    hide Kept, Normal, Marked, Filled;
    Restores(p, ps, count, count, bits);
    BeyondPresent(p, ps, count, bits, 7);
    Sizes(p, ps, count);
    Difference(count, Nulls(p, ps, count), ps);
    WholeQuotient(count - Nulls(p, ps, count), ps);
  }

  lemma WholeQuotient(k: nat, ps: nat)
    requires ps > 0
    ensures k * ps / ps == k
  {
    var d := k - k * ps / ps;
    DivMod(k * ps, ps);
    assert d * ps == k * ps - k * ps / ps * ps;
    SmallMultiple(d, ps);
  }

  /** No bit stands for a position behind the last packet. */
  lemma {:induction false} BeyondPresent(p: seq<int>, ps: nat, m: nat, bits: nat, n: nat)
    requires Sized(p, ps, m) && m <= n <= 7 && Marked(bits, p, ps, m, m)
    ensures Present(bits, n) == Present(bits, m) + (n - m)
  {
    hide HasBit;
    if n > m {
      BeyondPresent(p, ps, m, bits, n - 1);
      assert MarkedAt(bits, p, ps, m, m, n - 1);
    }
  }
}
