/** Retransmission requests on the wire: the Advanced range and bitmask messages and their
    16-bit RTCP forms, encoders of src/udp.c against decoders of src/adv_ctrl.c and
    src/rist-common.c. */
module Nack {
  import opened SeqNo

  type u8 = x: nat | x < 256
  type u16 = x: nat | x < 0x1_0000
  type u32 = x: nat | x < 0x1_0000_0000

  // ----- bits of a number -------------------------------------------------------------

  /** `n & (1 << i)`. */
  predicate HasBit(n: nat, i: nat) {
    if i == 0 then n % 2 == 1 else HasBit(n / 2, i - 1)
  }

  /** `n | (1 << i)`. */
  function WithBit(n: nat, i: nat): nat {
    if i == 0 then (if n % 2 == 1 then n else n + 1) else 2 * WithBit(n / 2, i - 1) + n % 2
  }

  function Pow2(w: nat): nat {
    if w == 0 then 1 else 2 * Pow2(w - 1)
  }

  /** A bit is its power of two, added if it was not there. */
  lemma {:induction false} BitAdds(n: nat, i: nat)
    ensures WithBit(n, i) == if HasBit(n, i) then n else n + Pow2(i)
    ensures HasBit(Pow2(i), i) && (n < Pow2(i) ==> !HasBit(n, i))
  {
    if i > 0 {
      BitAdds(n / 2, i - 1);
    }
  }

  lemma {:induction false} SetThenTest(n: nat, i: nat, k: nat)
    ensures HasBit(WithBit(n, i), k) <==> k == i || HasBit(n, k)
  {
    if i > 0 && k > 0 {
      SetThenTest(n / 2, i - 1, k - 1);
    }
  }

  lemma {:induction false} SetTwice(n: nat, i: nat)
    ensures HasBit(n, i) ==> WithBit(n, i) == n
  {
    if i > 0 {
      SetTwice(n / 2, i - 1);
    }
  }

  lemma {:induction false} FirstBit(i: nat)
    ensures WithBit(0, i) == Pow2(i)
  {
    if i > 0 {
      FirstBit(i - 1);
    }
  }

  lemma HalfFits(n: nat, w: nat)
    requires w > 0
    ensures n < Pow2(w) <==> n / 2 < Pow2(w - 1)
  {
  }

  lemma {:induction false} MaskFits(n: nat, i: nat, w: nat)
    requires i < w && n < Pow2(w)
    ensures WithBit(n, i) < Pow2(w)
  {
    HalfFits(n, w);
    if i > 0 {
      MaskFits(n / 2, i - 1, w - 1);
    }
  }

  lemma {:induction false} Doubling(v: nat, w: nat)
    ensures Pow2(v + w) == Pow2(v) * Pow2(w)
  {
    if w > 0 {
      Doubling(v, w - 1);
    }
  }

  lemma PowersNamed()
    ensures Pow2(16) == B16 && Pow2(32) == B32
  {
    Doubling(8, 8);
    Doubling(16, 16);
  }

  lemma {:induction false} NoBits(i: nat)
    ensures !HasBit(0, i)
  {
    if i > 0 {
      NoBits(i - 1);
    }
  }

  // ----- numbers asked for ----------------------------------------------------------------

  /** `count` numbers from `first` on, wrapping at 32 bits. */
  function Run(first: nat, count: nat): (r: seq<int>)
    ensures |r| == count
  {
    seq(count, (i: nat) => (first + i) % B32)
  }

  /** The numbers a bitmask of the given width asks for beside its base. */
  function Marked(base: nat, mask: nat, width: nat): seq<int> {
    if width == 0 then []
    else Marked(base, mask, width - 1) + if HasBit(mask, width - 1) then [(base + width) % B32] else []
  }

  lemma {:induction false} MarkedNothing(base: nat, width: nat)
    ensures Marked(base, 0, width) == []
  {
    if width > 0 {
      MarkedNothing(base, width - 1);
      NoBits(width - 1);
    }
  }

  /** Setting a bit adds its number, once. */
  lemma {:induction false} MarkedAdds(base: nat, mask: nat, width: nat, k: nat)
    ensures k >= width ==> Marked(base, WithBit(mask, k), width) == Marked(base, mask, width)
    ensures k < width && !HasBit(mask, k) ==>
              multiset(Marked(base, WithBit(mask, k), width)) == multiset(Marked(base, mask, width)) + multiset{(base + k + 1) % B32}
  {
    hide *;
    if width == 0 {
      MarkedNone(base, mask);
      MarkedNone(base, WithBit(mask, k));
    } else {
      var w := width - 1;
      MarkedAdds(base, mask, w, k);
      SetThenTest(mask, k, w);
      MarkedMore(base, mask, w);
      MarkedMore(base, WithBit(mask, k), w);
    }
  }

  lemma MarkedNone(base: nat, mask: nat)
    ensures Marked(base, mask, 0) == []
  {
  }

  lemma MarkedMore(base: nat, mask: nat, width: nat)
    ensures Marked(base, mask, width + 1)
            == Marked(base, mask, width) + if HasBit(mask, width) then [(base + width + 1) % B32] else []
  {
    hide HasBit;
  }

  /** A set bit's number is among those asked for. */
  lemma {:induction false} MarkedHas(base: nat, mask: nat, width: nat, k: nat)
    requires k < width && HasBit(mask, k)
    ensures (base + k + 1) % B32 in Marked(base, mask, width)
  {
    if k < width - 1 {
      MarkedHas(base, mask, width - 1, k);
    }
  }

  // ----- Advanced messages ----------------------------------------------------------------

  function PutWord(w: u32): (b: seq<int>)
    ensures |b| == 4 && Octets(b)
  {
    var w1 := w / 256;
    var w2 := w1 / 256;
    [w2 / 256, w2 % 256, w1 % 256, w % 256]
  }

  /** Most significant byte first. */
  lemma PutWordIs(w: u32)
    ensures var b := PutWord(w); w == b[0] * 0x100_0000 + b[1] * 0x1_0000 + b[2] * 0x100 + b[3]
  {
  }

  predicate Octets(b: seq<int>) {
    forall i :: 0 <= i < |b| ==> 0 <= b[i] < 256
  }

  predicate AllOctets(messages: seq<seq<int>>) {
    forall i :: 0 <= i < |messages| ==> Octets(messages[i])
  }

  function GetWord(b: seq<int>, at: nat): nat
    requires at + 4 <= |b| && Octets(b)
  {
    b[at] * 0x100_0000 + b[at + 1] * 0x1_0000 + b[at + 2] * 0x100 + b[at + 3]
  }

  /** The 12-byte body shared by both messages. */
  function Body(ssrc: u32, pss: u32, rest: u32): (b: seq<int>)
    ensures |b| == 12 && Octets(b)
  {
    PutWord(ssrc) + PutWord(pss) + PutWord(rest)
  }

  lemma WordReads(w: u32)
    ensures GetWord(PutWord(w), 0) == w
  {
  }

  lemma BodyReads(ssrc: u32, pss: u32, rest: u32)
    ensures GetWord(Body(ssrc, pss, rest), 0) == ssrc && GetWord(Body(ssrc, pss, rest), 4) == pss
    ensures GetWord(Body(ssrc, pss, rest), 8) == rest
  {
    WordReads(ssrc);
    WordReads(pss);
    WordReads(rest);
    var b := Body(ssrc, pss, rest);
    assert forall i :: 0 <= i < 4 ==> b[i] == PutWord(ssrc)[i] && b[4 + i] == PutWord(pss)[i] && b[8 + i] == PutWord(rest)[i];
  }

  /** The cap on one range message. */
  const RANGE_CAP: nat := 10000

  function Min(a: int, b: int): int {
    if a <= b then a else b
  }

  /** The numbers a received range message asks for; a short body asks for nothing. */
  function RangeAsks(body: seq<int>): seq<int>
    requires Octets(body)
  {
    if |body| < 12 then []
    else Run(GetWord(body, 4), Min(GetWord(body, 8) + 1, 10000))
  }

  function BitmaskAsks(body: seq<int>): seq<int>
    requires Octets(body)
  {
    if |body| < 12 then []
    else [GetWord(body, 4)] + Marked(GetWord(body, 4), GetWord(body, 8), 32)
  }

  datatype Form = Range | Bitmask

  function Asks(form: Form, body: seq<int>): seq<int>
    requires Octets(body)
  {
    match form
    case Range => RangeAsks(body)
    case Bitmask => BitmaskAsks(body)
  }

  function AllAsk(form: Form, messages: seq<seq<int>>): seq<int>
    requires AllOctets(messages)
  {
    if messages == [] then []
    else AllAsk(form, messages[..|messages| - 1]) + Asks(form, messages[|messages| - 1])
  }

  lemma OneMore(form: Form, messages: seq<seq<int>>, body: seq<int>)
    requires AllOctets(messages) && Octets(body)
    ensures AllAsk(form, messages + [body]) == AllAsk(form, messages) + Asks(form, body)
  {
    assert (messages + [body])[..|messages|] == messages;
  }

  predicate Words(s: seq<int>) {
    forall i :: 0 <= i < |s| ==> 0 <= s[i] < B32
  }

  /** The receiving side of both messages: the loops of `rist_adv_recv_control`, with the
      sequence of `rist_retry_enqueue` calls as result. */
  method Receive(form: Form, body: seq<int>) returns (asked: seq<int>)
    requires Octets(body)
    ensures asked == Asks(form, body)
  {
    if |body| < 12 {
      return [];
    }
    var pss, rest := GetWord(body, 4), GetWord(body, 8);
    match form
    case Bitmask =>
      asked := [pss];
      for i := 0 to 32
        invariant asked == [pss] + Marked(pss, rest, i)
      {
        if HasBit(rest, i) {
          asked := asked + [(pss + 1 + i) % B32];
        }
      }
    case Range =>
      asked := [];
      var i := 0;
      while i <= rest && i < RANGE_CAP
        invariant i <= Min(rest + 1, RANGE_CAP)
        invariant asked == Run(pss, i)
      {
        asked := asked + [(pss + i) % B32];
        i := i + 1;
      }
  }

  /** What range messages mean, before the cap on each is applied. */
  function Spans(messages: seq<seq<int>>): seq<int>
    requires AllOctets(messages)
  {
    if messages == [] then []
    else Spans(messages[..|messages| - 1]) + Span(messages[|messages| - 1])
  }

  function Span(body: seq<int>): seq<int>
    requires Octets(body)
  {
    if |body| < 12 then []
    else Run(GetWord(body, 4), GetWord(body, 8) + 1)
  }

  predicate BelowCap(body: seq<int>)
    requires Octets(body)
  {
    |body| >= 12 ==> GetWord(body, 8) < 10000
  }

  /** The cap costs a number exactly when some message spans more than it. */
  lemma {:induction false} CapCosts(messages: seq<seq<int>>)
    requires AllOctets(messages)
    ensures |AllAsk(Range, messages)| <= |Spans(messages)|
    ensures AllAsk(Range, messages) == Spans(messages) <==> forall i :: 0 <= i < |messages| ==> BelowCap(messages[i])
  {
    if messages != [] {
      var init, last := messages[..|messages| - 1], messages[|messages| - 1];
      CapCosts(init);
      assert messages == init + [last];
      if AllAsk(Range, messages) == Spans(messages) {
        assert |RangeAsks(last)| <= |Span(last)|;
        assert |AllAsk(Range, init)| == |Spans(init)|;
        assert AllAsk(Range, init) == AllAsk(Range, messages)[..|Spans(init)|] == Spans(init);
      }
    }
  }

  /** A number that would not have gone into the message: for a range one that is not the
      next, for a bitmask one that is not among the next 32. */
  predicate StartsAnew(form: Form, body: seq<int>, number: int)
    requires |body| >= 12 && Octets(body)
  {
    match form
    case Range => number != (GetWord(body, 4) + GetWord(body, 8) + 1) % B32
    case Bitmask => !(1 <= (number - GetWord(body, 4)) % B32 <= 32)
  }

  /** No message could have been part of the one before. */
  ghost predicate Packed(form: Form, messages: seq<seq<int>>)
    requires AllOctets(messages) && forall i :: 0 <= i < |messages| ==> |messages[i]| == 12
  {
    forall i, j :: 0 <= i && j == i + 1 < |messages| ==> StartsAnew(form, messages[i], GetWord(messages[j], 4))
  }

  lemma PackedMore(form: Form, messages: seq<seq<int>>, ssrc: u32, pss: u32, rest: u32)
    requires AllOctets(messages) && forall i :: 0 <= i < |messages| ==> |messages[i]| == 12
    requires Packed(form, messages) && (messages != [] ==> StartsAnew(form, messages[|messages| - 1], pss))
    ensures Packed(form, messages + [Body(ssrc, pss, rest)])
  {
    hide StartsAnew, Body;
    BodyReads(ssrc, pss, rest);
  }

  lemma Breaks(ssrc: u32, pss: u32, rest: u32, number: int)
    ensures number != (pss + rest + 1) % B32 ==> StartsAnew(Range, Body(ssrc, pss, rest), number)
    ensures !(1 <= (number - pss) % B32 <= 32) ==> StartsAnew(Bitmask, Body(ssrc, pss, rest), number)
  {
    hide Body;
    BodyReads(ssrc, pss, rest);
  }

  /** The range branch of `rist_receiver_send_nacks_advanced`: the messages mean, in order,
      exactly the numbers of the list, in runs as long as can be, and none spans more than its
      length. */
  method SendRanges(ssrc: u32, list: seq<int>) returns (messages: seq<seq<int>>)
    requires 0 < |list| < B32 && Words(list)
    ensures AllOctets(messages) && Spans(messages) == list
    ensures forall i :: 0 <= i < |messages| ==>
      |messages[i]| == 12 && GetWord(messages[i], 0) == ssrc && GetWord(messages[i], 8) < |list|
    ensures Packed(Range, messages)
  {
    hide Spans, Words, Body, Run, StartsAnew, Packed;
    NothingPacked();
    messages := [];
    var pss, nalp := list[0], 0;
    FirstRun(list);
    for i := 1 to |list|
      invariant 0 <= pss < B32 && 0 <= nalp < i
      invariant AllOctets(messages)
      invariant forall k :: 0 <= k < |messages| ==>
        |messages[k]| == 12 && GetWord(messages[k], 0) == ssrc && GetWord(messages[k], 8) < |list|
      invariant Spans(messages) + Run(pss, nalp + 1) == list[..i]
      invariant Packed(Range, messages) && (messages != [] ==> StartsAnew(Range, messages[|messages| - 1], pss))
    {
      if list[i] == (pss + nalp + 1) % B32 {
        LongerRun(Spans(messages), pss, nalp, list, i);
        nalp := nalp + 1;
      } else {
        RangeMessage(messages, ssrc, pss, nalp);
        PackedMore(Range, messages, ssrc, pss, nalp);
        Breaks(ssrc, pss, nalp, list[i]);
        messages := messages + [Body(ssrc, pss, nalp)];
        NewRun(list, i);
        pss, nalp := list[i], 0;
      }
    }
    RangeMessage(messages, ssrc, pss, nalp);
    PackedMore(Range, messages, ssrc, pss, nalp);
    messages := messages + [Body(ssrc, pss, nalp)];
    assert list[..|list|] == list;
  }

  lemma NothingPacked()
    ensures Packed(Range, []) && Packed(Bitmask, [])
  {
  }

  lemma FirstRun(list: seq<int>)
    requires 0 < |list| && Words(list)
    ensures 0 <= list[0] < B32 && Spans([]) + Run(list[0], 1) == list[..1]
  {
  }

  lemma NewRun(list: seq<int>, i: nat)
    requires i < |list| && Words(list)
    ensures 0 <= list[i] < B32 && list[..i] + Run(list[i], 1) == list[..i + 1]
  {
    assert Run(list[i], 1) == [list[i]];
  }

  lemma LongerRun(before: seq<int>, pss: nat, nalp: nat, list: seq<int>, i: nat)
    requires i < |list| && before + Run(pss, nalp + 1) == list[..i] && list[i] == (pss + nalp + 1) % B32
    ensures before + Run(pss, nalp + 2) == list[..i + 1]
  {
    assert Run(pss, nalp + 2) == Run(pss, nalp + 1) + [list[i]];
    assert before + Run(pss, nalp + 2) == before + Run(pss, nalp + 1) + [list[i]];
  }

  lemma RangeMessage(messages: seq<seq<int>>, ssrc: u32, pss: u32, nalp: u32)
    requires AllOctets(messages)
    ensures Spans(messages + [Body(ssrc, pss, nalp)]) == Spans(messages) + Run(pss, nalp + 1)
    ensures GetWord(Body(ssrc, pss, nalp), 0) == ssrc && GetWord(Body(ssrc, pss, nalp), 8) == nalp
  {
    BodyReads(ssrc, pss, nalp);
    var after := messages + [Body(ssrc, pss, nalp)];
    assert after[..|messages|] == messages;
  }

  /** Sending a list as ranges and receiving them gives back the list: always for lists
      within the cap, and in general exactly if no run of it is longer than the cap. */
  method RangeRoundTrip(ssrc: u32, list: seq<int>) returns (asked: seq<int>, ghost messages: seq<seq<int>>)
    requires 0 < |list| < B32 && Words(list)
    ensures AllOctets(messages)
    ensures asked == list <==> forall i :: 0 <= i < |messages| ==> BelowCap(messages[i])
    ensures Spans(messages) == list
    ensures |list| <= 10000 ==> asked == list
  {
    hide Spans, Words, Run;
    var sent := SendRanges(ssrc, list);
    messages := sent;
    asked := [];
    assert AllAsk(Range, []) == [];
    for i := 0 to |sent|
      invariant asked == AllAsk(Range, sent[..i])
    {
      OneMore(Range, sent[..i], sent[i]);
      assert sent[..i] + [sent[i]] == sent[..i + 1];
      var more := Receive(Range, sent[i]);
      asked := asked + more;
    }
    assert sent[..|sent|] == sent;
    CapCosts(sent);
  }

  // ----- Advanced bitmasks ----------------------------------------------------------------

  predicate Distinct(s: seq<int>) {
    forall i, j :: 0 <= i < j < |s| ==> s[i] != s[j]
  }

  /** The same numbers, and each once if each occurs once. */
  ghost predicate Covers(got: seq<int>, wanted: seq<int>) {
    && (forall x :: x in got <==> x in wanted)
    && (Distinct(wanted) ==> multiset(got) == multiset(wanted))
  }

  lemma CoverAgain(got: seq<int>, list: seq<int>, i: nat)
    requires i < |list| && Covers(got, list[..i]) && list[i] in got
    ensures Covers(got, list[..i + 1])
  {
    assert list[..i + 1] == list[..i] + [list[i]];
    var k :| 0 <= k < i && list[..i][k] == list[i];
    assert list[..i + 1][k] == list[..i + 1][i];
  }

  lemma CoverMore(got: seq<int>, more: seq<int>, list: seq<int>, i: nat)
    requires i < |list| && Covers(got, list[..i]) && multiset(more) == multiset(got) + multiset{list[i]}
    ensures Covers(more, list[..i + 1])
  {
    assert list[..i + 1] == list[..i] + [list[i]];
    forall x ensures x in more <==> x in list[..i + 1] {
      assert x in more <==> x in multiset(more);
      assert x in got <==> x in multiset(got);
    }
    if Distinct(list[..i + 1]) {
      assert forall k :: 0 <= k < i ==> list[..i][k] == list[..i + 1][k];
    }
  }

  /** Marking the next number of the list in the current mask. */
  lemma MarkNext(before: seq<int>, base: nat, mask: nat, width: nat, k: nat, list: seq<int>, i: nat)
    requires i < |list| && k < width && list[i] == (base + k + 1) % B32
    requires Covers(before + Marked(base, mask, width), list[..i])
    ensures Covers(before + Marked(base, WithBit(mask, k), width), list[..i + 1])
  {
    hide Covers, Marked;
    if HasBit(mask, k) {
      SetTwice(mask, k);
      MarkedHas(base, mask, width, k);
      CoverAgain(before + Marked(base, mask, width), list, i);
    } else {
      MarkedAdds(base, mask, width, k);
      CoverMore(before + Marked(base, mask, width), before + Marked(base, WithBit(mask, k), width), list, i);
    }
  }

  /** Starting a new base with the next number of the list. */
  lemma BaseNext(before: seq<int>, width: nat, list: seq<int>, i: nat)
    requires i < |list| && Covers(before, list[..i]) && list[i] >= 0
    ensures Covers(before + [list[i]] + Marked(list[i], 0, width), list[..i + 1])
  {
    hide Covers;
    MarkedNothing(list[i], width);
    CoverMore(before, before + [list[i]], list, i);
    assert before + [list[i]] + [] == before + [list[i]];
  }

  lemma BitmaskMessage(messages: seq<seq<int>>, ssrc: u32, pss: u32, blp: u32)
    requires AllOctets(messages)
    ensures AllAsk(Bitmask, messages + [Body(ssrc, pss, blp)]) == AllAsk(Bitmask, messages) + [pss] + Marked(pss, blp, 32)
    ensures GetWord(Body(ssrc, pss, blp), 0) == ssrc
  {
    hide Body;
    OneMore(Bitmask, messages, Body(ssrc, pss, blp));
    BodyReads(ssrc, pss, blp);
  }

  /** The bitmask branch of `rist_receiver_send_nacks_advanced`: the messages ask for the
      numbers of the list and no others, each once if the list has no repetition, and a new one
      is begun only for a number the last could not hold. */
  method SendBitmasks(ssrc: u32, list: seq<int>) returns (messages: seq<seq<int>>)
    requires 0 < |list| && Words(list)
    ensures AllOctets(messages) && Covers(AllAsk(Bitmask, messages), list)
    ensures forall i :: 0 <= i < |messages| ==> |messages[i]| == 12 && GetWord(messages[i], 0) == ssrc
    ensures Packed(Bitmask, messages)
  {
    hide Covers, AllAsk, Marked, Body, WithBit, Pow2, StartsAnew, Packed;
    NothingPacked();
    messages := [];
    var pss, blp: nat := list[0], 0;
    PowersNamed();
    NoneYet(list);
    BaseNext(AllAsk(Bitmask, []), 32, list, 0);
    for i := 1 to |list|
      invariant 0 <= pss < B32 && blp < B32
      invariant AllOctets(messages) && forall k :: 0 <= k < |messages| ==> |messages[k]| == 12 && GetWord(messages[k], 0) == ssrc
      invariant Covers(AllAsk(Bitmask, messages) + [pss] + Marked(pss, blp, 32), list[..i])
      invariant Packed(Bitmask, messages) && (messages != [] ==> StartsAnew(Bitmask, messages[|messages| - 1], pss))
    {
      var offset := (list[i] - pss) % B32;
      if 1 <= offset <= 32 {
        OffsetReaches(pss, list[i]);
        MarkNext(AllAsk(Bitmask, messages) + [pss], pss, blp, 32, offset - 1, list, i);
        MaskFits(blp, offset - 1, 32);
        blp := WithBit(blp, offset - 1);
      } else {
        BitmaskMessage(messages, ssrc, pss, blp);
        PackedMore(Bitmask, messages, ssrc, pss, blp);
        Breaks(ssrc, pss, blp, list[i]);
        messages := messages + [Body(ssrc, pss, blp)];
        BaseNext(AllAsk(Bitmask, messages), 32, list, i);
        pss, blp := list[i], 0;
      }
    }
    BitmaskMessage(messages, ssrc, pss, blp);
    PackedMore(Bitmask, messages, ssrc, pss, blp);
    messages := messages + [Body(ssrc, pss, blp)];
    assert list[..|list|] == list;
  }

  lemma NoneYet(list: seq<int>)
    ensures Covers(AllAsk(Bitmask, []), list[..0])
  {
  }

  lemma OffsetReaches(base: nat, x: nat)
    requires base < B32 && x < B32
    ensures (base + (x - base) % B32) % B32 == x
  {
  }

  /** Sending a list as bitmasks and receiving them asks for its numbers and no others. */
  method BitmaskRoundTrip(ssrc: u32, list: seq<int>) returns (asked: seq<int>)
    requires 0 < |list| && Words(list)
    ensures Covers(asked, list)
  {
    hide Covers, BitmaskAsks, Octets;
    var sent := SendBitmasks(ssrc, list);
    asked := [];
    assert AllAsk(Bitmask, sent[..0]) == [];
    for i := 0 to |sent|
      invariant asked == AllAsk(Bitmask, sent[..i])
    {
      OneMore(Bitmask, sent[..i], sent[i]);
      assert sent[..i] + [sent[i]] == sent[..i + 1];
      var more := Receive(Bitmask, sent[i]);
      asked := asked + more;
    }
    assert sent[..|sent|] == sent;
  }
}
