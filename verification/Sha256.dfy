/** contrib/sha256.c around its compression function, which is a parameter: everything
    here holds for any `Compress`. */
module Sha256 {

  import opened Bytes

  type State = s: seq<word> | |s| == 8 witness [0, 0, 0, 0, 0, 0, 0, 0]

  /** The role of `_librist_SHA256_Transform`: chaining state and 64-byte block to state. */
  type Compress = (State, seq<byte>) -> State

  function Step(f: Compress, s: State, block: seq<byte>): State {
    f(s, block)
  }

  const BLOCK: nat := 64
  const IV: State := [0x6a09e667, 0xbb67ae85, 0x3c6ef372, 0xa54ff53a,
                      0x510e527f, 0x9b05688c, 0x1f83d9ab, 0x5be0cd19]

  // ----- the one-shot hash of sections 5 and 6 of FIPS 180-4 -------------------

  /** Chain the compression function over the whole 64-byte blocks of `m`. */
  function Fold(f: Compress, s: State, m: seq<byte>): State
    decreases |m|
  {
    if |m| < BLOCK then s else Fold(f, Step(f, s, m[..BLOCK]), m[BLOCK..])
  }

  function Octet(n: nat, shift: nat): byte
    requires shift > 0
  {
    ((n / shift) % 256) as byte
  }

  const TWO64: nat := 0x1_0000_0000_0000_0000

  /** The 64-bit big-endian representation of `n`. */
  function Be64(n: nat): (b: seq<byte>)
    ensures |b| == 8
  {
    [Octet(n, 0x100_0000_0000_0000), Octet(n, 0x1_0000_0000_0000), Octet(n, 0x100_0000_0000), Octet(n, 0x1_0000_0000),
     Octet(n, 0x100_0000), Octet(n, 0x1_0000), Octet(n, 0x100), Octet(n, 1)]
  }

  /** The bytes are the number, most significant first. */
  lemma Be64Is(n: nat)
    requires n < TWO64
    ensures Value(Be64(n)) == n
  {
    hide Octet, Value;
    var b := Be64(n);
    Digit(b, 8, n, 1); Digit(b, 7, n, 0x100); Digit(b, 6, n, 0x1_0000); Digit(b, 5, n, 0x100_0000);
    Digit(b, 4, n, 0x1_0000_0000); Digit(b, 3, n, 0x100_0000_0000); Digit(b, 2, n, 0x1_0000_0000_0000);
    Digit(b, 1, n, 0x100_0000_0000_0000);
    NoDigits(b);
    Nested(n);
    assert b[..8] == b;
  }

  lemma NoDigits(b: seq<byte>)
    ensures Value(b[..0]) == 0
  {
  }

  lemma Digit(b: seq<byte>, i: nat, n: nat, shift: nat)
    requires 0 < i <= |b| && shift > 0 && b[i - 1] == Octet(n, shift)
    ensures Value(b[..i]) == 256 * Value(b[..i - 1]) + n / shift % 256
  {
    assert b[..i][..i - 1] == b[..i - 1];
    OctetIs(n, shift);
  }

  lemma OctetIs(n: nat, shift: nat)
    requires shift > 0
    ensures Octet(n, shift) as nat == n / shift % 256
  {
    AsByte(n / shift % 256);
  }

  lemma Nested(n: nat)
    requires n < TWO64
    ensures n / 1 == n / 0x100 * 256 + n / 1 % 256
    ensures n / 0x100 == n / 0x1_0000 * 256 + n / 0x100 % 256
    ensures n / 0x1_0000 == n / 0x100_0000 * 256 + n / 0x1_0000 % 256
    ensures n / 0x100_0000 == n / 0x1_0000_0000 * 256 + n / 0x100_0000 % 256
    ensures n / 0x1_0000_0000 == n / 0x100_0000_0000 * 256 + n / 0x1_0000_0000 % 256
    ensures n / 0x100_0000_0000 == n / 0x1_0000_0000_0000 * 256 + n / 0x100_0000_0000 % 256
    ensures n / 0x1_0000_0000_0000 == n / 0x100_0000_0000_0000 * 256 + n / 0x1_0000_0000_0000 % 256
    ensures n / 0x100_0000_0000_0000 == n / 0x100_0000_0000_0000 % 256
  {
    Nested0(n);
    Nested1(n);
    Nested2(n);
    Nested3(n);
    Nested4(n);
    Nested5(n);
    Nested6(n);
  }

  lemma Nested0(n: nat)
    ensures n / 1 == n / 0x100 * 256 + n / 1 % 256
  {
  }

  lemma Nested1(n: nat)
    ensures n / 0x100 == n / 0x1_0000 * 256 + n / 0x100 % 256
  {
  }

  lemma Nested2(n: nat)
    ensures n / 0x1_0000 == n / 0x100_0000 * 256 + n / 0x1_0000 % 256
  {
  }

  lemma Nested3(n: nat)
    ensures n / 0x100_0000 == n / 0x1_0000_0000 * 256 + n / 0x100_0000 % 256
  {
  }

  lemma Nested4(n: nat)
    ensures n / 0x1_0000_0000 == n / 0x100_0000_0000 * 256 + n / 0x1_0000_0000 % 256
  {
  }

  lemma Nested5(n: nat)
    ensures n / 0x100_0000_0000 == n / 0x1_0000_0000_0000 * 256 + n / 0x100_0000_0000 % 256
  {
  }

  lemma Nested6(n: nat)
    ensures n / 0x1_0000_0000_0000 == n / 0x100_0000_0000_0000 * 256 + n / 0x1_0000_0000_0000 % 256
  {
  }

  /** The first 32 bits of the fractional part of the square root of `p`. */
  predicate RootBits(h: word, p: nat, whole: nat) {
    var r := whole * 0x1_0000_0000 + h as nat;
    r * r <= p * 0x1_0000_0000_0000_0000 < (r + 1) * (r + 1)
  }

  /** Section 5.3.3 of FIPS 180-4: the chaining starts from the roots of the first primes. */
  lemma InitialState()
    ensures RootBits(IV[0], 2, 1) && RootBits(IV[1], 3, 1) && RootBits(IV[2], 5, 2) && RootBits(IV[3], 7, 2)
    ensures RootBits(IV[4], 11, 3) && RootBits(IV[5], 13, 3) && RootBits(IV[6], 17, 4) && RootBits(IV[7], 19, 4)
  {
    hide RootBits;
    Root(0x6a09e667, 2, 1); Root(0xbb67ae85, 3, 1); Root(0x3c6ef372, 5, 2); Root(0xa54ff53a, 7, 2);
    Root(0x510e527f, 11, 3); Root(0x9b05688c, 13, 3); Root(0x1f83d9ab, 17, 4); Root(0x5be0cd19, 19, 4);
  }

  lemma Root(h: word, p: nat, whole: nat)
    requires var r := whole * 0x1_0000_0000 + h as nat; r * r <= p * 0x1_0000_0000_0000_0000 < (r + 1) * (r + 1)
    ensures RootBits(h, p, whole)
  {
  }

  /** The number of zero bytes of section 5.1.1: the smallest that leaves room for eight
      more bytes at the end of a block. */
  function ZeroCount(n: nat): (k: nat)
    ensures (n + 1 + k + 8) % BLOCK == 0
    ensures k < BLOCK
  {
    (55 - n as int) % BLOCK
  }

  /** The 32-bit index of `SHA256_Update` stays below a length of 2^32 or more for ever. */
  lemma NeverEnds(i: nat, len: nat)
    requires i < 0x1_0000_0000 <= len
    ensures i < len && (i + 1) % 0x1_0000_0000 < len
  {
  }

  function Padding(n: nat): seq<byte> {
    [0x80] + Zeros(ZeroCount(n)) + Be64((8 * n) % 0x1_0000_0000_0000_0000)
  }

  function Digest(s: State): (d: seq<byte>)
    ensures |d| == 32
  {
    BeWords(s)
  }

  /** Four bytes of the digest are one word of the state, the most significant first. */
  lemma DigestIs(s: State, i: nat)
    requires i < 8
    ensures var d := Digest(s);
            (d[4 * i] as word << 24) | (d[4 * i + 1] as word << 16) | (d[4 * i + 2] as word << 8) | d[4 * i + 3] as word == s[i]
  {
    hide BeWord;
    BeWordsAt(s, i);
    var d, b := Digest(s), BeWord(s[i]);
    assert d[4 * i..4 * i + 4][0] == b[0] && d[4 * i..4 * i + 4][1] == b[1];
    assert d[4 * i..4 * i + 4][2] == b[2] && d[4 * i..4 * i + 4][3] == b[3];
    BeWordIs(s[i]);
  }

  function Hash(f: Compress, m: seq<byte>): (d: seq<byte>)
    ensures |d| == 32
  {
    Digest(Fold(f, IV, m + Padding(|m|)))
  }

  // ----- chaining --------------------------------------------------------------

  /** The whole blocks of a message, and what is left over. */
  function Whole(m: seq<byte>): (n: nat)
    ensures n <= |m| && n % BLOCK == 0 && |m| - n < BLOCK
  {
    |m| - |m| % BLOCK
  }

  lemma {:induction false} FoldAppend(f: Compress, s: State, a: seq<byte>, b: seq<byte>)
    requires |a| % BLOCK == 0
    ensures Fold(f, s, a + b) == Fold(f, Fold(f, s, a), b)
    decreases |a|
  {
    if |a| < BLOCK {
      assert a + b == b;
    } else {
      assert (a + b)[..BLOCK] == a[..BLOCK] && (a + b)[BLOCK..] == a[BLOCK..] + b;
      FoldAppend(f, Step(f, s, a[..BLOCK]), a[BLOCK..], b);
    }
  }

  lemma FoldBlock(f: Compress, s: State, b: seq<byte>)
    requires |b| == BLOCK
    ensures Fold(f, s, b) == Step(f, s, b)
  {
    assert b[..BLOCK] == b;
  }

  /** What a streaming context holds after the message `m`. */
  ghost predicate Fed(f: Compress, m: seq<byte>, state: State, rest: seq<byte>, bitlen: nat) {
    state == Fold(f, IV, m[..Whole(m)]) && rest == m[Whole(m)..] && bitlen == (8 * Whole(m)) % TWO64
  }

  /** One more byte: it joins the rest, or completes a block. */
  lemma FeedByte(f: Compress, m: seq<byte>, b: byte, state: State, rest: seq<byte>, bitlen: nat)
    requires Fed(f, m, state, rest, bitlen)
    ensures if |rest| + 1 == BLOCK then Fed(f, m + [b], Step(f, state, rest + [b]), [], (bitlen + 512) % TWO64)
            else Fed(f, m + [b], state, rest + [b], bitlen)
  {
    hide Fold, Whole;
    PushWhole(f, m, b);
    if |rest| + 1 == BLOCK {
      assert (m + [b])[Whole(m + [b])..] == [];
    }
  }

  // ----- the streaming context -------------------------------------------------

  class Context {
    const f: Compress
    const data: array<byte>
    var datalen: nat
    var bitlen: nat
    var state: State

    ghost predicate Valid()
      reads this, data
    {
      data.Length == BLOCK && datalen < BLOCK && bitlen < TWO64
    }

    /** The context has been fed exactly the bytes `m` since it was initialised. */
    ghost predicate Absorbed(m: seq<byte>)
      reads this, data
    {
      Valid() && Fed(f, m, state, data[..datalen], bitlen)
    }

    /** `_librist_SHA256_Init`. */
    constructor (f: Compress)
      ensures this.f == f && fresh(data) && Absorbed([])
    {
      this.f, data := f, new byte[BLOCK](_ => 0);
      datalen, bitlen, state := 0, 0, IV;
    }

    /** The assignment of one context to another, by value. */
    constructor Copy(c: Context)
      requires c.Valid()
      ensures f == c.f && fresh(data) && Valid()
      ensures datalen == c.datalen && bitlen == c.bitlen && state == c.state && data[..] == c.data[..]
    {
      f, data := c.f, new byte[BLOCK](i requires 0 <= i < BLOCK && c.data.Length == BLOCK reads c.data => c.data[i]);
      datalen, bitlen, state := c.datalen, c.bitlen, c.state;
    }

    /** `_librist_SHA256_Transform` on the context's own state. */
    method Transform(block: seq<byte>)
      requires |block| == BLOCK
      modifies this`state
      ensures state == Step(f, old(state), block)
    {
      state := f(state, block);
    }

    /** One step of the update loop. */
    method Push(b: byte, ghost m: seq<byte>)
      requires Absorbed(m)
      modifies this, data
      ensures Absorbed(m + [b])
    {
      hide Fed, Step;
      FeedByte(f, m, b, state, data[..datalen], bitlen);
      ghost var rest := data[..datalen];
      data[datalen] := b;
      datalen := datalen + 1;
      assert data[..datalen] == rest + [b];
      if datalen == BLOCK {
        assert data[..] == data[..datalen];
        Transform(data[..]);
        bitlen := (bitlen + 512) % TWO64;
        datalen := 0;
        assert data[..0] == [];
      }
    }

    /** `_librist_SHA256_Update`; its loop counter has 32 bits. */
    method Update(bytes: seq<byte>, ghost m: seq<byte>)
      requires Absorbed(m) && |bytes| < 0x1_0000_0000
      modifies this, data
      ensures Absorbed(m + bytes)
    {
      assert m + bytes[..0] == m;
      for i := 0 to |bytes|
        invariant Absorbed(m + bytes[..i])
      {
        Push(bytes[i], m + bytes[..i]);
        assert m + bytes[..i] + [bytes[i]] == m + bytes[..i + 1];
      }
      assert bytes[..|bytes|] == bytes;
    }

    /** The padding of a rest that leaves room for the length: `0x80` and zeros to 56. */
    method PadShort()
      requires Valid() && datalen < 56
      modifies data
      ensures data[..56] == old(data[..datalen]) + [0x80] + Zeros(55 - datalen)
    {
      var i := datalen;
      data[i] := 0x80;
      i := i + 1;
      while i < 56
        invariant datalen < i <= 56 && data[..i] == old(data[..datalen]) + [0x80] + Zeros(i - datalen - 1)
      {
        data[i] := 0x00;
        i := i + 1;
        assert Zeros(i - datalen - 1) == Zeros(i - datalen - 2) + [0];
      }
    }

    /** The padding of a longer rest: it fills the block, the length goes into the next. */
    method PadLong()
      requires Valid() && 56 <= datalen
      modifies this`state, data
      ensures state == Step(f, old(state), old(data[..datalen]) + [0x80] + Zeros(63 - datalen))
      ensures data[..56] == Zeros(56)
    {
      var i := datalen;
      data[i] := 0x80;
      i := i + 1;
      while i < 64
        invariant state == old(state)
        invariant datalen < i <= 64 && data[..i] == old(data[..datalen]) + [0x80] + Zeros(i - datalen - 1)
      {
        data[i] := 0x00;
        i := i + 1;
        assert Zeros(i - datalen - 1) == Zeros(i - datalen - 2) + [0];
      }
      ghost var first := data[..];
      assert first == data[..64] == old(data[..datalen]) + [0x80] + Zeros(63 - datalen);
      Transform(data[..]);
      forall k | 0 <= k < 56 { data[k] := 0; }
      assert data[..56] == Zeros(56);
    }

    /** The message length in bits, at the end of the block. */
    method PutLength()
      requires Valid()
      modifies data
      ensures data[..] == old(data[..56]) + Be64(bitlen)
    {
      hide Octet;
      data[63] := Octet(bitlen, 1);
      data[62] := Octet(bitlen, 0x100);
      data[61] := Octet(bitlen, 0x1_0000);
      data[60] := Octet(bitlen, 0x100_0000);
      data[59] := Octet(bitlen, 0x1_0000_0000);
      data[58] := Octet(bitlen, 0x100_0000_0000);
      data[57] := Octet(bitlen, 0x1_0000_0000_0000);
      data[56] := Octet(bitlen, 0x100_0000_0000_0000);
      LastEight(old(data[..]), data[..], Be64(bitlen));
    }

    /** The last chaining step, given the padded start of the last block. */
    method Finish()
      requires Valid()
      modifies this`bitlen, this`state, data
      ensures Valid() && bitlen == old((bitlen + 8 * datalen) % TWO64)
      ensures state == Step(f, old(state), old(data[..56]) + Be64(bitlen))
    {
      hide Be64;
      bitlen := (bitlen + 8 * datalen) % TWO64;
      PutLength();
      Transform(data[..]);
    }

    /** `_librist_SHA256_Final`: the digest of everything absorbed, whatever the rest. */
    method Final(ghost m: seq<byte>) returns (hash: seq<byte>)
      requires Absorbed(m)
      modifies this`bitlen, this`state, data
      ensures Valid() && hash == Hash(f, m) && state == Fold(f, IV, m + Padding(|m|))
    {
      hide Be64, Digest, Fold, Padding;
      ghost var chained := state;
      BitLength(m);
      if datalen < 56 {
        PadShort();
      } else {
        PadLong();
      }
      PaddedRest(f, m, data[..56], chained, state);
      Finish();
      hash := Digest(state);
    }
  }

  /** A block with its last eight bytes replaced. */
  lemma LastEight(was: seq<byte>, block: seq<byte>, b: seq<byte>)
    requires |was| == |block| == BLOCK && |b| == 8 && forall k :: 0 <= k < 56 ==> block[k] == was[k]
    requires block[56] == b[0] && block[57] == b[1] && block[58] == b[2] && block[59] == b[3]
    requires block[60] == b[4] && block[61] == b[5] && block[62] == b[6] && block[63] == b[7]
    ensures block == was[..56] + b
  {
    var r := was[..56] + b;
    forall k | 0 <= k < BLOCK ensures block[k] == r[k] {
      if k >= 56 {
        assert r[k] == b[k - 56];
      }
    }
  }

  lemma BitLength(m: seq<byte>)
    ensures ((8 * Whole(m)) % TWO64 + 8 * (|m| - Whole(m))) % TWO64 == (8 * |m|) % TWO64
  {
  }

  /** The one or two blocks that the rest of a message and its padding make up. */
  lemma PaddedRest(f: Compress, m: seq<byte>, head: seq<byte>, chained: State, before: State)
    requires chained == Fold(f, IV, m[..Whole(m)])
    requires var rest := m[Whole(m)..];
             if |rest| < 56 then before == chained && head == rest + [0x80] + Zeros(55 - |rest|)
             else before == Step(f, chained, rest + [0x80] + Zeros(63 - |rest|)) && head == Zeros(56)
    ensures Step(f, before, head + Be64((8 * |m|) % TWO64)) == Fold(f, IV, m + Padding(|m|))
  {
    hide Be64, Fold, Step;
    var rest, len := m[Whole(m)..], Be64((8 * |m|) % TWO64);
    assert m + Padding(|m|) == m[..Whole(m)] + (rest + Padding(|m|));
    FoldAppend(f, IV, m[..Whole(m)], rest + Padding(|m|));
    if |rest| < 56 {
      assert rest + Padding(|m|) == head + len;
    } else {
      var first := rest + [0x80] + Zeros(63 - |rest|);
      assert rest + Padding(|m|) == first + (head + len);
      FoldAppend(f, chained, first, head + len);
      FoldBlock(f, chained, first);
    }
    FoldBlock(f, before, head + len);
  }

  /** Every way of cutting a message into updates is the one-shot hash. */
  method HashInPieces(f: Compress, pieces: seq<seq<byte>>) returns (hash: seq<byte>)
    requires forall i :: 0 <= i < |pieces| ==> |pieces[i]| < 0x1_0000_0000
    ensures hash == Hash(f, Concat(pieces))
  {
    var c := new Context(f);
    for i := 0 to |pieces|
      invariant c.Absorbed(Concat(pieces[..i])) && fresh(c) && fresh(c.data) && c.f == f
    {
      c.Update(pieces[i], Concat(pieces[..i]));
      ConcatLast(pieces, i);
    }
    assert pieces[..|pieces|] == pieces;
    hash := c.Final(Concat(pieces));
  }

  ghost function Concat(pieces: seq<seq<byte>>): seq<byte> {
    if pieces == [] then [] else Concat(pieces[..|pieces| - 1]) + pieces[|pieces| - 1]
  }

  lemma ConcatLast(pieces: seq<seq<byte>>, i: nat)
    requires i < |pieces|
    ensures Concat(pieces[..i + 1]) == Concat(pieces[..i]) + pieces[i]
  {
    assert pieces[..i + 1][..i] == pieces[..i];
  }

  /** How the whole blocks and the rest of a message grow by one byte. */
  lemma WholeGrows(m: seq<byte>, b: byte)
    ensures if |m| - Whole(m) + 1 == BLOCK then Whole(m + [b]) == |m| + 1 else Whole(m + [b]) == Whole(m)
  {
  }

  lemma BitsGrow(n: nat)
    ensures ((8 * n) % TWO64 + 512) % TWO64 == (8 * (n + BLOCK)) % TWO64
  {
  }

  lemma PushWhole(f: Compress, m: seq<byte>, b: byte)
    ensures var r := m[Whole(m)..] + [b];
            if |r| == BLOCK
            then Whole(m + [b]) == |m + [b]| == Whole(m) + BLOCK
                 && ((8 * Whole(m)) % TWO64 + 512) % TWO64 == (8 * Whole(m + [b])) % TWO64
                 && Fold(f, IV, (m + [b])[..Whole(m + [b])]) == Step(f, Fold(f, IV, m[..Whole(m)]), r)
            else Whole(m + [b]) == Whole(m) && (m + [b])[..Whole(m)] == m[..Whole(m)] && (m + [b])[Whole(m)..] == r
  {
    hide Fold, Whole, Step;
    var r := m[Whole(m)..] + [b];
    WholeGrows(m, b);
    BitsGrow(Whole(m));
    if |r| == BLOCK {
      assert m + [b] == m[..Whole(m)] + r;
      assert (m + [b])[..|m| + 1] == m + [b];
      FoldAppend(f, IV, m[..Whole(m)], r);
      FoldBlock(f, Fold(f, IV, m[..Whole(m)]), r);
    }
  }
}
