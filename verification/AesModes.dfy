/** The CBC and CTR modes of contrib/aes.c, sections 6.2 and 6.5 of NIST SP 800-38A. */
module AesModes {
  import opened Arith
  import opened Bytes
  import opened Aes

  const BLOCKSZ: nat := 16

  // ----- the counter -------------------------------------------------------------

  function Pow256(n: nat): (p: nat)
    ensures p > 0
  {
    if n == 0 then 1 else 256 * Pow256(n - 1)
  }

  lemma IncrementByte(b: byte)
    ensures (b + 1) as nat == if b == 0xff then 0 else b as nat + 1
    ensures b + 1 == 0 <==> b == 0xff
  {
  }

  /** Add one, modulo the range of the string. */
  function Increment(s: seq<byte>): (r: seq<byte>)
    ensures |r| == |s|
  {
    if s == [] then []
    else if s[|s| - 1] != 0xff then s[..|s| - 1] + [s[|s| - 1] + 1]
    else Increment(s[..|s| - 1]) + [0]
  }

  lemma {:induction false} ValueBound(s: seq<byte>)
    ensures Value(s) < Pow256(|s|)
  {
    if s != [] { ValueBound(s[..|s| - 1]); }
  }

  lemma ValueSnoc(s: seq<byte>, b: byte)
    ensures Value(s + [b]) == 256 * Value(s) + b as nat
  {
    assert (s + [b])[..|s|] == s;
  }

  /** A carry: the last byte wraps, the rest is incremented. */
  lemma CarryStep(v: nat, p: nat)
    requires v < p
    ensures 256 * ((v + 1) % p) == (256 * v + 256) % (256 * p)
  {
    if v + 1 == p {
      ModUnique(256 * v + 256, 1, 0, 256 * p);
      ModUnique(v + 1, 1, 0, p);
    } else {
      ModUnique(256 * v + 256, 0, 256 * v + 256, 256 * p);
      ModUnique(v + 1, 0, v + 1, p);
    }
  }

  /** Incrementing the bytes is adding one to the number. */
  lemma {:induction false} IncrementAddsOne(s: seq<byte>)
    ensures Value(Increment(s)) == (Value(s) + 1) % Pow256(|s|)
  {
    if s != [] {
      var t, b := s[..|s| - 1], s[|s| - 1];
      IncrementByte(b);
      ValueBound(t);
      if b != 0xff {
        ValueSnoc(t, b + 1);
        ModUnique(Value(s) + 1, 0, Value(s) + 1, Pow256(|s|));
      } else {
        IncrementAddsOne(t);
        ValueSnoc(Increment(t), 0);
        CarryStep(Value(t), Pow256(|t|));
      }
    }
  }

  /** The bytes behind `idx` were all 0xff and have wrapped; the carry is at `idx`. */
  ghost predicate Carrying(now: seq<byte>, was: seq<byte>, lo: nat, idx: int) {
    && |now| == |was| && lo - 1 <= idx < |was|
    && now[..idx + 1] == was[..idx + 1] && now[idx + 1..] == Zeros(|was| - 1 - idx)
    && Increment(was[lo..]) == Increment(was[lo..idx + 1]) + Zeros(|was| - 1 - idx)
  }

  lemma CarryStarts(was: seq<byte>, lo: nat)
    requires lo <= |was|
    ensures Carrying(was, was, lo, |was| - 1)
  {
    assert was[lo..|was| - 1 + 1] == was[lo..] && was[|was|..] == Zeros(0) == [];
    assert Increment(was[lo..]) == Increment(was[lo..]) + Zeros(0);
  }

  lemma CarryStops(now: seq<byte>, was: seq<byte>, lo: nat, idx: nat)
    requires Carrying(now, was, lo, idx) && lo <= idx && (was[idx] + 1 != 0 || idx == lo)
    ensures now[idx := was[idx] + 1] == was[..lo] + Increment(was[lo..])
  {
    var next := now[idx := was[idx] + 1];
    IncrementByte(was[idx]);
    IncrementLast(was, lo, idx);
    assert next == now[..idx + 1][..idx] + [was[idx] + 1] + now[idx + 1..];
    assert was[..idx + 1][..idx] == was[..lo] + was[lo..idx];
  }

  lemma CarryGoesOn(now: seq<byte>, was: seq<byte>, lo: nat, idx: nat)
    requires Carrying(now, was, lo, idx) && lo < idx && was[idx] + 1 == 0
    ensures Carrying(now[idx := was[idx] + 1], was, lo, idx - 1)
  {
    var next := now[idx := was[idx] + 1];
    IncrementByte(was[idx]);
    IncrementLast(was, lo, idx);
    ZerosCons(|was| - 1 - idx);
    assert next[..idx] == now[..idx + 1][..idx] == was[..idx + 1][..idx] == was[..idx];
    assert next[idx..] == [0] + now[idx + 1..];
    assert Increment(was[lo..idx]) + [0] + Zeros(|was| - 1 - idx) == Increment(was[lo..idx]) + ([0] + Zeros(|was| - 1 - idx));
  }

  /** `increment_iv`: the last `counterSize` bytes are incremented as one number. */
  method IncrementIv(iv: array<byte>, counterSize: nat)
    requires iv.Length == BLOCKSZ && counterSize <= BLOCKSZ
    modifies iv
    ensures iv[..] == old(iv[..BLOCKSZ - counterSize]) + Increment(old(iv[BLOCKSZ - counterSize..]))
  {
    hide Carrying, Increment;
    ghost var was, lo := iv[..], BLOCKSZ - counterSize;
    CarryStarts(was, lo);
    NothingToIncrement(was);
    var idx := BLOCKSZ - 1;
    while idx >= BLOCKSZ - counterSize
      invariant lo - 1 <= idx < BLOCKSZ && (idx >= lo || counterSize == 0)
      invariant Carrying(iv[..], was, lo, idx) && (idx >= 0 ==> iv[idx] == was[idx])
      invariant counterSize == 0 ==> iv[..] == was
    {
      ghost var now := iv[..];
      iv[idx] := iv[idx] + 1;
      assert iv[..] == now[idx := was[idx] + 1];
      if iv[idx] != 0 || idx == BLOCKSZ - counterSize {
        CarryStops(now, was, lo, idx);
        break;
      }
      CarryGoesOn(now, was, lo, idx);
      idx := idx - 1;
      CarryHere(iv[..], was, lo, idx);
    }
  }

  lemma NothingToIncrement(was: seq<byte>)
    ensures was == was[..|was|] + Increment(was[|was|..])
  {
  }

  lemma CarryHere(now: seq<byte>, was: seq<byte>, lo: nat, idx: nat)
    requires Carrying(now, was, lo, idx)
    ensures now[idx] == was[idx]
  {
    assert now[..idx + 1][idx] == was[..idx + 1][idx];
  }

  lemma ZerosCons(n: nat)
    ensures [0] + Zeros(n) == Zeros(n + 1)
  {
  }

  lemma IncrementLast(was: seq<byte>, lo: nat, idx: nat)
    requires lo <= idx < |was|
    ensures was[idx] != 0xff ==> Increment(was[lo..idx + 1]) == was[lo..idx] + [was[idx] + 1]
    ensures was[idx] == 0xff ==> Increment(was[lo..idx + 1]) == Increment(was[lo..idx]) + [0]
  {
    assert was[lo..idx + 1][..idx - lo] == was[lo..idx];
  }

  // ----- counter mode --------------------------------------------------------------

  /** `n` bytes of key stream from the counter block `iv` on. */
  function KeyStream(key: seq<word>, keysize: int, iv: seq<byte>, n: nat): (k: seq<byte>)
    requires |iv| == BLOCKSZ && 4 * EncryptRounds(keysize) + 4 <= |key|
    ensures |k| == n
    decreases n
  {
    hide Encrypted;
    if n <= BLOCKSZ then Encrypted(iv, key, keysize)[..n]
    else Encrypted(iv, key, keysize) + KeyStream(key, keysize, Increment(iv), n - BLOCKSZ)
  }

  /** The counter block after `i` increments. */
  function CounterBlock(iv: seq<byte>, i: nat): (c: seq<byte>)
    ensures |c| == |iv|
  {
    if i == 0 then iv else Increment(CounterBlock(iv, i - 1))
  }

  lemma AddModStep(a: nat, p: nat)
    requires p > 0
    ensures (a % p + 1) % p == (a + 1) % p
  {
    DivMod(a, p);
    if a % p + 1 == p {
      CompleteTurn(a / p, p);
      ModUnique(a + 1, a / p + 1, 0, p);
      ModUnique(a % p + 1, 1, 0, p);
    } else {
      ModUnique(a + 1, a / p, a % p + 1, p);
      ModUnique(a % p + 1, 0, a % p + 1, p);
    }
  }

  lemma CompleteTurn(q: int, p: int)
    ensures q * p + p == (q + 1) * p
  {
  }

  /** Counter blocks count: block `i` is the first one plus `i`, modulo 2^128. */
  lemma {:induction false} CounterCounts(iv: seq<byte>, i: nat)
    ensures Value(CounterBlock(iv, i)) == (Value(iv) + i) % Pow256(|iv|)
  {
    hide Value, Increment, Pow256;
    if i == 0 {
      ValueBound(iv);
      ModUnique(Value(iv), 0, Value(iv), Pow256(|iv|));
    } else {
      CounterCounts(iv, i - 1);
      IncrementAddsOne(CounterBlock(iv, i - 1));
      AddModStep(Value(iv) + i - 1, Pow256(|iv|));
    }
  }

  /** Byte `j` of the key stream comes from counter block `j / 16`. */
  lemma {:induction false} KeyStreamAt(key: seq<word>, keysize: int, iv: seq<byte>, n: nat, j: nat)
    requires |iv| == BLOCKSZ && 4 * EncryptRounds(keysize) + 4 <= |key| && j < n
    ensures KeyStream(key, keysize, iv, n)[j] == Encrypted(CounterBlock(iv, j / BLOCKSZ), key, keysize)[j % BLOCKSZ]
    decreases n
  {
    hide Encrypted;
    if n > BLOCKSZ && j >= BLOCKSZ {
      KeyStreamAt(key, keysize, Increment(iv), n - BLOCKSZ, j - BLOCKSZ);
      CounterShift(iv, j / BLOCKSZ - 1);
    }
  }

  lemma {:induction false} CounterShift(iv: seq<byte>, i: nat)
    ensures CounterBlock(Increment(iv), i) == CounterBlock(iv, i + 1)
  {
    if i > 0 { CounterShift(iv, i - 1); }
  }

  function Ctr(m: seq<byte>, key: seq<word>, keysize: int, iv: seq<byte>): (c: seq<byte>)
    requires |iv| == BLOCKSZ && 4 * EncryptRounds(keysize) + 4 <= |key|
    ensures |c| == |m|
  {
    Xor(m, KeyStream(key, keysize, iv, |m|))
  }

  lemma XorTwiceSeq(a: seq<byte>, b: seq<byte>)
    requires |a| == |b|
    ensures Xor(Xor(a, b), b) == a
  {
    hide Xor;
    forall i | 0 <= i < |a| ensures Xor(Xor(a, b), b)[i] == a[i] { XorTwice(a[i], b[i]); }
  }

  /** Counter mode is its own inverse, for any length. */
  lemma CtrInvolution(m: seq<byte>, key: seq<word>, keysize: int, iv: seq<byte>)
    requires |iv| == BLOCKSZ && 4 * EncryptRounds(keysize) + 4 <= |key|
    ensures Ctr(Ctr(m, key, keysize, iv), key, keysize, iv) == m
  {
    hide KeyStream;
    XorTwiceSeq(m, KeyStream(key, keysize, iv, |m|));
  }

  /** `xor_buf`, at an offset of the output. */
  method XorBuf(input: seq<byte>, out: array<byte>, at: nat, len: nat)
    requires at + len <= out.Length && len <= |input|
    modifies out
    ensures out[at..at + len] == Xor(old(out[at..at + len]), input[..len])
    ensures out[..at] == old(out[..at]) && out[at + len..] == old(out[at + len..])
  {
    for idx := 0 to len
      invariant forall p :: at <= p < at + idx ==> out[p] == old(out[p]) ^ input[p - at]
      invariant forall p :: 0 <= p < at || at + idx <= p < out.Length ==> out[p] == old(out[p])
    {
      out[at + idx] := out[at + idx] ^ input[idx];
    }
    hide Xor;
    ghost var got, want := out[at..at + len], Xor(old(out[at..at + len]), input[..len]);
    forall i | 0 <= i < len ensures got[i] == want[i] {
      var p := at + i;
      assert out[p] == old(out[p]) ^ input[p - at];
    }
  }

  /** The first `idx` bytes are enciphered, the counter is where the rest needs it. */
  ghost predicate Streaming(now: seq<byte>, m: seq<byte>, ks: seq<byte>, rest: seq<byte>, idx: nat) {
    && idx <= |m| == |now| == |ks|
    && now[..idx] == Xor(m[..idx], ks[..idx]) && now[idx..] == m[idx..] && ks[idx..] == rest
  }

  lemma StreamStep(now: seq<byte>, next: seq<byte>, m: seq<byte>, ks: seq<byte>, rest: seq<byte>, idx: nat, len: nat)
    requires Streaming(now, m, ks, rest, idx) && idx + len <= |m| == |next|
    requires next[..idx] == now[..idx] && next[idx + len..] == now[idx + len..]
    requires next[idx..idx + len] == Xor(now[idx..idx + len], rest[..len])
    ensures Streaming(next, m, ks, rest[len..], idx + len)
  {
    hide Xor;
    assert now[idx..idx + len] == now[idx..][..len] == m[idx..][..len] == m[idx..idx + len];
    assert next[..idx + len] == next[..idx] + next[idx..idx + len];
    assert m[..idx + len] == m[..idx] + m[idx..idx + len];
    assert ks[..idx + len] == ks[..idx] + ks[idx..][..len];
    XorAppend(m[..idx], ks[..idx], m[idx..idx + len], rest[..len]);
    assert next[idx + len..] == now[idx..][len..] == m[idx..][len..] == m[idx + len..];
    assert ks[idx + len..] == ks[idx..][len..];
  }

  /** `aes_encrypt_ctr`; the output may be the input buffer itself. */
  method EncryptCtr(input: array<byte>, out: array<byte>, key: seq<word>, keysize: int, iv: seq<byte>)
    requires out.Length == input.Length && |iv| == BLOCKSZ && 4 * EncryptRounds(keysize) + 4 <= |key|
    modifies out
    ensures out[..] == Ctr(old(input[..]), key, keysize, iv)
  {
    hide KeyStream, Encrypted, Streaming, Xor, Increment;
    ghost var m, ks := input[..], KeyStream(key, keysize, iv, input.Length);
    if input != out {
      forall i | 0 <= i < out.Length { out[i] := input[i]; }
    }
    assert out[..] == m;
    var ivBuf := new byte[BLOCKSZ](i requires 0 <= i < BLOCKSZ == |iv| => iv[i]);
    assert ivBuf[..] == iv;
    var idx := 0;
    StreamStarts(m, ks);
    if input.Length > BLOCKSZ {
      while idx < input.Length - BLOCKSZ
        invariant 0 <= idx < input.Length && fresh(ivBuf)
        invariant Streaming(out[..], m, ks, KeyStream(key, keysize, ivBuf[..], input.Length - idx), idx)
      {
        ghost var now := out[..];
        var outBuf := Encrypt(ivBuf[..], key, keysize);
        KeyStreamSplit(key, keysize, ivBuf[..], input.Length - idx);
        XorBuf(outBuf, out, idx, BLOCKSZ);
        StreamStep(now, out[..], m, ks, KeyStream(key, keysize, ivBuf[..], input.Length - idx), idx, BLOCKSZ);
        ghost var c := ivBuf[..];
        assert c[BLOCKSZ - BLOCKSZ..] == c;
        IncrementIv(ivBuf, BLOCKSZ);
        assert ivBuf[..] == Increment(c);
        idx := idx + BLOCKSZ;
      }
    }
    ghost var now := out[..];
    var outBuf := Encrypt(ivBuf[..], key, keysize);
    KeyStreamSplit(key, keysize, ivBuf[..], input.Length - idx);
    XorBuf(outBuf, out, idx, input.Length - idx);
    StreamStep(now, out[..], m, ks, outBuf[..input.Length - idx], idx, input.Length - idx);
    StreamEnds(out[..], m, ks, idx);
  }

  lemma StreamStarts(m: seq<byte>, ks: seq<byte>)
    requires |m| == |ks|
    ensures Streaming(m, m, ks, ks, 0)
  {
  }

  lemma StreamEnds(now: seq<byte>, m: seq<byte>, ks: seq<byte>, idx: nat)
    requires idx <= |m| && Streaming(now, m, ks, [], |m|)
    ensures now == Xor(m, ks)
  {
    assert now[..|m|] == now && m[..|m|] == m && ks[..|m|] == ks;
  }

  lemma KeyStreamSplit(key: seq<word>, keysize: int, iv: seq<byte>, n: nat)
    requires |iv| == BLOCKSZ && 4 * EncryptRounds(keysize) + 4 <= |key|
    ensures var k := KeyStream(key, keysize, iv, n); var e := Encrypted(iv, key, keysize);
            if n <= BLOCKSZ then k == e[..n] && k[..n] == e[..n] && k[n..] == []
            else k[..BLOCKSZ] == e[..BLOCKSZ] && k[BLOCKSZ..] == KeyStream(key, keysize, Increment(iv), n - BLOCKSZ)
  {
    hide Encrypted, Increment;
  }

  /** `aes_decrypt_ctr`. */
  method DecryptCtr(input: array<byte>, out: array<byte>, key: seq<word>, keysize: int, iv: seq<byte>)
    requires out.Length == input.Length && |iv| == BLOCKSZ && 4 * EncryptRounds(keysize) + 4 <= |key|
    modifies out
    ensures out[..] == Ctr(old(input[..]), key, keysize, iv)
  {
    EncryptCtr(input, out, key, keysize, iv);
  }

  // ----- cipher block chaining ---------------------------------------------------

  /** The message is `n` whole blocks. */
  predicate Blocks(m: seq<byte>, n: nat) {
    |m| == BLOCKSZ * n
  }

  function CbcEncrypt(m: seq<byte>, n: nat, key: seq<word>, keysize: int, iv: seq<byte>): (c: seq<byte>)
    requires Blocks(m, n) && |iv| == BLOCKSZ && 4 * EncryptRounds(keysize) + 4 <= |key|
    ensures |c| == |m|
    decreases n
  {
    hide Encrypted, Xor;
    if n == 0 then []
    else
      var b := Encrypted(Xor(m[..BLOCKSZ], iv), key, keysize);
      b + CbcEncrypt(m[BLOCKSZ..], n - 1, key, keysize, b)
  }

  function CbcDecrypt(c: seq<byte>, n: nat, key: seq<word>, keysize: int, iv: seq<byte>): (m: seq<byte>)
    requires Blocks(c, n) && |iv| == BLOCKSZ && 4 * DecryptRounds(keysize) + 4 <= |key|
    ensures |m| == |c|
    decreases n
  {
    hide Decrypted, Xor;
    if n == 0 then []
    else Xor(Decrypted(c[..BLOCKSZ], key, keysize), iv) + CbcDecrypt(c[BLOCKSZ..], n - 1, key, keysize, c[..BLOCKSZ])
  }

  /** CBC decryption inverts CBC encryption, for any number of blocks. */
  lemma {:induction false} CbcInverts(m: seq<byte>, n: nat, key: seq<word>, keysize: int, iv: seq<byte>)
    requires Blocks(m, n) && |iv| == BLOCKSZ && 4 * EncryptRounds(keysize) + 4 <= |key|
    requires keysize == 128 || keysize >= 192
    ensures 4 * DecryptRounds(keysize) + 4 <= |key|
    ensures CbcDecrypt(CbcEncrypt(m, n, key, keysize, iv), n, key, keysize, iv) == m
    decreases n
  {
    hide Encrypted, Decrypted, Xor;
    RoundsAgree(keysize);
    if n > 0 {
      var x := Xor(m[..BLOCKSZ], iv);
      var b := Encrypted(x, key, keysize);
      var rest := CbcEncrypt(m[BLOCKSZ..], n - 1, key, keysize, b);
      DecryptInvertsEncrypt(x, key, keysize);
      XorTwiceSeq(m[..BLOCKSZ], iv);
      CbcInverts(m[BLOCKSZ..], n - 1, key, keysize, b);
      assert (b + rest)[..BLOCKSZ] == b && (b + rest)[BLOCKSZ..] == rest;
      assert m == m[..BLOCKSZ] + m[BLOCKSZ..];
    }
  }

  /** Store output block `idx`; the input behind it is not disturbed, even in place. */
  method PutBlock(input: array<byte>, out: array<byte>, idx: nat, block: seq<byte>)
    requires |block| == BLOCKSZ && BLOCKSZ * (idx + 1) <= out.Length == input.Length
    modifies out
    ensures out[..BLOCKSZ * (idx + 1)] == old(out[..BLOCKSZ * idx]) + block
    ensures input[BLOCKSZ * (idx + 1)..] == old(input[BLOCKSZ * (idx + 1)..])
  {
    var at := BLOCKSZ * idx;
    forall i | at <= i < at + BLOCKSZ { out[i] := block[i - at]; }
    assert out[..at] == old(out[..at]) && out[at..at + BLOCKSZ] == block;
    assert out[..at + BLOCKSZ] == out[..at] + out[at..at + BLOCKSZ];
  }

  /** What is stored, followed by the chaining of the rest, is the chaining of the whole. */
  ghost predicate Enciphering(done: seq<byte>, m: seq<byte>, n: nat, key: seq<word>, keysize: int,
                              iv: seq<byte>, ivNow: seq<byte>, idx: nat)
    requires Blocks(m, n) && |iv| == |ivNow| == BLOCKSZ && idx <= n && 4 * EncryptRounds(keysize) + 4 <= |key|
  {
    done + CbcEncrypt(m[BLOCKSZ * idx..], n - idx, key, keysize, ivNow) == CbcEncrypt(m, n, key, keysize, iv)
  }

  lemma EncipherStep(done: seq<byte>, m: seq<byte>, n: nat, key: seq<word>, keysize: int,
                     iv: seq<byte>, ivNow: seq<byte>, idx: nat)
    requires Blocks(m, n) && |iv| == |ivNow| == BLOCKSZ && idx < n && 4 * EncryptRounds(keysize) + 4 <= |key|
    requires Enciphering(done, m, n, key, keysize, iv, ivNow, idx)
    ensures var b := Encrypted(Xor(m[BLOCKSZ * idx..][..BLOCKSZ], ivNow), key, keysize);
            Enciphering(done + b, m, n, key, keysize, iv, b, idx + 1)
  {
    hide Encrypted, Xor;
    var rest := m[BLOCKSZ * idx..];
    var b := Encrypted(Xor(rest[..BLOCKSZ], ivNow), key, keysize);
    assert rest[BLOCKSZ..] == m[BLOCKSZ * (idx + 1)..];
    var tail := CbcEncrypt(rest[BLOCKSZ..], n - idx - 1, key, keysize, b);
    assert done + (b + tail) == done + b + tail;
  }

  /** `aes_encrypt_cbc`: false, and nothing written, unless the length is whole blocks. */
  method EncryptCbc(input: array<byte>, out: array<byte>, key: seq<word>, keysize: int, iv: seq<byte>) returns (ok: bool)
    requires out.Length == input.Length && |iv| == BLOCKSZ && 4 * EncryptRounds(keysize) + 4 <= |key|
    modifies out
    ensures ok == (input.Length % BLOCKSZ == 0)
    ensures ok ==> out[..] == CbcEncrypt(old(input[..]), input.Length / BLOCKSZ, key, keysize, iv)
    ensures !ok ==> out[..] == old(out[..])
  {
    hide Encrypted, Xor, CbcEncrypt;
    if input.Length % BLOCKSZ != 0 { return false; }
    ghost var m := input[..];
    var n := input.Length / BLOCKSZ;
    var ivBuf := iv;
    EncipherStarts(m, n, key, keysize, iv);
    for idx := 0 to n
      invariant |ivBuf| == BLOCKSZ && input[BLOCKSZ * idx..] == m[BLOCKSZ * idx..]
      invariant Enciphering(out[..BLOCKSZ * idx], m, n, key, keysize, iv, ivBuf, idx)
    {
      hide Enciphering;
      EncipherStep(out[..BLOCKSZ * idx], m, n, key, keysize, iv, ivBuf, idx);
      assert input[BLOCKSZ * (idx + 1)..] == input[BLOCKSZ * idx..][BLOCKSZ..] == m[BLOCKSZ * (idx + 1)..];
      var bufIn := Xor(input[BLOCKSZ * idx..][..BLOCKSZ], ivBuf);
      ivBuf := Encrypt(bufIn, key, keysize);
      PutBlock(input, out, idx, ivBuf);
    }
    EncipherEnds(out[..BLOCKSZ * n], m, n, key, keysize, iv, ivBuf);
    ok := true;
  }

  lemma EncipherStarts(m: seq<byte>, n: nat, key: seq<word>, keysize: int, iv: seq<byte>)
    requires Blocks(m, n) && |iv| == BLOCKSZ && 4 * EncryptRounds(keysize) + 4 <= |key|
    ensures Enciphering([], m, n, key, keysize, iv, iv, 0)
  {
    hide CbcEncrypt;
    assert m[BLOCKSZ * 0..] == m;
  }

  lemma EncipherEnds(done: seq<byte>, m: seq<byte>, n: nat, key: seq<word>, keysize: int, iv: seq<byte>, ivNow: seq<byte>)
    requires Blocks(m, n) && |iv| == |ivNow| == BLOCKSZ && 4 * EncryptRounds(keysize) + 4 <= |key|
    requires Enciphering(done, m, n, key, keysize, iv, ivNow, n)
    ensures done == CbcEncrypt(m, n, key, keysize, iv)
  {
    hide Encrypted, Xor;
    assert done + [] == done;
  }

  ghost predicate Deciphering(done: seq<byte>, c: seq<byte>, n: nat, key: seq<word>, keysize: int,
                              iv: seq<byte>, ivNow: seq<byte>, idx: nat)
    requires Blocks(c, n) && |iv| == |ivNow| == BLOCKSZ && idx <= n && 4 * DecryptRounds(keysize) + 4 <= |key|
  {
    done + CbcDecrypt(c[BLOCKSZ * idx..], n - idx, key, keysize, ivNow) == CbcDecrypt(c, n, key, keysize, iv)
  }

  lemma DecipherStep(done: seq<byte>, c: seq<byte>, n: nat, key: seq<word>, keysize: int,
                     iv: seq<byte>, ivNow: seq<byte>, idx: nat)
    requires Blocks(c, n) && |iv| == |ivNow| == BLOCKSZ && idx < n && 4 * DecryptRounds(keysize) + 4 <= |key|
    requires Deciphering(done, c, n, key, keysize, iv, ivNow, idx)
    ensures var b := c[BLOCKSZ * idx..][..BLOCKSZ];
            Deciphering(done + Xor(Decrypted(b, key, keysize), ivNow), c, n, key, keysize, iv, b, idx + 1)
  {
    hide Decrypted, Xor;
    var rest := c[BLOCKSZ * idx..];
    var x := Xor(Decrypted(rest[..BLOCKSZ], key, keysize), ivNow);
    assert rest[BLOCKSZ..] == c[BLOCKSZ * (idx + 1)..];
    var tail := CbcDecrypt(rest[BLOCKSZ..], n - idx - 1, key, keysize, rest[..BLOCKSZ]);
    assert done + (x + tail) == done + x + tail;
  }

  lemma DecipherStarts(c: seq<byte>, n: nat, key: seq<word>, keysize: int, iv: seq<byte>)
    requires Blocks(c, n) && |iv| == BLOCKSZ && 4 * DecryptRounds(keysize) + 4 <= |key|
    ensures Deciphering([], c, n, key, keysize, iv, iv, 0)
  {
    hide CbcDecrypt;
    assert c[BLOCKSZ * 0..] == c;
  }

  lemma DecipherEnds(done: seq<byte>, c: seq<byte>, n: nat, key: seq<word>, keysize: int, iv: seq<byte>, ivNow: seq<byte>)
    requires Blocks(c, n) && |iv| == |ivNow| == BLOCKSZ && 4 * DecryptRounds(keysize) + 4 <= |key|
    requires Deciphering(done, c, n, key, keysize, iv, ivNow, n)
    ensures done == CbcDecrypt(c, n, key, keysize, iv)
  {
    hide Decrypted, Xor;
    assert done + [] == done;
  }

  /** `aes_decrypt_cbc`. */
  method DecryptCbc(input: array<byte>, out: array<byte>, key: seq<word>, keysize: int, iv: seq<byte>) returns (ok: bool)
    requires out.Length == input.Length && |iv| == BLOCKSZ && 4 * DecryptRounds(keysize) + 4 <= |key|
    modifies out
    ensures ok == (input.Length % BLOCKSZ == 0)
    ensures ok ==> out[..] == CbcDecrypt(old(input[..]), input.Length / BLOCKSZ, key, keysize, iv)
    ensures !ok ==> out[..] == old(out[..])
  {
    hide Decrypted, Xor, CbcDecrypt;
    if input.Length % BLOCKSZ != 0 { return false; }
    ghost var c := input[..];
    var n := input.Length / BLOCKSZ;
    var ivBuf := iv;
    DecipherStarts(c, n, key, keysize, iv);
    for idx := 0 to n
      invariant |ivBuf| == BLOCKSZ && input[BLOCKSZ * idx..] == c[BLOCKSZ * idx..]
      invariant Deciphering(out[..BLOCKSZ * idx], c, n, key, keysize, iv, ivBuf, idx)
    {
      hide Deciphering;
      DecipherStep(out[..BLOCKSZ * idx], c, n, key, keysize, iv, ivBuf, idx);
      assert input[BLOCKSZ * (idx + 1)..] == input[BLOCKSZ * idx..][BLOCKSZ..] == c[BLOCKSZ * (idx + 1)..];
      var bufIn := input[BLOCKSZ * idx..][..BLOCKSZ];
      var bufOut := Decrypt(bufIn, key, keysize);
      PutBlock(input, out, idx, Xor(bufOut, ivBuf));
      ivBuf := bufIn;
    }
    DecipherEnds(out[..BLOCKSZ * n], c, n, key, keysize, iv, ivBuf);
    ok := true;
  }
}
