/** contrib/fastpbkdf2.c: PBKDF2-HMAC-SHA256 with the per-iteration HMAC reduced to two
    raw compressions over a reused padding block. */
module Pbkdf2 {
  import opened Bytes
  import opened Sha256

  // ----- HMAC of section 2 of RFC 2104, PBKDF2 of section 5.2 of RFC 8018 --------

  const HASHSZ: nat := 32
  const IPAD: byte := 0x36
  const OPAD: byte := 0x5c

  function Masked(k: seq<byte>, mask: byte): (r: seq<byte>)
    ensures |r| == |k| && forall i :: 0 <= i < |k| ==> r[i] == mask ^ k[i]
  {
    seq(|k|, i requires 0 <= i < |k| => mask ^ k[i])
  }

  /** The key, hashed if it is longer than a block, filled with zeros to a block. */
  function KeyBlock(f: Compress, key: seq<byte>): (k: seq<byte>)
    ensures |k| == BLOCK
  {
    if |key| > BLOCK then Hash(f, key) + Zeros(BLOCK - HASHSZ) else key + Zeros(BLOCK - |key|)
  }

  function Hmac(f: Compress, key: seq<byte>, m: seq<byte>): (d: seq<byte>)
    ensures |d| == HASHSZ
  {
    var k := KeyBlock(f, key);
    Hash(f, Masked(k, 0x5c) + Hash(f, Masked(k, 0x36) + m))
  }

  /** `U_c` for the salt with the block number appended. */
  function U(f: Compress, p: seq<byte>, s: seq<byte>, c: nat): (u: seq<byte>)
    requires c > 0
    ensures |u| == HASHSZ
  {
    if c == 1 then Hmac(f, p, s) else Hmac(f, p, U(f, p, s, c - 1))
  }

  /** `U_1 xor ... xor U_c`. */
  function F(f: Compress, p: seq<byte>, s: seq<byte>, c: nat): (t: seq<byte>)
    requires c > 0
    ensures |t| == HASHSZ
  {
    if c == 1 then U(f, p, s, 1) else Xor(F(f, p, s, c - 1), U(f, p, s, c))
  }

  /** `INT(i)`, four bytes, most significant first. */
  function Int32(i: nat): (b: seq<byte>)
    requires i < 0x1_0000_0000
    ensures |b| == 4
  {
    BeWord(i as word)
  }

  lemma Int32Is(i: nat)
    requires i < 0x1_0000_0000
    ensures var b := Int32(i);
            (b[0] as word << 24) | (b[1] as word << 16) | (b[2] as word << 8) | b[3] as word == i as word
  {
    hide BeWord;
    BeWordIs(i as word);
  }

  /** `T_1 || ... || T_n`. */
  function Blocks(f: Compress, p: seq<byte>, s: seq<byte>, c: nat, n: nat): (dk: seq<byte>)
    requires c > 0 && n < 0x1_0000_0000
    ensures |dk| == n * HASHSZ
  {
    if n == 0 then [] else Blocks(f, p, s, c, n - 1) + F(f, p, s + Int32(n), c)
  }

  /** `PBKDF2(P, S, c, dkLen)`. */
  function Derive(f: Compress, p: seq<byte>, s: seq<byte>, c: nat, dkLen: nat): (dk: seq<byte>)
    requires c > 0 && dkLen <= 0xffff_ffff * HASHSZ
    ensures |dk| == dkLen
  {
    Blocks(f, p, s, c, (dkLen + HASHSZ - 1) / HASHSZ)[..dkLen]
  }

  // ----- two compressions are one HMAC -----------------------------------------

  /** The chaining state after one masked key block. */
  function Keyed(f: Compress, key: seq<byte>, mask: byte): State {
    Step(f, IV, Masked(KeyBlock(f, key), mask))
  }

  /** The loop-invariant second half of the block: the padding of a 96-byte message. */
  function Tail(): (t: seq<byte>)
    ensures |t| == 32
  {
    hide Be64;
    Padding(BLOCK + HASHSZ)
  }

  /** A digest-sized message behind a masked key block is one compression from the keyed state. */
  lemma HashBehindKey(f: Compress, k: seq<byte>, u: seq<byte>)
    requires |k| == BLOCK && |u| == HASHSZ
    ensures Hash(f, k + u) == Digest(Step(f, Step(f, IV, k), u + Tail()))
  {
    hide Be64;
    assert k + u + Padding(|k + u|) == k + (u + Tail());
    FoldAppend(f, IV, k, u + Tail());
    FoldBlock(f, IV, k);
    FoldBlock(f, Step(f, IV, k), u + Tail());
  }

  lemma FastHmac(f: Compress, key: seq<byte>, u: seq<byte>)
    requires |u| == HASHSZ
    ensures Hmac(f, key, u) ==
            Digest(Step(f, Keyed(f, key, OPAD), Digest(Step(f, Keyed(f, key, IPAD), u + Tail())) + Tail()))
  {
    hide Hash, Tail, Digest;
    var k := KeyBlock(f, key);
    HashBehindKey(f, Masked(k, IPAD), u);
    HashBehindKey(f, Masked(k, OPAD), Hash(f, Masked(k, IPAD) + u));
  }

  /** What `md_pad` writes is exactly that padding. */
  lemma MdPadIsPadding()
    ensures Tail() == [0x80] + Zeros(27) + BeWord(768)
  {
    hide Be64, BeWord, Zeros;
    MdPadLength();
    ZerosAdd(23, 4);
    assert ZeroCount(BLOCK + HASHSZ) == 23;
  }

  lemma MdPadLength()
    ensures Be64(768) == Zeros(4) + BeWord(768)
  {
    assert BeWord(768) == [0, 0, 3, 0];
    assert Octet(768, 0x100) == 3;
    assert Be64(768) == [0, 0, 0, 0, 0, 0, 3, 0];
  }

  // ----- state words against bytes ----------------------------------------------

  /** `sha256_xor`. */
  method XorInto(result: Context, other: Context)
    requires result != other
    modifies result`state
    ensures Digest(result.state) == Xor(Digest(old(result.state)), Digest(other.state))
  {
    XorBeWords(result.state, other.state);
    result.state := XorWords(result.state, other.state);
  }

  // ----- HMAC contexts -----------------------------------------------------------

  class HmacContext {
    const inner: Context
    const outer: Context

    ghost predicate Valid()
      reads this, inner, inner.data, outer, outer.data
    {
      && inner != outer && inner.data != outer.data
      && inner.f == outer.f && inner.Valid() && outer.Valid()
    }

    ghost function Frame(): set<object> {
      {inner, inner.data, outer, outer.data}
    }

    /** The key has been absorbed, and `m` after it. */
    ghost predicate Absorbed(f: Compress, key: seq<byte>, m: seq<byte>)
      reads this, inner, inner.data, outer, outer.data
    {
      && Valid() && inner.f == f
      && inner.Absorbed(Masked(KeyBlock(f, key), IPAD) + m)
      && outer.Absorbed(Masked(KeyBlock(f, key), OPAD))
    }

    /** `HMAC_INIT`. */
    constructor (f: Compress, key: seq<byte>)
      requires |key| < 0x1_0000_0000
      ensures Absorbed(f, key, []) && fresh(Frame())
    {
      hide KeyBlock, Context.Absorbed;
      var k := PrepareKey(f, key);
      var i := new Context(f);
      i.Update(Masked(k, IPAD), []);
      var o := new Context(f);
      o.Update(Masked(k, OPAD), []);
      inner, outer := i, o;
      assert [] + Masked(k, IPAD) == Masked(k, IPAD) + [] && [] + Masked(k, OPAD) == Masked(k, OPAD);
    }

    /** The first half of `HMAC_INIT`: shorten long keys, fill up short ones. */
    static method PrepareKey(f: Compress, key: seq<byte>) returns (k: seq<byte>)
      requires |key| < 0x1_0000_0000
      ensures k == KeyBlock(f, key)
    {
      if |key| > BLOCK {
        var c := new Context(f);
        c.Update(key, []);
        assert [] + key == key;
        k := c.Final(key);
        k := k + Zeros(BLOCK - |k|);
      } else {
        k := key + Zeros(BLOCK - |key|);
      }
    }

    /** Assignment of one HMAC context to another, by value. */
    constructor Copy(c: HmacContext, ghost f: Compress, ghost key: seq<byte>, ghost m: seq<byte>)
      requires c.Absorbed(f, key, m)
      ensures Absorbed(f, key, m) && fresh(Frame())
    {
      inner := new Context.Copy(c.inner);
      outer := new Context.Copy(c.outer);
    }

    /** `HMAC_UPDATE`. */
    method Update(bytes: seq<byte>, ghost f: Compress, ghost key: seq<byte>, ghost m: seq<byte>)
      requires Absorbed(f, key, m) && |bytes| < 0x1_0000_0000
      modifies inner, inner.data
      ensures Absorbed(f, key, m + bytes)
    {
      ghost var k := Masked(KeyBlock(f, key), IPAD);
      assert k + m + bytes == k + (m + bytes);
      inner.Update(bytes, k + m);
    }

    /** `HMAC_FINAL`. */
    method Final(ghost f: Compress, ghost key: seq<byte>, ghost m: seq<byte>) returns (out: seq<byte>)
      requires Absorbed(f, key, m)
      modifies Frame()
      ensures Valid() && inner.f == f && out == Hmac(f, key, m) == Digest(outer.state)
    {
      out := inner.Final(Masked(KeyBlock(f, key), IPAD) + m);
      ghost var k := Masked(KeyBlock(f, key), OPAD);
      outer.Update(out, k);
      out := outer.Final(k + out);
    }
  }

  // ----- the fast loop -------------------------------------------------------------

  /** `md_pad` for a digest-sized prefix of a message one block longer. */
  method MdPad(block: array<byte>)
    requires block.Length == BLOCK
    modifies block
    ensures block[HASHSZ..] == Tail()
  {
    MdPadIsPadding();
    forall i | HASHSZ <= i < BLOCK - 4 { block[i] := 0; }
    block[HASHSZ] := 0x80;
    var len := BeWord(768);
    forall i | BLOCK - 4 <= i < BLOCK { block[i] := len[i - (BLOCK - 4)]; }
    assert block[HASHSZ..] == [0x80] + Zeros(27) + len;
  }

  /** `sha256_extract`: the digest of the state into the first half of the block. */
  method Extract(c: Context, out: array<byte>)
    requires HASHSZ <= out.Length && out != c.data
    modifies out
    ensures out[..] == Digest(c.state) + old(out[HASHSZ..])
  {
    var d := Digest(c.state);
    forall i | 0 <= i < HASHSZ { out[i] := d[i]; }
    assert out[..HASHSZ] == d && out[HASHSZ..] == old(out[HASHSZ..]);
    assert out[..] == out[..HASHSZ] + out[HASHSZ..];
  }

  /** One raw compression from a keyed state: `sha256_cpy`, transform, extract. */
  method KeyedCompression(c: Context, start: Context, block: array<byte>)
    requires c != start && c.f == start.f && block.Length == BLOCK && block != c.data
    requires block[HASHSZ..] == Tail()
    modifies c`state, block
    ensures c.state == Step(c.f, start.state, old(block[..HASHSZ]) + Tail())
    ensures block[..] == Digest(c.state) + Tail()
  {
    assert block[..] == block[..HASHSZ] + block[HASHSZ..];
    c.state := start.state;
    c.Transform(block[..]);
    Extract(c, block);
  }

  /** A keyed context that has absorbed nothing else holds the keyed chaining states. */
  lemma KeyedStates(h: HmacContext, f: Compress, key: seq<byte>)
    requires h.Absorbed(f, key, [])
    ensures h.inner.f == f == h.outer.f
    ensures h.inner.state == Keyed(f, key, IPAD) && h.outer.state == Keyed(f, key, OPAD)
  {
    var i, o := Masked(KeyBlock(f, key), IPAD), Masked(KeyBlock(f, key), OPAD);
    assert i + [] == i && i[..BLOCK] == i && o[..BLOCK] == o;
    FoldBlock(f, IV, i);
    FoldBlock(f, IV, o);
  }

  /** The block as the loop keeps it: the current `U_c`, then the padding. */
  ghost predicate Holds(block: array<byte>, u: seq<byte>)
    reads block
  {
    block.Length == BLOCK && |u| == HASHSZ && block[..HASHSZ] == u && block[HASHSZ..] == Tail()
  }

  /** The first iteration of `PBKDF2_F`, with the whole HMAC. */
  method FirstIteration(start: HmacContext, counter: nat, salt: seq<byte>, ghost f: Compress, ghost key: seq<byte>)
    returns (ctx: HmacContext, ublock: array<byte>)
    requires start.Absorbed(f, key, [])
    requires counter < 0x1_0000_0000 && |salt| < 0x1_0000_0000
    ensures ctx.Valid() && ctx.inner.f == f && fresh(ctx.Frame()) && fresh(ublock) && ublock !in ctx.Frame()
    ensures Holds(ublock, U(f, key, salt + Int32(counter), 1))
    ensures Digest(ctx.outer.state) == F(f, key, salt + Int32(counter), 1)
  {
    hide HmacContext.Absorbed, Hmac, Digest, Tail, BeWord;
    ublock := new byte[BLOCK](_ => 0);
    MdPad(ublock);
    ghost var tail := ublock[HASHSZ..];
    ctx := new HmacContext.Copy(start, f, key, []);
    ctx.Update(salt, f, key, []);
    ctx.Update(BeWord(counter as word), f, key, [] + salt);
    assert [] + salt + BeWord(counter as word) == salt + Int32(counter);
    var u := ctx.Final(f, key, salt + Int32(counter));
    assert ublock[HASHSZ..] == tail;
    forall i | 0 <= i < HASHSZ { ublock[i] := u[i]; }
    assert ublock[..HASHSZ] == u && ublock[HASHSZ..] == tail;
  }

  /** One further iteration: the block goes from one `U_c` to the next. */
  method NextIteration(start: HmacContext, ctx: HmacContext, ublock: array<byte>,
                       ghost f: Compress, ghost key: seq<byte>, ghost u: seq<byte>)
    requires start.inner.f == f && start.outer.f == f && ctx.inner.f == f && ctx.outer.f == f
    requires start.inner.state == Keyed(f, key, IPAD) && start.outer.state == Keyed(f, key, OPAD)
    requires ctx.inner !in {start.inner, start.outer, ctx.outer} && ctx.outer !in {start.inner, start.outer}
    requires ublock != ctx.inner.data && ublock != ctx.outer.data && Holds(ublock, u)
    modifies ctx.inner`state, ctx.outer`state, ublock
    ensures Holds(ublock, Hmac(f, key, u)) && Digest(ctx.outer.state) == Hmac(f, key, u)
  {
    hide Keyed, Hmac, Digest, Tail;
    FastHmac(f, key, u);
    KeyedCompression(ctx.inner, start.inner, ublock);
    assert ublock[..HASHSZ] == Digest(ctx.inner.state) && ublock[HASHSZ..] == Tail();
    KeyedCompression(ctx.outer, start.outer, ublock);
    assert ublock[..HASHSZ] == Digest(ctx.outer.state) && ublock[HASHSZ..] == Tail();
  }

  /** The loop body of `PBKDF2_F`. */
  method Accumulate(start: HmacContext, ctx: HmacContext, ublock: array<byte>, result: Context,
                    ghost f: Compress, ghost key: seq<byte>, ghost s: seq<byte>, ghost i: nat)
    requires start.inner.f == f && start.outer.f == f && ctx.inner.f == f && ctx.outer.f == f
    requires start.inner.state == Keyed(f, key, IPAD) && start.outer.state == Keyed(f, key, OPAD)
    requires ctx.inner !in {start.inner, start.outer, ctx.outer} && ctx.outer !in {start.inner, start.outer}
    requires ublock != ctx.inner.data && ublock != ctx.outer.data
    requires result !in {ctx.inner, ctx.outer, start.inner, start.outer} && i > 0
    requires Holds(ublock, U(f, key, s, i)) && Digest(result.state) == F(f, key, s, i)
    modifies ctx.inner`state, ctx.outer`state, ublock, result`state
    ensures Holds(ublock, U(f, key, s, i + 1)) && Digest(result.state) == F(f, key, s, i + 1)
    ensures start.inner.state == Keyed(f, key, IPAD) && start.outer.state == Keyed(f, key, OPAD)
  {
    hide Keyed, Hmac, Digest, Tail, Xor, Holds;
    NextIteration(start, ctx, ublock, f, key, U(f, key, s, i));
    XorInto(result, ctx.outer);
  }

  /** `PBKDF2_F`: `U_1 xor ... xor U_c` for one output block. */
  method BlockF(start: HmacContext, counter: nat, salt: seq<byte>, iterations: nat,
                ghost f: Compress, ghost key: seq<byte>) returns (out: seq<byte>)
    requires start.Absorbed(f, key, [])
    requires counter < 0x1_0000_0000 && |salt| < 0x1_0000_0000 && 0 < iterations < 0x1_0000_0000
    ensures out == F(f, key, salt + Int32(counter), iterations)
  {
    ghost var s := salt + Int32(counter);
    KeyedStates(start, f, key);
    hide Keyed, Hmac, Digest, Tail, Int32, Xor, HmacContext.Absorbed, Holds, U;
    var ctx, ublock := FirstIteration(start, counter, salt, f, key);
    var result := new Context.Copy(ctx.outer);
    for i := 1 to iterations
      invariant start.inner.state == Keyed(f, key, IPAD) && start.outer.state == Keyed(f, key, OPAD)
      invariant Holds(ublock, U(f, key, s, i))
      invariant Digest(result.state) == F(f, key, s, i)
    {
      Accumulate(start, ctx, ublock, result, f, key, s, i);
    }
    out := Digest(result.state);
  }

  /** The number of output blocks; the sum is truncated to 32 bits before the division. */
  function BlocksNeeded(nout: nat): (n: nat)
    ensures n < 0x800_0000 && n * HASHSZ < nout + HASHSZ
  {
    ((nout + HASHSZ - 1) % 0x1_0000_0000) / HASHSZ
  }

  /** How much of an output buffer of `nout` bytes `n` blocks fill. */
  function Reach(nout: nat, n: nat): (r: nat)
    ensures r <= nout && r <= n * HASHSZ
  {
    if n * HASHSZ < nout then n * HASHSZ else nout
  }

  /** The blocks fill the whole buffer exactly when the rounded-up length fits 32 bits. */
  lemma ReachIsWhole(nout: nat)
    requires nout > 0
    ensures Reach(nout, BlocksNeeded(nout)) == nout <==> nout <= 0x1_0000_0000 - HASHSZ
    ensures nout <= 0x1_0000_0000 - HASHSZ ==> BlocksNeeded(nout) == (nout + HASHSZ - 1) / HASHSZ
  {
    if nout > 0x1_0000_0000 - HASHSZ {
      var t := (nout + HASHSZ - 1) % 0x1_0000_0000;
      assert t <= nout + HASHSZ - 1 - 0x1_0000_0000;
    }
  }

  /** Copy one block, or as much of it as the buffer has room for. */
  method StoreBlock(out: array<byte>, n: nat, block: seq<byte>, ghost dk: seq<byte>)
    requires |block| == HASHSZ && |dk| == n * HASHSZ < out.Length
    requires out[..n * HASHSZ] == dk
    modifies out
    ensures var r := Reach(out.Length, n + 1);
            out[..r] == (dk + block)[..r]
    ensures forall k :: Reach(out.Length, n + 1) <= k < out.Length ==> out[k] == old(out[k])
  {
    var offset := n * HASHSZ;
    var taken := if out.Length - offset > HASHSZ then HASHSZ else out.Length - offset;
    forall i | offset <= i < offset + taken { out[i] := block[i - offset]; }
    assert offset + taken == Reach(out.Length, n + 1);
    forall i | 0 <= i < offset + taken ensures out[i] == (dk + block)[i] {
      if i < offset { assert out[i] == old(out[..offset])[i]; }
    }
  }

  /** `PBKDF2`: the derived key fills the output buffer as far as the block count
      reaches, which is all of it unless the rounded-up length overflows 32 bits; the
      rest of the buffer is left as it was. */
  method Pbkdf2(f: Compress, pw: seq<byte>, salt: seq<byte>, iterations: nat, out: array<byte>)
    requires |pw| < 0x1_0000_0000 && |salt| < 0x1_0000_0000
    requires 0 < iterations < 0x1_0000_0000 && out.Length > 0
    modifies out
    ensures out.Length <= 0x1_0000_0000 - HASHSZ ==> out[..] == Derive(f, pw, salt, iterations, out.Length)
    ensures var n := BlocksNeeded(out.Length); var r := Reach(out.Length, n);
            out[..r] == Blocks(f, pw, salt, iterations, n)[..r] && out[r..] == old(out[r..])
  {
    hide F, Int32, HmacContext.Absorbed, BlocksNeeded;
    var ctx := new HmacContext(f, pw);
    var blocksNeeded := BlocksNeeded(out.Length);
    ReachIsWhole(out.Length);
    for n := 0 to blocksNeeded
      invariant ctx.Absorbed(f, pw, []) && out !in ctx.Frame()
      invariant var r := Reach(out.Length, n);
                out[..r] == Blocks(f, pw, salt, iterations, n)[..r]
      invariant forall k :: Reach(out.Length, n) <= k < out.Length ==> out[k] == old(out[k])
    {
      var block := BlockF(ctx, n + 1, salt, iterations, f, pw);
      StoreBlock(out, n, block, Blocks(f, pw, salt, iterations, n));
    }
  }
}
