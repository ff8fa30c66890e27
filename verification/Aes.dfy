/** The block cipher of contrib/aes.c: the rounds of sections 5.1 and 5.3 of FIPS 197
    over the 4x4 byte state, for any array of round keys. */
module Aes {
  import opened Bytes
  import opened AesTables
  import opened AesField

  // ----- the state as a value --------------------------------------------------

  datatype Block = Block(c0: Column, c1: Column, c2: Column, c3: Column)

  function SubColumn(c: Column): Column {
    Column(SBox(c.b0), SBox(c.b1), SBox(c.b2), SBox(c.b3))
  }

  function InvSubColumn(c: Column): Column {
    Column(InvSBox(c.b0), InvSBox(c.b1), InvSBox(c.b2), InvSBox(c.b3))
  }

  /** The four bytes of one round-key word, most significant first. */
  function AddKeyColumn(c: Column, w: word): Column {
    Column(c.b0 ^ Byte3(w), c.b1 ^ Byte2(w), c.b2 ^ Byte1(w), c.b3 ^ Byte0(w))
  }

  function SubBlock(b: Block): Block {
    Block(SubColumn(b.c0), SubColumn(b.c1), SubColumn(b.c2), SubColumn(b.c3))
  }

  function InvSubBlock(b: Block): Block {
    Block(InvSubColumn(b.c0), InvSubColumn(b.c1), InvSubColumn(b.c2), InvSubColumn(b.c3))
  }

  /** Row `r` moves left by `r` columns. */
  function ShiftBlock(b: Block): Block {
    Block(Column(b.c0.b0, b.c1.b1, b.c2.b2, b.c3.b3), Column(b.c1.b0, b.c2.b1, b.c3.b2, b.c0.b3),
          Column(b.c2.b0, b.c3.b1, b.c0.b2, b.c1.b3), Column(b.c3.b0, b.c0.b1, b.c1.b2, b.c2.b3))
  }

  /** Row `r` moves right by `r` columns. */
  function InvShiftBlock(b: Block): Block {
    Block(Column(b.c0.b0, b.c3.b1, b.c2.b2, b.c1.b3), Column(b.c1.b0, b.c0.b1, b.c3.b2, b.c2.b3),
          Column(b.c2.b0, b.c1.b1, b.c0.b2, b.c3.b3), Column(b.c3.b0, b.c2.b1, b.c1.b2, b.c0.b3))
  }

  function MixBlock(b: Block): Block {
    Block(MixColumn(b.c0), MixColumn(b.c1), MixColumn(b.c2), MixColumn(b.c3))
  }

  function InvMixBlock(b: Block): Block {
    Block(InvMixColumn(b.c0), InvMixColumn(b.c1), InvMixColumn(b.c2), InvMixColumn(b.c3))
  }

  function AddKeyBlock(b: Block, key: seq<word>, k: nat): Block
    requires k + 4 <= |key|
  {
    Block(AddKeyColumn(b.c0, key[k]), AddKeyColumn(b.c1, key[k + 1]),
          AddKeyColumn(b.c2, key[k + 2]), AddKeyColumn(b.c3, key[k + 3]))
  }

  // ----- each step has its inverse ---------------------------------------------

  /** The byte in row `r` of a column. */
  function Row(c: Column, r: nat): byte
    requires r < 4
  {
    if r == 0 then c.b0 else if r == 1 then c.b1 else if r == 2 then c.b2 else c.b3
  }

  /** The byte in row `r`, column `c` of the state. */
  function At(b: Block, r: nat, c: nat): byte
    requires r < 4 && c < 4
  {
    Row(if c == 0 then b.c0 else if c == 1 then b.c1 else if c == 2 then b.c2 else b.c3, r)
  }

  /** ShiftRows as section 5.1.2 of FIPS 197 gives it, by row and column. */
  lemma ShiftsRows(b: Block, r: nat, c: nat)
    requires r < 4 && c < 4
    ensures At(ShiftBlock(b), r, c) == At(b, r, (c + r) % 4)
    ensures At(InvShiftBlock(b), r, (c + r) % 4) == At(b, r, c)
  {
    Turned(c, r);
    if r < 2 {
      if r == 0 {
      } else {
        assert r == 1;
      }
    } else {
      if r == 2 {
      } else {
        assert r == 3;
      }
    }
  }

  lemma Turned(c: nat, r: nat)
    requires r < 4 && c < 4
    ensures (c + r) % 4 == if c + r < 4 then c + r else c + r - 4
  {
  }

  lemma FixedProduct2(x: byte)
    ensures Product(x, 0x02) == Mul2(x)
  {
    hide Mul2;
    Mul2Product(x);
  }

  lemma FixedProduct3(x: byte)
    ensures Product(x, 0x03) == Mul3(x)
  {
    hide Mul3;
    Mul3Product(x);
  }

  lemma FixedProduct9(x: byte)
    ensures Product(x, 0x09) == Mul9(x)
  {
    hide Mul9;
    Mul9Product(x);
  }

  lemma FixedProduct11(x: byte)
    ensures Product(x, 0x0b) == Mul11(x)
  {
    hide Mul11;
    Mul11Product(x);
  }

  lemma FixedProduct13(x: byte)
    ensures Product(x, 0x0d) == Mul13(x)
  {
    hide Mul13;
    Mul13Product(x);
  }

  lemma FixedProduct14(x: byte)
    ensures Product(x, 0x0e) == Mul14(x)
  {
    hide Mul14;
    Mul14Product(x);
  }

  lemma FixedProducts(x: byte)
    ensures Product(x, 0x02) == Mul2(x) && Product(x, 0x03) == Mul3(x)
    ensures Product(x, 0x09) == Mul9(x) && Product(x, 0x0b) == Mul11(x)
    ensures Product(x, 0x0d) == Mul13(x) && Product(x, 0x0e) == Mul14(x)
  {
    hide *;
    FixedProduct2(x); FixedProduct3(x); FixedProduct9(x); FixedProduct11(x); FixedProduct13(x); FixedProduct14(x);
  }

  /** MixColumns as section 5.1.3 gives it: each row is a sum of products in the field. */
  lemma MixIs(c: Column)
    ensures MixColumn(c).b0 == SumOf(Product(c.b0, 0x02), Product(c.b1, 0x03), c.b2, c.b3)
    ensures MixColumn(c).b1 == SumOf(c.b0, Product(c.b1, 0x02), Product(c.b2, 0x03), c.b3)
    ensures MixColumn(c).b2 == SumOf(c.b0, c.b1, Product(c.b2, 0x02), Product(c.b3, 0x03))
    ensures MixColumn(c).b3 == SumOf(Product(c.b0, 0x03), c.b1, c.b2, Product(c.b3, 0x02))
  {
    hide Mul2, Mul3, Mul9, Mul11, Mul13, Mul14, Product, Add4, SumOf;
    FixedProducts(c.b0); FixedProducts(c.b1); FixedProducts(c.b2); FixedProducts(c.b3);
    SumIs(Mul2(c.b0), Mul3(c.b1), c.b2, c.b3);
    SumIs(c.b0, Mul2(c.b1), Mul3(c.b2), c.b3);
    SumIs(c.b0, c.b1, Mul2(c.b2), Mul3(c.b3));
    SumIs(Mul3(c.b0), c.b1, c.b2, Mul2(c.b3));
  }

  /** And its inverse, as section 5.3.3 gives it. */
  lemma InvMixIs(c: Column)
    ensures var m := InvMixColumn(c);
            && m.b0 == SumOf(Product(c.b0, 0x0e), Product(c.b1, 0x0b), Product(c.b2, 0x0d), Product(c.b3, 0x09))
            && m.b1 == SumOf(Product(c.b0, 0x09), Product(c.b1, 0x0e), Product(c.b2, 0x0b), Product(c.b3, 0x0d))
            && m.b2 == SumOf(Product(c.b0, 0x0d), Product(c.b1, 0x09), Product(c.b2, 0x0e), Product(c.b3, 0x0b))
            && m.b3 == SumOf(Product(c.b0, 0x0b), Product(c.b1, 0x0d), Product(c.b2, 0x09), Product(c.b3, 0x0e))
  {
    hide Mul2, Mul3, Mul9, Mul11, Mul13, Mul14, Product, Add4, SumOf;
    FixedProducts(c.b0); FixedProducts(c.b1); FixedProducts(c.b2); FixedProducts(c.b3);
    SumIs(Mul14(c.b0), Mul11(c.b1), Mul13(c.b2), Mul9(c.b3));
    SumIs(Mul9(c.b0), Mul14(c.b1), Mul11(c.b2), Mul13(c.b3));
    SumIs(Mul13(c.b0), Mul9(c.b1), Mul14(c.b2), Mul11(c.b3));
    SumIs(Mul11(c.b0), Mul13(c.b1), Mul9(c.b2), Mul14(c.b3));
  }

  function SumOf(a: byte, b: byte, c: byte, d: byte): byte {
    a ^ b ^ c ^ d
  }

  lemma SumIs(a: byte, b: byte, c: byte, d: byte)
    ensures Add4(a, b, c, d) == SumOf(a, b, c, d)
  {
  }

  lemma SubColumnInverse(c: Column)
    ensures InvSubColumn(SubColumn(c)) == c
  {
    hide SBox, InvSBox;
    SBoxInverse(c.b0); SBoxInverse(c.b1); SBoxInverse(c.b2); SBoxInverse(c.b3);
  }

  lemma SubInverse(b: Block)
    ensures InvSubBlock(SubBlock(b)) == b
  {
    hide SubColumn, InvSubColumn;
    SubColumnInverse(b.c0); SubColumnInverse(b.c1); SubColumnInverse(b.c2); SubColumnInverse(b.c3);
  }

  lemma ShiftInverse(b: Block)
    ensures InvShiftBlock(ShiftBlock(b)) == b
  {
  }

  lemma MixInverse(b: Block)
    ensures InvMixBlock(MixBlock(b)) == b
  {
    hide MixColumn, InvMixColumn;
    InvMixMix(b.c0); InvMixMix(b.c1); InvMixMix(b.c2); InvMixMix(b.c3);
  }

  lemma AddKeyColumnTwice(c: Column, w: word)
    ensures AddKeyColumn(AddKeyColumn(c, w), w) == c
  {
    hide Byte0, Byte1, Byte2, Byte3;
    XorTwice(c.b0, Byte3(w)); XorTwice(c.b1, Byte2(w)); XorTwice(c.b2, Byte1(w)); XorTwice(c.b3, Byte0(w));
  }

  lemma XorTwice(x: byte, y: byte)
    ensures (x ^ y) ^ y == x
  {
  }

  lemma AddKeyTwice(b: Block, key: seq<word>, k: nat)
    requires k + 4 <= |key|
    ensures AddKeyBlock(AddKeyBlock(b, key, k), key, k) == b
  {
    hide AddKeyColumn;
    AddKeyColumnTwice(b.c0, key[k]); AddKeyColumnTwice(b.c1, key[k + 1]);
    AddKeyColumnTwice(b.c2, key[k + 2]); AddKeyColumnTwice(b.c3, key[k + 3]);
  }

  // ----- rounds ------------------------------------------------------------------

  function Round(b: Block, key: seq<word>, r: nat): Block
    requires 4 * r + 4 <= |key|
  {
    AddKeyBlock(MixBlock(ShiftBlock(SubBlock(b))), key, 4 * r)
  }

  function InvRound(b: Block, key: seq<word>, r: nat): Block
    requires 4 * r + 4 <= |key|
  {
    InvMixBlock(AddKeyBlock(InvSubBlock(InvShiftBlock(b)), key, 4 * r))
  }

  /** The full rounds 1 to `r`. */
  function Rounds(b: Block, key: seq<word>, r: nat): Block
    requires 4 * r + 4 <= |key|
  {
    if r == 0 then b else Round(Rounds(b, key, r - 1), key, r)
  }

  /** The inverse rounds `r` down to 1. */
  function InvRounds(b: Block, key: seq<word>, r: nat): Block
    requires 4 * r + 4 <= |key|
    decreases r
  {
    if r == 0 then b else InvRounds(InvRound(b, key, r), key, r - 1)
  }

  /** The cipher of section 5.1: `n` rounds, the last one without MixColumns. */
  function Cipher(b: Block, key: seq<word>, n: nat): Block
    requires n > 0 && 4 * n + 4 <= |key|
  {
    AddKeyBlock(ShiftBlock(SubBlock(Rounds(AddKeyBlock(b, key, 0), key, n - 1))), key, 4 * n)
  }

  /** The inverse cipher of section 5.3. */
  function InvCipher(b: Block, key: seq<word>, n: nat): Block
    requires n > 0 && 4 * n + 4 <= |key|
  {
    AddKeyBlock(InvSubBlock(InvShiftBlock(InvRounds(AddKeyBlock(b, key, 4 * n), key, n - 1))), key, 0)
  }

  lemma SubShiftInverse(b: Block)
    ensures InvSubBlock(InvShiftBlock(ShiftBlock(SubBlock(b)))) == b
  {
    hide SubBlock, InvSubBlock, ShiftBlock, InvShiftBlock;
    ShiftInverse(SubBlock(b));
    SubInverse(b);
  }

  lemma RoundInverse(b: Block, key: seq<word>, r: nat)
    requires 4 * r + 4 <= |key|
    ensures InvMixBlock(AddKeyBlock(Round(b, key, r), key, 4 * r)) == ShiftBlock(SubBlock(b))
  {
    hide SubBlock, ShiftBlock, MixBlock, InvMixBlock, AddKeyBlock;
    var s := ShiftBlock(SubBlock(b));
    AddKeyTwice(MixBlock(s), key, 4 * r);
    MixInverse(s);
  }

  /** The decryption order applies the inverse steps one step out of phase with the
      rounds: after its first `AddRoundKey` it holds the shifted and substituted state
      of the last round, and every inverse round goes back to that of the round before. */
  lemma {:induction false} InvRoundsUndo(b: Block, key: seq<word>, r: nat)
    requires 4 * r + 4 <= |key|
    ensures InvSubBlock(InvShiftBlock(InvRounds(ShiftBlock(SubBlock(Rounds(b, key, r))), key, r))) == b
  {
    hide SubBlock, InvSubBlock, ShiftBlock, InvShiftBlock, MixBlock, InvMixBlock, AddKeyBlock;
    SubShiftInverse(Rounds(b, key, r));
    if r > 0 {
      RoundInverse(Rounds(b, key, r - 1), key, r);
      InvRoundsUndo(b, key, r - 1);
    }
  }

  /** Decryption inverts encryption, for every block, round-key array and round count. */
  lemma InvCipherInverts(b: Block, key: seq<word>, n: nat)
    requires n > 0 && 4 * n + 4 <= |key|
    ensures InvCipher(Cipher(b, key, n), key, n) == b
  {
    hide SubBlock, InvSubBlock, ShiftBlock, InvShiftBlock, AddKeyBlock, Rounds, InvRounds;
    var start := AddKeyBlock(b, key, 0);
    AddKeyTwice(ShiftBlock(SubBlock(Rounds(start, key, n - 1))), key, 4 * n);
    InvRoundsUndo(start, key, n - 1);
    AddKeyTwice(b, key, 0);
  }

  // ----- key sizes ---------------------------------------------------------------

  /** The number of rounds the branches of `aes_encrypt` run. */
  function EncryptRounds(keysize: int): (n: nat)
    ensures n > 0
  {
    if keysize != 128 then if keysize != 192 then 14 else 12 else 10
  }

  /** The number of rounds the branches of `aes_decrypt` run. */
  function DecryptRounds(keysize: int): (n: nat)
    ensures n > 0
  {
    if keysize > 128 then if keysize > 192 then 14 else 12 else 10
  }

  /** Encryption and decryption test `keysize` differently: they agree on the three key sizes of FIPS 197
      and above, and on nothing else. */
  lemma RoundsAgree(keysize: int)
    ensures EncryptRounds(keysize) == DecryptRounds(keysize) <==> keysize == 128 || keysize >= 192
  {
  }

  // ----- bytes and the state matrix ----------------------------------------------

  /** Bytes fill the state column by column. */
  function Load(s: seq<byte>): Block
    requires |s| == 16
  {
    Block(Column(s[0], s[1], s[2], s[3]), Column(s[4], s[5], s[6], s[7]),
          Column(s[8], s[9], s[10], s[11]), Column(s[12], s[13], s[14], s[15]))
  }

  function Store(b: Block): (s: seq<byte>)
    ensures |s| == 16
  {
    [b.c0.b0, b.c0.b1, b.c0.b2, b.c0.b3, b.c1.b0, b.c1.b1, b.c1.b2, b.c1.b3,
     b.c2.b0, b.c2.b1, b.c2.b2, b.c2.b3, b.c3.b0, b.c3.b1, b.c3.b2, b.c3.b3]
  }

  lemma LoadStore(b: Block, s: seq<byte>)
    ensures Load(Store(b)) == b
    ensures |s| == 16 ==> Store(Load(s)) == s
  {
  }

  function Encrypted(s: seq<byte>, key: seq<word>, keysize: int): (r: seq<byte>)
    requires |s| == 16 && 4 * EncryptRounds(keysize) + 4 <= |key|
    ensures |r| == 16
  {
    Store(Cipher(Load(s), key, EncryptRounds(keysize)))
  }

  function Decrypted(s: seq<byte>, key: seq<word>, keysize: int): (r: seq<byte>)
    requires |s| == 16 && 4 * DecryptRounds(keysize) + 4 <= |key|
    ensures |r| == 16
  {
    Store(InvCipher(Load(s), key, DecryptRounds(keysize)))
  }

  lemma DecryptInvertsEncrypt(s: seq<byte>, key: seq<word>, keysize: int)
    requires |s| == 16 && (keysize == 128 || keysize >= 192) && 4 * EncryptRounds(keysize) + 4 <= |key|
    ensures Decrypted(Encrypted(s, key, keysize), key, keysize) == s
  {
    hide Cipher, InvCipher, Load, Store;
    RoundsAgree(keysize);
    var n := EncryptRounds(keysize);
    LoadStore(Cipher(Load(s), key, n), s);
    InvCipherInverts(Load(s), key, n);
  }

  // ----- the code, in place on the 4x4 state ---------------------------------------

  predicate IsState(state: array2<byte>) {
    state.Length0 == 4 && state.Length1 == 4
  }

  /** The matrix `state[row][column]` as a value. */
  function View(state: array2<byte>): Block
    requires IsState(state)
    reads state
  {
    Block(Column(state[0, 0], state[1, 0], state[2, 0], state[3, 0]),
          Column(state[0, 1], state[1, 1], state[2, 1], state[3, 1]),
          Column(state[0, 2], state[1, 2], state[2, 2], state[3, 2]),
          Column(state[0, 3], state[1, 3], state[2, 3], state[3, 3]))
  }

  method SubBytes(state: array2<byte>)
    requires IsState(state)
    modifies state
    ensures View(state) == SubBlock(old(View(state)))
  {
    hide SBox;
    forall r, c | 0 <= r < 4 && 0 <= c < 4 { state[r, c] := SBox(state[r, c]); }
  }

  method InvSubBytes(state: array2<byte>)
    requires IsState(state)
    modifies state
    ensures View(state) == InvSubBlock(old(View(state)))
  {
    hide InvSBox;
    forall r, c | 0 <= r < 4 && 0 <= c < 4 { state[r, c] := InvSBox(state[r, c]); }
  }

  /** Row 1 of `ShiftRows`: left by 1. */
  method ShiftRow1(state: array2<byte>)
    requires IsState(state)
    modifies state
    ensures state[1, 0] == old(state[1, 1]) && state[1, 1] == old(state[1, 2])
    ensures state[1, 2] == old(state[1, 3]) && state[1, 3] == old(state[1, 0])
    ensures forall r, c :: 0 <= r < 4 && 0 <= c < 4 && r != 1 ==> state[r, c] == old(state[r, c])
  {
    var t := state[1, 0];
    state[1, 0] := state[1, 1];
    state[1, 1] := state[1, 2];
    state[1, 2] := state[1, 3];
    state[1, 3] := t;
  }

  /** Row 2: left by 2. */
  method ShiftRow2(state: array2<byte>)
    requires IsState(state)
    modifies state
    ensures state[2, 0] == old(state[2, 2]) && state[2, 1] == old(state[2, 3])
    ensures state[2, 2] == old(state[2, 0]) && state[2, 3] == old(state[2, 1])
    ensures forall r, c :: 0 <= r < 4 && 0 <= c < 4 && r != 2 ==> state[r, c] == old(state[r, c])
  {
    var t := state[2, 0];
    state[2, 0] := state[2, 2];
    state[2, 2] := t;
    t := state[2, 1];
    state[2, 1] := state[2, 3];
    state[2, 3] := t;
  }

  /** Row 3: left by 3. */
  method ShiftRow3(state: array2<byte>)
    requires IsState(state)
    modifies state
    ensures state[3, 0] == old(state[3, 3]) && state[3, 1] == old(state[3, 0])
    ensures state[3, 2] == old(state[3, 1]) && state[3, 3] == old(state[3, 2])
    ensures forall r, c :: 0 <= r < 4 && 0 <= c < 4 && r != 3 ==> state[r, c] == old(state[r, c])
  {
    var t := state[3, 0];
    state[3, 0] := state[3, 3];
    state[3, 3] := state[3, 2];
    state[3, 2] := state[3, 1];
    state[3, 1] := t;
  }

  method ShiftRows(state: array2<byte>)
    requires IsState(state)
    modifies state
    ensures View(state) == ShiftBlock(old(View(state)))
  {
    ShiftRow1(state);
    ShiftRow2(state);
    ShiftRow3(state);
  }

  /** Row 1 of `InvShiftRows`: right by 1. */
  method InvShiftRow1(state: array2<byte>)
    requires IsState(state)
    modifies state
    ensures state[1, 0] == old(state[1, 3]) && state[1, 1] == old(state[1, 0])
    ensures state[1, 2] == old(state[1, 1]) && state[1, 3] == old(state[1, 2])
    ensures forall r, c :: 0 <= r < 4 && 0 <= c < 4 && r != 1 ==> state[r, c] == old(state[r, c])
  {
    var t := state[1, 3];
    state[1, 3] := state[1, 2];
    state[1, 2] := state[1, 1];
    state[1, 1] := state[1, 0];
    state[1, 0] := t;
  }

  /** Row 2: right by 2. */
  method InvShiftRow2(state: array2<byte>)
    requires IsState(state)
    modifies state
    ensures state[2, 0] == old(state[2, 2]) && state[2, 1] == old(state[2, 3])
    ensures state[2, 2] == old(state[2, 0]) && state[2, 3] == old(state[2, 1])
    ensures forall r, c :: 0 <= r < 4 && 0 <= c < 4 && r != 2 ==> state[r, c] == old(state[r, c])
  {
    var t := state[2, 3];
    state[2, 3] := state[2, 1];
    state[2, 1] := t;
    t := state[2, 2];
    state[2, 2] := state[2, 0];
    state[2, 0] := t;
  }

  /** Row 3: right by 3. */
  method InvShiftRow3(state: array2<byte>)
    requires IsState(state)
    modifies state
    ensures state[3, 0] == old(state[3, 1]) && state[3, 1] == old(state[3, 2])
    ensures state[3, 2] == old(state[3, 3]) && state[3, 3] == old(state[3, 0])
    ensures forall r, c :: 0 <= r < 4 && 0 <= c < 4 && r != 3 ==> state[r, c] == old(state[r, c])
  {
    var t := state[3, 3];
    state[3, 3] := state[3, 0];
    state[3, 0] := state[3, 1];
    state[3, 1] := state[3, 2];
    state[3, 2] := t;
  }

  method InvShiftRows(state: array2<byte>)
    requires IsState(state)
    modifies state
    ensures View(state) == InvShiftBlock(old(View(state)))
  {
    InvShiftRow1(state);
    InvShiftRow2(state);
    InvShiftRow3(state);
  }

  /** One column of `MixColumns`, from a copy of its old bytes. */
  method MixOne(state: array2<byte>, c: nat)
    requires IsState(state) && c < 4
    modifies state
    ensures Column(state[0, c], state[1, c], state[2, c], state[3, c])
            == MixColumn(old(Column(state[0, c], state[1, c], state[2, c], state[3, c])))
    ensures forall r, d :: 0 <= r < 4 && 0 <= d < 4 && d != c ==> state[r, d] == old(state[r, d])
  {
    hide Mul2, Mul3, Add4;
    var col := Column(state[0, c], state[1, c], state[2, c], state[3, c]);
    state[0, c] := Add4(Mul2(col.b0), Mul3(col.b1), col.b2, col.b3);
    state[1, c] := Add4(col.b0, Mul2(col.b1), Mul3(col.b2), col.b3);
    state[2, c] := Add4(col.b0, col.b1, Mul2(col.b2), Mul3(col.b3));
    state[3, c] := Add4(Mul3(col.b0), col.b1, col.b2, Mul2(col.b3));
  }

  method MixColumns(state: array2<byte>)
    requires IsState(state)
    modifies state
    ensures View(state) == MixBlock(old(View(state)))
  {
    hide MixColumn;
    MixOne(state, 0);
    MixOne(state, 1);
    MixOne(state, 2);
    MixOne(state, 3);
  }

  method InvMixOne(state: array2<byte>, c: nat)
    requires IsState(state) && c < 4
    modifies state
    ensures Column(state[0, c], state[1, c], state[2, c], state[3, c])
            == InvMixColumn(old(Column(state[0, c], state[1, c], state[2, c], state[3, c])))
    ensures forall r, d :: 0 <= r < 4 && 0 <= d < 4 && d != c ==> state[r, d] == old(state[r, d])
  {
    hide Mul9, Mul11, Mul13, Mul14, Add4;
    var col := Column(state[0, c], state[1, c], state[2, c], state[3, c]);
    state[0, c] := Add4(Mul14(col.b0), Mul11(col.b1), Mul13(col.b2), Mul9(col.b3));
    state[1, c] := Add4(Mul9(col.b0), Mul14(col.b1), Mul11(col.b2), Mul13(col.b3));
    state[2, c] := Add4(Mul13(col.b0), Mul9(col.b1), Mul14(col.b2), Mul11(col.b3));
    state[3, c] := Add4(Mul11(col.b0), Mul13(col.b1), Mul9(col.b2), Mul14(col.b3));
  }

  method InvMixColumns(state: array2<byte>)
    requires IsState(state)
    modifies state
    ensures View(state) == InvMixBlock(old(View(state)))
  {
    hide InvMixColumn;
    InvMixOne(state, 0);
    InvMixOne(state, 1);
    InvMixOne(state, 2);
    InvMixOne(state, 3);
  }

  /** One column of `AddRoundKey`. */
  method AddKeyOne(state: array2<byte>, c: nat, w: word)
    requires IsState(state) && c < 4
    modifies state
    ensures Column(state[0, c], state[1, c], state[2, c], state[3, c])
            == AddKeyColumn(old(Column(state[0, c], state[1, c], state[2, c], state[3, c])), w)
    ensures forall r, d :: 0 <= r < 4 && 0 <= d < 4 && d != c ==> state[r, d] == old(state[r, d])
  {
    hide Byte0, Byte1, Byte2, Byte3;
    state[0, c] := state[0, c] ^ Byte3(w);
    state[1, c] := state[1, c] ^ Byte2(w);
    state[2, c] := state[2, c] ^ Byte1(w);
    state[3, c] := state[3, c] ^ Byte0(w);
  }

  method AddRoundKey(state: array2<byte>, key: seq<word>, k: nat)
    requires IsState(state) && k + 4 <= |key|
    modifies state
    ensures View(state) == AddKeyBlock(old(View(state)), key, k)
  {
    hide AddKeyColumn;
    AddKeyOne(state, 0, key[k]);
    AddKeyOne(state, 1, key[k + 1]);
    AddKeyOne(state, 2, key[k + 2]);
    AddKeyOne(state, 3, key[k + 3]);
  }

  /** One line of full rounds in `aes_encrypt`. */
  method EncryptRound(state: array2<byte>, key: seq<word>, r: nat, ghost b: Block)
    requires IsState(state) && r > 0 && 4 * r + 4 <= |key| && View(state) == Rounds(b, key, r - 1)
    modifies state
    ensures View(state) == Rounds(b, key, r)
  {
    hide SubBlock, ShiftBlock, MixBlock, AddKeyBlock, View;
    SubBytes(state); ShiftRows(state); MixColumns(state); AddRoundKey(state, key, 4 * r);
  }

  /** The last round, without MixColumns. */
  method LastRound(state: array2<byte>, key: seq<word>, n: nat, ghost b: Block)
    requires IsState(state) && n > 0 && 4 * n + 4 <= |key|
    requires View(state) == Rounds(AddKeyBlock(b, key, 0), key, n - 1)
    modifies state
    ensures View(state) == Cipher(b, key, n)
  {
    hide SubBlock, ShiftBlock, MixBlock, AddKeyBlock, View, Rounds;
    SubBytes(state); ShiftRows(state); AddRoundKey(state, key, 4 * n);
  }

  method FillState(state: array2<byte>, input: seq<byte>)
    requires IsState(state) && |input| == 16
    modifies state
    ensures View(state) == Load(input)
  {
    forall r, c | 0 <= r < 4 && 0 <= c < 4 { state[r, c] := input[4 * c + r]; }
  }

  /** `aes_encrypt`. */
  method Encrypt(input: seq<byte>, key: seq<word>, keysize: int) returns (out: seq<byte>)
    requires |input| == 16 && 4 * EncryptRounds(keysize) + 4 <= |key|
    ensures out == Encrypted(input, key, keysize)
  {
    hide Rounds, Cipher, AddKeyBlock, View, Load, Store;
    ghost var b := Load(input);
    var state := new byte[4, 4];
    FillState(state, input);
    AddRoundKey(state, key, 0);
    ghost var start := View(state);
    NoRounds(start, key);
    EncryptRound(state, key, 1, start);
    EncryptRound(state, key, 2, start);
    EncryptRound(state, key, 3, start);
    EncryptRound(state, key, 4, start);
    EncryptRound(state, key, 5, start);
    EncryptRound(state, key, 6, start);
    EncryptRound(state, key, 7, start);
    EncryptRound(state, key, 8, start);
    EncryptRound(state, key, 9, start);
    if keysize != 128 {
      EncryptRound(state, key, 10, start);
      EncryptRound(state, key, 11, start);
      if keysize != 192 {
        EncryptRound(state, key, 12, start);
        EncryptRound(state, key, 13, start);
        LastRound(state, key, 14, b);
      } else {
        LastRound(state, key, 12, b);
      }
    } else {
      LastRound(state, key, 10, b);
    }
    out := Store(View(state));
  }

  lemma NoRounds(b: Block, key: seq<word>)
    requires 4 <= |key|
    ensures Rounds(b, key, 0) == b == InvRounds(b, key, 0)
  {
  }

  /** One line of inverse rounds in `aes_decrypt`. */
  method DecryptRound(state: array2<byte>, key: seq<word>, r: nat, ghost goal: Block)
    requires IsState(state) && r > 0 && 4 * r + 4 <= |key| && InvRounds(View(state), key, r) == goal
    modifies state
    ensures InvRounds(View(state), key, r - 1) == goal
  {
    hide InvSubBlock, InvShiftBlock, InvMixBlock, AddKeyBlock, View;
    InvShiftRows(state); InvSubBytes(state); AddRoundKey(state, key, 4 * r); InvMixColumns(state);
  }

  /** `aes_decrypt`. */
  method Decrypt(input: seq<byte>, key: seq<word>, keysize: int) returns (out: seq<byte>)
    requires |input| == 16 && 4 * DecryptRounds(keysize) + 4 <= |key|
    ensures out == Decrypted(input, key, keysize)
  {
    hide InvRounds, AddKeyBlock, View, Load, Store, InvSubBlock, InvShiftBlock;
    var state := new byte[4, 4];
    FillState(state, input);
    ghost var n := DecryptRounds(keysize);
    ghost var goal := InvRounds(AddKeyBlock(Load(input), key, 4 * n), key, n - 1);
    if keysize > 128 {
      if keysize > 192 {
        AddRoundKey(state, key, 56);
        DecryptRound(state, key, 13, goal);
        DecryptRound(state, key, 12, goal);
      } else {
        AddRoundKey(state, key, 48);
      }
      DecryptRound(state, key, 11, goal);
      DecryptRound(state, key, 10, goal);
    } else {
      AddRoundKey(state, key, 40);
    }
    DecryptRound(state, key, 9, goal);
    DecryptRound(state, key, 8, goal);
    DecryptRound(state, key, 7, goal);
    DecryptRound(state, key, 6, goal);
    DecryptRound(state, key, 5, goal);
    DecryptRound(state, key, 4, goal);
    DecryptRound(state, key, 3, goal);
    DecryptRound(state, key, 2, goal);
    DecryptRound(state, key, 1, goal);
    NoRounds(View(state), key);
    InvShiftRows(state); InvSubBytes(state); AddRoundKey(state, key, 0);
    out := Store(View(state));
  }
}
