/** Bytes, 32-bit words and their exclusive or. */
module Bytes {

  type byte = bv8
  type word = bv32

  lemma AsByte(d: nat)
    requires d < 256
    ensures d as byte as nat == d
  {
  }

  function Zeros(n: nat): (z: seq<byte>)
    ensures |z| == n && forall i :: 0 <= i < n ==> z[i] == 0
  {
    seq(n, _ => 0)
  }

  lemma ZerosAdd(m: nat, n: nat)
    ensures Zeros(m) + Zeros(n) == Zeros(m + n)
  {
    hide Zeros;
  }

  /** The unsigned big-endian value of a byte string. */
  function Value(s: seq<byte>): nat {
    if s == [] then 0 else 256 * Value(s[..|s| - 1]) + s[|s| - 1] as nat
  }

  function Byte3(w: word): byte { ((w >> 24) & 0xff) as byte }
  function Byte2(w: word): byte { ((w >> 16) & 0xff) as byte }
  function Byte1(w: word): byte { ((w >> 8) & 0xff) as byte }
  function Byte0(w: word): byte { (w & 0xff) as byte }

  function BeWord(w: word): (b: seq<byte>)
    ensures |b| == 4
  {
    [Byte3(w), Byte2(w), Byte1(w), Byte0(w)]
  }

  /** The most significant byte comes first. */
  lemma BeWordIs(w: word)
    ensures var b := BeWord(w); (b[0] as word << 24) | (b[1] as word << 16) | (b[2] as word << 8) | b[3] as word == w
  {
  }

  /** Words, each most significant byte first. */
  function BeWords(s: seq<word>): (d: seq<byte>)
    ensures |d| == 4 * |s|
  {
    if s == [] then [] else BeWord(s[0]) + BeWords(s[1..])
  }

  lemma {:induction false} BeWordsAt(s: seq<word>, i: nat)
    requires i < |s|
    ensures BeWords(s)[4 * i..4 * i + 4] == BeWord(s[i])
  {
    hide BeWord;
    if i > 0 {
      BeWordsAt(s[1..], i - 1);
      assert BeWords(s)[4 * i..4 * i + 4] == BeWords(s[1..])[4 * (i - 1)..4 * (i - 1) + 4];
    }
  }

  /** Bytewise exclusive or. */
  function Xor(a: seq<byte>, b: seq<byte>): (r: seq<byte>)
    requires |a| == |b|
    ensures |r| == |a| && forall i :: 0 <= i < |r| ==> r[i] == a[i] ^ b[i]
  {
    seq(|a|, i requires 0 <= i < |a| == |b| => a[i] ^ b[i])
  }

  function XorWords(a: seq<word>, b: seq<word>): (r: seq<word>)
    requires |a| == |b|
    ensures |r| == |a|
  {
    if a == [] then [] else [a[0] ^ b[0]] + XorWords(a[1..], b[1..])
  }

  lemma XorBytes(a: word, b: word)
    ensures Byte3(a ^ b) == Byte3(a) ^ Byte3(b) && Byte2(a ^ b) == Byte2(a) ^ Byte2(b)
    ensures Byte1(a ^ b) == Byte1(a) ^ Byte1(b) && Byte0(a ^ b) == Byte0(a) ^ Byte0(b)
  {
  }

  lemma XorFour(a: seq<byte>, b: seq<byte>)
    requires |a| == |b| == 4
    ensures Xor(a, b) == [a[0] ^ b[0], a[1] ^ b[1], a[2] ^ b[2], a[3] ^ b[3]]
  {
    hide Xor;
  }

  lemma XorWord(a: word, b: word)
    ensures BeWord(a ^ b) == Xor(BeWord(a), BeWord(b))
  {
    hide Byte3, Byte2, Byte1, Byte0, Xor;
    XorBytes(a, b);
    XorFour(BeWord(a), BeWord(b));
  }

  lemma XorAppend(a: seq<byte>, b: seq<byte>, c: seq<byte>, d: seq<byte>)
    requires |a| == |b| && |c| == |d|
    ensures Xor(a + c, b + d) == Xor(a, b) + Xor(c, d)
  {
    hide Xor;
  }

  /** Exclusive or on words is exclusive or on the bytes they stand for. */
  lemma {:induction false} XorBeWords(a: seq<word>, b: seq<word>)
    requires |a| == |b|
    ensures BeWords(XorWords(a, b)) == Xor(BeWords(a), BeWords(b))
  {
    hide BeWord, Xor;
    if a == [] {
      XorNothing();
    } else {
      XorBeWords(a[1..], b[1..]);
      XorWord(a[0], b[0]);
      assert XorWords(a, b)[1..] == XorWords(a[1..], b[1..]);
      XorAppend(BeWord(a[0]), BeWord(b[0]), BeWords(a[1..]), BeWords(b[1..]));
    }
  }

  lemma XorNothing()
    ensures Xor([], []) == []
  {
  }
}
