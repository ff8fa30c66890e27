/** Sequence numbers that wrap at 16 or 32 bits: `rist_seq_gap` and `rist_seq_next` of
    src/rist-private.h. */
module SeqNo {

  const B16: nat := 0x1_0000
  const B32: nat := 0x1_0000_0000

  function Modulus(shortSeq: bool): nat {
    if shortSeq then B16 else B32
  }

  /** `rist_seq_gap`: how far `current` is ahead of `last`. */
  function Gap(current: nat, last: nat, shortSeq: bool): (g: nat)
    ensures g < Modulus(shortSeq)
  {
    (current - last) % Modulus(shortSeq)
  }

  /** `rist_seq_next`. */
  function Next(last: nat, shortSeq: bool): nat {
    (last + 1) % B32 % Modulus(shortSeq)
  }
}
