/** Fixed-width values of the codec and the single-bit view of them.
    A character of the text is one 8-bit code unit (`Byte`); an encoded
    chunk is one unsigned 32-bit word (`Word`). Bit positions are kept as
    bit-vectors themselves so that every fact about them stays in the
    bit-vector theory. */
module Bits {

  type Byte = bv8
  type Word = bv32

  /** Bit `p` (0 = least significant) of a byte. */
  predicate ByteBit(b: Byte, p: Word)
    requires p < 8
  {
    (b >> p) & 1 == 1
  }

  /** Bit `j` (0 = least significant) of a word. */
  predicate WordBit(w: Word, j: Word)
    requires j < 32
  {
    (w >> j) & 1 == 1
  }

  /** OR-ing in a single set bit changes exactly that bit of a word. */
  lemma SetWordBit(a: Word, k: Word, j: Word)
    requires k < 32 && j < 32
    ensures WordBit(a | (1 << k), j) == (WordBit(a, j) || j == k)
  {
  }

  /** OR-ing in a single set bit changes exactly that bit of a byte. */
  lemma SetByteBit(a: Byte, q: Word, p: Word)
    requires q < 8 && p < 8
    ensures ByteBit(a | (1 << q), p) == (ByteBit(a, p) || p == q)
  {
  }

  /** Two words equal above bit `n` and equal at bit `n` are equal from
      bit `n` up. */
  lemma ShiftAgreeStep(a: Word, b: Word, n: Word)
    requires n < 32
    requires a >> (n + 1) == b >> (n + 1)
    requires WordBit(a, n) == WordBit(b, n)
    ensures a >> n == b >> n
  {
  }

  /** Two words that agree on every bit from `n` up agree once shifted right
      by `n`. */
  lemma {:induction false} HighBitsAgree(a: Word, b: Word, n: Word)
    requires n <= 32
    requires forall j: Word | n <= j < 32 :: WordBit(a, j) == WordBit(b, j)
    ensures a >> n == b >> n
    decreases 32 - n
  {
    if n < 32 {
      HighBitsAgree(a, b, n + 1);
      ShiftAgreeStep(a, b, n);
    }
  }

  /** A word is determined by its 32 bits. */
  lemma WordExt(a: Word, b: Word)
    requires forall j: Word | j < 32 :: WordBit(a, j) == WordBit(b, j)
    ensures a == b
  {
    HighBitsAgree(a, b, 0);
  }

  /** A byte is determined by its 8 bits. */
  lemma ByteExt(a: Byte, b: Byte)
    requires forall p: Word | p < 8 :: ByteBit(a, p) == ByteBit(b, p)
    ensures a == b
  {
    assert ByteBit(a, 0) == ByteBit(b, 0) && ByteBit(a, 1) == ByteBit(b, 1);
    assert ByteBit(a, 2) == ByteBit(b, 2) && ByteBit(a, 3) == ByteBit(b, 3);
    assert ByteBit(a, 4) == ByteBit(b, 4) && ByteBit(a, 5) == ByteBit(b, 5);
    assert ByteBit(a, 6) == ByteBit(b, 6) && ByteBit(a, 7) == ByteBit(b, 7);
  }
}
