/**
 Bytes, 32-bit words and the conversions between them that the generator and the record
 format rely on. Words wrap exactly as the machine's `u32` does.
 */
module Words {
  type Byte = bv8
  type Word = bv32

  /** Reverses the four bytes of a word. */
  function Swap32(v: Word): Word {
    ((v & 0xff) << 24) | ((v & 0xff00) << 8) | ((v >> 8) & 0xff00) | ((v >> 24) & 0xff)
  }

  /** Exclusive or; named so that proofs about sequences of words need not look inside it. */
  function Xor(a: Word, b: Word): Word {
    a ^ b
  }

  /** Byte `k` of a word, counted from the least significant end. */
  function Lane(w: Word, k: nat): Byte
    requires k < 4
  {
    if k == 0 then (w & 0xff) as Byte
    else if k == 1 then ((w >> 8) & 0xff) as Byte
    else if k == 2 then ((w >> 16) & 0xff) as Byte
    else ((w >> 24) & 0xff) as Byte
  }

  /** The word whose big-endian bytes are `b0`, `b1`, `b2`, `b3`. */
  function FromBe(b0: Byte, b1: Byte, b2: Byte, b3: Byte): Word {
    (b0 as Word << 24) | (b1 as Word << 16) | (b2 as Word << 8) | (b3 as Word)
  }

  lemma SwapInvolution(v: Word)
    ensures Swap32(Swap32(v)) == v
  {}

  lemma SwapXor(a: Word, b: Word)
    ensures Swap32(Xor(a, b)) == Xor(Swap32(a), Swap32(b))
  {}

  /** Reading a word's little-endian bytes as a big-endian word reverses it. */
  lemma LanesReadBigEndian(w: Word)
    ensures FromBe(Lane(w, 0), Lane(w, 1), Lane(w, 2), Lane(w, 3)) == Swap32(w)
  {}

  /** A word is determined by its four bytes. */
  lemma LanesDetermine(v: Word, w: Word)
    requires forall k | 0 <= k < 4 :: Lane(v, k) == Lane(w, k)
    ensures v == w
  {
    assert Lane(v, 0) == Lane(w, 0) && Lane(v, 1) == Lane(w, 1) && Lane(v, 2) == Lane(w, 2) && Lane(v, 3) == Lane(w, 3);
    LanesReadBigEndian(v);
    LanesReadBigEndian(w);
    SwapInvolution(v);
    SwapInvolution(w);
  }

  lemma XorCancel(a: Word, b: Word)
    ensures Xor(Xor(a, b), b) == a
    ensures Xor(Xor(a, b), a) == b
    ensures Xor(a, a) == 0 && Xor(a, 0) == a
  {}

  function Pow2(k: nat): nat {
    if k == 0 then 1 else 2 * Pow2(k - 1)
  }
}
