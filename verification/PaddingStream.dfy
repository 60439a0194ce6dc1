/**
 The padding stream a 17-word seed stands for: seed expansion, the lossy output transform,
 and the bytes that follow.
 */
module PaddingStream {
  import opened Words
  import opened Recurrence

  const SEED_WORDS: nat := 17
  const PERIOD_BYTES: nat := 2084

  type Seed = s: seq<Word> | |s| == SEED_WORDS witness seq(SEED_WORDS, _ => 0)

  /** One step of seed expansion, from the words 17, 16 and 1 places back. */
  function Mix(a: Word, b: Word, c: Word): Word {
    ((a << 23) ^ (b >> 9)) ^ c
  }

  /** Word `i` of the expanded seed, before the output transform. */
  ghost function Raw(seed: Seed, i: nat): Word
    decreases i
  {
    if i < SEED_WORDS then seed[i] else Mix(Raw(seed, i - 17), Raw(seed, i - 16), Raw(seed, i - 1))
  }

  /** The part of the output transform that loses bits 16 and 17. */
  function Drop(w: Word): Word {
    (w & 0xff00ffff) | ((w >> 2) & 0x00ff0000)
  }

  /** A word without the two bits `Drop` loses. */
  function Kept(w: Word): Word {
    w & 0xfffcffff
  }

  /** What `Drop` leaves of a word, put back in place. */
  function Undrop(y: Word): Word {
    (y & 0xff00ffff) | ((y << 2) & 0x00fc0000)
  }

  /** A seed word from its own output and two outputs further on, which carry its lost bits. */
  function Recover(y: Word, hi: Word, lo: Word): Word {
    Refill(Undrop(y), hi, lo)
  }

  /** Bits 16 and 17 taken from bits 7 and 8 of the difference of two words. */
  function Refill(w: Word, hi: Word, lo: Word): Word {
    w | (((hi ^ lo) << 9) & 0x00030000)
  }

  /** Every output word has bits 22-23 equal to bits 24-25. */
  predicate Doubled(x: Word) {
    x & 0x00c00000 == (x >> 2) & 0x00c00000
  }

  /** The generator's first period. */
  ghost function Origin(seed: Seed): Period {
    seq(K, i requires 0 <= i < K => Swap32(Drop(Raw(seed, i))))
  }

  /** Byte `n` of a word sequence, least significant byte of each word first. */
  ghost function ByteAt(s: Period, n: nat): Byte {
    Lane(At(s, n / 4), n % 4)
  }

  ghost function Bytes(s: Period, from: nat, count: nat): (r: seq<Byte>)
    ensures |r| == count
  {
    seq(count, k requires 0 <= k < count => ByteAt(s, from + k))
  }

  /** Byte `n` of the padding stream of `seed`: four periods are discarded first. */
  ghost function PadByte(seed: Seed, n: nat): Byte {
    ByteAt(Origin(seed), 4 * PERIOD_BYTES + n)
  }

  ghost function PadBytes(seed: Seed, from: nat, count: nat): (r: seq<Byte>)
    ensures |r| == count
  {
    Bytes(Origin(seed), 4 * PERIOD_BYTES + from, count)
  }

  /** The seed detection returns for the stream of `seed`: bits 16-17 of word 0 are not the seed's own. */
  function Canonical(seed: Seed): Seed {
    seed[0 := Refill(Kept(seed[0]), seed[16], seed[15])]
  }

  /** The seed read out of a first period. */
  ghost function Recovered(s: Period): Seed {
    seq(SEED_WORDS, i requires 0 <= i < SEED_WORDS => Recover(Swap32(s[i]), Swap32(s[i + 16]), Swap32(s[i + 15])))
  }

  /** Expanding the recovered seed gives the period back, as far as the output shows. */
  ghost predicate Consistent(s: Period) {
    forall i | SEED_WORDS <= i < K :: Kept(Raw(Recovered(s), i)) == Undrop(Swap32(s[i]))
  }

  // ---------- one word at a time ----------

  lemma UndropDrop(w: Word)
    ensures Undrop(Drop(w)) == Kept(w)
  {}

  lemma DropIgnoresLostBits(v: Word, w: Word)
    requires Kept(v) == Kept(w)
    ensures Drop(v) == Drop(w)
  {}

  lemma DropDoubled(w: Word)
    ensures Doubled(Drop(w))
  {}

  lemma DoubledXor(a: Word, b: Word)
    requires Doubled(a) && Doubled(b)
    ensures Doubled(Xor(a, b))
  {}

  /** The lost bits of `w` reappear in the difference of the outputs 16 and 15 places on. */
  lemma RecoverLost(p: Word, w: Word, lo: Word)
    ensures Recover(Drop(w), Drop(Mix(p, w, lo)), Drop(lo)) == w
  {}

  lemma RecoverFirst(w: Word, hi: Word, lo: Word)
    ensures Recover(Drop(w), Drop(hi), Drop(lo)) == Refill(Kept(w), hi, lo)
  {}

  lemma LostBitsShiftedOut(v: Word, w: Word, b: Word, c: Word)
    requires Kept(v) == Kept(w)
    ensures Mix(v, b, c) == Mix(w, b, c)
  {}

  lemma RefillKept(w: Word, hi: Word, lo: Word)
    ensures Kept(Refill(Kept(w), hi, lo)) == Kept(w)
  {}

  // ---------- whole seeds ----------

  /** The canonical seed expands to the same words, its very first aside. */
  lemma {:induction false} CanonicalRaw(seed: Seed, i: nat)
    ensures i > 0 ==> Raw(Canonical(seed), i) == Raw(seed, i)
    ensures Kept(Raw(Canonical(seed), i)) == Kept(Raw(seed, i))
    decreases i
  {
    if i == 0 {
      RefillKept(seed[0], seed[16], seed[15]);
    } else if i >= SEED_WORDS {
      CanonicalRaw(seed, i - 17);
      CanonicalRaw(seed, i - 16);
      CanonicalRaw(seed, i - 1);
      LostBitsShiftedOut(Raw(Canonical(seed), i - 17), Raw(seed, i - 17), Raw(seed, i - 16), Raw(seed, i - 1));
    }
  }

  /** The canonical seed stands for the same stream. */
  lemma CanonicalOrigin(seed: Seed)
    ensures Origin(Canonical(seed)) == Origin(seed)
  {
    forall i | 0 <= i < K
      ensures Origin(Canonical(seed))[i] == Origin(seed)[i]
    {
      CanonicalRaw(seed, i);
      DropIgnoresLostBits(Raw(Canonical(seed), i), Raw(seed, i));
    }
  }

  /** Seed recovery from the first period of any seed's stream. */
  lemma RecoveredOrigin(seed: Seed)
    ensures Recovered(Origin(seed)) == Canonical(seed)
    ensures Consistent(Origin(seed))
  {
    forall i | 0 <= i < SEED_WORDS
      ensures Recovered(Origin(seed))[i] == Canonical(seed)[i]
    {
      RecoveredWord(seed, i);
    }
    forall i | SEED_WORDS <= i < K
      ensures Kept(Raw(Canonical(seed), i)) == Undrop(Swap32(Origin(seed)[i]))
    {
      CanonicalRaw(seed, i);
      SwapInvolution(Drop(Raw(seed, i)));
      UndropDrop(Raw(seed, i));
    }
  }

  lemma RecoveredWord(seed: Seed, i: nat)
    requires i < SEED_WORDS
    ensures Recovered(Origin(seed))[i] == Canonical(seed)[i]
  {
    SwapInvolution(Drop(Raw(seed, i)));
    SwapInvolution(Drop(Raw(seed, i + 16)));
    SwapInvolution(Drop(Raw(seed, i + 15)));
    if i == 0 {
      RecoverFirst(seed[0], seed[16], seed[15]);
    } else {
      RecoverLost(Raw(seed, i - 1), Raw(seed, i), Raw(seed, i + 15));
      assert Raw(seed, i + 16) == Mix(Raw(seed, i - 1), Raw(seed, i), Raw(seed, i + 15));
    }
  }

  /** The bit pair the filter tests agrees in every word of every stream. */
  lemma {:induction false} StreamDoubled(seed: Seed, n: nat)
    ensures Doubled(Swap32(At(Origin(seed), n)))
    decreases n
  {
    hide Swap32, Doubled, Drop, Xor, Raw;
    var s := Origin(seed);
    if n < K {
      SwapInvolution(Drop(Raw(seed, n)));
      DropDoubled(Raw(seed, n));
    } else {
      StreamDoubled(seed, n - K);
      StreamDoubled(seed, n - J);
      SwapXor(At(s, n - K), At(s, n - J));
      DoubledXor(Swap32(At(s, n - K)), Swap32(At(s, n - J)));
    }
  }
}
