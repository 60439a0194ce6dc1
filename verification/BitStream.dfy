/**
 Some seeds are stretches of one bit sequence that obeys the lagged recurrence itself; their
 padding is then that same sequence read on, 32 bits a word. Since such a sequence can be fixed
 at any place and run backwards, padding can be made to show chosen bits at a chosen place.
 */
module BitStream {
  import opened Words
  import opened Recurrence
  import opened PaddingStream

  /** Bit `m` of the sequence that begins with the low bits of `p`. */
  ghost function Bit(p: Period, m: nat): Word {
    At(p, m) & 1
  }

  /** The `n` bits from bit `m` on, first bit highest. */
  ghost function Bits(p: Period, m: nat, n: nat): Word
    decreases n
  {
    if n == 0 then 0 else Append(Bits(p, m, n - 1), Bit(p, m + n - 1))
  }

  function Append(w: Word, bit: Word): Word {
    (w << 1) | (bit & 1)
  }

  function Mask(n: nat): Word {
    if n == 0 then 0 else Append(Mask(n - 1), 1)
  }

  /** The seed whose 17 words are the first 544 bits. */
  ghost function BitSeed(p: Period): Seed {
    seq(SEED_WORDS, i requires 0 <= i < SEED_WORDS => Bits(p, 32 * i, 32))
  }

  // ---------- squaring the recurrence ----------

  /** Over GF(2) the recurrence also holds with every lag doubled, any number of times. */
  lemma {:induction false} Squared(p: Period, k: nat, m: nat)
    ensures At(p, m + K * Pow2(k)) == Xor(At(p, m), At(p, m + (K - J) * Pow2(k)))
    decreases k
  {
    hide At, Xor;
    if k == 0 {
      AtStep(p, m);
      assert At(p, m + K) == Xor(At(p, m), At(p, m + K - J));
    } else {
      var a, c := K * Pow2(k - 1), (K - J) * Pow2(k - 1);
      Squared(p, k - 1, m);
      Squared(p, k - 1, m + a);
      Squared(p, k - 1, m + c);
      assert m + a + c == m + c + a && m + K * Pow2(k) == m + a + a && m + (K - J) * Pow2(k) == m + c + c;
      XorShared(At(p, m), At(p, m + c), At(p, m + c + c));
    }
  }

  lemma AtStep(p: Period, m: nat)
    ensures At(p, m + K) == Xor(At(p, m), At(p, m + K - J))
  {}

  lemma XorShared(x: Word, y: Word, z: Word)
    ensures Xor(Xor(x, y), Xor(y, z)) == Xor(x, z)
  {}

  // ---------- words of bits ----------

  lemma AppendXor(v: Word, w: Word, a: Word, b: Word)
    ensures Append(Xor(v, w), Xor(a, b) & 1) == Xor(Append(v, a & 1), Append(w, b & 1))
  {}

  ghost predicate Sums(p: Period, x: nat, y: nat, z: nat, j: nat) {
    At(p, x + j) == Xor(At(p, y + j), At(p, z + j))
  }

  lemma {:induction false} BitsXor(p: Period, x: nat, y: nat, z: nat, n: nat)
    requires forall j | 0 <= j < n :: Sums(p, x, y, z, j)
    ensures Bits(p, x, n) == Xor(Bits(p, y, n), Bits(p, z, n))
    decreases n
  {
    hide At, Xor, Append;
    if n == 0 {
      XorCancel(0, 0);
    } else {
      BitsXor(p, x, y, z, n - 1);
      assert Sums(p, x, y, z, n - 1);
      AppendXor(Bits(p, y, n - 1), Bits(p, z, n - 1), At(p, y + n - 1), At(p, z + n - 1));
    }
  }

  function Masked(w: Word, m: Word): Word {
    w & m
  }

  lemma AppendMasked(w: Word, m: Word, bit: Word)
    ensures Masked(Append(w, bit), Append(m, 1)) == Append(Masked(w, m), bit)
    ensures Masked(w, 0) == 0
  {}

  /** Moving the window one bit on drops the first bit. */
  lemma {:induction false} DropFirstBit(p: Period, m: nat, n: nat)
    ensures Masked(Bits(p, m, n + 1), Mask(n)) == Bits(p, m + 1, n)
    ensures Masked(Bits(p, m, n), Mask(n)) == Bits(p, m, n)
    decreases n
  {
    hide Masked, Append, Bit;
    if n == 0 {
      AppendMasked(Bits(p, m, 1), 0, 0);
      AppendMasked(Bits(p, m, 0), 0, 0);
    } else {
      DropFirstBit(p, m, n - 1);
      AppendMasked(Bits(p, m, n), Mask(n - 1), Bit(p, m + n));
      AppendMasked(Bits(p, m, n - 1), Mask(n - 1), Bit(p, m + n - 1));
    }
  }

  /** `y` is `x` moved on by `k` bits: they share all but `k` of their bits. */
  predicate Slid(x: Word, y: Word) {
    y >> 1 == x & 0x7fff_ffff
  }

  lemma Mask31()
    ensures Mask(31) == 0x7fff_ffff
  {
    assert Mask(8) == 0xff;
    assert Mask(16) == 0xffff;
    assert Mask(24) == 0xff_ffff;
  }

  lemma SlideOne(p: Period, m: nat)
    ensures Slid(Bits(p, m, 32), Bits(p, m + 1, 32))
  {
    Mask31();
    hide Masked, Append, Slid, Bit, Mask;
    DropFirstBit(p, m, 31);
    SlidAppend(Bits(p, m, 32), Bit(p, m + 32));
  }

  lemma SlidAppend(x: Word, bit: Word)
    ensures Slid(x, Append(Masked(x, 0x7fff_ffff), bit))
  {}

  /** Eight single steps. */
  predicate Slid8(x: Word, y: Word) {
    y >> 8 == x & 0x00ff_ffff
  }

  predicate Slid7(x: Word, y: Word) {
    y >> 7 == x & 0x01ff_ffff
  }

  predicate Slid9(x: Word, y: Word) {
    y >> 9 == x & 0x007f_ffff
  }

  predicate Slid23(x: Word, y: Word) {
    y >> 23 == x & 0x0000_01ff
  }

  lemma SlideSeven(p: Period, m: nat)
    ensures Slid7(Bits(p, m, 32), Bits(p, m + 7, 32))
  {
    hide Bits, Slid, Slid7;
    SlideOne(p, m);
    SlideOne(p, m + 1);
    SlideOne(p, m + 2);
    SlideOne(p, m + 3);
    SlideOne(p, m + 4);
    SlideOne(p, m + 5);
    SlideOne(p, m + 6);
    Slides7(Bits(p, m, 32), Bits(p, m + 1, 32), Bits(p, m + 2, 32), Bits(p, m + 3, 32), Bits(p, m + 4, 32),
            Bits(p, m + 5, 32), Bits(p, m + 6, 32), Bits(p, m + 7, 32));
  }

  lemma Slides7(a: Word, b: Word, c: Word, d: Word, e: Word, f: Word, g: Word, h: Word)
    requires Slid(a, b) && Slid(b, c) && Slid(c, d) && Slid(d, e) && Slid(e, f) && Slid(f, g) && Slid(g, h)
    ensures Slid7(a, h)
  {}

  lemma SlideEight(p: Period, m: nat)
    ensures Slid8(Bits(p, m, 32), Bits(p, m + 8, 32))
  {
    hide Bits, Slid, Slid7, Slid8;
    SlideSeven(p, m);
    SlideOne(p, m + 7);
    Slides8(Bits(p, m, 32), Bits(p, m + 7, 32), Bits(p, m + 8, 32));
  }

  lemma Slides8(a: Word, b: Word, c: Word)
    requires Slid7(a, b) && Slid(b, c)
    ensures Slid8(a, c)
  {}

  lemma Slides9(a: Word, b: Word, c: Word)
    requires Slid8(a, b) && Slid(b, c)
    ensures Slid9(a, c)
  {}

  lemma Slides23(a: Word, b: Word, c: Word, d: Word)
    requires Slid8(a, b) && Slid8(b, c) && Slid7(c, d)
    ensures Slid23(a, d)
  {}

  /** The 32 bits that begin 23 bits into `a` and run on into `b`. */
  function Across(a: Word, b: Word): Word {
    (a << 23) ^ (b >> 9)
  }

  /** A window 23 bits on, from the words on either side. */
  lemma Straddle(p: Period, m: nat)
    ensures Across(Bits(p, m, 32), Bits(p, m + 32, 32)) == Bits(p, m + 23, 32)
  {
    hide Bits, Slid, Slid7, Slid8, Slid9, Slid23, Across;
    SlideEight(p, m);
    SlideEight(p, m + 8);
    SlideSeven(p, m + 16);
    Slides23(Bits(p, m, 32), Bits(p, m + 8, 32), Bits(p, m + 16, 32), Bits(p, m + 23, 32));
    SlideEight(p, m + 23);
    SlideOne(p, m + 31);
    Slides9(Bits(p, m + 23, 32), Bits(p, m + 31, 32), Bits(p, m + 32, 32));
    Joined(Bits(p, m, 32), Bits(p, m + 23, 32), Bits(p, m + 32, 32));
  }

  lemma Joined(x: Word, y: Word, z: Word)
    requires Slid23(x, y) && Slid9(y, z)
    ensures Across(x, z) == y
  {}

  // ---------- the padding stream ----------

  /** Seed expansion reads the bit sequence on. */
  lemma {:induction false} RawBits(p: Period, i: nat)
    ensures Raw(BitSeed(p), i) == Bits(p, 32 * i, 32)
    decreases i
  {
    hide Bits, Mix, Xor, Across;
    if i >= SEED_WORDS {
      RawBits(p, i - 17);
      RawBits(p, i - 16);
      RawBits(p, i - 1);
      var m := 32 * (i - 17);
      Straddle(p, m);
      StepByWords(p, 32 * i, m + 23, 32 * (i - 1));
      MixIsXor(Bits(p, m, 32), Bits(p, m + 32, 32), Bits(p, 32 * (i - 1), 32));
    }
  }

  lemma StepByWords(p: Period, x: nat, y: nat, z: nat)
    requires x == y + K && x == z + J
    ensures Bits(p, x, 32) == Xor(Bits(p, y, 32), Bits(p, z, 32))
  {
    hide Xor, At, Bits;
    forall j | 0 <= j < 32
      ensures Sums(p, x, y, z, j)
    {
      AtStep(p, y + j);
      assert y + j + K == x + j && y + j + K - J == z + j;
    }
    BitsXor(p, x, y, z, 32);
  }

  lemma MixIsXor(a: Word, b: Word, c: Word)
    ensures Mix(a, b, c) == Xor(Across(a, b), c)
  {}

  lemma OutputXor(a: Word, b: Word)
    ensures Swap32(Drop(Xor(a, b))) == Xor(Swap32(Drop(a)), Swap32(Drop(b)))
  {}

  /** Every word of the padding stream of such a seed is the next 32 bits of the sequence. */
  lemma {:induction false} StreamBits(p: Period, n: nat)
    ensures At(Origin(BitSeed(p)), n) == Swap32(Drop(Bits(p, 32 * n, 32)))
    decreases n
  {
    hide Bits, Swap32, Drop, Xor, Raw;
    if n < K {
      RawBits(p, n);
    } else {
      StreamBits(p, n - K);
      StreamBits(p, n - J);
      StepByPeriods(p, n);
      OutputXor(Bits(p, 32 * (n - K), 32), Bits(p, 32 * (n - J), 32));
    }
  }

  lemma StepByPeriods(p: Period, n: nat)
    requires n >= K
    ensures Bits(p, 32 * n, 32) == Xor(Bits(p, 32 * (n - K), 32), Bits(p, 32 * (n - J), 32))
  {
    hide Xor, At, Bits;
    var x, y, z := 32 * n, 32 * (n - K), 32 * (n - J);
    assert Pow2(5) == 32;
    forall j | 0 <= j < 32
      ensures Sums(p, x, y, z, j)
    {
      Squared(p, 5, y + j);
      assert y + j + K * 32 == x + j && y + j + (K - J) * 32 == z + j;
    }
    BitsXor(p, x, y, z, 32);
  }
}
