/**
 The 15-bit shift register that scrambles a sector, feedback x^15 + x^4 + 1 (section 17 of
 ECMA-267), and its meeting with the error detection code: no nonzero register state has a
 2048-byte output whose code is zero.
 */
module Lfsr {
  import opened Words
  import opened Edc

  /** A 16-bit seed. */
  type Seed16 = n: nat | n < 0x1_0000 witness 0

  const USER_SECTOR_SIZE: nat := 2048

  function OutBit(l: Word): Word {
    (l >> 14) & 1
  }

  /** One step of the register. */
  function Next(l: Word): Word {
    ((l << 1) | (OutBit(l) ^ ((l >> 10) & 1))) & 0x7fff
  }

  function Next8(l: Word): Word {
    Next4(Next4(l))
  }

  function Next4(l: Word): Word {
    Next(Next(Next(Next(l))))
  }

  /** Eight output bits are the register's top eight bits. */
  function OutByte(l: Word): Byte {
    ((l >> 7) & 0xff) as Byte
  }

  /** The register's output from state `l` on. */
  function StreamFrom(l: Word, n: nat): (s: seq<Byte>)
    ensures |s| == n
    decreases n
  {
    if n == 0 then [] else [OutByte(l)] + StreamFrom(Next8(l), n - 1)
  }

  /** The register's state after `n` bytes. */
  function NextBytes(l: Word, n: nat): Word
    decreases n
  {
    if n == 0 then l else NextBytes(Next8(l), n - 1)
  }

  /** The word of value `n`, written out bit by bit. */
  function ToWord(n: nat): Word
    decreases n
  {
    if n == 0 then 0 else Push(ToWord(n / 2), n % 2)
  }

  function Push(w: Word, bit: nat): Word {
    if bit == 0 then Shl1(w) else Xor(Shl1(w), 1)
  }

  /** The low 15 bits of a seed. */
  function Low15(seed: Seed16): Seed16 {
    seed % 0x8000
  }

  /** The register takes up the low 15 bits of the seed. */
  function Start(seed: Seed16): Word {
    ToWord(Low15(seed))
  }

  function Stream(seed: Seed16): (s: seq<Byte>)
    ensures |s| == USER_SECTOR_SIZE
  {
    StreamFrom(Start(seed), USER_SECTOR_SIZE)
  }

  // ---------- generating the stream ----------

  function PushBit(byte: Byte, bit: Word): Byte {
    (byte << 1) | ((bit & 1) as Byte)
  }

  /** The register after `n` steps. */
  ghost function NextN(l: Word, n: nat): Word
    decreases n
  {
    if n == 0 then l else Next(NextN(l, n - 1))
  }

  /** The first `n` bits put out, as a byte. */
  ghost function Pushed(l: Word, n: nat): Byte
    decreases n
  {
    if n == 0 then 0 else PushBit(Pushed(l, n - 1), OutBit(NextN(l, n - 1)))
  }

  lemma PushedByte(l: Word)
    ensures NextN(l, 8) == Next8(l) && Pushed(l, 8) == OutByte(l)
  {}

  method NextByte(start: Word) returns (byte: Byte, lfsr: Word)
    ensures byte == OutByte(start) && lfsr == Next8(start)
  {
    hide OutByte, Next8, PushBit, OutBit, Next;
    byte := 0;
    lfsr := start;
    for j := 0 to 8
      invariant lfsr == NextN(start, j) && byte == Pushed(start, j)
    {
      var bit := OutBit(lfsr);
      lfsr := Next(lfsr);
      byte := PushBit(byte, bit);
    }
    PushedByte(start);
  }

  method LfsrStream(seed: Seed16) returns (out: array<Byte>)
    ensures fresh(out) && out[..] == Stream(seed)
  {
    hide OutByte, Next8, StreamFrom;
    var lfsr := Start(seed);
    out := new Byte[USER_SECTOR_SIZE](_ => 0);
    for i := 0 to USER_SECTOR_SIZE
      invariant out[..i] + StreamFrom(lfsr, USER_SECTOR_SIZE - i) == Stream(seed)
    {
      StreamOn(out[..i], lfsr, USER_SECTOR_SIZE - i);
      ghost var before := out[..i];
      out[i], lfsr := NextByte(lfsr);
      assert out[..i + 1] == before + [out[i]];
    }
    StreamStep(lfsr, 0);
    assert out[..] == out[..USER_SECTOR_SIZE];
  }

  lemma StreamStep(l: Word, n: nat)
    ensures StreamFrom(l, n) == if n == 0 then [] else [OutByte(l)] + StreamFrom(Next8(l), n - 1)
  {}

  lemma StreamOn(done: seq<Byte>, l: Word, n: nat)
    requires 0 < n
    ensures done + StreamFrom(l, n) == done + [OutByte(l)] + StreamFrom(Next8(l), n - 1)
  {
    hide OutByte, Next8;
    StreamStep(l, n);
  }

  // ---------- linearity ----------

  lemma NextXor(a: Word, b: Word)
    ensures Next(Xor(a, b)) == Xor(Next(a), Next(b))
  {}

  lemma Next8Xor(a: Word, b: Word)
    ensures Next8(Xor(a, b)) == Xor(Next8(a), Next8(b))
  {
    hide Xor, Next;
    NextXor(a, b);
    NextXor(Next(a), Next(b));
    NextXor(Next(Next(a)), Next(Next(b)));
    NextXor(Next(Next(Next(a))), Next(Next(Next(b))));
    NextXor(Next4(a), Next4(b));
    NextXor(Next(Next4(a)), Next(Next4(b)));
    NextXor(Next(Next(Next4(a))), Next(Next(Next4(b))));
    NextXor(Next(Next(Next(Next4(a)))), Next(Next(Next(Next4(b)))));
  }

  lemma OutByteXor(a: Word, b: Word)
    ensures OutByte(Xor(a, b)) == XorByte(OutByte(a), OutByte(b))
  {}

  /** The stream of an exclusive or of states is the exclusive or of their streams. */
  lemma {:induction false} StreamFromXor(a: Word, b: Word, n: nat)
    ensures StreamFrom(Xor(a, b), n) == XorBytes(StreamFrom(a, n), StreamFrom(b, n))
    decreases n
  {
    hide Xor, Next8, OutByte, XorByte;
    if n != 0 {
      OutByteXor(a, b);
      Next8Xor(a, b);
      StreamFromXor(Next8(a), Next8(b), n - 1);
    }
  }

  /** The register state that stands for the difference of two seeds. */
  function Difference(s: Seed16, c: Seed16): Word {
    Xor(Start(s), Start(c))
  }

  lemma StreamXor(s: Seed16, c: Seed16)
    ensures StreamFrom(Difference(s, c), USER_SECTOR_SIZE) == XorBytes(Stream(s), Stream(c))
  {
    StreamFromXor(Start(s), Start(c), USER_SECTOR_SIZE);
  }

  // ---------- linear functions agree if they agree on single bits ----------

  ghost predicate Additive(f: Word -> Word) {
    forall a: Word, b: Word {:trigger f(Xor(a, b))} :: f(Xor(a, b)) == Xor(f(a), f(b))
  }

  function Half(w: Word): Word { w >> 1 }

  function Odd(w: Word): Word { w & 1 }

  /** `w` has no more than `n` bits. */
  predicate Fits(w: Word, n: nat)
    decreases n
  {
    if n == 0 then w == 0 else Fits(Half(w), n - 1)
  }

  /** The word with only bit `i` set. */
  function Unit(i: nat): Word
    decreases i
  {
    if i == 0 then 1 else Shl1(Unit(i - 1))
  }

  lemma SplitLow(w: Word)
    ensures w == Xor(Odd(w), Shl1(Half(w))) && (Odd(w) == 0 || Odd(w) == 1)
  {}

  lemma {:induction false} Agree(f: Word -> Word, g: Word -> Word, n: nat, w: Word)
    requires Additive(f) && Additive(g) && Fits(w, n)
    requires forall i | 0 <= i < n :: f(Unit(i)) == g(Unit(i))
    ensures f(w) == g(w)
    decreases n, 0
  {
    hide Xor, Shl1, Half, Odd, Additive;
    if n == 0 {
      AdditiveZero(f);
      AdditiveZero(g);
    } else {
      SplitLow(w);
      AdditiveAt(f, Odd(w), Shl1(Half(w)));
      AdditiveAt(g, Odd(w), Shl1(Half(w)));
      AdditiveZero(f);
      AdditiveZero(g);
      assert f(Unit(0)) == g(Unit(0));
      AgreeDoubled(f, g, n, Half(w));
    }
  }

  lemma {:induction false} AgreeDoubled(f: Word -> Word, g: Word -> Word, n: nat, w: Word)
    requires n > 0 && Additive(f) && Additive(g) && Fits(w, n - 1)
    requires forall i | 0 <= i < n :: f(Unit(i)) == g(Unit(i))
    ensures f(Shl1(w)) == g(Shl1(w))
    decreases n - 1, 1
  {
    hide Xor, Shl1, Half, Odd, Additive, Fits;
    var f', g' := (v: Word) => f(Shl1(v)), (v: Word) => g(Shl1(v));
    DoubledAdditive(f);
    DoubledAdditive(g);
    forall i | 0 <= i < n - 1
      ensures f'(Unit(i)) == g'(Unit(i))
    {
      assert f(Unit(i + 1)) == g(Unit(i + 1));
    }
    Agree(f', g', n - 1, w);
  }

  lemma AdditiveAt(f: Word -> Word, a: Word, b: Word)
    requires Additive(f)
    ensures f(Xor(a, b)) == Xor(f(a), f(b))
  {}

  lemma AdditiveZero(f: Word -> Word)
    requires Additive(f)
    ensures f(0) == 0
  {
    hide Xor;
    ZeroXor(0);
    ZeroXor(f(0));
    AdditiveAt(f, 0, 0);
  }

  lemma DoubledAdditive(f: Word -> Word)
    requires Additive(f)
    ensures Additive((v: Word) => f(Shl1(v)))
  {
    hide Xor, Shl1;
    forall a: Word, b: Word
      ensures f(Shl1(Xor(a, b))) == Xor(f(Shl1(a)), f(Shl1(b)))
    {
      Shl1Xor(a, b);
      assert f(Xor(Shl1(a), Shl1(b))) == Xor(f(Shl1(a)), f(Shl1(b)));
    }
  }

  // ---------- seeds and register states ----------

  /** Two seeds that scramble alike. */
  predicate SameSeed(s: Seed16, c: Seed16) {
    Low15(s) == Low15(c)
  }

  lemma PushReads(w: Word, bit: nat)
    requires w < 0x8000 && bit < 2
    ensures Half(Push(w, bit)) == w && Odd(Push(w, bit)) == (if bit == 0 then 0 else 1)
  {
    hide Half, Odd, Shl1, Xor;
    Doubled(w);
  }

  lemma Doubled(w: Word)
    requires w < 0x8000
    ensures Half(Shl1(w)) == w && Odd(Shl1(w)) == 0
    ensures Half(Xor(Shl1(w), 1)) == w && Odd(Xor(Shl1(w), 1)) == 1
  {}

  lemma {:induction false} FitsMore(w: Word, k: nat, n: nat)
    requires Fits(w, k) && k <= n
    ensures Fits(w, n)
    decreases n
  {
    if n > 0 {
      if k == 0 {
        assert Half(0) == 0;
        FitsMore(Half(w), 0, n - 1);
      } else {
        FitsMore(Half(w), k - 1, n - 1);
      }
    }
  }

  /** Fifteen bits fit the register. */
  lemma FitsRegister(l: Word)
    ensures Fits(l, 15) <==> l < 0x8000
  {
    hide Shr4, Fits;
    FitsFour(l, 11);
    FitsFour(Shr4(l), 7);
    FitsFour(Shr4(Shr4(l)), 3);
    LastHalves(l);
  }

  function Shr4(y: Word): Word { y >> 4 }

  lemma FitsFour(w: Word, n: nat)
    ensures Fits(w, n + 4) == Fits(Shr4(w), n)
  {
    FourHalves(w);
    hide Half, Shr4;
    assert Fits(w, n + 4) == Fits(Half(w), n + 3);
    assert Fits(Half(w), n + 3) == Fits(Half(Half(w)), n + 2);
    assert Fits(Half(Half(w)), n + 2) == Fits(Half(Half(Half(w))), n + 1);
  }

  lemma FourHalves(w: Word)
    ensures Half(Half(Half(Half(w)))) == Shr4(w)
  {}

  lemma LastHalves(l: Word)
    ensures Fits(Shr4(Shr4(Shr4(l))), 3) <==> l < 0x8000
  {}

  lemma {:induction false} ToWordFits(n: nat, k: nat)
    requires n < Pow2(k) && k <= 15
    ensures Fits(ToWord(n), k)
    decreases k
  {
    hide Push, Half;
    if n == 0 {
      FitsZero(k);
    } else {
      ToWordFits(n / 2, k - 1);
      FitsMore(ToWord(n / 2), k - 1, 15);
      FitsRegister(ToWord(n / 2));
      PushReads(ToWord(n / 2), n % 2);
    }
  }

  lemma FitsZero(k: nat)
    ensures Fits(0, k)
  {
    FitsMore(0, 0, k);
  }

  lemma StartInRegister(s: Seed16)
    ensures Start(s) < 0x8000
  {
    Pow2Of15();
    ToWordFits(Low15(s), 15);
    FitsRegister(Start(s));
  }

  lemma {:induction false} ToWordInjective(m: nat, n: nat)
    requires m < 0x8000 && n < 0x8000 && ToWord(m) == ToWord(n)
    ensures m == n
    decreases m + n
  {
    hide Push, Half, Odd, Pow2, Fits;
    if m + n > 0 {
      assert Pow2(15) == 0x8000 by { Pow2Of15(); }
      ToWordFits(m / 2, 15);
      ToWordFits(n / 2, 15);
      FitsRegister(ToWord(m / 2));
      FitsRegister(ToWord(n / 2));
      PushReads(ToWord(m / 2), m % 2);
      PushReads(ToWord(n / 2), n % 2);
      ToWordSplits(m);
      ToWordSplits(n);
      ToWordInjective(m / 2, n / 2);
    }
  }

  lemma Pow2Of15()
    ensures Pow2(15) == 0x8000
  {
    assert Pow2(4) == 0x10;
    assert Pow2(8) == 0x100;
    assert Pow2(12) == 0x1000;
  }

  lemma ToWordSplits(n: nat)
    ensures ToWord(n) == Push(ToWord(n / 2), n % 2)
  {
    if n == 0 {
      assert Shl1(0) == 0;
    }
  }

  /** The difference of two seeds is no state at all exactly when they scramble alike. */
  lemma DifferenceZero(s: Seed16, c: Seed16)
    ensures Difference(s, c) == 0 <==> SameSeed(s, c)
    ensures Difference(s, c) < 0x8000
  {
    hide Xor, ToWord;
    Cancel(Start(s), Start(c));
    StartInRegister(s);
    StartInRegister(c);
    SmallXor(Start(s), Start(c));
    if Start(s) == Start(c) {
      ToWordInjective(Low15(s), Low15(c));
    }
  }

  lemma SmallXor(a: Word, b: Word)
    requires a < 0x8000 && b < 0x8000
    ensures Xor(a, b) < 0x8000
  {}
}
