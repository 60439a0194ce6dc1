/** No nonzero register state has a 2048-byte output whose code is zero. */
module LfsrCode {
  import opened Words
  import opened Edc
  import opened Lfsr

  // ---------- a quantity that only shifts ----------

  function Shift15(e: Word): Word {
    Shift(Shift(Shift(Shift4(Shift8(e)))))
  }

  function Shift32(e: Word): Word {
    Shift8(Shift8(Shift8(Shift8(e))))
  }

  /** The remainder times the register's polynomial x^15 + x^4 + 1. */
  function Filtered(e: Word): Word {
    Xor(Xor(Shift15(e), Shift4(e)), e)
  }

  /** The register's state as the start of the polynomial its output stands for. */
  function Numerator(l: Word): Word {
    Xor(l, Shr11(l))
  }

  function Shr11(l: Word): Word { l >> 11 }

  function Widened(b: Byte): Word {
    b as Word
  }

  /** Filtering the code of the output leaves only where the register started and where it is. */
  function Balance(l: Word, e: Word): Word {
    Xor(Filtered(e), Shift32(Numerator(l)))
  }

  /** The remainder after `n` more zero bytes. */
  function ShiftBytes(e: Word, n: nat): Word
    decreases n
  {
    if n == 0 then e else ShiftBytes(Shift8(e), n - 1)
  }

  lemma Shift15Xor(a: Word, b: Word)
    ensures Shift15(Xor(a, b)) == Xor(Shift15(a), Shift15(b))
  {
    hide Xor, Shift, Shift4, Shift8;
    Shift8Xor(a, b);
    Shift4Xor(Shift8(a), Shift8(b));
    ShiftXor(Shift4(Shift8(a)), Shift4(Shift8(b)));
    ShiftXor(Shift(Shift4(Shift8(a))), Shift(Shift4(Shift8(b))));
    ShiftXor(Shift(Shift(Shift4(Shift8(a)))), Shift(Shift(Shift4(Shift8(b)))));
  }

  lemma Shift32Xor(a: Word, b: Word)
    ensures Shift32(Xor(a, b)) == Xor(Shift32(a), Shift32(b))
  {
    hide Xor, Shift8;
    Shift8Xor(a, b);
    Shift8Xor(Shift8(a), Shift8(b));
    Shift8Xor(Shift8(Shift8(a)), Shift8(Shift8(b)));
    Shift8Xor(Shift8(Shift8(Shift8(a))), Shift8(Shift8(Shift8(b))));
  }

  lemma FilteredXor(a: Word, b: Word)
    ensures Filtered(Xor(a, b)) == Xor(Filtered(a), Filtered(b))
  {
    hide Xor, Shift4, Shift15;
    Shift15Xor(a, b);
    Shift4Xor(a, b);
    XorSwap(Shift15(a), Shift15(b), Shift4(a), Shift4(b));
    XorSwap(Xor(Shift15(a), Shift4(a)), Xor(Shift15(b), Shift4(b)), a, b);
  }

  lemma FilteredShift8(e: Word)
    ensures Filtered(Shift8(e)) == Shift8(Filtered(e))
  {
    hide Xor, Shift;
    Shift8Xor(Xor(Shift15(e), Shift4(e)), e);
    Shift8Xor(Shift15(e), Shift4(e));
  }

  lemma FilteredShift32(e: Word)
    ensures Filtered(Shift32(e)) == Shift32(Filtered(e))
  {
    hide Filtered, Shift8;
    FilteredShift8(e);
    FilteredShift8(Shift8(e));
    FilteredShift8(Shift8(Shift8(e)));
    FilteredShift8(Shift8(Shift8(Shift8(e))));
  }

  lemma NumeratorXor(a: Word, b: Word)
    ensures Numerator(Xor(a, b)) == Xor(Numerator(a), Numerator(b))
  {
    hide Xor, Shr11;
    Shr11Xor(a, b);
    XorSwap(a, b, Shr11(a), Shr11(b));
  }

  lemma Shr11Xor(a: Word, b: Word)
    ensures Shr11(Xor(a, b)) == Xor(Shr11(a), Shr11(b))
  {}

  lemma WidenedXor(a: Byte, b: Byte)
    ensures Widened(XorByte(a, b)) == Xor(Widened(a), Widened(b))
  {}

  /** The register as a polynomial, a byte on: eight places up, and what left at the top reduced. */
  function NumeratorAfter(l: Word): Word {
    Xor(Shift8(Numerator(l)), Filtered(Widened(OutByte(l))))
  }

  lemma NumeratorAfterXor(a: Word, b: Word)
    ensures NumeratorAfter(Xor(a, b)) == Xor(NumeratorAfter(a), NumeratorAfter(b))
  {
    hide Xor, Shift8, Numerator, Filtered, Widened, OutByte, XorByte;
    NumeratorXor(a, b);
    Shift8Xor(Numerator(a), Numerator(b));
    OutByteXor(a, b);
    WidenedXor(OutByte(a), OutByte(b));
    FilteredXor(Widened(OutByte(a)), Widened(OutByte(b)));
    XorSwap(Shift8(Numerator(a)), Shift8(Numerator(b)), Filtered(Widened(OutByte(a))), Filtered(Widened(OutByte(b))));
  }

  /** Nothing is reduced while there is room at the top. */
  lemma SmallShifts(w: Word)
    requires w < 0x1_0000
    ensures Shift8(w) == w << 8
    ensures w < 0x100 ==> Shift4(w) == w << 4 && Shift15(w) == w << 15
  {
    Shift8Small(w);
    if w < 0x100 {
      Shift4Small(w);
      ShiftedSmall(w);
      Shift4Small(w << 8);
      Shift3Small(w << 12);
      ShiftsAdd(w);
    }
  }

  lemma ShiftedSmall(w: Word)
    requires w < 0x100
    ensures w << 8 < 0x1_0000 && w << 12 < 0x10_0000
  {}

  lemma ShiftsAdd(w: Word)
    requires w < 0x100
    ensures (w << 8) << 4 == w << 12 && (w << 12) << 3 == w << 15
  {}

  lemma Shift8Small(w: Word)
    requires w < 0x1_0000
    ensures Shift8(w) == w << 8
  {
    Shift8Low(w);
    SmallIsLow(w);
  }

  lemma SmallIsLow(w: Word)
    requires w < 0x1_0000
    ensures Low24(w) == w && Shl8(w) == w << 8
  {}

  lemma Shift4Small(w: Word)
    requires w < 0x1_0000
    ensures Shift4(w) == w << 4
  {
    hide Shift;
    SmallDoubles(w);
    ShiftLow(w);
    ShiftLow(w << 1);
    ShiftLow(w << 2);
    ShiftLow(w << 3);
  }

  lemma Shift3Small(w: Word)
    requires w < 0x10_0000
    ensures Shift(Shift(Shift(w))) == w << 3
  {
    hide Shift;
    SmallDoubles(w);
    ShiftLow(w);
    ShiftLow(w << 1);
    ShiftLow(w << 2);
  }

  lemma SmallDoubles(w: Word)
    requires w < 0x10_0000
    ensures w << 1 < 0x8000_0000 && w << 2 < 0x8000_0000 && w << 3 < 0x8000_0000
    ensures Shl1(w) == w << 1 && Shl1(w << 1) == w << 2 && Shl1(w << 2) == w << 3 && Shl1(w << 3) == w << 4
  {}

  lemma NumeratorSmall(l: Word)
    requires l < 0x8000
    ensures Numerator(l) < 0x8000
  {}

  /** The same, where nothing is reduced, in plain shifts. */
  function NumeratorShifts(l: Word): Word {
    Xor(Numerator(l) << 8, Xor(Xor(Widened(OutByte(l)) << 15, Widened(OutByte(l)) << 4), Widened(OutByte(l))))
  }

  lemma NumeratorAfterSmall(l: Word)
    requires l < 0x8000
    ensures NumeratorAfter(l) == NumeratorShifts(l)
  {
    hide Xor, Shift8, Shift4, Shift15, Numerator;
    NumeratorSmall(l);
    SmallShifts(Numerator(l));
    WidenedSmall(OutByte(l));
    SmallShifts(Widened(OutByte(l)));
  }

  lemma WidenedSmall(b: Byte)
    ensures Widened(b) < 0x100
  {}

  lemma NumeratorBasis(i: nat)
    requires i < 15
    ensures Numerator(Next8(Unit(i))) == NumeratorAfter(Unit(i))
  {
    hide NumeratorAfter, NumeratorShifts, Next8, Numerator;
    UnitSmall(i);
    NumeratorAfterSmall(Unit(i));
    NumeratorBits(i);
  }

  lemma UnitSmall(i: nat)
    requires i < 15
    ensures Unit(i) < 0x8000
  {
    assert Unit(0) == 0x1 && Unit(1) == 0x2 && Unit(2) == 0x4 && Unit(3) == 0x8 && Unit(4) == 0x10;
    assert Unit(5) == 0x20 && Unit(6) == 0x40 && Unit(7) == 0x80 && Unit(8) == 0x100 && Unit(9) == 0x200;
    assert Unit(10) == 0x400 && Unit(11) == 0x800 && Unit(12) == 0x1000 && Unit(13) == 0x2000 && Unit(14) == 0x4000;
  }

  lemma NumeratorBits(i: nat)
    requires i < 15
    ensures Numerator(Next8(Unit(i))) == NumeratorShifts(Unit(i))
  {
    hide NumeratorShifts, Next8, Numerator;
    Bits0To4();
    Bits5To9();
    Bits10To14();
  }

  lemma Bits0To4()
    ensures Numerator(Next8(Unit(0))) == NumeratorShifts(Unit(0))
    ensures Numerator(Next8(Unit(1))) == NumeratorShifts(Unit(1))
    ensures Numerator(Next8(Unit(2))) == NumeratorShifts(Unit(2))
    ensures Numerator(Next8(Unit(3))) == NumeratorShifts(Unit(3))
    ensures Numerator(Next8(Unit(4))) == NumeratorShifts(Unit(4))
  {}

  lemma Bits5To9()
    ensures Numerator(Next8(Unit(5))) == NumeratorShifts(Unit(5))
    ensures Numerator(Next8(Unit(6))) == NumeratorShifts(Unit(6))
    ensures Numerator(Next8(Unit(7))) == NumeratorShifts(Unit(7))
    ensures Numerator(Next8(Unit(8))) == NumeratorShifts(Unit(8))
    ensures Numerator(Next8(Unit(9))) == NumeratorShifts(Unit(9))
  {}

  lemma Bits10To14()
    ensures Numerator(Next8(Unit(10))) == NumeratorShifts(Unit(10))
    ensures Numerator(Next8(Unit(11))) == NumeratorShifts(Unit(11))
    ensures Numerator(Next8(Unit(12))) == NumeratorShifts(Unit(12))
    ensures Numerator(Next8(Unit(13))) == NumeratorShifts(Unit(13))
    ensures Numerator(Next8(Unit(14))) == NumeratorShifts(Unit(14))
  {}

  // ---------- one byte, then many ----------

  /** The polynomial the register stands for, a byte on. */
  lemma NumeratorNext8(l: Word)
    requires l < 0x8000
    ensures Numerator(Next8(l)) == NumeratorAfter(l)
  {
    hide NumeratorAfter, NumeratorNext, Unit, Additive;
    BothAdditive();
    forall i | 0 <= i < 15
      ensures NumeratorNext(Unit(i)) == NumeratorAfter(Unit(i))
    {
      NumeratorBasis(i);
      NumeratorNextIs(Unit(i));
    }
    FitsRegister(l);
    Agree(NumeratorNext, NumeratorAfter, 15, l);
    NumeratorNextIs(l);
  }

  function NumeratorNext(l: Word): Word {
    Numerator(Next8(l))
  }

  lemma NumeratorNextIs(l: Word)
    ensures NumeratorNext(l) == Numerator(Next8(l))
  {}

  lemma BothAdditive()
    ensures Additive(NumeratorNext) && Additive(NumeratorAfter)
  {
    hide Numerator, Next8, NumeratorAfter, Xor;
    forall a: Word, b: Word
      ensures NumeratorNext(Xor(a, b)) == Xor(NumeratorNext(a), NumeratorNext(b))
    {
      Next8Xor(a, b);
      NumeratorXor(Next8(a), Next8(b));
    }
    forall a: Word, b: Word
      ensures NumeratorAfter(Xor(a, b)) == Xor(NumeratorAfter(a), NumeratorAfter(b))
    {
      NumeratorAfterXor(a, b);
    }
  }

  lemma NextInRegister(l: Word)
    ensures Next8(l) < 0x8000
  {}

  /** A byte at the top of the remainder is that byte, 32 places up. */
  lemma RaisedShifts(b: Byte)
    ensures Shift8(Raised(b)) == Shift32(Widened(b))
  {
    var w := Widened(b);
    WidenedSmall(b);
    Shift8Small(w);
    Shift8Small(w << 8);
    Shift8Low(w << 16);
    RaisedIsShl(b);
  }

  lemma RaisedIsShl(b: Byte)
    ensures var w := Widened(b);
            Raised(b) == Shl8(w << 16) && (w << 8) << 8 == w << 16 && Low24(w << 16) == w << 16 && w << 8 < 0x1_0000
  {}

  /** Over a byte of output the balance only shifts. */
  lemma BalanceByte(l: Word, e: Word)
    requires l < 0x8000
    ensures Balance(Next8(l), Shift8(Enter(e, OutByte(l)))) == Shift8(Balance(l, e))
  {
    hide Xor, Shift8, Shift32, Filtered, Numerator, Next8, OutByte, Raised, Widened;
    var b := OutByte(l);
    var x := Filtered(Shift32(Widened(b)));
    Shift8Xor(e, Raised(b));
    RaisedShifts(b);
    FilteredXor(Shift8(e), Shift32(Widened(b)));
    FilteredShift8(e);
    NumeratorNext8(l);
    Shift32Xor(Shift8(Numerator(l)), Filtered(Widened(b)));
    FilteredShift32(Widened(b));
    Shift32Shift8(Numerator(l));
    XorSwap(Shift8(Filtered(e)), x, Shift8(Shift32(Numerator(l))), x);
    ZeroXor(x);
    ZeroXor(Xor(Shift8(Filtered(e)), Shift8(Shift32(Numerator(l)))));
    Shift8Xor(Filtered(e), Shift32(Numerator(l)));
  }

  lemma Shift32Shift8(e: Word)
    ensures Shift32(Shift8(e)) == Shift8(Shift32(e))
  {
    hide Shift8;
  }

  lemma {:induction false} BalanceBytes(l: Word, e: Word, n: nat)
    requires l < 0x8000
    ensures Balance(NextBytes(l, n), Remainder(e, StreamFrom(l, n))) == ShiftBytes(Balance(l, e), n)
    ensures NextBytes(l, n) < 0x8000
    decreases n
  {
    hide Balance, Shift8, Enter, Next8, OutByte;
    if n != 0 {
      NextInRegister(l);
      BalanceByte(l, e);
      BalanceBytes(Next8(l), Shift8(Enter(e, OutByte(l))), n - 1);
    }
  }

  // ---------- shifting by 2048 bytes ----------

  /** A word taken when the low bit of `w` is set. */
  function Taken(w: Word, c: Word): Word {
    if Odd(w) == 1 then c else 0
  }

  /** The product of `c` and the low `n` bits of `y`, reduced. */
  function Times(c: Word, y: Word, n: nat): Word
    decreases n
  {
    if n == 0 then 0 else Xor(Taken(y, c), Times(Shift(c), Half(y), n - 1))
  }

  lemma {:induction false} ShiftBytesXor(a: Word, b: Word, n: nat)
    ensures ShiftBytes(Xor(a, b), n) == Xor(ShiftBytes(a, n), ShiftBytes(b, n))
    decreases n
  {
    hide Xor, Shift8;
    if n != 0 {
      Shift8Xor(a, b);
      ShiftBytesXor(Shift8(a), Shift8(b), n - 1);
    }
  }

  lemma {:induction false} ShiftBytesShift(a: Word, n: nat)
    ensures ShiftBytes(Shift(a), n) == Shift(ShiftBytes(a, n))
    decreases n
  {
    hide Shift;
    if n != 0 {
      ShiftBytesShift(Shift8(a), n - 1);
    }
  }

  lemma {:induction false} ShiftBytesZero(n: nat)
    ensures ShiftBytes(0, n) == 0
    decreases n
  {
    hide Xor;
    ZeroXor(0);
    ShiftBytesXor(0, 0, n);
    ZeroXor(ShiftBytes(0, n));
  }

  lemma {:induction false} ShiftBytesTimes(c: Word, y: Word, k: nat, n: nat)
    ensures ShiftBytes(Times(c, y, k), n) == Times(ShiftBytes(c, n), y, k)
    decreases k
  {
    hide Xor, Shift, Odd, Half, ShiftBytes;
    ShiftBytesZero(n);
    if k != 0 {
      ShiftBytesShift(c, n);
      ShiftBytesTimes(Shift(c), Half(y), k - 1, n);
      ShiftBytesXor(Taken(y, c), Times(Shift(c), Half(y), k - 1), n);
    }
  }

  lemma {:induction false} ShiftBytesTwice(a: Word, m: nat, n: nat)
    ensures ShiftBytes(ShiftBytes(a, m), n) == ShiftBytes(a, m + n)
    decreases m
  {
    hide Shift8;
    if m != 0 {
      ShiftBytesTwice(Shift8(a), m - 1, n);
    }
  }

  // ---------- multiplying by one ----------

  function ShlN(y: Word, k: nat): Word
    decreases k
  {
    if k == 0 then y else ShlN(Shl1(y), k - 1)
  }

  lemma UnitBelow(k: nat)
    requires k < 31
    ensures Unit(k) < 0x8000_0000
  {
    assert Unit(0) == 0x1 && Unit(1) == 0x2 && Unit(2) == 0x4 && Unit(3) == 0x8 && Unit(4) == 0x10 && Unit(5) == 0x20;
    assert Unit(6) == 0x40 && Unit(7) == 0x80 && Unit(8) == 0x100 && Unit(9) == 0x200 && Unit(10) == 0x400
        && Unit(11) == 0x800;
    assert Unit(12) == 0x1000 && Unit(13) == 0x2000 && Unit(14) == 0x4000 && Unit(15) == 0x8000 && Unit(16) == 0x10000
        && Unit(17) == 0x20000;
    assert Unit(18) == 0x40000 && Unit(19) == 0x80000 && Unit(20) == 0x100000 && Unit(21) == 0x200000
        && Unit(22) == 0x400000 && Unit(23) == 0x800000;
    assert Unit(24) == 0x1000000 && Unit(25) == 0x2000000 && Unit(26) == 0x4000000 && Unit(27) == 0x8000000
        && Unit(28) == 0x10000000 && Unit(29) == 0x20000000;
    assert Unit(30) == 0x40000000;
  }

  lemma {:induction false} ShlNXor(a: Word, b: Word, k: nat)
    ensures ShlN(Xor(a, b), k) == Xor(ShlN(a, k), ShlN(b, k))
    decreases k
  {
    hide Xor, Shl1;
    if k != 0 {
      Shl1Xor(a, b);
      ShlNXor(Shl1(a), Shl1(b), k - 1);
    }
  }

  lemma {:induction false} ShlNShl1(y: Word, k: nat)
    ensures ShlN(Shl1(y), k) == Shl1(ShlN(y, k))
    decreases k
  {
    hide Shl1;
    if k != 0 {
      ShlNShl1(Shl1(y), k - 1);
    }
  }

  lemma {:induction false} ShlNBit(k: nat)
    ensures ShlN(1, k) == Unit(k) && ShlN(0, k) == 0
    decreases k
  {
    if k != 0 {
      ShlNBit(k - 1);
      ShlNShl1(1, k - 1);
      assert Shl1(0) == 0;
    }
  }

  lemma {:induction false} TimesUnit(y: Word, k: nat, n: nat)
    requires k + n <= 32 && Fits(y, n)
    ensures Times(Unit(k), y, n) == ShlN(y, k)
    decreases n
  {
    hide Xor, Shl1, Shift, Half, Odd, ShlN;
    ShlNBit(k);
    if n != 0 {
      SplitLow(y);
      ShlNXor(Odd(y), Shl1(Half(y)), k);
      if n > 1 {
        UnitBelow(k);
        ShiftLow(Unit(k));
        TimesUnit(Half(y), k + 1, n - 1);
        ShlNStep(Half(y), k);
      } else {
        assert Half(y) == 0;
        assert Shl1(0) == 0 by { Shl1Zero(); }
      }
    }
  }

  lemma ShlNStep(y: Word, k: nat)
    ensures ShlN(y, k + 1) == ShlN(Shl1(y), k)
  {}

  lemma Shl1Zero()
    ensures Shl1(0) == 0
  {}

  lemma TimesOne(y: Word, n: nat)
    requires n <= 32 && Fits(y, n)
    ensures Times(1, y, n) == y
  {
    TimesUnit(y, 0, n);
  }

  lemma FitsWord(y: Word)
    ensures Fits(y, 32)
  {
    hide Shr4, Fits;
    FitsFour(y, 28);
    FitsFour(Shr4(y), 24);
    FitsFour(Shr4(Shr4(y)), 20);
    FitsFour(Shr4(Shr4(Shr4(y))), 16);
    var z := Shr4(Shr4(Shr4(Shr4(y))));
    FitsFour(z, 12);
    FitsFour(Shr4(z), 8);
    FitsFour(Shr4(Shr4(z)), 4);
    FitsFour(Shr4(Shr4(Shr4(z))), 0);
    NothingLeft(y);
  }

  lemma NothingLeft(y: Word)
    ensures Fits(Shr4(Shr4(Shr4(Shr4(Shr4(Shr4(Shr4(Shr4(y)))))))), 0)
  {}

  // ---------- the power x^16384 ----------

  function Shr2(y: Word): Word { y >> 2 }

  function Shr3(y: Word): Word { y >> 3 }

  function Shr8(y: Word): Word { y >> 8 }

  function Shr16(y: Word): Word { y >> 16 }

  /** Four bits of a product, then eight, then sixteen, then all. */
  function Part4(c: Word, y: Word): Word {
    Xor(Xor(Taken(y, c), Taken(Half(y), Shift(c))),
        Xor(Taken(Shr2(y), Shift(Shift(c))), Taken(Shr3(y), Shift(Shift(Shift(c))))))
  }

  function Part8(c: Word, y: Word): Word {
    Xor(Part4(c, y), Part4(Shift4(c), Shr4(y)))
  }

  function Part16(c: Word, y: Word): Word {
    Xor(Part8(c, y), Part8(Shift8(c), Shr8(y)))
  }

  function Product(c: Word, y: Word): Word {
    Xor(Part16(c, y), Part16(Shift8(Shift8(c)), Shr16(y)))
  }

  lemma HalvesAre(y: Word)
    ensures Half(Half(y)) == Shr2(y) && Half(Shr2(y)) == Shr3(y) && Half(Shr3(y)) == Shr4(y)
    ensures Shr4(Shr4(y)) == Shr8(y) && Shr8(Shr8(y)) == Shr16(y)
  {
    hide Half, Shr2, Shr3, Shr4, Shr8, Shr16;
    HalfTwice(y);
    HalfThrice(y);
    HalfFour(y);
    FourTwice(y);
    EightTwice(y);
  }

  lemma HalfTwice(y: Word)
    ensures Half(Half(y)) == Shr2(y)
  {}

  lemma HalfThrice(y: Word)
    ensures Half(Shr2(y)) == Shr3(y)
  {}

  lemma HalfFour(y: Word)
    ensures Half(Shr3(y)) == Shr4(y)
  {}

  lemma FourTwice(y: Word)
    ensures Shr4(Shr4(y)) == Shr8(y)
  {}

  lemma EightTwice(y: Word)
    ensures Shr8(Shr8(y)) == Shr16(y)
  {}

  lemma TimesFour(c: Word, y: Word, n: nat)
    ensures Times(c, y, n + 4) == Xor(Part4(c, y), Times(Shift4(c), Shr4(y), n))
  {
    hide Xor, Shift, Half, Taken, Shr2, Shr3, Shr4;
    HalvesAre(y);
    var t := Times(Shift4(c), Shr4(y), n);
    var a, b, d, e := Taken(y, c), Taken(Half(y), Shift(c)), Taken(Shr2(y), Shift(Shift(c))),
        Taken(Shr3(y), Shift(Shift(Shift(c))));
    assert Times(Shift(Shift(Shift(c))), Shr3(y), n + 1) == Xor(e, t);
    assert Times(Shift(Shift(c)), Shr2(y), n + 2) == Xor(d, Xor(e, t));
    assert Times(Shift(c), Half(y), n + 3) == Xor(b, Xor(d, Xor(e, t)));
    XorAssoc(d, e, t);
    XorAssoc(a, b, Xor(Xor(d, e), t));
    XorAssoc(Xor(a, b), Xor(d, e), t);
  }

  lemma TimesEight(c: Word, y: Word, n: nat)
    ensures Times(c, y, n + 8) == Xor(Part8(c, y), Times(Shift8(c), Shr8(y), n))
  {
    hide Xor, Shift4, Shr4, Shr8, Part4, Times;
    HalvesAre(y);
    TimesFour(c, y, n + 4);
    TimesFour(Shift4(c), Shr4(y), n);
    XorAssoc(Part4(c, y), Part4(Shift4(c), Shr4(y)), Times(Shift8(c), Shr8(y), n));
  }

  lemma TimesSixteen(c: Word, y: Word, n: nat)
    ensures Times(c, y, n + 16) == Xor(Part16(c, y), Times(Shift8(Shift8(c)), Shr16(y), n))
  {
    hide Xor, Shift8, Shr8, Shr16, Part8, Times;
    HalvesAre(y);
    TimesEight(c, y, n + 8);
    TimesEight(Shift8(c), Shr8(y), n);
    XorAssoc(Part8(c, y), Part8(Shift8(c), Shr8(y)), Times(Shift8(Shift8(c)), Shr16(y), n));
  }

  lemma TimesNone(c: Word, y: Word)
    ensures Times(c, y, 0) == 0
  {}

  lemma TimesAll(c: Word, y: Word)
    ensures Times(c, y, 32) == Product(c, y) && Times(c, y, 16) == Part16(c, y)
  {
    hide Xor, Shift8, Shr16, Part16, Times;
    var y', c' := Shr16(y), Shift8(Shift8(c));
    TimesSixteen(c, y, 16);
    TimesSixteen(c, y, 0);
    TimesNone(c', y');
    ZeroXor(Part16(c, y));
    TimesSixteen(c', y', 0);
    TimesNone(Shift8(Shift8(c')), Shr16(y'));
    ZeroXor(Part16(c', y'));
  }

  /** x^32 squared. */
  lemma Square32()
    ensures Product(0x80000011, 0x80000011) == 0x8000015b
  {
    hide Part16, Shift8;
    Low32();
    Up32();
    High32();
    assert Shr16(0x80000011) == 0x8000;
  }

  lemma Low32()
    ensures Part16(0x80000011, 0x80000011) == 0x1fe
  {}

  lemma Up32()
    ensures Shift8(Shift8(0x80000011)) == 0x801e000f
  {}

  lemma High32()
    ensures Part16(0x801e000f, 0x8000) == 0x800000a5
  {}

  /** x^64 squared. */
  lemma Square64()
    ensures Product(0x8000015b, 0x8000015b) == 0x8001111f
  {
    hide Part16, Shift8;
    Low64();
    Up64();
    High64();
    assert Shr16(0x8000015b) == 0x8000;
  }

  lemma Low64()
    ensures Part16(0x8000015b, 0x8000015b) == 0x11d1c
  {}

  lemma Up64()
    ensures Shift8(Shift8(0x8000015b)) == 0x8154000f
  {}

  lemma High64()
    ensures Part16(0x8154000f, 0x8000) == 0x80000c03
  {}

  /** x^128 squared. */
  lemma Square128()
    ensures Product(0x8001111f, 0x8001111f) == 0x101011e
  {
    hide Part16, Shift8;
    Low128();
    Up128();
    High128();
    assert Shr16(0x8001111f) == 0x8001;
  }

  lemma Low128()
    ensures Part16(0x8001111f, 0x8001111f) == 0x901efeff
  {}

  lemma Up128()
    ensures Shift8(Shift8(0x8001111f)) == 0x1110001e
  {}

  lemma High128()
    ensures Part16(0x1110001e, 0x8001) == 0x911fffe1
  {}

  /** x^256 squared. */
  lemma Square256()
    ensures Product(0x101011e, 0x101011e) == 0x1f014a
  {
    hide Part16, Shift8;
    Low256();
    Up256();
    High256();
    assert Shr16(0x101011e) == 0x101;
  }

  lemma Low256()
    ensures Part16(0x101011e, 0x101011e) == 0x9f1f0145
  {}

  lemma Up256()
    ensures Shift8(Shift8(0x101011e)) == 0x11e1e1e
  {}

  lemma High256()
    ensures Part16(0x11e1e1e, 0x101) == 0x9f00000f
  {}

  /** x^512 squared. */
  lemma Square512()
    ensures Product(0x1f014a, 0x1f014a) == 0x8001084d
  {
    hide Part16, Shift8;
    Low512();
    Up512();
    High512();
    assert Shr16(0x1f014a) == 0x1f;
  }

  lemma Low512()
    ensures Part16(0x1f014a, 0x1f014a) == 0x18071044
  {}

  lemma Up512()
    ensures Shift8(Shift8(0x1f014a)) == 0x814a0145
  {}

  lemma High512()
    ensures Part16(0x814a0145, 0x1f) == 0x98061809
  {}

  /** x^1024 squared. */
  lemma Square1024()
    ensures Product(0x8001084d, 0x8001084d) == 0x40101a
  {
    hide Part16, Shift8;
    Low1024();
    Up1024();
    High1024();
    assert Shr16(0x8001084d) == 0x8001;
  }

  lemma Low1024()
    ensures Part16(0x8001084d, 0x8001084d) == 0x880d6bd5
  {}

  lemma Up1024()
    ensures Shift8(Shift8(0x8001084d)) == 0x842001e
  {}

  lemma High1024()
    ensures Part16(0x842001e, 0x8001) == 0x884d7bcf
  {}

  /** x^2048 squared. */
  lemma Square2048()
    ensures Product(0x40101a, 0x40101a) == 0x8101e14b
  {
    hide Part16, Shift8;
    Low2048();
    Up2048();
    High2048();
    assert Shr16(0x40101a) == 0x40;
  }

  lemma Low2048()
    ensures Part16(0x40101a, 0x40101a) == 0x87800133
  {}

  lemma Up2048()
    ensures Shift8(Shift8(0x40101a)) == 0x901a078f
  {}

  lemma High2048()
    ensures Part16(0x901a078f, 0x40) == 0x681e078
  {}

  /** x^4096 squared. */
  lemma Square4096()
    ensures Product(0x8101e14b, 0x8101e14b) == 0xd41f1001
  {
    hide Part16, Shift8;
    Low4096();
    Up4096();
    High4096();
    assert Shr16(0x8101e14b) == 0x8101;
  }

  lemma Low4096()
    ensures Part16(0x8101e14b, 0x8101e14b) == 0xfe4fb7b2
  {}

  lemma Up4096()
    ensures Shift8(Shift8(0x8101e14b)) == 0x61441e11
  {}

  lemma High4096()
    ensures Part16(0x61441e11, 0x8101) == 0x2a50a7b3
  {}

  /** x^8192 squared. */
  lemma Square8192()
    ensures Product(0xd41f1001, 0xd41f1001) == 0xfee0184c
  {
    hide Part16, Shift8;
    Low8192();
    Up8192();
    High8192();
    assert Shr16(0xd41f1001) == 0xd41f;
  }

  lemma Low8192()
    ensures Part16(0xd41f1001, 0xd41f1001) == 0xa51f9190
  {}

  lemma Up8192()
    ensures Shift8(Shift8(0xd41f1001)) == 0x90081945
  {}

  lemma High8192()
    ensures Part16(0x90081945, 0xd41f) == 0x5bff89dc
  {}

  /** Doubling the distance squares the factor. */
  lemma PowerTwice(n: nat, c: Word)
    requires ShiftBytes(1, n) == c
    ensures ShiftBytes(1, n + n) == Product(c, c)
  {
    hide Times, ShiftBytes, Fits, Product;
    TimesAll(c, c);
    FitsWord(c);
    TimesOne(c, 32);
    ShiftBytesTimes(1, c, 32, n);
    ShiftBytesTwice(1, n, n);
  }

  lemma PowerOf2048()
    ensures ShiftBytes(1, 2048) == 0xfee0184c
  {
    hide Product, ShiftBytes;
    FourBytes();
    PowerTwice(4, 0x80000011);
    Square32();
    PowerTwice(8, 0x8000015b);
    Square64();
    PowerTwice(16, 0x8001111f);
    Square128();
    PowerTwice(32, 0x101011e);
    Square256();
    PowerTwice(64, 0x1f014a);
    Square512();
    PowerTwice(128, 0x8001084d);
    Square1024();
    PowerTwice(256, 0x40101a);
    Square2048();
    PowerTwice(512, 0x8101e14b);
    Square4096();
    PowerTwice(1024, 0xd41f1001);
    Square8192();
  }

  lemma FourBytes()
    ensures ShiftBytes(1, 4) == 0x80000011
  {
    hide Shift8;
    assert ShiftBytes(1, 4) == Shift8(Shift8(Shift8(Shift8(1))));
    EightUp();
  }

  lemma EightUp()
    ensures Shift8(1) == 0x100 && Shift8(0x100) == 0x1_0000 && Shift8(0x1_0000) == 0x100_0000
    ensures Shift8(0x100_0000) == 0x80000011
  {}

  // ---------- reading a small factor back ----------

  function Shr15(w: Word): Word { w >> 15 }

  /** Four of the columns of a linear function. */
  function Columns4(v: Word, a: Word, b: Word, c: Word, d: Word): Word {
    Xor(Xor(Taken(v, a), Taken(Half(v), b)), Xor(Taken(Shr2(v), c), Taken(Shr3(v), d)))
  }

  function Columns16(v: Word): Word {
    Xor(Xor(Columns4(v, 0x7571, 0x45ed, 0x7d6, 0xfac), Columns4(Shr4(v), 0x6a29, 0xe2c, 0x3f5b, 0x7eb6)),
        Xor(Columns4(Shr8(v), 0x7160, 0x6ecc, 0x5194, 0x2f24),
            Columns4(Shr4(Shr8(v)), 0x2b39, 0x0, 0x2303, 0x4606)))
  }

  /** A linear function of the top 17 bits that undoes multiplication of a 15-bit factor by x^16384. */
  function ReadBack(w: Word): Word {
    Columns16(Shr15(w))
  }

  /** The polynomial `u`, moved up 16384 places and reduced. */
  function Moved(u: Word): Word {
    Part16(0xfee0184c, u)
  }

  function MovedBack(u: Word): Word {
    ReadBack(Moved(u))
  }

  function Same(u: Word): Word {
    u
  }

  lemma HalfXor(a: Word, b: Word)
    ensures Half(Xor(a, b)) == Xor(Half(a), Half(b))
  {}

  lemma ShrXor(a: Word, b: Word)
    ensures Shr2(Xor(a, b)) == Xor(Shr2(a), Shr2(b)) && Shr3(Xor(a, b)) == Xor(Shr3(a), Shr3(b))
    ensures Shr4(Xor(a, b)) == Xor(Shr4(a), Shr4(b)) && Shr8(Xor(a, b)) == Xor(Shr8(a), Shr8(b))
  {
    hide Xor, Half, Shr2, Shr3, Shr4, Shr8;
    HalvesAre(a);
    HalvesAre(b);
    HalvesAre(Xor(a, b));
    HalfXor(a, b);
    HalfXor(Half(a), Half(b));
    HalfXor(Shr2(a), Shr2(b));
    HalfXor(Shr3(a), Shr3(b));
    Shr4Xor(Shr4(a), Shr4(b));
  }

  lemma Shr4Xor(a: Word, b: Word)
    ensures Shr4(Xor(a, b)) == Xor(Shr4(a), Shr4(b))
  {}

  lemma Shr15Xor(a: Word, b: Word)
    ensures Shr15(Xor(a, b)) == Xor(Shr15(a), Shr15(b))
  {}

  lemma TakenXor(a: Word, b: Word, c: Word)
    ensures Taken(Xor(a, b), c) == Xor(Taken(a, c), Taken(b, c))
  {
    hide Xor, Odd;
    OddXor(a, b);
    ZeroXor(c);
    ZeroXor(0);
    OddSums();
  }

  lemma OddXor(a: Word, b: Word)
    ensures Odd(Xor(a, b)) == Xor(Odd(a), Odd(b))
    ensures Odd(a) == 0 || Odd(a) == 1
    ensures Odd(b) == 0 || Odd(b) == 1
  {}

  lemma OddSums()
    ensures Xor(0, 0) == 0 && Xor(1, 1) == 0 && Xor(0, 1) == 1 && Xor(1, 0) == 1
  {}

  lemma Columns4Xor(v: Word, w: Word, a: Word, b: Word, c: Word, d: Word)
    ensures Columns4(Xor(v, w), a, b, c, d) == Xor(Columns4(v, a, b, c, d), Columns4(w, a, b, c, d))
  {
    hide Xor, Taken, Half, Shr2, Shr3;
    HalfXor(v, w);
    ShrXor(v, w);
    TakenXor(v, w, a);
    TakenXor(Half(v), Half(w), b);
    TakenXor(Shr2(v), Shr2(w), c);
    TakenXor(Shr3(v), Shr3(w), d);
    FourXor(Taken(v, a), Taken(w, a), Taken(Half(v), b), Taken(Half(w), b),
            Taken(Shr2(v), c), Taken(Shr2(w), c), Taken(Shr3(v), d), Taken(Shr3(w), d));
  }

  lemma FourXor(a: Word, a': Word, b: Word, b': Word, c: Word, c': Word, d: Word, d': Word)
    ensures Xor(Xor(Xor(a, a'), Xor(b, b')), Xor(Xor(c, c'), Xor(d, d')))
         == Xor(Xor(Xor(a, b), Xor(c, d)), Xor(Xor(a', b'), Xor(c', d')))
  {
    hide Xor;
    XorSwap(a, a', b, b');
    XorSwap(c, c', d, d');
    XorSwap(Xor(a, b), Xor(a', b'), Xor(c, d), Xor(c', d'));
  }

  lemma Columns16Xor(v: Word, w: Word)
    ensures Columns16(Xor(v, w)) == Xor(Columns16(v), Columns16(w))
  {
    hide Xor, Columns4, Shr4, Shr8;
    var v1, w1 := Shr4(v), Shr4(w);
    var v2, w2 := Shr8(v), Shr8(w);
    var v3, w3 := Shr4(v2), Shr4(w2);
    ShrXor(v, w);
    ShrXor(v2, w2);
    Columns4Xor(v, w, 0x7571, 0x45ed, 0x7d6, 0xfac);
    Columns4Xor(v1, w1, 0x6a29, 0xe2c, 0x3f5b, 0x7eb6);
    Columns4Xor(v2, w2, 0x7160, 0x6ecc, 0x5194, 0x2f24);
    Columns4Xor(v3, w3, 0x2b39, 0x0, 0x2303, 0x4606);
    FourXor(Columns4(v, 0x7571, 0x45ed, 0x7d6, 0xfac), Columns4(w, 0x7571, 0x45ed, 0x7d6, 0xfac),
            Columns4(v1, 0x6a29, 0xe2c, 0x3f5b, 0x7eb6), Columns4(w1, 0x6a29, 0xe2c, 0x3f5b, 0x7eb6),
            Columns4(v2, 0x7160, 0x6ecc, 0x5194, 0x2f24), Columns4(w2, 0x7160, 0x6ecc, 0x5194, 0x2f24),
            Columns4(v3, 0x2b39, 0x0, 0x2303, 0x4606), Columns4(w3, 0x2b39, 0x0, 0x2303, 0x4606));
  }

  lemma {:induction false} TimesXor(c: Word, a: Word, b: Word, n: nat)
    ensures Times(c, Xor(a, b), n) == Xor(Times(c, a, n), Times(c, b, n))
    decreases n
  {
    hide Xor, Taken, Half, Shift;
    if n == 0 {
      ZeroXor(0);
    } else {
      HalfXor(a, b);
      TimesXor(Shift(c), Half(a), Half(b), n - 1);
      TakenXor(a, b, c);
      XorSwap(Taken(a, c), Taken(b, c), Times(Shift(c), Half(a), n - 1), Times(Shift(c), Half(b), n - 1));
    }
  }

  lemma MovedBackAdditive()
    ensures Additive(MovedBack) && Additive(Same)
  {
    hide Xor, Columns16, Times, Shr15, Part16;
    forall a: Word, b: Word
      ensures MovedBack(Xor(a, b)) == Xor(MovedBack(a), MovedBack(b))
    {
      TimesAll(0xfee0184c, a);
      TimesAll(0xfee0184c, b);
      TimesAll(0xfee0184c, Xor(a, b));
      TimesXor(0xfee0184c, a, b, 16);
      Shr15Xor(Moved(a), Moved(b));
      Columns16Xor(Shr15(Moved(a)), Shr15(Moved(b)));
    }
  }

  lemma MovedBit0()
    ensures MovedBack(0x1) == 0x1
  {
    hide Moved, ReadBack;
    MovedTo0();
    ReadBackTo0();
  }

  lemma MovedTo0()
    ensures Moved(0x1) == 0xfee0184c
  {}

  lemma ReadBackTo0()
    ensures ReadBack(0xfee0184c) == 0x1
  {}

  lemma MovedBit1()
    ensures MovedBack(0x2) == 0x2
  {
    hide Moved, ReadBack;
    MovedTo1();
    ReadBackTo1();
  }

  lemma MovedTo1()
    ensures Moved(0x2) == 0x7dc03089
  {}

  lemma ReadBackTo1()
    ensures ReadBack(0x7dc03089) == 0x2
  {}

  lemma MovedBit2()
    ensures MovedBack(0x4) == 0x4
  {
    hide Moved, ReadBack;
    MovedTo2();
    ReadBackTo2();
  }

  lemma MovedTo2()
    ensures Moved(0x4) == 0xfb806112
  {}

  lemma ReadBackTo2()
    ensures ReadBack(0xfb806112) == 0x4
  {}

  lemma MovedBit3()
    ensures MovedBack(0x8) == 0x8
  {
    hide Moved, ReadBack;
    MovedTo3();
    ReadBackTo3();
  }

  lemma MovedTo3()
    ensures Moved(0x8) == 0x7700c235
  {}

  lemma ReadBackTo3()
    ensures ReadBack(0x7700c235) == 0x8
  {}

  lemma MovedBit4()
    ensures MovedBack(0x10) == 0x10
  {
    hide Moved, ReadBack;
    MovedTo4();
    ReadBackTo4();
  }

  lemma MovedTo4()
    ensures Moved(0x10) == 0xee01846a
  {}

  lemma ReadBackTo4()
    ensures ReadBack(0xee01846a) == 0x10
  {}

  lemma MovedBit5()
    ensures MovedBack(0x20) == 0x20
  {
    hide Moved, ReadBack;
    MovedTo5();
    ReadBackTo5();
  }

  lemma MovedTo5()
    ensures Moved(0x20) == 0x5c0308c5
  {}

  lemma ReadBackTo5()
    ensures ReadBack(0x5c0308c5) == 0x20
  {}

  lemma MovedBit6()
    ensures MovedBack(0x40) == 0x40
  {
    hide Moved, ReadBack;
    MovedTo6();
    ReadBackTo6();
  }

  lemma MovedTo6()
    ensures Moved(0x40) == 0xb806118a
  {}

  lemma ReadBackTo6()
    ensures ReadBack(0xb806118a) == 0x40
  {}

  lemma MovedBit7()
    ensures MovedBack(0x80) == 0x80
  {
    hide Moved, ReadBack;
    MovedTo7();
    ReadBackTo7();
  }

  lemma MovedTo7()
    ensures Moved(0x80) == 0xf00c2305
  {}

  lemma ReadBackTo7()
    ensures ReadBack(0xf00c2305) == 0x80
  {}

  lemma MovedBit8()
    ensures MovedBack(0x100) == 0x100
  {
    hide Moved, ReadBack;
    MovedTo8();
    ReadBackTo8();
  }

  lemma MovedTo8()
    ensures Moved(0x100) == 0x6018461b
  {}

  lemma ReadBackTo8()
    ensures ReadBack(0x6018461b) == 0x100
  {}

  lemma MovedBit9()
    ensures MovedBack(0x200) == 0x200
  {
    hide Moved, ReadBack;
    MovedTo9();
    ReadBackTo9();
  }

  lemma MovedTo9()
    ensures Moved(0x200) == 0xc0308c36
  {}

  lemma ReadBackTo9()
    ensures ReadBack(0xc0308c36) == 0x200
  {}

  lemma MovedBit10()
    ensures MovedBack(0x400) == 0x400
  {
    hide Moved, ReadBack;
    MovedTo10();
    ReadBackTo10();
  }

  lemma MovedTo10()
    ensures Moved(0x400) == 0x0061187d
  {}

  lemma ReadBackTo10()
    ensures ReadBack(0x0061187d) == 0x400
  {}

  lemma MovedBit11()
    ensures MovedBack(0x800) == 0x800
  {
    hide Moved, ReadBack;
    MovedTo11();
    ReadBackTo11();
  }

  lemma MovedTo11()
    ensures Moved(0x800) == 0x00c230fa
  {}

  lemma ReadBackTo11()
    ensures ReadBack(0x00c230fa) == 0x800
  {}

  lemma MovedBit12()
    ensures MovedBack(0x1000) == 0x1000
  {
    hide Moved, ReadBack;
    MovedTo12();
    ReadBackTo12();
  }

  lemma MovedTo12()
    ensures Moved(0x1000) == 0x018461f4
  {}

  lemma ReadBackTo12()
    ensures ReadBack(0x018461f4) == 0x1000
  {}

  lemma MovedBit13()
    ensures MovedBack(0x2000) == 0x2000
  {
    hide Moved, ReadBack;
    MovedTo13();
    ReadBackTo13();
  }

  lemma MovedTo13()
    ensures Moved(0x2000) == 0x0308c3e8
  {}

  lemma ReadBackTo13()
    ensures ReadBack(0x0308c3e8) == 0x2000
  {}

  lemma MovedBit14()
    ensures MovedBack(0x4000) == 0x4000
  {
    hide Moved, ReadBack;
    MovedTo14();
    ReadBackTo14();
  }

  lemma MovedTo14()
    ensures Moved(0x4000) == 0x061187d0
  {}

  lemma ReadBackTo14()
    ensures ReadBack(0x061187d0) == 0x4000
  {}

  lemma MovedBackBasis(i: nat)
    requires i < 15
    ensures MovedBack(Unit(i)) == Same(Unit(i))
  {
    hide MovedBack;
    assert Unit(0) == 0x1 && Unit(1) == 0x2 && Unit(2) == 0x4 && Unit(3) == 0x8 && Unit(4) == 0x10;
    assert Unit(5) == 0x20 && Unit(6) == 0x40 && Unit(7) == 0x80 && Unit(8) == 0x100 && Unit(9) == 0x200;
    assert Unit(10) == 0x400 && Unit(11) == 0x800 && Unit(12) == 0x1000 && Unit(13) == 0x2000 && Unit(14) == 0x4000;
    MovedBit0(); MovedBit1(); MovedBit2(); MovedBit3(); MovedBit4();
    MovedBit5(); MovedBit6(); MovedBit7(); MovedBit8(); MovedBit9();
    MovedBit10(); MovedBit11(); MovedBit12(); MovedBit13(); MovedBit14();
  }

  lemma MovedBackIsSame(u: Word)
    requires u < 0x8000
    ensures MovedBack(u) == u
  {
    hide MovedBack, Unit, Additive;
    MovedBackAdditive();
    forall i | 0 <= i < 15
      ensures MovedBack(Unit(i)) == Same(Unit(i))
    {
      MovedBackBasis(i);
    }
    FitsRegister(u);
    Agree(MovedBack, Same, 15, u);
  }

  lemma ReadBackSmall(w: Word)
    requires w < 0x8000
    ensures ReadBack(w) == 0
  {
    hide Columns16;
    assert Shr15(w) == 0;
    ColumnsOfZero();
  }

  lemma ColumnsOfZero()
    ensures Columns16(0) == 0
  {
    hide Columns4;
    ColumnsOfNothing(0x7571, 0x45ed, 0x7d6, 0xfac);
    ColumnsOfNothing(0x6a29, 0xe2c, 0x3f5b, 0x7eb6);
    ColumnsOfNothing(0x7160, 0x6ecc, 0x5194, 0x2f24);
    ColumnsOfNothing(0x2b39, 0x0, 0x2303, 0x4606);
    assert Shr4(0) == 0 && Shr8(0) == 0;
    hide Shr4, Shr8;
    assert Xor(0, 0) == 0;
  }

  lemma ColumnsOfNothing(a: Word, b: Word, c: Word, d: Word)
    ensures Columns4(0, a, b, c, d) == 0
  {
    TakenNothing(a);
    TakenNothing(b);
    TakenNothing(c);
    TakenNothing(d);
    assert Half(0) == 0 && Shr2(0) == 0 && Shr3(0) == 0 && Xor(0, 0) == 0;
    hide Taken, Half, Shr2, Shr3, Xor;
  }

  lemma TakenNothing(a: Word)
    ensures Taken(0, a) == 0
  {}

  /** No nonzero 15-bit polynomial stays that small when moved up 16384 places. */
  lemma SmallMovesAway(u: Word)
    requires u < 0x8000 && Moved(u) < 0x8000
    ensures u == 0
  {
    hide MovedBack, Moved, ReadBack;
    MovedBackIsSame(u);
    ReadBackSmall(Moved(u));
    MovedBackReads(u);
  }

  lemma MovedBackReads(u: Word)
    ensures MovedBack(u) == ReadBack(Moved(u))
  {}

  // ---------- the conclusion ----------

  lemma NumeratorInjective(l: Word)
    requires l < 0x8000
    ensures Numerator(l) == 0 <==> l == 0
  {}

  lemma Shift32Injective(a: Word, b: Word)
    requires Shift32(a) == Shift32(b)
    ensures a == b
  {
    hide Xor, Shift8;
    Shift32Xor(a, b);
    ZeroXor(Shift32(a));
    var x := Xor(a, b);
    Shift8Injective(x);
    Shift8Injective(Shift8(x));
    Shift8Injective(Shift8(Shift8(x)));
    Shift8Injective(Shift8(Shift8(Shift8(x))));
    Cancel(a, b);
  }

  lemma {:induction false} ShiftBytesShift32(a: Word, n: nat)
    ensures ShiftBytes(Shift32(a), n) == Shift32(ShiftBytes(a, n))
    decreases n
  {
    hide Shift32, Shift8;
    if n != 0 {
      Shift32Shift8(a);
      ShiftBytesShift32(Shift8(a), n - 1);
    }
  }

  lemma FilteredZero()
    ensures Filtered(0) == 0
  {
    hide Xor, Filtered;
    ZeroXor(0);
    FilteredXor(0, 0);
    ZeroXor(Filtered(0));
  }

  /** The code of 2048 bytes of output is zero only if the register was zero. */
  lemma CodeOfStream(l: Word)
    requires l < 0x8000
    ensures Remainder(0, StreamFrom(l, USER_SECTOR_SIZE)) == 0 ==> l == 0
  {
    hide Xor, Shift32, Filtered, Numerator, ShiftBytes, Times, NextBytes, StreamFrom, Remainder;
    if Remainder(0, StreamFrom(l, USER_SECTOR_SIZE)) == 0 {
      var u, last := Numerator(l), NextBytes(l, USER_SECTOR_SIZE);
      BalanceBytes(l, 0, USER_SECTOR_SIZE);
      FilteredZero();
      ZeroXor(Shift32(u));
      ZeroXor(Shift32(Numerator(last)));
      ShiftBytesShift32(u, USER_SECTOR_SIZE);
      Shift32Injective(Numerator(last), ShiftBytes(u, USER_SECTOR_SIZE));
      NumeratorSmall(l);
      NumeratorSmall(last);
      FitsRegister(u);
      FitsMore(u, 15, 16);
      TimesOne(u, 16);
      ShiftBytesTimes(1, u, 16, USER_SECTOR_SIZE);
      PowerOf2048();
      TimesAll(0xfee0184c, u);
      SmallMovesAway(u);
      NumeratorInjective(l);
    }
  }
}
