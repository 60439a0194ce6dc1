/**
 The error detection code of a raw sector: remainder of division by x^32 + x^31 + x^4 + 1
 (section 16.4 of ECMA-267), computed a byte at a time from a table.
 */
module Edc {
  import opened Words

  /** The 256 entries of the table, in eight blocks of 32. */
  function EdcTable(i: Byte): Word {
    if i < 0x80 then
      if i < 0x40 then if i < 0x20 then Block0(i) else Block1(i)
      else if i < 0x60 then Block2(i) else Block3(i)
    else
      if i < 0xc0 then if i < 0xa0 then Block4(i) else Block5(i)
      else if i < 0xe0 then Block6(i) else Block7(i)
  }

  function Block0(i: Byte): Word {
    match i
    case 0 => 0x00000000 case 1 => 0x80000011 case 2 => 0x80000033 case 3 => 0x00000022
    case 4 => 0x80000077 case 5 => 0x00000066 case 6 => 0x00000044 case 7 => 0x80000055
    case 8 => 0x800000FF case 9 => 0x000000EE case 10 => 0x000000CC case 11 => 0x800000DD
    case 12 => 0x00000088 case 13 => 0x80000099 case 14 => 0x800000BB case 15 => 0x000000AA
    case 16 => 0x800001EF case 17 => 0x000001FE case 18 => 0x000001DC case 19 => 0x800001CD
    case 20 => 0x00000198 case 21 => 0x80000189 case 22 => 0x800001AB case 23 => 0x000001BA
    case 24 => 0x00000110 case 25 => 0x80000101 case 26 => 0x80000123 case 27 => 0x00000132
    case 28 => 0x80000167 case 29 => 0x00000176 case 30 => 0x00000154 case _ => 0x80000145
  }

  function Block1(i: Byte): Word {
    match i
    case 32 => 0x800003CF case 33 => 0x000003DE case 34 => 0x000003FC case 35 => 0x800003ED
    case 36 => 0x000003B8 case 37 => 0x800003A9 case 38 => 0x8000038B case 39 => 0x0000039A
    case 40 => 0x00000330 case 41 => 0x80000321 case 42 => 0x80000303 case 43 => 0x00000312
    case 44 => 0x80000347 case 45 => 0x00000356 case 46 => 0x00000374 case 47 => 0x80000365
    case 48 => 0x00000220 case 49 => 0x80000231 case 50 => 0x80000213 case 51 => 0x00000202
    case 52 => 0x80000257 case 53 => 0x00000246 case 54 => 0x00000264 case 55 => 0x80000275
    case 56 => 0x800002DF case 57 => 0x000002CE case 58 => 0x000002EC case 59 => 0x800002FD
    case 60 => 0x000002A8 case 61 => 0x800002B9 case 62 => 0x8000029B case _ => 0x0000028A
  }

  function Block2(i: Byte): Word {
    match i
    case 64 => 0x8000078F case 65 => 0x0000079E case 66 => 0x000007BC case 67 => 0x800007AD
    case 68 => 0x000007F8 case 69 => 0x800007E9 case 70 => 0x800007CB case 71 => 0x000007DA
    case 72 => 0x00000770 case 73 => 0x80000761 case 74 => 0x80000743 case 75 => 0x00000752
    case 76 => 0x80000707 case 77 => 0x00000716 case 78 => 0x00000734 case 79 => 0x80000725
    case 80 => 0x00000660 case 81 => 0x80000671 case 82 => 0x80000653 case 83 => 0x00000642
    case 84 => 0x80000617 case 85 => 0x00000606 case 86 => 0x00000624 case 87 => 0x80000635
    case 88 => 0x8000069F case 89 => 0x0000068E case 90 => 0x000006AC case 91 => 0x800006BD
    case 92 => 0x000006E8 case 93 => 0x800006F9 case 94 => 0x800006DB case _ => 0x000006CA
  }

  function Block3(i: Byte): Word {
    match i
    case 96 => 0x00000440 case 97 => 0x80000451 case 98 => 0x80000473 case 99 => 0x00000462
    case 100 => 0x80000437 case 101 => 0x00000426 case 102 => 0x00000404 case 103 => 0x80000415
    case 104 => 0x800004BF case 105 => 0x000004AE case 106 => 0x0000048C case 107 => 0x8000049D
    case 108 => 0x000004C8 case 109 => 0x800004D9 case 110 => 0x800004FB case 111 => 0x000004EA
    case 112 => 0x800005AF case 113 => 0x000005BE case 114 => 0x0000059C case 115 => 0x8000058D
    case 116 => 0x000005D8 case 117 => 0x800005C9 case 118 => 0x800005EB case 119 => 0x000005FA
    case 120 => 0x00000550 case 121 => 0x80000541 case 122 => 0x80000563 case 123 => 0x00000572
    case 124 => 0x80000527 case 125 => 0x00000536 case 126 => 0x00000514 case _ => 0x80000505
  }

  function Block4(i: Byte): Word {
    match i
    case 128 => 0x80000F0F case 129 => 0x00000F1E case 130 => 0x00000F3C case 131 => 0x80000F2D
    case 132 => 0x00000F78 case 133 => 0x80000F69 case 134 => 0x80000F4B case 135 => 0x00000F5A
    case 136 => 0x00000FF0 case 137 => 0x80000FE1 case 138 => 0x80000FC3 case 139 => 0x00000FD2
    case 140 => 0x80000F87 case 141 => 0x00000F96 case 142 => 0x00000FB4 case 143 => 0x80000FA5
    case 144 => 0x00000EE0 case 145 => 0x80000EF1 case 146 => 0x80000ED3 case 147 => 0x00000EC2
    case 148 => 0x80000E97 case 149 => 0x00000E86 case 150 => 0x00000EA4 case 151 => 0x80000EB5
    case 152 => 0x80000E1F case 153 => 0x00000E0E case 154 => 0x00000E2C case 155 => 0x80000E3D
    case 156 => 0x00000E68 case 157 => 0x80000E79 case 158 => 0x80000E5B case _ => 0x00000E4A
  }

  function Block5(i: Byte): Word {
    match i
    case 160 => 0x00000CC0 case 161 => 0x80000CD1 case 162 => 0x80000CF3 case 163 => 0x00000CE2
    case 164 => 0x80000CB7 case 165 => 0x00000CA6 case 166 => 0x00000C84 case 167 => 0x80000C95
    case 168 => 0x80000C3F case 169 => 0x00000C2E case 170 => 0x00000C0C case 171 => 0x80000C1D
    case 172 => 0x00000C48 case 173 => 0x80000C59 case 174 => 0x80000C7B case 175 => 0x00000C6A
    case 176 => 0x80000D2F case 177 => 0x00000D3E case 178 => 0x00000D1C case 179 => 0x80000D0D
    case 180 => 0x00000D58 case 181 => 0x80000D49 case 182 => 0x80000D6B case 183 => 0x00000D7A
    case 184 => 0x00000DD0 case 185 => 0x80000DC1 case 186 => 0x80000DE3 case 187 => 0x00000DF2
    case 188 => 0x80000DA7 case 189 => 0x00000DB6 case 190 => 0x00000D94 case _ => 0x80000D85
  }

  function Block6(i: Byte): Word {
    match i
    case 192 => 0x00000880 case 193 => 0x80000891 case 194 => 0x800008B3 case 195 => 0x000008A2
    case 196 => 0x800008F7 case 197 => 0x000008E6 case 198 => 0x000008C4 case 199 => 0x800008D5
    case 200 => 0x8000087F case 201 => 0x0000086E case 202 => 0x0000084C case 203 => 0x8000085D
    case 204 => 0x00000808 case 205 => 0x80000819 case 206 => 0x8000083B case 207 => 0x0000082A
    case 208 => 0x8000096F case 209 => 0x0000097E case 210 => 0x0000095C case 211 => 0x8000094D
    case 212 => 0x00000918 case 213 => 0x80000909 case 214 => 0x8000092B case 215 => 0x0000093A
    case 216 => 0x00000990 case 217 => 0x80000981 case 218 => 0x800009A3 case 219 => 0x000009B2
    case 220 => 0x800009E7 case 221 => 0x000009F6 case 222 => 0x000009D4 case _ => 0x800009C5
  }

  function Block7(i: Byte): Word {
    match i
    case 224 => 0x80000B4F case 225 => 0x00000B5E case 226 => 0x00000B7C case 227 => 0x80000B6D
    case 228 => 0x00000B38 case 229 => 0x80000B29 case 230 => 0x80000B0B case 231 => 0x00000B1A
    case 232 => 0x00000BB0 case 233 => 0x80000BA1 case 234 => 0x80000B83 case 235 => 0x00000B92
    case 236 => 0x80000BC7 case 237 => 0x00000BD6 case 238 => 0x00000BF4 case 239 => 0x80000BE5
    case 240 => 0x00000AA0 case 241 => 0x80000AB1 case 242 => 0x80000A93 case 243 => 0x00000A82
    case 244 => 0x80000AD7 case 245 => 0x00000AC6 case 246 => 0x00000AE4 case 247 => 0x80000AF5
    case 248 => 0x80000A5F case 249 => 0x00000A4E case 250 => 0x00000A6C case 251 => 0x80000A7D
    case 252 => 0x00000A28 case 253 => 0x80000A39 case 254 => 0x80000A1B case _ => 0x00000A0A
  }

  // ---------- division bit by bit ----------

  function Shl1(e: Word): Word { e << 1 }

  function Shl4(e: Word): Word { e << 4 }

  function Shl31(e: Word): Word { e << 31 }

  function Top(e: Word): Word { e >> 31 }

  /** Doubles the remainder: the bit that leaves at the top comes back as x^31 + x^4 + 1. */
  function Shift(e: Word): Word {
    Xor(Shl1(e), Taps(Top(e)))
  }

  function Taps(top: Word): Word {
    Xor(Xor(Shl31(top), Shl4(top)), top)
  }

  function Shift8(e: Word): Word {
    Shift4(Shift4(e))
  }

  function Shift4(e: Word): Word {
    Shift(Shift(Shift(Shift(e))))
  }

  /** A byte, most significant bit first, enters at the top of the remainder. */
  function Enter(e: Word, b: Byte): Word {
    Xor(e, Raised(b))
  }

  function Raised(b: Byte): Word {
    b as Word << 24
  }

  /** Bit-serial remainder of `data` appended to what left remainder `e`. */
  function Remainder(e: Word, data: seq<Byte>): Word
    decreases |data|
  {
    if data == [] then e else Remainder(Shift8(Enter(e, data[0])), data[1..])
  }

  // ---------- linearity ----------

  lemma XorSwap(a: Word, b: Word, c: Word, d: Word)
    ensures Xor(Xor(a, b), Xor(c, d)) == Xor(Xor(a, c), Xor(b, d))
  {
    hide Xor;
    XorAssoc(a, b, Xor(c, d));
    XorAssoc(b, c, d);
    XorComm(b, c);
    XorAssoc(c, b, d);
    XorAssoc(a, c, Xor(b, d));
  }

  lemma XorAssoc(a: Word, b: Word, c: Word)
    ensures Xor(Xor(a, b), c) == Xor(a, Xor(b, c))
  {}

  lemma XorComm(a: Word, b: Word)
    ensures Xor(a, b) == Xor(b, a)
  {}

  lemma Shl1Xor(a: Word, b: Word)
    ensures Shl1(Xor(a, b)) == Xor(Shl1(a), Shl1(b))
  {}

  lemma Shl4Xor(a: Word, b: Word)
    ensures Shl4(Xor(a, b)) == Xor(Shl4(a), Shl4(b))
  {}

  lemma Shl31Xor(a: Word, b: Word)
    ensures Shl31(Xor(a, b)) == Xor(Shl31(a), Shl31(b))
  {}

  lemma TopXor(a: Word, b: Word)
    ensures Top(Xor(a, b)) == Xor(Top(a), Top(b))
  {}

  lemma TapsXor(a: Word, b: Word)
    ensures Taps(Xor(a, b)) == Xor(Taps(a), Taps(b))
  {
    hide Xor, Shl31, Shl4;
    Shl31Xor(a, b);
    Shl4Xor(a, b);
    XorSwap(Shl31(a), Shl31(b), Shl4(a), Shl4(b));
    XorSwap(Xor(Shl31(a), Shl4(a)), Xor(Shl31(b), Shl4(b)), a, b);
  }

  lemma ShiftXor(a: Word, b: Word)
    ensures Shift(Xor(a, b)) == Xor(Shift(a), Shift(b))
  {
    hide Xor, Shl1, Top, Taps;
    Shl1Xor(a, b);
    TopXor(a, b);
    TapsXor(Top(a), Top(b));
    XorSwap(Shl1(a), Shl1(b), Taps(Top(a)), Taps(Top(b)));
  }

  lemma Shift4Xor(a: Word, b: Word)
    ensures Shift4(Xor(a, b)) == Xor(Shift4(a), Shift4(b))
  {
    hide Xor, Shift;
    ShiftXor(a, b);
    ShiftXor(Shift(a), Shift(b));
    ShiftXor(Shift(Shift(a)), Shift(Shift(b)));
    ShiftXor(Shift(Shift(Shift(a))), Shift(Shift(Shift(b))));
  }

  lemma Shift8Xor(a: Word, b: Word)
    ensures Shift8(Xor(a, b)) == Xor(Shift8(a), Shift8(b))
  {
    hide Xor, Shift4;
    Shift4Xor(a, b);
    Shift4Xor(Shift4(a), Shift4(b));
  }

  function XorByte(a: Byte, b: Byte): Byte {
    a ^ b
  }

  lemma RaisedXor(a: Byte, b: Byte)
    ensures Raised(XorByte(a, b)) == Xor(Raised(a), Raised(b))
  {}

  /** The exclusive or of two strings of one length. */
  function XorBytes(x: seq<Byte>, y: seq<Byte>): (z: seq<Byte>)
    requires |x| == |y|
    ensures |z| == |x|
  {
    seq(|x|, i requires 0 <= i < |x| => XorByte(x[i], y[i]))
  }

  /** The code is linear: of an exclusive or it is the exclusive or of the codes. */
  lemma {:induction false} RemainderXor(e: Word, f: Word, x: seq<Byte>, y: seq<Byte>)
    requires |x| == |y|
    ensures Remainder(Xor(e, f), XorBytes(x, y)) == Xor(Remainder(e, x), Remainder(f, y))
    decreases |x|
  {
    hide Xor, Shift8, Raised, XorByte;
    if x != [] {
      RaisedXor(x[0], y[0]);
      XorSwap(e, f, Raised(x[0]), Raised(y[0]));
      Shift8Xor(Enter(e, x[0]), Enter(f, y[0]));
      assert XorBytes(x, y)[1..] == XorBytes(x[1..], y[1..]);
      RemainderXor(Shift8(Enter(e, x[0])), Shift8(Enter(f, y[0])), x[1..], y[1..]);
    }
  }

  // ---------- the table ----------

  function TopByte(e: Word): Byte {
    ((e >> 24) & 0xff) as Byte
  }

  function Low24(e: Word): Word {
    e & 0x00ff_ffff
  }

  function Shl8(e: Word): Word {
    e << 8
  }

  /** One step of the table-driven computation. */
  function TableStep(e: Word, b: Byte): Word {
    Xor(EdcTable(XorByte(TopByte(e), b)), Shl8(e))
  }

  lemma Block0Entry(b: Byte)
    requires 0 <= b <= 31
    ensures Block0(b) == Shift8(Raised(b))
  {}

  lemma Block1Entry(b: Byte)
    requires 32 <= b <= 63
    ensures Block1(b) == Shift8(Raised(b))
  {}

  lemma Block2Entry(b: Byte)
    requires 64 <= b <= 95
    ensures Block2(b) == Shift8(Raised(b))
  {}

  lemma Block3Entry(b: Byte)
    requires 96 <= b <= 127
    ensures Block3(b) == Shift8(Raised(b))
  {}

  lemma Block4Entry(b: Byte)
    requires 128 <= b <= 159
    ensures Block4(b) == Shift8(Raised(b))
  {}

  lemma Block5Entry(b: Byte)
    requires 160 <= b <= 191
    ensures Block5(b) == Shift8(Raised(b))
  {}

  lemma Block6Entry(b: Byte)
    requires 192 <= b <= 223
    ensures Block6(b) == Shift8(Raised(b))
  {}

  lemma Block7Entry(b: Byte)
    requires 224 <= b <= 255
    ensures Block7(b) == Shift8(Raised(b))
  {}

  /** The table's entry for a byte is what eight shifts make of that byte alone. */
  lemma TableEntry(b: Byte)
    ensures EdcTable(b) == Shift8(Raised(b))
  {
    hide Shift8, Raised, Block0, Block1, Block2, Block3, Block4, Block5, Block6, Block7;
    if b < 0x20 { Block0Entry(b); }
    else if b < 0x40 { Block1Entry(b); }
    else if b < 0x60 { Block2Entry(b); }
    else if b < 0x80 { Block3Entry(b); }
    else if b < 0xa0 { Block4Entry(b); }
    else if b < 0xc0 { Block5Entry(b); }
    else if b < 0xe0 { Block6Entry(b); }
    else { Block7Entry(b); }
  }

  lemma SplitTop(e: Word, b: Byte)
    ensures Enter(e, b) == Xor(Raised(XorByte(TopByte(e), b)), Low24(e))
  {
    SplitWord(e);
    RaisedXor(TopByte(e), b);
    hide Xor, Raised, Low24, TopByte, XorByte;
    XorAssoc(Raised(TopByte(e)), Low24(e), Raised(b));
    XorComm(Low24(e), Raised(b));
    XorAssoc(Raised(TopByte(e)), Raised(b), Low24(e));
  }

  lemma SplitWord(e: Word)
    ensures e == Xor(Raised(TopByte(e)), Low24(e))
  {}

  /** Nothing leaves at the top of a word whose top byte is clear. */
  lemma ShiftLow(e: Word)
    requires e < 0x8000_0000
    ensures Shift(e) == Shl1(e)
  {
    assert Top(e) == 0;
  }

  lemma Shift8Low(e: Word)
    ensures Shift8(Low24(e)) == Shl8(e)
  {
    hide Shift;
    var l := Low24(e);
    ShiftLow(l);
    ShiftLow(l << 1);
    ShiftLow(l << 2);
    ShiftLow(l << 3);
    ShiftLow(l << 4);
    ShiftLow(l << 5);
    ShiftLow(l << 6);
    ShiftLow(l << 7);
    DoublesEight(l, l << 1, l << 2, l << 3, l << 4, l << 5, l << 6, l << 7);
    DropsTop(e);
  }

  lemma DoublesEight(a: Word, b: Word, c: Word, d: Word, e: Word, f: Word, g: Word, h: Word)
    requires b == a << 1 && c == a << 2 && d == a << 3 && e == a << 4 && f == a << 5 && g == a << 6 && h == a << 7
    ensures b == Shl1(a) && c == Shl1(b) && d == Shl1(c) && e == Shl1(d)
    ensures f == Shl1(e) && g == Shl1(f) && h == Shl1(g) && Shl8(a) == Shl1(h)
  {}

  lemma DropsTop(e: Word)
    ensures Shl8(Low24(e)) == Shl8(e)
  {}

  /** One step of the table is eight steps of division. */
  lemma TableStepExact(e: Word, b: Byte)
    ensures TableStep(e, b) == Shift8(Enter(e, b))
  {
    hide Xor, Shift8, Raised, Low24, Shl8, EdcTable, XorByte, TopByte;
    SplitTop(e, b);
    var i := XorByte(TopByte(e), b);
    Shift8Xor(Raised(i), Low24(e));
    TableEntry(i);
    Shift8Low(e);
  }

  /** The table-driven code is the bit-serial remainder, for every string. */
  method EdcCalc(edc: Word, data: seq<Byte>) returns (r: Word)
    ensures r == Remainder(edc, data)
  {
    hide TableStep, Shift8, Enter;
    r := edc;
    for i := 0 to |data|
      invariant Remainder(r, data[i..]) == Remainder(edc, data)
    {
      TableStepExact(r, data[i]);
      r := TableStep(r, data[i]);
      assert data[i..][0] == data[i] && data[i..][1..] == data[i + 1..];
    }
  }

  // ---------- checking a stored code ----------

  /** The code stored after its data, big-endian. */
  function StoredCode(v: Word): seq<Byte> {
    [TopByte(v), TopByte(Shl8(v)), TopByte(Shl8(Shl8(v))), TopByte(Shl8(Shl8(Shl8(v))))]
  }

  /** A byte equal to the top of the remainder cancels it. */
  lemma EnterCancels(e: Word)
    ensures Shift8(Enter(e, TopByte(e))) == Shl8(e)
  {
    hide Xor, Shift8, Raised, Low24, Shl8, XorByte, TopByte;
    SplitTop(e, TopByte(e));
    SameByte(TopByte(e));
    ZeroXor(Low24(e));
    Shift8Low(e);
  }

  lemma SameByte(b: Byte)
    ensures Raised(XorByte(b, b)) == 0
  {}

  lemma ZeroXor(a: Word)
    ensures Xor(0, a) == a && Xor(a, 0) == a && Xor(a, a) == 0
  {}

  /** A remainder followed by itself leaves nothing. */
  lemma CodeCancels(v: Word)
    ensures Remainder(v, StoredCode(v)) == 0
  {
    hide Enter, Shift8, Shl8, TopByte;
    var w := Shl8(v);
    EnterCancels(v);
    EnterCancels(w);
    EnterCancels(Shl8(w));
    EnterCancels(Shl8(Shl8(w)));
    RemainderFour(v, TopByte(v), TopByte(w), TopByte(Shl8(w)), TopByte(Shl8(Shl8(w))));
    ShiftedOut(v);
  }

  lemma ShiftedOut(v: Word)
    ensures Shl8(Shl8(Shl8(Shl8(v)))) == 0
  {}

  lemma RemainderFour(e: Word, a: Byte, b: Byte, c: Byte, d: Byte)
    ensures Remainder(e, [a, b, c, d]) == Shift8(Enter(Shift8(Enter(Shift8(Enter(Shift8(Enter(e, a)), b)), c)), d))
  {
    hide Enter, Shift8;
    var e1 := Shift8(Enter(e, a));
    var e2 := Shift8(Enter(e1, b));
    var e3 := Shift8(Enter(e2, c));
    assert [a, b, c, d][1..] == [b, c, d] && [b, c, d][1..] == [c, d] && [c, d][1..] == [d] && [d][1..] == [];
    assert Remainder(e, [a, b, c, d]) == Remainder(e1, [b, c, d]) == Remainder(e2, [c, d]) == Remainder(e3, [d]);
    assert Remainder(e3, [d]) == Remainder(Shift8(Enter(e3, d)), []);
  }

  /** Only nothing is shifted to nothing: the polynomial has a constant term. */
  lemma ShiftInjective(e: Word)
    ensures Shift(e) == 0 <==> e == 0
  {
    LowBitOfShift(e);
    if Top(e) == 0 {
      ShiftLow(e);
    }
  }

  lemma LowBitOfShift(e: Word)
    ensures Shift(e) & 1 == Top(e)
    ensures Top(e) == 0 <==> e < 0x8000_0000
  {}

  lemma Shift8Injective(e: Word)
    ensures Shift8(e) == 0 <==> e == 0
  {
    hide Shift;
    ShiftInjective(e);
    ShiftInjective(Shift(e));
    ShiftInjective(Shift(Shift(e)));
    ShiftInjective(Shift(Shift(Shift(e))));
    ShiftInjective(Shift4(e));
    ShiftInjective(Shift(Shift4(e)));
    ShiftInjective(Shift(Shift(Shift4(e))));
    ShiftInjective(Shift(Shift(Shift(Shift4(e)))));
  }

  /** Four more zero bytes leave nothing only of nothing. */
  lemma ZeroesInjective(e: Word)
    ensures Remainder(e, [0, 0, 0, 0]) == 0 <==> e == 0
  {
    hide Shift8, Raised;
    RemainderFour(e, 0, 0, 0, 0);
    var a := Shift8(e);
    EnterZero(e);
    EnterZero(a);
    EnterZero(Shift8(a));
    EnterZero(Shift8(Shift8(a)));
    Shift8Injective(e);
    Shift8Injective(a);
    Shift8Injective(Shift8(a));
    Shift8Injective(Shift8(Shift8(a)));
  }

  lemma EnterZero(e: Word)
    ensures Enter(e, 0) == e
  {
    ZeroXor(e);
  }

  lemma {:induction false} RemainderConcat(e: Word, x: seq<Byte>, y: seq<Byte>)
    ensures Remainder(e, x + y) == Remainder(Remainder(e, x), y)
    decreases |x|
  {
    hide Enter, Shift8;
    if x == [] {
      assert x + y == y;
    } else {
      assert (x + y)[1..] == x[1..] + y;
      RemainderConcat(Shift8(Enter(e, x[0])), x[1..], y);
    }
  }

  /** A stored code is right exactly when data and code together leave nothing. */
  lemma StoredCodeChecks(data: seq<Byte>, stored: Word)
    ensures Remainder(0, data) == stored <==> Remainder(0, data + StoredCode(stored)) == 0
  {
    hide Xor, StoredCode, Remainder;
    var e := Remainder(0, data);
    RemainderConcat(0, data, StoredCode(stored));
    CodeCancels(stored);
    StoredCodeLength(stored);
    RemainderXor(Xor(e, stored), stored, [0, 0, 0, 0], StoredCode(stored));
    XorZeroes(StoredCode(stored));
    Cancel(e, stored);
    ZeroXor(Remainder(Xor(e, stored), [0, 0, 0, 0]));
    ZeroesInjective(Xor(e, stored));
  }

  lemma StoredCodeLength(v: Word)
    ensures |StoredCode(v)| == 4
  {}

  lemma Cancel(a: Word, b: Word)
    ensures Xor(Xor(a, b), b) == a
    ensures Xor(a, b) == 0 <==> a == b
  {
    hide Xor;
    XorAssoc(a, b, b);
    ZeroXor(a);
    ZeroXor(b);
  }

  lemma XorZeroes(x: seq<Byte>)
    requires |x| == 4
    ensures XorBytes([0, 0, 0, 0], x) == x
  {
    forall i | 0 <= i < 4
      ensures XorBytes([0, 0, 0, 0], x)[i] == x[i]
    {
      XorByteZero(x[i]);
      assert [0, 0, 0, 0][i] == 0 as Byte;
    }
  }

  lemma XorByteZero(b: Byte)
    ensures XorByte(0, b) == b && XorByte(b, 0) == b && XorByte(b, b) == 0
  {}
}
