/** Natural numbers in big-endian bytes. */
module BigEndian {
  import opened Words

  /** The byte of value `x`, counted up to. */
  function ByteOf(x: nat): (b: Byte)
    requires x < 0x100
    ensures b as nat == x
  {
    if x == 0 then 0
    else
      NextByte(ByteOf(x - 1));
      ByteOf(x - 1) + 1
  }

  lemma NextByte(b: Byte)
    requires b < 0xff
    ensures (b + 1) as nat == b as nat + 1
  {}

  function Be16(n: nat): (b: seq<Byte>)
    requires n < 0x1_0000
    ensures |b| == 2
  {
    [ByteOf(n / 0x100), ByteOf(n % 0x100)]
  }

  function Be32(n: nat): (b: seq<Byte>)
    requires n < 0x1_0000_0000
    ensures |b| == 4
  {
    Be16(n / 0x1_0000) + Be16(n % 0x1_0000)
  }

  function Be64(n: nat): (b: seq<Byte>)
    requires n < 0x1_0000_0000_0000_0000
    ensures |b| == 8
  {
    Be32(n / 0x1_0000_0000) + Be32(n % 0x1_0000_0000)
  }

  function Get16(b: seq<Byte>, o: nat): (n: nat)
    requires o + 2 <= |b|
    ensures n < 0x1_0000
  {
    b[o] as nat * 0x100 + b[o + 1] as nat
  }

  function Get32(b: seq<Byte>, o: nat): (n: nat)
    requires o + 4 <= |b|
    ensures n < 0x1_0000_0000
  {
    Get16(b, o) * 0x1_0000 + Get16(b, o + 2)
  }

  function Get64(b: seq<Byte>, o: nat): (n: nat)
    requires o + 8 <= |b|
    ensures n < 0x1_0000_0000_0000_0000
  {
    Get32(b, o) * 0x1_0000_0000 + Get32(b, o + 4)
  }

  lemma GetPut16(b: seq<Byte>, o: nat, n: nat)
    requires n < 0x1_0000 && o + 2 <= |b| && b[o..o + 2] == Be16(n)
    ensures Get16(b, o) == n
  {
    assert b[o] == b[o..o + 2][0] && b[o + 1] == b[o..o + 2][1];
  }

  lemma GetPut32(b: seq<Byte>, o: nat, n: nat)
    requires n < 0x1_0000_0000 && o + 4 <= |b| && b[o..o + 4] == Be32(n)
    ensures Get32(b, o) == n
  {
    assert b[o..o + 2] == b[o..o + 4][..2] == Be16(n / 0x1_0000);
    assert b[o + 2..o + 4] == b[o..o + 4][2..] == Be16(n % 0x1_0000);
    GetPut16(b, o, n / 0x1_0000);
    GetPut16(b, o + 2, n % 0x1_0000);
  }

  lemma GetPut64(b: seq<Byte>, o: nat, n: nat)
    requires n < 0x1_0000_0000_0000_0000 && o + 8 <= |b| && b[o..o + 8] == Be64(n)
    ensures Get64(b, o) == n
  {
    assert b[o..o + 4] == b[o..o + 8][..4] == Be32(n / 0x1_0000_0000);
    assert b[o + 4..o + 8] == b[o..o + 8][4..] == Be32(n % 0x1_0000_0000);
    GetPut32(b, o, n / 0x1_0000_0000);
    GetPut32(b, o + 4, n % 0x1_0000_0000);
  }

  // ---------- any number of bytes ----------

  /** The number that `n` bytes stand for, the first the most significant. */
  function Number(b: seq<Byte>, o: nat, n: nat): nat
    requires o + n <= |b|
  {
    if n == 0 then 0 else Number(b, o, n - 1) * 0x100 + b[o + n - 1] as nat
  }

  lemma NumberTwo(b: seq<Byte>, o: nat, m: nat, n: nat)
    requires o + m + 2 <= |b| && n == m + 2
    ensures Number(b, o, n) == Number(b, o, m) * 0x1_0000 + Get16(b, o + m)
  {
    assert Number(b, o, m + 2) == Number(b, o, m + 1) * 0x100 + b[o + m + 1] as nat;
    assert Number(b, o, m + 1) == Number(b, o, m) * 0x100 + b[o + m] as nat;
  }

  lemma NumberNone(b: seq<Byte>, o: nat)
    requires o <= |b|
    ensures Number(b, o, 0) == 0
  {}

  lemma Number16(b: seq<Byte>, o: nat)
    requires o + 2 <= |b|
    ensures Get16(b, o) == Number(b, o, 2)
  {
    NumberNone(b, o);
    NumberTwo(b, o, 0, 2);
  }

  lemma Number32(b: seq<Byte>, o: nat)
    requires o + 4 <= |b|
    ensures Get32(b, o) == Number(b, o, 4)
  {
    hide Number, Get16;
    Number16(b, o);
    NumberTwo(b, o, 2, 4);
  }

  lemma Number64(b: seq<Byte>, o: nat)
    requires o + 8 <= |b|
    ensures Get64(b, o) == Number(b, o, 8)
  {
    hide Number, Get16;
    Number32(b, o);
    NumberTwo(b, o, 4, 6);
    NumberTwo(b, o, 6, 8);
  }

  /** A number does not change with what stands around it. */
  lemma {:induction false} NumberSame(a: seq<Byte>, o: nat, b: seq<Byte>, p: nat, n: nat)
    requires o + n <= |a| && p + n <= |b| && a[o..o + n] == b[p..p + n]
    ensures Number(a, o, n) == Number(b, p, n)
  {
    if n > 0 {
      assert a[o..o + n][..n - 1] == a[o..o + (n - 1)] && b[p..p + n][..n - 1] == b[p..p + (n - 1)];
      assert a[o..o + n][n - 1] == a[o + n - 1] && b[p..p + n][n - 1] == b[p + n - 1];
      NumberSame(a, o, b, p, n - 1);
    }
  }
}
