/** Finding a disc's scrambling seed from the codes of its raw sectors, and removing the scrambling. */
module Descramble {
  import opened Words
  import opened BigEndian
  import opened Edc
  import opened Lfsr
  import opened LfsrCode
  import opened Results

  const RAW_SECTOR_SIZE: nat := 2064
  const EDC_LENGTH: nat := 2060
  const SECTORS_PER_BLOCK: nat := 16
  const RAW_BLOCK_SIZE: nat := 33024

  type Sector = s: seq<Byte> | |s| == RAW_SECTOR_SIZE witness seq(RAW_SECTOR_SIZE, _ => 0)
  type UserData = s: seq<Byte> | |s| == USER_SECTOR_SIZE witness seq(USER_SECTOR_SIZE, _ => 0)

  /** A sector with the cipher added to the bytes it covers. */
  function Masked(sector: Sector, cipher: UserData): Sector {
    sector[..12] + XorBytes(sector[12..EDC_LENGTH], cipher) + sector[EDC_LENGTH..]
  }

  /** The code stored at the end of a sector is the code of what precedes it. */
  predicate Checks(sector: Sector) {
    Remainder(0, sector[..EDC_LENGTH]) == FromBe(sector[2060], sector[2061], sector[2062], sector[2063])
  }

  predicate Accepts(rawSector: Sector, seed: Seed16) {
    Checks(Masked(rawSector, Stream(seed)))
  }

  // ---------- which seeds are accepted ----------

  lemma StoredReads(b0: Byte, b1: Byte, b2: Byte, b3: Byte)
    ensures StoredCode(FromBe(b0, b1, b2, b3)) == [b0, b1, b2, b3]
  {}

  /** A sector checks exactly when its whole remainder is zero. */
  lemma ChecksRemainder(sector: Sector)
    ensures Checks(sector) <==> Remainder(0, sector) == 0
  {
    hide Remainder, StoredCode, FromBe;
    var v := FromBe(sector[2060], sector[2061], sector[2062], sector[2063]);
    StoredReads(sector[2060], sector[2061], sector[2062], sector[2063]);
    StoredCodeChecks(sector[..EDC_LENGTH], v);
    assert sector == sector[..EDC_LENGTH] + StoredCode(v);
  }

  /** What masking adds to a sector. */
  function Overlay(cipher: UserData): Sector {
    seq(12, _ => 0) + cipher + seq(4, _ => 0)
  }

  lemma MaskedIsOverlay(sector: Sector, cipher: UserData)
    ensures Masked(sector, cipher) == XorBytes(sector, Overlay(cipher))
  {
    forall i | 0 <= i < RAW_SECTOR_SIZE
      ensures Masked(sector, cipher)[i] == XorBytes(sector, Overlay(cipher))[i]
    {
      XorByteZero(sector[i]);
    }
  }

  lemma {:induction false} RemainderZeroes(n: nat)
    ensures Remainder(0, seq(n, _ => 0)) == 0
    decreases n
  {
    hide Shift8, Enter;
    if n != 0 {
      EnterZero(0);
      Shift8Injective(0);
      assert seq(n, _ => 0 as Byte)[1..] == seq(n - 1, _ => 0 as Byte);
      RemainderZeroes(n - 1);
    }
  }

  /** Where the mask stands in the sector does not matter to whether its code is zero. */
  lemma OverlayRemainder(cipher: UserData)
    ensures Remainder(0, Overlay(cipher)) == 0 <==> Remainder(0, cipher) == 0
  {
    hide Remainder;
    var front: seq<Byte>, back: seq<Byte> := seq(12, _ => 0), seq(4, _ => 0);
    RemainderConcat(0, front + cipher, back);
    RemainderConcat(0, front, cipher);
    RemainderZeroes(12);
    assert back == [0, 0, 0, 0];
    ZeroesInjective(Remainder(0, cipher));
  }

  /** Masking a sound sector leaves it sound exactly when the mask's own code is zero. */
  lemma MaskedChecks(sector: Sector, cipher: UserData)
    requires Checks(sector)
    ensures Checks(Masked(sector, cipher)) <==> Remainder(0, cipher) == 0
  {
    hide Remainder, Checks, Xor, Masked, Overlay;
    ChecksRemainder(sector);
    ChecksRemainder(Masked(sector, cipher));
    MaskedIsOverlay(sector, cipher);
    ZeroXor(0);
    RemainderXor(0, 0, sector, Overlay(cipher));
    ZeroXor(Remainder(0, Overlay(cipher)));
    OverlayRemainder(cipher);
  }

  lemma MaskedTwice(sector: Sector, a: UserData, b: UserData)
    ensures Masked(Masked(sector, a), b) == Masked(sector, XorBytes(a, b))
  {
    hide XorByte;
    forall i | 0 <= i < RAW_SECTOR_SIZE
      ensures Masked(Masked(sector, a), b)[i] == Masked(sector, XorBytes(a, b))[i]
    {
      if 12 <= i < EDC_LENGTH {
        XorByteAssoc(sector[i], a[i - 12], b[i - 12]);
      }
    }
  }

  lemma XorByteAssoc(a: Byte, b: Byte, c: Byte)
    ensures XorByte(XorByte(a, b), c) == XorByte(a, XorByte(b, c))
  {}

  /** On a sector scrambled with `s`, candidate `c` passes exactly when the stream of their difference has code zero. */
  lemma AcceptsByCode(plain: Sector, s: Seed16, c: Seed16)
    requires Checks(plain)
    ensures Accepts(Masked(plain, Stream(s)), c) <==> Remainder(0, StreamFrom(Difference(s, c), USER_SECTOR_SIZE)) == 0
  {
    hide Stream, StreamFrom, Difference, Remainder, Checks, Masked;
    MaskedTwice(plain, Stream(s), Stream(c));
    StreamXor(s, c);
    MaskedChecks(plain, StreamFrom(Difference(s, c), USER_SECTOR_SIZE));
  }

  /** ... which only a seed equal to `s` in its low 15 bits does. */
  lemma AcceptsOnlySeed(plain: Sector, s: Seed16, c: Seed16)
    requires Checks(plain)
    ensures Accepts(Masked(plain, Stream(s)), c) <==> SameSeed(s, c)
  {
    hide Remainder, Checks, Masked, StreamFrom, Accepts, Difference, Low15;
    AcceptsByCode(plain, s, c);
    DifferenceZero(s, c);
    CodeOfStream(Difference(s, c));
    if SameSeed(s, c) {
      ZeroStream(USER_SECTOR_SIZE);
      RemainderZeroes(USER_SECTOR_SIZE);
    }
  }

  lemma {:induction false} ZeroStream(n: nat)
    ensures StreamFrom(0, n) == seq(n, _ => 0)
    decreases n
  {
    if n != 0 {
      assert Next8(0) == 0 && OutByte(0) == 0;
      ZeroStream(n - 1);
    }
  }

  // ---------- searching ----------

  /** The least accepted seed below `limit`. */
  ghost predicate LeastAccepted(rawSector: Sector, limit: Seed16, found: Option<Seed16>) {
    match found
    case None => forall c: Seed16 | c < limit :: !Accepts(rawSector, c)
    case Some(s) => s < limit && Accepts(rawSector, s) && forall c: Seed16 | c < s :: !Accepts(rawSector, c)
  }

  /** The search recovers the seed of any soundly made sector, or reports that it lies beyond the limit. */
  lemma SearchFindsSeed(plain: Sector, s: Seed16, limit: Seed16, found: Option<Seed16>)
    requires Checks(plain) && LeastAccepted(Masked(plain, Stream(s)), limit, found)
    ensures found == if Low15(s) < limit then Some(Low15(s)) else None
  {
    hide Checks, Masked, Stream, Accepts;
    AcceptsOnlySeed(plain, s, Low15(s));
    if found.Some? {
      AcceptsOnlySeed(plain, s, found.value);
    }
  }

  // ---------- sectors and blocks ----------

  /** Sector `k` of a block as it lies in the raw frame. */
  function SectorOf(rawBlock: seq<Byte>, k: nat): Sector
    requires |rawBlock| >= RAW_BLOCK_SIZE && k < SECTORS_PER_BLOCK
  {
    rawBlock[k * RAW_SECTOR_SIZE..(k + 1) * RAW_SECTOR_SIZE]
  }

  /** The user data of a plain sector, which starts at byte 6. */
  function UserPart(sector: Sector): UserData {
    sector[6..6 + USER_SECTOR_SIZE]
  }

  datatype DescrambleError = RawTooShort | SeedNotFound(block: nat) | EdcMismatch(block: nat, sector: nat)

  datatype Descrambled = Data(bytes: seq<Byte>) | Failed(error: DescrambleError)

  /** The user data of sectors `k` on, or the first that does not check. */
  ghost function DescrambledFrom(rawBlock: seq<Byte>, cipher: UserData, verify: bool, block: nat, k: nat): Descrambled
    requires |rawBlock| >= RAW_BLOCK_SIZE && k <= SECTORS_PER_BLOCK
    decreases SECTORS_PER_BLOCK - k
  {
    if k == SECTORS_PER_BLOCK then Data([])
    else
      var plain := Masked(SectorOf(rawBlock, k), cipher);
      if verify && !Checks(plain) then Failed(EdcMismatch(block, k))
      else
        var rest := DescrambledFrom(rawBlock, cipher, verify, block, k + 1);
        if rest.Failed? then rest else Data(UserPart(plain) + rest.bytes)
  }

  // ---------- byte by byte ----------

  /** Byte `x` of sector `k` of a raw block, without the cipher, which starts at byte 12 and leaves the code alone. */
  function PlainByte(rawBlock: seq<Byte>, cipher: UserData, k: nat, x: nat): Byte
    requires |rawBlock| >= RAW_BLOCK_SIZE && k < SECTORS_PER_BLOCK && x < RAW_SECTOR_SIZE
  {
    var b := rawBlock[2064 * k + x];
    if 12 <= x < 2060 then b ^ cipher[x - 12] else b
  }

  function PlainAt(rawBlock: seq<Byte>, cipher: UserData, k: nat): Sector
    requires |rawBlock| >= RAW_BLOCK_SIZE && k < SECTORS_PER_BLOCK
  {
    seq(RAW_SECTOR_SIZE, x requires 0 <= x < RAW_SECTOR_SIZE => PlainByte(rawBlock, cipher, k, x))
  }

  /** A block whose codes are right from sector `k` on. */
  ghost predicate AllCheck(rawBlock: seq<Byte>, cipher: UserData, k: nat)
    requires |rawBlock| >= RAW_BLOCK_SIZE
  {
    forall a | k <= a < SECTORS_PER_BLOCK :: Checks(PlainAt(rawBlock, cipher, a))
  }

  /**
   What descrambling a block gives: from each sector in turn the bytes 6 to 2054 without the cipher, or,
   when codes are to be right, the number of the first sector whose code is wrong.
   */
  ghost predicate Unscrambled(rawBlock: seq<Byte>, cipher: UserData, verify: bool, block: nat, r: Descrambled)
    requires |rawBlock| >= RAW_BLOCK_SIZE
  {
    match r
    case Data(bytes) =>
      && (verify ==> AllCheck(rawBlock, cipher, 0)) && |bytes| == 0x8000
      && forall x | 0 <= x < 0x8000 :: bytes[x] == PlainByte(rawBlock, cipher, x / 2048, 6 + x % 2048)
    case Failed(error) =>
      && verify && error.EdcMismatch? && error.block == block && error.sector < SECTORS_PER_BLOCK
      && !Checks(PlainAt(rawBlock, cipher, error.sector))
      && forall a | 0 <= a < error.sector :: Checks(PlainAt(rawBlock, cipher, a))
  }

  lemma MaskedIsPlain(rawBlock: seq<Byte>, cipher: UserData, k: nat)
    requires |rawBlock| >= RAW_BLOCK_SIZE && k < SECTORS_PER_BLOCK
    ensures Masked(SectorOf(rawBlock, k), cipher) == PlainAt(rawBlock, cipher, k)
  {
    var masked, sector := Masked(SectorOf(rawBlock, k), cipher), SectorOf(rawBlock, k);
    forall x | 0 <= x < RAW_SECTOR_SIZE
      ensures masked[x] == PlainAt(rawBlock, cipher, k)[x]
    {
      assert sector[x] == rawBlock[2064 * k + x];
    }
  }

  lemma UserPartIs(rawBlock: seq<Byte>, cipher: UserData, k: nat)
    requires |rawBlock| >= RAW_BLOCK_SIZE && k < SECTORS_PER_BLOCK
    ensures var user := UserPart(PlainAt(rawBlock, cipher, k));
            forall i | 0 <= i < USER_SECTOR_SIZE :: user[i] == PlainByte(rawBlock, cipher, k, 6 + i)
  {
    hide PlainByte;
  }

  /** The user data from sector `k` on, or the first sector from there that does not check. */
  lemma {:induction false} UnscrambledFrom(rawBlock: seq<Byte>, cipher: UserData, verify: bool, block: nat, k: nat)
    requires |rawBlock| >= RAW_BLOCK_SIZE && k <= SECTORS_PER_BLOCK
    ensures match DescrambledFrom(rawBlock, cipher, verify, block, k)
            case Data(bytes) =>
              && (verify ==> AllCheck(rawBlock, cipher, k)) && |bytes| == 2048 * (SECTORS_PER_BLOCK - k)
              && forall x | 0 <= x < |bytes| :: bytes[x] == PlainByte(rawBlock, cipher, k + x / 2048, 6 + x % 2048)
            case Failed(error) =>
              && verify && error.EdcMismatch? && error.block == block && k <= error.sector < SECTORS_PER_BLOCK
              && !Checks(PlainAt(rawBlock, cipher, error.sector))
              && forall a | k <= a < error.sector :: Checks(PlainAt(rawBlock, cipher, a))
    decreases SECTORS_PER_BLOCK - k
  {
    hide Masked, Checks, PlainByte, UserPart, PlainAt;
    if k < SECTORS_PER_BLOCK {
      MaskedIsPlain(rawBlock, cipher, k);
      UserPartIs(rawBlock, cipher, k);
      UnscrambledFrom(rawBlock, cipher, verify, block, k + 1);
      var r := DescrambledFrom(rawBlock, cipher, verify, block, k);
      if r.Data? {
        var mine := UserPart(PlainAt(rawBlock, cipher, k));
        var rest := DescrambledFrom(rawBlock, cipher, verify, block, k + 1);
        assert r.bytes == mine + rest.bytes;
        forall x | 0 <= x < |r.bytes|
          ensures r.bytes[x] == PlainByte(rawBlock, cipher, k + x / 2048, 6 + x % 2048)
        {
          if x >= 2048 {
            assert r.bytes[x] == rest.bytes[x - 2048];
            assert (x - 2048) / 2048 == x / 2048 - 1 && (x - 2048) % 2048 == x % 2048;
          }
        }
      }
    }
  }

  /** Of a block and a cipher there is just one such result, and it is the one given. */
  lemma UnscrambledExactly(rawBlock: seq<Byte>, cipher: UserData, verify: bool, block: nat, r: Descrambled)
    requires |rawBlock| >= RAW_BLOCK_SIZE
    ensures Unscrambled(rawBlock, cipher, verify, block, r)
       <==> r == DescrambledFrom(rawBlock, cipher, verify, block, 0)
  {
    hide Checks, PlainByte, PlainAt;
    UnscrambledFrom(rawBlock, cipher, verify, block, 0);
    var mine := DescrambledFrom(rawBlock, cipher, verify, block, 0);
    hide DescrambledFrom;
    assert Unscrambled(rawBlock, cipher, verify, block, mine);
    if Unscrambled(rawBlock, cipher, verify, block, r) {
      OneResult(rawBlock, cipher, verify, block, r, mine);
    }
  }

  lemma OneResult(rawBlock: seq<Byte>, cipher: UserData, verify: bool, block: nat, r: Descrambled, s: Descrambled)
    requires |rawBlock| >= RAW_BLOCK_SIZE
    requires Unscrambled(rawBlock, cipher, verify, block, r) && Unscrambled(rawBlock, cipher, verify, block, s)
    ensures r == s
  {
    hide Checks, PlainByte, PlainAt;
    if r.Data? && s.Data? {
      assert r.bytes == s.bytes;
    } else if r.Failed? && s.Failed? {
      assert r.error.sector == s.error.sector;
    }
  }

  // ---------- making blocks ----------

  /** Sector number `sn`, holding `payload`, with its code. */
  function SectorBody(sn: nat, payload: UserData): (b: seq<Byte>)
    ensures |b| == EDC_LENGTH
  {
    [0, ByteOf(sn / 0x1_0000 % 0x100), ByteOf(sn / 0x100 % 0x100), ByteOf(sn % 0x100), 0, 0] + payload + seq(6, _ => 0)
  }

  function PlainSector(sn: nat, payload: UserData): Sector {
    SectorBody(sn, payload) + StoredCode(Remainder(0, SectorBody(sn, payload)))
  }

  lemma PlainSectorSound(sn: nat, payload: UserData)
    ensures Checks(PlainSector(sn, payload)) && UserPart(PlainSector(sn, payload)) == payload
  {
    hide Remainder, FromBe, StoredCode;
    var code := Remainder(0, SectorBody(sn, payload));
    var sector := PlainSector(sn, payload);
    StoredCodeLength(code);
    assert sector[..EDC_LENGTH] == SectorBody(sn, payload);
    assert StoredCode(code) == [sector[2060], sector[2061], sector[2062], sector[2063]];
    CodeReads(code);
  }

  /** A sector by its bytes: its number in the bytes 1 to 3, then the payload from byte 6 on, the rest zero. */
  lemma SectorBytes(sn: nat, payload: UserData)
    ensures var s := PlainSector(sn, payload);
            && s[0] == s[4] == s[5] == 0 && Number(s, 1, 3) == sn % 0x100_0000 && s[6..2054] == payload
            && (forall x | 2054 <= x < 2060 :: s[x] == 0) && Checks(s)
  {
    hide Remainder, StoredCode, Checks, SectorBody, Number, ByteOf;
    PlainSectorSound(sn, payload);
    BodyBytes(sn, payload);
    var s, body := PlainSector(sn, payload), SectorBody(sn, payload);
    StoredCodeLength(Remainder(0, body));
    assert s[..EDC_LENGTH] == body && s[6..2054] == body[6..2054];
    assert forall x | 0 <= x < EDC_LENGTH :: s[x] == body[x];
    NumberThree(s, 1);
    LowBytes(sn);
  }

  lemma BodyBytes(sn: nat, payload: UserData)
    ensures var b := SectorBody(sn, payload);
            && b[0] == b[4] == b[5] == 0 && b[1] as nat == sn / 0x1_0000 % 0x100 && b[2] as nat == sn / 0x100 % 0x100
            && b[3] as nat == sn % 0x100 && b[6..2054] == payload && forall x | 2054 <= x < 2060 :: b[x] == 0
  {}

  lemma NumberThree(b: seq<Byte>, o: nat)
    requires o + 3 <= |b|
    ensures Number(b, o, 3) == b[o] as nat * 0x1_0000 + b[o + 1] as nat * 0x100 + b[o + 2] as nat
  {
    Number16(b, o);
  }

  lemma LowBytes(sn: nat)
    ensures sn / 0x1_0000 % 0x100 * 0x1_0000 + sn / 0x100 % 0x100 * 0x100 + sn % 0x100 == sn % 0x100_0000
  {
    LowerBytes(sn);
    TwoBytes(sn / 0x100);
    assert sn / 0x100 / 0x100 == sn / 0x1_0000;
  }

  lemma LowerBytes(x: nat)
    ensures x % 0x100_0000 == x / 0x100 % 0x1_0000 * 0x100 + x % 0x100
  {
    var q, r := x / 0x100_0000, x % 0x100_0000;
    assert x / 0x100 == q * 0x1_0000 + r / 0x100 && r / 0x100 < 0x1_0000;
  }

  lemma TwoBytes(x: nat)
    ensures x % 0x1_0000 == x / 0x100 % 0x100 * 0x100 + x % 0x100
  {
    var q, r := x / 0x1_0000, x % 0x1_0000;
    assert x / 0x100 == q * 0x100 + r / 0x100 && r / 0x100 < 0x100;
  }

  lemma CodeReads(v: Word)
    ensures var c := StoredCode(v); FromBe(c[0], c[1], c[2], c[3]) == v
  {}

  /** Sector `k` of a block that starts at sector `lba`, as it is scrambled with `seed`. */
  ghost function MadeSector(seed: Seed16, payload: UserData, lba: nat, k: nat): Sector {
    Masked(PlainSector(lba + k + 0x30000, payload), Stream(seed))
  }

  /** A block made with `seed`: sixteen sectors in a row, scrambled alike. */
  ghost predicate MadeWith(rawBlock: seq<Byte>, seed: Seed16, payload: UserData, lba: nat) {
    && |rawBlock| == RAW_BLOCK_SIZE
    && forall k | 0 <= k < SECTORS_PER_BLOCK :: SectorOf(rawBlock, k) == MadeSector(seed, payload, lba, k)
  }

  function Repeated(payload: UserData, n: nat): seq<Byte>
    decreases n
  {
    if n == 0 then [] else payload + Repeated(payload, n - 1)
  }

  lemma MaskedBack(sector: Sector, seed: Seed16, cipher: UserData)
    requires cipher == Stream(seed)
    ensures Masked(Masked(sector, Stream(seed)), cipher) == sector
  {
    hide Stream;
    forall i | 0 <= i < RAW_SECTOR_SIZE
      ensures Masked(Masked(sector, cipher), cipher)[i] == sector[i]
    {
      if 12 <= i < EDC_LENGTH {
        XorByteTwice(sector[i], cipher[i - 12]);
      }
    }
  }

  lemma SameStream(s: Seed16, c: Seed16)
    requires SameSeed(s, c)
    ensures Stream(s) == Stream(c)
  {}

  lemma XorByteTwice(a: Byte, b: Byte)
    ensures XorByte(XorByte(a, b), b) == a
  {}

  /**
   Descrambling with the right seed gives the payload sixteen times; with a wrong one the first sector
   fails the check.
   */
  lemma {:induction false} DescramblesMade(rawBlock: seq<Byte>, s: Seed16, payload: UserData, lba: nat, c: Seed16,
        verify: bool, block: nat, k: nat)
    requires MadeWith(rawBlock, s, payload, lba) && k <= SECTORS_PER_BLOCK
    ensures SameSeed(s, c) ==>
              DescrambledFrom(rawBlock, Stream(c), verify, block, k) == Data(Repeated(payload, SECTORS_PER_BLOCK - k))
    ensures !SameSeed(s, c) && verify && k < SECTORS_PER_BLOCK ==>
              DescrambledFrom(rawBlock, Stream(c), verify, block, k) == Failed(EdcMismatch(block, k))
    decreases SECTORS_PER_BLOCK - k
  {
    hide Stream, Masked, Checks, PlainSector, UserPart, SameSeed, SectorOf;
    if k < SECTORS_PER_BLOCK {
      var plain := PlainSector(lba + k + 0x30000, payload);
      PlainSectorSound(lba + k + 0x30000, payload);
      AcceptsOnlySeed(plain, s, c);
      if SameSeed(s, c) {
        assert Stream(s) == Stream(c) by { SameStream(s, c); }
        MaskedBack(plain, s, Stream(c));
        DescramblesMade(rawBlock, s, payload, lba, c, verify, block, k + 1);
      }
    }
  }
}
