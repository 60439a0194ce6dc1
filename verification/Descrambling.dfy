/** The seed cache, the search, and the removal of the scrambling from whole blocks. */
module Descrambling {
  import opened Words
  import opened Edc
  import opened Lfsr
  import opened Descramble
  import opened Results

  const DEFAULT_MAX_SEED_SEARCH: nat := 0x7fff

  /** Adds `key` to the part of `data` that starts at `from`, in place. */
  method XorInPlace(data: array<Byte>, from: nat, key: seq<Byte>)
    requires from + |key| <= data.Length
    modifies data
    ensures data[..] == old(data[..from]) + XorBytes(old(data[from..from + |key|]), key) + old(data[from + |key|..])
  {
    hide XorByte;
    for i := 0 to |key|
      invariant forall k | 0 <= k < data.Length ::
                  data[k] == if from <= k < from + i then XorByte(old(data[k]), key[k - from]) else old(data[k])
    {
      data[from + i] := XorByte(data[from + i], key[i]);
    }
  }

  /** A copy of a raw sector with the cipher removed. */
  method Unmask(rawSector: Sector, cipher: UserData) returns (tmp: array<Byte>)
    ensures fresh(tmp) && tmp[..] == Masked(rawSector, cipher)
  {
    tmp := new Byte[RAW_SECTOR_SIZE](i requires 0 <= i < RAW_SECTOR_SIZE => rawSector[i]);
    assert tmp[..] == rawSector;
    assert tmp[12..12 + |cipher|] == rawSector[12..EDC_LENGTH];
    XorInPlace(tmp, 12, cipher);
  }

  method CodeMatches(sector: Sector) returns (ok: bool)
    ensures ok == Checks(sector)
  {
    var computed := EdcCalc(0, sector[..EDC_LENGTH]);
    var stored := FromBe(sector[EDC_LENGTH], sector[EDC_LENGTH + 1], sector[EDC_LENGTH + 2], sector[EDC_LENGTH + 3]);
    ok := computed == stored;
  }

  method TestSeed(rawSector: seq<Byte>, seed: Seed16) returns (ok: bool)
    requires |rawSector| >= RAW_SECTOR_SIZE
    ensures ok == Accepts(rawSector[..RAW_SECTOR_SIZE], seed)
  {
    hide Stream, Checks, Masked;
    var cipher := LfsrStream(seed);
    var tmp := Unmask(rawSector[..RAW_SECTOR_SIZE], cipher[..]);
    ok := CodeMatches(tmp[..]);
  }

  /** A block of sixteen soundly made sectors, scrambled with `seed`. */
  method MakeTestBlock(seed: Seed16, payload: UserData, lba: nat) returns (block: array<Byte>)
    ensures fresh(block) && MadeWith(block[..], seed, payload, lba)
  {
    hide Stream, Masked, PlainSector;
    var cipher := LfsrStream(seed);
    var key := cipher[..];
    block := new Byte[RAW_BLOCK_SIZE](_ => 0);
    for k := 0 to SECTORS_PER_BLOCK
      invariant forall j | 0 <= j < k :: SectorOf(block[..], j) == MadeSector(seed, payload, lba, j)
    {
      ghost var before := block[..];
      var plain := MakeSector(lba + k + 0x30000, payload);
      var tmp := Unmask(plain, key);
      var sector := tmp[..];
      var base := k * RAW_SECTOR_SIZE;
      forall i | 0 <= i < RAW_SECTOR_SIZE {
        block[base + i] := sector[i];
      }
      SectorsBefore(before, block[..], k);
      assert SectorOf(block[..], k) == sector == MadeSector(seed, payload, lba, k);
    }
  }

  lemma SectorsBefore(a: seq<Byte>, b: seq<Byte>, k: nat)
    requires |a| == |b| == RAW_BLOCK_SIZE && k < SECTORS_PER_BLOCK
    requires forall i | 0 <= i < k * RAW_SECTOR_SIZE :: a[i] == b[i]
    ensures forall j | 0 <= j < k :: SectorOf(a, j) == SectorOf(b, j)
  {
    forall j | 0 <= j < k
      ensures SectorOf(a, j) == SectorOf(b, j)
    {
      assert (j + 1) * RAW_SECTOR_SIZE <= k * RAW_SECTOR_SIZE;
    }
  }

  method MakeSector(sn: nat, payload: UserData) returns (tmp: Sector)
    ensures tmp == PlainSector(sn, payload)
  {
    hide StoredCode;
    var body := SectorBody(sn, payload);
    var edc := EdcCalc(0, body);
    StoredCodeLength(edc);
    tmp := body + StoredCode(edc);
  }

  class Descrambler {
    const seeds: array<Option<Seed16>>
    const cipher: array<Option<UserData>>
    var maxSeedSearch: nat

    /** A cached cipher always belongs to the cached seed. */
    ghost predicate Valid()
      reads this, seeds, cipher
    {
      && seeds.Length == SECTORS_PER_BLOCK && cipher.Length == SECTORS_PER_BLOCK
      && maxSeedSearch < 0x1_0000
      && forall p | 0 <= p < SECTORS_PER_BLOCK :: cipher[p].Some? ==>
           seeds[p].Some? && cipher[p].value == Stream(seeds[p].value)
    }

    constructor ()
      ensures Valid() && fresh(seeds) && fresh(cipher)
      ensures maxSeedSearch == 0x7fff
      ensures forall p | 0 <= p < SECTORS_PER_BLOCK :: seeds[p] == None
    {
      seeds := new Option<Seed16>[SECTORS_PER_BLOCK](_ => None);
      cipher := new Option<UserData>[SECTORS_PER_BLOCK](_ => None);
      maxSeedSearch := DEFAULT_MAX_SEED_SEARCH;
    }

    /** Sets the seed of one phase, and forgets the cipher that was cached for it. */
    method SetSeed(phase: nat, seed: Seed16)
      requires Valid()
      modifies seeds, cipher
      ensures Valid()
      ensures seeds[..] == old(seeds[..])[phase % SECTORS_PER_BLOCK := Some(Low15(seed))]
      ensures cipher[..] == old(cipher[..])[phase % SECTORS_PER_BLOCK := None]
    {
      hide Stream;
      var p := phase % SECTORS_PER_BLOCK;
      seeds[p] := Some(Low15(seed));
      cipher[p] := None;
    }

    method CipherFor(phase: nat) returns (c: UserData)
      requires Valid() && seeds[phase % SECTORS_PER_BLOCK].Some?
      modifies cipher
      ensures Valid() && c == Stream(seeds[phase % SECTORS_PER_BLOCK].value)
      ensures cipher[..] == old(cipher[..])[phase % SECTORS_PER_BLOCK := Some(c)]
    {
      hide Stream;
      var p := phase % SECTORS_PER_BLOCK;
      if cipher[p].Some? {
        return cipher[p].value;
      }
      var out := LfsrStream(seeds[p].value);
      c := out[..];
      cipher[p] := Some(c);
    }

    /** The least candidate below the limit that the first sector accepts; it becomes the seed of the phase. */
    method FindSeed(rawBlock: seq<Byte>, phase: nat) returns (found: Option<Seed16>)
      requires Valid() && |rawBlock| >= RAW_SECTOR_SIZE
      modifies seeds, cipher
      ensures Valid() && LeastAccepted(rawBlock[..RAW_SECTOR_SIZE], maxSeedSearch, found)
      ensures found.None? ==> seeds[..] == old(seeds[..]) && cipher[..] == old(cipher[..])
      ensures found.Some? ==>
                var p := phase % SECTORS_PER_BLOCK;
                && seeds[..] == old(seeds[..])[p := Some(Low15(found.value))]
                && cipher[..] == old(cipher[..])[p := None]
    {
      hide Accepts, Stream;
      for candidate := 0 to maxSeedSearch
        invariant Valid() && seeds[..] == old(seeds[..]) && cipher[..] == old(cipher[..])
        invariant forall c: Seed16 | c < candidate :: !Accepts(rawBlock[..RAW_SECTOR_SIZE], c)
      {
        var ok := TestSeed(rawBlock, candidate);
        if ok {
          SetSeed(phase, candidate);
          return Some(candidate);
        }
      }
      found := None;
    }

    /** The seed a block is descrambled with: the cached one, or what the search finds. */
    method SeedFor(rawBlock: seq<Byte>, phase: nat) returns (found: Option<Seed16>)
      requires Valid() && |rawBlock| >= RAW_SECTOR_SIZE && phase < SECTORS_PER_BLOCK
      modifies seeds, cipher
      ensures Valid() && seeds[..] == old(seeds[..])[phase := found]
      ensures forall p | 0 <= p < SECTORS_PER_BLOCK && p != phase :: cipher[p] == old(cipher[p])
      ensures old(seeds[phase]).Some? ==> found == old(seeds[phase])
      ensures old(seeds[phase]).None? ==>
                exists f :: LeastAccepted(rawBlock[..RAW_SECTOR_SIZE], maxSeedSearch, f)
                  && found == (if f.Some? then Some(Low15(f.value)) else None)
    {
      hide LeastAccepted, Stream;
      if seeds[phase].None? {
        var f := FindSeed(rawBlock, phase);
        assert forall p | 0 <= p < SECTORS_PER_BLOCK && p != phase :: cipher[..][p] == old(cipher[..])[p];
      }
      found := seeds[phase];
      assert seeds[..][phase] == found;
    }

    /** Removes the scrambling of a block of sixteen sectors; only what is cached for its phase changes. */
    method UnscrambleBlock(sectorNo: nat, rawBlock: seq<Byte>, verify: bool)
        returns (r: Descrambled, ghost used: Option<Seed16>)
      requires Valid()
      modifies seeds, cipher
      ensures Valid()
      ensures |rawBlock| < RAW_BLOCK_SIZE ==>
                r == Failed(RawTooShort) && seeds[..] == old(seeds[..]) && cipher[..] == old(cipher[..])
      ensures |rawBlock| >= RAW_BLOCK_SIZE ==>
                var block := sectorNo / SECTORS_PER_BLOCK;
                var phase := block % SECTORS_PER_BLOCK;
                && seeds[..] == old(seeds[..])[phase := used]
                && (forall p | 0 <= p < SECTORS_PER_BLOCK && p != phase :: cipher[p] == old(cipher[p]))
                && (old(seeds[phase]).Some? ==> used == old(seeds[phase]))
                && (old(seeds[phase]).None? ==>
                      exists f :: LeastAccepted(rawBlock[..RAW_SECTOR_SIZE], maxSeedSearch, f)
                        && used == (if f.Some? then Some(Low15(f.value)) else None))
                && (used.None? ==> r == Failed(SeedNotFound(block)))
                && (used.Some? ==> Unscrambled(rawBlock, Stream(used.value), verify, block, r))
    {
      hide LeastAccepted, Stream, DescrambledFrom, Unscrambled;
      used := None;
      if |rawBlock| < RAW_BLOCK_SIZE {
        return Failed(RawTooShort), None;
      }
      var blockNo := sectorNo / SECTORS_PER_BLOCK;
      var phase := blockNo % SECTORS_PER_BLOCK;
      var seed := SeedFor(rawBlock, phase);
      used := seed;
      if seed.None? {
        return Failed(SeedNotFound(blockNo)), used;
      }
      ghost var before := cipher[..];
      var key := CipherFor(phase);
      assert forall p | 0 <= p < SECTORS_PER_BLOCK && p != phase :: cipher[..][p] == before[p];
      r := UnscrambleSectors(rawBlock, key, verify, blockNo);
    }
  }

  method UnscrambleSectors(rawBlock: seq<Byte>, cipher: UserData, verify: bool, blockNo: nat) returns (r: Descrambled)
    requires |rawBlock| >= RAW_BLOCK_SIZE
    ensures r == DescrambledFrom(rawBlock, cipher, verify, blockNo, 0)
    ensures Unscrambled(rawBlock, cipher, verify, blockNo, r)
  {
    hide Checks, Masked, Unscrambled, DescrambledFrom;
    UnscrambledExactly(rawBlock, cipher, verify, blockNo, DescrambledFrom(rawBlock, cipher, verify, blockNo, 0));
    var out: seq<Byte> := [];
    for k := 0 to SECTORS_PER_BLOCK
      invariant DescrambledFrom(rawBlock, cipher, verify, blockNo, 0)
             == Prefixed(out, DescrambledFrom(rawBlock, cipher, verify, blockNo, k))
    {
      var base := k * RAW_SECTOR_SIZE;
      var tmp := Unmask(rawBlock[base..base + RAW_SECTOR_SIZE], cipher);
      assert rawBlock[base..base + RAW_SECTOR_SIZE] == SectorOf(rawBlock, k);
      DescrambledNext(rawBlock, cipher, verify, blockNo, k);
      if verify {
        var ok := CodeMatches(tmp[..]);
        if !ok {
          return Failed(EdcMismatch(blockNo, k));
        }
      }
      assert tmp[6..6 + USER_SECTOR_SIZE] == UserPart(tmp[..]);
      PrefixedTwice(out, tmp[6..6 + USER_SECTOR_SIZE], DescrambledFrom(rawBlock, cipher, verify, blockNo, k + 1));
      out := out + tmp[6..6 + USER_SECTOR_SIZE];
    }
    NothingDescrambled(rawBlock, cipher, verify, blockNo);
    assert out + [] == out;
    r := Data(out);
  }

  lemma DescrambledNext(rawBlock: seq<Byte>, cipher: UserData, verify: bool, block: nat, k: nat)
    requires |rawBlock| >= RAW_BLOCK_SIZE && k < SECTORS_PER_BLOCK
    ensures var plain := Masked(SectorOf(rawBlock, k), cipher);
            DescrambledFrom(rawBlock, cipher, verify, block, k)
              == if verify && !Checks(plain) then Failed(EdcMismatch(block, k))
                 else Prefixed(UserPart(plain), DescrambledFrom(rawBlock, cipher, verify, block, k + 1))
  {
    hide Checks, Masked;
  }

  lemma NothingDescrambled(rawBlock: seq<Byte>, cipher: UserData, verify: bool, block: nat)
    requires |rawBlock| >= RAW_BLOCK_SIZE
    ensures DescrambledFrom(rawBlock, cipher, verify, block, SECTORS_PER_BLOCK) == Data([])
  {}

  ghost function Prefixed(out: seq<Byte>, rest: Descrambled): Descrambled {
    if rest.Failed? then rest else Data(out + rest.bytes)
  }

  lemma PrefixedTwice(a: seq<Byte>, b: seq<Byte>, rest: Descrambled)
    ensures Prefixed(a, Prefixed(b, rest)) == Prefixed(a + b, rest)
  {
    if rest.Data? {
      assert a + (b + rest.bytes) == (a + b) + rest.bytes;
    }
  }

  /**
   Making a block and descrambling it gives back the payload sixteen times, if the seed is cached
   or lies below the search limit.
   */
  method MakeAndUnscramble(d: Descrambler, seed: Seed16, payload: UserData, lba: nat, verify: bool)
        returns (r: Descrambled)
    requires d.Valid()
    requires var phase := lba / SECTORS_PER_BLOCK % SECTORS_PER_BLOCK;
             if d.seeds[phase].Some? then SameSeed(seed, d.seeds[phase].value) else Low15(seed) < d.maxSeedSearch
    modifies d.seeds, d.cipher
    ensures r == Data(Repeated(payload, SECTORS_PER_BLOCK))
  {
    hide Stream, Accepts, Masked, Checks, DescrambledFrom, PlainSector, LeastAccepted, Unscrambled;
    var block := MakeTestBlock(seed, payload, lba);
    ghost var used;
    r, used := d.UnscrambleBlock(lba, block[..], verify);
    MadeIsSound(block[..], seed, payload, lba, d.maxSeedSearch);
    UnscrambledExactly(block[..], Stream(used.value), verify, lba / SECTORS_PER_BLOCK, r);
    DescramblesMade(block[..], seed, payload, lba, used.value, verify, lba / SECTORS_PER_BLOCK, 0);
  }

  lemma MadeIsSound(rawBlock: seq<Byte>, seed: Seed16, payload: UserData, lba: nat, limit: Seed16)
    requires MadeWith(rawBlock, seed, payload, lba)
    ensures forall f :: LeastAccepted(rawBlock[..RAW_SECTOR_SIZE], limit, f) ==>
              f == if Low15(seed) < limit then Some(Low15(seed)) else None
  {
    hide Stream, Accepts, Masked, Checks, PlainSector, LeastAccepted;
    var plain := PlainSector(lba + 0 + 0x30000, payload);
    PlainSectorSound(lba + 0 + 0x30000, payload);
    assert rawBlock[..RAW_SECTOR_SIZE] == SectorOf(rawBlock, 0) == MadeSector(seed, payload, lba, 0);
    forall f | LeastAccepted(rawBlock[..RAW_SECTOR_SIZE], limit, f)
      ensures f == if Low15(seed) < limit then Some(Low15(seed)) else None
    {
      SearchFindsSeed(plain, seed, limit, f);
    }
  }
}
