/**
 The round trip does not hold for every chunk: a window that starts in the last three bytes of a
 generator period can have its first byte recorded as padding that expands to another byte.
 */
module PhaseGap {
  import opened Words
  import opened Recurrence
  import opened PaddingStream
  import opened Generator
  import opened Detection
  import opened Unpacking
  import opened Packing
  import opened PackExactly
  import opened Soundness
  import opened BitStream
  import opened Results

  /** 521 bits, two of them set, placed from bit 191 * 521 = 99511 on. */
  function PlacedBits(): Period {
    seq(K, i requires 0 <= i < K => if i == 520 || i == 506 then 1 else 0)
  }

  ghost function GapBits(): Period {
    Back(PlacedBits(), 191)
  }

  ghost function GapSeed(): Seed {
    BitSeed(GapBits())
  }

  lemma PlacedAt(i: nat)
    requires i < K
    ensures At(GapBits(), 99511 + i) == PlacedBits()[i]
  {
    WindowBack(PlacedBits(), 191);
    assert Window(GapBits(), 191 * K)[i] == At(GapBits(), 191 * K + i);
  }

  /** Bit 99007, which lies before the bits that were placed. */
  lemma BitBefore()
    ensures At(GapBits(), 99007) == 1
  {
    hide GapBits, At, Xor;
    PlacedAt(17);
    PlacedAt(506);
    PlacedAt(474);
    AtStep(GapBits(), 99007);
    AtStep(GapBits(), 99496);
    SolveXor(At(GapBits(), 99496), At(GapBits(), 99985), 1, 0);
    SolveXor(At(GapBits(), 99007), At(GapBits(), 99496), 0, 1);
  }

  lemma SolveXor(a: Word, b: Word, sum: Word, value: Word)
    requires Xor(a, b) == sum && b == value
    ensures a == sum ^ value
  {}

  lemma LowBit(p: Period, m: nat)
    ensures Bits(p, m, 32) & 1 == At(p, m + 31) & 1
  {
    assert Bits(p, m, 32) == Append(Bits(p, m, 31), Bit(p, m + 31));
    AppendLow(Bits(p, m, 31), At(p, m + 31));
  }

  lemma AppendLow(w: Word, bit: Word)
    ensures Append(w, bit & 1) & 1 == bit & 1
  {}

  lemma TopLane(w: Word)
    ensures Lane(Swap32(Drop(w)), 3) == (w & 0xff) as Byte
  {}

  /** The last byte of a word of the stream. */
  lemma LastByte(p: Period, n: nat, word: nat)
    requires 4 * PERIOD_BYTES + n == 4 * word + 3
    ensures PadByte(BitSeed(p), n) == Lane(Swap32(Drop(Bits(p, 32 * word, 32))), 3)
  {
    hide Lane, Swap32, Drop, Bits, Origin, At;
    StreamBits(p, word);
    assert (4 * word + 3) / 4 == word && (4 * word + 3) % 4 == 3;
  }

  lemma OddWords()
    ensures Bits(GapBits(), 100000, 32) & 1 == 1 && Bits(GapBits(), 98976, 32) & 1 == 1
  {
    hide Bits, GapBits, At;
    PlacedAt(520);
    BitBefore();
    LowBit(GapBits(), 100000);
    LowBit(GapBits(), 98976);
  }

  /** Two bytes of one stream, a period apart, of which only the later is odd. */
  lemma GapBytes()
    ensures PadByte(GapSeed(), 2083) != PadByte(GapSeed(), 4167) && PadByte(GapSeed(), 4167) != 0
  {
    hide Bits, GapBits, PadByte, BitSeed, Lane, Swap32, Drop, Xor;
    var p := GapBits();
    OddWords();
    StepByPeriods(p, 3125);
    LastByte(p, 2083, 2604);
    LastByte(p, 4167, 3125);
    OddAndEven(Bits(p, 83328, 32), Bits(p, 100000, 32), Bits(p, 98976, 32));
  }

  lemma OddAndEven(early: Word, late: Word, mid: Word)
    requires late == Xor(early, mid) && late & 1 == 1 && mid & 1 == 1
    ensures Lane(Swap32(Drop(early)), 3) != Lane(Swap32(Drop(late)), 3) && Lane(Swap32(Drop(late)), 3) != 0
  {
    TopLane(early);
    TopLane(late);
  }

  /** 2083 zeroes, the byte one period on, then the padding that follows in its place. */
  ghost function GapChunk(): seq<Byte> {
    seq(2083, _ => 0) + [PadByte(GapSeed(), 4167)] + PadBytes(GapSeed(), 2084, 4 * K)
  }

  ghost function GapWindow(): seq<Byte> {
    [PadByte(GapSeed(), 4167)] + PadBytes(GapSeed(), 2084, 4 * K)
  }

  /** Detection sees only whole words, so the misplaced byte does not disturb it. */
  lemma GapDetected()
    ensures Detect(GapWindow(), 2083) == Found(Swapped(Canonical(GapSeed())))
  {
    hide GapSeed, Canonical, ByteAt, Origin, SeedOf, FromBe, Swapped;
    var seed := GapSeed();
    var window, padding := GapWindow(), PadBytes(seed, 2083, 4 * K + 1);
    DetectPadding(seed, 2083, 4 * K + 1);
    assert forall i | 1 <= i < |window| :: window[i] == padding[i];
    assert WordsFrom(window, 1) == WordsFrom(padding, 1);
    assert Skip(2083) == 1;
  }

  /** The misplaced byte is what detection compares it with. */
  lemma GapMatched()
    ensures MatchLength(GapWindow(), Canonical(GapSeed()), Phase(2083)) > 0
  {
    hide GapSeed, Canonical, ByteAt, Origin;
    CanonicalOrigin(GapSeed());
    PhaseExact(2083);
    assert GapWindow()[0] == PadByte(Canonical(GapSeed()), Phase(2083) + 0);
  }

  lemma FirstByte(data: seq<Byte>, q: nat)
    requires q < |data| && data[q] != 0 && forall i | 0 <= i < q :: data[i] == 0
    ensures AfterZeroes(data, 0) == q
  {}

  lemma GapJunk()
    ensures var junk := Scan(GapChunk(), 0, 0);
            |junk| == 1 && junk[0].start == 2083 < junk[0].end <= |GapChunk()|
                && junk[0].seed == Swapped(Canonical(GapSeed()))
  {
    hide GapSeed, Canonical, ByteAt, Origin, Detect, MatchFrom, Scan, Swapped, Phase;
    var data, n := GapChunk(), 4 * K + 1;
    GapBytes();
    FirstByte(data, 2083);
    assert WindowLength(data, 0, 2083) == n && |data| == 2083 + n;
    assert data[2083..2083 + n] == GapWindow();
    GapDetected();
    GapMatched();
    SwappedTwice(Canonical(GapSeed()));
    assert |JunkIn(data, 0, 2083, n)| == 1;
    ScanStep(data, 0, 0, 2083, n);
    ScanEnd(data, 0);
  }

  /** The recorded stretch starts out of phase with a byte that is not the stream's. */
  lemma GapMisfits()
    ensures !RecordsFit(GapChunk(), 0)
  {
    hide GapSeed, Canonical, PadByte, Swapped, Scan, GapChunk, Disjoint, Ahead;
    var data, junk := GapChunk(), Scan(GapChunk(), 0, 0);
    ScanAhead(data, 0);
    GapBytes();
    GapJunk();
    GapShape();
    var j := junk[0];
    assert Pick(junk, 0, |data|) == Some(j);
    assert j in Recorded(data, junk, 0);
    CanonicalByte(2083);
    SwappedTwice(Canonical(GapSeed()));
    assert !SameAt(data, 2083, Swapped(j.seed), 2083, 0);
    assert !StretchFits(data, 0, j);
  }

  lemma CanonicalByte(n: nat)
    ensures PadByte(Canonical(GapSeed()), n) == PadByte(GapSeed(), n)
  {
    hide GapSeed, Canonical, Origin;
    CanonicalOrigin(GapSeed());
  }

  lemma GapShape()
    ensures |GapChunk()| == 4168 && GapChunk()[2083] == PadByte(GapSeed(), 4167)
  {}

  /** This chunk is packed, but what it unpacks to is not the chunk. */
  lemma RoundTripFails()
    ensures var data, p := GapChunk(), PackedChunk(GapChunk(), 0);
            && p.packedSize != 0 && |p.mainData| == p.packedSize
            && Unpacked(p.mainData, |data|, 0, p.packedSize).Ok?
            && Unpacked(p.mainData, |data|, 0, p.packedSize).value != data
  {
    GapShape();
    hide GapChunk, RecordsFit, PackedChunk, Unpacked, Records, Expanded;
    GapMisfits();
    ShortReadable(GapChunk(), 0);
    RoundTripsExactly(GapChunk(), 0);
    if Records(GapChunk(), 0) == [] {
      NothingPacked(GapChunk(), 0);
    } else {
      UnpacksToExpanded(GapChunk(), 0);
    }
  }
}
