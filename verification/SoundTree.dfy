/**
 What a right hash tree is, said by the bytes of a group's headers, and that recomputing headers
 makes just that tree: then a partition with a right tree needs no exceptions.
 */
module SoundTree {
  import opened Words
  import opened Results
  import opened Sizes
  import opened Format
  import opened Regions
  import opened HashTree
  import opened Exceptions
  import opened Chunking
  import opened DiscBlocks
  import opened Groups

  type Headers = h: seq<Bytes> | |h| == BLOCKS_PER_GROUP && forall j | 0 <= j < |h| :: |h[j]| == BLOCK_HEADER_SIZE
    witness seq(BLOCKS_PER_GROUP, _ => Zeroes(BLOCK_HEADER_SIZE))

  /** Digest `k` of those that start at `base` in a header. */
  function DigestAt(header: Bytes, base: nat, k: nat): Bytes
    requires base + 20 * k + 20 <= |header|
  {
    header[base + 20 * k..base + 20 * k + 20]
  }

  /** A block's data; one past the end of the partition counts as zeroes. */
  function DataIn(blocks: Slots, j: nat): (data: Bytes)
    requires ValidSlots(blocks) && j < BLOCKS_PER_GROUP
    ensures |data| == BLOCK_DATA_SIZE
  {
    if blocks[j].Some? then blocks[j].value else seq(BLOCK_DATA_SIZE, _ => 0)
  }

  /** The first 620 bytes are the digests of the block's 31 kilobytes. */
  ghost predicate OwnRight(c: Codec, data: Bytes, header: Bytes)
    requires |data| == BLOCK_DATA_SIZE && |header| == BLOCK_HEADER_SIZE
  {
    forall s | 0 <= s < 31 :: DigestAt(header, 0, s) == c.sha1(data[0x400 * s..0x400 * s + 0x400])
  }

  /** From 0x280 on there are the digests of what the headers of the same eight blocks begin with. */
  ghost predicate EightRight(c: Codec, h: Headers, j: nat)
    requires j < BLOCKS_PER_GROUP
  {
    forall m | 0 <= m < 8 :: DigestAt(h[j], 0x280, m) == c.sha1(h[8 * (j / 8) + m][0..620])
  }

  /** From 0x340 on there are the digests of what the first headers of the eight eights have at 0x280. */
  ghost predicate AllRight(c: Codec, h: Headers, j: nat)
    requires j < BLOCKS_PER_GROUP
  {
    forall k | 0 <= k < 8 :: DigestAt(h[j], 0x340, k) == c.sha1(h[8 * k][0x280..0x320])
  }

  /** The rest is zero. */
  ghost predicate GapsZero(header: Bytes)
    requires |header| == BLOCK_HEADER_SIZE
  {
    forall x | 620 <= x < 0x280 || 0x320 <= x < 0x340 || 0x3e0 <= x < 0x400 :: header[x] == 0
  }

  ghost predicate RightAt(c: Codec, blocks: Slots, h: Headers, j: nat)
    requires ValidSlots(blocks) && j < BLOCKS_PER_GROUP
  {
    OwnRight(c, DataIn(blocks, j), h[j]) && EightRight(c, h, j) && AllRight(c, h, j) && GapsZero(h[j])
  }

  /** A right hash tree over a group of blocks. */
  ghost predicate Sound(c: Codec, blocks: Slots, h: Headers)
    requires ValidSlots(blocks)
  {
    forall j | 0 <= j < BLOCKS_PER_GROUP :: RightAt(c, blocks, h, j)
  }

  // ---------- what is recomputed is sound ----------

  lemma {:induction false} H0At(c: Codec, data: Bytes, n: nat, s: nat)
    requires |data| == BLOCK_DATA_SIZE && s < n <= 31
    ensures DigestAt(H0(c, data, n), 0, s) == c.sha1(data[0x400 * s..0x400 * s + 0x400])
  {
    if s < n - 1 {
      H0At(c, data, n - 1, s);
      assert DigestAt(H0(c, data, n), 0, s) == DigestAt(H0(c, data, n - 1), 0, s);
    }
  }

  lemma {:induction false} H1At(c: Codec, blocks: Slots, from: nat, n: nat, m: nat)
    requires ValidSlots(blocks) && m < n && from + n <= BLOCKS_PER_GROUP
    ensures DigestAt(H1Run(c, blocks, from, n), 0, m) == c.sha1(H0Array(c, blocks, from + m))
  {
    hide H0Array;
    if m < n - 1 {
      H1At(c, blocks, from, n - 1, m);
      assert DigestAt(H1Run(c, blocks, from, n), 0, m) == DigestAt(H1Run(c, blocks, from, n - 1), 0, m);
    }
  }

  lemma {:induction false} H2At(c: Codec, blocks: Slots, n: nat, k: nat)
    requires ValidSlots(blocks) && k < n <= 8
    ensures DigestAt(H2(c, blocks, n), 0, k) == c.sha1(H1Array(c, blocks, k))
  {
    hide H1Array;
    if k < n - 1 {
      H2At(c, blocks, n - 1, k);
      assert DigestAt(H2(c, blocks, n), 0, k) == DigestAt(H2(c, blocks, n - 1), 0, k);
    }
  }

  /** Where the three kinds of hashes stand in a header, and that there are zeroes between them. */
  lemma HeaderParts(c: Codec, blocks: Slots, j: nat)
    requires ValidSlots(blocks) && j < BLOCKS_PER_GROUP
    ensures var h := HashHeader(c, blocks, j);
            && h[0..620] == H0Array(c, blocks, j) && h[0x280..0x320] == H1Array(c, blocks, j / 8)
            && h[0x340..0x3e0] == H2(c, blocks, 8) && GapsZero(h)
  {
    hide H0Array, H1Array, H2;
  }

  lemma DigestWithin(header: Bytes, base: nat, size: nat, k: nat)
    requires base + size <= |header| && 20 * k + 20 <= size
    ensures DigestAt(header, base, k) == DigestAt(header[base..base + size], 0, k)
  {
    SubSlice(header, base, size, 20 * k, 20 * k + 20);
  }

  lemma HeaderIsRight(c: Codec, blocks: Slots, j: nat)
    requires ValidSlots(blocks) && j < BLOCKS_PER_GROUP
    ensures RightAt(c, blocks, HashHeaders(c, blocks), j)
  {
    hide HashHeader, H0Array, H1Array, H2, DigestAt, GapsZero, ValidSlots;
    var h, mine := HashHeaders(c, blocks), HashHeader(c, blocks, j);
    HeaderParts(c, blocks, j);
    forall s | 0 <= s < 31
      ensures DigestAt(mine, 0, s) == c.sha1(DataIn(blocks, j)[0x400 * s..0x400 * s + 0x400])
    {
      DigestWithin(mine, 0, 620, s);
      OwnDigest(c, blocks, j, s);
    }
    forall m | 0 <= m < 8
      ensures DigestAt(mine, 0x280, m) == c.sha1(h[8 * (j / 8) + m][0..620])
    {
      DigestWithin(mine, 0x280, 160, m);
      HeaderParts(c, blocks, 8 * (j / 8) + m);
      EightDigest(c, blocks, j / 8, m);
    }
    forall k | 0 <= k < 8
      ensures DigestAt(mine, 0x340, k) == c.sha1(h[8 * k][0x280..0x320])
    {
      DigestWithin(mine, 0x340, 160, k);
      HeaderParts(c, blocks, 8 * k);
      H2At(c, blocks, 8, k);
    }
  }

  lemma OwnDigest(c: Codec, blocks: Slots, j: nat, s: nat)
    requires ValidSlots(blocks) && j < BLOCKS_PER_GROUP && s < 31
    ensures DigestAt(H0Array(c, blocks, j), 0, s) == c.sha1(DataIn(blocks, j)[0x400 * s..0x400 * s + 0x400])
  {
    hide DigestAt, H0;
    H0At(c, DataIn(blocks, j), 31, s);
  }

  lemma EightDigest(c: Codec, blocks: Slots, k: nat, m: nat)
    requires ValidSlots(blocks) && k < 8 && m < 8
    ensures DigestAt(H1Array(c, blocks, k), 0, m) == c.sha1(H0Array(c, blocks, 8 * k + m))
  {
    hide DigestAt, H0Array, H1Run;
    H1At(c, blocks, 8 * k, 8, m);
  }

  /** The headers that are recomputed make a right tree. */
  lemma RecomputedIsSound(c: Codec, blocks: Slots)
    requires ValidSlots(blocks)
    ensures Sound(c, blocks, HashHeaders(c, blocks))
  {
    hide RightAt, HashHeaders, ValidSlots;
    forall j | 0 <= j < BLOCKS_PER_GROUP
      ensures RightAt(c, blocks, HashHeaders(c, blocks), j)
    {
      HeaderIsRight(c, blocks, j);
    }
  }

  // ---------- and the only one that is ----------

  lemma SameDigests(a: Bytes, b: Bytes, base: nat, n: nat)
    requires base + 20 * n <= |a| == |b|
    requires forall k | 0 <= k < n :: DigestAt(a, base, k) == DigestAt(b, base, k)
    ensures a[base..base + 20 * n] == b[base..base + 20 * n]
  {
    var mine, other := a[base..base + 20 * n], b[base..base + 20 * n];
    forall x | 0 <= x < 20 * n
      ensures mine[x] == other[x]
    {
      var k := x / 20;
      assert DigestAt(a, base, k)[x % 20] == a[base + 20 * k + x % 20];
      assert DigestAt(b, base, k)[x % 20] == b[base + 20 * k + x % 20];
      assert x == 20 * k + x % 20;
    }
  }

  lemma OwnSame(c: Codec, blocks: Slots, g: Headers, h: Headers, j: nat)
    requires ValidSlots(blocks) && Sound(c, blocks, g) && Sound(c, blocks, h) && j < BLOCKS_PER_GROUP
    ensures g[j][0..620] == h[j][0..620]
  {
    hide DigestAt, EightRight, AllRight, GapsZero;
    assert RightAt(c, blocks, g, j) && RightAt(c, blocks, h, j);
    SameDigests(g[j], h[j], 0, 31);
  }

  lemma EightSame(c: Codec, blocks: Slots, g: Headers, h: Headers, j: nat)
    requires ValidSlots(blocks) && Sound(c, blocks, g) && Sound(c, blocks, h) && j < BLOCKS_PER_GROUP
    ensures g[j][0x280..0x320] == h[j][0x280..0x320]
  {
    hide DigestAt, OwnRight, AllRight, GapsZero;
    assert RightAt(c, blocks, g, j) && RightAt(c, blocks, h, j);
    forall m | 0 <= m < 8
      ensures DigestAt(g[j], 0x280, m) == DigestAt(h[j], 0x280, m)
    {
      OwnSame(c, blocks, g, h, 8 * (j / 8) + m);
    }
    SameDigests(g[j], h[j], 0x280, 8);
  }

  lemma AllSame(c: Codec, blocks: Slots, g: Headers, h: Headers, j: nat)
    requires ValidSlots(blocks) && Sound(c, blocks, g) && Sound(c, blocks, h) && j < BLOCKS_PER_GROUP
    ensures g[j][0x340..0x3e0] == h[j][0x340..0x3e0]
  {
    hide DigestAt, OwnRight, EightRight, GapsZero;
    assert RightAt(c, blocks, g, j) && RightAt(c, blocks, h, j);
    forall k | 0 <= k < 8
      ensures DigestAt(g[j], 0x340, k) == DigestAt(h[j], 0x340, k)
    {
      EightSame(c, blocks, g, h, 8 * k);
    }
    SameDigests(g[j], h[j], 0x340, 8);
  }

  lemma SameHeader(a: Bytes, b: Bytes)
    requires |a| == |b| == BLOCK_HEADER_SIZE && GapsZero(a) && GapsZero(b)
    requires a[0..620] == b[0..620] && a[0x280..0x320] == b[0x280..0x320] && a[0x340..0x3e0] == b[0x340..0x3e0]
    ensures a == b
  {
    forall x | 0 <= x < BLOCK_HEADER_SIZE
      ensures a[x] == b[x]
    {
      if x < 620 {
        assert a[x] == a[0..620][x] && b[x] == b[0..620][x];
      } else if 0x280 <= x < 0x320 {
        assert a[x] == a[0x280..0x320][x - 0x280] && b[x] == b[0x280..0x320][x - 0x280];
      } else if 0x340 <= x < 0x3e0 {
        assert a[x] == a[0x340..0x3e0][x - 0x340] && b[x] == b[0x340..0x3e0][x - 0x340];
      }
    }
  }

  /** A group's blocks have just one right tree: the recomputed one. */
  lemma SoundExactly(c: Codec, blocks: Slots, h: Headers)
    requires ValidSlots(blocks)
    ensures Sound(c, blocks, h) <==> h == HashHeaders(c, blocks)
  {
    RecomputedIsSound(c, blocks);
    var g: Headers := HashHeaders(c, blocks);
    hide HashHeaders, ValidSlots;
    if Sound(c, blocks, h) {
      forall j | 0 <= j < BLOCKS_PER_GROUP
        ensures h[j] == g[j]
      {
        OwnSame(c, blocks, g, h, j);
        EightSame(c, blocks, g, h, j);
        AllSame(c, blocks, g, h, j);
        assert RightAt(c, blocks, g, j) && RightAt(c, blocks, h, j);
        hide Sound, OwnRight, EightRight, AllRight;
        SameHeader(h[j], g[j]);
      }
    }
  }

  // ---------- a window of the disc ----------

  /** Block `j` of those from number `at` on; nothing if it is not on the disc. */
  function BlockData(c: Codec, key: Bytes, iso: Bytes, at: nat, j: nat): (data: Bytes) {
    if (at + j) * 0x8000 + 0x8000 <= |iso| then DataAt(c, key, iso, (at + j) * 0x8000) else []
  }

  function BlockHeader(c: Codec, key: Bytes, iso: Bytes, at: nat, j: nat): (header: Bytes) {
    if (at + j) * 0x8000 + 0x8000 <= |iso| then HeaderAt(c, key, iso, (at + j) * 0x8000) else []
  }

  /** The group that the `n` blocks from number `at` on make. */
  ghost predicate GroupAt(c: Codec, key: Bytes, iso: Bytes, at: nat, n: nat, blocks: Slots)
  {
    && ValidSlots(blocks)
    && forall j | 0 <= j < BLOCKS_PER_GROUP ::
         blocks[j] == if j < n then Some(BlockData(c, key, iso, at, j)) else None
  }

  /** The headers of the `n` blocks from number `at` on are those of a right tree over them. */
  ghost predicate TreeAt(c: Codec, key: Bytes, iso: Bytes, at: nat, n: nat)
    requires n <= BLOCKS_PER_GROUP
  {
    exists blocks: Slots, h: Headers :: GroupAt(c, key, iso, at, n, blocks) && Sound(c, blocks, h)
      && forall j | 0 <= j < n :: h[j] == BlockHeader(c, key, iso, at, j)
  }

  /** The decrypted data of a window as the group that is hashed. */
  ghost function WindowBlocks(c: Codec, key: Bytes, d: DataEntry, iso: Bytes, from: nat): (blocks: Slots)
    requires ValidPart(key, d, iso) && from <= d.ns
    ensures ValidSlots(blocks)
  {
    Slotted(Plains(c, key, d, iso, from))
  }

  lemma BlocksOfWindow(c: Codec, key: Bytes, d: DataEntry, iso: Bytes, from: nat)
    requires ValidPart(key, d, iso) && from <= d.ns
    ensures WindowSize(d, from) <= BLOCKS_PER_GROUP
    ensures GroupAt(c, key, iso, d.fs + from, WindowSize(d, from), WindowBlocks(c, key, d, iso, from))
  {
    var blocks := WindowBlocks(c, key, d, iso, from);
    forall j | 0 <= j < BLOCKS_PER_GROUP
      ensures blocks[j] == if j < WindowSize(d, from) then Some(BlockData(c, key, iso, d.fs + from, j)) else None
    {
      if j < WindowSize(d, from) {
        BlockOfWindow(c, key, d, iso, from, j);
      }
    }
  }

  lemma BlockOfWindow(c: Codec, key: Bytes, d: DataEntry, iso: Bytes, from: nat, j: nat)
    requires ValidPart(key, d, iso) && from + j < d.ns
    ensures BlockData(c, key, iso, d.fs + from, j) == PlainData(c, key, DiscBlock(d, iso, from + j))
    ensures BlockHeader(c, key, iso, d.fs + from, j) == PlainHeader(c, key, DiscBlock(d, iso, from + j))
  {
    BlockIs(c, key, d, iso, from + j);
    hide DataAt, HeaderAt, PlainData, PlainHeader, DiscBlock;
    assert d.fs + from + j == d.fs + (from + j);
  }

  lemma GroupIs(c: Codec, key: Bytes, iso: Bytes, at: nat, n: nat, a: Slots, b: Slots)
    requires GroupAt(c, key, iso, at, n, a) && GroupAt(c, key, iso, at, n, b)
    ensures a == b
  {
    hide BlockData;
  }

  /** No difference is an exception, and any is one. */
  lemma NothingToPatch(orig: Bytes, recomputed: Bytes)
    requires |orig| == |recomputed| == BLOCK_HEADER_SIZE
    ensures HeaderPatches(orig, recomputed) == [] <==> orig == recomputed
  {
    PatchesRestore(orig, recomputed);
    if orig == recomputed {
      RangesFit();
      SameDiffersNowhere(orig, SlotsOf(RANGES));
    }
  }

  lemma {:induction false} SameDiffersNowhere(header: Bytes, slots: seq<nat>)
    requires |header| == BLOCK_HEADER_SIZE && SlotsFit(slots)
    ensures Differences(header, header, slots) == []
  {
    if slots != [] {
      SameDiffersNowhere(header, slots[1..]);
    }
  }

  predicate NoPatchesIn(patches: seq<seq<Patch>>) {
    forall j | 0 <= j < |patches| :: patches[j] == []
  }

  ghost predicate HeadersAre(c: Codec, key: Bytes, iso: Bytes, at: nat, n: nat, h: Headers)
    requires n <= BLOCKS_PER_GROUP
  {
    forall j | 0 <= j < n :: BlockHeader(c, key, iso, at, j) == h[j]
  }

  /** Blocks have a right tree exactly when their headers are the recomputed ones. */
  lemma TreeWhen(c: Codec, key: Bytes, iso: Bytes, at: nat, n: nat, blocks: Slots)
    requires n <= BLOCKS_PER_GROUP && GroupAt(c, key, iso, at, n, blocks)
    ensures TreeAt(c, key, iso, at, n) <==> HeadersAre(c, key, iso, at, n, HashHeaders(c, blocks))
  {
    var h: Headers := HashHeaders(c, blocks);
    RecomputedIsSound(c, blocks);
    hide HashHeaders, BlockHeader, Sound, GroupAt;
    if TreeAt(c, key, iso, at, n) {
      var b: Slots, g: Headers :| GroupAt(c, key, iso, at, n, b) && Sound(c, b, g)
        && forall j | 0 <= j < n :: g[j] == BlockHeader(c, key, iso, at, j);
      GroupIs(c, key, iso, at, n, b, blocks);
      SoundExactly(c, blocks, g);
    }
  }

  lemma PatchlessAt(c: Codec, key: Bytes, d: DataEntry, iso: Bytes, from: nat, j: nat)
    requires ValidPart(key, d, iso) && from <= d.ns && j < WindowSize(d, from)
    ensures WindowPatches(c, key, d, iso, from)[j] == []
       <==> BlockHeader(c, key, iso, d.fs + from, j) == HashHeaders(c, Slotted(Plains(c, key, d, iso, from)))[j]
  {
    hide ValidPart, Plains, Slotted, HashHeader, BlockHeader, BlockPatches, PatchesUpTo;
    PatchesAt(c, key, d, iso, from, WindowSize(d, from), j);
    BlockPatchless(c, key, d, iso, from, j);
  }

  lemma BlockPatchless(c: Codec, key: Bytes, d: DataEntry, iso: Bytes, from: nat, j: nat)
    requires ValidPart(key, d, iso) && from <= d.ns && j < WindowSize(d, from)
    ensures BlockPatches(c, key, d, iso, from, j) == []
       <==> BlockHeader(c, key, iso, d.fs + from, j) == HashHeader(c, Slotted(Plains(c, key, d, iso, from)), j)
  {
    hide Plains, Slotted, HashHeader, BlockHeader, DiscBlock, PlainHeader, PlainData, HeaderPatches;
    BlockOfWindow(c, key, d, iso, from, j);
    NothingToPatch(PlainHeader(c, key, DiscBlock(d, iso, from + j)),
      HashHeader(c, Slotted(Plains(c, key, d, iso, from)), j));
  }

  /** The headers that are recomputed for a window. */
  ghost function Recomputed(c: Codec, key: Bytes, d: DataEntry, iso: Bytes, from: nat): Headers
    requires ValidPart(key, d, iso) && from <= d.ns
  {
    HashHeaders(c, WindowBlocks(c, key, d, iso, from))
  }

  lemma PatchlessWhen(c: Codec, key: Bytes, d: DataEntry, iso: Bytes, from: nat)
    requires ValidPart(key, d, iso) && from <= d.ns && WindowSize(d, from) <= BLOCKS_PER_GROUP
    ensures NoPatchesIn(WindowPatches(c, key, d, iso, from))
       <==> HeadersAre(c, key, iso, d.fs + from, WindowSize(d, from), Recomputed(c, key, d, iso, from))
  {
    hide ValidPart, Plains, Slotted, HashHeaders, BlockHeader, WindowPatches, WindowSize;
    forall j: nat | j < WindowSize(d, from)
      ensures WindowPatches(c, key, d, iso, from)[j] == []
         <==> BlockHeader(c, key, iso, d.fs + from, j) == Recomputed(c, key, d, iso, from)[j]
    {
      PatchlessAt(c, key, d, iso, from, j);
    }
  }

  lemma TreeOfWindow(c: Codec, key: Bytes, d: DataEntry, iso: Bytes, from: nat)
    requires ValidPart(key, d, iso) && from <= d.ns
    ensures WindowSize(d, from) <= BLOCKS_PER_GROUP
    ensures TreeAt(c, key, iso, d.fs + from, WindowSize(d, from))
       <==> HeadersAre(c, key, iso, d.fs + from, WindowSize(d, from), Recomputed(c, key, d, iso, from))
  {
    hide ValidPart, HashHeaders, HeadersAre, TreeAt, GroupAt, WindowSize, WindowBlocks, ValidSlots;
    BlocksOfWindow(c, key, d, iso, from);
    TreeWhen(c, key, iso, d.fs + from, WindowSize(d, from), WindowBlocks(c, key, d, iso, from));
  }

  /** A window of a partition has no exceptions exactly when its headers make a right tree. */
  lemma SoundNeedsNoPatches(c: Codec, key: Bytes, d: DataEntry, iso: Bytes, from: nat)
    requires ValidPart(key, d, iso) && from <= d.ns
    ensures WindowSize(d, from) <= BLOCKS_PER_GROUP
    ensures TreeAt(c, key, iso, d.fs + from, WindowSize(d, from)) <==> NoPatchesIn(WindowPatches(c, key, d, iso, from))
  {
    hide ValidPart, Recomputed, HeadersAre, TreeAt, WindowPatches, WindowSize, NoPatchesIn;
    TreeOfWindow(c, key, d, iso, from);
    PatchlessWhen(c, key, d, iso, from);
  }

  // ---------- a decoded group ----------

  lemma {:induction false} FinalizedAt(c: Codec, key: Bytes, blocks: Slots, ex: Filing, n: nat, j: nat, k: nat)
    requires ValidSlots(blocks) && ValidFiling(ex) && j <= k < n <= BLOCKS_PER_GROUP
    requires forall i | 0 <= i < n :: blocks[i].Some?
    ensures var r := Finalized(c, key, blocks, ex, n, true, j);
            && r.Ok?
            && r.value[(k - j) * BLOCK_TOTAL_SIZE..(k - j + 1) * BLOCK_TOTAL_SIZE]
                == Encrypted(c, key, PatchedHeader(c, blocks, ex, k), blocks[k].value)
    decreases n - j
  {
    hide Encrypted, PatchedHeader, ValidFiling;
    FilledFinalizes(c, key, blocks, ex, n, true, j);
    FilledFinalizes(c, key, blocks, ex, n, true, j + 1);
    var whole := Finalized(c, key, blocks, ex, n, true, j).value;
    var rest := Finalized(c, key, blocks, ex, n, true, j + 1).value;
    var first := Encrypted(c, key, PatchedHeader(c, blocks, ex, j), blocks[j].value);
    assert whole == first + rest;
    if j < k {
      FinalizedAt(c, key, blocks, ex, n, j + 1, k);
      var lo, hi := (k - j - 1) * BLOCK_TOTAL_SIZE, (k - j) * BLOCK_TOTAL_SIZE;
      BehindFirst(first, rest, lo, hi);
      assert (k - j) * BLOCK_TOTAL_SIZE == lo + BLOCK_TOTAL_SIZE;
    }
  }

  lemma BehindFirst(first: Bytes, rest: Bytes, lo: nat, hi: nat)
    requires lo <= hi <= |rest|
    ensures (first + rest)[|first| + lo..|first| + hi] == rest[lo..hi]
  {}

  lemma DecryptsAgain(c: Codec, key: Bytes, iso: Bytes, j: nat, header: Bytes, data: Bytes)
    requires |header| == BLOCK_HEADER_SIZE && |data| == BLOCK_DATA_SIZE && (j + 1) * 0x8000 <= |iso|
    requires iso[j * BLOCK_TOTAL_SIZE..(j + 1) * BLOCK_TOTAL_SIZE] == Encrypted(c, key, header, data)
    ensures BlockHeader(c, key, iso, 0, j) == header && BlockData(c, key, iso, 0, j) == data
  {
    var o := j * 0x8000;
    var cipher := c.encrypt(key, ZeroIv(), header);
    assert iso[o..o + 0x8000] == cipher + c.encrypt(key, DataIv(cipher), data);
    SubSlice(iso, o, 0x8000, 0, 0x400);
    SubSlice(iso, o, 0x8000, 0x3d0, 0x3e0);
    SubSlice(iso, o, 0x8000, 0x400, 0x8000);
    assert iso[o..o + 0x400] == cipher;
    assert iso[o + 0x3d0..o + 0x3e0] == DataIv(cipher);
    assert iso[o + 0x400..o + 0x8000] == c.encrypt(key, DataIv(cipher), data);
    assert seq(16, _ => 0 as Byte) == ZeroIv();
  }

  /** A group that is put out without exceptions has a right tree on the disc. */
  lemma DecodedTree(c: Codec, key: Bytes, blocks: Slots, ex: Filing, n: nat)
    requires ValidSlots(blocks) && ValidFiling(ex) && n <= BLOCKS_PER_GROUP
    requires forall j | 0 <= j < BLOCKS_PER_GROUP :: blocks[j].Some? <==> j < n
    requires NoPatchesIn(ex[..n])
    ensures var r := Finalized(c, key, blocks, ex, n, true, 0);
            r.Ok? && |r.value| == n * 0x8000 && TreeAt(c, key, r.value, 0, n)
  {
    hide Finalized, HashHeader, Encrypted, BlockHeader, BlockData;
    FilledFinalizes(c, key, blocks, ex, n, true, 0);
    var out, h: Headers := Finalized(c, key, blocks, ex, n, true, 0).value, HashHeaders(c, blocks);
    forall j | 0 <= j < n
      ensures BlockHeader(c, key, out, 0, j) == h[j] && BlockData(c, key, out, 0, j) == blocks[j].value
    {
      FinalizedAt(c, key, blocks, ex, n, 0, j);
      assert ex[..n][j] == [];
      assert PatchedHeader(c, blocks, ex, j) == h[j];
      DecryptsAgain(c, key, out, j, h[j], blocks[j].value);
    }
    RecomputedIsSound(c, blocks);
    hide Sound, HashHeaders;
    assert GroupAt(c, key, out, 0, n, blocks);
  }
}
