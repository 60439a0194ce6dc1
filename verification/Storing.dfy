/** What the encoder stores for each chunk of a region, said by the bytes of the disc. */
module Storing {
  import opened Sizes
  import opened Format
  import opened Packing
  import opened HashTree
  import opened Exceptions
  import opened Container
  import opened Chunking
  import opened PartRoundTrip
  import opened DiscBlocks
  import opened SoundTree
  import opened Differing
  import opened EndToEnd

  /**
   Of what there is to store, `input` is what would be compressed and `plain` what would be stored otherwise:
   it is compressed exactly if that is shorter, and the flag says so.
   */
  ghost predicate Shorter(c: Codec, chunk: Chunk, input: Bytes, plain: Bytes) {
    && chunk.size == |chunk.bytes| && (chunk.compressed <==> |c.compress(input)| < |plain|)
    && chunk.bytes == if chunk.compressed then c.compress(input) else plain
  }

  // ---------- raw regions ----------

  /** Chunk `i` of a raw region, which counts from the start of the block the region starts in. */
  function RawFrom(e: RawEntry, i: nat): nat {
    e.offset / 0x8000 * 0x8000 + i * 0x2_0000
  }

  /** What is stored for it: the bytes of the disc, packed for the place they have there, if need be compressed. */
  ghost predicate RawSaid(c: Codec, iso: Bytes, e: RawEntry, i: nat, chunk: Chunk) {
    var from, to := RawFrom(e, i), Min(e.offset + e.size, RawFrom(e, i) + 0x2_0000);
    && from <= to <= |iso|
    && var p := PackedChunk(iso[from..to], from);
       chunk.packedSize == p.packedSize && Shorter(c, chunk, p.mainData, p.mainData)
  }

  lemma RawStored(c: Codec, iso: Bytes, e: RawEntry, i: nat)
    requires ValidRaw(e, iso) && i < e.groups
    ensures RawSaid(c, iso, e, i, RegionChunks(c, iso, Raw(e))[i])
  {
    hide PackedChunk;
    RawBounds(e, iso, i);
    assert e.offset == e.offset / 0x8000 * 0x8000 + e.offset % 0x8000;
    assert RawStart(e, i) == RawFrom(e, i);
    hide ValidRaw, AlignDown;
  }

  // ---------- partition regions ----------

  /** How many blocks chunk `i` of a stretch has. */
  function BlocksIn(d: DataEntry, i: nat): nat {
    if 4 * i + 4 <= d.ns then 4 else if 4 * i <= d.ns then d.ns - 4 * i else 0
  }

  /** The chunk's data: that of its blocks, decrypted and without their headers. */
  ghost predicate DataSaid(c: Codec, iso: Bytes, key: Bytes, d: DataEntry, i: nat, data: Bytes) {
    && |data| == BlocksIn(d, i) * 0x7c00
    && forall b | 0 <= b < BlocksIn(d, i) ::
         data[b * 0x7c00..(b + 1) * 0x7c00] == BlockData(c, key, iso, d.fs + 4 * i, b)
  }

  /** The first block of the window of 64 that chunk `i` is in. */
  function WindowOf(i: nat): nat {
    4 * i / 64 * 64
  }

  /** The headers that a right tree over the chunk's window of 64 blocks has. */
  ghost predicate TreeSaid(c: Codec, iso: Bytes, key: Bytes, d: DataEntry, i: nat, h: Headers) {
    var first := WindowOf(i);
    && first <= d.ns
    && exists blocks: Slots ::
         GroupAt(c, key, iso, d.fs + first, Min(64, d.ns - first), blocks) && SoundTree.Sound(c, blocks, h)
  }

  /** An exception of block `b` of the chunk: where its header is compared and differs from the right one. */
  ghost predicate ExceptionSaid(c: Codec, iso: Bytes, key: Bytes, d: DataEntry, i: nat, h: Headers, e: Exception) {
    var b := e.offset / 0x400;
    && b < BlocksIn(d, i) && |BlockHeader(c, key, iso, d.fs + 4 * i, b)| == 0x400
    && DiffersAt(BlockHeader(c, key, iso, d.fs + 4 * i, b), h[(4 * i + b) % 64], Patch(e.offset % 0x400, e.hash))
  }

  /** The exceptions are just those of the chunk's blocks, in order. */
  ghost predicate ExceptionsSaid(c: Codec, iso: Bytes, key: Bytes, d: DataEntry, i: nat, h: Headers,
      es: seq<Exception>)
  {
    OffsetsRise(es) && forall e :: e in es <==> ExceptionSaid(c, iso, key, d, i, h, e)
  }

  /**
   What is stored for chunk `i`: the list of exceptions, then the data, packed for the place it has among the
   data of its stretch. If the two together are not shorter compressed, the list is filled up to four bytes.
   */
  ghost predicate PartSaid(c: Codec, iso: Bytes, key: Bytes, d: DataEntry, i: nat, chunk: Chunk,
      data: Bytes, h: Headers, es: seq<Exception>, list: Bytes, pad: Bytes)
  {
    && DataSaid(c, iso, key, d, i, data) && TreeSaid(c, iso, key, d, i, h)
    && ExceptionsSaid(c, iso, key, d, i, h, es) && ListSaid(list, es)
    && |pad| < 4 && (|list| + |pad|) % 4 == 0 && (forall x | 0 <= x < |pad| :: pad[x] == 0)
    && var p := PackedChunk(data, i * 4 * 0x7c00);
       chunk.packedSize == p.packedSize && Shorter(c, chunk, list + p.mainData, list + pad + p.mainData)
  }

  /** That chunk `i` starts `first` blocks into the window at block `from`. */
  predicate Placed(key: Bytes, d: DataEntry, iso: Bytes, i: nat, from: nat, first: nat) {
    && ValidPart(key, d, iso) && i < d.ng && from <= d.ns && first <= WindowSize(d, from) <= 64
    && from == WindowOf(i) && from + first == 4 * i && first + BlocksIn(d, i) <= WindowSize(d, from)
    && ChunkBlocks(d, from, first) == BlocksIn(d, i) && WindowSize(d, from) == Min(64, d.ns - from)
  }

  /** A chunk's place in its window. */
  lemma ChunkPlace(key: Bytes, d: DataEntry, iso: Bytes, i: nat)
    requires ValidPart(key, d, iso) && i < d.ng
    ensures Placed(key, d, iso, i, From(i), First(i))
  {
    ChunkBounds(key, d, iso, i);
    FromIs(i);
    hide From, First, WindowOf;
  }

  lemma FromIs(i: nat)
    ensures From(i) == WindowOf(i)
  {
    var m, x := i / 16, i % 16;
    InSixteen(m, x);
    hide From;
    assert 4 * i == 64 * m + 4 * x;
  }

  lemma BlockStored(c: Codec, iso: Bytes, key: Bytes, d: DataEntry, i: nat, from: nat, first: nat, b: nat)
    requires Placed(key, d, iso, i, from, first) && b < BlocksIn(d, i)
    ensures BlockOf(Stripped(c, key, d, iso, from, first), b) == BlockData(c, key, iso, d.fs + 4 * i, b)
  {
    hide Stripped, Plains, BlockData, PlainData, DiscBlock, WindowOf;
    StrippedBlock(c, key, d, iso, from, first, b);
    PlainOf(c, key, d, iso, from, first + b);
    BlockOfWindow(c, key, d, iso, 4 * i, b);
  }

  lemma DataStored(c: Codec, iso: Bytes, key: Bytes, d: DataEntry, i: nat, from: nat, first: nat)
    requires Placed(key, d, iso, i, from, first)
    ensures DataSaid(c, iso, key, d, i, Stripped(c, key, d, iso, from, first))
  {
    hide Stripped, BlockData, ValidPart, WindowSize, WindowOf, ChunkBlocks, BlocksIn;
    var data := Stripped(c, key, d, iso, from, first);
    forall b | 0 <= b < BlocksIn(d, i)
      ensures data[b * 0x7c00..(b + 1) * 0x7c00] == BlockData(c, key, iso, d.fs + 4 * i, b)
    {
      BlockStored(c, iso, key, d, i, from, first, b);
    }
  }

  lemma TreeStored(c: Codec, iso: Bytes, key: Bytes, d: DataEntry, from: nat, i: nat)
    requires ValidPart(key, d, iso) && from <= d.ns && from == WindowOf(i)
    ensures TreeSaid(c, iso, key, d, i, HashHeaders(c, Slotted(Plains(c, key, d, iso, from))))
  {
    BlocksOfWindow(c, key, d, iso, from);
    var blocks := Slotted(Plains(c, key, d, iso, from));
    hide Plains, Slotted, HashHeaders, GroupAt, SoundTree.Sound, WindowOf;
    RecomputedIsSound(c, blocks);
    assert GroupAt(c, key, iso, d.fs + from, Min(64, d.ns - from), blocks);
  }

  /** Block `b` of the chunk needs just its own exceptions. */
  lemma BlockExceptions(c: Codec, iso: Bytes, key: Bytes, d: DataEntry, from: nat, first: nat, b: nat, p: Patch)
    requires ValidPart(key, d, iso) && from <= d.ns && first + b < WindowSize(d, from)
    ensures var h := HashHeaders(c, Slotted(Plains(c, key, d, iso, from)));
            var mine := BlockHeader(c, key, iso, d.fs + (from + first), b);
            && |mine| == 0x400 && PatchesRise(WindowPatches(c, key, d, iso, from)[first + b])
            && (p in WindowPatches(c, key, d, iso, from)[first + b] <==> DiffersAt(mine, h[first + b], p))
  {
    hide Plains, Slotted, HashHeader, BlockHeader, BlockPatches, PatchesUpTo, DiffersAt, PatchesRise;
    PatchesAt(c, key, d, iso, from, WindowSize(d, from), first + b);
    OneBlockExceptions(c, iso, key, d, from, first + b, p);
    SameBlock(c, iso, key, d.fs, from, first, b);
  }

  lemma SameBlock(c: Codec, iso: Bytes, key: Bytes, fs: nat, from: nat, first: nat, b: nat)
    ensures BlockHeader(c, key, iso, fs + (from + first), b) == BlockHeader(c, key, iso, fs + from, first + b)
  {
    hide HeaderAt;
    assert fs + (from + first) + b == fs + from + (first + b);
  }

  lemma OneBlockExceptions(c: Codec, iso: Bytes, key: Bytes, d: DataEntry, from: nat, j: nat, p: Patch)
    requires ValidPart(key, d, iso) && from <= d.ns && j < WindowSize(d, from)
    ensures var h := HashHeader(c, Slotted(Plains(c, key, d, iso, from)), j);
            var mine := BlockHeader(c, key, iso, d.fs + from, j);
            && |mine| == 0x400 && PatchesRise(BlockPatches(c, key, d, iso, from, j))
            && (p in BlockPatches(c, key, d, iso, from, j) <==> DiffersAt(mine, h, p))
  {
    hide Plains, Slotted, HashHeader, BlockHeader, DiscBlock, PlainHeader, PlainData, HeaderPatches, DiffersAt;
    hide PatchesRise;
    BlockOfWindow(c, key, d, iso, from, j);
    HeaderPatchesAre(PlainHeader(c, key, DiscBlock(d, iso, from + j)),
      HashHeader(c, Slotted(Plains(c, key, d, iso, from)), j), p);
  }

  lemma ExceptionsStored(c: Codec, iso: Bytes, key: Bytes, d: DataEntry, i: nat, from: nat, first: nat)
    requires Placed(key, d, iso, i, from, first)
    ensures var patches := ChunkPatches(c, key, d, iso, from, first);
            ExceptionsSaid(c, iso, key, d, i, HashHeaders(c, Slotted(Plains(c, key, d, iso, from))),
              ChunkExceptions(patches, |patches|))
  {
    hide Plains, Slotted, HashHeaders, BlockHeader, WindowPatches, DiffersAt, PatchesRise, ValidPart, WindowSize;
    hide WindowOf;
    var patches := ChunkPatches(c, key, d, iso, from, first);
    var h: Headers := HashHeaders(c, Slotted(Plains(c, key, d, iso, from)));
    assert AllRise(patches) by {
      forall b | 0 <= b < |patches|
        ensures PatchesRise(patches[b])
      {
        BlockExceptions(c, iso, key, d, from, first, b, Patch(0, []));
      }
    }
    ChunkExceptionsAre(patches, |patches|);
    hide ChunkExceptions, ChunkBlocks, BlocksIn;
    forall e
      ensures e in ChunkExceptions(patches, |patches|) <==> ExceptionSaid(c, iso, key, d, i, h, e)
    {
      var b, p := e.offset / 0x400, Patch(e.offset % 0x400, e.hash);
      if b < |patches| {
        BlockExceptions(c, iso, key, d, from, first, b, p);
        InHeaders(i, from, first, b);
      }
    }
  }

  lemma InHeaders(i: nat, from: nat, first: nat, b: nat)
    requires from == WindowOf(i) && from + first == 4 * i && first + b < 64
    ensures (4 * i + b) % 64 == first + b
  {}

  lemma StoredShorter(c: Codec, list: Bytes, p: Packed)
    ensures var chunk, pad := StorePart(c, list, p), Zeroes(Padding4(|list|));
            chunk.packedSize == p.packedSize && Shorter(c, chunk, list + p.mainData, list + pad + p.mainData)
  {
    AlignedLength(|list|);
    hide Align4, Padding4;
  }

  lemma ListStored(patches: seq<seq<Patch>>)
    requires AllFitAll(patches) && |patches| <= 4
    ensures var es := ChunkExceptions(patches, |patches|);
            AllHashes(es) && ListSaid(ExceptionList(es), es)
  {
    hide ExceptionList, ListSaid;
    var es := ChunkExceptions(patches, |patches|);
    ChunkExceptionsFit(patches, |patches|);
    forall k | 0 <= k < |es|
      ensures |es[k].hash| == HASH_SIZE && es[k].offset < 0x1_0000
    {
      assert Storable(es[k], |patches|);
    }
    ListIs(es);
  }

  /** How the parts of a chunk go together. */
  lemma Together(c: Codec, iso: Bytes, key: Bytes, d: DataEntry, i: nat, data: Bytes, h: Headers, es: seq<Exception>,
        list: Bytes, offset: nat)
    requires DataSaid(c, iso, key, d, i, data) && TreeSaid(c, iso, key, d, i, h)
    requires ExceptionsSaid(c, iso, key, d, i, h, es) && ListSaid(list, es) && offset == i * 4 * 0x7c00
    ensures PartSaid(c, iso, key, d, i, StorePart(c, list, PackedChunk(data, offset)), data, h, es, list,
              Zeroes(Padding4(|list|)))
  {
    hide DataSaid, TreeSaid, ExceptionsSaid, ListSaid, Shorter, PackedChunk, StorePart;
    StoredShorter(c, list, PackedChunk(data, offset));
  }

  lemma OffsetIs(from: nat, first: nat, i: nat)
    requires from + first == 4 * i
    ensures DataOffset(from, first) == i * 4 * 0x7c00
  {}

  /** That a chunk is stored so, with some data, some right tree and some list. */
  ghost predicate PartKept(c: Codec, iso: Bytes, key: Bytes, d: DataEntry, i: nat, chunk: Chunk) {
    exists data, h: Headers, es, list, pad :: PartSaid(c, iso, key, d, i, chunk, data, h, es, list, pad)
  }

  lemma PartStoredAt(c: Codec, iso: Bytes, key: Bytes, d: DataEntry, i: nat, from: nat, first: nat)
    requires Placed(key, d, iso, i, from, first)
    ensures PartKept(c, iso, key, d, i, PartChunk(c, key, d, iso, from, first))
  {
    hide Stripped, Plains, Slotted, HashHeaders, PackedChunk, StorePart, ChunkExceptions, ExceptionList, WindowPatches;
    hide DataSaid, TreeSaid, ExceptionsSaid, ListSaid, PartSaid, BlocksIn, DataOffset, WindowOf;
    OffsetIs(from, first, i);
    DataStored(c, iso, key, d, i, from, first);
    TreeStored(c, iso, key, d, from, i);
    ExceptionsStored(c, iso, key, d, i, from, first);
    hide WindowSize, ValidPart;
    var patches := ChunkPatches(c, key, d, iso, from, first);
    ListStored(patches);
    hide ChunkPatches, ChunkBlocks;
    var es, data := ChunkExceptions(patches, |patches|), Stripped(c, key, d, iso, from, first);
    Together(c, iso, key, d, i, data, HashHeaders(c, Slotted(Plains(c, key, d, iso, from))), es, ExceptionList(es),
      DataOffset(from, first));
  }

  /** Every chunk of a partition's stretch is stored so. */
  lemma PartStored(c: Codec, iso: Bytes, key: Bytes, d: DataEntry, i: nat)
    requires ValidPart(key, d, iso) && d.ns > 0 && i < d.ng
    ensures PartKept(c, iso, key, d, i, RegionChunks(c, iso, Part(key, d))[i])
  {
    ChunkPlace(key, d, iso, i);
    hide PartKept, PartChunk, ChunkAt, From, First, WindowSize, ChunkBlocks, ValidPart, BlocksIn, WindowOf;
    ChunkIs(c, iso, key, d, i);
    PartStoredAt(c, iso, key, d, i, From(i), First(i));
  }

  lemma ChunkIs(c: Codec, iso: Bytes, key: Bytes, d: DataEntry, i: nat)
    requires Placed(key, d, iso, i, From(i), First(i))
    ensures ChunkAt(c, key, d, iso, i) == PartChunk(c, key, d, iso, From(i), First(i))
  {
    hide PartChunk, From, First, WindowSize, ChunkBlocks, ValidPart, BlocksIn, WindowOf;
  }
}
