/** How the encoder makes the chunks of a region out of the bytes of the disc. */
module ChunkBuilder {
  import opened Words
  import opened Sizes
  import opened Format
  import opened Packing
  import opened HashTree
  import opened Buffers
  import opened Exceptions
  import opened Chunking

  /** Packs and stores a chunk of a raw region. */
  method BuildRawChunk(c: Codec, data: Bytes, start: nat) returns (stored: Bytes, packedSize: nat, isCompressed: bool)
    requires 0 < |data| <= CHUNK_SIZE
    ensures Chunk(|stored|, isCompressed, packedSize, stored) == StoreRaw(c, PackedChunk(data, start))
  {
    hide PackedChunk;
    var mainData;
    mainData, packedSize := RvzPackChunk(data, start);
    var compressed := c.compress(mainData);
    if |compressed| < |mainData| {
      stored, isCompressed := compressed, true;
    } else {
      stored, isCompressed := mainData, false;
    }
  }

  /** The hash headers of a window's blocks, as the disc has them. */
  function Originals(c: Codec, key: Bytes, d: DataEntry, iso: Bytes, from: nat): (origs: seq<Bytes>)
    requires ValidPart(key, d, iso) && from <= d.ns
    ensures |origs| == WindowSize(d, from)
    ensures forall j | 0 <= j < |origs| :: origs[j] == PlainHeader(c, key, DiscBlock(d, iso, from + j))
  {
    var n := WindowSize(d, from);
    seq(n, j requires 0 <= j < n => PlainHeader(c, key, DiscBlock(d, iso, from + j)))
  }

  /** Decrypts a window's blocks: their data, and their hash headers. */
  method ReadWindow(c: Codec, key: Bytes, d: DataEntry, iso: Bytes, from: nat)
      returns (dataPlains: seq<Bytes>, hashOrig: seq<Bytes>)
    requires ValidPart(key, d, iso) && from < d.ns
    ensures dataPlains == Plains(c, key, d, iso, from) && hashOrig == Originals(c, key, d, iso, from)
  {
    hide DiscBlock, PlainData, PlainHeader;
    var blocksInWindow := Min(BLOCKS_PER_GROUP, d.ns - from);
    var encrypted := ReadAt(iso, d.fs * BLOCK_TOTAL_SIZE + from * BLOCK_TOTAL_SIZE, blocksInWindow * BLOCK_TOTAL_SIZE);
    dataPlains, hashOrig := [], [];
    for b := 0 to blocksInWindow
      invariant dataPlains == Plains(c, key, d, iso, from)[..b]
      invariant hashOrig == Originals(c, key, d, iso, from)[..b]
    {
      BlockInWindow(d, iso, from, b);
      var blk := encrypted[b * BLOCK_TOTAL_SIZE..(b + 1) * BLOCK_TOTAL_SIZE];
      var dataPlain, hashHeader := DecryptBlock(c, key, blk);
      dataPlains := dataPlains + [dataPlain];
      hashOrig := hashOrig + [hashHeader];
    }
  }

  lemma BlockInWindow(d: DataEntry, iso: Bytes, from: nat, b: nat)
    requires (d.fs + d.ns) * BLOCK_TOTAL_SIZE <= |iso| && from <= d.ns && b < WindowSize(d, from)
    ensures var n := WindowSize(d, from) * BLOCK_TOTAL_SIZE;
            var window := ReadAt(iso, d.fs * BLOCK_TOTAL_SIZE + from * BLOCK_TOTAL_SIZE, n);
            && |window| == n && (b + 1) * BLOCK_TOTAL_SIZE <= n
            && window[b * BLOCK_TOTAL_SIZE..(b + 1) * BLOCK_TOTAL_SIZE] == DiscBlock(d, iso, from + b)
  {
    var at := d.fs * BLOCK_TOTAL_SIZE + from * BLOCK_TOTAL_SIZE;
    assert at + b * BLOCK_TOTAL_SIZE == (d.fs + (from + b)) * BLOCK_TOTAL_SIZE;
    assert at + WindowSize(d, from) * BLOCK_TOTAL_SIZE <= |iso|;
    SubSlice(iso, at, WindowSize(d, from) * BLOCK_TOTAL_SIZE, b * BLOCK_TOTAL_SIZE, (b + 1) * BLOCK_TOTAL_SIZE);
  }

  method DecryptBlock(c: Codec, key: Bytes, blk: Bytes) returns (dataPlain: Bytes, hashHeader: Bytes)
    requires |blk| == BLOCK_TOTAL_SIZE
    ensures dataPlain == PlainData(c, key, blk) && hashHeader == PlainHeader(c, key, blk)
  {
    hashHeader := c.decrypt(key, Zeroes(16), blk[0..BLOCK_HEADER_SIZE]);
    assert blk[0..BLOCK_HEADER_SIZE] == blk[..BLOCK_HEADER_SIZE];
    dataPlain := c.decrypt(key, blk[0x3d0..0x3e0], blk[BLOCK_HEADER_SIZE..BLOCK_TOTAL_SIZE]);
    assert blk[BLOCK_HEADER_SIZE..BLOCK_TOTAL_SIZE] == blk[BLOCK_HEADER_SIZE..];
  }

  /** A chunk's blocks without their headers, end to end. */
  method StripBlocks(plains: seq<Bytes>) returns (stripped: array<Byte>)
    requires AllBlocks(plains)
    ensures fresh(stripped) && stripped[..] == Joined(plains, |plains|)
  {
    hide Joined;
    stripped := new Byte[|plains| * BLOCK_DATA_SIZE](_ => 0);
    JoinedNone(plains);
    for b := 0 to |plains|
      invariant stripped[..b * BLOCK_DATA_SIZE] == Joined(plains, b)
    {
      assert |plains[b]| == BLOCK_DATA_SIZE;
      Put(stripped, b * BLOCK_DATA_SIZE, plains[b]);
      JoinedNext(plains, b);
    }
    assert stripped[..] == stripped[..|plains| * BLOCK_DATA_SIZE];
  }

  lemma JoinedNone(blocks: seq<Bytes>)
    requires AllBlocks(blocks)
    ensures Joined(blocks, 0) == []
  {}

  lemma JoinedNext(blocks: seq<Bytes>, n: nat)
    requires AllBlocks(blocks) && n < |blocks|
    ensures Joined(blocks, n + 1) == Joined(blocks, n) + blocks[n]
  {}

  /** Lists a chunk's exceptions, block by block. */
  method CollectChunk(hashOrig: seq<Bytes>, recomputed: seq<Bytes>, ghost patches: seq<seq<Patch>>)
      returns (exceptions: seq<Exception>)
    requires |hashOrig| == |recomputed| == |patches|
    requires forall b | 0 <= b < |hashOrig| :: |hashOrig[b]| == |recomputed[b]| == BLOCK_HEADER_SIZE
    requires forall b | 0 <= b < |hashOrig| :: patches[b] == HeaderPatches(hashOrig[b], recomputed[b])
    ensures exceptions == ChunkExceptions(patches, |patches|)
  {
    hide HeaderPatches, Located;
    exceptions := [];
    for b := 0 to |hashOrig|
      invariant exceptions == ChunkExceptions(patches, b)
    {
      exceptions := CollectHashExceptions(hashOrig[b], recomputed[b], b, exceptions);
    }
  }

  /** The list and the data, compressed together if that is shorter than both with the list padded. */
  method StoreTogether(c: Codec, exceptionList: Bytes, mainData: Bytes, ghost packedSize: nat)
      returns (stored: Bytes, isCompressed: bool)
    ensures Chunk(|stored|, isCompressed, packedSize, stored)
         == StorePart(c, exceptionList, Packed(mainData, packedSize))
  {
    var compressed := c.compress(exceptionList + mainData);
    if |compressed| < |mainData| + Align4(|exceptionList|) {
      stored, isCompressed := compressed, true;
    } else {
      var pad := (4 - |exceptionList| % 4) % 4;
      stored, isCompressed := exceptionList + Zeroes(pad) + mainData, false;
    }
  }

  /** The chunk that starts `first` blocks into a window. */
  method BuildPartChunk(c: Codec, key: Bytes, d: DataEntry, iso: Bytes, from: nat, first: nat,
      dataPlains: seq<Bytes>, hashOrig: seq<Bytes>, recomputed: seq<Bytes>, chunkOffset: nat)
      returns (stored: Bytes, packedSize: nat, isCompressed: bool)
    requires ValidPart(key, d, iso) && from <= d.ns && first < WindowSize(d, from)
    requires dataPlains == Plains(c, key, d, iso, from) && hashOrig == Originals(c, key, d, iso, from)
    requires recomputed == HashHeaders(c, Slotted(dataPlains)) && chunkOffset == DataOffset(from, first)
    ensures Chunk(|stored|, isCompressed, packedSize, stored) == PartChunk(c, key, d, iso, from, first)
  {
    hide PackedChunk, HashHeader, DiscBlock, Joined, PlainData, PlainHeader, HeaderPatches, ChunkExceptions, StorePart;
    var blocksInChunk := Min(BLOCKS_PER_CHUNK, |dataPlains| - first);
    ghost var patches := ChunkPatches(c, key, d, iso, from, first);
    var mine := dataPlains[first..first + blocksInChunk];
    var stripped := StripBlocks(mine);
    var origs, recs := hashOrig[first..first + blocksInChunk], recomputed[first..first + blocksInChunk];
    PatchesMatch(c, key, d, iso, from, first);
    var exceptions := CollectChunk(origs, recs, patches);
    ChunkExceptionsFit(patches, |patches|);
    var list := BuildExceptionList(exceptions);
    var mainData;
    mainData, packedSize := RvzPackChunk(stripped[..], chunkOffset);
    stored, isCompressed := StoreTogether(c, list[..], mainData, packedSize);
  }

  lemma PatchesMatch(c: Codec, key: Bytes, d: DataEntry, iso: Bytes, from: nat, first: nat)
    requires ValidPart(key, d, iso) && from <= d.ns && first <= WindowSize(d, from)
    ensures var n := ChunkBlocks(d, from, first);
            var origs := Originals(c, key, d, iso, from)[first..first + n];
            var recs := HashHeaders(c, Slotted(Plains(c, key, d, iso, from)))[first..first + n];
            var patches := ChunkPatches(c, key, d, iso, from, first);
            forall b | 0 <= b < n :: |origs[b]| == |recs[b]| == BLOCK_HEADER_SIZE
                && patches[b] == HeaderPatches(origs[b], recs[b])
  {
    hide HashHeader, DiscBlock, PlainData, PlainHeader, HeaderPatches, Slotted;
    var n := ChunkBlocks(d, from, first);
    var patches := ChunkPatches(c, key, d, iso, from, first);
    var all, headers := Originals(c, key, d, iso, from), HashHeaders(c, Slotted(Plains(c, key, d, iso, from)));
    forall b | 0 <= b < n
      ensures patches[b] == BlockPatches(c, key, d, iso, from, first + b)
      ensures all[first..first + n][b] == all[first + b] && headers[first..first + n][b] == headers[first + b]
    {
      PatchesAt(c, key, d, iso, from, WindowSize(d, from), first + b);
      assert patches[b] == WindowPatches(c, key, d, iso, from)[first + b];
    }
  }
}
