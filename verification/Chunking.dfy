/**
 The chunks the encoder makes of a region of the disc, what they decode to, and when that is the
 region again. A partition's blocks lose their hash headers, of which only the exceptions are kept.
 */
module Chunking {
  import opened Results
  import opened Sizes
  import opened BigEndian
  import opened Format
  import opened Unpacking
  import opened Packing
  import opened PackRoundTrip
  import opened PackExactly
  import opened HashTree
  import opened Exceptions
  import opened Regions
  import opened Container

  const BLOCKS_PER_CHUNK: nat := 4

  /** Every stretch of padding recorded for a chunk is one that comes back: then the chunk does too. */
  ghost predicate InPhase(data: Bytes, offset: nat) {
    RecordsFit(data, offset)
  }

  // ---------- raw regions ----------

  /** A region of the disc as the encoder records it: its groups just suffice. */
  predicate ValidRaw(e: RawEntry, iso: Bytes) {
    && e.size > 0 && e.offset + e.size <= |iso|
    && e.groups == DivCeil(e.offset + e.size - AlignDown(e.offset, BLOCK_TOTAL_SIZE), CHUNK_SIZE)
  }

  /** Where chunk `i` starts. */
  function RawStart(e: RawEntry, i: nat): nat {
    AlignDown(e.offset, BLOCK_TOTAL_SIZE) + i * CHUNK_SIZE
  }

  function RawEnd(e: RawEntry, i: nat): nat {
    Min(e.offset + e.size, RawStart(e, i) + CHUNK_SIZE)
  }

  lemma RawBounds(e: RawEntry, iso: Bytes, i: nat)
    requires ValidRaw(e, iso) && i < e.groups
    ensures RawStart(e, i) < RawEnd(e, i) <= |iso| && RawEnd(e, i) <= RawStart(e, i) + CHUNK_SIZE
    ensures RawEnd(e, i) == if i + 1 == e.groups then e.offset + e.size else RawStart(e, i + 1)
  {
    var span := e.offset + e.size - AlignDown(e.offset, BLOCK_TOTAL_SIZE);
    assert (e.groups - 1) * CHUNK_SIZE < span <= e.groups * CHUNK_SIZE;
    assert i * CHUNK_SIZE <= (e.groups - 1) * CHUNK_SIZE;
    if i + 1 < e.groups {
      assert (i + 1) * CHUNK_SIZE <= (e.groups - 1) * CHUNK_SIZE;
    }
  }

  ghost function RawPiece(e: RawEntry, iso: Bytes, i: nat): (data: Bytes)
    requires ValidRaw(e, iso) && i < e.groups
    ensures 0 < |data| <= CHUNK_SIZE
  {
    RawBounds(e, iso, i);
    iso[RawStart(e, i)..RawEnd(e, i)]
  }

  /** Packed data goes in compressed only if that is shorter. */
  function StoreRaw(c: Codec, p: Packed): Chunk {
    var z := c.compress(p.mainData);
    if |z| < |p.mainData| then Chunk(|z|, true, p.packedSize, z)
    else Chunk(|p.mainData|, false, p.packedSize, p.mainData)
  }

  ghost function RawChunk(c: Codec, e: RawEntry, iso: Bytes, i: nat): Chunk
    requires ValidRaw(e, iso) && i < e.groups
  {
    StoreRaw(c, PackedChunk(RawPiece(e, iso, i), RawStart(e, i)))
  }

  lemma RawDelivers(c: Codec, e: RawEntry, iso: Bytes, i: nat)
    requires ValidRaw(e, iso) && i < e.groups
    ensures Deliverable(RawChunk(c, e, iso, i))
  {
    hide PackedChunk, RawPiece;
    PackedSize(RawPiece(e, iso, i), RawStart(e, i));
  }

  /** What the chunk of packed data decodes to. */
  lemma RawComesBack(c: Codec, data: Bytes, offset: nat)
    requires 0 < |data| <= CHUNK_SIZE
    ensures RawData(c, StoreRaw(c, PackedChunk(data, offset)), |data|, offset) == Ok(Regained(data, offset))
  {
    hide PackedChunk, Unpacked, RecordsFit, Regained;
    PackedSize(data, offset);
    ShortReadable(data, offset);
    RegainedExactly(data, offset);
  }

  ghost predicate RawInPhase(e: RawEntry, iso: Bytes)
    requires ValidRaw(e, iso)
  {
    forall i | 0 <= i < e.groups :: InPhase(RawPiece(e, iso, i), RawStart(e, i))
  }

  ghost predicate RawStored(c: Codec, e: RawEntry, iso: Bytes, chunks: seq<Chunk>)
    requires ValidRaw(e, iso)
  {
    e.group + e.groups <= |chunks| && forall i | 0 <= i < e.groups :: chunks[e.group + i] == RawChunk(c, e, iso, i)
  }

  ghost function RawRegained(e: RawEntry, iso: Bytes, i: nat): (data: Bytes)
    requires ValidRaw(e, iso) && i < e.groups
    ensures |data| == |RawPiece(e, iso, i)|
  {
    Regained(RawPiece(e, iso, i), RawStart(e, i))
  }

  /** That `image` holds, where the region is, what its chunks decode to. */
  ghost predicate RawYields(e: RawEntry, iso: Bytes, image: Bytes)
    requires ValidRaw(e, iso)
  {
    |image| == |iso| && forall i | 0 <= i < e.groups :: RawPiece(e, image, i) == RawRegained(e, iso, i)
  }

  lemma RawStepBack(c: Codec, e: RawEntry, iso: Bytes, chunks: seq<Chunk>, i: nat)
    requires ValidRaw(e, iso) && RawStored(c, e, iso, chunks) && i < e.groups
    ensures RawStep(c, e, CHUNK_SIZE, chunks, i) == Ok(Write(RawStart(e, i), RawRegained(e, iso, i)))
  {
    hide PackedChunk, RawData, Regained, StoreRaw;
    RawBounds(e, iso, i);
    var data := RawPiece(e, iso, i);
    RawComesBack(c, data, RawStart(e, i));
    assert chunks[e.group + i] == RawChunk(c, e, iso, i);
  }

  /** From chunk `i` on, the region's writes are what is regained, from there to the region's end. */
  lemma {:induction false} RawTiles(c: Codec, e: RawEntry, iso: Bytes, image: Bytes, chunks: seq<Chunk>, i: nat)
    requires ValidRaw(e, iso) && RawStored(c, e, iso, chunks) && RawYields(e, iso, image) && i < e.groups
    ensures var run := RawRun(c, e, CHUNK_SIZE, chunks, i);
            run.failure == None && Tiles(run.writes, image, RawStart(e, i), e.offset + e.size)
    decreases e.groups - i
  {
    hide RawStep, RawStored, ValidRaw, RawPiece, RawRegained, Tiles, AlignDown;
    RawStepBack(c, e, iso, chunks, i);
    RawBounds(e, iso, i);
    SameSize(e, iso, image);
    assert RawPiece(e, image, i) == RawRegained(e, iso, i);
    var w := Write(RawStart(e, i), RawPiece(e, image, i));
    PieceIsPart(e, image, i);
    TilesOne(w, image);
    hide RawYields;
    if i + 1 < e.groups {
      RawTiles(c, e, iso, image, chunks, i + 1);
      TilesJoin([w], RawRun(c, e, CHUNK_SIZE, chunks, i + 1).writes, image, RawStart(e, i), RawStart(e, i + 1),
          e.offset + e.size);
    } else {
      assert [w] + [] == [w];
    }
  }

  lemma SameSize(e: RawEntry, iso: Bytes, image: Bytes)
    requires ValidRaw(e, iso) && |image| == |iso|
    ensures ValidRaw(e, image)
  {}

  lemma PieceIsPart(e: RawEntry, iso: Bytes, i: nat)
    requires ValidRaw(e, iso) && i < e.groups
    ensures var w := Write(RawStart(e, i), RawPiece(e, iso, i));
            IsPart(w, iso) && w.data != [] && w.offset + |w.data| == RawEnd(e, i)
  {
    hide ValidRaw;
    RawBounds(e, iso, i);
  }

  /** Which chunk of the region a byte of the disc is in. */
  lemma RawChunkOf(e: RawEntry, iso: Bytes, x: nat) returns (i: nat)
    requires ValidRaw(e, iso) && RawStart(e, 0) <= x < e.offset + e.size
    ensures i == (x - RawStart(e, 0)) / CHUNK_SIZE < e.groups && RawStart(e, i) <= x < RawEnd(e, i)
  {
    i := (x - RawStart(e, 0)) / CHUNK_SIZE;
    var span := e.offset + e.size - RawStart(e, 0);
    assert e.groups == DivCeil(span, CHUNK_SIZE);
    assert i * CHUNK_SIZE <= x - RawStart(e, 0) < span <= e.groups * CHUNK_SIZE;
    assert i < e.groups;
  }

  /** What is regained is the disc exactly when every chunk is in phase. */
  lemma RawExactly(e: RawEntry, iso: Bytes, image: Bytes)
    requires ValidRaw(e, iso) && RawYields(e, iso, image)
    ensures Same(image, iso, RawStart(e, 0), e.offset + e.size) <==> RawInPhase(e, iso)
  {
    hide RecordsFit, ValidRaw, Regained, AlignDown;
    SameSize(e, iso, image);
    forall i: nat | i < e.groups
      ensures InPhase(RawPiece(e, iso, i), RawStart(e, i)) <==> RawPiece(e, image, i) == RawPiece(e, iso, i)
    {
      ShortReadable(RawPiece(e, iso, i), RawStart(e, i));
      RegainedExactly(RawPiece(e, iso, i), RawStart(e, i));
    }
    hide RawYields, InPhase;
    if RawInPhase(e, iso) {
      forall x: nat | RawStart(e, 0) <= x < e.offset + e.size && x < |image|
        ensures image[x] == iso[x]
      {
        var i := RawChunkOf(e, iso, x);
        RawBounds(e, iso, i);
        assert RawPiece(e, image, i)[x - RawStart(e, i)] == RawPiece(e, iso, i)[x - RawStart(e, i)];
      }
    }
    if Same(image, iso, RawStart(e, 0), e.offset + e.size) {
      forall i: nat | i < e.groups
        ensures RawPiece(e, image, i) == RawPiece(e, iso, i)
      {
        SamePiece(e, iso, image, i);
      }
    }
  }

  lemma SamePiece(e: RawEntry, iso: Bytes, image: Bytes, i: nat)
    requires ValidRaw(e, iso) && ValidRaw(e, image) && i < e.groups
    requires Same(image, iso, RawStart(e, 0), e.offset + e.size)
    ensures RawPiece(e, image, i) == RawPiece(e, iso, i)
  {
    RawBounds(e, iso, i);
    hide ValidRaw, AlignDown;
    var a, b := RawPiece(e, image, i), RawPiece(e, iso, i);
    forall k | 0 <= k < |b|
      ensures a[k] == b[k]
    {
      assert image[RawStart(e, i) + k] == iso[RawStart(e, i) + k];
    }
  }

  /** There is such an image. */
  lemma RawImage(e: RawEntry, iso: Bytes) returns (image: Bytes)
    requires ValidRaw(e, iso)
    ensures RawYields(e, iso, image)
  {
    hide ValidRaw, RawPiece, RawRegained;
    image := RawImageTo(e, iso, e.groups);
  }

  lemma {:induction false} RawImageTo(e: RawEntry, iso: Bytes, n: nat) returns (image: Bytes)
    requires ValidRaw(e, iso) && n <= e.groups
    ensures |image| == |iso| && ValidRaw(e, image)
    ensures forall i | 0 <= i < n :: RawPiece(e, image, i) == RawRegained(e, iso, i)
  {
    hide ValidRaw, RawRegained, WriteAt, AlignDown;
    SameSize(e, iso, iso);
    if n == 0 {
      image := iso;
    } else {
      var before := RawImageTo(e, iso, n - 1);
      var at, data := RawStart(e, n - 1), RawRegained(e, iso, n - 1);
      RawBounds(e, iso, n - 1);
      assert |data| == RawEnd(e, n - 1) - at;
      image := WriteAt(before, at, data);
      WrittenInside(before, at, data, at, at);
      SameSize(e, iso, image);
      forall i: nat | i < n
        ensures RawPiece(e, image, i) == RawRegained(e, iso, i)
      {
        RawBounds(e, iso, i);
        if i < n - 1 {
          assert (i + 1) * CHUNK_SIZE <= (n - 1) * CHUNK_SIZE;
          WrittenInside(before, at, data, RawStart(e, i), RawEnd(e, i));
          assert RawPiece(e, image, i) == RawPiece(e, before, i) == RawRegained(e, iso, i);
        }
      }
    }
  }

  // ---------- partition regions ----------

  /** A run of whole encrypted blocks; its groups just suffice. */
  predicate ValidPart(key: Bytes, d: DataEntry, iso: Bytes) {
    && |key| == 16 && (d.fs + d.ns) * BLOCK_TOTAL_SIZE <= |iso|
    && d.ng == DivCeil(d.ns * BLOCK_TOTAL_SIZE, CHUNK_SIZE)
  }

  function DiscBlock(d: DataEntry, iso: Bytes, b: nat): (r: Bytes)
    requires (d.fs + d.ns) * BLOCK_TOTAL_SIZE <= |iso| && b < d.ns
    ensures |r| == BLOCK_TOTAL_SIZE
  {
    iso[(d.fs + b) * BLOCK_TOTAL_SIZE..(d.fs + b + 1) * BLOCK_TOTAL_SIZE]
  }

  function PlainHeader(c: Codec, key: Bytes, block: Bytes): (h: Bytes)
    requires |block| == BLOCK_TOTAL_SIZE
    ensures |h| == BLOCK_HEADER_SIZE
  {
    c.decrypt(key, ZeroIv(), block[..BLOCK_HEADER_SIZE])
  }

  function PlainData(c: Codec, key: Bytes, block: Bytes): (data: Bytes)
    requires |block| == BLOCK_TOTAL_SIZE
    ensures |data| == BLOCK_DATA_SIZE
  {
    c.decrypt(key, block[0x3d0..0x3e0], block[BLOCK_HEADER_SIZE..])
  }

  /** Encrypting what was decrypted gives the block again. */
  lemma BlockComesBack(c: Codec, key: Bytes, block: Bytes)
    requires |block| == BLOCK_TOTAL_SIZE
    ensures Encrypted(c, key, PlainHeader(c, key, block), PlainData(c, key, block)) == block
  {
    var head, body := block[..BLOCK_HEADER_SIZE], block[BLOCK_HEADER_SIZE..];
    assert c.encrypt(key, ZeroIv(), PlainHeader(c, key, block)) == head;
    assert DataIv(head) == block[0x3d0..0x3e0];
    assert c.encrypt(key, DataIv(head), PlainData(c, key, block)) == body;
    assert block == head + body;
  }

  /** Encryption forgets nothing. */
  lemma EncryptedInjective(c: Codec, key: Bytes, h0: Bytes, d0: Bytes, h1: Bytes, d1: Bytes)
    requires |h0| == |h1| == BLOCK_HEADER_SIZE && |d0| == |d1| == BLOCK_DATA_SIZE
    requires Encrypted(c, key, h0, d0) == Encrypted(c, key, h1, d1)
    ensures h0 == h1 && d0 == d1
  {
    var e0, e1 := c.encrypt(key, ZeroIv(), h0), c.encrypt(key, ZeroIv(), h1);
    var b := Encrypted(c, key, h0, d0);
    assert e0 == b[..BLOCK_HEADER_SIZE] == e1;
    assert c.encrypt(key, DataIv(e0), d0) == b[BLOCK_HEADER_SIZE..] == c.encrypt(key, DataIv(e1), d1);
    assert c.decrypt(key, ZeroIv(), e0) == h0 && c.decrypt(key, ZeroIv(), e1) == h1;
    assert c.decrypt(key, DataIv(e0), c.encrypt(key, DataIv(e0), d0)) == d0;
    assert c.decrypt(key, DataIv(e1), c.encrypt(key, DataIv(e1), d1)) == d1;
  }

  /** How many blocks the window that starts at block `from` has. */
  function WindowSize(d: DataEntry, from: nat): nat
    requires from <= d.ns
  {
    Min(BLOCKS_PER_GROUP, d.ns - from)
  }

  /** The decrypted data of the window from block `from` on. */
  function Plains(c: Codec, key: Bytes, d: DataEntry, iso: Bytes, from: nat): (plains: seq<Bytes>)
    requires ValidPart(key, d, iso) && from <= d.ns
    ensures |plains| == WindowSize(d, from) && AllBlocks(plains)
  {
    var n := WindowSize(d, from);
    var plains := seq(n, j requires 0 <= j < n => PlainData(c, key, DiscBlock(d, iso, from + j)));
    assert forall j | 0 <= j < n :: plains[j] == PlainData(c, key, DiscBlock(d, iso, from + j));
    plains
  }

  function BlockPatches(c: Codec, key: Bytes, d: DataEntry, iso: Bytes, from: nat, j: nat): (ps: seq<Patch>)
    requires ValidPart(key, d, iso) && from <= d.ns && j < WindowSize(d, from)
    ensures OfOneBlock(ps)
  {
    HeaderPatches(PlainHeader(c, key, DiscBlock(d, iso, from + j)),
        HashHeader(c, Slotted(Plains(c, key, d, iso, from)), j))
  }

  /** How many blocks the chunk that starts `first` blocks into the window has. */
  function ChunkBlocks(d: DataEntry, from: nat, first: nat): nat
    requires from + first <= d.ns && first <= WindowSize(d, from)
  {
    Min(BLOCKS_PER_CHUNK, WindowSize(d, from) - first)
  }

  /** The exceptions of the first `n` blocks of the window. */
  function PatchesUpTo(c: Codec, key: Bytes, d: DataEntry, iso: Bytes, from: nat, n: nat): (patches: seq<seq<Patch>>)
    requires ValidPart(key, d, iso) && from <= d.ns && n <= WindowSize(d, from)
    ensures |patches| == n && AllFitAll(patches)
  {
    if n == 0 then [] else PatchesUpTo(c, key, d, iso, from, n - 1) + [BlockPatches(c, key, d, iso, from, n - 1)]
  }

  function WindowPatches(c: Codec, key: Bytes, d: DataEntry, iso: Bytes, from: nat): (patches: seq<seq<Patch>>)
    requires ValidPart(key, d, iso) && from <= d.ns
    ensures |patches| == WindowSize(d, from) && AllFitAll(patches)
  {
    PatchesUpTo(c, key, d, iso, from, WindowSize(d, from))
  }

  lemma {:induction false} PatchesAt(c: Codec, key: Bytes, d: DataEntry, iso: Bytes, from: nat, n: nat, j: nat)
    requires ValidPart(key, d, iso) && from <= d.ns && j < n <= WindowSize(d, from)
    ensures PatchesUpTo(c, key, d, iso, from, n)[j] == BlockPatches(c, key, d, iso, from, j)
  {
    hide BlockPatches;
    if j < n - 1 {
      PatchesAt(c, key, d, iso, from, n - 1, j);
    }
  }

  function ChunkPatches(c: Codec, key: Bytes, d: DataEntry, iso: Bytes, from: nat,
        first: nat): (patches: seq<seq<Patch>>)
    requires ValidPart(key, d, iso) && from <= d.ns && first <= WindowSize(d, from)
    ensures |patches| == ChunkBlocks(d, from, first) && AllFitAll(patches)
  {
    WindowPatches(c, key, d, iso, from)[first..first + ChunkBlocks(d, from, first)]
  }

  /** The first `n` of a list of blocks, end to end. */
  function Joined(blocks: seq<Bytes>, n: nat): (r: Bytes)
    requires AllBlocks(blocks) && n <= |blocks|
    ensures |r| == n * BLOCK_DATA_SIZE
  {
    if n == 0 then [] else Joined(blocks, n - 1) + blocks[n - 1]
  }

  /** A chunk's data without the hashes. */
  function Stripped(c: Codec, key: Bytes, d: DataEntry, iso: Bytes, from: nat, first: nat): (data: Bytes)
    requires ValidPart(key, d, iso) && from <= d.ns && first <= WindowSize(d, from)
    ensures |data| == ChunkBlocks(d, from, first) * BLOCK_DATA_SIZE
  {
    var mine := Plains(c, key, d, iso, from)[first..first + ChunkBlocks(d, from, first)];
    Joined(mine, |mine|)
  }

  /** The list is padded only if the chunk is not compressed, and the comparison counts that padding. */
  function StorePart(c: Codec, list: Bytes, p: Packed): Chunk {
    var z := c.compress(list + p.mainData);
    if |z| < |p.mainData| + Align4(|list|) then Chunk(|z|, true, p.packedSize, z)
    else
      var stored := list + Zeroes(Padding4(|list|)) + p.mainData;
      Chunk(|stored|, false, p.packedSize, stored)
  }

  /** A chunk's offset in the partition, counted without hash headers. */
  function DataOffset(from: nat, first: nat): nat {
    (from + first) * BLOCK_DATA_SIZE
  }

  ghost function PartChunk(c: Codec, key: Bytes, d: DataEntry, iso: Bytes, from: nat, first: nat): Chunk
    requires ValidPart(key, d, iso) && from <= d.ns && first <= WindowSize(d, from)
  {
    var patches := ChunkPatches(c, key, d, iso, from, first);
    ChunkExceptionsFit(patches, |patches|);
    StorePart(c, ExceptionList(ChunkExceptions(patches, |patches|)),
              PackedChunk(Stripped(c, key, d, iso, from, first), DataOffset(from, first)))
  }

  /** What is opened from a stored chunk: its exceptions, and what its data comes back as. */
  lemma PartComesBack(c: Codec, es: seq<Exception>, data: Bytes, offset: nat)
    requires 0 < |data| <= BLOCKS_PER_CHUNK * BLOCK_DATA_SIZE
    requires AllStorable(es, |data| / BLOCK_DATA_SIZE) && |es| <= 4 * MAX_PER_BLOCK
    ensures Deliverable(StorePart(c, ExceptionList(es), PackedChunk(data, offset)))
    ensures PartContent(c, StorePart(c, ExceptionList(es), PackedChunk(data, offset)), |data|, offset)
         == Ok(Content(Regained(data, offset), es))
  {
    hide PackedChunk, Regained, Opened, ExceptionList, Align4;
    var list, p := ExceptionList(es), PackedChunk(data, offset);
    PackedSize(data, offset);
    var chunk := StorePart(c, list, p);
    AlignedLength(|list|);
    if chunk.compressed {
      OpensTo(es, [], p, chunk, data, offset);
      assert list + [] + p.mainData == list + p.mainData;
    } else {
      OpensTo(es, Zeroes(Padding4(|list|)), p, chunk, data, offset);
    }
  }

  lemma AlignedLength(n: nat)
    ensures n + Padding4(n) == Align4(n) && Align4(n) <= n + 3
  {}

  lemma OpensTo(es: seq<Exception>, pad: Bytes, p: Packed, chunk: Chunk, data: Bytes, offset: nat)
    requires 0 < |data| <= BLOCKS_PER_CHUNK * BLOCK_DATA_SIZE
    requires AllStorable(es, |data| / BLOCK_DATA_SIZE) && |es| <= 4 * MAX_PER_BLOCK
    requires p == PackedChunk(data, offset) && chunk.packedSize == p.packedSize
    requires |pad| == if chunk.compressed then 0 else Padding4(2 + EXCEPTION_SIZE * |es|)
    ensures Opened(ExceptionList(es) + pad + p.mainData, chunk, |data|, offset)
         == Ok(Content(Regained(data, offset), es))
  {
    hide PackedChunk, Unpacked, ExceptionList, Get16, Align4, Regained, MainData;
    var list := ExceptionList(es);
    var inflated := list + pad + p.mainData;
    assert inflated == list + (pad + p.mainData);
    CountReads(es, pad + p.mainData);
    ListReads(es, pad + p.mainData, |data| / BLOCK_DATA_SIZE, 0);
    assert es[0..] == es;
    AlignedLength(|list|);
    var listSize := ListSize(|es|, chunk.compressed);
    assert listSize == |list + pad|;
    MainComesBack(list + pad, p, data, offset);
  }

  lemma MainComesBack(before: Bytes, p: Packed, data: Bytes, offset: nat)
    requires 0 < |data| < JUNK_FLAG && p == PackedChunk(data, offset)
    ensures p.packedSize <= |p.mainData|
    ensures MainData(before + p.mainData, |before|, p.packedSize, |data|, offset) == Ok(Regained(data, offset))
  {
    hide PackedChunk, Unpacked, RecordsFit, Regained;
    ShortReadable(data, offset);
    RegainedExactly(data, offset);
    var whole := before + p.mainData;
    if p.packedSize > 0 {
      assert whole[|before|..|before| + p.packedSize] == p.mainData;
    } else {
      assert whole[|before|..|before| + |data|] == data;
    }
  }
}
