/**
 What decoding a partition region's chunks rebuilds, window by window: the region's encrypted
 blocks, if and only if every chunk comes back from its packed form.
 */
module PartRoundTrip {
  import opened Results
  import opened Sizes
  import opened Format
  import opened Packing
  import opened PackExactly
  import opened HashTree
  import opened Exceptions
  import opened Regions
  import opened Container
  import opened Chunking

  // ---------- chunk numbers ----------

  /** Where the window of chunk `i` starts. */
  function From(i: nat): nat {
    i / 16 * 64
  }

  /** Where in its window chunk `i` starts. */
  function First(i: nat): nat {
    i % 16 * 4
  }

  /** Every chunk starts inside the region, and the last one ends it. */
  lemma ChunkBounds(key: Bytes, d: DataEntry, iso: Bytes, i: nat)
    requires ValidPart(key, d, iso) && i < d.ng
    ensures From(i) + First(i) == 4 * i < d.ns && First(i) < WindowSize(d, From(i)) && From(i) % 64 == 0
    ensures var count := ChunkBlocks(d, From(i), First(i));
            && 0 < count && (i + 1 == d.ng <==> 4 * i + count == d.ns) && (i + 1 < d.ng ==> count == 4)
            && (First(i) + count == WindowSize(d, From(i)) <==> (4 * i + count) % 64 == 0 || 4 * i + count == d.ns)
  {
    assert d.ng == (d.ns * 0x8000 + 0x1ffff) / 0x20000;
    assert d.ng == (d.ns + 3) / 4;
  }

  ghost function ChunkAt(c: Codec, key: Bytes, d: DataEntry, iso: Bytes, i: nat): Chunk
    requires ValidPart(key, d, iso) && i < d.ng
  {
    ChunkBounds(key, d, iso, i);
    PartChunk(c, key, d, iso, From(i), First(i))
  }

  ghost predicate ChunkInPhase(c: Codec, key: Bytes, d: DataEntry, iso: Bytes, i: nat)
    requires ValidPart(key, d, iso) && i < d.ng
  {
    ChunkBounds(key, d, iso, i);
    InPhase(Stripped(c, key, d, iso, From(i), First(i)), DataOffset(From(i), First(i)))
  }

  ghost predicate PartInPhase(c: Codec, key: Bytes, d: DataEntry, iso: Bytes)
    requires ValidPart(key, d, iso)
  {
    forall i | 0 <= i < d.ng :: ChunkInPhase(c, key, d, iso, i)
  }

  ghost predicate PartStored(c: Codec, key: Bytes, d: DataEntry, iso: Bytes, chunks: seq<Chunk>)
    requires ValidPart(key, d, iso)
  {
    d.gi + d.ng <= |chunks| && forall i | 0 <= i < d.ng :: chunks[d.gi + i] == ChunkAt(c, key, d, iso, i)
  }

  // ---------- the decoder's state inside a window ----------

  /** Block `b` of a chunk's data. */
  function BlockOf(data: Bytes, b: nat): (r: Bytes)
    requires (b + 1) * BLOCK_DATA_SIZE <= |data|
    ensures |r| == BLOCK_DATA_SIZE
  {
    data[b * BLOCK_DATA_SIZE..(b + 1) * BLOCK_DATA_SIZE]
  }

  /** What the data of a chunk comes back as. */
  ghost function ChunkRegained(c: Codec, key: Bytes, d: DataEntry, iso: Bytes, from: nat, first: nat): (data: Bytes)
    requires ValidPart(key, d, iso) && from <= d.ns && first <= WindowSize(d, from)
    ensures |data| == ChunkBlocks(d, from, first) * BLOCK_DATA_SIZE
  {
    Regained(Stripped(c, key, d, iso, from, first), DataOffset(from, first))
  }

  /** What the data of block `j` of a window comes back as. */
  ghost function RestoredBlock(c: Codec, key: Bytes, d: DataEntry, iso: Bytes, from: nat, j: nat): (r: Bytes)
    requires ValidPart(key, d, iso) && from <= d.ns && j < WindowSize(d, from)
    ensures |r| == BLOCK_DATA_SIZE
  {
    BlockOf(ChunkRegained(c, key, d, iso, from, j / 4 * 4), j % 4)
  }

  ghost function Restored(c: Codec, key: Bytes, d: DataEntry, iso: Bytes, from: nat): (plains: seq<Bytes>)
    requires ValidPart(key, d, iso) && from <= d.ns
    ensures |plains| == WindowSize(d, from) && AllBlocks(plains)
    ensures forall j | 0 <= j < |plains| :: plains[j] == RestoredBlock(c, key, d, iso, from, j)
  {
    seq(WindowSize(d, from), j requires 0 <= j < WindowSize(d, from) => RestoredBlock(c, key, d, iso, from, j))
  }

  function PartialPatches(patches: seq<seq<Patch>>, m: nat): (ex: Filing)
    requires AllFitAll(patches) && m <= |patches| <= BLOCKS_PER_GROUP
    ensures ValidFiling(ex)
  {
    seq(BLOCKS_PER_GROUP, j requires 0 <= j < BLOCKS_PER_GROUP => if j < m then patches[j] else [])
  }

  function PartialBlocks(plains: seq<Bytes>, m: nat): (blocks: Slots)
    requires AllBlocks(plains) && m <= |plains| <= BLOCKS_PER_GROUP
    ensures ValidSlots(blocks)
  {
    Slotted(plains[..m])
  }

  /** The state when `m` blocks of the window at `from` have been read: those slots, and no others, are filled. */
  ghost function Partial(c: Codec, key: Bytes, d: DataEntry, iso: Bytes, from: nat, m: nat): (g: Group)
    requires ValidPart(key, d, iso) && from <= d.ns && m <= WindowSize(d, from)
    ensures ValidGroup(g)
  {
    Group(from + m, from, PartialBlocks(Restored(c, key, d, iso, from), m),
          PartialPatches(WindowPatches(c, key, d, iso, from), m))
  }

  lemma PartialNone(c: Codec, key: Bytes, d: DataEntry, iso: Bytes, from: nat)
    requires ValidPart(key, d, iso) && from <= d.ns
    ensures Partial(c, key, d, iso, from, 0) == NewGroup(from)
  {
    hide Restored, WindowPatches;
    assert PartialBlocks(Restored(c, key, d, iso, from), 0) == NoBlocks();
    assert PartialPatches(WindowPatches(c, key, d, iso, from), 0) == NoPatches();
  }

  lemma {:induction false} JoinedAt(blocks: seq<Bytes>, n: nat, j: nat)
    requires AllBlocks(blocks) && j < n <= |blocks|
    ensures (j + 1) * BLOCK_DATA_SIZE <= |Joined(blocks, n)|
    ensures Joined(blocks, n)[j * BLOCK_DATA_SIZE..(j + 1) * BLOCK_DATA_SIZE] == blocks[j]
  {
    if j < n - 1 {
      JoinedAt(blocks, n - 1, j);
      var shorter := Joined(blocks, n - 1);
      assert Joined(blocks, n)[j * BLOCK_DATA_SIZE..(j + 1) * BLOCK_DATA_SIZE]
          == shorter[j * BLOCK_DATA_SIZE..(j + 1) * BLOCK_DATA_SIZE];
    }
  }

  /** A chunk's blocks go to their places in the window. */
  lemma {:induction false} PlacedBack(plains: seq<Bytes>, data: Bytes, from: nat, first: nat, count: nat, n: nat)
    requires AllBlocks(plains) && |plains| <= BLOCKS_PER_GROUP && from % BLOCKS_PER_GROUP == 0
    requires n <= count && first + count <= |plains| && |data| == count * BLOCK_DATA_SIZE
    requires forall b | 0 <= b < count :: BlockOf(data, b) == plains[first + b]
    ensures Placed(PartialBlocks(plains, first), from + first, data, n) == PartialBlocks(plains, first + n)
  {
    if n > 0 {
      PlacedBack(plains, data, from, first, count, n - 1);
      SlotOf(from, first + n - 1);
      assert BlockOf(data, n - 1) == plains[first + n - 1];
      assert PartialBlocks(plains, first + n - 1)[first + n - 1 := Some(plains[first + n - 1])]
          == PartialBlocks(plains, first + n);
    }
  }

  lemma SlotOf(from: nat, m: nat)
    requires from % BLOCKS_PER_GROUP == 0 && m < BLOCKS_PER_GROUP
    ensures (from + m) % BLOCKS_PER_GROUP == m
  {}

  /** So do its exceptions. */
  lemma PatchesBack(patches: seq<seq<Patch>>, from: nat, first: nat, count: nat)
    requires AllFitAll(patches) && |patches| <= BLOCKS_PER_GROUP && from % BLOCKS_PER_GROUP == 0
    requires first + count <= |patches| && first < BLOCKS_PER_GROUP
    ensures var mine := patches[first..first + count];
            && AllFitAll(mine) && AllPatchable(ChunkExceptions(mine, count))
            && Filed(PartialPatches(patches, first), from + first, ChunkExceptions(mine, count))
            == PartialPatches(patches, first + count)
  {
    hide AllFit, Filed, AllPatchable;
    var mine := patches[first..first + count];
    assert AllFitAll(mine);
    SlotOf(from, first);
    ChunkFiled(PartialPatches(patches, first), from + first, mine, count);
    var added, after := Added(PartialPatches(patches, first), from + first, mine, count),
        PartialPatches(patches, first + count);
    forall g | 0 <= g < BLOCKS_PER_GROUP
      ensures added[g] == after[g]
    {
      assert first <= g < first + count ==> [] + mine[g - first] == patches[g];
    }
  }

  /** The content of a chunk as it is opened. */
  ghost function ContentOf(c: Codec, key: Bytes, d: DataEntry, iso: Bytes, from: nat, first: nat): Content
    requires ValidPart(key, d, iso) && from <= d.ns && first <= WindowSize(d, from)
  {
    var patches := ChunkPatches(c, key, d, iso, from, first);
    Content(ChunkRegained(c, key, d, iso, from, first), ChunkExceptions(patches, |patches|))
  }

  lemma ChunkAdds(c: Codec, key: Bytes, d: DataEntry, iso: Bytes, from: nat, first: nat)
    requires ValidPart(key, d, iso) && from <= d.ns && first < WindowSize(d, from)
    requires from % BLOCKS_PER_GROUP == 0 && first % BLOCKS_PER_CHUNK == 0
    ensures var content, count := ContentOf(c, key, d, iso, from, first), ChunkBlocks(d, from, first);
            && AllStorable(content.exceptions, |content.data| / BLOCK_DATA_SIZE)
            && WithChunk(Partial(c, key, d, iso, from, first), content) == Partial(c, key, d, iso, from, first + count)
  {
    hide ChunkRegained, WindowPatches, Placed, Filed, ChunkExceptions, PartialPatches, PartialBlocks, AllFit, BlockOf;
    var count := ChunkBlocks(d, from, first);
    var plains, patches := Restored(c, key, d, iso, from), WindowPatches(c, key, d, iso, from);
    var data := ChunkRegained(c, key, d, iso, from, first);
    assert count * BLOCK_DATA_SIZE / BLOCK_DATA_SIZE == count;
    ChunkExceptionsFit(patches[first..first + count], count);
    forall b | 0 <= b < count
      ensures BlockOf(data, b) == plains[first + b]
    {
      assert (first + b) / 4 * 4 == first && (first + b) % 4 == b;
    }
    hide Restored;
    PlacedBack(plains, data, from, first, count, count);
    PatchesBack(patches, from, first, count);
  }

  // ---------- finishing a window ----------

  function WindowBytes(d: DataEntry, iso: Bytes, from: nat, j: nat): (b: Bytes)
    requires (d.fs + d.ns) * BLOCK_TOTAL_SIZE <= |iso| && from <= d.ns && j <= WindowSize(d, from)
    ensures |b| == (WindowSize(d, from) - j) * BLOCK_TOTAL_SIZE
  {
    iso[(d.fs + from + j) * BLOCK_TOTAL_SIZE..(d.fs + from + WindowSize(d, from)) * BLOCK_TOTAL_SIZE]
  }

  /** The encrypted block that is rebuilt for block `j` of a window. */
  ghost function Rebuilt(c: Codec, key: Bytes, d: DataEntry, iso: Bytes, from: nat, j: nat): (block: Bytes)
    requires ValidPart(key, d, iso) && from <= d.ns && j < WindowSize(d, from)
    ensures |block| == BLOCK_TOTAL_SIZE
  {
    var plains := Restored(c, key, d, iso, from);
    Encrypted(c, key, Patched(HashHeader(c, Slotted(plains), j), BlockPatches(c, key, d, iso, from, j)), plains[j])
  }

  /** That `image` holds, where the region is, what is rebuilt of it. */
  ghost predicate PartYields(c: Codec, key: Bytes, d: DataEntry, iso: Bytes, image: Bytes)
    requires ValidPart(key, d, iso)
  {
    && |image| == |iso|
    && forall from: nat, j: nat | from <= d.ns && from % BLOCKS_PER_GROUP == 0 && j < WindowSize(d, from) ::
         DiscBlock(d, image, from + j) == Rebuilt(c, key, d, iso, from, j)
  }

  lemma BlockBack(c: Codec, key: Bytes, d: DataEntry, iso: Bytes, from: nat, j: nat)
    requires ValidPart(key, d, iso) && from <= d.ns && j < WindowSize(d, from)
    ensures var n := WindowSize(d, from);
            var g := Partial(c, key, d, iso, from, n);
            && g.blocks[j].Some?
            && BlockOut(c, key, PatchedHeader(c, g.blocks, g.ex, j), g.blocks[j].value, true)
                 == Rebuilt(c, key, d, iso, from, j)
  {
    hide HashHeader, BlockPatches, Patched, RestoredBlock, Encrypted;
    var n, plains := WindowSize(d, from), Restored(c, key, d, iso, from);
    assert plains[..n] == plains;
    var g := Partial(c, key, d, iso, from, n);
    assert g.blocks == Slotted(plains) && g.blocks[j] == Some(plains[j]);
    PatchesAt(c, key, d, iso, from, n, j);
    assert g.ex[j] == BlockPatches(c, key, d, iso, from, j);
  }

  /** A full window comes out as its rebuilt blocks. */
  lemma {:induction false} WindowBack(c: Codec, key: Bytes, d: DataEntry, iso: Bytes, image: Bytes, from: nat, j: nat)
    requires ValidPart(key, d, iso) && PartYields(c, key, d, iso, image)
    requires from <= d.ns && from % BLOCKS_PER_GROUP == 0 && j <= WindowSize(d, from)
    ensures var n := WindowSize(d, from);
            var g := Partial(c, key, d, iso, from, n);
            Finalized(c, key, g.blocks, g.ex, n, true, j) == Ok(WindowBytes(d, image, from, j))
    decreases WindowSize(d, from) - j
  {
    hide Partial, BlockOut, PatchedHeader, Rebuilt;
    var n := WindowSize(d, from);
    if j < n {
      BlockBack(c, key, d, iso, from, j);
      WindowBack(c, key, d, iso, image, from, j + 1);
      assert DiscBlock(d, image, from + j) == Rebuilt(c, key, d, iso, from, j);
      hide PartYields;
      var at := (d.fs + from + j) * BLOCK_TOTAL_SIZE;
      SplitBytes(image, at, at + BLOCK_TOTAL_SIZE, (d.fs + from + n) * BLOCK_TOTAL_SIZE);
    } else {
      assert WindowBytes(d, image, from, j) == [];
    }
  }

  lemma SplitBytes(iso: Bytes, a: nat, b: nat, e: nat)
    requires a <= b <= e <= |iso|
    ensures iso[a..e] == iso[a..b] + iso[b..e]
  {}

  // ---------- the whole region ----------

  function WindowWrite(d: DataEntry, iso: Bytes, from: nat): Write
    requires (d.fs + d.ns) * BLOCK_TOTAL_SIZE <= |iso| && from <= d.ns
  {
    Write((d.fs + from) * BLOCK_TOTAL_SIZE, WindowBytes(d, iso, from, 0))
  }

  lemma ContentBack(c: Codec, key: Bytes, d: DataEntry, iso: Bytes, i: nat)
    requires ValidPart(key, d, iso) && i < d.ng
    ensures From(i) <= d.ns && First(i) < WindowSize(d, From(i))
    ensures var count := ChunkBlocks(d, From(i), First(i));
            && Deliverable(ChunkAt(c, key, d, iso, i))
            && PartContent(c, ChunkAt(c, key, d, iso, i), count * BLOCK_DATA_SIZE, 4 * i * BLOCK_DATA_SIZE)
            == Ok(ContentOf(c, key, d, iso, From(i), First(i)))
  {
    hide Stripped, ChunkPatches, ChunkExceptions, StorePart, PartContent;
    hide Regained, PackedChunk, ExceptionList, WindowSize;
    ChunkBounds(key, d, iso, i);
    var from, first := From(i), First(i);
    var patches, data := ChunkPatches(c, key, d, iso, from, first), Stripped(c, key, d, iso, from, first);
    ChunkExceptionsFit(patches, |patches|);
    assert |data| / BLOCK_DATA_SIZE == |patches|;
    PartComesBack(c, ChunkExceptions(patches, |patches|), data, DataOffset(from, first));
  }

  /** The state before chunk `i`. */
  ghost function StateAt(c: Codec, key: Bytes, d: DataEntry, iso: Bytes, i: nat): (g: Group)
    requires ValidPart(key, d, iso) && i < d.ng
    ensures ValidGroup(g)
  {
    ChunkBounds(key, d, iso, i);
    Partial(c, key, d, iso, From(i), First(i))
  }

  /** Mid-window a chunk adds its blocks; at the window's end the window is written and forgotten. */
  ghost function StepAt(c: Codec, key: Bytes, d: DataEntry, iso: Bytes, image: Bytes, i: nat): (s: Stepped)
    requires ValidPart(key, d, iso) && |image| == |iso| && i < d.ng
    ensures ValidGroup(s.group)
  {
    ChunkBounds(key, d, iso, i);
    var from := From(i);
    var m := First(i) + ChunkBlocks(d, from, First(i));
    if m == WindowSize(d, from) then Stepped(NewGroup(from + m), [WindowWrite(d, image, from)])
    else Stepped(Partial(c, key, d, iso, from, m), [])
  }

  lemma PartStepBack(c: Codec, key: Bytes, d: DataEntry, iso: Bytes, image: Bytes, chunks: seq<Chunk>, i: nat)
    requires ValidPart(key, d, iso) && PartStored(c, key, d, iso, chunks)
    requires PartYields(c, key, d, iso, image) && i < d.ng
    ensures PartStep(c, key, d, CHUNK_SIZE, chunks, i, StateAt(c, key, d, iso, i), true)
         == Ok(StepAt(c, key, d, iso, image, i))
  {
    hide ChunkAt, Partial, PartContent, WithChunk, ContentOf, WindowWrite, PartYields, Flushed, NewGroup, PartChunkSize;
    assert chunks[d.gi + i] == ChunkAt(c, key, d, iso, i);
    ChunkBounds(key, d, iso, i);
    var from, first := From(i), First(i);
    assert first % 4 == 0;
    SameRoom(c, key, d, iso, image);
    ContentBack(c, key, d, iso, i);
    var count := ChunkBlocks(d, from, first);
    var m := first + count;
    assert count == Min(4, d.ns - 4 * i);
    ExpectedSize(d, i, count);
    ChunkAdds(c, key, d, iso, from, first);
    FlushBack(c, key, d, iso, image, from, m, i + 1 == d.ng);
    hide From, First, WindowSize, ChunkBlocks, ValidPart, PartStored, ValidGroup;
  }

  lemma StateNext(c: Codec, key: Bytes, d: DataEntry, iso: Bytes, image: Bytes, i: nat)
    requires ValidPart(key, d, iso) && |image| == |iso| && i + 1 < d.ng
    ensures StepAt(c, key, d, iso, image, i).group == StateAt(c, key, d, iso, i + 1)
  {
    hide Partial, WindowWrite, NewGroup, ValidPart;
    ChunkBounds(key, d, iso, i);
    ChunkBounds(key, d, iso, i + 1);
    NextChunk(d, i);
    hide From, First, WindowSize, ChunkBlocks;
    if First(i + 1) == 0 {
      PartialNone(c, key, d, iso, From(i + 1));
    }
  }

  /** The next chunk continues the window, or starts the next one. */
  lemma NextChunk(d: DataEntry, i: nat)
    requires From(i) + First(i) == 4 * i && 4 * (i + 1) < d.ns
    ensures From(i) <= d.ns && First(i) <= WindowSize(d, From(i))
    ensures ChunkBlocks(d, From(i), First(i)) == 4
    ensures if First(i) + 4 == WindowSize(d, From(i)) then First(i + 1) == 0 && From(i + 1) == From(i) + First(i) + 4
            else First(i + 1) == First(i) + 4 && From(i + 1) == From(i)
  {
    NextNumber(i);
    hide From, First;
  }

  lemma NextNumber(i: nat)
    ensures First(i) <= 60 && First(i) % 4 == 0
    ensures if First(i) == 60 then First(i + 1) == 0 && From(i + 1) == From(i) + 64
            else First(i + 1) == First(i) + 4 && From(i + 1) == From(i)
  {
    hide From, First;
    var m, x := i / 16, i % 16;
    InSixteen(m, x);
    if x == 15 {
      InSixteen(m + 1, 0);
    } else {
      InSixteen(m, x + 1);
    }
  }

  lemma ExpectedSize(d: DataEntry, i: nat, count: nat)
    requires 4 * i < d.ns && count == Min(4, d.ns - 4 * i)
    ensures var size, at := PartChunkSize(CHUNK_SIZE), i * PartChunkSize(CHUNK_SIZE);
            && at == 4 * i * BLOCK_DATA_SIZE && d.ns * BLOCK_DATA_SIZE > at
            && Min(size, d.ns * BLOCK_DATA_SIZE - at) == count * BLOCK_DATA_SIZE
  {
    assert PartChunkSize(CHUNK_SIZE) == 4 * BLOCK_DATA_SIZE;
  }

  lemma FlushBack(c: Codec, key: Bytes, d: DataEntry, iso: Bytes, image: Bytes, from: nat, m: nat, last: bool)
    requires ValidPart(key, d, iso) && PartYields(c, key, d, iso, image)
    requires from <= d.ns && 0 < m <= WindowSize(d, from) && from % 64 == 0
    requires m == WindowSize(d, from) <==> (from + m) % 64 == 0 || last
    ensures Flushed(c, key, d.fs * BLOCK_TOTAL_SIZE, Partial(c, key, d, iso, from, m), last, true)
         == Ok(if m == WindowSize(d, from) then Stepped(NewGroup(from + m), [WindowWrite(d, image, from)])
               else Stepped(Partial(c, key, d, iso, from, m), []))
  {
    hide Finalized, WindowBytes, PartialBlocks, PartialPatches, NewGroup;
    hide Restored, WindowPatches, ValidSlots, ValidFiling;
    hide PartYields;
    WindowBack(c, key, d, iso, image, from, 0);
    SameRoom(c, key, d, iso, image);
    hide ValidPart;
  }

  lemma SameRoom(c: Codec, key: Bytes, d: DataEntry, iso: Bytes, image: Bytes)
    requires ValidPart(key, d, iso) && PartYields(c, key, d, iso, image)
    ensures |image| == |iso|
  {}

  lemma RegionInside(key: Bytes, d: DataEntry, iso: Bytes)
    requires ValidPart(key, d, iso)
    ensures (d.fs + d.ns) * BLOCK_TOTAL_SIZE <= |iso|
  {}

  lemma WindowIsPart(d: DataEntry, iso: Bytes, from: nat)
    requires (d.fs + d.ns) * BLOCK_TOTAL_SIZE <= |iso| && from < d.ns
    ensures var w := WindowWrite(d, iso, from);
            IsPart(w, iso) && w.data != []
                && w.offset + |w.data| == (d.fs + from + WindowSize(d, from)) * BLOCK_TOTAL_SIZE
  {
    assert (d.fs + from + 0) == d.fs + from;
  }

  /** That a run writes the disc from `at` to the region's end. */
  ghost predicate Finishes(run: Run, d: DataEntry, iso: Bytes, at: nat) {
    run.failure == None && Tiles(run.writes, iso, (d.fs + at) * BLOCK_TOTAL_SIZE, (d.fs + d.ns) * BLOCK_TOTAL_SIZE)
  }

  lemma EndWindow(rest: Run, d: DataEntry, iso: Bytes, from: nat)
    requires (d.fs + d.ns) * BLOCK_TOTAL_SIZE <= |iso| && from < d.ns
    requires Finishes(rest, d, iso, from + WindowSize(d, from))
    ensures Finishes(Then(Run([WindowWrite(d, iso, from)], None), rest), d, iso, from)
  {
    hide Tiles, WindowBytes, WindowSize;
    var w := WindowWrite(d, iso, from);
    WindowIsPart(d, iso, from);
    TilesOne(w, iso);
    TilesJoin([w], rest.writes, iso, w.offset, w.offset + |w.data|, (d.fs + d.ns) * BLOCK_TOTAL_SIZE);
  }

  /** A step's writes, then the windows that follow, are the windows from the step's own on. */
  lemma StepFinishes(c: Codec, key: Bytes, d: DataEntry, iso: Bytes, image: Bytes, i: nat, rest: Run)
    requires ValidPart(key, d, iso) && |image| == |iso| && i < d.ng
    requires Finishes(rest, d, image, if i + 1 < d.ng then From(i + 1) else d.ns)
    ensures Finishes(Then(Run(StepAt(c, key, d, iso, image, i).writes, None), rest), d, image, From(i))
  {
    RegionInside(key, d, iso);
    ChunkBounds(key, d, iso, i);
    WhereNext(key, d, iso, i);
    hide Partial, WindowWrite, NewGroup, From, First, WindowSize, ChunkBlocks, ValidPart;
    if First(i) + ChunkBlocks(d, From(i), First(i)) == WindowSize(d, From(i)) {
      hide Finishes, Then;
      EndWindow(rest, d, image, From(i));
    } else {
      hide Tiles;
      assert [] + rest.writes == rest.writes;
    }
  }

  /** A chunk that ends its window has the region's end or the next window after it, any other the same window. */
  lemma WhereNext(key: Bytes, d: DataEntry, iso: Bytes, i: nat)
    requires ValidPart(key, d, iso) && i < d.ng
    ensures From(i) < d.ns && First(i) <= WindowSize(d, From(i))
    ensures (if i + 1 < d.ng then From(i + 1) else d.ns)
         == if First(i) + ChunkBlocks(d, From(i), First(i)) == WindowSize(d, From(i))
            then From(i) + WindowSize(d, From(i)) else From(i)
  {
    hide From, First, WindowSize, ChunkBlocks, ValidPart;
    ChunkBounds(key, d, iso, i);
    if i + 1 < d.ng {
      ChunkBounds(key, d, iso, i + 1);
      NextChunk(d, i);
    }
  }

  lemma NothingLeft(d: DataEntry, iso: Bytes)
    ensures Finishes(Run([], None), d, iso, d.ns)
  {}

  /**
   From chunk `i` on, the region's writes are what is rebuilt, from the start of the chunk's window to
   the region's end.
   */
  lemma {:induction false} PartTiles(c: Codec, key: Bytes, d: DataEntry, iso: Bytes, image: Bytes, chunks: seq<Chunk>,
        i: nat)
    requires ValidPart(key, d, iso) && PartStored(c, key, d, iso, chunks)
    requires PartYields(c, key, d, iso, image) && i < d.ng
    ensures Finishes(PartRun(c, key, d, CHUNK_SIZE, chunks, i, StateAt(c, key, d, iso, i), true), d, image, From(i))
    decreases d.ng - i
  {
    SameRoom(c, key, d, iso, image);
    hide PartStep, StateAt, StepAt, PartStored, PartYields, ValidPart, Finishes, Then, From;
    PartStepBack(c, key, d, iso, image, chunks, i);
    RunUnfolds(c, key, d, chunks, i, StateAt(c, key, d, iso, i));
    if i + 1 < d.ng {
      StateNext(c, key, d, iso, image, i);
      PartTiles(c, key, d, iso, image, chunks, i + 1);
      StepFinishes(c, key, d, iso, image, i,
          PartRun(c, key, d, CHUNK_SIZE, chunks, i + 1, StateAt(c, key, d, iso, i + 1), true));
    } else {
      NothingLeft(d, image);
      StepFinishes(c, key, d, iso, image, i, Run([], None));
    }
  }

  lemma RunUnfolds(c: Codec, key: Bytes, d: DataEntry, chunks: seq<Chunk>, i: nat, g: Group)
    requires ValidGroup(g) && i < d.ng && PartStep(c, key, d, CHUNK_SIZE, chunks, i, g, true).Ok?
    ensures var s := PartStep(c, key, d, CHUNK_SIZE, chunks, i, g, true).value;
            && ValidGroup(s.group)
            && PartRun(c, key, d, CHUNK_SIZE, chunks, i, g, true)
            == Then(Run(s.writes, None), if i + 1 == d.ng then Run([], None)
                                         else PartRun(c, key, d, CHUNK_SIZE, chunks, i + 1, s.group, true))
  {
    hide PartStep, ValidGroup;
  }

  lemma EmptyTiles(iso: Bytes, at: nat)
    ensures Tiles([], iso, at, at)
  {}

  /** A partition region's chunks decode to what is rebuilt of it. */
  lemma PartRegionBack(c: Codec, key: Bytes, d: DataEntry, iso: Bytes, image: Bytes, chunks: seq<Chunk>)
    requires ValidPart(key, d, iso) && PartStored(c, key, d, iso, chunks) && PartYields(c, key, d, iso, image)
    ensures var run := RegionRun(c, CHUNK_SIZE, chunks, Part(key, d), true);
            && run.failure == None
            && Tiles(run.writes, image, d.fs * BLOCK_TOTAL_SIZE, (d.fs + d.ns) * BLOCK_TOTAL_SIZE)
  {
    hide PartStored, PartYields, PartRun, Partial, Tiles, NewGroup;
    if d.ns == 0 {
      EmptyTiles(image, d.fs * BLOCK_TOTAL_SIZE);
    } else {
      assert 0 < d.ng;
      PartTiles(c, key, d, iso, image, chunks, 0);
      PartialNone(c, key, d, iso, 0);
    }
  }

  // ---------- when it is the disc that is rebuilt ----------

  lemma SameBlocks(x: Bytes, y: Bytes, n: nat)
    requires |x| == |y| == n * BLOCK_DATA_SIZE
    requires forall b | 0 <= b < n :: BlockOf(x, b) == BlockOf(y, b)
    ensures x == y
  {
    forall k | 0 <= k < |x|
      ensures x[k] == y[k]
    {
      var b := k / BLOCK_DATA_SIZE;
      assert BlockOf(x, b)[k - b * BLOCK_DATA_SIZE] == BlockOf(y, b)[k - b * BLOCK_DATA_SIZE];
    }
  }

  lemma StrippedBlock(c: Codec, key: Bytes, d: DataEntry, iso: Bytes, from: nat, first: nat, b: nat)
    requires ValidPart(key, d, iso) && from <= d.ns && first <= WindowSize(d, from) && b < ChunkBlocks(d, from, first)
    ensures BlockOf(Stripped(c, key, d, iso, from, first), b) == Plains(c, key, d, iso, from)[first + b]
  {
    hide Joined, PlainData, DiscBlock;
    var mine := Plains(c, key, d, iso, from)[first..first + ChunkBlocks(d, from, first)];
    JoinedAt(mine, |mine|, b);
  }

  /** Block `b` of the chunk that starts `first` blocks into the window comes back as it was. */
  ghost predicate ComesBack(c: Codec, key: Bytes, d: DataEntry, iso: Bytes, from: nat, first: nat, b: nat)
    requires ValidPart(key, d, iso) && from <= d.ns && first + b < WindowSize(d, from)
  {
    RestoredBlock(c, key, d, iso, from, first + b) == Plains(c, key, d, iso, from)[first + b]
  }

  lemma ComesBackWhen(c: Codec, key: Bytes, d: DataEntry, iso: Bytes, from: nat, first: nat, b: nat)
    requires ValidPart(key, d, iso) && from <= d.ns && first <= WindowSize(d, from) && first % 4 == 0
    requires b < ChunkBlocks(d, from, first)
    ensures ComesBack(c, key, d, iso, from, first, b)
       <==> BlockOf(ChunkRegained(c, key, d, iso, from, first), b) == BlockOf(Stripped(c, key, d, iso, from, first), b)
  {
    hide Stripped, Plains, ChunkRegained, BlockOf, WindowSize, ValidPart;
    assert (first + b) / 4 * 4 == first && (first + b) % 4 == b;
    StrippedBlock(c, key, d, iso, from, first, b);
  }

  lemma BlocksDecide(x: Bytes, y: Bytes, n: nat)
    requires |x| == |y| == n * BLOCK_DATA_SIZE
    ensures x == y <==> forall b | 0 <= b < n :: BlockOf(x, b) == BlockOf(y, b)
  {
    if forall b | 0 <= b < n :: BlockOf(x, b) == BlockOf(y, b) {
      SameBlocks(x, y, n);
    }
  }

  lemma InPhaseWhen(c: Codec, key: Bytes, d: DataEntry, iso: Bytes, from: nat, first: nat)
    requires ValidPart(key, d, iso) && from <= d.ns && first <= WindowSize(d, from) && first % 4 == 0
    ensures InPhase(Stripped(c, key, d, iso, from, first), DataOffset(from, first))
       <==> forall b | 0 <= b < ChunkBlocks(d, from, first) :: ComesBack(c, key, d, iso, from, first, b)
  {
    hide Stripped, RecordsFit, Regained, BlockOf, ComesBack;
    var n, x, y := ChunkBlocks(d, from, first), ChunkRegained(c, key, d, iso, from, first),
        Stripped(c, key, d, iso, from, first);
    ShortReadable(y, DataOffset(from, first));
    RegainedExactly(y, DataOffset(from, first));
    hide ChunkRegained, WindowSize, ValidPart, DataOffset;
    BlocksDecide(x, y, n);
    forall b | 0 <= b < n
      ensures ComesBack(c, key, d, iso, from, first, b) <==> BlockOf(x, b) == BlockOf(y, b)
    {
      ComesBackWhen(c, key, d, iso, from, first, b);
    }
  }

  /** A chunk is in phase exactly when each of its blocks is restored. */
  lemma ChunkExactly(c: Codec, key: Bytes, d: DataEntry, iso: Bytes, i: nat)
    requires ValidPart(key, d, iso) && i < d.ng
    ensures From(i) <= d.ns && First(i) < WindowSize(d, From(i))
    ensures ChunkInPhase(c, key, d, iso, i) <==>
              forall b | 0 <= b < ChunkBlocks(d, From(i), First(i)) :: ComesBack(c, key, d, iso, From(i), First(i), b)
  {
    hide Stripped, InPhase, ComesBack;
    ChunkBounds(key, d, iso, i);
    hide WindowSize, ChunkBlocks, ValidPart, From;
    InPhaseWhen(c, key, d, iso, From(i), First(i));
  }

  lemma PlainOf(c: Codec, key: Bytes, d: DataEntry, iso: Bytes, from: nat, j: nat)
    requires ValidPart(key, d, iso) && from <= d.ns && j < WindowSize(d, from)
    ensures Plains(c, key, d, iso, from)[j] == PlainData(c, key, DiscBlock(d, iso, from + j))
  {
    hide PlainData, DiscBlock;
  }

  /** A block with its data and its header's exceptions is the block again. */
  lemma PatchedBack(c: Codec, key: Bytes, block: Bytes, recomputed: Bytes)
    requires |block| == BLOCK_TOTAL_SIZE && |recomputed| == BLOCK_HEADER_SIZE
    ensures Encrypted(c, key, Patched(recomputed, HeaderPatches(PlainHeader(c, key, block), recomputed)),
         PlainData(c, key, block)) == block
  {
    hide HeaderPatches, Patched, PlainHeader, PlainData, Encrypted;
    PatchesRestore(PlainHeader(c, key, block), recomputed);
    BlockComesBack(c, key, block);
  }

  /** A window whose blocks are all restored is rebuilt as it was. */
  lemma RestoredWindow(c: Codec, key: Bytes, d: DataEntry, iso: Bytes, from: nat, j: nat)
    requires ValidPart(key, d, iso) && from <= d.ns && j < WindowSize(d, from)
    requires Restored(c, key, d, iso, from) == Plains(c, key, d, iso, from)
    ensures Rebuilt(c, key, d, iso, from, j) == DiscBlock(d, iso, from + j)
  {
    hide HashHeader, HeaderPatches, Patched, PlainHeader, PlainData, DiscBlock, Encrypted, Restored, Plains, Slotted;
    PlainOf(c, key, d, iso, from, j);
    var block, recomputed := DiscBlock(d, iso, from + j), HashHeader(c, Slotted(Plains(c, key, d, iso, from)), j);
    assert BlockPatches(c, key, d, iso, from, j) == HeaderPatches(PlainHeader(c, key, block), recomputed);
    hide BlockPatches, ValidPart, WindowSize, AllBlocks, ValidSlots;
    PatchedBack(c, key, block, recomputed);
  }

  /** A block that is rebuilt as it was has its data restored. */
  lemma RebuiltRestored(c: Codec, key: Bytes, d: DataEntry, iso: Bytes, from: nat, j: nat)
    requires ValidPart(key, d, iso) && from <= d.ns && j < WindowSize(d, from)
    requires Rebuilt(c, key, d, iso, from, j) == DiscBlock(d, iso, from + j)
    ensures RestoredBlock(c, key, d, iso, from, j) == Plains(c, key, d, iso, from)[j]
  {
    hide HashHeader, BlockPatches, Patched, PlainHeader, PlainData, DiscBlock, Encrypted, RestoredBlock;
    var plains, block := Restored(c, key, d, iso, from), DiscBlock(d, iso, from + j);
    BlockComesBack(c, key, block);
    EncryptedInjective(c, key, Patched(HashHeader(c, Slotted(plains), j), BlockPatches(c, key, d, iso, from, j)),
        plains[j],
      PlainHeader(c, key, block), PlainData(c, key, block));
    PlainOf(c, key, d, iso, from, j);
  }

  /** The chunk that a block of a window is in. */
  lemma ChunkOfBlock(key: Bytes, d: DataEntry, iso: Bytes, from: nat, j: nat) returns (i: nat, b: nat)
    requires ValidPart(key, d, iso) && from <= d.ns && from % BLOCKS_PER_GROUP == 0 && j < WindowSize(d, from)
    ensures i < d.ng && From(i) == from && First(i) + b == j && b < ChunkBlocks(d, from, First(i))
  {
    i, b := from / 64 * 16 + j / 4, j % 4;
    InSixteen(from / 64, j / 4);
    ChunksNeeded(d.ns);
  }

  lemma InSixteen(m: nat, x: nat)
    requires x < 16
    ensures From(m * 16 + x) == m * 64 && First(m * 16 + x) == x * 4
  {}

  lemma ChunksNeeded(n: nat)
    ensures n <= 4 * DivCeil(n * BLOCK_TOTAL_SIZE, CHUNK_SIZE) < n + 4
  {}

  lemma WindowRestored(c: Codec, key: Bytes, d: DataEntry, iso: Bytes, from: nat)
    requires ValidPart(key, d, iso) && PartInPhase(c, key, d, iso) && from <= d.ns && from % BLOCKS_PER_GROUP == 0
    ensures Restored(c, key, d, iso, from) == Plains(c, key, d, iso, from)
  {
    hide ValidPart, ChunkInPhase, RestoredBlock, Plains, From, First, WindowSize, ChunkBlocks;
    forall j: nat | j < WindowSize(d, from)
      ensures RestoredBlock(c, key, d, iso, from, j) == Plains(c, key, d, iso, from)[j]
    {
      var i, b := ChunkOfBlock(key, d, iso, from, j);
      assert ChunkInPhase(c, key, d, iso, i);
      ChunkExactly(c, key, d, iso, i);
      assert ComesBack(c, key, d, iso, from, First(i), b);
    }
  }

  lemma BlockSame(d: DataEntry, image: Bytes, iso: Bytes)
    requires |image| == |iso| && (d.fs + d.ns) * BLOCK_TOTAL_SIZE <= |iso|
    ensures Same(image, iso, d.fs * BLOCK_TOTAL_SIZE, (d.fs + d.ns) * BLOCK_TOTAL_SIZE)
       <==> forall b: nat | b < d.ns :: DiscBlock(d, image, b) == DiscBlock(d, iso, b)
  {
    var lo, hi := d.fs * BLOCK_TOTAL_SIZE, (d.fs + d.ns) * BLOCK_TOTAL_SIZE;
    if forall b: nat | b < d.ns :: DiscBlock(d, image, b) == DiscBlock(d, iso, b) {
      forall x: nat | lo <= x < hi && x < |image|
        ensures image[x] == iso[x]
      {
        var b := (x - lo) / BLOCK_TOTAL_SIZE;
        var k := x - lo - b * BLOCK_TOTAL_SIZE;
        assert DiscBlock(d, image, b)[k] == DiscBlock(d, iso, b)[k];
        assert x == (d.fs + b) * BLOCK_TOTAL_SIZE + k;
      }
    }
  }

  /** What is rebuilt is the disc exactly when every chunk is in phase. */
  lemma PartExactly(c: Codec, key: Bytes, d: DataEntry, iso: Bytes, image: Bytes)
    requires ValidPart(key, d, iso) && PartYields(c, key, d, iso, image)
    ensures Same(image, iso, d.fs * BLOCK_TOTAL_SIZE, (d.fs + d.ns) * BLOCK_TOTAL_SIZE) <==> PartInPhase(c, key, d, iso)
  {
    BlockSame(d, image, iso);
    hide Same, DiscBlock, PartYields, PartInPhase;
    if PartInPhase(c, key, d, iso) {
      BlocksRestored(c, key, d, iso, image);
    }
    if forall b: nat | b < d.ns :: DiscBlock(d, image, b) == DiscBlock(d, iso, b) {
      SamePhases(c, key, d, iso, image);
    }
  }

  lemma WindowOf(d: DataEntry, b: nat) returns (from: nat, j: nat)
    requires b < d.ns
    ensures from <= d.ns && from % BLOCKS_PER_GROUP == 0 && j < WindowSize(d, from) && b == from + j
  {
    from, j := b / 64 * 64, b % 64;
  }

  lemma BlocksRestored(c: Codec, key: Bytes, d: DataEntry, iso: Bytes, image: Bytes)
    requires ValidPart(key, d, iso) && PartYields(c, key, d, iso, image) && PartInPhase(c, key, d, iso)
    ensures forall b: nat | b < d.ns :: DiscBlock(d, image, b) == DiscBlock(d, iso, b)
  {
    hide DiscBlock, Rebuilt, PartInPhase, Restored, Plains, WindowSize, ValidPart;
    assert (d.fs + d.ns) * BLOCK_TOTAL_SIZE <= |iso| == |image| by {
      SameRoom(c, key, d, iso, image);
      RegionInside(key, d, iso);
    }
    forall b: nat | b < d.ns
      ensures DiscBlock(d, image, b) == DiscBlock(d, iso, b)
    {
      var from, j := WindowOf(d, b);
      WindowRestored(c, key, d, iso, from);
      RestoredWindow(c, key, d, iso, from, j);
      assert DiscBlock(d, image, from + j) == Rebuilt(c, key, d, iso, from, j);
    }
  }

  lemma SamePhases(c: Codec, key: Bytes, d: DataEntry, iso: Bytes, image: Bytes)
    requires ValidPart(key, d, iso) && PartYields(c, key, d, iso, image)
    requires forall b: nat | b < d.ns :: DiscBlock(d, image, b) == DiscBlock(d, iso, b)
    ensures PartInPhase(c, key, d, iso)
  {
    hide DiscBlock, Rebuilt, RestoredBlock, Plains, ChunkInPhase, From, First;
    forall i: nat | i < d.ng
      ensures ChunkInPhase(c, key, d, iso, i)
    {
      ChunkBounds(key, d, iso, i);
      ChunkExactly(c, key, d, iso, i);
      var from, first := From(i), First(i);
      forall b: nat | b < ChunkBlocks(d, from, first)
        ensures ComesBack(c, key, d, iso, from, first, b)
      {
        assert DiscBlock(d, image, from + (first + b)) == Rebuilt(c, key, d, iso, from, first + b);
        RebuiltRestored(c, key, d, iso, from, first + b);
      }
    }
  }

  /** There is an image that holds what is rebuilt. */
  lemma PartImage(c: Codec, key: Bytes, d: DataEntry, iso: Bytes) returns (image: Bytes)
    requires ValidPart(key, d, iso)
    ensures PartYields(c, key, d, iso, image)
  {
    hide Rebuilt, DiscBlock;
    image := PartImageTo(c, key, d, iso, d.ns);
    forall from: nat, j: nat | from <= d.ns && from % BLOCKS_PER_GROUP == 0 && j < WindowSize(d, from)
      ensures DiscBlock(d, image, from + j) == Rebuilt(c, key, d, iso, from, j)
    {
      assert (from + j) / 64 * 64 == from && (from + j) % 64 == j;
      assert DiscBlock(d, image, from + j) == RebuiltAt(c, key, d, iso, from + j);
    }
  }

  ghost function RebuiltAt(c: Codec, key: Bytes, d: DataEntry, iso: Bytes, b: nat): (block: Bytes)
    requires ValidPart(key, d, iso) && b < d.ns
    ensures |block| == BLOCK_TOTAL_SIZE
  {
    Rebuilt(c, key, d, iso, b / 64 * 64, b % 64)
  }

  lemma {:induction false} PartImageTo(c: Codec, key: Bytes, d: DataEntry, iso: Bytes, n: nat) returns (image: Bytes)
    requires ValidPart(key, d, iso) && n <= d.ns
    ensures |image| == |iso| && forall b: nat | b < n :: DiscBlock(d, image, b) == RebuiltAt(c, key, d, iso, b)
  {
    hide RebuiltAt, WriteAt;
    if n == 0 {
      image := iso;
    } else {
      var before := PartImageTo(c, key, d, iso, n - 1);
      var at := (d.fs + n - 1) * BLOCK_TOTAL_SIZE;
      image := WriteAt(before, at, RebuiltAt(c, key, d, iso, n - 1));
      forall b: nat | b < n
        ensures DiscBlock(d, image, b) == RebuiltAt(c, key, d, iso, b)
      {
        var lo, hi := (d.fs + b) * BLOCK_TOTAL_SIZE, if b < n - 1 then (d.fs + b + 1) * BLOCK_TOTAL_SIZE else at;
        WrittenInside(before, at, RebuiltAt(c, key, d, iso, n - 1), lo, hi);
        if b < n - 1 {
          assert DiscBlock(d, image, b) == DiscBlock(d, before, b);
        }
      }
    }
  }
}
