/** The decoder that reads what it needs: whole containers, region by region. */
module Decoder {
  import opened Words
  import opened Results
  import opened Sizes
  import opened BigEndian
  import opened Format
  import opened Unpacking
  import opened Buffers
  import opened HashTree
  import opened Exceptions
  import opened Regions
  import opened Tables
  import opened Decoding
  import Sorting

  /** Where decoded stretches of the disc go. */
  class Sink {
    var log: seq<Write>

    constructor ()
      ensures log == []
    {
      log := [];
    }

    method Put(offset: nat, data: Bytes)
      modifies this
      ensures log == old(log) + [Write(offset, data)]
    {
      log := log + [Write(offset, data)];
    }

    method PutAll(output: seq<Write>)
      modifies this
      ensures log == old(log) + output
    {
      for i := 0 to |output|
        invariant log == old(log) + output[..i]
      {
        Put(output[i].offset, output[i].data);
      }
    }
  }

  /** How a run ended, as the caller sees it. */
  function Ended(failure: Option<Error>): Result<()> {
    match failure
    case None => Ok(())
    case Some(error) => Err(error)
  }

  /** A list put in front of what is still to come. */
  function Prefixed<T>(front: seq<T>, r: Result<seq<T>>): Result<seq<T>> {
    match r
    case Err(error) => Err(error)
    case Ok(rest) => Ok(front + rest)
  }

  lemma NothingPrefixed<T>(r: Result<seq<T>>)
    ensures Prefixed([], r) == r
  {
    if r.Ok? {
      assert [] + r.value == r.value;
    }
  }

  lemma PrefixedNext<T>(front: seq<T>, next: seq<T>, r: Result<seq<T>>)
    ensures Prefixed(front, Prefixed(next, r)) == Prefixed(front + next, r)
  {
    if r.Ok? {
      assert front + (next + r.value) == front + next + r.value;
    }
  }

  lemma PrefixedAll<T>(front: seq<T>)
    ensures Prefixed(front, Ok([])) == Ok(front)
  {
    assert front + [] == front;
  }

  // ---------- raw regions ----------

  /** A group's entry with the bytes read for it. */
  function WithBytes(g: GroupEntry, bytes: Bytes): Chunk {
    Chunk(g.size % FLAG, g.size >= FLAG, g.packedSize, bytes)
  }

  lemma FetchIs(file: Bytes, g: GroupEntry)
    ensures Fetch(file, g) == WithBytes(g, ReadAt(file, g.offset4 * 4, g.size % FLAG))
  {}

  /** Opens a stored chunk of a raw region. */
  method OpenRaw(c: Codec, bytes: Bytes, g: GroupEntry, expected: nat, offset: nat) returns (r: Result<Bytes>)
    ensures r == RawData(c, WithBytes(g, bytes), expected, offset)
  {
    var storedSize := g.size % FLAG;
    if storedSize != 0 {
      var decompressed :- if g.size >= FLAG then c.decompress(bytes) else Ok(bytes);
      if g.packedSize != 0 {
        r := Unpack(decompressed, expected, offset, g.packedSize);
      } else {
        if |decompressed| != expected {
          return Err(SizeMismatch);
        }
        r := Ok(decompressed);
      }
    } else {
      r := Ok(Zeroes(expected));
    }
  }

  lemma RawUnfolds(c: Codec, e: RawEntry, chunkSize: nat, chunks: seq<Chunk>, i: nat)
    requires i < e.groups
    ensures RawRun(c, e, chunkSize, chunks, i)
         == match RawStep(c, e, chunkSize, chunks, i)
            case Err(error) => Run([], Some(error))
            case Ok(w) => Then(Run([w], None), RawRun(c, e, chunkSize, chunks, i + 1))
  {
    hide RawStep;
  }

  lemma RawEnds(c: Codec, e: RawEntry, chunkSize: nat, chunks: seq<Chunk>)
    ensures RawRun(c, e, chunkSize, chunks, e.groups) == Run([], None)
  {}

  method DecompressRaw(c: Codec, raw: RawEntry, chunkSize: nat, groups: seq<GroupEntry>, file: Bytes, sink: Sink)
      returns (r: Result<()>)
    modifies sink
    ensures var run := RawRun(c, raw, chunkSize, FetchAll(file, groups), 0);
            sink.log == old(sink.log) + run.writes && r == Ended(run.failure)
  {
    hide RawRun, RawData, Fetch, Then;
    ghost var chunks := FetchAll(file, groups);
    ghost var run := RawRun(c, raw, chunkSize, chunks, 0);
    var skipped := raw.offset % BLOCK_TOTAL_SIZE;
    var logicalSize := raw.size + skipped;
    RawEnds(c, raw, chunkSize, chunks);
    for i := 0 to raw.groups
      invariant sink.log + RawRun(c, raw, chunkSize, chunks, i).writes == old(sink.log) + run.writes
      invariant RawRun(c, raw, chunkSize, chunks, i).failure == run.failure
    {
      RawUnfolds(c, raw, chunkSize, chunks, i);
      var groupLogicalOffset := i * chunkSize;
      if logicalSize < groupLogicalOffset {
        return Err(Panic);
      }
      var logicalOffset := raw.offset - skipped + groupLogicalOffset;
      var expected := Min(chunkSize, logicalSize - groupLogicalOffset);
      if expected == 0 || expected > chunkSize {
        return Err(SizeMismatch);
      }
      if raw.group + i >= |groups| {
        return Err(MissingGroup);
      }
      var group := groups[raw.group + i];
      var bytes := ReadAt(file, group.offset4 * 4, group.size % FLAG);
      assert Fetch(file, group) == WithBytes(group, bytes) by {
        FetchIs(file, group);
      }
      var chunk :- OpenRaw(c, bytes, group, expected, logicalOffset);
      ThenWrites(sink.log, Write(logicalOffset, chunk), RawRun(c, raw, chunkSize, chunks, i + 1));
      sink.Put(logicalOffset, chunk);
    }
    r := Ok(());
  }

  lemma ThenWrites(log: seq<Write>, w: Write, rest: Run)
    ensures log + Then(Run([w], None), rest).writes == log + [w] + rest.writes
    ensures Then(Run([w], None), rest).failure == rest.failure
  {}

  // ---------- partition regions ----------

  lemma ParseNext(list: Bytes, count: nat, blocks: nat, e: nat)
    requires e < count && 2 + EXCEPTION_SIZE * count <= |list|
    ensures ParseExceptions(list, count, blocks, e)
         == if !Storable(ExceptionAt(list, e), blocks) then Err(BadRecord)
            else Prefixed([ExceptionAt(list, e)], ParseExceptions(list, count, blocks, e + 1))
  {
    hide ExceptionAt, Storable;
  }

  lemma ParseEnd(list: Bytes, count: nat, blocks: nat)
    requires 2 + EXCEPTION_SIZE * count <= |list|
    ensures ParseExceptions(list, count, blocks, count) == Ok([])
  {}

  method ReadExceptions(list: Bytes, count: nat, blocks: nat) returns (r: Result<seq<Exception>>)
    requires 2 + EXCEPTION_SIZE * count <= |list|
    ensures r == ParseExceptions(list, count, blocks, 0)
  {
    hide ParseExceptions, Get16;
    var exceptions: seq<Exception> := [];
    NothingPrefixed(ParseExceptions(list, count, blocks, 0));
    for e := 0 to count
      invariant ParseExceptions(list, count, blocks, 0) == Prefixed(exceptions, ParseExceptions(list, count, blocks, e))
    {
      ParseNext(list, count, blocks, e);
      var o := 2 + e * EXCEPTION_SIZE;
      var offset := Get16(list, o);
      var inBlock := offset % BLOCK_HEADER_SIZE;
      if offset / BLOCK_HEADER_SIZE >= blocks || inBlock + 20 > BLOCK_HEADER_SIZE {
        return Err(BadRecord);
      }
      var found := Exception(offset, list[o + 2..o + EXCEPTION_SIZE]);
      PrefixedNext(exceptions, [found], ParseExceptions(list, count, blocks, e + 1));
      exceptions := exceptions + [found];
    }
    ParseEnd(list, count, blocks);
    PrefixedAll(exceptions);
    r := Ok(exceptions);
  }

  /** Opens a stored chunk of a partition: its exceptions, then its data. */
  method OpenPart(c: Codec, bytes: Bytes, g: GroupEntry, expected: nat, offset: nat) returns (r: Result<Content>)
    ensures r == PartContent(c, WithBytes(g, bytes), expected, offset)
  {
    hide Get16, ParseExceptions, Unpacked;
    var storedSize, compressedFlag := g.size % FLAG, g.size >= FLAG;
    if storedSize == 0 {
      return Ok(Content(Zeroes(expected), []));
    }
    var decompressed :- if compressedFlag then c.decompress(bytes) else Ok(bytes);
    if |decompressed| < 2 {
      return Err(BadRecord);
    }
    var count := Get16(decompressed, 0);
    var listSize := if compressedFlag then 2 + count * EXCEPTION_SIZE else Align4(2 + count * EXCEPTION_SIZE);
    var packedSize := g.packedSize;
    if listSize + packedSize > |decompressed| {
      return Err(BadRecord);
    }
    var hashStripped: Bytes;
    if packedSize > 0 {
      hashStripped :- Unpack(decompressed[listSize..listSize + packedSize], expected, offset, packedSize);
    } else {
      if listSize + expected > |decompressed| {
        return Err(Panic);
      }
      hashStripped := decompressed[listSize..listSize + expected];
    }
    var exceptions :- ReadExceptions(decompressed, count, expected / BLOCK_DATA_SIZE);
    r := Ok(Content(hashStripped, exceptions));
  }

  lemma PlacedNone(blocks: Slots, first: nat, data: Bytes)
    requires ValidSlots(blocks)
    ensures Placed(blocks, first, data, 0) == blocks
  {}

  lemma PlacedNext(blocks: Slots, first: nat, data: Bytes, b: nat)
    requires ValidSlots(blocks) && (b + 1) * BLOCK_DATA_SIZE <= |data|
    ensures Placed(blocks, first, data, b + 1)
         == Placed(blocks, first, data, b)[(first + b) % BLOCKS_PER_GROUP :=
                                             Some(data[b * BLOCK_DATA_SIZE..(b + 1) * BLOCK_DATA_SIZE])]
  {}

  lemma FinalizedNext(c: Codec, key: Bytes, blocks: Slots, ex: Filing, n: nat, encrypt: bool, j: nat)
    requires ValidSlots(blocks) && ValidFiling(ex) && j < n <= BLOCKS_PER_GROUP
    ensures Finalized(c, key, blocks, ex, n, encrypt, j)
         == if blocks[j].None? then Err(MissingGroup)
            else Prefixed(BlockOut(c, key, PatchedHeader(c, blocks, ex, j), blocks[j].value, encrypt),
                          Finalized(c, key, blocks, ex, n, encrypt, j + 1))
  {
    hide BlockOut, PatchedHeader;
  }

  lemma FinalizedEnd(c: Codec, key: Bytes, blocks: Slots, ex: Filing, n: nat, encrypt: bool)
    requires ValidSlots(blocks) && ValidFiling(ex) && n <= BLOCKS_PER_GROUP
    ensures Finalized(c, key, blocks, ex, n, encrypt, n) == Ok([])
  {}

  /** Puts a block's exceptions on its recomputed header, in order. */
  method PatchHeader(header: array<Byte>, patches: seq<Patch>)
    requires header.Length == BLOCK_HEADER_SIZE && AllFit(patches)
    modifies header
    ensures header[..] == Patched(old(header[..]), patches)
  {
    hide Patch1;
    assert patches[0..] == patches;
    for i := 0 to |patches|
      invariant Patched(header[..], patches[i..]) == Patched(old(header[..]), patches)
    {
      assert patches[i..][0] == patches[i] && patches[i..][1..] == patches[i + 1..];
      assert Fits(patches[i]);
      ghost var before := header[..];
      Put(header, patches[i].slot, patches[i].hash);
      assert header[..] == before[..patches[i].slot] + patches[i].hash + before[patches[i].slot + |patches[i].hash|..];
      Patch1Is(before, patches[i]);
    }
  }

  lemma Patch1Is(header: Bytes, p: Patch)
    requires |header| == BLOCK_HEADER_SIZE && Fits(p)
    ensures Patch1(header, p) == header[..p.slot] + p.hash + header[p.slot + |p.hash|..]
  {}

  /** A block, encrypted unless that is left to the caller. */
  method PutOut(c: Codec, key: Bytes, hashBlock: Bytes, data: Bytes, encrypt: bool) returns (block: Bytes)
    requires |hashBlock| == BLOCK_HEADER_SIZE && |data| == BLOCK_DATA_SIZE
    ensures block == BlockOut(c, key, hashBlock, data, encrypt)
  {
    var hashCipher := c.encrypt(key, Zeroes(16), hashBlock);
    var iv := hashCipher[0x3d0..0x3e0];
    if encrypt {
      var dataCipher := c.encrypt(key, iv, data);
      block := hashCipher + dataCipher;
    } else {
      block := hashBlock + data;
    }
  }

  /** What is kept of a partition's current group, in buffers that are filled in place. */
  class GroupBuffers {
    const blocks: array<Option<Bytes>>
    const ex: array<seq<Patch>>
    const h0s: array<Byte>
    const h1: array<Byte>
    const h2: array<Byte>
    var blockIndex: nat
    var start: nat

    ghost function Repr(): set<object> {
      {this, blocks, ex, h0s, h1, h2}
    }

    ghost function State(): Group
      reads this, blocks, ex
    {
      Group(blockIndex, start, blocks[..], ex[..])
    }

    ghost predicate Valid()
      reads this, blocks, ex
    {
      && ValidGroup(State())
      && h0s.Length == BLOCKS_PER_GROUP * H0_ARRAY_SIZE && h1.Length == 8 * H1_ARRAY_SIZE && h2.Length == 8 * 20
      && h0s != h1 && h0s != h2 && h1 != h2
    }

    constructor ()
      ensures Valid() && fresh(Repr()) && State() == NewGroup(0)
    {
      blocks := new Option<Bytes>[BLOCKS_PER_GROUP](_ => None);
      ex := new seq<Patch>[BLOCKS_PER_GROUP](_ => []);
      h0s := new Byte[BLOCKS_PER_GROUP * H0_ARRAY_SIZE](_ => 0);
      h1 := new Byte[8 * H1_ARRAY_SIZE](_ => 0);
      h2 := new Byte[8 * 20](_ => 0);
      blockIndex := 0;
      start := 0;
      new;
      assert blocks[..] == NoBlocks() && ex[..] == NoPatches();
    }

    method PlaceBlocks(data: Bytes)
      requires Valid()
      modifies blocks
      ensures Valid()
      ensures blocks[..] == Placed(old(blocks[..]), blockIndex, data, |data| / BLOCK_DATA_SIZE)
    {
      hide ValidFiling;
      ghost var before := blocks[..];
      var blocksInChunk := |data| / BLOCK_DATA_SIZE;
      PlacedNone(before, blockIndex, data);
      for b := 0 to blocksInChunk
        invariant ValidSlots(before) && blocks[..] == Placed(before, blockIndex, data, b)
        invariant blocks.Length == BLOCKS_PER_GROUP
      {
        PlacedNext(before, blockIndex, data, b);
        blocks[(blockIndex + b) % BLOCKS_PER_GROUP] := Some(data[b * BLOCK_DATA_SIZE..(b + 1) * BLOCK_DATA_SIZE]);
      }
    }

    method FileExceptions(es: seq<Exception>)
      requires Valid() && AllPatchable(es)
      modifies ex
      ensures Valid()
      ensures ex[..] == Filed(old(ex[..]), blockIndex, es)
    {
      hide ValidSlots, Fits, AllFit;
      ghost var before := ex[..];
      assert es[0..] == es;
      for e := 0 to |es|
        invariant ex.Length == BLOCKS_PER_GROUP && ValidFiling(ex[..])
        invariant Filed(ex[..], blockIndex, es[e..]) == Filed(before, blockIndex, es)
      {
        assert es[e..][0] == es[e] && es[e..][1..] == es[e + 1..];
        ghost var now := ex[..];
        var g := (blockIndex + es[e].offset / BLOCK_HEADER_SIZE) % BLOCKS_PER_GROUP;
        ex[g] := ex[g] + [Patch(es[e].offset % BLOCK_HEADER_SIZE, es[e].hash)];
        assert ex[..] == FiledOne(now, blockIndex, es[e]);
      }
    }

    /** Rebuilds the first `n` blocks of the group. */
    method Finalize(c: Codec, key: Bytes, n: nat, encrypt: bool) returns (r: Result<Bytes>)
      requires Valid() && n <= BLOCKS_PER_GROUP
      modifies h0s, h1, h2
      ensures Valid() && r == Finalized(c, key, blocks[..], ex[..], n, encrypt, 0)
    {
      hide HashHeader, H0Arrays, H1Arrays, H2, BlockOut, Finalized, Patched, Fits;
      FinalizedEnd(c, key, blocks[..], ex[..], n, encrypt);
      ghost var slots, patches := blocks[..], ex[..];
      FillH0(c, blocks[..], h0s);
      FillH1H2(c, blocks[..], h0s, h1, h2);
      var output: Bytes := [];
      NothingPrefixed(Finalized(c, key, slots, patches, n, encrypt, 0));
      for j := 0 to n
        invariant h0s[..] == H0Arrays(c, slots, BLOCKS_PER_GROUP)
        invariant h1[..8 * H1_ARRAY_SIZE] == H1Arrays(c, slots, 8) && h2[..] == H2(c, slots, 8)
        invariant Finalized(c, key, slots, patches, n, encrypt, 0)
               == Prefixed(output, Finalized(c, key, slots, patches, n, encrypt, j))
      {
        FinalizedNext(c, key, slots, patches, n, encrypt, j);
        assert AllFit(patches[j]);
        var hashBlock := HashBlock(c, slots, h0s, h1, h2, j);
        PatchHeader(hashBlock, ex[j]);
        if blocks[j].None? {
          return Err(MissingGroup);
        }
        assert |slots[j].value| == BLOCK_DATA_SIZE;
        var block := PutOut(c, key, hashBlock[..], blocks[j].value, encrypt);
        PrefixedNext(output, block, Finalized(c, key, slots, patches, n, encrypt, j + 1));
        output := output + block;
      }
      PrefixedAll(output);
      r := Ok(output);
    }

    method Clear()
      requires Valid()
      modifies this, blocks, ex
      ensures Valid() && State() == NewGroup(old(blockIndex))
    {
      forall j | 0 <= j < BLOCKS_PER_GROUP {
        blocks[j] := None;
      }
      forall j | 0 <= j < BLOCKS_PER_GROUP {
        ex[j] := [];
      }
      start := blockIndex;
      assert blocks[..] == NoBlocks() && ex[..] == NoPatches();
    }

    /** Takes in an opened chunk. */
    method AddChunk(content: Content)
      requires Valid() && AllStorable(content.exceptions, |content.data| / BLOCK_DATA_SIZE)
      modifies this, blocks, ex
      ensures Valid() && State() == WithChunk(old(State()), content)
    {
      hide Placed, Filed, ValidSlots, ValidFiling, AllPatchable;
      StorablePatches(content.exceptions, |content.data| / BLOCK_DATA_SIZE);
      PlaceBlocks(content.data);
      FileExceptions(content.exceptions);
      blockIndex := blockIndex + |content.data| / BLOCK_DATA_SIZE;
    }

    /** At the end of a group, or of the region, puts out what there is. */
    method Flush(c: Codec, key: Bytes, base: nat, last: bool, encrypt: bool) returns (r: Result<seq<Write>>)
      requires Valid()
      modifies Repr()
      ensures Valid()
      ensures match Flushed(c, key, base, old(State()), last, encrypt)
              case Err(error) => r == Err(error)
              case Ok(s) => r == Ok(s.writes) && State() == s.group
    {
      hide Finalized;
      var output: seq<Write> := [];
      ghost var before := State();
      if blockIndex % BLOCKS_PER_GROUP == 0 || last {
        var blocksInThisGroup := Min(BLOCKS_PER_GROUP, blockIndex - start);
        if blocksInThisGroup > 0 {
          var data :- Finalize(c, key, blocksInThisGroup, encrypt);
          output := [Write(base + start * BLOCK_TOTAL_SIZE, data)];
        }
        Clear();
      }
      r := Ok(output);
    }
  }

  /** One chunk of a partition region, read, opened and taken in. */
  method DecompressChunk(c: Codec, key: Bytes, d: DataEntry, chunkSize: nat, groups: seq<GroupEntry>, file: Bytes,
      i: nat, buffers: GroupBuffers) returns (r: Result<seq<Write>>)
    requires buffers.Valid()
    modifies buffers.Repr()
    ensures buffers.Valid()
    ensures match PartStep(c, key, d, chunkSize, FetchAll(file, groups), i, old(buffers.State()), true)
            case Err(error) => r == Err(error)
            case Ok(s) => r == Ok(s.writes) && buffers.State() == s.group
  {
    hide PartContent, Flushed, WithChunk, Fetch, ValidGroup;
    var partChunkSize := chunkSize * BLOCK_DATA_SIZE / BLOCK_TOTAL_SIZE;
    var dataSize := d.ns * BLOCK_DATA_SIZE;
    if d.gi + i >= |groups| {
      return Err(MissingGroup);
    }
    var group := groups[d.gi + i];
    if dataSize < i * partChunkSize {
      return Err(Panic);
    }
    var expected := Min(partChunkSize, dataSize - i * partChunkSize);
    if expected == 0 || expected > partChunkSize {
      return Err(SizeMismatch);
    }
    var bytes := ReadAt(file, group.offset4 * 4, group.size % FLAG);
    FetchIs(file, group);
    var content :- OpenPart(c, bytes, group, expected, i * partChunkSize);
    buffers.AddChunk(content);
    r := buffers.Flush(c, key, d.fs * BLOCK_TOTAL_SIZE, i + 1 == d.ng, true);
  }

  method DecompressPartition(c: Codec, key: Bytes, d: DataEntry, chunkSize: nat, groups: seq<GroupEntry>, file: Bytes,
      sink: Sink) returns (r: Result<()>)
    modifies sink
    ensures var run := RegionRun(c, chunkSize, FetchAll(file, groups), Part(key, d), true);
            sink.log == old(sink.log) + run.writes && r == Ended(run.failure)
  {
    hide PartRun, PartStep, ValidGroup;
    if d.ns == 0 {
      return Ok(());
    }
    ghost var chunks := FetchAll(file, groups);
    ghost var run := PartRun(c, key, d, chunkSize, chunks, 0, NewGroup(0), true);
    var buffers := new GroupBuffers();
    for i := 0 to d.ng
      invariant buffers.Valid() && fresh(buffers.Repr())
      invariant sink.log + PartRun(c, key, d, chunkSize, chunks, i, buffers.State(), true).writes
           == old(sink.log) + run.writes
      invariant PartRun(c, key, d, chunkSize, chunks, i, buffers.State(), true).failure == run.failure
    {
      ghost var before := buffers.State();
      PartUnfolds(c, key, d, chunkSize, chunks, i, before, true);
      var output :- DecompressChunk(c, key, d, chunkSize, groups, file, i, buffers);
      sink.PutAll(output);
    }
    PartEnds(c, key, d, chunkSize, chunks, buffers.State(), true);
    r := Ok(());
  }

  // ---------- whole containers ----------

  method ParseParts(table: Bytes, count: nat, size: nat) returns (r: Result<seq<Partition>>)
    ensures r == PartitionsOf(table, count, size)
  {
    hide PartitionAt;
    if size < PART_ENTRY_SIZE {
      return Err(BadPartitionTable);
    }
    var parts: seq<Partition> := [];
    NothingPrefixed(PartitionsFrom(table, count, size, 0));
    for p := 0 to count
      invariant PartitionsFrom(table, count, size, 0) == Prefixed(parts, PartitionsFrom(table, count, size, p))
    {
      PartitionsNext(table, count, size, p);
      if p * size + PART_ENTRY_SIZE > |table| {
        return Err(Panic);
      }
      var part := PartitionAt(table, p * size);
      PrefixedNext(parts, [part], PartitionsFrom(table, count, size, p + 1));
      parts := parts + [part];
    }
    PrefixedAll(parts);
    r := Ok(parts);
  }

  lemma PartitionsNext(table: Bytes, count: nat, size: nat, p: nat)
    requires p < count
    ensures PartitionsFrom(table, count, size, p)
         == if p * size + PART_ENTRY_SIZE > |table| then Err(Panic)
            else Prefixed([PartitionAt(table, p * size)], PartitionsFrom(table, count, size, p + 1))
  {
    hide PartitionAt;
  }

  /** Reads a table and inflates it, unless it already has the expected length. */
  method DecompressTable(c: Codec, file: Bytes, offset: nat, size: nat, expected: nat) returns (r: Result<Bytes>)
    ensures r == TableBytes(c, ReadAt(file, offset, size), expected)
  {
    var table := ReadAt(file, offset, size);
    if |table| != expected {
      var out :- c.decompress(table);
      if |out| != expected {
        return Err(SizeMismatch);
      }
      return Ok(out);
    }
    r := Ok(table);
  }

  method ReadRawEntries(table: Bytes, count: nat) returns (entries: seq<RawEntry>)
    requires |table| == count * RAW_ENTRY_SIZE
    ensures entries == RawEntriesOf(table, count)
  {
    hide RawEntryAt;
    entries := [];
    for i := 0 to count
      invariant entries == RawEntriesOf(table, count)[..i]
    {
      entries := entries + [RawEntryAt(table, i * RAW_ENTRY_SIZE)];
    }
  }

  method ReadGroupEntries(table: Bytes, count: nat) returns (entries: seq<GroupEntry>)
    requires |table| == count * GROUP_ENTRY_SIZE
    ensures entries == GroupEntriesOf(table, count)
  {
    hide GroupEntryAt;
    entries := [];
    for i := 0 to count
      invariant entries == GroupEntriesOf(table, count)[..i]
    {
      entries := entries + [GroupEntryAt(table, i * GROUP_ENTRY_SIZE)];
    }
  }

  /** Gathers the regions, partitions first, and sorts them by where they start. */
  method BuildRegions(parts: seq<Partition>, raws: seq<RawEntry>) returns (regions: seq<Region>)
    ensures regions == Sorting.Sorted(Start, PartRegions(parts) + RawRegions(raws))
  {
    hide StretchesOf;
    regions := [];
    assert parts[0..] == parts;
    for p := 0 to |parts|
      invariant regions + PartRegions(parts[p..]) == PartRegions(parts)
    {
      assert parts[p..][0] == parts[p] && parts[p..][1..] == parts[p + 1..];
      regions := regions + StretchesOf(parts[p]);
    }
    for i := 0 to |raws|
      invariant regions == PartRegions(parts) + RawRegions(raws)[..i]
    {
      regions := regions + [Raw(raws[i])];
    }
    assert RawRegions(raws)[..|raws|] == RawRegions(raws);
    regions := Sorting.Sorted(Start, regions);
  }

  method ReadContents(c: Codec, file: Bytes) returns (r: Result<Contents>)
    ensures r == ContentsOf(c, file)
  {
    hide Get32, Get64, HeaderAt, TableBytes, PartitionsOf, RawEntriesOf, GroupEntriesOf;
    var part1 := ReadAt(file, 0, HEADER_1_SIZE);
    if !HasMagic(part1) {
      return Err(NotRvz);
    }
    var header2Size := Get32(part1, 0x0c);
    if header2Size < HEADER_2_SIZE || |file| < HEADER_1_SIZE + header2Size {
      return Err(BadHeader);
    }
    var bytes := ReadAt(file, 0, HEADER_1_SIZE + header2Size);
    var header :- ParseHeaderMin(bytes, |file|);
    var parts: seq<Partition> := [];
    if header.partCount > 0 {
      var (partOffset, partEntrySize) := PartTableInfo(bytes);
      parts :- ParseParts(ReadAt(file, partOffset, TableLength(header.partCount, partEntrySize)), header.partCount,
          partEntrySize);
    }
    if header.compression != ZSTD {
      return Err(UnsupportedCompression);
    }
    var rawBytes :- DecompressTable(c, file, header.rawOffset, header.rawSize, header.rawCount * RAW_ENTRY_SIZE);
    var groupBytes :-
        DecompressTable(c, file, header.groupOffset, header.groupSize, header.groupCount * GROUP_ENTRY_SIZE);
    var raws := ReadRawEntries(rawBytes, header.rawCount);
    var groups := ReadGroupEntries(groupBytes, header.groupCount);
    r := Ok(Contents(header, parts, raws, groups));
  }

  method DecompressRegion(c: Codec, t: Contents, region: Region, file: Bytes, sink: Sink) returns (r: Result<()>)
    modifies sink
    ensures var run := RegionRun(c, t.header.chunkSize, FetchAll(file, t.groups), region, true);
            sink.log == old(sink.log) + run.writes && r == Ended(run.failure)
  {
    hide PartRun, RawRun, FetchAll;
    match region
    case Part(key, d) => r := DecompressPartition(c, key, d, t.header.chunkSize, t.groups, file, sink);
    case Raw(raw) => r := DecompressRaw(c, raw, t.header.chunkSize, t.groups, file, sink);
  }

  lemma RegionsUnfold(c: Codec, chunkSize: nat, chunks: seq<Chunk>, rs: seq<Region>, i: nat)
    requires i < |rs|
    ensures RegionsRun(c, chunkSize, chunks, rs[i..], true)
         == Then(RegionRun(c, chunkSize, chunks, rs[i], true), RegionsRun(c, chunkSize, chunks, rs[i + 1..], true))
  {
    hide RegionRun;
    assert rs[i..][0] == rs[i] && rs[i..][1..] == rs[i + 1..];
  }

  lemma RegionsEnd(c: Codec, chunkSize: nat, chunks: seq<Chunk>)
    ensures RegionsRun(c, chunkSize, chunks, [], true) == Run([], None)
  {}

  /** Expands a container into `sink`; returns the size of the disc. */
  method DecompressRvz(c: Codec, file: Bytes, sink: Sink) returns (r: Result<nat>)
    modifies sink
    ensures var run := Decoded(c, file);
            && sink.log == old(sink.log) + run.writes
            && r == match run.failure
                    case Some(error) => Err(error)
                    case None => Ok(ContentsOf(c, file).value.header.isoSize)
  {
    hide ContentsOf, RegionRun, RegionsRun, FetchAll, PartRegions, RawRegions;
    var t :- ReadContents(c, file);
    var regions := BuildRegions(t.parts, t.raws);
    ghost var chunks := FetchAll(file, t.groups);
    ghost var run := RegionsRun(c, t.header.chunkSize, chunks, regions, true);
    assert regions[0..] == regions;
    for i := 0 to |regions|
      invariant sink.log + RegionsRun(c, t.header.chunkSize, chunks, regions[i..], true).writes
           == old(sink.log) + run.writes
      invariant RegionsRun(c, t.header.chunkSize, chunks, regions[i..], true).failure == run.failure
    {
      RegionsUnfold(c, t.header.chunkSize, chunks, regions, i);
      var _ :- DecompressRegion(c, t, regions[i], file, sink);
    }
    assert regions[|regions|..] == [];
    RegionsEnd(c, t.header.chunkSize, chunks);
    r := Ok(t.header.isoSize);
  }
}
