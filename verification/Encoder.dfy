/** The encoder: one pass over a disc image, chunk by chunk, into a container. */
module Encoder {
  import opened Results
  import opened Sizes
  import opened BigEndian
  import opened Format
  import opened Packing
  import opened HashTree
  import opened Regions
  import opened Container
  import opened Chunking
  import opened PartRoundTrip
  import opened Planning
  import opened Streaming
  import opened Reporting
  import opened EndToEnd
  import opened ChunkBuilder
  import Discovery
  import Sorting

  // ---------- finding partitions ----------

  method ReadTable(iso: Bytes, header: Bytes, g: nat, candidates: seq<Candidate>) returns (all: seq<Candidate>)
    requires |header| >= 0x20 && g < 4
    ensures all == candidates + TableEntries(iso, header, g)
  {
    hide Get32, EntriesFrom;
    all := candidates;
    var count := Get32(header, g * 8);
    if count == 0 {
      return;
    }
    var tableOffset := Get32(header, g * 8 + 4) * 4;
    if tableOffset + count * 8 > |iso| {
      return;
    }
    var table := ReadAt(iso, tableOffset, count * 8);
    for i := 0 to count
      invariant all + EntriesFrom(iso, table, count, i) == candidates + EntriesFrom(iso, table, count, 0)
    {
      var offset, ptype := Get32(table, i * 8) * 4, Get32(table, i * 8 + 4);
      EntriesNext(iso, table, count, i);
      if offset < |iso| {
        all := all + [Candidate(offset, ptype)];
      }
    }
    EntriesNone(iso, table, count);
  }

  lemma EntriesNext(iso: Bytes, table: Bytes, count: nat, i: nat)
    requires i < count && count * 8 <= |table|
    ensures EntriesFrom(iso, table, count, i)
         == (if Get32(table, i * 8) * 4 < |iso| then
               [Candidate(Get32(table, i * 8) * 4, Get32(table, i * 8 + 4))]
             else [])
          + EntriesFrom(iso, table, count, i + 1)
  {
    hide Get32;
  }

  lemma EntriesNone(iso: Bytes, table: Bytes, count: nat)
    requires count * 8 <= |table|
    ensures EntriesFrom(iso, table, count, count) == []
  {}

  /** Reads the four partition tables; the candidates come sorted by where they start. */
  method DetectPartitions(iso: Bytes) returns (candidates: seq<Candidate>)
    ensures candidates == Candidates(iso)
    ensures forall x :: x in candidates <==> exists g: nat, i: nat :: Discovery.Names(iso, g, i, x)
  {
    hide TableEntries, Get32, Discovery.Names;
    forall x: Candidate
      ensures x in Candidates(iso) <==> exists g: nat, i: nat :: Discovery.Names(iso, g, i, x)
    {
      Discovery.FoundAsNamed(iso, x);
    }
    candidates := [];
    if |iso| < PARTITION_TABLE_OFFSET + 0x20 {
      return;
    }
    var header := ReadAt(iso, PARTITION_TABLE_OFFSET, 0x20);
    for g := 0 to 4
      invariant candidates + TablesFrom(iso, header, g) == TablesFrom(iso, header, 0)
    {
      candidates := ReadTable(iso, header, g, candidates);
    }
    assert TablesFrom(iso, header, 4) == [];
    assert candidates == TablesFrom(iso, header, 0);
    candidates := Sorting.Sorted(OffsetKey, candidates);
  }

  /** The checks on a partition, and whether they read a header. */
  method SetUpPartition(c: Codec, iso: Bytes, offset: nat)
      returns (r: Result<Option<ValidPartition>>, ghost headerRead: bool)
    ensures r == SetUp(c, iso, offset) && headerRead == HeaderFits(iso, offset)
  {
    hide Get32, PlainData, TitleKey;
    headerRead := false;
    if offset + PARTITION_HEADER_SIZE > |iso| {
      return Ok(None), headerRead;
    }
    var buf := ReadAt(iso, offset, PARTITION_HEADER_SIZE);
    headerRead := true;
    if Get32(buf, 0) != PARTITION_MAGIC {
      return Ok(None), headerRead;
    }
    var dataOffset, dataSize := Get32(buf, 0x2b8) * 4, Get32(buf, 0x2bc) * 4;
    var dataStart := offset + dataOffset;
    if dataStart % BLOCK_TOTAL_SIZE != 0 || dataSize < BLOCK_TOTAL_SIZE {
      return Ok(None), headerRead;
    }
    if dataStart + dataSize > |iso| {
      if dataStart > |iso| {
        return Err(Panic), headerRead;
      }
      dataSize := |iso| - dataStart;
    }
    if dataSize < BLOCK_TOTAL_SIZE {
      return Ok(None), headerRead;
    }
    var titleKey := TitleKey(c, buf);
    var block0 := ReadAt(iso, dataStart, BLOCK_TOTAL_SIZE);
    var plain := PlainData(c, titleKey, block0);
    var fstOffset, fstSize := Get32(plain, 0x424) * 4, Get32(plain, 0x428) * 4;
    r := Ok(Some(ValidPartition(offset, titleKey, dataOffset % U32, dataStart, dataSize, fstOffset, fstSize)));
  }

  // ---------- the pass ----------

  /** A group as the encoder notes it down: the quarter of its position, its size, and how it is stored. */
  datatype StoredGroup = StoredGroup(offset4: nat, size: nat, packed: nat, compressed: bool)

  function EntryOf(g: StoredGroup): GroupEntry {
    GroupEntry(g.offset4, g.size + (if g.compressed then FLAG else 0), g.packed)
  }

  predicate Noted(groups: seq<StoredGroup>, chunks: seq<Chunk>) {
    |groups| == |chunks| && forall k | 0 <= k < |chunks| ::
      EntryOf(groups[k]) == EntryFor(chunks[k], Position(chunks, k))
  }

  lemma {:induction false} BodyOfMore(chunks: seq<Chunk>, chunk: Chunk, n: nat)
    requires n <= |chunks|
    ensures Body(chunks + [chunk], n) == Body(chunks, n)
  {
    hide Padded;
    if n > 0 {
      BodyOfMore(chunks, chunk, n - 1);
    }
  }

  lemma NotedMore(groups: seq<StoredGroup>, chunks: seq<Chunk>, g: StoredGroup, chunk: Chunk)
    requires Noted(groups, chunks) && EntryOf(g) == EntryFor(chunk, Position(chunks, |chunks|))
    ensures Noted(groups + [g], chunks + [chunk])
  {
    hide EntryFor, EntryOf, Position;
    var all, entries := chunks + [chunk], groups + [g];
    forall k: nat | k < |all|
      ensures EntryOf(entries[k]) == EntryFor(all[k], Position(all, k))
    {
      PositionOfMore(chunks, chunk, k);
      if k < |chunks| {
        assert entries[k] == groups[k] && all[k] == chunks[k];
      }
    }
  }

  lemma PositionOfMore(chunks: seq<Chunk>, chunk: Chunk, n: nat)
    requires n <= |chunks|
    ensures Position(chunks + [chunk], n) == Position(chunks, n)
  {
    BodyOfMore(chunks, chunk, n);
  }

  lemma BodyNext(chunks: seq<Chunk>, chunk: Chunk)
    ensures Body(chunks + [chunk], |chunks| + 1) == Body(chunks, |chunks|) + Padded(chunk.bytes)
  {
    hide Padded;
    BodyOfMore(chunks, chunk, |chunks|);
  }

  class Encoder {
    const c: Codec
    const iso: Bytes
    // The container under construction.
    var file: Bytes
    var pos: nat
    var groupEntries: seq<StoredGroup>
    // What has been planned of it, and how far the pass has come.
    var rawEntries: seq<RawEntry>
    var partitionEntries: seq<Partition>
    var groupIndex: nat
    var bytesDone: nat
    var lastEnd: nat
    ghost var chunks: seq<Chunk>
    ghost var plan: Plan
    ghost var trace: seq<Event>

    constructor (c: Codec, iso: Bytes)
      ensures this.c == c && this.iso == iso
      ensures Valid() && plan == NOTHING && trace == [] && chunks == []
    {
      this.c, this.iso := c, iso;
      file, pos := Zeroes(HEADER_AREA_SIZE), HEADER_AREA_SIZE;
      groupEntries, rawEntries, partitionEntries := [], [], [];
      groupIndex, bytesDone, lastEnd := 0, 0, 0;
      chunks, plan, trace := [], NOTHING, [];
      new;
      NothingSound(iso);
    }

    /** The chunks handed on so far lie in the file, one after another, and are noted. */
    ghost predicate Written()
      reads `file, `pos, `groupEntries, `chunks
    {
      file == Zeroes(HEADER_AREA_SIZE) + Body(chunks, |chunks|) && pos == |file| && Noted(groupEntries, chunks)
    }

    /** The entries are those of the plan, and its groups are the chunks handed on. */
    ghost predicate Planned()
      reads `rawEntries, `partitionEntries, `groupIndex, `lastEnd, `chunks, `plan
    {
      && Sound(plan, iso) && rawEntries == plan.raws && partitionEntries == plan.parts && groupIndex == plan.groups
      && lastEnd == plan.lastEnd && chunks == OrderChunks(c, iso, plan.order)
    }

    ghost predicate Valid()
      reads this
    {
      Written() && Planned() && Told(trace, plan.order) && Progress(trace, bytesDone) && Counted()
    }

    /** What was told of each chunk, and that as many bytes are done as the plan has. */
    ghost predicate Counted()
      reads `trace, `bytesDone, `plan
    {
      Deliveries(trace) == OrderEvents(plan.order) && bytesDone == Spans(plan.order)
    }

    /** Adds bytes at the end of the file, and zeroes up to a multiple of four. */
    method AppendPadded(stored: Bytes)
      requires pos == |file| && pos % 4 == 0
      modifies this`file, this`pos
      ensures file == old(file) + Padded(stored) && pos == |file|
    {
      hide WriteAt;
      file := WriteAt(file, pos, stored);
      pos := pos + |stored|;
      var pad := (4 - pos % 4) % 4;
      PadOfSum(|old(file)|, |stored|);
      if pad > 0 {
        file := WriteAt(file, pos, Zeroes(4)[..pad]);
        pos := pos + pad;
      }
      assert Zeroes(4)[..pad] == Zeroes(pad);
    }

    /** Puts a chunk into the file, padded to four bytes, and notes it down. */
    method OnChunk(stored: Bytes, packed: nat, compressed: bool, ghost start: nat, ghost end: nat)
      requires Written() && Progress(trace, bytesDone)
      modifies this`file, this`pos, this`groupEntries, this`chunks, this`trace
      ensures Written() && Progress(trace, bytesDone)
      ensures chunks == old(chunks) + [Chunk(|stored|, compressed, packed, stored)]
      ensures trace == old(trace) + [Delivered(start, end, bytesDone)]
    {
      hide Body, Position, Progress, Noted, Padded;
      ghost var chunk := Chunk(|stored|, compressed, packed, stored);
      ghost var body := Body(chunks, |chunks|);
      PositionIs(chunks);
      var off4 := pos / 4 % U32;
      AppendPadded(stored);
      assert file == Zeroes(HEADER_AREA_SIZE) + (body + Padded(stored));
      BodyNext(chunks, chunk);
      NotedMore(groupEntries, chunks, StoredGroup(off4, |stored|, packed, compressed), chunk);
      ProgressOn(trace, bytesDone, Delivered(start, end, bytesDone), bytesDone);
      groupEntries := groupEntries + [StoredGroup(off4, |stored|, packed, compressed)];
      chunks := chunks + [chunk];
      trace := trace + [Delivered(start, end, bytesDone)];
    }

    /** The chunks of one raw region. */
    method DeliverRaw(e: RawEntry)
      requires Written() && Progress(trace, bytesDone) && ValidRaw(e, iso)
      modifies this`file, this`pos, this`groupEntries, this`chunks, this`trace, this`bytesDone
      ensures Written() && Progress(trace, bytesDone)
      ensures chunks == old(chunks) + RegionChunks(c, iso, Raw(e))
      ensures Reported(old(trace), trace, Start(Raw(e)), End(Raw(e)), RegionEvents(Raw(e), old(bytesDone)))
      ensures bytesDone == old(bytesDone) + Span(Raw(e))
    {
      hide Written, Progress, ValidRaw, Reported, StoreRaw, AlignDown, PackedChunk, RawEvent;
      ghost var mine, events := RegionChunks(c, iso, Raw(e)), RegionEvents(Raw(e), bytesDone);
      assert events[..0] == [];
      var spanStart, spanEnd := AlignDown(e.offset, BLOCK_TOTAL_SIZE), e.offset + e.size;
      ReportedNone(trace, spanStart);
      GroupsExist(Raw(e), iso);
      assert mine[..0] == [];
      ghost var reached: nat := spanStart;
      for i := 0 to e.groups
        invariant Written() && Progress(trace, bytesDone)
        invariant chunks == old(chunks) + mine[..i]
        invariant Reported(old(trace), trace, spanStart, reached, events[..i])
        invariant bytesDone == old(bytesDone) + (reached - spanStart)
        invariant spanStart <= reached == if i == e.groups then spanEnd else RawStart(e, i)
      {
        RawBounds(e, iso, i);
        var start := spanStart + i * CHUNK_SIZE;
        var end := Min(spanEnd, start + CHUNK_SIZE);
        var len := end - start;
        if len == 0 {
          // Only a region without bytes would get here.
          assert false;
          break;
        }
        var data := ReadAt(iso, start, len);
        var stored, packedSize, isCompressed := BuildRawChunk(c, data, start);
        bytesDone := bytesDone + len;
        ProgressLater(trace, bytesDone - len, bytesDone);
        ReportedNext(old(trace), trace, spanStart, start, end, events[..i], bytesDone);
        OnChunk(stored, packedSize, isCompressed, start, end);
        RawTold(e, iso, old(bytesDone), i);
        SliceNext(events, 0, i);
        reached := end;
        assert mine[i] == RawChunk(c, e, iso, i);
        SliceNext(mine, 0, i);
      }
      assert mine[..e.groups] == mine && events[..e.groups] == events;
    }

    /** Compresses a stretch outside of any partition's data; the disc's own header is left to the container's. */
    method CompressRawRegion(offset: nat, size: nat)
      requires Valid() && offset + size <= |iso|
      modifies this
      ensures Valid() && plan == AddRaw(old(plan), offset, size)
      ensures Streamed(trace) <==> Streamed(old(trace))
    {
      hide Written, Progress, ValidRaw, RegionChunks, Streamed, Sound, OrderChunks, RawFor, Told;
      hide Deliveries, RegionEvents, OrderEvents, Spans, Span;
      if size == 0 {
        return;
      }
      var skip := if offset < DISC_HEADER_SIZE then Min(DISC_HEADER_SIZE - offset, size) else 0;
      var entryOffset, entrySize := offset + skip, size - skip;
      if entrySize == 0 {
        return;
      }
      var e := MakeRaw(entryOffset, entrySize, groupIndex);
      RawForValid(iso, entryOffset, entrySize, groupIndex);
      AddRawSound(plan, iso, offset, size);
      SoundOrder(plan, iso);
      OrderAppend(c, iso, plan.order, Raw(e));
      groupIndex := groupIndex + e.groups;
      rawEntries := rawEntries + [e];
      DeliverRaw(e);
      ToldGrown(old(trace), trace, plan.order, Raw(e));
      EventsNext(plan.order, Raw(e));
      SpansNext(plan.order, Raw(e));
      plan := AddRaw(plan, offset, size);
    }

    /** The chunks of one window of a partition, from chunk `i0` of the region on. */
    method DeliverWindow(key: Bytes, d: DataEntry, from: nat, i0: nat, ghost base: nat)
      requires bytesDone == base + from * BLOCK_TOTAL_SIZE
      requires Written() && Progress(trace, bytesDone) && ValidPart(key, d, iso)
      requires from < d.ns && from % BLOCKS_PER_GROUP == 0 && i0 * BLOCKS_PER_CHUNK == from && i0 < d.ng
      modifies this`file, this`pos, this`groupEntries, this`chunks, this`trace
      ensures Written() && Progress(trace, bytesDone)
      ensures var i1 := i0 + DivCeil(WindowSize(d, from), BLOCKS_PER_CHUNK);
              && i1 <= d.ng && chunks == old(chunks) + RegionChunks(c, iso, Part(key, d))[i0..i1]
              && Reported(old(trace), trace, (d.fs + from) * BLOCK_TOTAL_SIZE,
                   (d.fs + from + WindowSize(d, from)) * BLOCK_TOTAL_SIZE, RegionEvents(Part(key, d), base)[i0..i1])
    {
      hide Written, Progress, ValidPart, ChunkAt, Reported, Plains, Originals, HashHeaders, PartChunk, RegionEvents;
      hide RegionChunks, DataOffset;
      ghost var mine, events := RegionChunks(c, iso, Part(key, d)), RegionEvents(Part(key, d), base);
      ghost var lo: nat := (d.fs + from) * BLOCK_TOTAL_SIZE;
      ReportedNone(trace, lo);
      var dataPlains, hashOrig := ReadWindow(c, key, d, iso, from);
      var recomputed := HashGroup(c, dataPlains);
      var chunkCount := DivCeil(|dataPlains|, BLOCKS_PER_CHUNK);
      WindowChunks(key, d, iso, from, i0);
      assert mine[i0..i0] == [] && events[i0..i0] == [];
      ghost var reached := lo;
      for k := 0 to chunkCount
        invariant Written() && Progress(trace, bytesDone)
        invariant chunks == old(chunks) + mine[i0..i0 + k]
        invariant Reported(old(trace), trace, lo, reached, events[i0..i0 + k])
        invariant lo <= reached == (d.fs + from + Min(4 * k, |dataPlains|)) * BLOCK_TOTAL_SIZE
      {
        ChunkOfWindow(c, key, d, iso, from, i0, k);
        var stored, packedSize, isCompressed := BuildPartChunk(c, key, d, iso, from, k * BLOCKS_PER_CHUNK,
          dataPlains, hashOrig, recomputed, (i0 + k) * (BLOCKS_PER_CHUNK * BLOCK_DATA_SIZE));
        PartTold(key, d, iso, base, from, i0, k);
        ghost var end: nat := (d.fs + from + Min(4 * (k + 1), |dataPlains|)) * BLOCK_TOTAL_SIZE;
        ReportedNext(old(trace), trace, lo, reached, end, events[i0..i0 + k], bytesDone);
        OnChunk(stored, packedSize, isCompressed, reached, end);
        reached := end;
        SliceNext(mine, i0, i0 + k);
        SliceNext(events, i0, i0 + k);
      }
    }

    /** Compresses a stretch of a partition's blocks, window by window. */
    method CompressPartitionRegion(key: Bytes, d: DataEntry)
      requires Written() && Progress(trace, bytesDone) && ValidPart(key, d, iso) && d.ns > 0
      modifies this`file, this`pos, this`groupEntries, this`chunks, this`trace, this`bytesDone
      ensures Written() && Progress(trace, bytesDone)
      ensures chunks == old(chunks) + RegionChunks(c, iso, Part(key, d))
      ensures Reported(old(trace), trace, Start(Part(key, d)), End(Part(key, d)),
                RegionEvents(Part(key, d), old(bytesDone)))
      ensures bytesDone == old(bytesDone) + Span(Part(key, d))
    {
      hide Written, Progress, ValidPart, RegionChunks, Reported, RegionEvent;
      assert DivCeil(0, BLOCKS_PER_CHUNK) == 0;
      hide DivCeil;
      ghost var mine, events := RegionChunks(c, iso, Part(key, d)), RegionEvents(Part(key, d), bytesDone);
      var blockOffset, chunkIndex := 0, 0;
      ReportedNone(trace, d.fs * BLOCK_TOTAL_SIZE);
      assert mine[..0] == [] && events[..0] == [];
      while blockOffset < d.ns
        invariant blockOffset <= d.ns && chunkIndex == DivCeil(blockOffset, BLOCKS_PER_CHUNK) <= d.ng
        invariant blockOffset % BLOCKS_PER_GROUP == 0 || blockOffset == d.ns
        invariant Written() && Progress(trace, bytesDone)
        invariant chunks == old(chunks) + mine[..chunkIndex]
        invariant bytesDone == old(bytesDone) + blockOffset * BLOCK_TOTAL_SIZE
        invariant Reported(old(trace), trace, d.fs * BLOCK_TOTAL_SIZE, (d.fs + blockOffset) * BLOCK_TOTAL_SIZE,
                    events[..chunkIndex])
      {
        var blocksInWindow := Min(BLOCKS_PER_GROUP, d.ns - blockOffset);
        WindowNumber(key, d, iso, blockOffset);
        ghost var told := trace;
        DeliverWindow(key, d, blockOffset, chunkIndex, old(bytesDone));
        ghost var i1 := chunkIndex + DivCeil(blocksInWindow, BLOCKS_PER_CHUNK);
        ReportedOn(old(trace), told, trace, d.fs * BLOCK_TOTAL_SIZE, (d.fs + blockOffset) * BLOCK_TOTAL_SIZE,
          (d.fs + blockOffset + blocksInWindow) * BLOCK_TOTAL_SIZE, events[..chunkIndex], events[chunkIndex..i1]);
        SliceJoin(mine, 0, chunkIndex, chunkIndex + DivCeil(blocksInWindow, BLOCKS_PER_CHUNK));
        SliceJoin(events, 0, chunkIndex, chunkIndex + DivCeil(blocksInWindow, BLOCKS_PER_CHUNK));
        chunkIndex := chunkIndex + DivCeil(blocksInWindow, BLOCKS_PER_CHUNK);
        ProgressLater(trace, bytesDone, bytesDone + blocksInWindow * BLOCK_TOTAL_SIZE);
        bytesDone := bytesDone + blocksInWindow * BLOCK_TOTAL_SIZE;
        blockOffset := blockOffset + blocksInWindow;
      }
      AllChunks(key, d, iso);
      assert mine[..d.ng] == mine && events[..d.ng] == events;
    }

    method CreatePde(offset: nat, size: nat) returns (d: DataEntry)
      modifies this`groupIndex
      ensures d == DataEntryFor(offset, size, old(groupIndex)) && groupIndex == old(groupIndex) + d.ng
    {
      var rounded := AlignDown(size, BLOCK_TOTAL_SIZE);
      var ng := if rounded == 0 then 0 else DivCeil(rounded, CHUNK_SIZE);
      var gi := groupIndex;
      groupIndex := groupIndex + ng;
      d := DataEntry(offset / BLOCK_TOTAL_SIZE % U32, size / BLOCK_TOTAL_SIZE % U32, gi, ng);
    }

    /** One stretch of a partition; an empty one makes no chunks. */
    method CompressStretch(key: Bytes, d: DataEntry, ghost order: seq<Region>)
      requires Written() && Progress(trace, bytesDone) && ValidPart(key, d, iso) && AllValid(order, iso)
      requires chunks == OrderChunks(c, iso, order) && Told(trace, order)
      requires Deliveries(trace) == OrderEvents(order) && bytesDone == Spans(order)
      modifies this`file, this`pos, this`groupEntries, this`chunks, this`trace, this`bytesDone
      ensures Written() && Progress(trace, bytesDone) && AllValid(order + Stretch(key, d), iso)
      ensures chunks == OrderChunks(c, iso, order + Stretch(key, d)) && Told(trace, order + Stretch(key, d))
      ensures Deliveries(trace) == OrderEvents(order + Stretch(key, d)) && bytesDone == Spans(order + Stretch(key, d))
      ensures Streamed(trace) <==> Streamed(old(trace))
    {
      hide Written, Progress, ValidPart, RegionChunks, Streamed, OrderChunks, Told, AllValid;
      hide Deliveries, RegionEvents, OrderEvents, Spans, Span;
      if d.ns == 0 {
        assert order + Stretch(key, d) == order;
        return;
      }
      OrderAppend(c, iso, order, Part(key, d));
      CompressPartitionRegion(key, d);
      ToldGrown(old(trace), trace, order, Part(key, d));
      EventsNext(order, Part(key, d));
      SpansNext(order, Part(key, d));
    }

    /** Notes down a partition's two stretches. */
    method RecordPartition(p: ValidPartition) returns (e0: DataEntry, e1: DataEntry)
      modifies this`groupIndex, this`partitionEntries
      ensures e0 == FirstStretch(p, old(groupIndex)) && e1 == SecondStretch(p, old(groupIndex))
      ensures groupIndex == old(groupIndex) + e0.ng + e1.ng
      ensures partitionEntries == old(partitionEntries) + [Partition(p.key, e0, e1)]
    {
      hide AlignUp, DataEntryFor;
      var dataEnd := p.dataStart + p.dataSize;
      var split := Min(dataEnd, AlignUp(p.fstOffset + p.fstSize, GROUP_TOTAL_SIZE) + p.dataStart);
      e0 := CreatePde(p.dataStart, split - p.dataStart);
      e1 := CreatePde(split, dataEnd - split);
      partitionEntries := partitionEntries + [Partition(p.key, e0, e1)];
    }

    /** A partition's data: up to the end of its file table, then the rest. */
    method CompressData(p: ValidPartition)
      requires Valid() && ValidData(p, iso)
      modifies this
      ensures Valid() && plan == AddData(old(plan), p)
      ensures Streamed(trace) <==> Streamed(old(trace))
    {
      hide Written, Progress, ValidPart, Streamed, OrderChunks, Told, Sound, DataEntryFor, EntryFits, AllValid;
      hide RegionChunks, Stretch, StretchesOf, AlignUp, Deliveries, OrderEvents, Spans;
      ghost var order := plan.order;
      Stretches(p, iso, plan.groups);
      SoundOrder(plan, iso);
      AddDataSound(plan, iso, p);
      DataAdded(plan, p);
      hide AddData, FirstStretch, SecondStretch, ValidData;
      var e0, e1 := RecordPartition(p);
      ghost var part := Partition(p.key, e0, e1);
      CompressStretch(p.key, e0, order);
      CompressStretch(p.key, e1, order + Stretch(p.key, e0));
      StretchesJoin(order, part);
      lastEnd := (e1.fs + e1.ns) * BLOCK_TOTAL_SIZE;
      plan := AddData(plan, p);
    }

    /** All up to a candidate, then, if it is a partition, the partition. */
    method CompressCandidate(cand: Candidate) returns (r: Result<()>)
      requires Valid() && cand.offset < |iso| && cand.offset < 0x4_0000_0000
      modifies this
      ensures match AddCandidate(c, iso, old(plan), cand)
              case Err(error) => r == Err(error)
              case Ok(next) => r == Ok(()) && Valid() && plan == next
      ensures Progress(trace, bytesDone)
      ensures Streamed(trace) <==> Streamed(old(trace)) && ReadInTime(iso, old(plan), cand)
    {
      hide Written, Progress, Streamed, Told, Sound, SetUp, AddRaw, AddData, Covers, OrderChunks;
      hide Deliveries, OrderEvents, Spans;
      if cand.offset < lastEnd {
        return Ok(());
      }
      BeforeKeeps(plan, iso, cand.offset);
      RawKeepsEnd(plan, lastEnd, cand.offset - lastEnd);
      SetUpBounds(c, iso, cand.offset);
      ghost var before := plan;
      CompressRawRegion(lastEnd, cand.offset - lastEnd);
      lastEnd := cand.offset;
      plan := plan.(lastEnd := cand.offset);
      assert plan == Before(before, cand.offset);
      var setUp, headerRead := SetUpPartition(c, iso, cand.offset);
      if headerRead {
        HeaderTold(trace, bytesDone, plan.order, cand.offset);
        DeliveriesNext(trace, HeaderRead(cand.offset));
        trace := trace + [HeaderRead(cand.offset)];
      }
      var p :- setUp;
      if p.None? {
        return Ok(());
      }
      Truncates(p.value.dataStart - p.value.offset);
      CompressRawRegion(p.value.offset, p.value.dataOffset);
      CompressData(p.value);
      r := Ok(());
    }

    /** The whole pass over the disc. */
    method CompressIso(wii: bool) returns (r: Result<()>)
      requires Valid() && plan == NOTHING && trace == []
      modifies this
      ensures match PlanOf(c, iso, wii)
              case Err(error) => r == Err(error)
              case Ok(whole) => r == Ok(()) && Valid() && plan == whole
      ensures Progress(trace, bytesDone)
      ensures Streamed(trace) <==> FarComesLast(c, iso, NOTHING, Considered(iso, wii))
    {
      hide Written, Progress, Streamed, Told, Sound, AddRaw;
      hide OrderChunks, Candidates, AddCandidate, FarComesLast, ReadInTime, Deliveries, OrderEvents, Spans;
      var cands: seq<Candidate> := [];
      if wii {
        cands := DetectPartitions(iso);
      }
      ConsideredInRange(iso, wii);
      InTimeExactly(c, iso, wii);
      assert cands[0..] == cands && Streamed([]) by {
        NothingStreamed();
      }
      for i := 0 to |cands|
        invariant Valid()
        invariant AddCandidates(c, iso, plan, cands[i..]) == AddCandidates(c, iso, NOTHING, cands)
        invariant Streamed(trace) && AllInTime(c, iso, plan, cands[i..]) <==> AllInTime(c, iso, NOTHING, cands)
      {
        assert cands[i..][0] == cands[i] && cands[i..][1..] == cands[i + 1..];
        var _ :- CompressCandidate(cands[i]);
      }
      assert cands[|cands|..] == [];
      EndInside(plan, iso);
      var rest := if lastEnd <= |iso| then |iso| - lastEnd else 0;
      CompressRawRegion(lastEnd, rest);
      r := Ok(());
    }
  }

  /** What is told of a raw region's chunk. */
  lemma RawTold(e: RawEntry, iso: Bytes, base: nat, i: nat)
    requires ValidRaw(e, iso) && i < e.groups
    ensures var done := base + (RawEnd(e, i) - RawStart(e, 0));
            RegionEvents(Raw(e), base)[i] == Delivered(RawStart(e, i), RawEnd(e, i), done)
  {
    RawBounds(e, iso, i);
    RawReaches(e, iso, base, i);
    hide ValidRaw, AlignDown;
  }

  /** What is told of chunk `k` of the window at block `from`. */
  lemma PartTold(key: Bytes, d: DataEntry, iso: Bytes, base: nat, from: nat, i0: nat, k: nat)
    requires ValidPart(key, d, iso) && from < d.ns && from % BLOCKS_PER_GROUP == 0 && i0 * BLOCKS_PER_CHUNK == from
    requires i0 < d.ng && k < DivCeil(WindowSize(d, from), BLOCKS_PER_CHUNK)
    ensures i0 + k < d.ng
    ensures RegionEvents(Part(key, d), base)[i0 + k]
         == Delivered((d.fs + from + 4 * k) * BLOCK_TOTAL_SIZE,
              (d.fs + from + Min(4 * (k + 1), WindowSize(d, from))) * BLOCK_TOTAL_SIZE, base + from * BLOCK_TOTAL_SIZE)
  {
    WindowChunks(key, d, iso, from, i0);
    InWindow(from, i0, k);
    hide From, First, ValidPart;
    assert 4 * (i0 + k) == from + 4 * k;
  }

  lemma NothingStreamed()
    ensures Streamed([])
  {}

  /** Reading a header keeps the order of the pass exactly when all before it is covered. */
  lemma HeaderTold(trace: seq<Event>, done: nat, rs: seq<Region>, offset: nat)
    requires Progress(trace, done) && Told(trace, rs)
    ensures Progress(trace + [HeaderRead(offset)], done) && Told(trace + [HeaderRead(offset)], rs)
    ensures Streamed(trace + [HeaderRead(offset)]) <==> Streamed(trace) && Covers(rs, offset)
  {
    ProgressOn(trace, done, HeaderRead(offset), done);
    hide Streamed, Covers, Progress, Told;
    StreamedHeader(trace, rs, offset);
  }

  lemma DataAdded(plan: Plan, p: ValidPartition)
    ensures var e0, e1 := FirstStretch(p, plan.groups), SecondStretch(p, plan.groups);
            var next, part := AddData(plan, p), Partition(p.key, e0, e1);
            && next.raws == plan.raws && next.parts == plan.parts + [part] && next.groups == plan.groups + e0.ng + e1.ng
            && next.order == plan.order + StretchesOf(part) && next.lastEnd == (e1.fs + e1.ns) * BLOCK_TOTAL_SIZE
  {
    hide DataEntryFor, Split, StretchesOf;
  }

  /** A window's chunks end where its blocks do. */
  lemma WindowChunks(key: Bytes, d: DataEntry, iso: Bytes, from: nat, i0: nat)
    requires ValidPart(key, d, iso) && from < d.ns && i0 * BLOCKS_PER_CHUNK == from && i0 < d.ng
    ensures i0 + DivCeil(WindowSize(d, from), BLOCKS_PER_CHUNK) <= d.ng
  {
    assert d.ng == (d.ns + 3) / 4;
  }

  lemma ChunkOfWindow(c: Codec, key: Bytes, d: DataEntry, iso: Bytes, from: nat, i0: nat, k: nat)
    requires ValidPart(key, d, iso) && from < d.ns && from % BLOCKS_PER_GROUP == 0 && i0 * BLOCKS_PER_CHUNK == from
    requires i0 < d.ng && k < DivCeil(WindowSize(d, from), BLOCKS_PER_CHUNK)
    ensures i0 + k < d.ng && 4 * k < WindowSize(d, from)
    ensures (i0 + k) * (BLOCKS_PER_CHUNK * BLOCK_DATA_SIZE) == DataOffset(from, 4 * k)
    ensures RegionChunks(c, iso, Part(key, d))[i0 + k] == PartChunk(c, key, d, iso, from, 4 * k)
  {
    hide PartChunk, ValidPart;
    WindowChunks(key, d, iso, from, i0);
    InWindow(from, i0, k);
    hide From, First;
  }

  lemma InWindow(from: nat, i0: nat, k: nat)
    requires from % BLOCKS_PER_GROUP == 0 && i0 * BLOCKS_PER_CHUNK == from && k < 16
    ensures From(i0 + k) == from && First(i0 + k) == 4 * k
  {
    assert i0 == 16 * (from / 64);
  }

  lemma WindowNumber(key: Bytes, d: DataEntry, iso: Bytes, from: nat)
    requires ValidPart(key, d, iso) && from < d.ns && from % BLOCKS_PER_GROUP == 0
    ensures var i0 := DivCeil(from, BLOCKS_PER_CHUNK);
            && i0 * BLOCKS_PER_CHUNK == from && i0 < d.ng
            && DivCeil(from + WindowSize(d, from), BLOCKS_PER_CHUNK)
                 == i0 + DivCeil(WindowSize(d, from), BLOCKS_PER_CHUNK)
            && ((from + WindowSize(d, from)) % BLOCKS_PER_GROUP == 0 || from + WindowSize(d, from) == d.ns)
  {
    var m, w := from / BLOCKS_PER_GROUP, WindowSize(d, from);
    assert from == 4 * (16 * m);
    CeilAfter(16 * m, 0);
    CeilAfter(16 * m, w);
    ChunksNeeded(d.ns);
    GroupAfter(m);
  }

  lemma CeilAfter(a: nat, n: nat)
    ensures DivCeil(4 * a + n, BLOCKS_PER_CHUNK) == a + DivCeil(n, BLOCKS_PER_CHUNK)
  {}

  lemma GroupAfter(m: nat)
    ensures (BLOCKS_PER_GROUP * m + BLOCKS_PER_GROUP) % BLOCKS_PER_GROUP == 0
  {}

  lemma AllChunks(key: Bytes, d: DataEntry, iso: Bytes)
    requires ValidPart(key, d, iso)
    ensures DivCeil(d.ns, BLOCKS_PER_CHUNK) == d.ng
  {
    assert d.ng == (d.ns + 3) / 4;
  }

  method MakeRaw(offset: nat, size: nat, group: nat) returns (e: RawEntry)
    requires size > 0
    ensures e == RawFor(offset, size, group)
  {
    var spanStart, spanEnd := AlignDown(offset, BLOCK_TOTAL_SIZE), offset + size;
    var ng := DivCeil(spanEnd - spanStart, CHUNK_SIZE);
    e := RawEntry(offset, size, group, ng);
  }

  lemma SliceNext<T>(s: seq<T>, from: nat, to: nat)
    requires from <= to < |s|
    ensures s[from..to + 1] == s[from..to] + [s[to]]
  {}

  lemma SliceJoin<T>(s: seq<T>, a: nat, b: nat, e: nat)
    requires a <= b <= e <= |s|
    ensures s[a..b] + s[b..e] == s[a..e]
  {}

  lemma ProgressLater(trace: seq<Event>, done: nat, next: nat)
    requires Progress(trace, done) && done <= next
    ensures Progress(trace, next)
  {}

  lemma SoundOrder(plan: Plan, iso: Bytes)
    requires Sound(plan, iso)
    ensures AllValid(plan.order, iso)
  {
    hide AllValid, Numbered, Total, PartRegions, RawRegions, EntriesFit;
  }

  lemma OrderAppend(c: Codec, iso: Bytes, rs: seq<Region>, r: Region)
    requires AllValid(rs, iso) && ValidRegion(r, iso)
    ensures AllValid(rs + [r], iso)
    ensures OrderChunks(c, iso, rs + [r]) == OrderChunks(c, iso, rs) + RegionChunks(c, iso, r)
  {
    hide ValidRegion, RegionChunks;
    assert (rs + [r])[..|rs|] == rs;
  }

  lemma PositionIs(chunks: seq<Chunk>)
    ensures Position(chunks, |chunks|) == HEADER_AREA_SIZE + |Body(chunks, |chunks|)|
  {}

  lemma PadOfSum(body: nat, stored: nat)
    requires body % 4 == 0
    ensures (4 - (body + stored) % 4) % 4 == Padding4(stored)
  {}
}
