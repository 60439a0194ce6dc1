/** The encoder's last steps: tables and headers, and with them the finished container. */
module Assembly {
  import opened Words
  import opened Results
  import opened Sizes
  import opened BigEndian
  import opened Format
  import opened Buffers
  import opened Regions
  import opened Tables
  import opened Container
  import opened Planning
  import opened Streaming
  import opened Reporting
  import opened EndToEnd
  import opened Encoder

  // ---------- tables ----------

  method PutData(table: array<Byte>, at: nat, d: DataEntry)
    requires at + PART_DATA_ENTRY_SIZE <= table.Length
    modifies table
    ensures table[..at + PART_DATA_ENTRY_SIZE] == old(table[..at]) + DataBytes(d)
  {
    hide Be32;
    Put(table, at, Be32(d.fs % U32));
    Put(table, at + 4, Be32(d.ns % U32));
    Put(table, at + 8, Be32(d.gi % U32));
    Put(table, at + 12, Be32(d.ng % U32));
  }

  lemma ConcatNext(rows: seq<Bytes>, i: nat)
    requires i < |rows|
    ensures Concat(rows[..i + 1]) == Concat(rows[..i]) + rows[i]
  {
    assert rows[..i + 1][..i] == rows[..i];
  }

  method BuildPartTable(parts: seq<Partition>) returns (table: array<Byte>)
    requires AllKeyed(parts)
    ensures fresh(table) && table[..] == Concat(PartRows(parts))
  {
    hide DataBytes, Concat;
    table := new Byte[|parts| * PART_ENTRY_SIZE](_ => 0);
    ghost var rows := PartRows(parts);
    NoRows(rows);
    for p := 0 to |parts|
      invariant table[..p * PART_ENTRY_SIZE] == Concat(rows[..p])
    {
      var off := p * PART_ENTRY_SIZE;
      Put(table, off, parts[p].key);
      PutData(table, off + 0x10, parts[p].first);
      PutData(table, off + 0x20, parts[p].second);
      Joined(Concat(rows[..p]), parts[p].key, DataBytes(parts[p].first), DataBytes(parts[p].second));
      ConcatNext(rows, p);
      assert rows[p] == PartBytes(parts[p]);
    }
    assert table[..] == table[..|parts| * PART_ENTRY_SIZE] && rows[..|parts|] == rows;
  }

  lemma Joined(a: Bytes, x: Bytes, y: Bytes, z: Bytes)
    ensures a + x + y + z == a + (x + y + z)
  {}

  lemma JoinedFour(a: Bytes, w: Bytes, x: Bytes, y: Bytes, z: Bytes)
    ensures a + w + x + y + z == a + (w + x + y + z)
  {}

  lemma NoRows(rows: seq<Bytes>)
    ensures Concat(rows[..0]) == []
  {}

  method BuildRawTable(raws: seq<RawEntry>) returns (table: array<Byte>)
    ensures fresh(table) && table[..] == Concat(RawRows(raws))
  {
    hide Be32, Be64, Concat;
    table := new Byte[|raws| * RAW_ENTRY_SIZE](_ => 0);
    ghost var rows := RawRows(raws);
    NoRows(rows);
    for i := 0 to |raws|
      invariant table[..i * RAW_ENTRY_SIZE] == Concat(rows[..i])
    {
      var o, e := i * RAW_ENTRY_SIZE, raws[i];
      Put(table, o, Be64(e.offset % U64));
      Put(table, o + 8, Be64(e.size % U64));
      Put(table, o + 16, Be32(e.group % U32));
      Put(table, o + 20, Be32(e.groups % U32));
      JoinedFour(Concat(rows[..i]), Be64(e.offset % U64), Be64(e.size % U64), Be32(e.group % U32),
        Be32(e.groups % U32));
      ConcatNext(rows, i);
      assert rows[i] == RawBytes(e);
    }
    assert table[..] == table[..|raws| * RAW_ENTRY_SIZE] && rows[..|raws|] == rows;
  }

  method BuildGroupTable(groups: seq<StoredGroup>, ghost entries: seq<GroupEntry>) returns (table: array<Byte>)
    requires |entries| == |groups| && forall i | 0 <= i < |groups| :: entries[i] == EntryOf(groups[i])
    ensures fresh(table) && table[..] == Concat(GroupRows(entries))
  {
    hide Be32, Concat;
    table := new Byte[|groups| * GROUP_ENTRY_SIZE](_ => 0);
    ghost var rows := GroupRows(entries);
    NoRows(rows);
    for i := 0 to |groups|
      invariant table[..i * GROUP_ENTRY_SIZE] == Concat(rows[..i])
    {
      var o, g := i * GROUP_ENTRY_SIZE, groups[i];
      Put(table, o, Be32(g.offset4 % U32));
      var size := g.size + (if g.compressed then FLAG else 0);
      Put(table, o + 4, Be32(size % U32));
      Put(table, o + 8, Be32(g.packed % U32));
      ConcatNext(rows, i);
      assert rows[i] == GroupBytes(EntryOf(g));
    }
    assert table[..] == table[..|groups| * GROUP_ENTRY_SIZE] && rows[..|groups|] == rows;
  }

  // ---------- headers ----------

  /** The second header up to where the digest of the partition table goes. */
  method PutDisc(f: Fields, h2: array<Byte>)
    requires |f.dhead| == DISC_HEADER_SIZE && h2.Length == HEADER_2_SIZE
    modifies h2
    ensures h2[..0xa0] == DiscFields(f) + Be32(f.partCount % U32) + Be32(PART_ENTRY_SIZE) + Be64(f.partOffset % U64)
    ensures forall i | 0xa0 <= i < HEADER_2_SIZE :: h2[i] == old(h2[i])
  {
    hide Be32, Be64;
    Put(h2, 0x00, Be32(f.discType % U32));
    Put(h2, 0x04, Be32(ZSTD));
    Put(h2, 0x08, Be32(f.level % U32));
    Put(h2, 0x0c, Be32(f.chunkSize % U32));
    Put(h2, 0x10, f.dhead);
    assert h2[..0x90] == DiscFields(f);
    Put(h2, 0x90, Be32(f.partCount % U32));
    Put(h2, 0x94, Be32(PART_ENTRY_SIZE));
    Put(h2, 0x98, Be64(f.partOffset % U64));
  }

  /** What follows that digest; the last bytes stay zero. */
  method PutTables(f: Fields, h2: array<Byte>)
    requires h2.Length == HEADER_2_SIZE && forall i | 0xd4 <= i < HEADER_2_SIZE :: h2[i] == 0
    modifies h2
    ensures h2[0xb4..] == MoreFields(f) && h2[..0xb4] == old(h2[..0xb4])
  {
    hide Be32, Be64;
    ghost var head := h2[..0xb4];
    Put(h2, 0xb4, Be32(f.rawCount % U32));
    Put(h2, 0xb8, Be64(f.rawOffset % U64));
    Put(h2, 0xc0, Be32(f.rawSize % U32));
    Put(h2, 0xc4, Be32(f.groupCount % U32));
    Put(h2, 0xc8, Be64(f.groupOffset % U64));
    Put(h2, 0xd0, Be32(f.groupSize % U32));
    h2[0xd4] := 0;
    ghost var fields := Be32(f.rawCount % U32) + Be64(f.rawOffset % U64) + Be32(f.rawSize % U32)
      + Be32(f.groupCount % U32) + Be64(f.groupOffset % U64) + Be32(f.groupSize % U32);
    assert h2[..0xd4] == head + fields;
    assert h2[0xb4..] == fields + Zeroes(8);
  }

  method BuildHeader2(c: Codec, f: Fields) returns (h2: array<Byte>)
    requires |f.dhead| == DISC_HEADER_SIZE
    ensures fresh(h2) && h2[..] == Header2(c, f)
  {
    hide DiscFields, MoreFields, Be32, Be64;
    h2 := new Byte[HEADER_2_SIZE](_ => 0);
    PutDisc(f, h2);
    ghost var front := h2[..0xa0];
    PutTables(f, h2);
    assert h2[..0xa0] == h2[..0xb4][..0xa0] == front;
    var partitionHash := c.sha1(f.partTable);
    Put(h2, 0xa0, partitionHash);
    assert h2[..] == front + partitionHash + MoreFields(f);
  }

  method BuildRvzHeaders(c: Codec, f: Fields) returns (out: Bytes)
    requires |f.dhead| == DISC_HEADER_SIZE
    ensures out == Headers(c, f)
  {
    hide Header2, Be32, Be64;
    var h2 := BuildHeader2(c, f);
    var h2Hash := c.sha1(h2[..]);
    var h1 := new Byte[HEADER_1_SIZE](_ => 0);
    Put(h1, 0x00, VERSION);
    Put(h1, 0x0c, Be32(HEADER_2_SIZE));
    Put(h1, 0x10, h2Hash);
    Put(h1, 0x24, Be64(f.isoSize % U64));
    Put(h1, 0x2c, Be64(f.fileSize % U64));
    assert h1[..0x34] == Header1(c, f);
    var h1Hash := c.sha1(h1[0..0x34]);
    assert h1[0..0x34] == h1[..0x34];
    Put(h1, 0x34, h1Hash);
    assert h1[..] == h1[..0x48];
    out := h1[..] + h2[..];
  }

  // ---------- the finished container ----------

  /** Adds a table at the end of the file, padded to four bytes. */
  method WritePadded(file: Bytes, table: Bytes) returns (longer: Bytes)
    requires |file| % 4 == 0
    ensures longer == file + Padded(table)
  {
    longer := WriteAt(file, |file|, table);
    var pad := (4 - |longer| % 4) % 4;
    if pad > 0 {
      longer := WriteAt(longer, |longer|, Zeroes(4)[..pad]);
    }
    assert pad == Padding4(|table|) && Zeroes(4)[..pad] == Zeroes(pad);
  }

  /** Adds the tables, all but the last padded, and tells where they went. */
  method WriteTables(body: Bytes, partTable: Bytes, rawTable: Bytes, groupTable: Bytes)
      returns (file: Bytes, partOffset: nat, rawOffset: nat, groupOffset: nat)
    requires |body| % 4 == 0
    ensures file == body + Padded(partTable) + Padded(rawTable) + groupTable
    ensures partOffset == (if partTable == [] then 0 else |body|) && rawOffset == |body + Padded(partTable)|
    ensures groupOffset == |body + Padded(partTable) + Padded(rawTable)|
  {
    hide Padded;
    file := body;
    partOffset := if partTable == [] then 0 else |file|;
    if partTable != [] {
      file := WritePadded(file, partTable);
    } else {
      NoPadding(file);
    }
    rawOffset := |file|;
    file := WritePadded(file, rawTable);
    groupOffset := |file|;
    file := WriteEnd(file, groupTable);
  }

  /** Adds tables and headers to the chunks that lie in the file already. */
  method FinishFile(c: Codec, level: int, discType: nat, isoSize: nat, dhead: Bytes, raws: seq<RawEntry>,
      parts: seq<Partition>, groups: seq<StoredGroup>, body: Bytes, ghost chunks: seq<Chunk>) returns (file: Bytes)
    requires |dhead| == DISC_HEADER_SIZE && AllKeyed(parts) && Noted(groups, chunks)
    requires body == Zeroes(HEADER_AREA_SIZE) + Body(chunks, |chunks|)
    ensures file == File(c, Input(level, discType, isoSize, dhead, raws, parts, chunks))
  {
    hide Body, Noted, Concat, PartRows, RawRows, GroupRows, EntriesFor, Headers, Position, Padded, WriteAt, AllKeyed;
    ghost var input := Input(level, discType, isoSize, dhead, raws, parts, chunks);
    NotedEntries(groups, chunks);
    var partRows := BuildPartTable(parts);
    var rawRows := BuildRawTable(raws);
    var groupRows := BuildGroupTable(groups, EntriesFor(chunks));
    var partTable, rawTable, groupTable := partRows[..], c.compress(rawRows[..]), c.compress(groupRows[..]);
    PositionIs(chunks);
    var partOffset, rawOffset, groupOffset;
    file, partOffset, rawOffset, groupOffset := WriteTables(body, partTable, rawTable, groupTable);
    var headers := BuildRvzHeaders(c, Fields(
      isoSize, |file|, level, CHUNK_SIZE, discType, dhead,
      partOffset, |partTable| / PART_ENTRY_SIZE, partTable, rawOffset, |raws|, |rawTable| % U32,
      groupOffset, |groupTable| % U32, |groups|));
    file := WriteStart(file, headers, Zeroes(HEADER_AREA_SIZE),
      Body(chunks, |chunks|) + Padded(partTable) + Padded(rawTable) + groupTable);
  }

  lemma NoPadding(file: Bytes)
    ensures file + Padded([]) == file
  {}

  lemma NotedEntries(groups: seq<StoredGroup>, chunks: seq<Chunk>)
    requires Noted(groups, chunks)
    ensures |groups| == |chunks| && forall k | 0 <= k < |groups| :: EntriesFor(chunks)[k] == EntryOf(groups[k])
  {
    hide EntryOf, EntryFor, Position;
  }

  method WriteEnd(file: Bytes, table: Bytes) returns (longer: Bytes)
    ensures longer == file + table
  {
    longer := WriteAt(file, |file|, table);
  }

  /** The headers go where room was left for them. */
  method WriteStart(file: Bytes, headers: Bytes, ghost room: Bytes, ghost rest: Bytes) returns (done: Bytes)
    requires file == room + rest && |room| == |headers|
    ensures done == headers + rest
  {
    done := WriteAt(file, 0, headers);
    assert file[|headers|..] == rest && file[..0] + headers == headers;
  }

  /**
   Encodes a disc. The trace tells when partition headers were read and chunks handed on; the
   size returned is that of the container.
   */
  method EncodeIsoToRvz(c: Codec, level: int, iso: Bytes) returns (r: Result<nat>, file: Bytes, ghost trace: seq<Event>)
    ensures PlanFor(c, iso).Err? ==> r == Err(PlanFor(c, iso).error)
    ensures PlanFor(c, iso).Ok? ==> r == Ok(|file|) && file == EncodedFile(c, level, iso)
    ensures PlanFor(c, iso).Ok? ==> Told(trace, PlanFor(c, iso).value.order)
    ensures PlanFor(c, iso).Ok? ==> Deliveries(trace) == OrderEvents(PlanFor(c, iso).value.order)
    ensures exists done :: Progress(trace, done)
    ensures Streamed(trace) <==> FarComesLast(c, iso, NOTHING, Considered(iso, IsWii(iso)))
  {
    hide Body, Noted, Sound, PlanOf, OrderChunks, Told, Progress;
    hide Streamed, FarComesLast, Considered, IsWii, DiscHeader, File, Deliveries, OrderEvents;
    var header := DiscHeader(iso);
    var wii := IsWii(iso);
    var encoder := new Encoder(c, iso);
    r := Err(Panic);
    file := [];
    var passed := encoder.CompressIso(wii);
    trace := encoder.trace;
    if passed.Err? {
      r := Err(passed.error);
      return;
    }
    PlanCovers(c, iso, wii);
    SoundOrder(encoder.plan, iso);
    SoundKeys(encoder.plan, iso);
    file := FinishFile(c, level, if wii then 2 else 1, |iso|, header, encoder.rawEntries, encoder.partitionEntries,
      encoder.groupEntries, encoder.file, encoder.chunks);
    r := Ok(|file|);
  }

  lemma SoundKeys(plan: Plan, iso: Bytes)
    requires Sound(plan, iso)
    ensures AllKeyed(plan.parts)
  {
    hide AllValid, Numbered, Total, PartRegions, RawRegions;
  }
}
