/** The container that a disc is encoded to, said by the bytes of the file. */
module Layout {
  import opened Sizes
  import opened BigEndian
  import opened Format
  import opened Tables
  import opened Container
  import opened Planning
  import opened EndToEnd

  // ---------- numbers and stretches ----------

  lemma Said32(b: Bytes, o: nat, n: nat)
    requires n < U32 && o + 4 <= |b| && b[o..o + 4] == Be32(n)
    ensures Number(b, o, 4) == n
  {
    hide Be32, Number;
    GetPut32(b, o, n);
    Number32(b, o);
  }

  lemma Said64(b: Bytes, o: nat, n: nat)
    requires n < U64 && o + 8 <= |b| && b[o..o + 8] == Be64(n)
    ensures Number(b, o, 8) == n
  {
    hide Be64, Number;
    GetPut64(b, o, n);
    Number64(b, o);
  }

  lemma InPrefix(b: Bytes, head: Bytes, o: nat, n: nat)
    requires |head| <= |b| && b[..|head|] == head && o + n <= |head|
    ensures b[o..o + n] == head[o..o + n]
  {
    SubSlice(b, 0, |head|, o, o + n);
    assert b[0..|head|] == head;
  }

  // ---------- the headers ----------

  /** The first header: a magic number, versions, the second header's length and digest, and two sizes. */
  ghost predicate FirstSaid(c: Codec, file: Bytes, isoSize: nat) {
    && 0x124 <= |file| && file[0..4] == [0x52, 0x56, 0x5a, 0x01]
    && Number(file, 0x04, 4) == 0x0100_0000 && Number(file, 0x08, 4) == 0x0003_0000 && Number(file, 0x0c, 4) == 0xdc
    && file[0x10..0x24] == c.sha1(file[0x48..0x124])
    && Number(file, 0x24, 8) == isoSize && Number(file, 0x2c, 8) == |file|
    && file[0x34..0x48] == c.sha1(file[0x00..0x34])
  }

  /** The second header up to the tables: what disc it is, how it is compressed, and how the disc begins. */
  ghost predicate DiscSaid(file: Bytes, discType: nat, level: int, dhead: Bytes) {
    && 0x124 <= |file| && Number(file, 0x48, 4) == discType && Number(file, 0x4c, 4) == 5
    && Number(file, 0x50, 4) == level % 0x1_0000_0000 && Number(file, 0x54, 4) == 0x2_0000 && file[0x58..0xd8] == dhead
  }

  /** Where the tables are, and how long. */
  ghost predicate TablesSaid(c: Codec, file: Bytes, f: Fields) {
    && 0x124 <= |file| && Number(file, 0xd8, 4) == f.partCount && Number(file, 0xdc, 4) == 0x30
    && Number(file, 0xe0, 8) == f.partOffset && file[0xe8..0xfc] == c.sha1(f.partTable)
    && Number(file, 0xfc, 4) == f.rawCount && Number(file, 0x100, 8) == f.rawOffset
    && Number(file, 0x108, 4) == f.rawSize
    && Number(file, 0x10c, 4) == f.groupCount && Number(file, 0x110, 8) == f.groupOffset
    && Number(file, 0x118, 4) == f.groupSize && forall x | 0x11c <= x < 0x124 :: file[x] == 0
  }

  lemma HeaderParts(c: Codec, f: Fields)
    requires |f.dhead| == DISC_HEADER_SIZE
    ensures var head := Headers(c, f);
            && head[0..0x34] == Header1(c, f) && head[0x34..0x48] == c.sha1(Header1(c, f))
            && head[0x48..0xd8] == DiscFields(f) && head[0xd8..0xfc] == TableFields(c, f)
            && head[0xfc..0x124] == MoreFields(f) && head[0x48..0x124] == Header2(c, f)
  {
    hide Header1, DiscFields, TableFields, MoreFields;
  }

  lemma FirstIs(c: Codec, f: Fields, file: Bytes)
    requires FieldsFit(f) && f.fileSize == |file| >= 0x124 && file[..0x124] == Headers(c, f)
    ensures FirstSaid(c, file, f.isoSize)
  {
    hide Be32, Be64, Number, Headers, Header2;
    HeaderParts(c, f);
    var h, head := Header1(c, f), Headers(c, f);
    InPrefix(file, head, 0, 0x34);
    InPrefix(file, head, 0x34, 0x14);
    InPrefix(file, head, 0x48, 0xdc);
    assert file[0..0x34] == h;
    FirstFields(c, f, file);
  }

  lemma FirstParts(c: Codec, f: Fields)
    requires |f.dhead| == DISC_HEADER_SIZE
    ensures var h := Header1(c, f);
            && h[0..4] == [0x52, 0x56, 0x5a, 0x01] && h[0x04..0x08] == [1, 0, 0, 0] && h[0x08..0x0c] == [0, 3, 0, 0]
            && h[0x0c..0x10] == Be32(HEADER_2_SIZE) && h[0x10..0x24] == c.sha1(Header2(c, f))
            && h[0x24..0x2c] == Be64(f.isoSize % U64) && h[0x2c..0x34] == Be64(f.fileSize % U64)
  {
    hide Be32, Be64, Header2;
  }

  lemma FirstFields(c: Codec, f: Fields, file: Bytes)
    requires FieldsFit(f) && 0x124 <= |file| && file[0..0x34] == Header1(c, f)
    ensures file[0..4] == [0x52, 0x56, 0x5a, 0x01] && file[0x10..0x24] == c.sha1(Header2(c, f))
    ensures Number(file, 0x04, 4) == 0x0100_0000 && Number(file, 0x08, 4) == 0x0003_0000
    ensures Number(file, 0x0c, 4) == 0xdc
    ensures Number(file, 0x24, 8) == f.isoSize && Number(file, 0x2c, 8) == f.fileSize
  {
    hide Be32, Be64, Number, Header2, Header1;
    FirstParts(c, f);
    SubSlice(file, 0, 0x34, 0, 4);
    SubSlice(file, 0, 0x34, 0x04, 0x08);
    SubSlice(file, 0, 0x34, 0x08, 0x0c);
    SubSlice(file, 0, 0x34, 0x0c, 0x10);
    SubSlice(file, 0, 0x34, 0x10, 0x24);
    SubSlice(file, 0, 0x34, 0x24, 0x2c);
    SubSlice(file, 0, 0x34, 0x2c, 0x34);
    Said32(file, 0x0c, HEADER_2_SIZE);
    Said64(file, 0x24, f.isoSize);
    Said64(file, 0x2c, f.fileSize);
    Versions(file);
  }

  lemma Versions(file: Bytes)
    requires 0x0c <= |file| && file[0x04..0x08] == [1, 0, 0, 0] && file[0x08..0x0c] == [0, 3, 0, 0]
    ensures Number(file, 0x04, 4) == 0x0100_0000 && Number(file, 0x08, 4) == 0x0003_0000
  {
    Four(file, 0x04);
    Four(file, 0x08);
    assert file[0x04..0x08][0] == file[4] && file[0x04..0x08][1] == file[5];
    assert file[0x04..0x08][2] == file[6] && file[0x04..0x08][3] == file[7];
    assert file[0x08..0x0c][0] == file[8] && file[0x08..0x0c][1] == file[9];
    assert file[0x08..0x0c][2] == file[10] && file[0x08..0x0c][3] == file[11];
  }

  lemma Four(b: Bytes, o: nat)
    requires o + 4 <= |b|
    ensures Number(b, o, 4)
         == b[o] as nat * 0x100_0000 + b[o + 1] as nat * 0x1_0000 + b[o + 2] as nat * 0x100 + b[o + 3] as nat
  {
    Number32(b, o);
  }

  lemma DiscParts(f: Fields)
    requires |f.dhead| == DISC_HEADER_SIZE
    ensures var disc := DiscFields(f);
            && disc[0x00..0x04] == Be32(f.discType % U32) && disc[0x04..0x08] == Be32(ZSTD)
            && disc[0x08..0x0c] == Be32(f.level % U32) && disc[0x0c..0x10] == Be32(f.chunkSize % U32)
            && disc[0x10..0x90] == f.dhead
  {
    hide Be32;
  }

  lemma DiscIs(c: Codec, f: Fields, file: Bytes)
    requires FieldsFit(f) && f.discType < U32 && f.chunkSize == CHUNK_SIZE
    requires 0x124 <= |file| && file[..0x124] == Headers(c, f)
    ensures DiscSaid(file, f.discType, f.level, f.dhead)
  {
    hide Headers, DiscFields, DiscSaid;
    HeaderParts(c, f);
    InPrefix(file, Headers(c, f), 0x48, 0x90);
    DiscFieldsAre(f, file);
  }

  lemma DiscFieldsAre(f: Fields, file: Bytes)
    requires |f.dhead| == DISC_HEADER_SIZE && f.discType < U32 && f.chunkSize == CHUNK_SIZE
    requires 0x124 <= |file| && file[0x48..0xd8] == DiscFields(f)
    ensures DiscSaid(file, f.discType, f.level, f.dhead)
  {
    hide Be32, Number, DiscFields;
    DiscParts(f);
    SubSlice(file, 0x48, 0x90, 0x00, 0x04);
    SubSlice(file, 0x48, 0x90, 0x04, 0x08);
    SubSlice(file, 0x48, 0x90, 0x08, 0x0c);
    SubSlice(file, 0x48, 0x90, 0x0c, 0x10);
    SubSlice(file, 0x48, 0x90, 0x10, 0x90);
    Said32(file, 0x48, f.discType);
    Said32(file, 0x4c, ZSTD);
    Said32(file, 0x50, f.level % U32);
    Said32(file, 0x54, f.chunkSize);
  }

  lemma TablesAre(c: Codec, f: Fields, file: Bytes)
    requires FieldsFit(f) && 0x124 <= |file| && file[..0x124] == Headers(c, f)
    ensures TablesSaid(c, file, f)
  {
    hide Be32, Be64, Number, Headers;
    HeaderParts(c, f);
    PartFields(c, f, file);
    MoreFieldsAre(c, f, file);
  }

  lemma PartParts(c: Codec, f: Fields)
    ensures var tables := TableFields(c, f);
            && tables[0x00..0x04] == Be32(f.partCount % U32) && tables[0x04..0x08] == Be32(PART_ENTRY_SIZE)
            && tables[0x08..0x10] == Be64(f.partOffset % U64) && tables[0x10..0x24] == c.sha1(f.partTable)
  {
    hide Be32, Be64;
  }

  lemma PartFields(c: Codec, f: Fields, file: Bytes)
    requires FieldsFit(f) && 0x124 <= |file| && file[..0x124] == Headers(c, f)
    ensures Number(file, 0xd8, 4) == f.partCount && Number(file, 0xdc, 4) == 0x30
    ensures Number(file, 0xe0, 8) == f.partOffset && file[0xe8..0xfc] == c.sha1(f.partTable)
  {
    hide Be32, Be64, Number, Headers, TableFields;
    HeaderParts(c, f);
    PartParts(c, f);
    InPrefix(file, Headers(c, f), 0xd8, 0x24);
    SubSlice(file, 0xd8, 0x24, 0x00, 0x04);
    SubSlice(file, 0xd8, 0x24, 0x04, 0x08);
    SubSlice(file, 0xd8, 0x24, 0x08, 0x10);
    SubSlice(file, 0xd8, 0x24, 0x10, 0x24);
    Said32(file, 0xd8, f.partCount);
    Said32(file, 0xdc, PART_ENTRY_SIZE);
    Said64(file, 0xe0, f.partOffset);
  }

  lemma MoreParts(f: Fields)
    ensures var more := MoreFields(f);
            && more[0x00..0x04] == Be32(f.rawCount % U32) && more[0x04..0x0c] == Be64(f.rawOffset % U64)
            && more[0x0c..0x10] == Be32(f.rawSize % U32) && more[0x10..0x14] == Be32(f.groupCount % U32)
            && more[0x14..0x1c] == Be64(f.groupOffset % U64) && more[0x1c..0x20] == Be32(f.groupSize % U32)
            && more[0x20..0x28] == Zeroes(8)
  {
    hide Be32, Be64, Zeroes;
  }

  lemma MoreFieldsAre(c: Codec, f: Fields, file: Bytes)
    requires FieldsFit(f) && 0x124 <= |file| && file[..0x124] == Headers(c, f)
    ensures Number(file, 0xfc, 4) == f.rawCount && Number(file, 0x100, 8) == f.rawOffset
    ensures Number(file, 0x108, 4) == f.rawSize
    ensures Number(file, 0x10c, 4) == f.groupCount && Number(file, 0x110, 8) == f.groupOffset
    ensures Number(file, 0x118, 4) == f.groupSize && forall x | 0x11c <= x < 0x124 :: file[x] == 0
  {
    hide Be32, Be64, Number, Headers, MoreFields;
    HeaderParts(c, f);
    MoreParts(f);
    InPrefix(file, Headers(c, f), 0xfc, 0x28);
    SubSlice(file, 0xfc, 0x28, 0x00, 0x04);
    SubSlice(file, 0xfc, 0x28, 0x04, 0x0c);
    SubSlice(file, 0xfc, 0x28, 0x0c, 0x10);
    SubSlice(file, 0xfc, 0x28, 0x10, 0x14);
    SubSlice(file, 0xfc, 0x28, 0x14, 0x1c);
    SubSlice(file, 0xfc, 0x28, 0x1c, 0x20);
    SubSlice(file, 0xfc, 0x28, 0x20, 0x28);
    Said32(file, 0xfc, f.rawCount);
    Said64(file, 0x100, f.rawOffset);
    Said32(file, 0x108, f.rawSize);
    Said32(file, 0x10c, f.groupCount);
    Said64(file, 0x110, f.groupOffset);
    Said32(file, 0x118, f.groupSize);
    var rest := file[0x11c..0x124];
    assert rest == Zeroes(8);
    forall x | 0x11c <= x < 0x124
      ensures file[x] == 0
    {
      assert file[x] == rest[x - 0x11c];
    }
  }

  // ---------- the rows of the tables ----------

  predicate DataSaid(b: Bytes, o: nat, d: DataEntry) {
    && o + 16 <= |b| && Number(b, o, 4) == d.fs && Number(b, o + 4, 4) == d.ns
    && Number(b, o + 8, 4) == d.gi && Number(b, o + 12, 4) == d.ng
  }

  /** A partition's row: its key, and its two stretches. */
  predicate PartSaid(b: Bytes, o: nat, p: Partition) {
    o + 48 <= |b| && b[o..o + 16] == p.key && DataSaid(b, o + 16, p.first) && DataSaid(b, o + 32, p.second)
  }

  predicate RawSaid(b: Bytes, o: nat, e: RawEntry) {
    && o + 24 <= |b| && Number(b, o, 8) == e.offset && Number(b, o + 8, 8) == e.size
    && Number(b, o + 16, 4) == e.group && Number(b, o + 20, 4) == e.groups
  }

  /** A chunk's row, and the chunk where the row says: a quarter of its position, its size and flag, its packed size. */
  predicate GroupSaid(b: Bytes, o: nat, file: Bytes, chunk: Chunk) {
    && o + 12 <= |b| && Number(b, o + 4, 4) == chunk.size + (if chunk.compressed then 0x8000_0000 else 0)
    && Number(b, o + 8, 4) == chunk.packedSize
    && var at := 4 * Number(b, o, 4);
       0x124 <= at && at + |chunk.bytes| <= |file| && file[at..at + |chunk.bytes|] == chunk.bytes
  }

  lemma DataIs(b: Bytes, o: nat, d: DataEntry)
    requires DataFits(d) && o + 16 <= |b| && b[o..o + 16] == DataBytes(d)
    ensures DataSaid(b, o, d)
  {
    hide Be32, Number;
    SubSlice(b, o, 16, 0, 4);
    SubSlice(b, o, 16, 4, 8);
    SubSlice(b, o, 16, 8, 12);
    SubSlice(b, o, 16, 12, 16);
    assert b[o..o + 4] == DataBytes(d)[0..4] == Be32(d.fs);
    Said32(b, o, d.fs);
    Said32(b, o + 4, d.ns);
    Said32(b, o + 8, d.gi);
    Said32(b, o + 12, d.ng);
  }

  lemma PartIs(b: Bytes, o: nat, p: Partition)
    requires PartFits(p) && o + 48 <= |b| && b[o..o + 48] == PartBytes(p)
    ensures PartSaid(b, o, p)
  {
    hide DataBytes, DataSaid, DataFits;
    SubSlice(b, o, 48, 0, 16);
    SubSlice(b, o, 48, 16, 32);
    SubSlice(b, o, 48, 32, 48);
    DataIs(b, o + 16, p.first);
    DataIs(b, o + 32, p.second);
  }

  lemma RawIs(b: Bytes, o: nat, e: RawEntry)
    requires RawFits(e) && o + 24 <= |b| && b[o..o + 24] == RawBytes(e)
    ensures RawSaid(b, o, e)
  {
    hide Be32, Be64, Number;
    SubSlice(b, o, 24, 0, 8);
    SubSlice(b, o, 24, 8, 16);
    SubSlice(b, o, 24, 16, 20);
    SubSlice(b, o, 24, 20, 24);
    assert b[o..o + 8] == RawBytes(e)[0..8] == Be64(e.offset);
    Said64(b, o, e.offset);
    Said64(b, o + 8, e.size);
    Said32(b, o + 16, e.group);
    Said32(b, o + 20, e.groups);
  }

  lemma GroupNumbers(b: Bytes, o: nat, g: GroupEntry)
    requires GroupFits(g) && o + 12 <= |b| && b[o..o + 12] == GroupBytes(g)
    ensures Number(b, o, 4) == g.offset4 && Number(b, o + 4, 4) == g.size && Number(b, o + 8, 4) == g.packedSize
  {
    hide Be32, Number;
    SubSlice(b, o, 12, 0, 4);
    SubSlice(b, o, 12, 4, 8);
    SubSlice(b, o, 12, 8, 12);
    assert b[o..o + 4] == GroupBytes(g)[0..4] == Be32(g.offset4);
    Said32(b, o, g.offset4);
    Said32(b, o + 4, g.size);
    Said32(b, o + 8, g.packedSize);
  }

  // ---------- the whole file ----------

  /** The partition table lies in the file as it is, row after row. */
  predicate PartTableSaid(file: Bytes, parts: seq<Partition>) {
    0x124 <= |file| &&
    var at := Number(file, 0xe0, 8);
    forall p | 0 <= p < |parts| :: PartSaid(file, at + 48 * p, parts[p])
  }

  /** The raw table lies in the file compressed. */
  ghost predicate RawTableSaid(c: Codec, file: Bytes, raws: seq<RawEntry>) {
    0x124 <= |file| &&
    var at, size := Number(file, 0x100, 8), Number(file, 0x108, 4);
    && at + size <= |file|
    && match c.decompress(file[at..at + size])
       case Ok(table) => |table| == 24 * |raws| && forall i | 0 <= i < |raws| :: RawSaid(table, 24 * i, raws[i])
       case Err(_) => false
  }

  /** So does the group table; each row leads to its chunk. */
  ghost predicate GroupTableSaid(c: Codec, file: Bytes, chunks: seq<Chunk>) {
    0x124 <= |file| &&
    var at, size := Number(file, 0x110, 8), Number(file, 0x118, 4);
    && at + size <= |file|
    && match c.decompress(file[at..at + size])
       case Ok(table) =>
         |table| == 12 * |chunks| && forall k | 0 <= k < |chunks| :: GroupSaid(table, 12 * k, file, chunks[k])
       case Err(_) => false
  }

  lemma PartTableIs(c: Codec, input: Input)
    requires InputFits(c, input) && FileFits(c, input)
    requires 0x124 <= |File(c, input)| && Number(File(c, input), 0xe0, 8) == FieldsOf(c, input).partOffset
    ensures PartTableSaid(File(c, input), input.parts)
  {
    hide Number, Headers, Body, RawTable, GroupTable, PartBytes, PartFits, AllKeyed, Concat, File, PartSaid, Position;
    var file, rows, at := File(c, input), PartRows(input.parts), FieldsOf(c, input).partOffset;
    ConcatSize(rows, PART_ENTRY_SIZE);
    TablesLie(c, input);
    TablesLaidOut(c, input);
    forall p | 0 <= p < |input.parts|
      ensures PartSaid(file, at + 48 * p, input.parts[p])
    {
      ConcatAt(rows, PART_ENTRY_SIZE, p);
      assert PartTable(input) != [];
      SubSlice(file, at, |PartTable(input)|, p * 48, p * 48 + 48);
      PartIs(file, at + 48 * p, input.parts[p]);
    }
  }

  lemma RawTableIs(c: Codec, input: Input)
    requires InputFits(c, input) && FileFits(c, input)
    requires 0x124 <= |File(c, input)| && Number(File(c, input), 0x100, 8) == RawTableAt(input)
    requires Number(File(c, input), 0x108, 4) == |RawTable(c, input)|
    ensures RawTableSaid(c, File(c, input), input.raws)
  {
    hide Number, Headers, Body, PartTable, GroupTable, RawBytes, PartFits, RawFits, AllKeyed, Concat, File, RawSaid;
    hide Position, RawTableAt;
    var rows := RawRows(input.raws);
    var table := Concat(rows);
    ConcatSize(rows, RAW_ENTRY_SIZE);
    TablesLie(c, input);
    TablesLaidOut(c, input);
    forall i | 0 <= i < |input.raws|
      ensures RawSaid(table, 24 * i, input.raws[i])
    {
      ConcatAt(rows, RAW_ENTRY_SIZE, i);
      RawIs(table, 24 * i, input.raws[i]);
    }
  }

  lemma GroupTableIs(c: Codec, input: Input)
    requires InputFits(c, input) && FileFits(c, input)
    requires 0x124 <= |File(c, input)| && Number(File(c, input), 0x110, 8) == GroupTableAt(c, input)
    requires Number(File(c, input), 0x118, 4) == |GroupTable(c, input)|
    ensures GroupTableSaid(c, File(c, input), input.chunks)
  {
    hide Number, Headers, Body, PartTable, RawTable, GroupBytes, PartFits, RawFits, AllKeyed, Concat, File, GroupSaid;
    hide Position, RawTableAt, GroupTableAt, EntriesFor, GroupFits;
    var entries := EntriesFor(input.chunks);
    var rows := GroupRows(entries);
    var table := Concat(rows);
    ConcatSize(rows, GROUP_ENTRY_SIZE);
    TablesLie(c, input);
    TablesLaidOut(c, input);
    forall k | 0 <= k < |input.chunks|
      ensures GroupSaid(table, 12 * k, File(c, input), input.chunks[k])
    {
      ConcatAt(rows, GROUP_ENTRY_SIZE, k);
      ChunkRow(c, input, table, k);
    }
  }

  lemma ChunkRow(c: Codec, input: Input, table: Bytes, k: nat)
    requires InputFits(c, input) && FileFits(c, input) && k < |input.chunks| && 12 * k + 12 <= |table|
    requires table[12 * k..12 * k + 12] == GroupBytes(EntriesFor(input.chunks)[k])
    ensures GroupSaid(table, 12 * k, File(c, input), input.chunks[k])
  {
    hide Number, Headers, Body, PartTable, RawTable, GroupTable, GroupBytes, PartFits, RawFits, AllKeyed, Concat, File;
    hide Position, RawTableAt, GroupTableAt, GroupFits, Distinct, FileSize;
    EntryHolds(c, input, k);
    ChunkFetches(c, input, k);
    ChunkInFile(c, input, k);
    GroupNumbers(table, 12 * k, EntriesFor(input.chunks)[k]);
  }

  /** How many rows the tables have, how long a partition's is, and the digest of the partition table. */
  ghost predicate CountsSaid(c: Codec, file: Bytes, parts: nat, raws: nat, chunks: nat) {
    && 0x124 <= |file| && Number(file, 0xd8, 4) == parts && Number(file, 0xdc, 4) == 48
    && Number(file, 0xfc, 4) == raws && Number(file, 0x10c, 4) == chunks
    && var at := Number(file, 0xe0, 8);
       at + 48 * parts <= |file| && file[0xe8..0xfc] == c.sha1(file[at..at + 48 * parts])
  }

  ghost predicate FileSaid(c: Codec, file: Bytes, input: Input) {
    && FirstSaid(c, file, input.isoSize) && DiscSaid(file, input.discType, input.level, input.dhead)
    && CountsSaid(c, file, |input.parts|, |input.raws|, |input.chunks|)
    && PartTableSaid(file, input.parts) && RawTableSaid(c, file, input.raws) && GroupTableSaid(c, file, input.chunks)
  }

  lemma HeadersLie(c: Codec, input: Input)
    requires InputFits(c, input) && FileFits(c, input)
    ensures var f, file := FieldsOf(c, input), File(c, input);
            FieldsFit(f) && f.fileSize == |file| >= 0x124 && file[..0x124] == Headers(c, f)
  {
    hide Headers, Body, PartTable, RawTable, GroupTable, AllKeyed, File, Position;
    FieldsFitFile(c, input);
    FileLong(c, input);
    TablesLie(c, input);
  }

  lemma CountsAre(c: Codec, input: Input)
    requires InputFits(c, input) && FileFits(c, input) && TablesSaid(c, File(c, input), FieldsOf(c, input))
    ensures CountsSaid(c, File(c, input), |input.parts|, |input.raws|, |input.chunks|)
  {
    hide Headers, Body, RawTable, GroupTable, AllKeyed, File, Position, Number, PartTable;
    FieldsFitFile(c, input);
    TablesLie(c, input);
    TablesLaidOut(c, input);
  }

  /** The file is laid out so. */
  lemma FileIs(c: Codec, input: Input)
    requires InputFits(c, input) && FileFits(c, input) && input.discType < U32
    ensures FileSaid(c, File(c, input), input)
  {
    var f, file := FieldsOf(c, input), File(c, input);
    HeadersLie(c, input);
    FirstIs(c, f, file);
    DiscIs(c, f, file);
    TablesAre(c, f, file);
    hide FirstSaid, DiscSaid, PartTableSaid, RawTableSaid, GroupTableSaid, CountsSaid;
    CountsAre(c, input);
    hide Headers, Body, RawTable, GroupTable, AllKeyed, File, Position, Number, PartTable, Distinct;
    NoLoss(|RawTable(c, input)|);
    NoLoss(|GroupTable(c, input)|);
    PartTableIs(c, input);
    RawTableIs(c, input);
    GroupTableIs(c, input);
  }

  /** How the disc begins, filled up with zeroes. */
  predicate BeginsWith(iso: Bytes, dhead: Bytes) {
    |dhead| == 0x80 && forall x | 0 <= x < 0x80 :: dhead[x] == if x < |iso| then iso[x] else 0
  }

  /** The number by which one console's discs are known. */
  predicate HasWiiNumber(iso: Bytes) {
    0x1c <= |iso| && Number(iso, 0x18, 4) == 0x5d1c_9ea3
  }

  lemma DiscBegins(iso: Bytes)
    ensures BeginsWith(iso, DiscHeader(iso)) && (IsWii(iso) <==> HasWiiNumber(iso))
  {
    hide Get32, Number;
    var h := DiscHeader(iso);
    Number32(h, 0x18);
    if 0x1c <= |iso| {
      assert h[0x18..0x1c] == iso[0x18..0x1c];
      NumberSame(h, 0x18, iso, 0x18, 4);
    }
  }

  /** The container of an encodable disc, from its first byte to its last row. */
  lemma EncodedLayout(c: Codec, level: int, iso: Bytes)
    requires Encodable(c, level, iso)
    ensures BeginsWith(iso, DiscHeader(iso))
    ensures var plan := PlanFor(c, iso).value;
            FileSaid(c, EncodedFile(c, level, iso),
              Input(level, if HasWiiNumber(iso) then 2 else 1, |iso|, DiscHeader(iso), plan.raws, plan.parts,
                OrderChunks(c, iso, plan.order)))
  {
    DiscBegins(iso);
    hide Sound, Covers, NearData, PlanOf, File, FileFits, OrderChunks, Considered, AllValid;
    hide RawTable, GroupTable, PartTable, RawTableAt, GroupTableAt, FileSize;
    hide Position, AllKeyed, IsWii, InputFits, FileSaid, HasWiiNumber, BeginsWith, DiscHeader;
    var plan := PlanFor(c, iso).value;
    PlanCovers(c, iso, IsWii(iso));
    InputIsFit(c, level, iso, plan);
    FileIs(c, InputFor(c, level, iso, plan));
  }

  // ---------- one thing after another ----------

  /** The next multiple of four. */
  function RoundUp(n: nat): nat {
    (n + 3) / 4 * 4
  }

  /** A stretch of the file is followed, at the next multiple of four and after zeroes, by `next`. */
  predicate Follows(file: Bytes, at: nat, size: nat, next: nat) {
    && next == RoundUp(at + size) && next <= |file|
    && forall x | at + size <= x < next :: file[x] == 0
  }

  lemma PaddedEnds(at: nat, b: Bytes)
    requires at % 4 == 0
    ensures at + |Padded(b)| == RoundUp(at + |b|)
  {
    hide RoundUp, Padding4;
    NextMultiple(at + |b|, at + |Padded(b)|);
  }

  lemma NextMultiple(n: nat, next: nat)
    requires n <= next < n + 4 && next % 4 == 0
    ensures next == RoundUp(n)
  {
    assert (n + 3) / 4 == next / 4;
  }

  lemma PadIsZero(file: Bytes, at: nat, b: Bytes, next: nat)
    requires at % 4 == 0 && at <= next <= |file| && file[at..next] == Padded(b)
    ensures Follows(file, at, |b|, next)
  {
    PaddedEnds(at, b);
    assert next == at + |Padded(b)|;
    hide RoundUp;
    forall x | at + |b| <= x < next
      ensures file[x] == 0
    {
      assert file[x] == file[at..next][x - at];
    }
  }

  lemma PaddedInBody(chunks: seq<Chunk>, k: nat)
    requires k < |chunks|
    ensures var at, next, body := |Body(chunks, k)|, |Body(chunks, k + 1)|, Body(chunks, |chunks|);
            at <= next <= |body| && body[at..next] == Padded(chunks[k].bytes)
  {
    var padded := Padded(chunks[k].bytes);
    BodyGrows(chunks, k + 1, |chunks|);
    assert Body(chunks, k + 1) == Body(chunks, k) + padded;
    hide Body, Padded;
    assert Body(chunks, k) + (padded + []) == Body(chunks, k) + padded;
    StretchLies(Body(chunks, k), padded, [], Body(chunks, |chunks|));
  }

  lemma PaddedChunk(c: Codec, input: Input, k: nat)
    requires ValidInput(input) && k < |input.chunks|
    ensures var at, next := Position(input.chunks, k), Position(input.chunks, k + 1);
            at <= next <= |File(c, input)| && File(c, input)[at..next] == Padded(input.chunks[k].bytes)
  {
    hide Headers, FieldsOf, File, Tail, AllKeyed, Padded, Body;
    var chunks := input.chunks;
    PaddedInBody(chunks, k);
    FileParts(c, input);
    LiesInside(Headers(c, FieldsOf(c, input)), Body(chunks, |chunks|), Tail(c, input), |Body(chunks, k)|,
      |Body(chunks, k + 1)| - |Body(chunks, k)|);
  }

  /** The chunks follow each other from the end of the headers on. */
  lemma ChunksFollow(c: Codec, input: Input, k: nat)
    requires ValidInput(input) && k < |input.chunks|
    ensures Position(input.chunks, 0) == 0x124
    ensures Follows(File(c, input), Position(input.chunks, k), |input.chunks[k].bytes|, Position(input.chunks, k + 1))
  {
    FirstPosition(input.chunks);
    PaddedChunk(c, input, k);
    hide File, Follows, Padded, Position, Body;
    PadIsZero(File(c, input), Position(input.chunks, k), input.chunks[k].bytes, Position(input.chunks, k + 1));
  }

  lemma FirstPosition(chunks: seq<Chunk>)
    ensures Position(chunks, 0) == 0x124
  {}

  lemma PaddedTables(c: Codec, input: Input)
    requires ValidInput(input)
    ensures var file, at := File(c, input), Position(input.chunks, |input.chunks|);
            && RawTableAt(input) <= |file| && GroupTableAt(c, input) <= |file|
            && file[at..RawTableAt(input)] == Padded(PartTable(input))
            && file[RawTableAt(input)..GroupTableAt(c, input)] == Padded(RawTable(c, input))
  {
    hide Headers, PartTable, RawTable, GroupTable, Body, AllKeyed, FieldsOf, Padded;
    var head, body := Headers(c, FieldsOf(c, input)), Body(input.chunks, |input.chunks|);
    var parts, raws, groups := Padded(PartTable(input)), Padded(RawTable(c, input)), GroupTable(c, input);
    LiesInside(head + body, parts, raws + groups, 0, |parts|);
    assert head + body + parts + (raws + groups) == File(c, input);
    LiesInside(head + body + parts, raws, groups, 0, |raws|);
    assert parts[0..|parts|] == parts && raws[0..|raws|] == raws;
  }

  /** After them come the partition table, the raw table and the group table, which ends the file. */
  lemma TablesFollow(c: Codec, input: Input)
    requires ValidInput(input)
    ensures var file, at := File(c, input), Position(input.chunks, |input.chunks|);
            && Follows(file, at, |PartTable(input)|, RawTableAt(input))
            && Follows(file, RawTableAt(input), |RawTable(c, input)|, GroupTableAt(c, input))
            && |file| == GroupTableAt(c, input) + |GroupTable(c, input)|
  {
    PaddedTables(c, input);
    TablesLaidOut(c, input);
    FileEnds(c, input);
    hide File, Follows, Padded, PartTable, RawTable, GroupTable, Position, AllKeyed, RawTableAt, GroupTableAt, FileSize;
    PadIsZero(File(c, input), Position(input.chunks, |input.chunks|), PartTable(input), RawTableAt(input));
    PadIsZero(File(c, input), RawTableAt(input), RawTable(c, input), GroupTableAt(c, input));
  }

  lemma FileEnds(c: Codec, input: Input)
    requires ValidInput(input)
    ensures |File(c, input)| == GroupTableAt(c, input) + |GroupTable(c, input)|
  {
    hide File, GroupTable, GroupTableAt, AllKeyed;
  }
}
