/** A whole container, as a function of what is put into it, and how it reads back. */
module Container {
  import opened Results
  import opened Sizes
  import opened BigEndian
  import opened Format
  import opened Regions
  import opened Tables

  /** Everything the two headers are made from. */
  datatype Fields = Fields(
    isoSize: nat, fileSize: nat, level: int, chunkSize: nat, discType: nat, dhead: Bytes,
    partOffset: nat, partCount: nat, partTable: Bytes,
    rawOffset: nat, rawCount: nat, rawSize: nat,
    groupOffset: nat, groupSize: nat, groupCount: nat)

  function DiscFields(f: Fields): (b: Bytes)
    requires |f.dhead| == DISC_HEADER_SIZE
    ensures |b| == 0x90
  {
    Be32(f.discType % U32) + Be32(ZSTD) + Be32(f.level % U32) + Be32(f.chunkSize % U32) + f.dhead
  }

  function TableFields(c: Codec, f: Fields): (b: Bytes)
    ensures |b| == 0x24
  {
    Be32(f.partCount % U32) + Be32(PART_ENTRY_SIZE) + Be64(f.partOffset % U64) + c.sha1(f.partTable)
  }

  function MoreFields(f: Fields): (b: Bytes)
    ensures |b| == 0x28
  {
    Be32(f.rawCount % U32) + Be64(f.rawOffset % U64) + Be32(f.rawSize % U32)
      + Be32(f.groupCount % U32) + Be64(f.groupOffset % U64) + Be32(f.groupSize % U32) + Zeroes(8)
  }

  function Header2(c: Codec, f: Fields): (b: Bytes)
    requires |f.dhead| == DISC_HEADER_SIZE
    ensures |b| == HEADER_2_SIZE
  {
    DiscFields(f) + TableFields(c, f) + MoreFields(f)
  }

  const VERSION: Bytes := [0x52, 0x56, 0x5a, 0x01, 0x01, 0x00, 0x00, 0x00, 0x00, 0x03, 0x00, 0x00]

  /** The first header up to its own digest. */
  function Header1(c: Codec, f: Fields): (b: Bytes)
    requires |f.dhead| == DISC_HEADER_SIZE
    ensures |b| == 0x34
  {
    VERSION + Be32(HEADER_2_SIZE) + c.sha1(Header2(c, f)) + Be64(f.isoSize % U64) + Be64(f.fileSize % U64)
  }

  function Headers(c: Codec, f: Fields): (b: Bytes)
    requires |f.dhead| == DISC_HEADER_SIZE
    ensures |b| == HEADER_AREA_SIZE
  {
    Header1(c, f) + c.sha1(Header1(c, f)) + Header2(c, f)
  }

  predicate FieldsFit(f: Fields) {
    && f.isoSize < U64 && f.fileSize < U64 && f.chunkSize < U32 && |f.dhead| == DISC_HEADER_SIZE
    && f.partOffset < U64 && f.partCount < U32 && f.rawOffset < U64 && f.rawCount < U32 && f.rawSize < U32
    && f.groupOffset < U64 && f.groupSize < U32 && f.groupCount < U32
  }

  function HeaderOf(f: Fields): Header {
    Header(f.isoSize, ZSTD, f.chunkSize, f.rawCount, f.rawOffset, f.rawSize,
           f.groupCount, f.groupOffset, f.groupSize, f.partCount, f.dhead)
  }

  lemma VersionReads(c: Codec, f: Fields)
    requires FieldsFit(f)
    ensures var b := Headers(c, f);
            HasMagic(b) && Get32(b, 0x0c) == HEADER_2_SIZE && Get64(b, 0x24) == f.isoSize
                && Get64(b, 0x2c) == f.fileSize
  {
    hide Be32, Be64, Get32, Get64, Header2;
    var b, h := Headers(c, f), Header1(c, f);
    assert b[0x0c..0x10] == h[0x0c..0x10] == Be32(HEADER_2_SIZE);
    assert b[0x24..0x2c] == h[0x24..0x2c] == Be64(f.isoSize);
    assert b[0x2c..0x34] == h[0x2c..0x34] == Be64(f.fileSize);
    assert b[0] == VERSION[0] && b[1] == VERSION[1] && b[2] == VERSION[2];
    GetPut32(b, 0x0c, HEADER_2_SIZE);
    GetPut64(b, 0x24, f.isoSize);
    GetPut64(b, 0x2c, f.fileSize);
  }

  lemma SecondHeaderAt(c: Codec, f: Fields, from: nat, to: nat)
    requires FieldsFit(f) && from <= to <= HEADER_2_SIZE
    ensures Headers(c, f)[HEADER_1_SIZE + from..HEADER_1_SIZE + to] == Header2(c, f)[from..to]
  {
    hide Header2, Header1;
  }

  lemma DiscReads(c: Codec, f: Fields)
    requires FieldsFit(f)
    ensures var b, h := Headers(c, f), HEADER_1_SIZE;
            && Get32(b, h + 0x04) == ZSTD && Get32(b, h + 0x0c) == f.chunkSize && b[h + 0x10..h + 0x90] == f.dhead
  {
    hide Be32, Get32, Headers, TableFields, MoreFields;
    var b, h := Headers(c, f), HEADER_1_SIZE;
    var disc := DiscFields(f);
    SecondHeaderAt(c, f, 0x04, 0x08);
    assert Header2(c, f)[0x04..0x08] == disc[0x04..0x08] == Be32(ZSTD);
    GetPut32(b, h + 0x04, ZSTD);
    SecondHeaderAt(c, f, 0x0c, 0x10);
    assert Header2(c, f)[0x0c..0x10] == disc[0x0c..0x10] == Be32(f.chunkSize);
    GetPut32(b, h + 0x0c, f.chunkSize);
    SecondHeaderAt(c, f, 0x10, 0x90);
    assert Header2(c, f)[0x10..0x90] == disc[0x10..0x90] == f.dhead;
  }

  lemma PartFieldsRead(c: Codec, f: Fields)
    requires FieldsFit(f)
    ensures var b, h := Headers(c, f), HEADER_1_SIZE;
            && Get32(b, h + 0x90) == f.partCount && Get32(b, h + 0x94) == PART_ENTRY_SIZE
            && Get64(b, h + 0x98) == f.partOffset
  {
    hide Be32, Get32, Be64, Get64, Headers, DiscFields, MoreFields;
    var b, h := Headers(c, f), HEADER_1_SIZE;
    var tables := TableFields(c, f);
    SecondHeaderAt(c, f, 0x90, 0x94);
    assert Header2(c, f)[0x90..0x94] == tables[0x00..0x04] == Be32(f.partCount);
    GetPut32(b, h + 0x90, f.partCount);
    SecondHeaderAt(c, f, 0x94, 0x98);
    assert Header2(c, f)[0x94..0x98] == tables[0x04..0x08] == Be32(PART_ENTRY_SIZE);
    GetPut32(b, h + 0x94, PART_ENTRY_SIZE);
    SecondHeaderAt(c, f, 0x98, 0xa0);
    assert Header2(c, f)[0x98..0xa0] == tables[0x08..0x10] == Be64(f.partOffset);
    GetPut64(b, h + 0x98, f.partOffset);
  }

  lemma RawFieldsRead(c: Codec, f: Fields)
    requires FieldsFit(f)
    ensures var b, h := Headers(c, f), HEADER_1_SIZE;
            && Get32(b, h + 0xb4) == f.rawCount && Get64(b, h + 0xb8) == f.rawOffset && Get32(b, h + 0xc0) == f.rawSize
  {
    hide Be32, Get32, Be64, Get64, Headers, DiscFields, TableFields;
    var b, h := Headers(c, f), HEADER_1_SIZE;
    var more := MoreFields(f);
    SecondHeaderAt(c, f, 0xb4, 0xb8);
    assert Header2(c, f)[0xb4..0xb8] == more[0x00..0x04] == Be32(f.rawCount);
    GetPut32(b, h + 0xb4, f.rawCount);
    SecondHeaderAt(c, f, 0xb8, 0xc0);
    assert Header2(c, f)[0xb8..0xc0] == more[0x04..0x0c] == Be64(f.rawOffset);
    GetPut64(b, h + 0xb8, f.rawOffset);
    SecondHeaderAt(c, f, 0xc0, 0xc4);
    assert Header2(c, f)[0xc0..0xc4] == more[0x0c..0x10] == Be32(f.rawSize);
    GetPut32(b, h + 0xc0, f.rawSize);
  }

  lemma GroupFieldsRead(c: Codec, f: Fields)
    requires FieldsFit(f)
    ensures var b, h := Headers(c, f), HEADER_1_SIZE;
            && Get32(b, h + 0xc4) == f.groupCount && Get64(b, h + 0xc8) == f.groupOffset
            && Get32(b, h + 0xd0) == f.groupSize
  {
    hide Be32, Get32, Be64, Get64, Headers, DiscFields, TableFields;
    var b, h := Headers(c, f), HEADER_1_SIZE;
    var more := MoreFields(f);
    SecondHeaderAt(c, f, 0xc4, 0xc8);
    assert Header2(c, f)[0xc4..0xc8] == more[0x10..0x14] == Be32(f.groupCount);
    GetPut32(b, h + 0xc4, f.groupCount);
    SecondHeaderAt(c, f, 0xc8, 0xd0);
    assert Header2(c, f)[0xc8..0xd0] == more[0x14..0x1c] == Be64(f.groupOffset);
    GetPut64(b, h + 0xc8, f.groupOffset);
    SecondHeaderAt(c, f, 0xd0, 0xd4);
    assert Header2(c, f)[0xd0..0xd4] == more[0x1c..0x20] == Be32(f.groupSize);
    GetPut32(b, h + 0xd0, f.groupSize);
  }

  /** The headers parse back to the fields they were made from. */
  lemma HeadersRead(c: Codec, f: Fields)
    requires FieldsFit(f) && f.fileSize >= HEADER_AREA_SIZE
    ensures ParseHeaderMin(Headers(c, f), f.fileSize) == Ok(HeaderOf(f))
    ensures PartTableInfo(Headers(c, f)) == (f.partOffset, PART_ENTRY_SIZE)
    ensures HasMagic(Headers(c, f)) && Get32(Headers(c, f), 0x0c) == HEADER_2_SIZE
  {
    hide Headers, Get32, Get64;
    VersionReads(c, f);
    DiscReads(c, f);
    PartFieldsRead(c, f);
    RawFieldsRead(c, f);
    GroupFieldsRead(c, f);
  }

  // ---------- layout ----------

  function Padding4(n: nat): (p: nat)
    ensures (n + p) % 4 == 0 && p < 4
  {
    (4 - n % 4) % 4
  }

  function Padded(b: Bytes): (r: Bytes)
    ensures |r| % 4 == 0 && |b| <= |r|
  {
    b + Zeroes(Padding4(|b|))
  }

  /** The first `n` chunks as they lie in the file. */
  function Body(chunks: seq<Chunk>, n: nat): (b: Bytes)
    requires n <= |chunks|
    ensures |b| % 4 == 0
  {
    if n == 0 then [] else Body(chunks, n - 1) + Padded(chunks[n - 1].bytes)
  }

  /** Where chunk `n` goes. */
  function Position(chunks: seq<Chunk>, n: nat): (p: nat)
    requires n <= |chunks|
    ensures p % 4 == 0 && p >= HEADER_AREA_SIZE
  {
    HEADER_AREA_SIZE + |Body(chunks, n)|
  }

  /** A chunk as the encoder hands it on. */
  predicate Deliverable(chunk: Chunk) {
    0 < |chunk.bytes| == chunk.size < FLAG && chunk.packedSize < U32
  }

  predicate AllDeliverable(chunks: seq<Chunk>) {
    forall k | 0 <= k < |chunks| :: Deliverable(chunks[k])
  }

  /** The entry of a chunk that lies at `position`, of which 32 bits of the quarter are kept. */
  function EntryFor(chunk: Chunk, position: nat): GroupEntry {
    GroupEntry(position / 4 % U32, chunk.size + (if chunk.compressed then FLAG else 0), chunk.packedSize)
  }

  function EntriesFor(chunks: seq<Chunk>): (g: seq<GroupEntry>)
    ensures |g| == |chunks|
  {
    seq(|chunks|, k requires 0 <= k < |chunks| => EntryFor(chunks[k], Position(chunks, k)))
  }

  /** What goes into a container. */
  datatype Input = Input(level: int, discType: nat, isoSize: nat, dhead: Bytes,
                         raws: seq<RawEntry>, parts: seq<Partition>, chunks: seq<Chunk>)

  predicate ValidInput(input: Input) {
    |input.dhead| == DISC_HEADER_SIZE && AllKeyed(input.parts)
  }

  function PartTable(input: Input): Bytes
    requires ValidInput(input)
  {
    Concat(PartRows(input.parts))
  }

  function RawTable(c: Codec, input: Input): Bytes {
    c.compress(Concat(RawRows(input.raws)))
  }

  function GroupTable(c: Codec, input: Input): Bytes {
    c.compress(Concat(GroupRows(EntriesFor(input.chunks))))
  }

  function RawTableAt(input: Input): (p: nat)
    requires ValidInput(input)
  {
    Position(input.chunks, |input.chunks|) + |Padded(PartTable(input))|
  }

  function GroupTableAt(c: Codec, input: Input): (p: nat)
    requires ValidInput(input)
  {
    RawTableAt(input) + |Padded(RawTable(c, input))|
  }

  function FileSize(c: Codec, input: Input): nat
    requires ValidInput(input)
  {
    GroupTableAt(c, input) + |GroupTable(c, input)|
  }

  function FieldsOf(c: Codec, input: Input): (f: Fields)
    requires ValidInput(input)
    ensures |f.dhead| == DISC_HEADER_SIZE
  {
    Fields(input.isoSize, FileSize(c, input), input.level, CHUNK_SIZE, input.discType, input.dhead,
           if PartTable(input) == [] then 0 else Position(input.chunks, |input.chunks|),
           |PartTable(input)| / PART_ENTRY_SIZE,
           PartTable(input),
           RawTableAt(input), |input.raws|, |RawTable(c, input)| % U32,
           GroupTableAt(c, input), |GroupTable(c, input)| % U32, |input.chunks|)
  }

  /** The container: headers, chunks, partition table, raw table, group table. */
  function File(c: Codec, input: Input): (file: Bytes)
    requires ValidInput(input)
    ensures |file| == FileSize(c, input)
  {
    Headers(c, FieldsOf(c, input)) + Body(input.chunks, |input.chunks|)
      + Padded(PartTable(input)) + Padded(RawTable(c, input)) + GroupTable(c, input)
  }

  // ---------- reading it back ----------

  lemma {:induction false} BodyGrows(chunks: seq<Chunk>, m: nat, n: nat)
    requires m <= n <= |chunks|
    ensures |Body(chunks, m)| <= |Body(chunks, n)|
    ensures Body(chunks, n)[..|Body(chunks, m)|] == Body(chunks, m)
    decreases n - m
  {
    hide Padded;
    if m < n {
      BodyGrows(chunks, m, n - 1);
    }
  }

  lemma StretchLies(short: Bytes, bytes: Bytes, padding: Bytes, whole: Bytes)
    requires |short| + |bytes| + |padding| <= |whole|
    requires whole[..|short| + |bytes| + |padding|] == short + (bytes + padding)
    ensures whole[|short|..|short| + |bytes|] == bytes
  {
    var n := |short| + |bytes| + |padding|;
    assert whole[|short|..|short| + |bytes|] == whole[..n][|short|..|short| + |bytes|];
  }

  /** Each chunk lies where its position says. */
  lemma ChunkLies(chunks: seq<Chunk>, k: nat)
    requires k < |chunks|
    ensures var at, n := |Body(chunks, k)|, |chunks[k].bytes|;
            at + n <= |Body(chunks, |chunks|)| && Body(chunks, |chunks|)[at..at + n] == chunks[k].bytes
  {
    BodyGrows(chunks, k + 1, |chunks|);
    var short, bytes := Body(chunks, k), chunks[k].bytes;
    StretchLies(short, bytes, Zeroes(Padding4(|bytes|)), Body(chunks, |chunks|));
  }

  /** Nonempty chunks take at least four bytes each. */
  lemma {:induction false} BodySize(chunks: seq<Chunk>, n: nat)
    requires n <= |chunks| && AllDeliverable(chunks)
    ensures |Body(chunks, n)| >= 4 * n
  {
    if n > 0 {
      BodySize(chunks, n - 1);
      assert Deliverable(chunks[n - 1]);
    }
  }

  predicate InputFits(c: Codec, input: Input) {
    && ValidInput(input) && AllDeliverable(input.chunks)
    && (forall i | 0 <= i < |input.parts| :: PartFits(input.parts[i]))
    && (forall i | 0 <= i < |input.raws| :: RawFits(input.raws[i]))
    && |input.raws| <= |input.chunks| && input.isoSize < U64
  }

  /** A table is stored compressed, but taken to be uncompressed if it has the length it has uncompressed. */
  predicate Distinct(c: Codec, table: Bytes) {
    |c.compress(table)| != |table| || c.compress(table) == table
  }

  /**
   What the format's fields can hold: of a chunk's position 32 bits of a quarter, 64 bits of the
   file's length, and 32 bits of a table's length and of the number of partitions.
   */
  predicate FileFits(c: Codec, input: Input)
    requires ValidInput(input)
  {
    && (forall k | 0 <= k < |input.chunks| :: Position(input.chunks, k) < 0x4_0000_0000)
    && FileSize(c, input) < U64 && |input.parts| < U32
    && |RawTable(c, input)| < U32 && |GroupTable(c, input)| < U32
    && Distinct(c, Concat(RawRows(input.raws))) && Distinct(c, Concat(GroupRows(EntriesFor(input.chunks))))
  }

  lemma InnerSlice(head: Bytes, body: Bytes, tail: Bytes, at: nat, n: nat)
    requires at + n <= |body|
    ensures ReadAt(head + body + tail, |head| + at, n) == body[at..at + n]
  {}

  function Tail(c: Codec, input: Input): Bytes
    requires ValidInput(input)
  {
    Padded(PartTable(input)) + Padded(RawTable(c, input)) + GroupTable(c, input)
  }

  lemma FileParts(c: Codec, input: Input)
    requires ValidInput(input)
    ensures File(c, input) == Headers(c, FieldsOf(c, input)) + Body(input.chunks, |input.chunks|) + Tail(c, input)
  {
    hide Headers, PartTable, RawTable, GroupTable, Body, AllKeyed, Padded, FieldsOf;
  }

  /** Each chunk lies in the file where its position says. */
  lemma ChunkInFile(c: Codec, input: Input, k: nat)
    requires ValidInput(input) && k < |input.chunks|
    ensures var at, chunk := HEADER_AREA_SIZE + |Body(input.chunks, k)|, input.chunks[k];
            at + |chunk.bytes| <= |File(c, input)| && File(c, input)[at..at + |chunk.bytes|] == chunk.bytes
  {
    hide Headers, Body, FieldsOf, File, Tail, AllKeyed;
    ChunkLies(input.chunks, k);
    FileParts(c, input);
    StandsInFile(File(c, input), Headers(c, FieldsOf(c, input)), Body(input.chunks, |input.chunks|), Tail(c, input),
      |Body(input.chunks, k)|, input.chunks[k].bytes);
  }

  lemma StandsInFile(file: Bytes, head: Bytes, body: Bytes, tail: Bytes, at: nat, mine: Bytes)
    requires file == head + body + tail && at + |mine| <= |body| && body[at..at + |mine|] == mine
    ensures |head| + at + |mine| <= |file| && file[|head| + at..|head| + at + |mine|] == mine
  {
    LiesInside(head, body, tail, at, |mine|);
  }

  lemma LiesInside(head: Bytes, body: Bytes, tail: Bytes, at: nat, n: nat)
    requires at + n <= |body|
    ensures |head| + at + n <= |head + body + tail|
    ensures (head + body + tail)[|head| + at..|head| + at + n] == body[at..at + n]
  {}

  lemma ChunkFetches(c: Codec, input: Input, k: nat)
    requires InputFits(c, input) && FileFits(c, input) && k < |input.chunks|
    ensures Fetch(File(c, input), EntriesFor(input.chunks)[k]) == input.chunks[k]
  {
    hide Fetch, EntriesFor, InputFits, FileFits, File, Body, GroupFits;
    InputIsValid(c, input);
    EntryHolds(c, input, k);
    ChunkInFile(c, input, k);
    FetchedAs(File(c, input), EntriesFor(input.chunks)[k], input.chunks[k]);
  }

  lemma InputIsValid(c: Codec, input: Input)
    requires InputFits(c, input)
    ensures ValidInput(input)
  {}

  lemma FetchedAs(file: Bytes, g: GroupEntry, chunk: Chunk)
    requires g.size % FLAG == chunk.size && (g.size >= FLAG) == chunk.compressed && g.packedSize == chunk.packedSize
    requires ReadAt(file, g.offset4 * 4, chunk.size) == chunk.bytes
    ensures Fetch(file, g) == chunk
  {
    hide ReadAt;
  }

  /** Chunks that start below 16 GiB are fewer than 2^32. */
  lemma CountFits(chunks: seq<Chunk>)
    requires AllDeliverable(chunks) && forall k | 0 <= k < |chunks| :: Position(chunks, k) < 0x4_0000_0000
    ensures |chunks| < U32
  {
    hide Body;
    if chunks != [] {
      BodySize(chunks, |chunks| - 1);
      assert Position(chunks, |chunks| - 1) < 0x4_0000_0000;
    }
  }

  /** Below 16 GiB, an entry's 32 bits lose nothing of its chunk's position. */
  lemma EntryHolds(c: Codec, input: Input, k: nat)
    requires InputFits(c, input) && FileFits(c, input) && k < |input.chunks|
    ensures var chunk, entry := input.chunks[k], EntriesFor(input.chunks)[k];
            && GroupFits(entry) && Deliverable(chunk)
            && entry.offset4 * 4 == HEADER_AREA_SIZE + |Body(input.chunks, k)|
            && entry.size % FLAG == chunk.size && (entry.size >= FLAG) == chunk.compressed
            && entry.packedSize == chunk.packedSize
  {
    hide Body, RawTable, GroupTable, PartTable, Padded, Distinct, Concat, PartFits, RawFits, AllKeyed;
    assert Deliverable(input.chunks[k]) && Position(input.chunks, k) < 0x4_0000_0000;
  }

  /** An entry keeps its chunk's position exactly when that is below 16 GiB. */
  lemma PositionKept(chunks: seq<Chunk>, k: nat)
    requires k < |chunks|
    ensures EntriesFor(chunks)[k].offset4 * 4 == Position(chunks, k) <==> Position(chunks, k) < 0x4_0000_0000
  {
    hide Body;
    assert Position(chunks, k) == Position(chunks, k) / 4 * 4;
  }

  predicate AllGroupsFit(groups: seq<GroupEntry>) {
    forall k | 0 <= k < |groups| :: GroupFits(groups[k])
  }

  lemma ChunksFetch(c: Codec, input: Input)
    requires InputFits(c, input) && FileFits(c, input)
    ensures FetchAll(File(c, input), EntriesFor(input.chunks)) == input.chunks
    ensures AllGroupsFit(EntriesFor(input.chunks))
  {
    assert ValidInput(input);
    hide File, Fetch, GroupFits, InputFits, FileFits, EntriesFor, AllDeliverable, FetchAll;
    var file, groups := File(c, input), EntriesFor(input.chunks);
    forall k: nat | k < |groups|
      ensures GroupFits(groups[k]) && Fetch(file, groups[k]) == input.chunks[k]
    {
      EntryHolds(c, input, k);
      ChunkFetches(c, input, k);
    }
    FetchedEach(file, groups, input.chunks);
  }

  lemma FetchedEach(file: Bytes, groups: seq<GroupEntry>, chunks: seq<Chunk>)
    requires |groups| == |chunks| && forall k | 0 <= k < |groups| :: Fetch(file, groups[k]) == chunks[k]
    ensures FetchAll(file, groups) == chunks
  {
    hide Fetch;
  }

  lemma TablesLie(c: Codec, input: Input)
    requires ValidInput(input)
    ensures var file := File(c, input);
            && ReadAt(file, 0, HEADER_AREA_SIZE) == Headers(c, FieldsOf(c, input))
            && ReadAt(file, Position(input.chunks, |input.chunks|), |PartTable(input)|) == PartTable(input)
            && ReadAt(file, RawTableAt(input), |RawTable(c, input)|) == RawTable(c, input)
            && ReadAt(file, GroupTableAt(c, input), |GroupTable(c, input)|) == GroupTable(c, input)
  {
    hide Headers, PartTable, RawTable, GroupTable, Body, AllKeyed, FieldsOf, Padding4, ReadAt;
    var head, body := Headers(c, FieldsOf(c, input)), Body(input.chunks, |input.chunks|);
    PartsLie(head, body, PartTable(input), Zeroes(Padding4(|PartTable(input)|)), RawTable(c, input),
      Zeroes(Padding4(|RawTable(c, input)|)), GroupTable(c, input));
  }

  /** The parts of a file lie where those before them end. */
  lemma PartsLie(head: Bytes, body: Bytes, parts: Bytes, gap: Bytes, raws: Bytes, space: Bytes, groups: Bytes)
    ensures var file := head + body + (parts + gap) + (raws + space) + groups;
            && ReadAt(file, 0, |head|) == head && ReadAt(file, |head| + |body|, |parts|) == parts
            && ReadAt(file, |head| + |body| + |parts + gap|, |raws|) == raws
            && ReadAt(file, |head| + |body| + |parts + gap| + |raws + space|, |groups|) == groups
  {
    hide ReadAt;
    var first := head + body;
    var second := first + (parts + gap);
    var third := second + (raws + space);
    assert [] + (head + []) == head;
    AtTheEnd([], head, []);
    StartStays(head, body, 0, |head|);
    StartStays(first, parts + gap, 0, |head|);
    StartStays(second, raws + space, 0, |head|);
    StartStays(third, groups, 0, |head|);
    AtTheEnd(first, parts, gap);
    StartStays(second, raws + space, |first|, |parts|);
    StartStays(third, groups, |first|, |parts|);
    AtTheEnd(second, raws, space);
    StartStays(third, groups, |second|, |raws|);
    AtTheEnd(third, groups, []);
    assert third + (groups + []) == third + groups;
  }

  lemma AtTheEnd(before: Bytes, mine: Bytes, gap: Bytes)
    ensures ReadAt(before + (mine + gap), |before|, |mine|) == mine
  {}

  lemma StartStays(file: Bytes, more: Bytes, at: nat, n: nat)
    requires at + n <= |file|
    ensures ReadAt(file + more, at, n) == ReadAt(file, at, n)
  {}

  lemma FirstHeaderLies(c: Codec, input: Input)
    requires ValidInput(input) && FieldsFit(FieldsOf(c, input))
    ensures HeaderBytesOf(File(c, input)) == Ok(Headers(c, FieldsOf(c, input)))
  {
    hide PartTable, RawTable, GroupTable, Body, AllKeyed, Headers, Get32, Get64, Position;
    var f, file := FieldsOf(c, input), File(c, input);
    HeadersRead(c, f);
    TablesLie(c, input);
    var first, head := ReadAt(file, 0, HEADER_1_SIZE), Headers(c, f);
    assert first == head[..HEADER_1_SIZE];
    assert Get32(first, 0x0c) == Get32(head, 0x0c) by {
      SameNumber(first, head);
    }
  }

  lemma SameNumber(first: Bytes, head: Bytes)
    requires |first| == HEADER_1_SIZE <= |head| && first == head[..HEADER_1_SIZE]
    ensures Get32(first, 0x0c) == Get32(head, 0x0c)
  {}

  lemma FieldsFitFile(c: Codec, input: Input)
    requires InputFits(c, input) && FileFits(c, input)
    ensures FieldsFit(FieldsOf(c, input)) && |PartTable(input)| == |input.parts| * PART_ENTRY_SIZE
    ensures FieldsOf(c, input).partCount == |input.parts|
  {
    hide RawTable, GroupTable, Body, AllKeyed, Concat;
    ConcatSize(PartRows(input.parts), PART_ENTRY_SIZE);
    CountFits(input.chunks);
  }

  lemma PartitionsRead(c: Codec, input: Input)
    requires InputFits(c, input) && FileFits(c, input)
    ensures var f := FieldsOf(c, input);
            PartitionsIn(File(c, input), HeaderOf(f), Headers(c, f)) == Ok(input.parts)
  {
    hide File, Concat, Headers, Body, PartTableInfo, FieldsFit;
    hide RawTableAt, GroupTableAt, FileSize, Position, PartFits, PartitionsFrom;
    var f, file := FieldsOf(c, input), File(c, input);
    FieldsFitFile(c, input);
    FileLong(c, input);
    HeadersRead(c, f);
    TablesLie(c, input);
    PartTableReads(input.parts, 0);
    assert input.parts[0..] == input.parts;
  }

  /** A compressed table reads back exactly when its length gives it away, or compressing left it as it was. */
  lemma TableInflates(c: Codec, table: Bytes)
    ensures TableBytes(c, c.compress(table), |table|) == Ok(table) <==> Distinct(c, table)
  {}

  lemma EntriesRead(c: Codec, input: Input)
    requires InputFits(c, input) && FileFits(c, input)
    ensures TableBytes(c, RawTable(c, input), |input.raws| * RAW_ENTRY_SIZE) == Ok(Concat(RawRows(input.raws)))
    ensures TableBytes(c, GroupTable(c, input), |input.chunks| * GROUP_ENTRY_SIZE)
         == Ok(Concat(GroupRows(EntriesFor(input.chunks))))
    ensures |Concat(RawRows(input.raws))| == |input.raws| * RAW_ENTRY_SIZE
    ensures |Concat(GroupRows(EntriesFor(input.chunks)))| == |input.chunks| * GROUP_ENTRY_SIZE
    ensures RawEntriesOf(Concat(RawRows(input.raws)), |input.raws|) == input.raws
    ensures GroupEntriesOf(Concat(GroupRows(EntriesFor(input.chunks))), |input.chunks|) == EntriesFor(input.chunks)
  {
    hide File, Concat, EntriesFor, GroupFits, RawFits, PartFits, FileSize, RawEntriesOf, GroupEntriesOf, TableBytes;
    RawTableReads(input.raws);
    ChunksFetch(c, input);
    GroupTableReads(EntriesFor(input.chunks));
    TableInflates(c, Concat(RawRows(input.raws)));
    TableInflates(c, Concat(GroupRows(EntriesFor(input.chunks))));
  }

  lemma ReadingSteps(c: Codec, file: Bytes, bytes: Bytes, h: Header, parts: seq<Partition>, raws: Bytes, groups: Bytes)
    requires HeaderBytesOf(file) == Ok(bytes) && ParseHeaderMin(bytes, |file|) == Ok(h) && h.compression == ZSTD
    requires |bytes| >= HEADER_1_SIZE + 0xd4 && PartitionsIn(file, h, bytes) == Ok(parts)
    requires TableBytes(c, ReadAt(file, h.rawOffset, h.rawSize), h.rawCount * RAW_ENTRY_SIZE) == Ok(raws)
    requires TableBytes(c, ReadAt(file, h.groupOffset, h.groupSize), h.groupCount * GROUP_ENTRY_SIZE) == Ok(groups)
    ensures |raws| == h.rawCount * RAW_ENTRY_SIZE && |groups| == h.groupCount * GROUP_ENTRY_SIZE
    ensures ContentsOf(c, file)
         == Ok(Contents(h, parts, RawEntriesOf(raws, h.rawCount), GroupEntriesOf(groups, h.groupCount)))
  {
    hide HeaderBytesOf, ParseHeaderMin, PartitionsIn, TableBytes, RawEntriesOf, GroupEntriesOf, ReadAt;
  }

  lemma NoLoss(x: nat)
    requires x < U32
    ensures x % U32 == x
  {}

  /** A container reads back as what was put into it. */
  lemma FileReads(c: Codec, input: Input)
    requires InputFits(c, input) && FileFits(c, input)
    ensures ContentsOf(c, File(c, input))
         == Ok(Contents(HeaderOf(FieldsOf(c, input)), input.parts, input.raws, EntriesFor(input.chunks)))
  {
    hide File, Concat, Headers, Body, EntriesFor, ParseHeaderMin, HeaderBytesOf, PartitionsIn, TableBytes, RawEntriesOf;
    hide GroupEntriesOf, Position, RawTableAt, GroupTableAt, FileSize, RawTable, GroupTable, PartTable, ReadAt;
    hide ContentsOf, ValidInput, PartTableInfo, RawRows, GroupRows, Get32, HasMagic, RawFits, PartFits, AllDeliverable;
    NoLoss(|RawTable(c, input)|);
    NoLoss(|GroupTable(c, input)|);
    hide InputFits, FileFits;
    var f, file := FieldsOf(c, input), File(c, input);
    FieldsFitFile(c, input);
    FirstHeaderLies(c, input);
    FileLong(c, input);
    HeadersRead(c, f);
    TablesLie(c, input);
    PartitionsRead(c, input);
    EntriesRead(c, input);
    ReadingSteps(c, file, Headers(c, f), HeaderOf(f), input.parts, Concat(RawRows(input.raws)),
      Concat(GroupRows(EntriesFor(input.chunks))));
  }

  lemma FileLong(c: Codec, input: Input)
    requires ValidInput(input)
    ensures FileSize(c, input) >= HEADER_AREA_SIZE
  {}

  // ---------- where things lie ----------

  /** That a stretch of the file starts at a multiple of four after the headers and ends before `next`. */
  predicate LiesBefore(at: nat, size: nat, next: nat) {
    at % 4 == 0 && HEADER_AREA_SIZE <= at && at + size <= next
  }

  /** Chunks and tables lie one after another at multiples of four, and the recorded size is that of the file. */
  lemma LaidOut(c: Codec, input: Input)
    requires ValidInput(input)
    ensures var n, chunks := |input.chunks|, input.chunks;
            && (forall k | 0 <= k < n :: LiesBefore(Position(chunks, k), |chunks[k].bytes|, Position(chunks, k + 1)))
            && LiesBefore(Position(chunks, n), |PartTable(input)|, RawTableAt(input))
            && LiesBefore(RawTableAt(input), |RawTable(c, input)|, GroupTableAt(c, input))
            && LiesBefore(GroupTableAt(c, input), |GroupTable(c, input)|, |File(c, input)|)
            && FieldsOf(c, input).fileSize == |File(c, input)|
  {
    hide PartTable, RawTable, GroupTable, File, AllKeyed, Position, Body, LiesBefore, RawTableAt, GroupTableAt;
    forall k | 0 <= k < |input.chunks|
      ensures LiesBefore(Position(input.chunks, k), |input.chunks[k].bytes|, Position(input.chunks, k + 1))
    {
      ChunkLaidOut(input.chunks, k);
    }
    TablesLaidOut(c, input);
  }

  lemma ChunkLaidOut(chunks: seq<Chunk>, k: nat)
    requires k < |chunks|
    ensures LiesBefore(Position(chunks, k), |chunks[k].bytes|, Position(chunks, k + 1))
  {
    assert |Body(chunks, k + 1)| == |Body(chunks, k)| + |Padded(chunks[k].bytes)|;
  }

  lemma TablesLaidOut(c: Codec, input: Input)
    requires ValidInput(input)
    ensures LiesBefore(Position(input.chunks, |input.chunks|), |PartTable(input)|, RawTableAt(input))
    ensures LiesBefore(RawTableAt(input), |RawTable(c, input)|, GroupTableAt(c, input))
    ensures LiesBefore(GroupTableAt(c, input), |GroupTable(c, input)|, FileSize(c, input))
  {
    hide PartTable, RawTable, GroupTable, AllKeyed, Position, Padding4;
    Quarters(Position(input.chunks, |input.chunks|), |Padded(PartTable(input))|);
    Quarters(RawTableAt(input), |Padded(RawTable(c, input))|);
  }

  lemma Quarters(a: nat, b: nat)
    requires a % 4 == 0 && b % 4 == 0
    ensures (a + b) % 4 == 0
  {}
}
