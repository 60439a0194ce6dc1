/** The container's header and management tables: how they are read, how they are written. */
module Tables {
  import opened Results
  import opened Sizes
  import opened BigEndian
  import opened Format

  const ZSTD: nat := 5

  // ---------- reading ----------

  predicate HasMagic(bytes: Bytes) {
    |bytes| >= HEADER_1_SIZE && bytes[0] == 0x52 && bytes[1] == 0x56 && bytes[2] == 0x5a
  }

  /** The second header is at least as long as the one this version writes, and lies in the file. */
  predicate SecondHeaderFits(bytes: Bytes, fileSize: nat)
    requires |bytes| >= HEADER_1_SIZE
  {
    var size := Get32(bytes, 0x0c);
    HEADER_2_SIZE <= size && HEADER_1_SIZE + size <= fileSize
  }

  function ParseHeaderMin(bytes: Bytes, fileSize: nat): Result<Header> {
    if !HasMagic(bytes) then Err(NotRvz)
    else if !SecondHeaderFits(bytes, fileSize) then Err(BadHeader)
    else if Get64(bytes, 0x2c) != fileSize then Err(FileSizeMismatch)
    else if |bytes| < HEADER_1_SIZE + 0xd4 then Err(Panic)
    else Ok(HeaderAt(bytes))
  }

  function HeaderAt(bytes: Bytes): Header
    requires |bytes| >= HEADER_1_SIZE + 0xd4
  {
    var h := HEADER_1_SIZE;
    Header(Get64(bytes, 0x24), Get32(bytes, h + 0x04), Get32(bytes, h + 0x0c),
           Get32(bytes, h + 0xb4), Get64(bytes, h + 0xb8), Get32(bytes, h + 0xc0),
           Get32(bytes, h + 0xc4), Get64(bytes, h + 0xc8), Get32(bytes, h + 0xd0),
           Get32(bytes, h + 0x90), bytes[h + 0x10..h + 0x90])
  }

  /** Where the partition table is, and how long its entries are. */
  function PartTableInfo(bytes: Bytes): (nat, nat)
    requires |bytes| >= HEADER_1_SIZE + 0xd4
  {
    (Get64(bytes, HEADER_1_SIZE + 0x98), Get32(bytes, HEADER_1_SIZE + 0x94))
  }

  function DataEntryAt(b: Bytes, o: nat): DataEntry
    requires o + PART_DATA_ENTRY_SIZE <= |b|
  {
    DataEntry(Get32(b, o), Get32(b, o + 4), Get32(b, o + 8), Get32(b, o + 12))
  }

  function PartitionAt(b: Bytes, o: nat): Partition
    requires o + PART_ENTRY_SIZE <= |b|
  {
    Partition(b[o..o + 16], DataEntryAt(b, o + 0x10), DataEntryAt(b, o + 0x20))
  }

  function PartitionsFrom(table: Bytes, count: nat, size: nat, p: nat): Result<seq<Partition>>
    decreases count - p
  {
    if p >= count then Ok([])
    else if p * size + PART_ENTRY_SIZE > |table| then Err(Panic)
    else
      var rest :- PartitionsFrom(table, count, size, p + 1);
      Ok([PartitionAt(table, p * size)] + rest)
  }

  /** Entries may be longer than this version's, but not shorter. */
  function PartitionsOf(table: Bytes, count: nat, size: nat): Result<seq<Partition>> {
    if size < PART_ENTRY_SIZE then Err(BadPartitionTable) else PartitionsFrom(table, count, size, 0)
  }

  /** A table is taken to be compressed unless it has exactly the expected length. */
  function TableBytes(c: Codec, table: Bytes, expected: nat): (r: Result<Bytes>)
    ensures r.Ok? ==> |r.value| == expected
  {
    if |table| != expected then
      var out :- c.decompress(table);
      if |out| != expected then Err(SizeMismatch) else Ok(out)
    else Ok(table)
  }

  function RawEntryAt(b: Bytes, o: nat): RawEntry
    requires o + RAW_ENTRY_SIZE <= |b|
  {
    RawEntry(Get64(b, o), Get64(b, o + 8), Get32(b, o + 16), Get32(b, o + 20))
  }

  function RawEntriesOf(table: Bytes, count: nat): (r: seq<RawEntry>)
    requires |table| == count * RAW_ENTRY_SIZE
    ensures |r| == count
  {
    seq(count, i requires 0 <= i < count => RawEntryAt(table, i * RAW_ENTRY_SIZE))
  }

  function GroupEntryAt(b: Bytes, o: nat): GroupEntry
    requires o + GROUP_ENTRY_SIZE <= |b|
  {
    GroupEntry(Get32(b, o), Get32(b, o + 4), Get32(b, o + 8))
  }

  function GroupEntriesOf(table: Bytes, count: nat): (r: seq<GroupEntry>)
    requires |table| == count * GROUP_ENTRY_SIZE
    ensures |r| == count
  {
    seq(count, i requires 0 <= i < count => GroupEntryAt(table, i * GROUP_ENTRY_SIZE))
  }

  /** All that a container says about its contents. */
  datatype Contents = Contents(header: Header, parts: seq<Partition>, raws: seq<RawEntry>, groups: seq<GroupEntry>)

  /** The header, read in two steps since its length is part of it. */
  function HeaderBytesOf(file: Bytes): Result<Bytes> {
    var first := ReadAt(file, 0, HEADER_1_SIZE);
    if !HasMagic(first) then Err(NotRvz)
    else if !SecondHeaderFits(first, |file|) then Err(BadHeader)
    else Ok(ReadAt(file, 0, HEADER_1_SIZE + Get32(first, 0x0c)))
  }

  function TableLength(count: nat, size: nat): nat {
    count * size
  }

  function PartitionsIn(file: Bytes, header: Header, bytes: Bytes): Result<seq<Partition>>
    requires |bytes| >= HEADER_1_SIZE + 0xd4
  {
    if header.partCount == 0 then Ok([])
    else
      var info := PartTableInfo(bytes);
      PartitionsOf(ReadAt(file, info.0, TableLength(header.partCount, info.1)), header.partCount, info.1)
  }

  /** A file of whatever bytes, read as a container. */
  function ContentsOf(c: Codec, file: Bytes): Result<Contents> {
    var bytes :- HeaderBytesOf(file);
    var header :- ParseHeaderMin(bytes, |file|);
    var parts :- PartitionsIn(file, header, bytes);
    if header.compression != ZSTD then Err(UnsupportedCompression)
    else
      var rawTable :- TableBytes(c, ReadAt(file, header.rawOffset, header.rawSize), header.rawCount * RAW_ENTRY_SIZE);
      var groupTable :-
          TableBytes(c, ReadAt(file, header.groupOffset, header.groupSize), header.groupCount * GROUP_ENTRY_SIZE);
      Ok(Contents(header, parts, RawEntriesOf(rawTable, header.rawCount),
          GroupEntriesOf(groupTable, header.groupCount)))
  }

  // ---------- writing ----------

  function Concat(pieces: seq<Bytes>): Bytes {
    if pieces == [] then [] else Concat(pieces[..|pieces| - 1]) + pieces[|pieces| - 1]
  }

  predicate AllSized(pieces: seq<Bytes>, size: nat) {
    forall i | 0 <= i < |pieces| :: |pieces[i]| == size
  }

  lemma {:induction false} ConcatSize(pieces: seq<Bytes>, size: nat)
    requires AllSized(pieces, size)
    ensures |Concat(pieces)| == |pieces| * size
  {
    if pieces != [] {
      ConcatSize(pieces[..|pieces| - 1], size);
      OneMore(|pieces| - 1, size);
    }
  }

  lemma OneMore(n: nat, size: nat)
    ensures (n + 1) * size == n * size + size
  {}

  lemma Sooner(i: nat, n: nat, size: nat)
    requires i < n
    ensures i * size + size <= n * size
  {
    OneMore(i, size);
  }

  /** Pieces of one size stand at its multiples. */
  lemma {:induction false} ConcatAt(pieces: seq<Bytes>, size: nat, i: nat)
    requires AllSized(pieces, size) && i < |pieces|
    ensures |Concat(pieces)| == |pieces| * size && i * size + size <= |Concat(pieces)|
    ensures Concat(pieces)[i * size..i * size + size] == pieces[i]
  {
    var n := |pieces| - 1;
    var shorter := pieces[..n];
    ConcatSize(shorter, size);
    ConcatSize(pieces, size);
    Sooner(i, n + 1, size);
    OneMore(n, size);
    if i < n {
      ConcatAt(shorter, size, i);
      SliceInFront(Concat(shorter), pieces[n], i * size, i * size + size);
    } else {
      SliceBehind(Concat(shorter), pieces[n]);
    }
  }

  lemma SliceInFront(a: Bytes, b: Bytes, lo: nat, hi: nat)
    requires lo <= hi <= |a|
    ensures (a + b)[lo..hi] == a[lo..hi]
  {}

  lemma SliceBehind(a: Bytes, b: Bytes)
    ensures (a + b)[|a|..|a| + |b|] == b
  {}

  function DataBytes(d: DataEntry): (b: Bytes)
    ensures |b| == PART_DATA_ENTRY_SIZE
  {
    Be32(d.fs % U32) + Be32(d.ns % U32) + Be32(d.gi % U32) + Be32(d.ng % U32)
  }

  function PartBytes(p: Partition): (b: Bytes)
    requires |p.key| == 16
    ensures |b| == PART_ENTRY_SIZE
  {
    p.key + DataBytes(p.first) + DataBytes(p.second)
  }

  function RawBytes(e: RawEntry): (b: Bytes)
    ensures |b| == RAW_ENTRY_SIZE
  {
    Be64(e.offset % U64) + Be64(e.size % U64) + Be32(e.group % U32) + Be32(e.groups % U32)
  }

  function GroupBytes(g: GroupEntry): (b: Bytes)
    ensures |b| == GROUP_ENTRY_SIZE
  {
    Be32(g.offset4 % U32) + Be32(g.size % U32) + Be32(g.packedSize % U32)
  }

  predicate AllKeyed(parts: seq<Partition>) {
    forall i | 0 <= i < |parts| :: |parts[i].key| == 16
  }

  function PartRows(parts: seq<Partition>): (r: seq<Bytes>)
    requires AllKeyed(parts)
    ensures |r| == |parts| && AllSized(r, PART_ENTRY_SIZE)
  {
    seq(|parts|, i requires 0 <= i < |parts| => PartBytes(parts[i]))
  }

  function RawRows(raws: seq<RawEntry>): (r: seq<Bytes>)
    ensures |r| == |raws| && AllSized(r, RAW_ENTRY_SIZE)
  {
    seq(|raws|, i requires 0 <= i < |raws| => RawBytes(raws[i]))
  }

  function GroupRows(groups: seq<GroupEntry>): (r: seq<Bytes>)
    ensures |r| == |groups| && AllSized(r, GROUP_ENTRY_SIZE)
  {
    seq(|groups|, i requires 0 <= i < |groups| => GroupBytes(groups[i]))
  }

  // ---------- tables read back ----------

  predicate DataFits(d: DataEntry) {
    d.fs < U32 && d.ns < U32 && d.gi < U32 && d.ng < U32
  }

  predicate PartFits(p: Partition) {
    |p.key| == 16 && DataFits(p.first) && DataFits(p.second)
  }

  predicate RawFits(e: RawEntry) {
    e.offset < U64 && e.size < U64 && e.group < U32 && e.groups < U32
  }

  predicate GroupFits(g: GroupEntry) {
    g.offset4 < U32 && g.size < U32 && g.packedSize < U32
  }

  lemma DataReads(b: Bytes, o: nat, d: DataEntry)
    requires o + PART_DATA_ENTRY_SIZE <= |b| && b[o..o + PART_DATA_ENTRY_SIZE] == DataBytes(d) && DataFits(d)
    ensures DataEntryAt(b, o) == d
  {
    hide Be32, Get32;
    var row := b[o..o + PART_DATA_ENTRY_SIZE];
    SubSlice(b, o, 16, 0, 4);
    SubSlice(b, o, 16, 4, 8);
    SubSlice(b, o, 16, 8, 12);
    SubSlice(b, o, 16, 12, 16);
    assert row[0..4] == Be32(d.fs) && row[4..8] == Be32(d.ns) && row[8..12] == Be32(d.gi) && row[12..16] == Be32(d.ng);
    GetPut32(b, o, d.fs);
    GetPut32(b, o + 4, d.ns);
    GetPut32(b, o + 8, d.gi);
    GetPut32(b, o + 12, d.ng);
  }

  lemma PartReads(b: Bytes, o: nat, p: Partition)
    requires PartFits(p) && o + PART_ENTRY_SIZE <= |b| && b[o..o + PART_ENTRY_SIZE] == PartBytes(p)
    ensures PartitionAt(b, o) == p
  {
    hide DataBytes, DataEntryAt, DataFits;
    var row := b[o..o + PART_ENTRY_SIZE];
    SubSlice(b, o, PART_ENTRY_SIZE, 0, 16);
    SubSlice(b, o, PART_ENTRY_SIZE, 16, 32);
    SubSlice(b, o, PART_ENTRY_SIZE, 32, 48);
    assert row[0..16] == p.key && row[16..32] == DataBytes(p.first) && row[32..48] == DataBytes(p.second);
    DataReads(b, o + 0x10, p.first);
    DataReads(b, o + 0x20, p.second);
  }

  lemma RawReads(b: Bytes, o: nat, e: RawEntry)
    requires RawFits(e) && o + RAW_ENTRY_SIZE <= |b| && b[o..o + RAW_ENTRY_SIZE] == RawBytes(e)
    ensures RawEntryAt(b, o) == e
  {
    hide Be32, Be64, Get32, Get64;
    var row := b[o..o + RAW_ENTRY_SIZE];
    SubSlice(b, o, RAW_ENTRY_SIZE, 0, 8);
    SubSlice(b, o, RAW_ENTRY_SIZE, 8, 16);
    SubSlice(b, o, RAW_ENTRY_SIZE, 16, 20);
    SubSlice(b, o, RAW_ENTRY_SIZE, 20, 24);
    assert row[0..8] == Be64(e.offset) && row[8..16] == Be64(e.size);
    assert row[16..20] == Be32(e.group) && row[20..24] == Be32(e.groups);
    GetPut64(b, o, e.offset);
    GetPut64(b, o + 8, e.size);
    GetPut32(b, o + 16, e.group);
    GetPut32(b, o + 20, e.groups);
  }

  lemma GroupReads(b: Bytes, o: nat, g: GroupEntry)
    requires GroupFits(g) && o + GROUP_ENTRY_SIZE <= |b| && b[o..o + GROUP_ENTRY_SIZE] == GroupBytes(g)
    ensures GroupEntryAt(b, o) == g
  {
    hide Be32, Get32;
    var row := b[o..o + GROUP_ENTRY_SIZE];
    SubSlice(b, o, GROUP_ENTRY_SIZE, 0, 4);
    SubSlice(b, o, GROUP_ENTRY_SIZE, 4, 8);
    SubSlice(b, o, GROUP_ENTRY_SIZE, 8, 12);
    assert row[0..4] == Be32(g.offset4) && row[4..8] == Be32(g.size) && row[8..12] == Be32(g.packedSize);
    GetPut32(b, o, g.offset4);
    GetPut32(b, o + 4, g.size);
    GetPut32(b, o + 8, g.packedSize);
  }

  /** A written table of partitions parses back. */
  lemma {:induction false} PartTableReads(parts: seq<Partition>, p: nat)
    requires p <= |parts| && forall i | 0 <= i < |parts| :: PartFits(parts[i])
    ensures AllKeyed(parts)
    ensures PartitionsFrom(Concat(PartRows(parts)), |parts|, PART_ENTRY_SIZE, p) == Ok(parts[p..])
    decreases |parts| - p
  {
    hide DataFits, PartBytes, PartitionAt, Concat;
    assert AllKeyed(parts);
    if p == |parts| {
      assert parts[p..] == [];
    } else {
      var table := Concat(PartRows(parts));
      ConcatAt(PartRows(parts), PART_ENTRY_SIZE, p);
      PartReads(table, p * PART_ENTRY_SIZE, parts[p]);
      PartTableReads(parts, p + 1);
      assert parts[p..] == [parts[p]] + parts[p + 1..];
    }
  }

  lemma RawTableReads(raws: seq<RawEntry>)
    requires forall i | 0 <= i < |raws| :: RawFits(raws[i])
    ensures |Concat(RawRows(raws))| == |raws| * RAW_ENTRY_SIZE
    ensures RawEntriesOf(Concat(RawRows(raws)), |raws|) == raws
  {
    hide RawFits, RawBytes, RawEntryAt, Concat;
    var table := Concat(RawRows(raws));
    ConcatSize(RawRows(raws), RAW_ENTRY_SIZE);
    forall i | 0 <= i < |raws|
      ensures RawEntriesOf(table, |raws|)[i] == raws[i]
    {
      ConcatAt(RawRows(raws), RAW_ENTRY_SIZE, i);
      RawReads(table, i * RAW_ENTRY_SIZE, raws[i]);
    }
  }

  lemma GroupTableReads(groups: seq<GroupEntry>)
    requires forall i | 0 <= i < |groups| :: GroupFits(groups[i])
    ensures |Concat(GroupRows(groups))| == |groups| * GROUP_ENTRY_SIZE
    ensures GroupEntriesOf(Concat(GroupRows(groups)), |groups|) == groups
  {
    hide GroupFits, GroupBytes, GroupEntryAt, Concat;
    var table := Concat(GroupRows(groups));
    ConcatSize(GroupRows(groups), GROUP_ENTRY_SIZE);
    forall i | 0 <= i < |groups|
      ensures GroupEntriesOf(table, |groups|)[i] == groups[i]
    {
      ConcatAt(GroupRows(groups), GROUP_ENTRY_SIZE, i);
      GroupReads(table, i * GROUP_ENTRY_SIZE, groups[i]);
    }
  }
}
