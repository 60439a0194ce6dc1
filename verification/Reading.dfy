/** What reading any file as a container makes of it, said by the bytes of the file. */
module Reading {
  import opened Results
  import opened Sizes
  import opened BigEndian
  import opened Format
  import opened Tables
  import opened Layout

  // ---------- the headers ----------

  predicate LooksLikeRvz(file: Bytes) {
    0x48 <= |file| && file[0..3] == [0x52, 0x56, 0x5a]
  }

  /** The second header is not shorter than it may be, and lies in the file. */
  predicate SecondLies(file: Bytes)
    requires 0x48 <= |file|
  {
    0xdc <= Number(file, 0x0c, 4) <= |file| - 0x48
  }

  predicate HeadersRight(file: Bytes) {
    LooksLikeRvz(file) && SecondLies(file) && Number(file, 0x2c, 8) == |file|
  }

  /** What the headers say, each number where it stands. */
  predicate HeaderSaid(file: Bytes, h: Header) {
    && 0x124 <= |file| && h.isoSize == Number(file, 0x24, 8) && h.compression == Number(file, 0x4c, 4)
    && h.chunkSize == Number(file, 0x54, 4) && h.dhead == file[0x58..0xd8] && h.partCount == Number(file, 0xd8, 4)
    && h.rawCount == Number(file, 0xfc, 4) && h.rawOffset == Number(file, 0x100, 8)
    && h.rawSize == Number(file, 0x108, 4) && h.groupCount == Number(file, 0x10c, 4)
    && h.groupOffset == Number(file, 0x110, 8) && h.groupSize == Number(file, 0x118, 4)
  }

  lemma Prefix32(file: Bytes, n: nat, o: nat)
    requires o + 4 <= n <= |file|
    ensures Get32(file[..n], o) == Number(file, o, 4)
  {
    hide Get32, Number;
    Number32(file[..n], o);
    InPrefix(file, file[..n], o, 4);
    NumberSame(file[..n], o, file, o, 4);
  }

  lemma Prefix64(file: Bytes, n: nat, o: nat)
    requires o + 8 <= n <= |file|
    ensures Get64(file[..n], o) == Number(file, o, 8)
  {
    hide Get64, Number;
    Number64(file[..n], o);
    InPrefix(file, file[..n], o, 8);
    NumberSame(file[..n], o, file, o, 8);
  }

  lemma MagicIs(file: Bytes)
    ensures HasMagic(ReadAt(file, 0, HEADER_1_SIZE)) <==> LooksLikeRvz(file)
  {
    if 0x48 <= |file| {
      var first := ReadAt(file, 0, HEADER_1_SIZE);
      assert first == file[..0x48];
      assert file[0..3] == [first[0], first[1], first[2]];
    }
  }

  /** The header bytes are those up to the second header's end, or the reason there are none. */
  lemma HeaderBytesAre(file: Bytes)
    ensures HeaderBytesOf(file)
         == if !LooksLikeRvz(file) then Err(NotRvz)
            else if !SecondLies(file) then Err(BadHeader)
            else Ok(file[..0x48 + Number(file, 0x0c, 4)])
  {
    hide Get32, Number, HasMagic;
    MagicIs(file);
    if LooksLikeRvz(file) {
      Prefix32(file, 0x48, 0x0c);
      assert ReadAt(file, 0, HEADER_1_SIZE) == file[..0x48];
    }
  }

  lemma HeaderIs(file: Bytes)
    requires LooksLikeRvz(file) && SecondLies(file)
    ensures var bytes := file[..0x48 + Number(file, 0x0c, 4)];
            && (Number(file, 0x2c, 8) != |file| ==> ParseHeaderMin(bytes, |file|) == Err(FileSizeMismatch))
            && (Number(file, 0x2c, 8) == |file| ==>
                  ParseHeaderMin(bytes, |file|).Ok? && HeaderSaid(file, ParseHeaderMin(bytes, |file|).value))
            && PartTableInfo(bytes) == (Number(file, 0xe0, 8), Number(file, 0xdc, 4))
  {
    hide Get32, Get64, Number;
    var n := 0x48 + Number(file, 0x0c, 4);
    assert file[0..3] == [file[..n][0], file[..n][1], file[..n][2]];
    Prefix32(file, n, 0x0c);
    Prefix64(file, n, 0x24);
    Prefix64(file, n, 0x2c);
    Prefix32(file, n, 0x4c);
    Prefix32(file, n, 0x54);
    InPrefix(file, file[..n], 0x58, 0x80);
    Prefix32(file, n, 0xd8);
    Prefix32(file, n, 0xdc);
    Prefix64(file, n, 0xe0);
    Prefix32(file, n, 0xfc);
    Prefix64(file, n, 0x100);
    Prefix32(file, n, 0x108);
    Prefix32(file, n, 0x10c);
    Prefix64(file, n, 0x110);
    Prefix32(file, n, 0x118);
  }

  // ---------- the tables ----------

  lemma DataEntryIs(b: Bytes, o: nat)
    requires o + 16 <= |b|
    ensures DataSaid(b, o, DataEntryAt(b, o))
  {
    hide Get32, Number;
    Number32(b, o);
    Number32(b, o + 4);
    Number32(b, o + 8);
    Number32(b, o + 12);
  }

  lemma PartitionIs(b: Bytes, o: nat)
    requires o + 48 <= |b|
    ensures PartSaid(b, o, PartitionAt(b, o))
  {
    hide DataEntryAt, DataSaid;
    DataEntryIs(b, o + 0x10);
    DataEntryIs(b, o + 0x20);
  }

  /** Rows may be longer than 48 bytes, but what counts stands at their start. */
  predicate PartsSaid(table: Bytes, size: nat, parts: seq<Partition>, from: nat) {
    forall p | 0 <= p < |parts| :: PartSaid(table, (from + p) * size, parts[p])
  }

  lemma {:induction false} PartitionsAre(table: Bytes, count: nat, size: nat, p: nat)
    requires p <= count
    ensures var r := PartitionsFrom(table, count, size, p);
            && (r.Ok? ==> |r.value| == count - p && PartsSaid(table, size, r.value, p))
            && (r.Err? ==> r.error == Panic)
    decreases count - p
  {
    hide PartitionAt, PartSaid;
    if p < count && p * size + PART_ENTRY_SIZE <= |table| {
      PartitionsAre(table, count, size, p + 1);
      PartitionIs(table, p * size);
      var rest := PartitionsFrom(table, count, size, p + 1);
      if rest.Ok? {
        var all := [PartitionAt(table, p * size)] + rest.value;
        forall q | 0 <= q < |all|
          ensures PartSaid(table, (p + q) * size, all[q])
        {
          if q > 0 {
            assert all[q] == rest.value[q - 1] && p + q == p + 1 + (q - 1);
          }
        }
      }
    }
  }

  lemma RawEntriesAre(table: Bytes, count: nat, i: nat)
    requires |table| == count * RAW_ENTRY_SIZE && i < count
    ensures Layout.RawSaid(table, 24 * i, RawEntriesOf(table, count)[i])
  {
    hide Get32, Get64, Number;
    Number64(table, 24 * i);
    Number64(table, 24 * i + 8);
    Number32(table, 24 * i + 16);
    Number32(table, 24 * i + 20);
  }

  predicate GroupRow(b: Bytes, o: nat, g: GroupEntry) {
    && o + 12 <= |b| && Number(b, o, 4) == g.offset4 && Number(b, o + 4, 4) == g.size
    && Number(b, o + 8, 4) == g.packedSize
  }

  lemma GroupEntriesAre(table: Bytes, count: nat, i: nat)
    requires |table| == count * GROUP_ENTRY_SIZE && i < count
    ensures GroupRow(table, 12 * i, GroupEntriesOf(table, count)[i])
  {
    hide Get32, Number;
    Number32(table, 12 * i);
    Number32(table, 12 * i + 4);
    Number32(table, 12 * i + 8);
  }

  /** A table as it is stored: as it is if it has the right length, else compressed. */
  ghost predicate Kept(c: Codec, stored: Bytes, table: Bytes) {
    if |stored| == |table| then stored == table else c.decompress(stored) == Ok(table)
  }

  lemma TableIs(c: Codec, stored: Bytes, expected: nat)
    ensures var r := TableBytes(c, stored, expected);
            r.Ok? ==> |r.value| == expected && Kept(c, stored, r.value)
  {}

  /** The partitions, raw regions and groups are what the tables' rows say. */
  ghost predicate RowsSaid(c: Codec, file: Bytes, t: Contents) {
    && |t.parts| == t.header.partCount && |t.raws| == t.header.rawCount && |t.groups| == t.header.groupCount
    && (t.parts != [] ==>
          && 0x124 <= |file| && 48 <= Number(file, 0xdc, 4)
          && PartsSaid(ReadAt(file, Number(file, 0xe0, 8), TableLength(|t.parts|, Number(file, 0xdc, 4))),
               Number(file, 0xdc, 4), t.parts, 0))
    && (exists table: Bytes ::
          && |table| == 24 * |t.raws| && Kept(c, ReadAt(file, t.header.rawOffset, t.header.rawSize), table)
          && forall i | 0 <= i < |t.raws| :: Layout.RawSaid(table, 24 * i, t.raws[i]))
    && (exists table: Bytes ::
          && |table| == 12 * |t.groups| && Kept(c, ReadAt(file, t.header.groupOffset, t.header.groupSize), table)
          && forall k | 0 <= k < |t.groups| :: GroupRow(table, 12 * k, t.groups[k]))
  }

  lemma PartsAre(file: Bytes, h: Header)
    requires HeadersRight(file) && h.partCount == Number(file, 0xd8, 4)
    ensures var bytes := file[..0x48 + Number(file, 0x0c, 4)];
            var r := PartitionsIn(file, h, bytes);
            && (h.partCount == 0 ==> r == Ok([]))
            && (0 < h.partCount && Number(file, 0xdc, 4) < 48 ==> r == Err(BadPartitionTable))
            && (r.Ok? ==> |r.value| == h.partCount)
            && (r.Ok? && r.value != [] ==>
                  && 48 <= Number(file, 0xdc, 4)
                  && PartsSaid(ReadAt(file, Number(file, 0xe0, 8), TableLength(h.partCount, Number(file, 0xdc, 4))),
                       Number(file, 0xdc, 4), r.value, 0))
  {
    hide PartTableInfo, Number, ReadAt, PartitionsFrom, PartsSaid, TableLength;
    HeaderIs(file);
    var at, size := Number(file, 0xe0, 8), Number(file, 0xdc, 4);
    PartitionsAre(ReadAt(file, at, TableLength(h.partCount, size)), h.partCount, size, 0);
  }

  lemma RowsAre(c: Codec, file: Bytes, t: Contents, raws: Bytes, groups: Bytes)
    requires |raws| == t.header.rawCount * RAW_ENTRY_SIZE && t.raws == RawEntriesOf(raws, t.header.rawCount)
    requires |groups| == t.header.groupCount * GROUP_ENTRY_SIZE
    requires t.groups == GroupEntriesOf(groups, t.header.groupCount)
    ensures forall i | 0 <= i < |t.raws| :: Layout.RawSaid(raws, 24 * i, t.raws[i])
    ensures forall k | 0 <= k < |t.groups| :: GroupRow(groups, 12 * k, t.groups[k])
  {
    hide RawEntriesOf, GroupEntriesOf, GroupRow, Layout.RawSaid;
    forall i | 0 <= i < |t.raws|
      ensures Layout.RawSaid(raws, 24 * i, t.raws[i])
    {
      RawEntriesAre(raws, t.header.rawCount, i);
    }
    forall k | 0 <= k < |t.groups|
      ensures GroupRow(groups, 12 * k, t.groups[k])
    {
      GroupEntriesAre(groups, t.header.groupCount, k);
    }
  }

  /**
   A file is refused for its headers in this order of reasons; one that is read has the headers right, is
   compressed as known, and says what is made of it.
   */
  lemma ReadAsSaid(c: Codec, file: Bytes)
    ensures var r := ContentsOf(c, file);
            && (!LooksLikeRvz(file) ==> r == Err(NotRvz))
            && (LooksLikeRvz(file) && !SecondLies(file) ==> r == Err(BadHeader))
            && (LooksLikeRvz(file) && SecondLies(file) && Number(file, 0x2c, 8) != |file| ==>
                  r == Err(FileSizeMismatch))
            && (HeadersRight(file) && 0 < Number(file, 0xd8, 4) && Number(file, 0xdc, 4) < 48 ==>
                  r == Err(BadPartitionTable))
            && (HeadersRight(file) && Number(file, 0xd8, 4) == 0 && Number(file, 0x4c, 4) != 5 ==>
                  r == Err(UnsupportedCompression))
            && (r.Ok? ==> HeadersRight(file) && HeaderSaid(file, r.value.header) && r.value.header.compression == 5
                            && RowsSaid(c, file, r.value))
  {
    hide HeaderBytesOf, ParseHeaderMin, PartitionsIn, TableBytes, RawEntriesOf, GroupEntriesOf, ReadAt, Number;
    hide HeaderSaid, Kept, PartsSaid, TableLength, GroupRow, Layout.RawSaid;
    HeaderBytesAre(file);
    if LooksLikeRvz(file) && SecondLies(file) {
      HeaderIs(file);
      if HeadersRight(file) {
        var bytes := file[..0x48 + Number(file, 0x0c, 4)];
        var h := ParseHeaderMin(bytes, |file|).value;
        assert h.partCount == Number(file, 0xd8, 4) && h.compression == Number(file, 0x4c, 4) by {
          CountIs(file, h);
        }
        PartsAre(file, h);
        var r := ContentsOf(c, file);
        if r.Ok? {
          var rawSize, groupSize := h.rawCount * RAW_ENTRY_SIZE, h.groupCount * GROUP_ENTRY_SIZE;
          TableIs(c, ReadAt(file, h.rawOffset, h.rawSize), rawSize);
          TableIs(c, ReadAt(file, h.groupOffset, h.groupSize), groupSize);
          var raws := TableBytes(c, ReadAt(file, h.rawOffset, h.rawSize), rawSize).value;
          var groups := TableBytes(c, ReadAt(file, h.groupOffset, h.groupSize), groupSize).value;
          RowsAre(c, file, r.value, raws, groups);
          assert |raws| == 24 * |r.value.raws| && |groups| == 12 * |r.value.groups|;
        }
      }
    }
  }

  lemma CountIs(file: Bytes, h: Header)
    requires HeaderSaid(file, h)
    ensures 0x124 <= |file| && h.partCount == Number(file, 0xd8, 4) && h.compression == Number(file, 0x4c, 4)
  {}
}
