/**
 A family of discs that are not covered: their partition's data starts 4 GiB after the partition does,
 and right behind the data there is one more candidate and a tail of zeroes.
 */
module FarData {
  import opened Words
  import opened Results
  import opened Sizes
  import opened BigEndian
  import opened Format
  import opened Planning
  import opened EndToEnd
  import Sorting

  const PARTITION_AT: nat := 0x5_0000
  const DATA_AT: nat := 0x1_0005_0000
  const LATE_AT: nat := DATA_AT + BLOCK_TOTAL_SIZE

  function DiscByte(i: nat): Byte {
    // The magic number.
    if i == 0x18 then 0x5d else if i == 0x19 then 0x1c else if i == 0x1a then 0x9e else if i == 0x1b then 0xa3
    // One table of two entries.
    else if i == 0x4_0003 then 2 else if i == 0x4_0005 then 0x01 else if i == 0x4_0007 then 0x08
    else if i == 0x4_0021 then 0x01 else if i == 0x4_0022 then 0x40
    else if i == 0x4_0028 then 0x40 else if i == 0x4_0029 then 0x01 else if i == 0x4_002a then 0x60
    // The partition's magic number, where its data is, and how much.
    else if i == 0x5_0001 then 1 else if i == 0x5_0003 then 1
    else if i == 0x5_02b8 then 0x40 else if i == 0x5_02be then 0x20
    else 0
  }

  /** The disc with `tail` bytes behind the data. */
  function FarDisc(tail: nat): (iso: Bytes)
    ensures |iso| == LATE_AT + tail
  {
    seq(LATE_AT + tail, i requires 0 <= i => DiscByte(i))
  }

  /** What is considered on it: the second candidate only if the disc reaches that far. */
  function FarList(tail: nat): seq<Candidate> {
    [Candidate(PARTITION_AT, 0)] + if tail == 0 then [] else [Candidate(LATE_AT, 0)]
  }

  lemma NumberAt(tail: nat, at: nat, o: nat, n: nat)
    requires o + 4 <= n && at + n <= |FarDisc(tail)|
    ensures var b, i := ReadAt(FarDisc(tail), at, n), at + o;
            && |b| == n && Get32(b, o) == DiscByte(i) as nat * 0x100_0000 + DiscByte(i + 1) as nat * 0x1_0000
            + DiscByte(i + 2) as nat * 0x100 + DiscByte(i + 3) as nat
  {
    hide DiscByte;
    var iso, b := FarDisc(tail), ReadAt(FarDisc(tail), at, n);
    assert b == iso[at..at + n];
    assert b[o] == iso[at + o] && b[o + 1] == iso[at + o + 1] && b[o + 2] == iso[at + o + 2]
        && b[o + 3] == iso[at + o + 3];
  }

  lemma FarIsWii(tail: nat)
    ensures IsWii(FarDisc(tail))
  {
    NumberAt(tail, 0, 0x18, DISC_HEADER_SIZE);
    hide FarDisc, Get32;
    var h := ReadAt(FarDisc(tail), 0, DISC_HEADER_SIZE);
    assert DiscHeader(FarDisc(tail)) == h;
  }

  function TablesHeader(tail: nat): Bytes {
    ReadAt(FarDisc(tail), PARTITION_TABLE_OFFSET, 0x20)
  }

  lemma FarTable(tail: nat)
    ensures |TablesHeader(tail)| == 0x20
    ensures TableEntries(FarDisc(tail), TablesHeader(tail), 0) == FarList(tail)
  {
    hide FarDisc, Get32, ReadAt;
    var iso, header, table := FarDisc(tail), TablesHeader(tail), ReadAt(FarDisc(tail), 0x4_0020, 16);
    NumberAt(tail, PARTITION_TABLE_OFFSET, 0, 0x20);
    NumberAt(tail, PARTITION_TABLE_OFFSET, 4, 0x20);
    NumberAt(tail, 0x4_0020, 0, 16);
    NumberAt(tail, 0x4_0020, 4, 16);
    NumberAt(tail, 0x4_0020, 8, 16);
    NumberAt(tail, 0x4_0020, 12, 16);
    assert Get32(header, 0) == 2 && Get32(header, 4) == 0x1_0008;
    assert Get32(table, 0) == 0x1_4000 && Get32(table, 4) == 0;
    assert Get32(table, 8) == 0x4001_6000 && Get32(table, 12) == 0;
    assert EntriesFrom(iso, table, 2, 2) == [];
    assert EntriesFrom(iso, table, 2, 1) == if tail == 0 then [] else [Candidate(LATE_AT, 0)];
    assert EntriesFrom(iso, table, 2, 0) == FarList(tail);
  }

  lemma OtherTable(tail: nat, g: nat)
    requires 0 < g < 4
    ensures |TablesHeader(tail)| == 0x20 && TableEntries(FarDisc(tail), TablesHeader(tail), g) == []
  {
    hide FarDisc, Get32, ReadAt;
    NumberAt(tail, PARTITION_TABLE_OFFSET, 8 * g, 0x20);
    assert Get32(TablesHeader(tail), 8 * g) == 0;
  }

  lemma FarTables(tail: nat)
    ensures |TablesHeader(tail)| == 0x20
    ensures TablesFrom(FarDisc(tail), TablesHeader(tail), 0) == FarList(tail)
  {
    hide FarDisc, TablesHeader, TableEntries, TablesFrom;
    FarTable(tail);
    OtherTable(tail, 1);
    OtherTable(tail, 2);
    OtherTable(tail, 3);
    OneTable(FarDisc(tail), TablesHeader(tail));
  }

  lemma OneTable(iso: Bytes, header: Bytes)
    requires |header| >= 0x20 && TableEntries(iso, header, 1) == TableEntries(iso, header, 2) == []
    requires TableEntries(iso, header, 3) == []
    ensures TablesFrom(iso, header, 0) == TableEntries(iso, header, 0)
  {
    hide TableEntries;
    assert TablesFrom(iso, header, 4) == [];
    assert TablesFrom(iso, header, 3) == [];
    assert TablesFrom(iso, header, 2) == [];
    assert TablesFrom(iso, header, 1) == [];
  }

  /** The partition passes its checks, but its data, one block, starts too far away. */
  lemma FarStart(c: Codec, tail: nat)
    ensures var r := SetUp(c, FarDisc(tail), PARTITION_AT);
            && r.Ok? && r.value.Some? && r.value.value.dataStart == DATA_AT
            && r.value.value.dataSize == BLOCK_TOTAL_SIZE
    ensures !NearStart(c, FarDisc(tail), PARTITION_AT)
  {
    hide FarDisc, Get32, ReadAt, TitleKey, FileTable;
    NumberAt(tail, PARTITION_AT, 0, PARTITION_HEADER_SIZE);
    NumberAt(tail, PARTITION_AT, 0x2b8, PARTITION_HEADER_SIZE);
    NumberAt(tail, PARTITION_AT, 0x2bc, PARTITION_HEADER_SIZE);
    var header := ReadAt(FarDisc(tail), PARTITION_AT, PARTITION_HEADER_SIZE);
    assert Get32(header, 0) == PARTITION_MAGIC;
    assert Get32(header, 0x2b8) == 0x4000_0000 && Get32(header, 0x2bc) == 0x2000;
  }

  /** The second candidate is no partition, whether or not its header lies on the disc. */
  lemma LateStart(c: Codec, tail: nat)
    ensures SetUp(c, FarDisc(tail), LATE_AT) == Ok(None)
  {
    hide FarDisc, Get32, ReadAt, SetUp;
    if HeaderFits(FarDisc(tail), LATE_AT) {
      NumberAt(tail, LATE_AT, 0, PARTITION_HEADER_SIZE);
      assert Get32(ReadAt(FarDisc(tail), LATE_AT, PARTITION_HEADER_SIZE), 0) == 0;
    }
    hide DiscByte;
    NotSetUp(c, FarDisc(tail), LATE_AT);
  }

  lemma NotSetUp(c: Codec, iso: Bytes, offset: nat)
    requires HeaderFits(iso, offset) ==>
               var header := ReadAt(iso, offset, PARTITION_HEADER_SIZE);
               |header| == PARTITION_HEADER_SIZE && Get32(header, 0) != PARTITION_MAGIC
    ensures SetUp(c, iso, offset) == Ok(None)
  {
    hide Get32, ReadAt, TitleKey, FileTable;
  }

  lemma FarCandidates(tail: nat)
    ensures Considered(FarDisc(tail), IsWii(FarDisc(tail))) == FarList(tail)
  {
    FarIsWii(tail);
    FarTables(tail);
    hide IsWii, FarDisc, TablesFrom, ReadAt;
    var cand, late := Candidate(PARTITION_AT, 0), Candidate(LATE_AT, 0);
    assert Sorting.Sorted(OffsetKey, []) == [];
    assert [late][1..] == [] && [cand][1..] == [] && [cand, late][1..] == [late];
    assert Sorting.Sorted(OffsetKey, [cand]) == [cand];
    assert Sorting.Sorted(OffsetKey, [late]) == [late];
    assert Sorting.Insert(OffsetKey, cand, [late]) == [cand] + [late];
    assert Sorting.Sorted(OffsetKey, [cand, late]) == [cand, late];
    assert FarList(tail) == if tail == 0 then [cand] else [cand, late];
  }

  /** The partition is taken in, and its data ends where the second candidate is. */
  lemma FarAdded(c: Codec, tail: nat)
    ensures var next := AddCandidate(c, FarDisc(tail), NOTHING, FarList(tail)[0]);
            next.Ok? && next.value.lastEnd == LATE_AT
  {
    FarStart(c, tail);
    hide FarDisc, SetUp, NearStart, AddCandidate, AlignDown;
    EndOfData(c, FarDisc(tail), NOTHING, FarList(tail)[0], SetUp(c, FarDisc(tail), PARTITION_AT).value.value);
    LateAligned();
  }

  lemma LateAligned()
    ensures AlignDown(DATA_AT + BLOCK_TOTAL_SIZE, BLOCK_TOTAL_SIZE) == LATE_AT
  {}

  lemma FarPlanned(c: Codec, tail: nat)
    ensures PlanFor(c, FarDisc(tail)).Ok?
  {
    var iso, cands := FarDisc(tail), FarList(tail);
    FarCandidates(tail);
    FarAdded(c, tail);
    LateStart(c, tail);
    hide FarDisc, IsWii, SetUp, NearStart, Considered, AddCandidates, AddCandidate, PlanOf;
    var next := AddCandidate(c, iso, NOTHING, cands[0]).value;
    FirstCandidate(c, iso, NOTHING, cands);
    if tail == 0 {
      assert cands[1..] == [];
      NoCandidates(c, iso, next);
    } else {
      assert cands[1..] == [Candidate(LATE_AT, 0)];
      OneCandidate(c, iso, next, Candidate(LATE_AT, 0));
    }
    PlannedWhen(c, iso, IsWii(iso));
  }

  lemma FarIsNotNear(c: Codec, tail: nat)
    ensures !Coverable(c, FarDisc(tail))
  {
    FarCandidates(tail);
    FarStart(c, tail);
    hide FarDisc, IsWii, Considered, NearStart, NearData, SetUp;
    FirstIsFar(c, FarDisc(tail), NOTHING, FarList(tail));
  }

  /** These discs are planned without complaint, but the plan leaves bytes of them out, whatever the primitives. */
  lemma FarIsNotCovered(c: Codec, tail: nat)
    ensures !Coverable(c, FarDisc(tail)) && PlanFor(c, FarDisc(tail)).Ok?
    ensures exists x: nat :: x < |FarDisc(tail)| && !Covered(PlanFor(c, FarDisc(tail)).value.order, x)
  {
    hide FarDisc, Coverable, PlanFor, Covered;
    FarIsNotNear(c, tail);
    FarPlanned(c, tail);
    PlanCoversWhen(c, FarDisc(tail));
  }

  /**
   The headers of these discs are read in order exactly when the tail is too short for the second
   candidate's header; with a longer tail that header is read although bytes before it are left out.
   */
  lemma LateIsReadEarly(c: Codec, tail: nat)
    ensures var iso := FarDisc(tail);
            FarComesLast(c, iso, NOTHING, Considered(iso, IsWii(iso))) <==> tail < PARTITION_HEADER_SIZE
  {
    var iso, cands := FarDisc(tail), FarList(tail);
    FarCandidates(tail);
    FarStart(c, tail);
    FarAdded(c, tail);
    hide FarDisc, IsWii, SetUp, NearStart, Considered, AddCandidate;
    var next := AddCandidate(c, iso, NOTHING, cands[0]).value;
    assert cands[0].offset == PARTITION_AT;
    assert FarComesLast(c, iso, NOTHING, cands) <==> NoneRead(iso, next, cands[1..]);
    if tail == 0 {
      assert cands[1..] == [];
    } else {
      assert cands[1..] == [Candidate(LATE_AT, 0)];
      assert cands[1..][0].offset == LATE_AT;
    }
  }
}
