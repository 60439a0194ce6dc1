/**
 Discs of a single chunk. Each meets the hypotheses of the round trip, so it comes back exactly
 when the stretches recorded for that chunk fit.
 */
module SmallDisc {
  import opened Results
  import opened Sizes
  import opened Format
  import opened Generator
  import opened Packing
  import opened PackRoundTrip
  import opened PackExactly
  import opened Tables
  import opened Container
  import opened Chunking
  import opened Planning
  import opened EndToEnd

  /** A disc that is longer than its header, fits one chunk, and has no partitions. */
  predicate Small(iso: Bytes) {
    DISC_HEADER_SIZE < |iso| <= CHUNK_SIZE && !IsWii(iso)
  }

  /** Its only region: all but the header, in one group. */
  function Whole(iso: Bytes): RawEntry
    requires Small(iso)
  {
    RawEntry(DISC_HEADER_SIZE, |iso| - DISC_HEADER_SIZE, 0, 1)
  }

  lemma SmallPlan(c: Codec, iso: Bytes)
    requires Small(iso)
    ensures Considered(iso, IsWii(iso)) == []
    ensures PlanFor(c, iso) == Ok(Plan(0, 1, [Whole(iso)], [], [Raw(Whole(iso))]))
  {
    hide IsWii;
    var e := Whole(iso);
    assert AddCandidates(c, iso, NOTHING, []) == Ok(NOTHING);
    assert RawFor(DISC_HEADER_SIZE, |iso| - DISC_HEADER_SIZE, 0) == e;
    assert [] + [e] == [e] && [] + [Raw(e)] == [Raw(e)];
    assert Finish(NOTHING, iso) == Plan(0, 1, [e], [], [Raw(e)]);
  }

  /** The region's chunk starts where its block does, so it is the whole disc. */
  lemma SmallPiece(iso: Bytes)
    requires Small(iso)
    ensures ValidRaw(Whole(iso), iso) && RawStart(Whole(iso), 0) == 0 && RawPiece(Whole(iso), iso, 0) == iso
    ensures AllValid([Raw(Whole(iso))], iso)
  {
    hide IsWii;
    assert iso[0..|iso|] == iso;
  }

  /** A small disc comes back exactly when what was recorded for its chunk fits. */
  lemma SmallRecovers(c: Codec, iso: Bytes)
    requires Small(iso)
    ensures Recoverable(c, iso) <==> RecordsFit(iso, 0)
  {
    hide IsWii, RecordsFit, PlanFor, RawPiece, RawStart, ValidRaw, Small, Whole;
    SmallPlan(c, iso);
    SmallPiece(iso);
    var e := Whole(iso);
    WholeGroups(iso);
    assert InPhase(RawPiece(e, iso, 0), RawStart(e, 0)) <==> RecordsFit(iso, 0);
    hide InPhase;
    assert RawInPhase(e, iso) <==> RecordsFit(iso, 0);
    hide RawInPhase;
    assert [Raw(e)][0] == Raw(e);
  }

  lemma WholeGroups(iso: Bytes)
    requires Small(iso)
    ensures Whole(iso).groups == 1
  {
    hide Small;
  }

  lemma SmallChunks(c: Codec, iso: Bytes)
    requires Small(iso)
    ensures AllValid([Raw(Whole(iso))], iso)
    ensures var chunks := OrderChunks(c, iso, [Raw(Whole(iso))]);
            |chunks| == 1 && |chunks[0].bytes| <= 3 * CHUNK_SIZE
  {
    hide IsWii, ValidRaw, PackedChunk, RawPiece, RawStart, Small, Whole;
    SmallPiece(iso);
    WholeGroups(iso);
    var e := Whole(iso);
    var chunks := OrderChunks(c, iso, [Raw(e)]);
    assert [Raw(e)][..0] == [];
    assert chunks == RegionChunks(c, iso, Raw(e));
    assert chunks[0] == RawChunk(c, e, iso, 0);
    PackedSize(RawPiece(e, iso, 0), RawStart(e, 0));
  }

  lemma FileSizeBound(c: Codec, input: Input)
    requires ValidInput(input)
    ensures FileSize(c, input) <= HEADER_AREA_SIZE + |Body(input.chunks, |input.chunks|)| + |PartTable(input)| + 3
      + |RawTable(c, input)| + 3 + |GroupTable(c, input)|
  {
    hide Body, PartTable, RawTable, GroupTable, AllKeyed;
  }

  lemma OneChunkBody(chunks: seq<Chunk>)
    requires |chunks| == 1
    ensures |Body(chunks, 1)| <= |chunks[0].bytes| + 3 && Position(chunks, 0) == HEADER_AREA_SIZE
  {
    assert Body(chunks, 0) == [];
    assert Body(chunks, 1) == [] + Padded(chunks[0].bytes);
  }

  /** The trivial compression makes everything one byte longer. */
  lemma TrivialTables(input: Input)
    requires |input.raws| == 1 && |input.chunks| == 1
    ensures |RawTable(Trivial(), input)| == 25 && |GroupTable(Trivial(), input)| == 13
    ensures Distinct(Trivial(), Concat(RawRows(input.raws)))
    ensures Distinct(Trivial(), Concat(GroupRows(EntriesFor(input.chunks))))
  {
    hide Concat, EntriesFor, RawRows, GroupRows;
    ConcatSize(RawRows(input.raws), RAW_ENTRY_SIZE);
    ConcatSize(GroupRows(EntriesFor(input.chunks)), GROUP_ENTRY_SIZE);
  }

  lemma OneChunkFits(input: Input)
    requires ValidInput(input) && |input.raws| == 1 && |input.chunks| == 1 && input.parts == []
    requires |input.chunks[0].bytes| <= 3 * CHUNK_SIZE
    ensures FileFits(Trivial(), input)
  {
    hide Concat, EntriesFor, RawRows, GroupRows, Body, Distinct, RawTable, GroupTable, FileSize, Position;
    TrivialTables(input);
    NoParts();
    OneChunkBody(input.chunks);
    FileSizeBound(Trivial(), input);
  }

  lemma SmallFits(iso: Bytes)
    requires Small(iso)
    ensures AllValid([Raw(Whole(iso))], iso)
    ensures var plan := Plan(0, 1, [Whole(iso)], [], [Raw(Whole(iso))]);
            FileFits(Trivial(), InputFor(Trivial(), 0, iso, plan))
  {
    SmallChunks(Trivial(), iso);
    hide OrderChunks, DiscHeader, IsWii, Small, Whole, AllValid, FileFits;
    OneChunkFits(InputFor(Trivial(), 0, iso, Plan(0, 1, [Whole(iso)], [], [Raw(Whole(iso))])));
  }

  lemma NoParts()
    ensures Concat(PartRows([])) == []
  {}

  /** Every small disc can be encoded, and is covered. */
  lemma SmallEncodes(iso: Bytes)
    requires Small(iso)
    ensures Encodable(Trivial(), 0, iso) && Coverable(Trivial(), iso)
  {
    SmallPlan(Trivial(), iso);
    SmallFits(iso);
    hide FileFits, InputFor, PlanFor, Considered, Whole, IsWii;
  }

  /** A chunk of zeroes has no padding worth recording. */
  lemma ZeroesFit(n: nat)
    ensures RecordsFit(Zeroes(n), 0)
  {
    var data := Zeroes(n);
    ScanAhead(data, 0);
    assert Scan(data, 0, 0) == [] by {
      if 0 < n {
        hide Detect, MatchFrom;
        assert AfterZeroes(data, 0) == n;
        ScanStep(data, 0, 0, n, 0);
        ScanEnd(data, 0);
        assert JunkIn(data, 0, n, 0) == [];
      }
    }
    RecordedFound(data, [], 0);
  }

  lemma ZeroesSmall()
    ensures Small(Zeroes(0x100))
  {
    var h := DiscHeader(Zeroes(0x100));
    assert h[0x18] == 0 && h[0x19] == 0 && h[0x1a] == 0 && h[0x1b] == 0;
  }

  /** There is a disc, and there are primitives, for which all hypotheses of the round trip hold. */
  lemma SomeDiscIsEncodable()
    ensures var iso := Zeroes(0x100);
            Encodable(Trivial(), 0, iso) && Coverable(Trivial(), iso) && Recoverable(Trivial(), iso)
  {
    hide Encodable, Coverable, Recoverable, RecordsFit, Small;
    var iso := Zeroes(0x100);
    ZeroesSmall();
    SmallEncodes(iso);
    SmallRecovers(Trivial(), iso);
    ZeroesFit(0x100);
  }
}
