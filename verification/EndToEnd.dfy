/** What a container made of a disc decodes to, and exactly when that is the disc. */
module EndToEnd {
  import opened Results
  import opened Sizes
  import opened BigEndian
  import opened Format
  import opened Regions
  import opened Tables
  import opened Container
  import opened Chunking
  import opened PartRoundTrip
  import opened Planning
  import opened Decoding
  import Sorting

  // ---------- the chunks of a plan ----------

  /** The chunks of a region, in order. */
  ghost function RegionChunks(c: Codec, iso: Bytes, r: Region): (chunks: seq<Chunk>)
    requires ValidRegion(r, iso)
    ensures |chunks| == GroupsIn(r)
  {
    match r
    case Raw(e) => seq(e.groups, i requires 0 <= i < e.groups => RawChunk(c, e, iso, i))
    case Part(key, d) => seq(d.ng, i requires 0 <= i < d.ng => ChunkAt(c, key, d, iso, i))
  }

  ghost function OrderChunks(c: Codec, iso: Bytes, rs: seq<Region>): (chunks: seq<Chunk>)
    requires AllValid(rs, iso)
    ensures |chunks| == Total(rs)
  {
    if rs == [] then [] else OrderChunks(c, iso, rs[..|rs| - 1]) + RegionChunks(c, iso, rs[|rs| - 1])
  }

  /** Chunk `i` of region `k` is where its number says. */
  lemma {:induction false} OrderHolds(c: Codec, iso: Bytes, rs: seq<Region>, k: nat, i: nat)
    requires AllValid(rs, iso) && k < |rs| && i < GroupsIn(rs[k])
    ensures Total(rs[..k]) + GroupsIn(rs[k]) <= Total(rs)
    ensures OrderChunks(c, iso, rs)[Total(rs[..k]) + i] == RegionChunks(c, iso, rs[k])[i]
  {
    hide RegionChunks, ValidRegion, GroupsIn;
    var n := |rs| - 1;
    if k < n {
      OrderHolds(c, iso, rs[..n], k, i);
      assert rs[..n][..k] == rs[..k];
    }
  }

  ghost predicate Stored(c: Codec, iso: Bytes, r: Region, chunks: seq<Chunk>)
    requires ValidRegion(r, iso)
  {
    match r
    case Raw(e) => RawStored(c, e, iso, chunks)
    case Part(key, d) => PartStored(c, key, d, iso, chunks)
  }

  /** Every chunk of a region is packed in phase. */
  ghost predicate RegionInPhase(c: Codec, iso: Bytes, r: Region)
    requires ValidRegion(r, iso)
  {
    match r
    case Raw(e) => RawInPhase(e, iso)
    case Part(key, d) => PartInPhase(c, key, d, iso)
  }

  lemma RegionStored(c: Codec, iso: Bytes, rs: seq<Region>, k: nat)
    requires AllValid(rs, iso) && Numbered(rs) && k < |rs|
    ensures Stored(c, iso, rs[k], OrderChunks(c, iso, rs))
  {
    hide OrderChunks, ValidRaw, ValidPart, ChunkAt, RawChunk, Total;
    var chunks, r := OrderChunks(c, iso, rs), rs[k];
    GroupsExist(r, iso);
    OrderHolds(c, iso, rs, k, 0);
    forall i: nat | i < GroupsIn(r)
      ensures GroupOf(r) + i < |chunks| && chunks[GroupOf(r) + i] == RegionChunks(c, iso, r)[i]
    {
      OrderHolds(c, iso, rs, k, i);
    }
    hide Numbered, AllValid;
    match r
    case Raw(e) =>
      forall i: nat | i < e.groups
        ensures chunks[e.group + i] == RawChunk(c, e, iso, i)
      {
        assert chunks[GroupOf(r) + i] == RegionChunks(c, iso, r)[i];
      }
    case Part(key, d) =>
      forall i: nat | i < d.ng
        ensures chunks[d.gi + i] == ChunkAt(c, key, d, iso, i)
      {
        assert chunks[GroupOf(r) + i] == RegionChunks(c, iso, r)[i];
      }
  }

  lemma GroupsExist(r: Region, iso: Bytes)
    requires ValidRegion(r, iso)
    ensures GroupsIn(r) > 0 && Start(r) < End(r) <= |iso|
  {}

  // ---------- decoding them ----------

  /** That a region's run ends well and writes its stretch of the disc through, and is all right exactly if `right`. */
  ghost predicate Faithful(run: Run, iso: Bytes, r: Region, right: bool) {
    && run.failure == None && Consecutive(run.writes, Start(r), End(r))
    && (AllParts(run.writes, iso) <==> right)
  }

  lemma RegionBack(c: Codec, iso: Bytes, r: Region, chunks: seq<Chunk>)
    requires ValidRegion(r, iso) && Stored(c, iso, r, chunks)
    ensures Faithful(RegionRun(c, CHUNK_SIZE, chunks, r, true), iso, r, RegionInPhase(c, iso, r))
  {
    hide RawStored, PartStored, RawInPhase, PartInPhase, Consecutive, AllParts;
    hide RawRun, PartRun, AlignDown, ValidRaw, ValidPart;
    GroupsExist(r, iso);
    var image;
    match r {
      case Raw(e) =>
        image := RawImage(e, iso);
        hide RawYields;
        RawTiles(c, e, iso, image, chunks, 0);
        RawExactly(e, iso, image);
        assert RawStart(e, 0) == AlignDown(e.offset, BLOCK_TOTAL_SIZE);
      case Part(key, d) =>
        image := PartImage(c, key, d, iso);
        hide PartYields;
        PartRegionBack(c, key, d, iso, image, chunks);
        PartExactly(c, key, d, iso, image);
    }
    TilesOther(RegionRun(c, CHUNK_SIZE, chunks, r, true).writes, image, iso, Start(r), End(r));
  }

  ghost predicate AllFaithful(c: Codec, iso: Bytes, chunks: seq<Chunk>, rs: seq<Region>) {
    && AllValid(rs, iso)
    && forall k | 0 <= k < |rs| ::
         Faithful(RegionRun(c, CHUNK_SIZE, chunks, rs[k], true), iso, rs[k], RegionInPhase(c, iso, rs[k]))
  }

  /**
   Regions decoded one after another, in whatever order, reach just what they cover, and write only
   parts of the disc exactly when all of them are in phase.
   */
  lemma {:induction false} RegionsBack(c: Codec, iso: Bytes, chunks: seq<Chunk>, rs: seq<Region>)
    requires AllFaithful(c, iso, chunks, rs)
    ensures var run := RegionsRun(c, CHUNK_SIZE, chunks, rs, true);
            && run.failure == None && (AllParts(run.writes, iso) <==> PlanInPhase(c, iso, rs))
            && (forall x: nat :: Reached(run.writes, x) <==> Covered(rs, x))
  {
    hide RegionRun, IsPart, Start, End, Consecutive, RegionInPhase, ValidRegion;
    if rs != [] {
      RegionsBack(c, iso, chunks, rs[1..]);
      var first, rest := RegionRun(c, CHUNK_SIZE, chunks, rs[0], true),
          RegionsRun(c, CHUNK_SIZE, chunks, rs[1..], true);
      assert Faithful(first, iso, rs[0], RegionInPhase(c, iso, rs[0]));
      PartsEither(first.writes, rest.writes, iso);
      PhasesSplit(c, iso, rs);
      hide AllParts, PlanInPhase;
      forall x: nat
        ensures Reached(first.writes + rest.writes, x) <==> Covered(rs, x)
      {
        CoveredSplit(rs, x);
        ReachedEither(first.writes, rest.writes, x);
        ConsecutiveReaches(first.writes, Start(rs[0]), End(rs[0]), x);
      }
    }
  }

  lemma PartsEither(a: seq<Write>, b: seq<Write>, iso: Bytes)
    ensures AllParts(a + b, iso) <==> AllParts(a, iso) && AllParts(b, iso)
  {
    hide IsPart;
    if AllParts(a + b, iso) {
      assert forall w | w in a :: w in a + b;
      assert forall w | w in b :: w in a + b;
    }
  }

  lemma PhasesSplit(c: Codec, iso: Bytes, rs: seq<Region>)
    requires AllValid(rs, iso) && rs != []
    ensures AllValid(rs[1..], iso)
    ensures PlanInPhase(c, iso, rs) <==> RegionInPhase(c, iso, rs[0]) && PlanInPhase(c, iso, rs[1..])
  {
    hide RegionInPhase, ValidRegion;
    if PlanInPhase(c, iso, rs[1..]) && RegionInPhase(c, iso, rs[0]) {
      forall k | 0 <= k < |rs|
        ensures RegionInPhase(c, iso, rs[k])
      {
        assert k > 0 ==> rs[k] == rs[1..][k - 1];
      }
    }
    if PlanInPhase(c, iso, rs) {
      forall k | 0 <= k < |rs[1..]|
        ensures RegionInPhase(c, iso, rs[1..][k])
      {
        assert rs[1..][k] == rs[k + 1];
      }
    }
  }

  lemma CoveredSplit(rs: seq<Region>, x: nat)
    requires rs != []
    ensures Covered(rs, x) <==> Inside(rs[0], x) || Covered(rs[1..], x)
  {
    hide Inside;
    if Covered(rs, x) {
      var k :| 0 <= k < |rs| && Inside(rs[k], x);
      if k > 0 {
        assert Inside(rs[1..][k - 1], x);
      }
    }
    if Covered(rs[1..], x) {
      var k :| 0 <= k < |rs[1..]| && Inside(rs[1..][k], x);
      InsideCovers(rs, k + 1, x);
    }
  }

  lemma ReachedEither(a: seq<Write>, b: seq<Write>, x: nat)
    ensures Reached(a + b, x) <==> Reached(a, x) || Reached(b, x)
  {
    if Reached(a + b, x) {
      var w :| w in a + b && Touches(w, x);
      assert w in a || w in b;
    }
    if Reached(a, x) {
      var w :| w in a && Touches(w, x);
      assert w in a + b;
    }
    if Reached(b, x) {
      var w :| w in b && Touches(w, x);
      assert w in a + b;
    }
  }

  // ---------- the encoded disc ----------

  /** The first 0x80 bytes of the disc, filled up with zeroes if it has fewer. */
  function DiscHeader(iso: Bytes): (h: Bytes)
    ensures |h| == DISC_HEADER_SIZE
  {
    var h := ReadAt(iso, 0, DISC_HEADER_SIZE);
    h + Zeroes(DISC_HEADER_SIZE - |h|)
  }

  function IsWii(iso: Bytes): bool {
    |iso| >= 0x1c && Get32(DiscHeader(iso), 0x18) == WII_MAGIC
  }

  function PlanFor(c: Codec, iso: Bytes): Result<Plan> {
    PlanOf(c, iso, IsWii(iso))
  }

  ghost function InputFor(c: Codec, level: int, iso: Bytes, plan: Plan): (input: Input)
    requires AllValid(plan.order, iso) && AllKeyed(plan.parts)
    ensures ValidInput(input)
  {
    var discType := if IsWii(iso) then 2 else 1;
    Input(level, discType, |iso|, DiscHeader(iso), plan.raws, plan.parts, OrderChunks(c, iso, plan.order))
  }

  /** The container that a disc is encoded to. */
  ghost function EncodedFile(c: Codec, level: int, iso: Bytes): Bytes
    requires PlanFor(c, iso).Ok?
  {
    PlanCovers(c, iso, IsWii(iso));
    File(c, InputFor(c, level, iso, PlanFor(c, iso).value))
  }

  ghost predicate PlanInPhase(c: Codec, iso: Bytes, rs: seq<Region>)
    requires AllValid(rs, iso)
  {
    forall k | 0 <= k < |rs| :: RegionInPhase(c, iso, rs[k])
  }

  lemma {:induction false} OrderDelivers(c: Codec, iso: Bytes, rs: seq<Region>)
    requires AllValid(rs, iso)
    ensures AllDeliverable(OrderChunks(c, iso, rs))
  {
    hide RegionChunks, ValidRegion, Deliverable;
    if rs != [] {
      var n := |rs| - 1;
      OrderDelivers(c, iso, rs[..n]);
      RegionDelivers(c, iso, rs[n]);
    }
  }

  lemma RegionDelivers(c: Codec, iso: Bytes, r: Region)
    requires ValidRegion(r, iso)
    ensures AllDeliverable(RegionChunks(c, iso, r))
  {
    hide Deliverable, RawChunk, ChunkAt, ValidRaw, ValidPart;
    var chunks := RegionChunks(c, iso, r);
    match r
    case Raw(e) =>
      forall i: nat | i < e.groups
        ensures Deliverable(chunks[i])
      {
        RawDelivers(c, e, iso, i);
      }
    case Part(key, d) =>
      forall i: nat | i < d.ng
        ensures Deliverable(chunks[i])
      {
        ContentBack(c, key, d, iso, i);
      }
  }

  // ---------- the round trip ----------

  /** A disc that can be planned, and whose container's fields hold what they have to. */
  ghost predicate Encodable(c: Codec, level: int, iso: Bytes) {
    && |iso| < U64 && PlanFor(c, iso).Ok?
    && var plan := PlanFor(c, iso).value;
    && AllValid(plan.order, iso) && AllKeyed(plan.parts) && FileFits(c, InputFor(c, level, iso, plan))
  }

  /** A disc all of whose chunks come back from their packed form. */
  ghost predicate Recoverable(c: Codec, iso: Bytes) {
    && PlanFor(c, iso).Ok? && AllValid(PlanFor(c, iso).value.order, iso)
    && PlanInPhase(c, iso, PlanFor(c, iso).value.order)
  }

  lemma GroupsBelow(rs: seq<Region>, k: nat)
    requires Numbered(rs) && k < |rs|
    ensures GroupOf(rs[k]) + GroupsIn(rs[k]) <= Total(rs)
  {
    TotalJoin(rs[..k + 1], rs[k + 1..]);
    TotalAppend(rs[..k], rs[k]);
    hide Total;
    assert rs[..k + 1] == rs[..k] + [rs[k]] && rs == rs[..k + 1] + rs[k + 1..];
  }

  lemma RawInOrder(plan: Plan, iso: Bytes, i: nat) returns (k: nat)
    requires Sound(plan, iso) && i < |plan.raws|
    ensures k < |plan.order| && plan.order[k] == Raw(plan.raws[i])
  {
    hide Numbered, AllValid, EntriesFit, Total, PartRegions;
    var r := Raw(plan.raws[i]);
    assert RawRegions(plan.raws)[i] == r;
    assert r in multiset(RawRegions(plan.raws));
    assert r in multiset(plan.order);
    k :| 0 <= k < |plan.order| && plan.order[k] == r;
  }

  lemma RawFieldsFit(plan: Plan, iso: Bytes, i: nat)
    requires Sound(plan, iso) && i < |plan.raws| && |iso| < U64 && plan.groups < U32
    ensures RawFits(plan.raws[i])
  {
    var k := RawInOrder(plan, iso, i);
    assert ValidRegion(plan.order[k], iso);
    GroupsBelow(plan.order, k);
  }

  lemma EntriesFitFields(plan: Plan, i: nat)
    requires EntriesFit(plan.parts, plan.groups) && i < |plan.parts| && plan.groups < U32
    ensures PartFits(plan.parts[i])
  {
    assert EntryFits(plan.parts[i].first, plan.groups) && EntryFits(plan.parts[i].second, plan.groups);
  }

  lemma InputIsFit(c: Codec, level: int, iso: Bytes, plan: Plan)
    requires Sound(plan, iso) && |iso| < U64
    requires FileFits(c, InputFor(c, level, iso, plan))
    ensures InputFits(c, InputFor(c, level, iso, plan))
  {
    hide RawTable, GroupTable, PartTable, Numbered, PartFits, RawFits, EntryFits, ValidRegion, DiscHeader;
    hide Distinct, EntriesFor, Concat, Padded, PartRegions, RawRegions, IsWii;
    var input := InputFor(c, level, iso, plan);
    OrderDelivers(c, iso, plan.order);
    CountFits(input.chunks);
    assert |input.chunks| == plan.groups < U32;
    forall i: nat | i < |plan.parts|
      ensures PartFits(plan.parts[i])
    {
      EntriesFitFields(plan, i);
    }
    forall i: nat | i < |plan.raws|
      ensures RawFits(plan.raws[i])
    {
      RawFieldsFit(plan, iso, i);
    }
  }

  /** The container of an encodable disc says what was planned, and its chunks are there. */
  lemma EncodedReads(c: Codec, level: int, iso: Bytes)
    requires Encodable(c, level, iso)
    ensures var plan, file := PlanFor(c, iso).value, EncodedFile(c, level, iso);
            && Sound(plan, iso) && ContentsOf(c, file).Ok?
            && var t := ContentsOf(c, file).value;
               && t.header.isoSize == |iso| && t.header.dhead == DiscHeader(iso) && t.header.chunkSize == CHUNK_SIZE
               && t.parts == plan.parts && t.raws == plan.raws
               && FetchAll(file, t.groups) == OrderChunks(c, iso, plan.order)
  {
    hide Sound, Covers, NearData, PlanOf, File, FileFits, EntriesFor, OrderChunks, ContentsOf, Considered, AllValid;
    hide RawTable, GroupTable, PartTable, RawTableAt, GroupTableAt, FileSize;
    hide Position, AllKeyed, FetchAll, IsWii, InputFits;
    var plan := PlanFor(c, iso).value;
    PlanCovers(c, iso, IsWii(iso));
    var input := InputFor(c, level, iso, plan);
    InputIsFit(c, level, iso, plan);
    FileReads(c, input);
    ChunksFetch(c, input);
  }

  /** The container tells the disc's size, and holds its header. */
  lemma SizeTold(c: Codec, level: int, iso: Bytes)
    requires Encodable(c, level, iso)
    ensures ContentsOf(c, EncodedFile(c, level, iso)).Ok?
    ensures var h := ContentsOf(c, EncodedFile(c, level, iso)).value.header;
            h.isoSize == |iso| && h.dhead == DiscHeader(iso)
  {
    hide Sound, ContentsOf, EncodedFile, FetchAll, OrderChunks, PlanFor, DiscHeader, Encodable;
    EncodedReads(c, level, iso);
  }

  lemma PlanFaithful(c: Codec, iso: Bytes, plan: Plan)
    requires Sound(plan, iso)
    ensures AllFaithful(c, iso, OrderChunks(c, iso, plan.order), plan.order)
  {
    hide ValidRegion, Numbered, Stored, RegionInPhase, Faithful;
    hide OrderChunks, PartRegions, RawRegions, EntriesFit, Total;
    var chunks, rs := OrderChunks(c, iso, plan.order), plan.order;
    forall k: nat | k < |rs|
      ensures Faithful(RegionRun(c, CHUNK_SIZE, chunks, rs[k], true), iso, rs[k], RegionInPhase(c, iso, rs[k]))
    {
      RegionStored(c, iso, rs, k);
      RegionBack(c, iso, rs[k], chunks);
    }
  }

  lemma SameRegions(plan: Plan, iso: Bytes, t: Contents)
    requires Sound(plan, iso) && t.parts == plan.parts && t.raws == plan.raws
    ensures multiset(RegionsOf(t)) == multiset(plan.order) && Sorting.Ordered(Start, RegionsOf(t))
  {
    hide AllValid, Numbered, Total, EntriesFit, PartRegions, RawRegions;
    Sorting.SortedKeeps(Start, PartRegions(t.parts) + RawRegions(t.raws));
  }

  lemma FaithfulAnyway(c: Codec, iso: Bytes, chunks: seq<Chunk>, rs: seq<Region>, others: seq<Region>)
    requires AllFaithful(c, iso, chunks, rs) && multiset(rs) == multiset(others)
    ensures AllFaithful(c, iso, chunks, others) && (PlanInPhase(c, iso, rs) ==> PlanInPhase(c, iso, others))
  {
    hide Faithful, RegionInPhase, ValidRegion, RegionRun;
    forall k | 0 <= k < |others|
      ensures ValidRegion(others[k], iso)
      ensures Faithful(RegionRun(c, CHUNK_SIZE, chunks, others[k], true), iso, others[k],
           RegionInPhase(c, iso, others[k]))
      ensures PlanInPhase(c, iso, rs) ==> RegionInPhase(c, iso, others[k])
    {
      assert others[k] in multiset(rs);
      var j :| 0 <= j < |rs| && rs[j] == others[k];
    }
  }

  lemma CoveredAnyway(rs: seq<Region>, others: seq<Region>, x: nat)
    requires multiset(rs) == multiset(others) && Covered(rs, x)
    ensures Covered(others, x)
  {
    hide Inside;
    var j :| 0 <= j < |rs| && Inside(rs[j], x);
    assert rs[j] in multiset(others);
    var k :| 0 <= k < |others| && others[k] == rs[j];
    InsideCovers(others, k, x);
  }

  /**
   When a disc's regions cover it: it has more than a header, or nothing at all, and no partition
   that is set up has its data 4 GiB or more after its start.
   */
  predicate Coverable(c: Codec, iso: Bytes) {
    |iso| == 0 || (DISC_HEADER_SIZE < |iso| && NearData(c, iso, NOTHING, Considered(iso, IsWii(iso))))
  }

  /** A disc of no more than a header has no regions. */
  lemma TinyPlan(c: Codec, iso: Bytes)
    requires |iso| <= DISC_HEADER_SIZE
    ensures PlanFor(c, iso).Ok? && PlanFor(c, iso).value.order == []
  {
    hide IsWii;
    assert Considered(iso, IsWii(iso)) == [];
    assert AddCandidates(c, iso, NOTHING, []) == Ok(NOTHING);
    hide Candidates, AddCandidates, RawFor;
    assert PlanFor(c, iso) == Ok(Finish(NOTHING, iso));
  }

  lemma PlanCoversWhen(c: Codec, iso: Bytes)
    requires PlanFor(c, iso).Ok?
    ensures (forall x: nat | x < |iso| :: Covered(PlanFor(c, iso).value.order, x)) <==> Coverable(c, iso)
  {
    hide NearData, Considered, PlanOf;
    if |iso| <= DISC_HEADER_SIZE {
      TinyPlan(c, iso);
      assert 0 < |iso| ==> !Covered(PlanFor(c, iso).value.order, 0);
    } else {
      PlanCoversExactly(c, iso, IsWii(iso));
    }
  }

  /**
   Decoding succeeds, reaches just what the plan covers, and writes nothing wrong exactly when the disc
   is recoverable.
   */
  lemma DecodesToParts(c: Codec, level: int, iso: Bytes)
    requires Encodable(c, level, iso)
    ensures var run := Decoded(c, EncodedFile(c, level, iso));
            && run.failure == None && (AllParts(run.writes, iso) <==> Recoverable(c, iso))
            && (forall x: nat :: Reached(run.writes, x) <==> Covered(PlanFor(c, iso).value.order, x))
  {
    hide Sound, AllFaithful, OrderChunks, ContentsOf, EncodedFile, RegionsOf;
    hide RegionsRun, AllParts, Reached, FetchAll, Covered;
    hide PlanInPhase, AllValid;
    EncodedReads(c, level, iso);
    var plan, file := PlanFor(c, iso).value, EncodedFile(c, level, iso);
    var t, chunks := ContentsOf(c, file).value, OrderChunks(c, iso, plan.order);
    EncodablePlan(c, level, iso);
    hide Encodable, PlanFor;
    PlanFaithful(c, iso, plan);
    SameRegions(plan, iso, t);
    FaithfulAnyway(c, iso, chunks, plan.order, RegionsOf(t));
    FaithfulAnyway(c, iso, chunks, RegionsOf(t), plan.order);
    RegionsBack(c, iso, chunks, RegionsOf(t));
    forall x: nat
      ensures Covered(RegionsOf(t), x) <==> Covered(plan.order, x)
    {
      if Covered(RegionsOf(t), x) {
        CoveredAnyway(RegionsOf(t), plan.order, x);
      }
      if Covered(plan.order, x) {
        CoveredAnyway(plan.order, RegionsOf(t), x);
      }
    }
  }

  /**
   The round trip: decoding the container of an encodable disc succeeds. It writes nothing but
   bytes of the disc where they belong exactly when the disc is recoverable, and reaches all of the
   disc exactly when the disc is coverable; when it is both, decoding leaves the disc.
   */
  lemma RoundTrip(c: Codec, level: int, iso: Bytes)
    requires Encodable(c, level, iso)
    ensures var run := Decoded(c, EncodedFile(c, level, iso));
            && run.failure == None && (AllParts(run.writes, iso) <==> Recoverable(c, iso))
            && ((forall x: nat | x < |iso| :: Reached(run.writes, x)) <==> Coverable(c, iso))
            && (Recoverable(c, iso) && Coverable(c, iso) ==> Image(run.writes) == iso)
  {
    hide EncodedFile, AllParts, Reached, Image, Decoded, Covered, Coverable, PlanFor, Recoverable;
    DecodesToParts(c, level, iso);
    EncodablePlan(c, level, iso);
    hide Encodable;
    PlanCoversWhen(c, iso);
    var run := Decoded(c, EncodedFile(c, level, iso));
    if Coverable(c, iso) && Recoverable(c, iso) {
      ImageComplete(run.writes, iso);
    }
  }

  lemma EncodablePlan(c: Codec, level: int, iso: Bytes)
    requires Encodable(c, level, iso)
    ensures PlanFor(c, iso).Ok? && AllValid(PlanFor(c, iso).value.order, iso)
  {
    hide AllValid, FileFits, PlanFor;
  }

  // ---------- strict tiling ----------

  lemma {:induction false} ChainWrites(c: Codec, iso: Bytes, chunks: seq<Chunk>, rs: seq<Region>, lo: nat, hi: nat)
    requires AllFaithful(c, iso, chunks, rs) && Chain(rs, lo, hi)
    ensures Consecutive(RegionsRun(c, CHUNK_SIZE, chunks, rs, true).writes, lo, hi)
    decreases |rs|
  {
    hide RegionRun, Start, End, Consecutive, RegionInPhase, ValidRegion, AllParts;
    if rs == [] {
      NothingWritten(lo);
    } else {
      RegionsBack(c, iso, chunks, rs[1..]);
      assert Faithful(RegionRun(c, CHUNK_SIZE, chunks, rs[0], true), iso, rs[0], RegionInPhase(c, iso, rs[0]));
      ChainTail(rs, lo, hi);
      ChainWrites(c, iso, chunks, rs[1..], End(rs[0]), hi);
      ConsecutiveJoin(RegionRun(c, CHUNK_SIZE, chunks, rs[0], true).writes,
        RegionsRun(c, CHUNK_SIZE, chunks, rs[1..], true).writes, lo, End(rs[0]), hi);
    }
  }

  lemma NothingWritten(at: nat)
    ensures Consecutive([], at, at)
  {}

  lemma ChainTail(rs: seq<Region>, lo: nat, hi: nat)
    requires Chain(rs, lo, hi) && rs != []
    ensures Chain(rs[1..], End(rs[0]), hi)
  {
    hide Start, End;
  }

  /**
   When every candidate of a coverable disc starts at a block, decoding writes strictly in order: each
   write starts where the one before it ended, the first at 0, the last ending where the disc ends. It
   leaves the disc exactly when the disc is recoverable.
   */
  lemma StrictTiling(c: Codec, level: int, iso: Bytes)
    requires Encodable(c, level, iso) && Coverable(c, iso) && AllAligned(Considered(iso, IsWii(iso)))
    ensures var run := Decoded(c, EncodedFile(c, level, iso));
            && run.failure == None && Consecutive(run.writes, 0, |iso|)
            && (Image(run.writes) == iso <==> Recoverable(c, iso))
  {
    hide Decoded, Consecutive, Image, AllParts, Covered, Reached, EncodedFile, Recoverable, PlanFor;
    EncodablePlan(c, level, iso);
    hide Encodable;
    PlanIsChain(c, iso);
    hide Coverable, Considered, AllAligned, Chain, AllValid;
    DecodesToParts(c, level, iso);
    DecodesInOrder(c, level, iso);
    ImageExactly(Decoded(c, EncodedFile(c, level, iso)).writes, iso);
  }

  lemma DecodesInOrder(c: Codec, level: int, iso: Bytes)
    requires Encodable(c, level, iso) && Chain(PlanFor(c, iso).value.order, 0, |iso|)
    ensures Consecutive(Decoded(c, EncodedFile(c, level, iso)).writes, 0, |iso|)
  {
    hide Sound, AllFaithful, OrderChunks, ContentsOf, EncodedFile, RegionsOf;
    hide RegionsRun, Consecutive, FetchAll, PlanOf, Chain;
    EncodedReads(c, level, iso);
    var plan, file := PlanFor(c, iso).value, EncodedFile(c, level, iso);
    var t := ContentsOf(c, file).value;
    EncodablePlan(c, level, iso);
    hide Encodable;
    PlanFaithful(c, iso, plan);
    SameRegions(plan, iso, t);
    ChainStrict(plan.order, 0, |iso|);
    Sorting.SortedOnce(Start, RegionsOf(t), plan.order);
    ChainWrites(c, iso, OrderChunks(c, iso, plan.order), plan.order, 0, |iso|);
  }

  lemma PlanIsChain(c: Codec, iso: Bytes)
    requires PlanFor(c, iso).Ok? && Coverable(c, iso) && AllAligned(Considered(iso, IsWii(iso)))
    ensures Chain(PlanFor(c, iso).value.order, 0, |iso|)
  {
    hide Chain, NearData, AllAligned, Considered;
    if |iso| == 0 {
      TinyPlan(c, iso);
      EmptyChain();
    } else {
      PlanChains(c, iso, IsWii(iso));
    }
  }

  lemma EmptyChain()
    ensures Chain([], 0, 0)
  {}

  lemma ChainStrict(rs: seq<Region>, lo: nat, hi: nat)
    requires Chain(rs, lo, hi)
    ensures Sorting.StrictlyOrdered(Start, rs)
  {
    hide Start, Chain;
    forall i, j | 0 <= i < j < |rs|
      ensures Start(rs[i]) < Start(rs[j])
    {
      ChainOrder(rs, lo, hi, i, j);
    }
  }
}
