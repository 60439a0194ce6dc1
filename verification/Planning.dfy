/** How the encoder cuts a disc image into regions, and numbers their groups. */
module Planning {
  import opened Results
  import opened Sizes
  import opened BigEndian
  import opened Format
  import opened Regions
  import opened Tables
  import opened Chunking
  import Sorting

  const PARTITION_TABLE_OFFSET: nat := 0x4_0000
  const PARTITION_HEADER_SIZE: nat := 0x2c0
  const PARTITION_MAGIC: nat := 0x1_0001

  // ---------- finding partitions ----------

  datatype Candidate = Candidate(offset: nat, ptype: nat)

  function OffsetKey(c: Candidate): nat {
    c.offset
  }

  /** The entries of one of the four tables, from `i` on, that start on the disc. */
  function EntriesFrom(iso: Bytes, table: Bytes, count: nat, i: nat): seq<Candidate>
    requires count * 8 <= |table|
    decreases count - i
  {
    if i >= count then []
    else
      var c := Candidate(Get32(table, i * 8) * 4, Get32(table, i * 8 + 4));
      (if c.offset < |iso| then [c] else []) + EntriesFrom(iso, table, count, i + 1)
  }

  /** A table that is empty, or reaches past the end of the disc, is passed over. */
  function TableEntries(iso: Bytes, header: Bytes, g: nat): seq<Candidate>
    requires |header| >= 0x20 && g < 4
  {
    var count, at := Get32(header, g * 8), Get32(header, g * 8 + 4) * 4;
    if count == 0 || at + count * 8 > |iso| then [] else EntriesFrom(iso, ReadAt(iso, at, count * 8), count, 0)
  }

  function TablesFrom(iso: Bytes, header: Bytes, g: nat): seq<Candidate>
    requires |header| >= 0x20 && g <= 4
    decreases 4 - g
  {
    if g == 4 then [] else TableEntries(iso, header, g) + TablesFrom(iso, header, g + 1)
  }

  function Candidates(iso: Bytes): seq<Candidate> {
    if |iso| < PARTITION_TABLE_OFFSET + 0x20 then []
    else Sorting.Sorted(OffsetKey, TablesFrom(iso, ReadAt(iso, PARTITION_TABLE_OFFSET, 0x20), 0))
  }

  /** A partition that passed its checks. */
  datatype ValidPartition = ValidPartition(
    offset: nat, key: Bytes, dataOffset: nat, dataStart: nat, dataSize: nat, fstOffset: nat, fstSize: nat)

  function TitleKey(c: Codec, header: Bytes): (key: Bytes)
    requires |header| == PARTITION_HEADER_SIZE
    ensures |key| == 16
  {
    c.decrypt(c.commonKey, header[0x1dc..0x1e4] + Zeroes(8), header[0x1bf..0x1cf])
  }

  /** Where the file table of a partition is, as its first block says. */
  function FileTable(c: Codec, key: Bytes, block: Bytes): (nat, nat)
    requires |block| == BLOCK_TOTAL_SIZE
  {
    var plain := PlainData(c, key, block);
    (Get32(plain, 0x424) * 4, Get32(plain, 0x428) * 4)
  }

  /** That a header at `offset` lies on the disc; no other is read. */
  predicate HeaderFits(iso: Bytes, offset: nat) {
    offset + PARTITION_HEADER_SIZE <= |iso|
  }

  /** The checks on a partition: it has a header, whole blocks of data at a block's start, and at least one. */
  function SetUp(c: Codec, iso: Bytes, offset: nat): (r: Result<Option<ValidPartition>>) {
    if !HeaderFits(iso, offset) then Ok(None)
    else
      var header := ReadAt(iso, offset, PARTITION_HEADER_SIZE);
      if Get32(header, 0) != PARTITION_MAGIC then Ok(None)
      else
        var start, size := offset + Get32(header, 0x2b8) * 4, Get32(header, 0x2bc) * 4;
        if start % BLOCK_TOTAL_SIZE != 0 || size < BLOCK_TOTAL_SIZE then Ok(None)
        else if start + size > |iso| && start > |iso| then Err(Panic)
        else
          var dataSize := Min(size, |iso| - start);
          if dataSize < BLOCK_TOTAL_SIZE then Ok(None)
          else
            var key := TitleKey(c, header);
            var fst := FileTable(c, key, ReadAt(iso, start, BLOCK_TOTAL_SIZE));
            Ok(Some(ValidPartition(offset, key, (start - offset) % U32, start, dataSize, fst.0, fst.1)))
  }

  lemma SetUpBounds(c: Codec, iso: Bytes, offset: nat)
    requires offset < 0x4_0000_0000
    ensures var r := SetUp(c, iso, offset);
            r.Ok? && r.value.Some? ==>
              var p := r.value.value;
              && p.offset == offset <= p.dataStart && p.dataStart % BLOCK_TOTAL_SIZE == 0 && |p.key| == 16
              && p.dataOffset == (p.dataStart - offset) % U32 && BLOCK_TOTAL_SIZE <= p.dataSize
              && p.dataStart + p.dataSize <= |iso| && p.dataStart < 0x8_0000_0000 && p.dataSize < 0x4_0000_0000
  {
    hide TitleKey, FileTable;
  }

  // ---------- planning ----------

  /** What has been planned: up to where, how many groups, the entries, and the regions in order. */
  datatype Plan = Plan(lastEnd: nat, groups: nat, raws: seq<RawEntry>, parts: seq<Partition>, order: seq<Region>)

  const NOTHING: Plan := Plan(0, 0, [], [], [])

  function RawFor(offset: nat, size: nat, group: nat): RawEntry {
    RawEntry(offset, size, group, DivCeil(offset + size - AlignDown(offset, BLOCK_TOTAL_SIZE), CHUNK_SIZE))
  }

  /** How much of a region the disc header, which the container's own header holds, takes away. */
  function Skip(offset: nat, size: nat): (skip: nat)
    ensures skip <= size
  {
    if offset < DISC_HEADER_SIZE then Min(DISC_HEADER_SIZE - offset, size) else 0
  }

  function AddRaw(plan: Plan, offset: nat, size: nat): Plan {
    var skip := Skip(offset, size);
    if size - skip == 0 then plan
    else
      var e := RawFor(offset + skip, size - skip, plan.groups);
      plan.(groups := plan.groups + e.groups, raws := plan.raws + [e], order := plan.order + [Raw(e)])
  }

  function DataEntryFor(offset: nat, size: nat, group: nat): DataEntry {
    DataEntry(offset / BLOCK_TOTAL_SIZE % U32, size / BLOCK_TOTAL_SIZE % U32, group,
              DivCeil(AlignDown(size, BLOCK_TOTAL_SIZE), CHUNK_SIZE))
  }

  /** Where the first stretch of a partition ends: after the file table, at a group's end. */
  function Split(p: ValidPartition): (s: nat)
    ensures p.dataStart <= s <= p.dataStart + p.dataSize
  {
    Min(p.dataStart + p.dataSize, AlignUp(p.fstOffset + p.fstSize, GROUP_TOTAL_SIZE) + p.dataStart)
  }

  function AddData(plan: Plan, p: ValidPartition): Plan {
    var end := p.dataStart + p.dataSize;
    var e0 := DataEntryFor(p.dataStart, Split(p) - p.dataStart, plan.groups);
    var e1 := DataEntryFor(Split(p), end - Split(p), plan.groups + e0.ng);
    var part := Partition(p.key, e0, e1);
    plan.(lastEnd := (e1.fs + e1.ns) * BLOCK_TOTAL_SIZE, groups := plan.groups + e0.ng + e1.ng,
          parts := plan.parts + [part], order := plan.order + StretchesOf(part))
  }

  /** All before the partition is raw; so is what lies between its start and its data. */
  function Before(plan: Plan, offset: nat): Plan
    requires plan.lastEnd <= offset
  {
    AddRaw(plan, plan.lastEnd, offset - plan.lastEnd).(lastEnd := offset)
  }

  function AddPartition(plan: Plan, p: ValidPartition): Plan {
    AddData(AddRaw(plan, p.offset, p.dataOffset), p)
  }

  /** A candidate that starts inside what is planned already is passed over. */
  function AddCandidate(c: Codec, iso: Bytes, plan: Plan, cand: Candidate): Result<Plan> {
    if cand.offset < plan.lastEnd then Ok(plan)
    else
      var p :- SetUp(c, iso, cand.offset);
      Ok(match p
         case None => Before(plan, cand.offset)
         case Some(valid) => AddPartition(Before(plan, cand.offset), valid))
  }

  function AddCandidates(c: Codec, iso: Bytes, plan: Plan, cands: seq<Candidate>): Result<Plan>
    decreases |cands|
  {
    if cands == [] then Ok(plan)
    else
      var next :- AddCandidate(c, iso, plan, cands[0]);
      AddCandidates(c, iso, next, cands[1..])
  }

  /** The rest of the disc is raw. */
  function Finish(plan: Plan, iso: Bytes): Plan {
    if plan.lastEnd <= |iso| then AddRaw(plan, plan.lastEnd, |iso| - plan.lastEnd) else plan
  }

  /** The plan of a disc; only a Wii disc has partitions. */
  function PlanOf(c: Codec, iso: Bytes, wii: bool): Result<Plan> {
    var plan :- AddCandidates(c, iso, NOTHING, if wii then Candidates(iso) else []);
    Ok(Finish(plan, iso))
  }

  lemma NoCandidates(c: Codec, iso: Bytes, plan: Plan)
    ensures AddCandidates(c, iso, plan, []) == Ok(plan)
  {}

  lemma FirstCandidate(c: Codec, iso: Bytes, plan: Plan, cands: seq<Candidate>)
    requires cands != [] && AddCandidate(c, iso, plan, cands[0]).Ok?
    ensures AddCandidates(c, iso, plan, cands)
         == AddCandidates(c, iso, AddCandidate(c, iso, plan, cands[0]).value, cands[1..])
  {
    hide AddCandidate;
  }

  lemma OneCandidate(c: Codec, iso: Bytes, plan: Plan, cand: Candidate)
    ensures AddCandidates(c, iso, plan, [cand]) == AddCandidate(c, iso, plan, cand)
    ensures SetUp(c, iso, cand.offset).Ok? ==> AddCandidate(c, iso, plan, cand).Ok?
  {
    assert SetUp(c, iso, cand.offset).Ok? ==> AddCandidate(c, iso, plan, cand).Ok? by {
      hide SetUp, Before, AddPartition;
    }
    hide AddCandidate;
    var next := AddCandidate(c, iso, plan, cand);
    assert [cand][1..] == [];
    if next.Ok? {
      assert AddCandidates(c, iso, next.value, []) == next;
    }
  }

  // ---------- what every plan keeps ----------

  predicate ValidRegion(r: Region, iso: Bytes) {
    match r
    case Raw(e) => ValidRaw(e, iso)
    case Part(key, d) => ValidPart(key, d, iso) && d.ns > 0
  }

  function GroupOf(r: Region): nat {
    match r
    case Raw(e) => e.group
    case Part(_, d) => d.gi
  }

  function GroupsIn(r: Region): nat {
    match r
    case Raw(e) => e.groups
    case Part(_, d) => d.ng
  }

  function Total(rs: seq<Region>): nat {
    if rs == [] then 0 else Total(rs[..|rs| - 1]) + GroupsIn(rs[|rs| - 1])
  }

  predicate AllValid(rs: seq<Region>, iso: Bytes) {
    forall k | 0 <= k < |rs| :: ValidRegion(rs[k], iso)
  }

  /** Each region's groups start where those of the regions before it end. */
  predicate Numbered(rs: seq<Region>) {
    forall k | 0 <= k < |rs| :: GroupOf(rs[k]) == Total(rs[..k])
  }

  predicate Inside(r: Region, x: nat) {
    Start(r) <= x < End(r)
  }

  predicate Covered(rs: seq<Region>, x: nat) {
    exists k | 0 <= k < |rs| :: Inside(rs[k], x)
  }

  /** All below `end` is covered, except that nothing need be when that is only the disc header. */
  ghost predicate Covers(rs: seq<Region>, end: nat) {
    end <= DISC_HEADER_SIZE || forall x: nat | x < end :: Covered(rs, x)
  }

  /** Block numbers fit 32 bits, and group numbers are of groups there are. */
  predicate EntryFits(d: DataEntry, groups: nat) {
    d.fs < U32 && d.ns < U32 && d.gi + d.ng <= groups
  }

  predicate EntriesFit(parts: seq<Partition>, groups: nat) {
    && AllKeyed(parts)
    && (forall i | 0 <= i < |parts| :: EntryFits(parts[i].first, groups) && EntryFits(parts[i].second, groups))
  }

  ghost predicate Sound(plan: Plan, iso: Bytes) {
    && AllValid(plan.order, iso) && Numbered(plan.order) && plan.groups == Total(plan.order)
    && multiset(plan.order) == multiset(PartRegions(plan.parts)) + multiset(RawRegions(plan.raws))
    && EntriesFit(plan.parts, plan.groups) && |plan.raws| <= plan.groups && plan.lastEnd <= |iso|
  }

  lemma TotalAppend(rs: seq<Region>, r: Region)
    ensures Total(rs + [r]) == Total(rs) + GroupsIn(r)
  {
    assert (rs + [r])[..|rs + [r]| - 1] == rs;
  }

  lemma {:induction false} TotalJoin(a: seq<Region>, b: seq<Region>)
    ensures Total(a + b) == Total(a) + Total(b)
  {
    if b == [] {
      assert a + b == a;
    } else {
      var n := |b| - 1;
      TotalJoin(a, b[..n]);
      assert (a + b)[..|a + b| - 1] == a + b[..n];
    }
  }

  lemma NumberedAppend(rs: seq<Region>, r: Region)
    requires Numbered(rs) && GroupOf(r) == Total(rs)
    ensures Numbered(rs + [r])
  {
    hide Total, GroupOf;
    forall k | 0 <= k < |rs + [r]|
      ensures GroupOf((rs + [r])[k]) == Total((rs + [r])[..k])
    {
      assert (rs + [r])[..k] == rs[..k];
      assert rs[..|rs|] == rs;
    }
  }

  lemma CoveredMore(rs: seq<Region>, more: seq<Region>, x: nat)
    requires Covered(rs, x)
    ensures Covered(rs + more, x)
  {
    var k :| 0 <= k < |rs| && Inside(rs[k], x);
    assert Inside((rs + more)[k], x);
  }

  /** A region that starts no later than what is covered ends carries the cover to its own end. */
  lemma CoversOn(rs: seq<Region>, r: Region, end: nat)
    requires if end <= DISC_HEADER_SIZE then Start(r) == 0 else Covers(rs, end) && Start(r) <= end
    ensures Covers(rs + [r], End(r))
  {
    hide Covered, Start, End;
    forall x: nat | x < End(r)
      ensures Covered(rs + [r], x)
    {
      if end > DISC_HEADER_SIZE && x < end {
        CoveredMore(rs, [r], x);
      } else {
        assert Inside((rs + [r])[|rs|], x);
        InsideCovers(rs + [r], |rs|, x);
      }
    }
  }

  lemma InsideCovers(rs: seq<Region>, k: nat, x: nat)
    requires k < |rs| && Inside(rs[k], x)
    ensures Covered(rs, x)
  {}

  // ---------- raw regions keep it ----------

  lemma RawForValid(iso: Bytes, offset: nat, size: nat, group: nat)
    requires 0 < size && offset + size <= |iso|
    ensures ValidRaw(RawFor(offset, size, group), iso) && RawFor(offset, size, group).groups > 0
  {}

  lemma RawsAppend(raws: seq<RawEntry>, e: RawEntry)
    ensures multiset(RawRegions(raws + [e])) == multiset(RawRegions(raws)) + multiset{Raw(e)}
  {
    assert RawRegions(raws + [e]) == RawRegions(raws) + [Raw(e)];
  }

  lemma AddRawSound(plan: Plan, iso: Bytes, offset: nat, size: nat)
    requires Sound(plan, iso) && offset + size <= |iso|
    ensures Sound(AddRaw(plan, offset, size), iso)
  {
    hide ValidRaw, Total, GroupOf, GroupsIn, RawFor, Numbered, RawRegions, PartRegions, EntriesFit;
    var skip := Skip(offset, size);
    if size - skip > 0 {
      var e := RawFor(offset + skip, size - skip, plan.groups);
      RawForValid(iso, offset + skip, size - skip, plan.groups);
      RawOfGroup(offset + skip, size - skip, plan.groups);
      NumberedAppend(plan.order, Raw(e));
      TotalAppend(plan.order, Raw(e));
      RawsAppend(plan.raws, e);
      EntriesStay(plan.parts, plan.groups, plan.groups + e.groups);
    }
  }

  lemma EntriesStay(parts: seq<Partition>, groups: nat, more: nat)
    requires EntriesFit(parts, groups) && groups <= more
    ensures EntriesFit(parts, more)
  {}

  lemma RawOfGroup(offset: nat, size: nat, group: nat)
    ensures var e := RawFor(offset, size, group);
            GroupOf(Raw(e)) == group && GroupsIn(Raw(e)) == e.groups && e.offset == offset && e.size == size
  {}

  lemma RawForBounds(offset: nat, size: nat, group: nat)
    ensures var r := Raw(RawFor(offset, size, group));
            && Start(r) <= offset && End(r) == offset + size
            && (offset < BLOCK_TOTAL_SIZE ==> Start(r) == 0)
  {
    hide DivCeil;
  }

  /** A raw region from where the cover ends carries it on. */
  lemma AddRawCovers(plan: Plan, offset: nat, size: nat)
    requires Covers(plan.order, offset)
    ensures Covers(AddRaw(plan, offset, size).order, offset + size)
  {
    hide Covers;
    AddRawOrder(plan, offset, size);
    var skip := Skip(offset, size);
    if size - skip == 0 {
      SmallCover(plan.order, offset, size);
    } else {
      var e := RawFor(offset + skip, size - skip, plan.groups);
      RawForBounds(offset + skip, size - skip, plan.groups);
      hide RawFor, Start, End, AddRaw;
      CoversOn(plan.order, Raw(e), offset);
    }
  }

  lemma AddRawOrder(plan: Plan, offset: nat, size: nat)
    ensures var skip := Skip(offset, size);
            AddRaw(plan, offset, size).order == plan.order
              + if size == skip then [] else [Raw(RawFor(offset + skip, size - skip, plan.groups))]
  {
    hide Skip, RawFor;
  }

  lemma SmallCover(rs: seq<Region>, offset: nat, size: nat)
    requires Covers(rs, offset) && size == Skip(offset, size)
    ensures Covers(rs, offset + size)
  {}

  // ---------- partitions keep it ----------

  lemma WholeBlocks(x: nat)
    requires x < 0x10_0000_0000
    ensures x / BLOCK_TOTAL_SIZE < U32 && x / BLOCK_TOTAL_SIZE % U32 == x / BLOCK_TOTAL_SIZE
    ensures x / BLOCK_TOTAL_SIZE * BLOCK_TOTAL_SIZE == AlignDown(x, BLOCK_TOTAL_SIZE)
  {
    assert x == BLOCK_TOTAL_SIZE * (x / BLOCK_TOTAL_SIZE) + x % BLOCK_TOTAL_SIZE;
  }

  /** A stretch of a partition as it is recorded: the whole blocks in it. */
  lemma DataEntryValid(iso: Bytes, key: Bytes, offset: nat, size: nat, group: nat)
    requires |key| == 16 && offset + size <= |iso| && offset < 0x10_0000_0000 && size < 0x10_0000_0000
    ensures var d := DataEntryFor(offset, size, group);
            && ValidPart(key, d, iso) && d.gi == group && EntryFits(d, group + d.ng) && (d.ns == 0 ==> d.ng == 0)
            && d.fs * BLOCK_TOTAL_SIZE == AlignDown(offset, BLOCK_TOTAL_SIZE)
            && d.ns * BLOCK_TOTAL_SIZE == AlignDown(size, BLOCK_TOTAL_SIZE)
  {
    WholeBlocks(offset);
    WholeBlocks(size);
    var d := DataEntryFor(offset, size, group);
    assert (d.fs + d.ns) * BLOCK_TOTAL_SIZE == d.fs * BLOCK_TOTAL_SIZE + d.ns * BLOCK_TOTAL_SIZE;
    hide AlignDown;
  }

  lemma PartsAppend(parts: seq<Partition>, p: Partition)
    ensures PartRegions(parts + [p]) == PartRegions(parts) + StretchesOf(p)
  {
    hide StretchesOf;
    if parts == [] {
      assert parts + [p] == [p] && [p][1..] == [];
    } else {
      assert (parts + [p])[1..] == parts[1..] + [p];
      PartsAppend(parts[1..], p);
    }
  }

  function Stretch(key: Bytes, d: DataEntry): seq<Region> {
    if d.ns == 0 then [] else [Part(key, d)]
  }

  lemma StretchSound(rs: seq<Region>, key: Bytes, d: DataEntry, iso: Bytes)
    requires AllValid(rs, iso) && Numbered(rs) && ValidPart(key, d, iso)
    requires d.gi == Total(rs) && (d.ns == 0 ==> d.ng == 0)
    ensures AllValid(rs + Stretch(key, d), iso) && Numbered(rs + Stretch(key, d))
    ensures Total(rs + Stretch(key, d)) == Total(rs) + d.ng
  {
    hide ValidPart, Total, Numbered;
    if d.ns == 0 {
      assert rs + Stretch(key, d) == rs;
    } else {
      NumberedAppend(rs, Part(key, d));
      TotalAppend(rs, Part(key, d));
    }
  }

  predicate ValidData(p: ValidPartition, iso: Bytes) {
    && |p.key| == 16 && p.dataStart % BLOCK_TOTAL_SIZE == 0 && p.dataStart + p.dataSize <= |iso|
    && p.dataStart < 0x8_0000_0000 && p.dataSize < 0x4_0000_0000
  }

  function FirstStretch(p: ValidPartition, groups: nat): DataEntry {
    DataEntryFor(p.dataStart, Split(p) - p.dataStart, groups)
  }

  function SecondStretch(p: ValidPartition, groups: nat): DataEntry {
    DataEntryFor(Split(p), p.dataStart + p.dataSize - Split(p), groups + FirstStretch(p, groups).ng)
  }

  /** The two stretches of a partition are its whole blocks, the second starting where the first ends. */
  lemma Stretches(p: ValidPartition, iso: Bytes, groups: nat)
    requires ValidData(p, iso)
    ensures var e0, e1 := FirstStretch(p, groups), SecondStretch(p, groups);
            && ValidPart(p.key, e0, iso) && ValidPart(p.key, e1, iso) && EntryFits(e0, groups + e0.ng)
            && EntryFits(e1, groups + e0.ng + e1.ng)
            && e0.gi == groups && e1.gi == groups + e0.ng && (e0.ns == 0 ==> e0.ng == 0) && (e1.ns == 0 ==> e1.ng == 0)
            && e0.fs * BLOCK_TOTAL_SIZE == p.dataStart && e1.fs == e0.fs + e0.ns
            && (e1.fs + e1.ns) * BLOCK_TOTAL_SIZE == AlignDown(p.dataStart + p.dataSize, BLOCK_TOTAL_SIZE)
  {
    var s, end := Split(p), p.dataStart + p.dataSize;
    hide AlignDown, Split, DataEntryFor, ValidPart, EntryFits;
    SplitPlace(p);
    DataEntryValid(iso, p.key, p.dataStart, s - p.dataStart, groups);
    var e0 := FirstStretch(p, groups);
    DataEntryValid(iso, p.key, s, end - s, groups + e0.ng);
    var e1 := SecondStretch(p, groups);
    SplitAligned(p.dataStart, s, end);
    assert e0.fs * BLOCK_TOTAL_SIZE + e0.ns * BLOCK_TOTAL_SIZE == e1.fs * BLOCK_TOTAL_SIZE;
    SameBlocks(e0.fs + e0.ns, e1.fs);
  }

  lemma SameBlocks(a: nat, b: nat)
    requires a * BLOCK_TOTAL_SIZE == b * BLOCK_TOTAL_SIZE
    ensures a == b
  {}

  lemma SplitAligned(start: nat, s: nat, end: nat)
    requires start <= s <= end && start % BLOCK_TOTAL_SIZE == 0 && (s == end || s % BLOCK_TOTAL_SIZE == 0)
    ensures AlignDown(start, BLOCK_TOTAL_SIZE) == start
    ensures start + AlignDown(s - start, BLOCK_TOTAL_SIZE) == AlignDown(s, BLOCK_TOTAL_SIZE)
    ensures AlignDown(s, BLOCK_TOTAL_SIZE) + AlignDown(end - s, BLOCK_TOTAL_SIZE) == AlignDown(end, BLOCK_TOTAL_SIZE)
  {
    AlignParts(start, s);
    if s % BLOCK_TOTAL_SIZE == 0 {
      AlignParts(s, end);
    }
  }

  /** The split is at a block's start unless it is the end of the data. */
  lemma SplitPlace(p: ValidPartition)
    requires p.dataStart % BLOCK_TOTAL_SIZE == 0
    ensures Split(p) == p.dataStart + p.dataSize || Split(p) % BLOCK_TOTAL_SIZE == 0
  {
    GroupAligned(p.fstOffset + p.fstSize);
    hide AlignUp;
  }

  lemma GroupAligned(x: nat)
    ensures AlignUp(x, GROUP_TOTAL_SIZE) % BLOCK_TOTAL_SIZE == 0
  {
    var k := (x + GROUP_TOTAL_SIZE - 1) / GROUP_TOTAL_SIZE;
    assert AlignUp(x, GROUP_TOTAL_SIZE) == BLOCK_TOTAL_SIZE * (64 * k);
  }

  lemma AlignParts(a: nat, b: nat)
    requires a <= b && a % BLOCK_TOTAL_SIZE == 0
    ensures AlignDown(a, BLOCK_TOTAL_SIZE) == a
    ensures AlignDown(b, BLOCK_TOTAL_SIZE) == a + AlignDown(b - a, BLOCK_TOTAL_SIZE)
    ensures AlignDown(0, BLOCK_TOTAL_SIZE) == 0
  {}

  lemma AddDataSound(plan: Plan, iso: Bytes, p: ValidPartition)
    requires Sound(plan, iso) && ValidData(p, iso)
    ensures Sound(AddData(plan, p), iso)
  {
    hide ValidPart, Total, Numbered, RawRegions, PartRegions, DataEntryFor, Split, ValidRegion, AllValid, EntriesFit;
    hide Stretch, StretchesOf, EntryFits;
    var e0, e1 := FirstStretch(p, plan.groups), SecondStretch(p, plan.groups);
    Stretches(p, iso, plan.groups);
    StretchSound(plan.order, p.key, e0, iso);
    StretchSound(plan.order + Stretch(p.key, e0), p.key, e1, iso);
    var part := Partition(p.key, e0, e1);
    StretchesJoin(plan.order, part);
    PartsAppend(plan.parts, part);
    EntriesAppend(plan.parts, plan.groups, part, plan.groups + e0.ng + e1.ng);
    assert multiset(PartRegions(plan.parts) + StretchesOf(part))
        == multiset(PartRegions(plan.parts)) + multiset(StretchesOf(part));
  }

  lemma StretchesJoin(rs: seq<Region>, part: Partition)
    ensures rs + Stretch(part.key, part.first) + Stretch(part.key, part.second) == rs + StretchesOf(part)
  {}

  lemma EntriesAppend(parts: seq<Partition>, groups: nat, part: Partition, more: nat)
    requires EntriesFit(parts, groups) && |part.key| == 16 && groups <= more
    requires EntryFits(part.first, more) && EntryFits(part.second, more)
    ensures EntriesFit(parts + [part], more)
  {}

  lemma AddDataCovers(plan: Plan, iso: Bytes, p: ValidPartition)
    requires ValidData(p, iso) && Covers(plan.order, p.dataStart)
    ensures Covers(AddData(plan, p).order, AddData(plan, p).lastEnd)
  {
    hide ValidPart, DataEntryFor, Split, Covered;
    var e0, e1 := FirstStretch(p, plan.groups), SecondStretch(p, plan.groups);
    Stretches(p, iso, plan.groups);
    StretchCovers(plan.order, p.key, e0);
    StretchCovers(plan.order + Stretch(p.key, e0), p.key, e1);
    var part := Partition(p.key, e0, e1);
    StretchesJoin(plan.order, part);
  }

  lemma StretchCovers(rs: seq<Region>, key: Bytes, d: DataEntry)
    requires Covers(rs, d.fs * BLOCK_TOTAL_SIZE)
    ensures Covers(rs + Stretch(key, d), (d.fs + d.ns) * BLOCK_TOTAL_SIZE)
  {
    hide Covered;
    if d.ns == 0 {
      assert rs + Stretch(key, d) == rs;
    } else {
      CoversOn(rs, Part(key, d), d.fs * BLOCK_TOTAL_SIZE);
    }
  }

  // ---------- whole plans ----------

  /**
   No partition that is set up has its data 4 GiB or more after its start: of that distance only
   32 bits are kept.
   */
  predicate NearData(c: Codec, iso: Bytes, plan: Plan, cands: seq<Candidate>)
    decreases |cands|
  {
    cands == [] ||
    var next := AddCandidate(c, iso, plan, cands[0]);
    && (cands[0].offset < plan.lastEnd || NearStart(c, iso, cands[0].offset))
    && (next.Ok? ==> NearData(c, iso, next.value, cands[1..]))
  }

  lemma FirstIsFar(c: Codec, iso: Bytes, plan: Plan, cands: seq<Candidate>)
    requires cands != [] && plan.lastEnd <= cands[0].offset && !NearStart(c, iso, cands[0].offset)
    ensures !NearData(c, iso, plan, cands)
  {
    hide NearStart, AddCandidate;
  }

  predicate NearStart(c: Codec, iso: Bytes, offset: nat) {
    var r := SetUp(c, iso, offset);
    r.Ok? && r.value.Some? ==> r.value.value.dataStart - offset < U32
  }

  /** A candidate as it comes out of the disc's tables. */
  predicate InRange(iso: Bytes, cands: seq<Candidate>) {
    forall i | 0 <= i < |cands| :: cands[i].offset < |iso| && cands[i].offset < 0x4_0000_0000
  }

  lemma RawKeepsEnd(plan: Plan, offset: nat, size: nat)
    ensures AddRaw(plan, offset, size).lastEnd == plan.lastEnd
  {}

  lemma BeforeKeeps(plan: Plan, iso: Bytes, offset: nat)
    requires Sound(plan, iso) && plan.lastEnd <= offset <= |iso|
    ensures Sound(Before(plan, offset), iso) && Before(plan, offset).lastEnd == offset
    ensures Covers(plan.order, plan.lastEnd) ==> Covers(Before(plan, offset).order, offset)
  {
    hide Covers, AllValid, Numbered, Total, EntriesFit, PartRegions, RawRegions, AddRaw;
    RawKeepsEnd(plan, plan.lastEnd, offset - plan.lastEnd);
    AddRawSound(plan, iso, plan.lastEnd, offset - plan.lastEnd);
    if Covers(plan.order, plan.lastEnd) {
      AddRawCovers(plan, plan.lastEnd, offset - plan.lastEnd);
    }
  }

  /** Every candidate keeps a plan sound, and if the distances fit, it keeps the cover too. */
  lemma CandidateKeeps(c: Codec, iso: Bytes, plan: Plan, cand: Candidate)
    requires Sound(plan, iso) && cand.offset < |iso| && cand.offset < 0x4_0000_0000
    requires AddCandidate(c, iso, plan, cand).Ok?
    ensures var next := AddCandidate(c, iso, plan, cand).value;
            && Sound(next, iso)
            && (Covers(plan.order, plan.lastEnd) && (cand.offset < plan.lastEnd || NearStart(c, iso, cand.offset))
                ==> Covers(next.order, next.lastEnd))
  {
    hide Covers, Sound, SetUp, Before, AddRaw, AddData;
    if cand.offset >= plan.lastEnd {
      SetUpBounds(c, iso, cand.offset);
      assert plan.lastEnd <= cand.offset;
      var before := Before(plan, cand.offset);
      BeforeKeeps(plan, iso, cand.offset);
      var found := SetUp(c, iso, cand.offset).value;
      if found.Some? {
        var p := found.value;
        var middle := AddRaw(before, p.offset, p.dataOffset);
        Truncates(p.dataStart - p.offset);
        AddRawSound(before, iso, p.offset, p.dataOffset);
        AddDataSound(middle, iso, p);
        if Covers(plan.order, plan.lastEnd) && NearStart(c, iso, cand.offset) {
          AddRawCovers(before, p.offset, p.dataOffset);
          AddDataCovers(middle, iso, p);
        }
      }
    }
  }

  lemma Truncates(x: nat)
    ensures x % U32 <= x && (x < U32 ==> x % U32 == x)
  {}

  lemma {:induction false} CandidatesKeep(c: Codec, iso: Bytes, plan: Plan, cands: seq<Candidate>)
    requires Sound(plan, iso) && InRange(iso, cands) && AddCandidates(c, iso, plan, cands).Ok?
    ensures var next := AddCandidates(c, iso, plan, cands).value;
            && Sound(next, iso)
            && (Covers(plan.order, plan.lastEnd) && NearData(c, iso, plan, cands) ==> Covers(next.order, next.lastEnd))
    decreases |cands|
  {
    hide Covers, Sound, AddCandidate, NearStart;
    if cands != [] {
      CandidateKeeps(c, iso, plan, cands[0]);
      CandidatesKeep(c, iso, AddCandidate(c, iso, plan, cands[0]).value, cands[1..]);
    }
  }

  lemma {:induction false} EntriesInRange(iso: Bytes, table: Bytes, count: nat, i: nat)
    requires count * 8 <= |table|
    ensures InRange(iso, EntriesFrom(iso, table, count, i))
    decreases count - i
  {
    hide Get32;
    if i < count {
      EntriesInRange(iso, table, count, i + 1);
    }
  }

  lemma TableInRange(iso: Bytes, header: Bytes, g: nat)
    requires |header| >= 0x20 && g < 4
    ensures InRange(iso, TableEntries(iso, header, g))
  {
    hide Get32, EntriesFrom;
    var count, at := Get32(header, g * 8), Get32(header, g * 8 + 4) * 4;
    if count != 0 && at + count * 8 <= |iso| {
      EntriesInRange(iso, ReadAt(iso, at, count * 8), count, 0);
    }
  }

  lemma {:induction false} TablesInRange(iso: Bytes, header: Bytes, g: nat)
    requires |header| >= 0x20 && g <= 4
    ensures InRange(iso, TablesFrom(iso, header, g))
    decreases 4 - g
  {
    hide TableEntries;
    if g < 4 {
      TableInRange(iso, header, g);
      TablesInRange(iso, header, g + 1);
    }
  }

  lemma CandidatesInRange(iso: Bytes)
    ensures InRange(iso, Candidates(iso)) && Sorting.Ordered(OffsetKey, Candidates(iso))
  {
    hide TablesFrom;
    if |iso| >= PARTITION_TABLE_OFFSET + 0x20 {
      var found := TablesFrom(iso, ReadAt(iso, PARTITION_TABLE_OFFSET, 0x20), 0);
      TablesInRange(iso, ReadAt(iso, PARTITION_TABLE_OFFSET, 0x20), 0);
      Sorting.SortedKeeps(OffsetKey, found);
      forall i | 0 <= i < |Candidates(iso)|
        ensures Candidates(iso)[i].offset < |iso| && Candidates(iso)[i].offset < 0x4_0000_0000
      {
        assert Candidates(iso)[i] in multiset(Candidates(iso));
        assert Candidates(iso)[i] in found;
      }
    }
  }

  function Considered(iso: Bytes, wii: bool): seq<Candidate> {
    if wii then Candidates(iso) else []
  }

  /** A disc can be planned exactly when its candidates can. */
  lemma PlannedWhen(c: Codec, iso: Bytes, wii: bool)
    ensures PlanOf(c, iso, wii).Ok? <==> AddCandidates(c, iso, NOTHING, Considered(iso, wii)).Ok?
  {
    hide Candidates, AddCandidates, Finish;
  }

  lemma NothingSound(iso: Bytes)
    ensures Sound(NOTHING, iso) && Covers(NOTHING.order, 0)
  {}

  lemma EndInside(plan: Plan, iso: Bytes)
    requires Sound(plan, iso)
    ensures plan.lastEnd <= |iso|
  {
    hide AllValid, Numbered, Total, PartRegions, RawRegions, EntriesFit;
  }

  lemma FinishKeeps(plan: Plan, iso: Bytes)
    requires Sound(plan, iso)
    ensures Sound(Finish(plan, iso), iso)
    ensures Covers(plan.order, plan.lastEnd) ==> Covers(Finish(plan, iso).order, |iso|)
  {
    hide Sound, Covers, AddRaw;
    EndInside(plan, iso);
    AddRawSound(plan, iso, plan.lastEnd, |iso| - plan.lastEnd);
    if Covers(plan.order, plan.lastEnd) {
      AddRawCovers(plan, plan.lastEnd, |iso| - plan.lastEnd);
    }
  }

  /** Every finished plan is sound, and covers the disc if every partition's data starts near it. */
  lemma PlanCovers(c: Codec, iso: Bytes, wii: bool)
    requires PlanOf(c, iso, wii).Ok?
    ensures var plan := PlanOf(c, iso, wii).value;
            Sound(plan, iso) && (NearData(c, iso, NOTHING, Considered(iso, wii)) ==> Covers(plan.order, |iso|))
  {
    hide Candidates, InRange, NearData, Sound, Covers, Finish, AddCandidates;
    var cands := Considered(iso, wii);
    ConsideredInRange(iso, wii);
    NothingSound(iso);
    CandidatesKeep(c, iso, NOTHING, cands);
    FinishKeeps(AddCandidates(c, iso, NOTHING, cands).value, iso);
  }

  lemma ConsideredInRange(iso: Bytes, wii: bool)
    ensures InRange(iso, Considered(iso, wii)) && Sorting.Ordered(OffsetKey, Considered(iso, wii))
  {
    hide Candidates;
    if wii {
      CandidatesInRange(iso);
    }
  }

  /** After a partition the plan reaches to the end of its last whole block. */
  lemma EndOfData(c: Codec, iso: Bytes, plan: Plan, cand: Candidate, p: ValidPartition)
    requires plan.lastEnd <= cand.offset < 0x4_0000_0000 && SetUp(c, iso, cand.offset) == Ok(Some(p))
    ensures var next := AddCandidate(c, iso, plan, cand);
            next.Ok? && next.value.lastEnd == AlignDown(p.dataStart + p.dataSize, BLOCK_TOTAL_SIZE)
  {
    hide SetUp, AlignDown, AddPartition, Before;
    SetUpBounds(c, iso, cand.offset);
    AddPartitionEnd(Before(plan, cand.offset), iso, p);
  }

  lemma AddPartitionEnd(plan: Plan, iso: Bytes, p: ValidPartition)
    requires ValidData(p, iso)
    ensures AddPartition(plan, p).lastEnd == AlignDown(p.dataStart + p.dataSize, BLOCK_TOTAL_SIZE)
  {
    hide AddRaw, DataEntryFor, Split, AlignDown, ValidPart, EntryFits;
    Stretches(p, iso, AddRaw(plan, p.offset, p.dataOffset).groups);
  }

  // ---------- when it does not cover ----------

  /** A byte that no region holds, and that none to come can: they start at `b` or after. */
  predicate Gap(plan: Plan, x: nat, b: nat) {
    !Covered(plan.order, x) && x < b <= plan.lastEnd && b % BLOCK_TOTAL_SIZE == 0
  }

  lemma CoveredLast(rs: seq<Region>, r: Region, x: nat)
    ensures Covered(rs + [r], x) <==> Covered(rs, x) || Inside(r, x)
  {
    hide Inside;
    var all := rs + [r];
    if Covered(all, x) {
      var k :| 0 <= k < |all| && Inside(all[k], x);
      if k < |rs| {
        assert Inside(rs[k], x);
      }
    }
    if Covered(rs, x) {
      CoveredMore(rs, [r], x);
    }
    if Inside(r, x) {
      assert Inside(all[|rs|], x);
    }
  }

  lemma RawLeaves(plan: Plan, offset: nat, size: nat, x: nat, b: nat)
    requires !Covered(plan.order, x)
    requires (x < b <= offset && b % BLOCK_TOTAL_SIZE == 0) || offset + size <= x
    ensures !Covered(AddRaw(plan, offset, size).order, x)
  {
    hide Covered;
    var skip := Skip(offset, size);
    if size - skip > 0 {
      var e := RawFor(offset + skip, size - skip, plan.groups);
      if x < b <= offset {
        assert AlignDown(offset + skip, BLOCK_TOTAL_SIZE) >= b;
      }
      CoveredLast(plan.order, Raw(e), x);
    }
  }

  lemma StretchLeaves(rs: seq<Region>, key: Bytes, d: DataEntry, x: nat)
    requires !Covered(rs, x) && x < d.fs * BLOCK_TOTAL_SIZE
    ensures !Covered(rs + Stretch(key, d), x)
  {
    hide Covered;
    if d.ns == 0 {
      assert rs + Stretch(key, d) == rs;
    } else {
      CoveredLast(rs, Part(key, d), x);
    }
  }

  lemma DataLeaves(plan: Plan, iso: Bytes, p: ValidPartition, x: nat)
    requires !Covered(plan.order, x) && x < p.dataStart && ValidData(p, iso)
    ensures !Covered(AddData(plan, p).order, x) && AddData(plan, p).lastEnd >= p.dataStart
  {
    hide ValidPart, DataEntryFor, Split, Covered, EntryFits;
    var e0, e1 := FirstStretch(p, plan.groups), SecondStretch(p, plan.groups);
    Stretches(p, iso, plan.groups);
    assert p.dataStart <= e1.fs * BLOCK_TOTAL_SIZE by {
      assert e1.fs * BLOCK_TOTAL_SIZE == e0.fs * BLOCK_TOTAL_SIZE + e0.ns * BLOCK_TOTAL_SIZE;
    }
    StretchLeaves(plan.order, p.key, e0, x);
    StretchLeaves(plan.order + Stretch(p.key, e0), p.key, e1, x);
    var part := Partition(p.key, e0, e1);
    StretchesJoin(plan.order, part);
    assert (e1.fs + e1.ns) * BLOCK_TOTAL_SIZE >= e1.fs * BLOCK_TOTAL_SIZE;
  }

  /** A gap stays a gap. */
  lemma GapStays(c: Codec, iso: Bytes, plan: Plan, cand: Candidate, x: nat, b: nat)
    requires Gap(plan, x, b) && AddCandidate(c, iso, plan, cand).Ok? && cand.offset < 0x4_0000_0000
    ensures Gap(AddCandidate(c, iso, plan, cand).value, x, b)
  {
    hide Covered, SetUp, AddRaw, AddData;
    if cand.offset >= plan.lastEnd {
      SetUpBounds(c, iso, cand.offset);
      var before := Before(plan, cand.offset);
      RawLeaves(plan, plan.lastEnd, cand.offset - plan.lastEnd, x, b);
      var found := SetUp(c, iso, cand.offset).value;
      if found.Some? {
        var p := found.value;
        RawLeaves(before, p.offset, p.dataOffset, x, b);
        DataLeaves(AddRaw(before, p.offset, p.dataOffset), iso, p, x);
      }
    }
  }

  /** A plan behind which nothing yet is covered. */
  predicate Fresh(plan: Plan) {
    forall k | 0 <= k < |plan.order| :: End(plan.order[k]) <= plan.lastEnd
  }

  lemma RawFresh(plan: Plan, offset: nat, size: nat, end: nat)
    requires offset + size <= end && forall k | 0 <= k < |plan.order| :: End(plan.order[k]) <= end
    ensures forall k | 0 <= k < |AddRaw(plan, offset, size).order| :: End(AddRaw(plan, offset, size).order[k]) <= end
  {
    hide End, RawFor;
    var skip := Skip(offset, size);
    RawEnds(offset + skip, size - skip, plan.groups);
  }

  lemma RawEnds(offset: nat, size: nat, group: nat)
    ensures End(Raw(RawFor(offset, size, group))) == offset + size
  {}

  lemma DataFresh(plan: Plan, iso: Bytes, p: ValidPartition)
    requires ValidData(p, iso) && forall k | 0 <= k < |plan.order| :: End(plan.order[k]) <= p.dataStart
    ensures Fresh(AddData(plan, p))
  {
    hide ValidPart, DataEntryFor, Split, EntryFits;
    var e0, e1 := FirstStretch(p, plan.groups), SecondStretch(p, plan.groups);
    Stretches(p, iso, plan.groups);
    assert e1.fs * BLOCK_TOTAL_SIZE == e0.fs * BLOCK_TOTAL_SIZE + e0.ns * BLOCK_TOTAL_SIZE;
    assert (e1.fs + e1.ns) * BLOCK_TOTAL_SIZE == e1.fs * BLOCK_TOTAL_SIZE + e1.ns * BLOCK_TOTAL_SIZE;
  }

  /** A candidate whose data is too far leaves a gap right before its data. */
  lemma FarLeavesGap(c: Codec, iso: Bytes, plan: Plan, cand: Candidate) returns (x: nat, b: nat)
    requires Fresh(plan) && plan.lastEnd <= cand.offset < 0x4_0000_0000 && !NearStart(c, iso, cand.offset)
    requires AddCandidate(c, iso, plan, cand).Ok?
    ensures Gap(AddCandidate(c, iso, plan, cand).value, x, b)
  {
    hide SetUp, AddRaw, AddData, End;
    SetUpBounds(c, iso, cand.offset);
    var p := SetUp(c, iso, cand.offset).value.value;
    x, b := p.dataStart - 1, p.dataStart;
    var before := Before(plan, cand.offset);
    RawFresh(plan, plan.lastEnd, cand.offset - plan.lastEnd, cand.offset);
    assert !Covered(before.order, x);
    hide Covered;
    assert p.offset + p.dataOffset <= x;
    RawLeaves(before, p.offset, p.dataOffset, x, 0);
    DataLeaves(AddRaw(before, p.offset, p.dataOffset), iso, p, x);
  }

  lemma CandidateFresh(c: Codec, iso: Bytes, plan: Plan, cand: Candidate)
    requires Fresh(plan) && AddCandidate(c, iso, plan, cand).Ok? && cand.offset < 0x4_0000_0000
    ensures Fresh(AddCandidate(c, iso, plan, cand).value)
  {
    hide SetUp, AddRaw, AddData, End;
    if cand.offset >= plan.lastEnd {
      SetUpBounds(c, iso, cand.offset);
      RawFresh(plan, plan.lastEnd, cand.offset - plan.lastEnd, cand.offset);
      var before := Before(plan, cand.offset);
      var found := SetUp(c, iso, cand.offset).value;
      if found.Some? {
        var p := found.value;
        Truncates(p.dataStart - p.offset);
        RawFresh(before, p.offset, p.dataOffset, p.dataStart);
        DataFresh(AddRaw(before, p.offset, p.dataOffset), iso, p);
      }
    }
  }

  lemma {:induction false} GapLasts(c: Codec, iso: Bytes, plan: Plan, cands: seq<Candidate>, x: nat, b: nat)
    requires Gap(plan, x, b) && InRange(iso, cands) && AddCandidates(c, iso, plan, cands).Ok?
    ensures Gap(AddCandidates(c, iso, plan, cands).value, x, b)
    decreases |cands|
  {
    hide Gap, AddCandidate;
    if cands != [] {
      GapStays(c, iso, plan, cands[0], x, b);
      GapLasts(c, iso, AddCandidate(c, iso, plan, cands[0]).value, cands[1..], x, b);
    }
  }

  lemma {:induction false} FarGap(c: Codec, iso: Bytes, plan: Plan, cands: seq<Candidate>) returns (x: nat, b: nat)
    requires Fresh(plan) && InRange(iso, cands) && AddCandidates(c, iso, plan, cands).Ok?
    requires !NearData(c, iso, plan, cands)
    ensures Gap(AddCandidates(c, iso, plan, cands).value, x, b)
    decreases |cands|
  {
    hide Gap, AddCandidate, NearStart, Fresh;
    var next := AddCandidate(c, iso, plan, cands[0]).value;
    if cands[0].offset >= plan.lastEnd && !NearStart(c, iso, cands[0].offset) {
      x, b := FarLeavesGap(c, iso, plan, cands[0]);
      GapLasts(c, iso, next, cands[1..], x, b);
    } else {
      CandidateFresh(c, iso, plan, cands[0]);
      x, b := FarGap(c, iso, next, cands[1..]);
    }
  }

  /** The plan covers the disc exactly when every partition that is set up has its data near its start. */
  lemma PlanCoversExactly(c: Codec, iso: Bytes, wii: bool)
    requires PlanOf(c, iso, wii).Ok? && DISC_HEADER_SIZE < |iso|
    ensures var plan := PlanOf(c, iso, wii).value;
            (forall x: nat | x < |iso| :: Covered(plan.order, x)) <==> NearData(c, iso, NOTHING, Considered(iso, wii))
  {
    hide Candidates, InRange, NearData, Sound, Covered, AddRaw, AddCandidates;
    PlanCovers(c, iso, wii);
    var cands := Considered(iso, wii);
    if !NearData(c, iso, NOTHING, cands) {
      ConsideredInRange(iso, wii);
      NothingSound(iso);
      CandidatesKeep(c, iso, NOTHING, cands);
      var x, b := FarGap(c, iso, NOTHING, cands);
      var plan := AddCandidates(c, iso, NOTHING, cands).value;
      EndInside(plan, iso);
      RawLeaves(plan, plan.lastEnd, |iso| - plan.lastEnd, x, b);
      assert x < |iso|;
    }
  }

  // ---------- when headers are read in time ----------

  /** No header is read, or all before the candidate is covered when it is. */
  ghost predicate ReadInTime(iso: Bytes, plan: Plan, cand: Candidate) {
    || cand.offset < plan.lastEnd || !HeaderFits(iso, cand.offset)
    || Covers(Before(plan, cand.offset).order, cand.offset)
  }

  ghost predicate AllInTime(c: Codec, iso: Bytes, plan: Plan, cands: seq<Candidate>)
    decreases |cands|
  {
    cands == [] ||
    var next := AddCandidate(c, iso, plan, cands[0]);
    ReadInTime(iso, plan, cands[0]) && (next.Ok? ==> AllInTime(c, iso, next.value, cands[1..]))
  }

  /** Every candidate starts inside what is planned already, or too near the disc's end to have a header. */
  predicate NoneRead(iso: Bytes, plan: Plan, cands: seq<Candidate>) {
    forall i | 0 <= i < |cands| :: cands[i].offset < plan.lastEnd || !HeaderFits(iso, cands[i].offset)
  }

  /** After a partition whose data starts 4 GiB or more after it, no header is read. */
  predicate FarComesLast(c: Codec, iso: Bytes, plan: Plan, cands: seq<Candidate>)
    decreases |cands|
  {
    cands == [] ||
    var next := AddCandidate(c, iso, plan, cands[0]);
    next.Ok? ==>
      if cands[0].offset < plan.lastEnd || NearStart(c, iso, cands[0].offset) then
        FarComesLast(c, iso, next.value, cands[1..])
      else NoneRead(iso, next.value, cands[1..])
  }

  /** No header is read in time behind a gap. */
  lemma GapTooEarly(iso: Bytes, plan: Plan, cand: Candidate, x: nat, b: nat)
    requires Gap(plan, x, b) && plan.lastEnd <= cand.offset && HeaderFits(iso, cand.offset)
    ensures !ReadInTime(iso, plan, cand)
  {
    hide Covered, AddRaw;
    RawLeaves(plan, plan.lastEnd, cand.offset - plan.lastEnd, x, b);
    assert b >= BLOCK_TOTAL_SIZE;
  }

  lemma {:induction false} GapReadsNone(c: Codec, iso: Bytes, plan: Plan, cands: seq<Candidate>, x: nat, b: nat)
    requires Gap(plan, x, b) && Sorting.Ordered(OffsetKey, cands)
    ensures AllInTime(c, iso, plan, cands) <==> NoneRead(iso, plan, cands)
    decreases |cands|
  {
    hide Gap, Covers, SetUp, Before, AddPartition;
    if cands != [] {
      if !HeaderFits(iso, cands[0].offset) {
        UnfitInTime(c, iso, plan, cands);
      } else if cands[0].offset < plan.lastEnd {
        GapReadsNone(c, iso, plan, cands[1..], x, b);
        NoneReadSplit(iso, plan, cands);
      } else {
        GapTooEarly(iso, plan, cands[0], x, b);
      }
    }
  }

  /** From a candidate without a header on, nothing is read. */
  lemma {:induction false} UnfitInTime(c: Codec, iso: Bytes, plan: Plan, cands: seq<Candidate>)
    requires cands == [] || !HeaderFits(iso, cands[0].offset)
    requires Sorting.Ordered(OffsetKey, cands)
    ensures AllInTime(c, iso, plan, cands) && NoneRead(iso, plan, cands)
    decreases |cands|
  {
    hide Covers, SetUp, Before, AddCandidate;
    if cands != [] {
      assert OffsetKey(cands[0]) == cands[0].offset;
      forall i | 0 <= i < |cands|
        ensures !HeaderFits(iso, cands[i].offset)
      {
        assert i > 0 ==> OffsetKey(cands[0]) <= OffsetKey(cands[i]);
      }
      var next := AddCandidate(c, iso, plan, cands[0]);
      if next.Ok? {
        UnfitInTime(c, iso, next.value, cands[1..]);
      }
    }
  }

  lemma NoneReadSplit(iso: Bytes, plan: Plan, cands: seq<Candidate>)
    requires cands != [] && cands[0].offset < plan.lastEnd
    ensures NoneRead(iso, plan, cands) <==> NoneRead(iso, plan, cands[1..])
  {
    if NoneRead(iso, plan, cands[1..]) {
      forall i | 0 <= i < |cands|
        ensures cands[i].offset < plan.lastEnd || !HeaderFits(iso, cands[i].offset)
      {
        assert i > 0 ==> cands[i] == cands[1..][i - 1];
      }
    }
  }

  lemma {:induction false} InTimeWhen(c: Codec, iso: Bytes, plan: Plan, cands: seq<Candidate>)
    requires Sound(plan, iso) && Fresh(plan) && Covers(plan.order, plan.lastEnd)
    requires InRange(iso, cands) && Sorting.Ordered(OffsetKey, cands)
    ensures AllInTime(c, iso, plan, cands) <==> FarComesLast(c, iso, plan, cands)
    decreases |cands|
  {
    hide Sound, Fresh, Covers, AddCandidate, NearStart, Gap, Before, NoneRead, HeaderFits;
    if cands != [] {
      var cand, next := cands[0], AddCandidate(c, iso, plan, cands[0]);
      if cand.offset >= plan.lastEnd {
        BeforeKeeps(plan, iso, cand.offset);
      }
      assert ReadInTime(iso, plan, cand);
      if next.Ok? {
        if cand.offset < plan.lastEnd || NearStart(c, iso, cand.offset) {
          CandidateKeeps(c, iso, plan, cand);
          CandidateFresh(c, iso, plan, cand);
          InTimeWhen(c, iso, next.value, cands[1..]);
        } else {
          var x, b := FarLeavesGap(c, iso, plan, cand);
          GapReadsNone(c, iso, next.value, cands[1..], x, b);
        }
      }
    }
  }

  /** Every header is read in time exactly when none is read after a partition with far data. */
  lemma InTimeExactly(c: Codec, iso: Bytes, wii: bool)
    ensures var cands := Considered(iso, wii);
            AllInTime(c, iso, NOTHING, cands) <==> FarComesLast(c, iso, NOTHING, cands)
  {
    hide Considered, InRange;
    ConsideredInRange(iso, wii);
    NothingSound(iso);
    InTimeWhen(c, iso, NOTHING, Considered(iso, wii));
  }

  /** Where all data is near, no partition has far data. */
  lemma {:induction false} NearComesLast(c: Codec, iso: Bytes, plan: Plan, cands: seq<Candidate>)
    requires NearData(c, iso, plan, cands)
    ensures FarComesLast(c, iso, plan, cands)
    decreases |cands|
  {
    hide AddCandidate, NearStart;
    if cands != [] && AddCandidate(c, iso, plan, cands[0]).Ok? {
      NearComesLast(c, iso, AddCandidate(c, iso, plan, cands[0]).value, cands[1..]);
    }
  }

  // ---------- discs whose partitions start at blocks ----------

  /** Regions that follow each other without gap or overlap. */
  predicate Chain(rs: seq<Region>, lo: nat, hi: nat) {
    if rs == [] then lo == hi
    else
      && Start(rs[0]) == lo && End(rs[|rs| - 1]) == hi && (forall k | 0 <= k < |rs| :: Start(rs[k]) < End(rs[k]))
      && forall k | 0 < k < |rs| :: End(rs[k - 1]) == Start(rs[k])
  }

  predicate AllAligned(cands: seq<Candidate>) {
    forall i | 0 <= i < |cands| :: cands[i].offset % BLOCK_TOTAL_SIZE == 0
  }

  /** A plan that has cut the disc into a chain up to where it is. */
  predicate Linked(plan: Plan) {
    Chain(plan.order, 0, plan.lastEnd) && plan.lastEnd % BLOCK_TOTAL_SIZE == 0
  }

  lemma ChainAppend(rs: seq<Region>, r: Region, lo: nat, mid: nat)
    requires Chain(rs, lo, mid) && Start(r) == mid < End(r)
    ensures Chain(rs + [r], lo, End(r))
  {
    hide Start, End;
  }

  lemma AddRawChain(plan: Plan, offset: nat, size: nat)
    requires Chain(plan.order, 0, offset) && offset % BLOCK_TOTAL_SIZE == 0
    requires size == 0 || offset + size > DISC_HEADER_SIZE
    ensures Chain(AddRaw(plan, offset, size).order, 0, offset + size)
  {
    hide Chain, AddRaw, RawFor, Start, End;
    AddRawOrder(plan, offset, size);
    if size > 0 {
      var skip := Skip(offset, size);
      RawFromBlock(offset, size, plan.groups);
      ChainAppend(plan.order, Raw(RawFor(offset + skip, size - skip, plan.groups)), 0, offset);
    } else {
      assert plan.order + [] == plan.order;
    }
  }

  /** A raw region that starts at a block starts there, whatever of it the disc header takes away. */
  lemma RawFromBlock(offset: nat, size: nat, group: nat)
    requires offset % BLOCK_TOTAL_SIZE == 0 && 0 < size && offset + size > DISC_HEADER_SIZE
    ensures var skip := Skip(offset, size);
            && skip < size
            && var r := Raw(RawFor(offset + skip, size - skip, group));
               Start(r) == offset && End(r) == offset + size
  {
    hide DivCeil;
    assert offset > 0 ==> offset >= BLOCK_TOTAL_SIZE;
  }

  lemma StretchChain(rs: seq<Region>, key: Bytes, d: DataEntry)
    requires Chain(rs, 0, d.fs * BLOCK_TOTAL_SIZE)
    ensures Chain(rs + Stretch(key, d), 0, (d.fs + d.ns) * BLOCK_TOTAL_SIZE)
  {
    hide Chain;
    if d.ns == 0 {
      assert rs + Stretch(key, d) == rs;
    } else {
      ChainAppend(rs, Part(key, d), 0, d.fs * BLOCK_TOTAL_SIZE);
    }
  }

  lemma AddDataChain(plan: Plan, iso: Bytes, p: ValidPartition)
    requires ValidData(p, iso) && Chain(plan.order, 0, p.dataStart)
    ensures Linked(AddData(plan, p))
  {
    hide ValidPart, DataEntryFor, Split, Chain, EntryFits;
    var e0, e1 := FirstStretch(p, plan.groups), SecondStretch(p, plan.groups);
    Stretches(p, iso, plan.groups);
    StretchChain(plan.order, p.key, e0);
    StretchChain(plan.order + Stretch(p.key, e0), p.key, e1);
    var part := Partition(p.key, e0, e1);
    StretchesJoin(plan.order, part);
  }

  lemma CandidateLinks(c: Codec, iso: Bytes, plan: Plan, cand: Candidate)
    requires Linked(plan) && cand.offset < 0x4_0000_0000 && cand.offset % BLOCK_TOTAL_SIZE == 0
    requires AddCandidate(c, iso, plan, cand).Ok? && (cand.offset < plan.lastEnd || NearStart(c, iso, cand.offset))
    ensures Linked(AddCandidate(c, iso, plan, cand).value)
  {
    hide Chain, SetUp, AddRaw, AddData;
    if cand.offset >= plan.lastEnd {
      SetUpBounds(c, iso, cand.offset);
      var before := Before(plan, cand.offset);
      Apart(plan.lastEnd, cand.offset);
      AddRawChain(plan, plan.lastEnd, cand.offset - plan.lastEnd);
      var found := SetUp(c, iso, cand.offset).value;
      if found.Some? {
        var p := found.value;
        Truncates(p.dataStart - p.offset);
        Apart(p.offset, p.dataStart);
        AddRawChain(before, p.offset, p.dataOffset);
        AddDataChain(AddRaw(before, p.offset, p.dataOffset), iso, p);
      }
    }
  }

  lemma Apart(a: nat, b: nat)
    requires a <= b && a % BLOCK_TOTAL_SIZE == 0 && b % BLOCK_TOTAL_SIZE == 0
    ensures a == b || b > DISC_HEADER_SIZE
  {}

  lemma {:induction false} CandidatesLink(c: Codec, iso: Bytes, plan: Plan, cands: seq<Candidate>)
    requires Linked(plan) && InRange(iso, cands) && AllAligned(cands) && NearData(c, iso, plan, cands)
    requires AddCandidates(c, iso, plan, cands).Ok?
    ensures Linked(AddCandidates(c, iso, plan, cands).value)
    decreases |cands|
  {
    hide Linked, AddCandidate, NearStart;
    if cands != [] {
      CandidateLinks(c, iso, plan, cands[0]);
      CandidatesLink(c, iso, AddCandidate(c, iso, plan, cands[0]).value, cands[1..]);
    }
  }

  /** When every candidate starts at a block, the plan cuts the whole disc into one chain. */
  lemma PlanChains(c: Codec, iso: Bytes, wii: bool)
    requires PlanOf(c, iso, wii).Ok? && NearData(c, iso, NOTHING, Considered(iso, wii))
    requires AllAligned(Considered(iso, wii))
    requires |iso| > DISC_HEADER_SIZE
    ensures Chain(PlanOf(c, iso, wii).value.order, 0, |iso|)
  {
    hide Candidates, InRange, NearData, AllAligned, Sound, Covers, AddCandidates, AddRaw;
    var cands := Considered(iso, wii);
    ConsideredInRange(iso, wii);
    NothingSound(iso);
    NothingLinked();
    CandidatesKeep(c, iso, NOTHING, cands);
    CandidatesLink(c, iso, NOTHING, cands);
    var plan := AddCandidates(c, iso, NOTHING, cands).value;
    EndInside(plan, iso);
    AddRawChain(plan, plan.lastEnd, |iso| - plan.lastEnd);
  }

  lemma NothingLinked()
    ensures Linked(NOTHING)
  {}

  lemma {:induction false} ChainOrder(rs: seq<Region>, lo: nat, hi: nat, i: nat, j: nat)
    requires Chain(rs, lo, hi) && i < j < |rs|
    ensures Start(rs[i]) < Start(rs[j])
  {
    hide Start, End;
    if i < j - 1 {
      ChainOrder(rs, lo, hi, i, j - 1);
    }
  }
}
