/**
 The decoder that is fed: it names the bytes it wants next and takes them when they come. Fed
 what it asks for, it puts out what the reading decoder writes.
 */
module Push {
  import opened Results
  import opened Sizes
  import opened BigEndian
  import opened Format
  import opened Regions
  import opened Tables
  import opened Decoding
  import opened Decoder
  import opened Delegation
  import Sorting

  datatype ReadRequest = ReadRequest(offset: nat, len: nat)

  datatype Stage = Header1 | Header2 | PartTable | RawTable | GroupTable | Regions | Done

  /** A stretch of the disc put out; with a key, its blocks are still to be encrypted. */
  datatype Output = Output(offset: nat, data: Bytes, key: Option<Bytes>)

  /** An output as it goes to the disc. */
  function Finished(c: Codec, o: Output): Write {
    if o.key.Some? && |o.data| % BLOCK_TOTAL_SIZE == 0 then Write(o.offset, EncryptBlocks(c, o.key.value, o.data))
    else Write(o.offset, o.data)
  }

  predicate Keyless(os: seq<Output>) {
    forall i | 0 <= i < |os| :: os[i].key == None
  }

  function AllFinished(c: Codec, os: seq<Output>): (ws: seq<Write>)
    ensures |ws| == |os|
  {
    seq(|os|, i requires 0 <= i < |os| => Finished(c, os[i]))
  }

  lemma FinishedJoin(c: Codec, a: seq<Output>, b: seq<Output>)
    ensures AllFinished(c, a + b) == AllFinished(c, a) + AllFinished(c, b)
  {
    hide Finished;
  }

  /** A partition region under way. */
  class PartState {
    const key: Bytes
    const partChunkSize: nat
    const dataSize: nat
    const discBase: nat
    const gi: nat
    const ng: nat
    var i: nat
    const buffers: GroupBuffers

    ghost function Repr(): set<object> {
      {this} + buffers.Repr()
    }

    constructor (key: Bytes, d: DataEntry, chunkSize: nat)
      ensures fresh(Repr()) && buffers.Valid() && buffers.State() == NewGroup(0)
      ensures Of(key, d, chunkSize) && i == 0
    {
      this.key := key;
      partChunkSize := chunkSize * BLOCK_DATA_SIZE / BLOCK_TOTAL_SIZE;
      dataSize := d.ns * BLOCK_DATA_SIZE;
      discBase := d.fs * BLOCK_TOTAL_SIZE;
      gi, ng, i := d.gi, d.ng, 0;
      buffers := new GroupBuffers();
    }

    /** That this is the state of a given region. */
    ghost predicate Of(key: Bytes, d: DataEntry, chunkSize: nat) {
      && this.key == key && partChunkSize == PartChunkSize(chunkSize) && dataSize == d.ns * BLOCK_DATA_SIZE
      && discBase == d.fs * BLOCK_TOTAL_SIZE && gi == d.gi && ng == d.ng
    }
  }

  ghost function PartRepr(part: PartState?): set<object> {
    if part == null then {} else part.Repr()
  }

  // ---------- what is left to do ----------

  /** Groups that the regions from `k` on ask for. */
  function GroupsFrom(rs: seq<Region>, k: nat): nat
    decreases |rs| - k
  {
    if k >= |rs| then 0 else GroupsWanted(rs[k]) + GroupsFrom(rs, k + 1)
  }

  function GroupsWanted(r: Region): nat {
    match r
    case Raw(e) => e.groups
    case Part(_, d) => d.ng
  }

  /** The request for a group. */
  function RequestFor(g: GroupEntry): ReadRequest {
    ReadRequest(g.offset4 * 4, g.size % FLAG)
  }

  /** A position among the regions: which region, and which of its groups comes next. */
  ghost function RunFrom(c: Codec, chunkSize: nat, chunks: seq<Chunk>, rs: seq<Region>, k: nat, i: nat, g: Group): Run
    requires ValidGroup(g)
  {
    if k >= |rs| then Run([], None)
    else
      Then(match rs[k]
           case Raw(e) => RawRun(c, e, chunkSize, chunks, i)
           case Part(key, d) => PartRun(c, key, d, chunkSize, chunks, i, g, true),
           RegionsRun(c, chunkSize, chunks, rs[k + 1..], true))
  }

  /** Regions without blocks are not among those decoded. */
  predicate NoEmptyParts(rs: seq<Region>) {
    forall k | 0 <= k < |rs| :: rs[k].Part? ==> rs[k].data.ns > 0
  }

  lemma RunAtStart(c: Codec, chunkSize: nat, chunks: seq<Chunk>, rs: seq<Region>, k: nat)
    requires NoEmptyParts(rs) && k <= |rs|
    ensures RunFrom(c, chunkSize, chunks, rs, k, 0, NewGroup(0)) == RegionsRun(c, chunkSize, chunks, rs[k..], true)
  {
    hide RawRun, PartRun;
    if k < |rs| {
      assert rs[k..][0] == rs[k] && rs[k..][1..] == rs[k + 1..];
    }
  }

  /** Where a region's groups are used up, the next one starts. */
  lemma RunAtEnd(c: Codec, chunkSize: nat, chunks: seq<Chunk>, rs: seq<Region>, k: nat, i: nat, g: Group)
    requires NoEmptyParts(rs) && k < |rs| && ValidGroup(g) && i >= GroupsWanted(rs[k])
    ensures RunFrom(c, chunkSize, chunks, rs, k, i, g) == RunFrom(c, chunkSize, chunks, rs, k + 1, 0, NewGroup(0))
  {
    RunAtStart(c, chunkSize, chunks, rs, k + 1);
    hide ValidGroup, RegionsRun;
    var rest := RegionsRun(c, chunkSize, chunks, rs[k + 1..], true);
    assert Then(Run([], None), rest) == rest by {
      assert [] + rest.writes == rest.writes;
    }
  }

  lemma RawRunNext(c: Codec, chunkSize: nat, chunks: seq<Chunk>, rs: seq<Region>, k: nat, i: nat, g: Group)
    requires ValidGroup(g) && k < |rs| && rs[k].Raw? && i < rs[k].raw.groups
    requires RunFrom(c, chunkSize, chunks, rs, k, i, g).failure == None
    ensures var step := RawStep(c, rs[k].raw, chunkSize, chunks, i);
            && step.Ok? && rs[k].raw.group + i < |chunks|
            && RunFrom(c, chunkSize, chunks, rs, k, i, g)
            == Then(Run([step.value], None), RunFrom(c, chunkSize, chunks, rs, k, i + 1, g))
  {
    hide ValidGroup, RegionsRun, RawData;
    RawUnfolds(c, rs[k].raw, chunkSize, chunks, i);
    var rest := RegionsRun(c, chunkSize, chunks, rs[k + 1..], true);
    var step := RawStep(c, rs[k].raw, chunkSize, chunks, i);
    hide RawStep, RawRun;
    if step.Ok? {
      ThenThen(Run([step.value], None), RawRun(c, rs[k].raw, chunkSize, chunks, i + 1), rest);
    }
  }

  lemma ThenThen(a: Run, b: Run, e: Run)
    ensures Then(Then(a, b), e) == Then(a, Then(b, e))
  {
    assert a.writes + b.writes + e.writes == a.writes + (b.writes + e.writes);
  }

  lemma PartRunNext(c: Codec, chunkSize: nat, chunks: seq<Chunk>, rs: seq<Region>, k: nat, i: nat, g: Group)
    requires ValidGroup(g) && k < |rs| && rs[k].Part? && i < rs[k].data.ng
    requires RunFrom(c, chunkSize, chunks, rs, k, i, g).failure == None
    ensures var step := PartStep(c, rs[k].key, rs[k].data, chunkSize, chunks, i, g, true);
            && step.Ok? && rs[k].data.gi + i < |chunks|
            && RunFrom(c, chunkSize, chunks, rs, k, i, g)
            == Then(Run(step.value.writes, None), RunFrom(c, chunkSize, chunks, rs, k, i + 1, step.value.group))
  {
    hide ValidGroup, RegionsRun, PartContent, Flushed, WithChunk;
    var key, d := rs[k].key, rs[k].data;
    PartUnfolds(c, key, d, chunkSize, chunks, i, g, true);
    var rest := RegionsRun(c, chunkSize, chunks, rs[k + 1..], true);
    var step := PartStep(c, key, d, chunkSize, chunks, i, g, true);
    hide PartStep, PartRun;
    if step.Ok? {
      ThenThen(Run(step.value.writes, None), PartRun(c, key, d, chunkSize, chunks, i + 1, step.value.group, true),
          rest);
    }
  }

  lemma {:induction false} PartsNotEmpty(parts: seq<Partition>)
    ensures NoEmptyParts(PartRegions(parts))
  {
    if parts != [] {
      PartsNotEmpty(parts[1..]);
    }
  }

  lemma RegionsNotEmpty(t: Contents)
    ensures NoEmptyParts(RegionsOf(t))
  {
    hide PartRegions;
    var all := PartRegions(t.parts) + RawRegions(t.raws);
    PartsNotEmpty(t.parts);
    Sorting.SortedKeeps(Start, all);
    forall k | 0 <= k < |RegionsOf(t)| && RegionsOf(t)[k].Part?
      ensures RegionsOf(t)[k].data.ns > 0
    {
      assert RegionsOf(t)[k] in multiset(RegionsOf(t));
      assert RegionsOf(t)[k] in all;
    }
  }

  class PushDecoder {
    const c: Codec
    const fileSize: nat
    const delegateAes: bool
    var header: Option<Header>
    var parts: seq<Partition>
    var partReq: (nat, nat, nat)
    var rawEntries: seq<RawEntry>
    var groups: seq<GroupEntry>
    var regions: seq<Region>
    var regionIdx: nat
    var rawI: nat
    var part: PartState?
    var stage: Stage
    var request: Option<ReadRequest>
    var outputs: seq<Output>
    var lastKey: Option<Bytes>
    // All that was ever put out, whether taken or not.
    ghost var emitted: seq<Output>

    constructor (c: Codec, fileSize: nat, delegateAes: bool)
      ensures this.c == c && this.fileSize == fileSize && this.delegateAes == delegateAes
      ensures Valid() && stage == Header1 && emitted == [] && outputs == [] && part == null
      ensures request == Some(ReadRequest(0, HEADER_1_SIZE))
    {
      this.c, this.fileSize, this.delegateAes := c, fileSize, delegateAes;
      header, parts, partReq, rawEntries, groups, regions := None, [], (0, 0, 0), [], [], [];
      regionIdx, rawI, part, stage := 0, 0, null, Header1;
      request := Some(ReadRequest(0, HEADER_1_SIZE));
      outputs, lastKey, emitted := [], None, [];
    }

    /** The outputs not taken yet are the last ones put out; only a delegating decoder attaches keys. */
    ghost predicate Kept()
      reads `outputs, `emitted
    {
      && |outputs| <= |emitted| && outputs == emitted[|emitted| - |outputs|..]
      && (!delegateAes ==> Keyless(emitted))
    }

    ghost predicate PartKept()
      reads this, PartRepr(part)
    {
      part != null ==> part.buffers.Valid() && this !in part.Repr()
    }

    /** How many of the current region's groups have been dealt with. */
    ghost function Index(): nat
      reads this, part
    {
      if part == null then rawI else part.i
    }

    ghost function GroupState(): Group
      reads this, PartRepr(part)
    {
      if part == null then NewGroup(0) else part.buffers.State()
    }

    ghost predicate Loaded() reads `header, `regions {
      header.Some? && NoEmptyParts(regions)
    }

    /** Among the regions, the state of a partition is there exactly when the region is one. */
    ghost predicate InRegion()
      reads this, PartRepr(part)
    {
      && Loaded() && regionIdx < |regions|
      && match regions[regionIdx]
         case Raw(_) => part == null
         case Part(key, d) => part != null && part.Of(key, d, header.value.chunkSize)
    }

    ghost function GroupNumber(): nat
      requires regionIdx < |regions|
      reads this, part
    {
      match regions[regionIdx]
      case Raw(e) => e.group + Index()
      case Part(_, d) => d.gi + Index()
    }

    /** The request is for the next group of the current region, and there is one. */
    ghost predicate Asking()
      reads this, PartRepr(part)
    {
      && InRegion() && Index() < GroupsWanted(regions[regionIdx]) && GroupNumber() < |groups|
      && request == Some(RequestFor(groups[GroupNumber()]))
    }

    /** A request stands exactly when decoding is not done; among the regions it is for the next group. */
    ghost predicate Valid()
      reads this, PartRepr(part)
    {
      && (request == None <==> stage == Done)
      && (stage != Header1 && stage != Header2 ==> header.Some?)
      && PartKept()
      && (stage == Regions ==> Asking())
      && (stage != Regions && stage != Done ==> part == null)
      && Kept()
    }

    /** What the reading decoder would write from here on. */
    ghost function Remaining(chunks: seq<Chunk>): Run
      requires Valid() && (stage == Regions || stage == Done)
      reads this, PartRepr(part)
    {
      if stage == Done then Run([], None)
      else RunFrom(c, header.value.chunkSize, chunks, regions, regionIdx, Index(), GroupState())
    }

    /** Groups still to be fed. */
    ghost function GroupsLeft(): int
      reads this, part
    {
      if stage == Done then 0 else GroupsFrom(regions, regionIdx) - Index()
    }

    method NextRegion(ghost chunks: seq<Chunk>) returns (r: Result<()>)
      requires Loaded() && regionIdx < |regions| && Kept()
      modifies `regionIdx, `rawI, `part, `stage, `request
      ensures Loaded() && fresh(PartRepr(part)) && (r.Ok? ==> Valid() && (stage == Regions || stage == Done))
      ensures var run := RunFrom(c, header.value.chunkSize, chunks, regions, old(regionIdx) + 1, 0, NewGroup(0));
              |chunks| == |groups| && run.failure == None ==>
                && r == Ok(()) && Remaining(chunks) == run
                && GroupsLeft() == GroupsFrom(regions, old(regionIdx) + 1)
      decreases |regions| - regionIdx, 0
    {
      hide Kept;
      hide RunFrom, NoEmptyParts, ValidGroup, GroupsFrom;
      regionIdx := regionIdx + 1;
      rawI := 0;
      part := null;
      r := IssueRegionRequest(chunks);
    }

    method IssueRegionRequest(ghost chunks: seq<Chunk>) returns (r: Result<()>)
      requires Loaded() && regionIdx <= |regions| && part == null
      requires regionIdx < |regions| && regions[regionIdx].Part? ==> rawI == 0
      requires regionIdx < |regions| && regions[regionIdx].Raw? ==> rawI <= regions[regionIdx].raw.groups
      requires Kept()
      modifies `regionIdx, `rawI, `part, `stage, `request
      ensures Loaded() && fresh(PartRepr(part)) && (r.Ok? ==> Valid() && (stage == Regions || stage == Done))
      ensures var run := RunFrom(c, header.value.chunkSize, chunks, regions, old(regionIdx), old(rawI), NewGroup(0));
              |chunks| == |groups| && run.failure == None ==>
                && r == Ok(()) && Remaining(chunks) == run
                && GroupsLeft() == GroupsFrom(regions, old(regionIdx))
                   - (if old(regionIdx) < |regions| then old(rawI) else 0)
      decreases |regions| - regionIdx, 2
    {
      hide Kept;
      hide RunFrom, NoEmptyParts, ValidGroup, RawStep, PartStep, Then;
      if regionIdx >= |regions| {
        stage := Done;
        request := None;
        RunIsOver(c, header.value.chunkSize, chunks, regions, regionIdx, rawI, NewGroup(0));
        return Ok(());
      }
      match regions[regionIdx]
      case Raw(e) =>
        if rawI >= e.groups {
          RunAtEnd(c, header.value.chunkSize, chunks, regions, regionIdx, rawI, NewGroup(0));
          r := NextRegion(chunks);
          return;
        }
        ghost var run := RunFrom(c, header.value.chunkSize, chunks, regions, regionIdx, rawI, NewGroup(0));
        if run.failure == None {
          RawRunNext(c, header.value.chunkSize, chunks, regions, regionIdx, rawI, NewGroup(0));
        }
        if e.group + rawI >= |groups| {
          return Err(Panic);
        }
        var g := groups[e.group + rawI];
        request := Some(ReadRequest(g.offset4 * 4, g.size % FLAG));
        stage := Regions;
        r := Ok(());
      case Part(key, d) =>
        part := new PartState(key, d, header.value.chunkSize);
        r := IssuePartRequest(chunks);
    }

    method IssuePartRequest(ghost chunks: seq<Chunk>) returns (r: Result<()>)
      requires Loaded() && regionIdx < |regions| && regions[regionIdx].Part? && part != null
      requires part.Of(regions[regionIdx].key, regions[regionIdx].data, header.value.chunkSize) && part.buffers.Valid()
      requires part.i <= part.ng && this !in part.Repr()
      requires Kept()
      modifies `regionIdx, `rawI, `part, `stage, `request
      ensures Loaded() && (r.Ok? ==> Valid() && (stage == Regions || stage == Done))
      ensures part == old(part) || fresh(PartRepr(part))
      ensures var run :=
                old(RunFrom(c, header.value.chunkSize, chunks, regions, regionIdx, part.i, part.buffers.State()));
              |chunks| == |groups| && run.failure == None ==>
                && r == Ok(()) && Remaining(chunks) == run
                && GroupsLeft() == GroupsFrom(regions, old(regionIdx)) - old(part.i)
      decreases |regions| - regionIdx, 1
    {
      hide Kept;
      hide RunFrom, NoEmptyParts, ValidGroup, RawStep, PartStep, Then;
      if part.i >= part.ng {
        RunAtEnd(c, header.value.chunkSize, chunks, regions, regionIdx, part.i, part.buffers.State());
        r := NextRegion(chunks);
        return;
      }
      ghost var run := RunFrom(c, header.value.chunkSize, chunks, regions, regionIdx, part.i, part.buffers.State());
      if run.failure == None {
        PartRunNext(c, header.value.chunkSize, chunks, regions, regionIdx, part.i, part.buffers.State());
      }
      if part.gi + part.i >= |groups| {
        return Err(Panic);
      }
      var g := groups[part.gi + part.i];
      request := Some(ReadRequest(g.offset4 * 4, g.size % FLAG));
      stage := Regions;
      r := Ok(());
    }

    method PutOut(o: Output)
      requires Kept() && (o.key == None || delegateAes)
      modifies `outputs, `emitted
      ensures emitted == old(emitted) + [o] && outputs == old(outputs) + [o]
      ensures Kept()
    {
      outputs := outputs + [o];
      emitted := emitted + [o];
    }

    /** Whether `bytes` are what the current request asks for. */
    ghost predicate Answers(bytes: Bytes, chunks: seq<Chunk>)
      requires Valid() && stage == Regions
      reads this, PartRepr(part)
    {
      |chunks| == |groups| && chunks[GroupNumber()] == WithBytes(groups[GroupNumber()], bytes)
    }

    /** Nothing is lost on the way: what was put out and what is to come make up all. */
    ghost function AllWrites(chunks: seq<Chunk>): seq<Write>
      requires Valid() && (stage == Regions || stage == Done)
      reads this, PartRepr(part)
    {
      AllFinished(c, emitted) + Remaining(chunks).writes
    }

    /** The stretch of the disc that the current raw group holds. */
    method OpenNextRaw(bytes: Bytes, ghost chunks: seq<Chunk>) returns (r: Result<Write>)
      requires Valid() && stage == Regions && part == null
      ensures var step := RawStep(c, regions[regionIdx].raw, header.value.chunkSize, chunks, rawI);
              Answers(bytes, chunks) && step.Ok? ==> r == step
    {
      hide Kept;
      hide NoEmptyParts, ValidGroup, RawData;
      var e, chunkSize := regions[regionIdx].raw, header.value.chunkSize;
      var g := groups[e.group + rawI];
      var skipped := e.offset % BLOCK_TOTAL_SIZE;
      var groupLogicalOffset := rawI * chunkSize;
      var logicalOffset := e.offset - skipped + groupLogicalOffset;
      if e.size + skipped < groupLogicalOffset {
        return Err(Panic);
      }
      var expected := Min(chunkSize, e.size + skipped - groupLogicalOffset);
      var chunk :- OpenRaw(c, bytes, g, expected, logicalOffset);
      r := Ok(Write(logicalOffset, chunk));
    }

    method ProcessRawGroup(bytes: Bytes, ghost chunks: seq<Chunk>) returns (r: Result<()>)
      requires Valid() && stage == Regions && part == null
      modifies `regionIdx, `rawI, `part, `stage, `request, `outputs, `emitted
      ensures Loaded() && fresh(PartRepr(part)) && (r.Ok? ==> Valid() && (stage == Regions || stage == Done))
      ensures |emitted| - |outputs| == old(|emitted| - |outputs|)
      ensures old(Answers(bytes, chunks) && Remaining(chunks).failure == None) ==>
                && r == Ok(()) && Remaining(chunks).failure == None
                && GroupsLeft() == old(GroupsLeft()) - 1 && AllWrites(chunks) == old(AllWrites(chunks))
    {
      hide Kept;
      hide RunFrom, NoEmptyParts, ValidGroup, RawStep, Finished, AllFinished, GroupsFrom, Then;
      ghost var run := RunFrom(c, header.value.chunkSize, chunks, regions, regionIdx, rawI, NewGroup(0));
      ghost var asked := Answers(bytes, chunks) && run.failure == None;
      if asked {
        RawRunNext(c, header.value.chunkSize, chunks, regions, regionIdx, rawI, NewGroup(0));
      }
      var w :- OpenNextRaw(bytes, chunks);
      ghost var before, now := emitted, [Output(w.offset, w.data, None)];
      PutOut(Output(w.offset, w.data, None));
      RawFinished(c, Output(w.offset, w.data, None));
      rawI := rawI + 1;
      if asked {
        ghost var rest := RunFrom(c, header.value.chunkSize, chunks, regions, regionIdx, rawI, NewGroup(0));
        StepConserves(c, before, now, run, [w], rest);
      }
      r := IssueRegionRequest(chunks);
    }

    /** Takes the current partition group in; what it completes is returned, in plaintext when delegating. */
    method TakePartGroup(bytes: Bytes, ghost chunks: seq<Chunk>) returns (r: Result<seq<Write>>)
      requires Valid() && stage == Regions && part != null
      modifies part.Repr()
      ensures part.buffers.Valid() && (r.Ok? ==> part.i == old(part.i) + 1)
      ensures var step :=
                old(PartStep(c, regions[regionIdx].key, regions[regionIdx].data, header.value.chunkSize, chunks,
                                       part.i, part.buffers.State(), true));
              old(Answers(bytes, chunks)) && step.Ok? ==>
                && r.Ok? && part.buffers.State() == step.value.group
                && AllFinished(c, Keyed(r.value, KeyFor(part.key))) == step.value.writes
    {
      hide Kept;
      hide NoEmptyParts, ValidGroup, PartContent, Flushed, WithChunk, Finished, EncryptWrites, AllFinished;
      var g := groups[part.gi + part.i];
      var at := part.i * part.partChunkSize;
      if part.dataSize < at {
        return Err(Panic);
      }
      var expected := Min(part.partChunkSize, part.dataSize - at);
      var content :- OpenPart(c, bytes, g, expected, at);
      part.buffers.AddChunk(content);
      part.i := part.i + 1;
      ghost var added := part.buffers.State();
      r := part.buffers.Flush(c, part.key, part.discBase, part.i == part.ng, !delegateAes);
      FlushedDelegated(c, part.key, part.discBase, added, part.i == part.ng);
      ghost var plain := Flushed(c, part.key, part.discBase, added, part.i == part.ng, !delegateAes);
      if plain.Ok? {
        KeyedFinished(c, part.key, plain.value.writes, delegateAes);
      }
    }

    function KeyFor(key: Bytes): Option<Bytes> {
      if delegateAes then Some(key) else None
    }

    method PutAllOut(ws: seq<Write>, key: Option<Bytes>)
      requires Kept() && (key == None || delegateAes)
      modifies `outputs, `emitted
      ensures emitted == old(emitted) + Keyed(ws, key) && |emitted| - |outputs| == old(|emitted| - |outputs|)
      ensures Kept()
    {
      for i := 0 to |ws|
        invariant emitted == old(emitted) + Keyed(ws, key)[..i]
        invariant Kept()
        invariant |emitted| - |outputs| == old(|emitted| - |outputs|)
      {
        PutOut(Output(ws[i].offset, ws[i].data, key));
      }
    }

    method ProcessPartGroup(bytes: Bytes, ghost chunks: seq<Chunk>) returns (r: Result<()>)
      requires Valid() && stage == Regions && part != null
      modifies `regionIdx, `rawI, `part, `stage, `request, `outputs, `emitted, part.Repr()
      ensures Loaded() && (r.Ok? ==> Valid() && (stage == Regions || stage == Done))
      ensures part == old(part) || fresh(PartRepr(part))
      ensures |emitted| - |outputs| == old(|emitted| - |outputs|)
      ensures old(Answers(bytes, chunks) && Remaining(chunks).failure == None) ==>
                && r == Ok(()) && Remaining(chunks).failure == None
                && GroupsLeft() == old(GroupsLeft()) - 1 && AllWrites(chunks) == old(AllWrites(chunks))
    {
      hide Kept;
      hide RunFrom, NoEmptyParts, ValidGroup, PartStep, Finished, AllFinished, GroupsFrom, Keyed, Then;
      ghost var run := RunFrom(c, header.value.chunkSize, chunks, regions, regionIdx, part.i, part.buffers.State());
      ghost var asked := Answers(bytes, chunks) && run.failure == None;
      if asked {
        PartRunNext(c, header.value.chunkSize, chunks, regions, regionIdx, part.i, part.buffers.State());
      }
      var output :- TakePartGroup(bytes, chunks);
      ghost var before, now := emitted, Keyed(output, KeyFor(part.key));
      PutAllOut(output, KeyFor(part.key));
      if asked {
        ghost var rest := RunFrom(c, header.value.chunkSize, chunks, regions, regionIdx, part.i, part.buffers.State());
        StepConserves(c, before, now, run, AllFinished(c, now), rest);
      }
      r := IssuePartRequest(chunks);
    }

    // ---------- feeding ----------

    ghost predicate AtHeader1()
      reads `emitted, `request
    {
      emitted == [] && request == Some(ReadRequest(0, HEADER_1_SIZE))
    }

    ghost predicate AtHeader2(file: Bytes)
      reads `emitted, `request
    {
      emitted == [] && request == Some(ReadRequest(0, HeaderLength(file)))
    }

    ghost predicate AtPartTable(file: Bytes, t: Contents)
      reads `emitted, `header, `partReq, `request
    {
      && emitted == [] && header == Some(t.header) && t.header.partCount > 0
      && partReq == (InfoOf(file).0, t.header.partCount, InfoOf(file).1)
      && request == Some(ReadRequest(partReq.0, TableLength(partReq.1, partReq.2)))
    }

    ghost predicate AtRawTable(t: Contents)
      reads `emitted, `header, `parts, `request
    {
      && emitted == [] && header == Some(t.header) && parts == t.parts
      && request == Some(ReadRequest(t.header.rawOffset, t.header.rawSize))
    }

    ghost predicate AtGroupTable(t: Contents)
      reads `emitted, `header, `parts, `rawEntries, `request
    {
      && emitted == [] && header == Some(t.header) && parts == t.parts && rawEntries == t.raws
      && request == Some(ReadRequest(t.header.groupOffset, t.header.groupSize))
    }

    /** Among the regions, what was put out and what is to come make up what the reading decoder writes. */
    ghost predicate AtRegions(file: Bytes, t: Contents)
      requires Valid() && (stage == Regions || stage == Done)
      reads this, PartRepr(part)
    {
      && header == Some(t.header) && groups == t.groups && regions == RegionsOf(t)
      && Remaining(FetchAll(file, t.groups)).failure == None
      && AllWrites(FetchAll(file, t.groups)) == Decoded(c, file).writes
    }

    /** That the feeding has gone as it should for a file that decodes. */
    ghost predicate Tracks(file: Bytes)
      requires Valid()
      reads this, PartRepr(part)
    {
      && |file| == fileSize && Decodes(c, file)
      && var t := ContentsOf(c, file).value;
         match stage
         case Header1 => AtHeader1()
         case Header2 => AtHeader2(file)
         case PartTable => AtPartTable(file, t)
         case RawTable => AtRawTable(t)
         case GroupTable => AtGroupTable(t)
         case Regions => AtRegions(file, t)
         case Done => AtRegions(file, t)
    }

    /** How many feeds are still to come. */
    ghost function FeedsLeft(file: Bytes): int
      reads this, part
    {
      match stage
      case Header1 => 4 + PartFeeds(c, file) + GroupFeeds(c, file)
      case Header2 => 3 + PartFeeds(c, file) + GroupFeeds(c, file)
      case PartTable => 3 + GroupFeeds(c, file)
      case RawTable => 2 + GroupFeeds(c, file)
      case GroupTable => 1 + GroupFeeds(c, file)
      case Regions => GroupsLeft()
      case Done => 0
    }

    /** Whether `bytes` are what the file holds where the request points. */
    ghost predicate Asks(file: Bytes, bytes: Bytes)
      reads `request
    {
      request.Some? && bytes == ReadAt(file, request.value.offset, request.value.len)
    }

    method FeedHeader1(bytes: Bytes, ghost file: Bytes) returns (r: Result<()>)
      requires Valid() && stage == Header1
      modifies `request, `stage
      ensures r.Ok? ==> Valid()
      ensures old(Tracks(file) && Asks(file, bytes)) ==>
                r == Ok(()) && Tracks(file) && FeedsLeft(file) == old(FeedsLeft(file)) - 1
    {
      hide Kept, ValidGroup, AllFinished, Remaining, AllWrites;
      hide Asking;
      hide RegionsOf, GroupFeeds, ReadAt, TableLength, Get32, AtPartTable, AtRawTable, AtGroupTable, AtRegions;
      FirstHeader(c, file);
      hide ContentsOf, Decodes;
      if !HasMagic(bytes) {
        return Err(NotRvz);
      }
      var header2Size := Get32(bytes, 0x0c);
      if header2Size < HEADER_2_SIZE || fileSize < HEADER_1_SIZE + header2Size {
        return Err(BadHeader);
      }
      request := Some(ReadRequest(0, HEADER_1_SIZE + header2Size));
      stage := Header2;
      r := Ok(());
    }

    method FeedHeader2(bytes: Bytes, ghost file: Bytes) returns (r: Result<()>)
      requires Valid() && stage == Header2
      modifies `request, `stage, `header, `partReq, `parts
      ensures r.Ok? ==> Valid()
      ensures old(Tracks(file) && Asks(file, bytes)) ==>
                r == Ok(()) && Tracks(file) && FeedsLeft(file) == old(FeedsLeft(file)) - 1
    {
      hide Kept, ValidGroup, AllFinished, Remaining, AllWrites;
      hide Asking;
      hide RegionsOf, GroupFeeds, ReadAt, TableLength, ContentsOf, PartTableInfo;
      hide HeaderLength, AtHeader1, AtGroupTable, AtRegions, InfoOf;
      ContentsParts(c, file);
      ParsedLong(bytes, fileSize);
      hide ParseHeaderMin, Decodes;
      var parsed :- ParseHeaderMin(bytes, fileSize);
      if parsed.compression != ZSTD {
        return Err(UnsupportedCompression);
      }
      var (partOffset, partEntrySize) := PartTableInfo(bytes);
      partReq := (partOffset, parsed.partCount, partEntrySize);
      header, parts := Some(parsed), [];
      if parsed.partCount > 0 {
        request := Some(ReadRequest(partOffset, TableLength(parsed.partCount, partEntrySize)));
        stage := PartTable;
      } else {
        request := Some(ReadRequest(parsed.rawOffset, parsed.rawSize));
        stage := RawTable;
      }
      r := Ok(());
    }

    method FeedPartTable(bytes: Bytes, ghost file: Bytes) returns (r: Result<()>)
      requires Valid() && stage == PartTable
      modifies `request, `stage, `parts
      ensures r.Ok? ==> Valid()
      ensures old(Tracks(file) && Asks(file, bytes)) ==>
                r == Ok(()) && Tracks(file) && FeedsLeft(file) == old(FeedsLeft(file)) - 1
    {
      hide Kept, ValidGroup, AllFinished, Remaining, AllWrites;
      hide Asking;
      hide RegionsOf, GroupFeeds, ReadAt, TableLength, ContentsOf, InfoOf;
      hide PartitionsOf, AtHeader1, AtHeader2, AtGroupTable, AtRegions;
      hide RawsRead, GroupsRead;
      TablesRead(c, file);
      hide Decodes;
      parts :- ParseParts(bytes, partReq.1, partReq.2);
      request := Some(ReadRequest(header.value.rawOffset, header.value.rawSize));
      stage := RawTable;
      r := Ok(());
    }

    method FeedRawTable(bytes: Bytes, ghost file: Bytes) returns (r: Result<()>)
      requires Valid() && stage == RawTable
      modifies `request, `stage, `rawEntries
      ensures r.Ok? ==> Valid()
      ensures old(Tracks(file) && Asks(file, bytes)) ==>
                r == Ok(()) && Tracks(file) && FeedsLeft(file) == old(FeedsLeft(file)) - 1
    {
      hide Kept, ValidGroup, AllFinished, Remaining, AllWrites;
      hide Asking;
      hide RegionsOf, GroupFeeds, ReadAt, TableLength, ContentsOf, TableBytes;
      hide RawEntriesOf, GroupEntriesOf, AtHeader1, AtHeader2, AtPartTable;
      hide AtRegions, PartsRead, GroupsRead;
      TablesRead(c, file);
      hide Decodes;
      var count := header.value.rawCount;
      var table :- TableBytes(c, bytes, count * RAW_ENTRY_SIZE);
      rawEntries := ReadRawEntries(table, count);
      request := Some(ReadRequest(header.value.groupOffset, header.value.groupSize));
      stage := GroupTable;
      r := Ok(());
    }

    method LoadGroups(bytes: Bytes, ghost file: Bytes) returns (r: Result<()>)
      requires Valid() && stage == GroupTable
      modifies `groups, `regions, `regionIdx, `rawI, `part
      ensures part == null && (r.Ok? ==> Loaded() && regionIdx == rawI == 0)
      ensures old(Tracks(file) && Asks(file, bytes)) ==>
                var t := ContentsOf(c, file).value;
                && r == Ok(()) && groups == t.groups && regions == RegionsOf(t)
    {
      hide Kept, ValidGroup, AllFinished, Remaining, AllWrites;
      hide Asking;
      hide ReadAt, ContentsOf, TableBytes, RawEntriesOf, GroupEntriesOf, PartRegions, RawRegions, NoEmptyParts;
      hide AtHeader1, AtHeader2, AtPartTable, AtRawTable, AtRegions, PartsRead, RawsRead;
      TablesRead(c, file);
      hide Decodes;
      var count := header.value.groupCount;
      var table :- TableBytes(c, bytes, count * GROUP_ENTRY_SIZE);
      groups := ReadGroupEntries(table, count);
      regions := BuildRegions(parts, rawEntries);
      BuiltNotEmpty(parts, rawEntries);
      regionIdx, rawI, part := 0, 0, null;
      r := Ok(());
    }

    method FeedGroupTable(bytes: Bytes, ghost file: Bytes) returns (r: Result<()>)
      requires Valid() && stage == GroupTable
      modifies `request, `stage, `groups, `regions, `regionIdx, `rawI, `part
      ensures fresh(PartRepr(part)) && (r.Ok? ==> Valid())
      ensures old(Tracks(file) && Asks(file, bytes)) ==>
                r == Ok(()) && Tracks(file) && FeedsLeft(file) == old(FeedsLeft(file)) - 1
    {
      hide PartKept, InRegion, Index, GroupState, GroupNumber, RegionsRun;
      hide Kept, ValidGroup, AllFinished, Remaining;
      hide Asking;
      hide ReadAt, ContentsOf, RegionsOf, RunFrom, NoEmptyParts, GroupsFrom, FetchAll, AllFinished;
      hide AtHeader1, AtHeader2, AtPartTable, AtRawTable;
      ghost var tracked := Tracks(file) && Asks(file, bytes);
      var _ :- LoadGroups(bytes, file);
      ghost var chunks := FetchAll(file, groups);
      if tracked {
        DecodedFromStart(c, file);
      }
      r := IssueRegionRequest(chunks);
      if tracked {
        NoneFinished(c, Remaining(chunks).writes);
      }
    }

    method FeedRegion(bytes: Bytes, ghost file: Bytes) returns (r: Result<()>)
      requires Valid() && stage == Regions
      modifies `regionIdx, `rawI, `part, `stage, `request, `outputs, `emitted, PartRepr(part)
      ensures r.Ok? ==> Valid()
      ensures part == old(part) || fresh(PartRepr(part))
      ensures |emitted| - |outputs| == old(|emitted| - |outputs|)
      ensures old(Tracks(file) && Asks(file, bytes)) ==>
                r == Ok(()) && Tracks(file) && FeedsLeft(file) == old(FeedsLeft(file)) - 1
    {
      hide Kept, ValidGroup, AllFinished, Remaining, AllWrites;
      hide Decodes, ReadAt, ContentsOf, RegionsOf, Remaining, AllWrites, GroupsFrom, AtHeader1, AtHeader2, AtPartTable;
      hide AtRawTable, AtGroupTable, NoEmptyParts, ValidGroup;
      ghost var chunks := FetchAll(file, groups);
      FetchIs(file, groups[GroupNumber()]);
      if part != null {
        r := ProcessPartGroup(bytes, chunks);
      } else {
        r := ProcessRawGroup(bytes, chunks);
      }
    }

    /** Takes the bytes asked for last. */
    method Feed(bytes: Bytes, ghost file: Bytes) returns (r: Result<()>)
      requires Valid()
      modifies this, PartRepr(part)
      ensures r.Ok? ==> Valid()
      ensures part == old(part) || fresh(PartRepr(part))
      ensures |emitted| - |outputs| == old(|emitted| - |outputs|)
      ensures old(Tracks(file) && Asks(file, bytes)) ==>
                r == Ok(()) && Tracks(file) && FeedsLeft(file) == old(FeedsLeft(file)) - 1
    {
      hide Kept, ValidGroup, AllFinished, Remaining, AllWrites;
      hide Asking;
      hide Decodes, ReadAt, ContentsOf, RegionsOf, AtHeader1;
      hide AtHeader2, AtPartTable, AtRawTable, AtGroupTable, GroupsFrom;
      match stage
      case Header1 => r := FeedHeader1(bytes, file);
      case Header2 => r := FeedHeader2(bytes, file);
      case PartTable => r := FeedPartTable(bytes, file);
      case RawTable => r := FeedRawTable(bytes, file);
      case GroupTable => r := FeedGroupTable(bytes, file);
      case Regions => r := FeedRegion(bytes, file);
      case Done => r := Ok(());
    }

    lemma DoneWrites(file: Bytes)
      requires Valid() && Tracks(file) && stage == Done
      ensures AllFinished(c, emitted) == Decoded(c, file).writes
    {
      hide ContentsOf, Decodes, RegionsOf, RunFrom, AllFinished, Decoded, FetchAll;
      assert AllFinished(c, emitted) + [] == AllFinished(c, emitted);
    }

    lemma FeedsLeftPositive(file: Bytes)
      requires Valid() && Tracks(file) && stage != Done
      ensures FeedsLeft(file) > 0
    {
      hide ContentsOf, Decodes, RegionsOf, RunFrom;
    }

    /** Hands out what was put out first and not taken yet. */
    method TakeOutput() returns (o: Option<Output>)
      requires Valid()
      modifies `outputs, `lastKey
      ensures Valid()
      ensures old(outputs) == [] ==> o == None && outputs == []
      ensures old(outputs) != [] ==> o == Some(old(outputs)[0]) && outputs == old(outputs)[1..]
      ensures lastKey == if o.Some? then o.value.key else None
    {
      if outputs == [] {
        o := None;
        lastKey := None;
      } else {
        o := Some(outputs[0]);
        outputs := outputs[1..];
        lastKey := o.value.key;
      }
    }
  }

  lemma BuiltNotEmpty(parts: seq<Partition>, raws: seq<RawEntry>)
    ensures NoEmptyParts(Sorting.Sorted(Start, PartRegions(parts) + RawRegions(raws)))
  {
    var t := Contents(Header(0, 0, 0, 0, 0, 0, 0, 0, 0, 0, []), parts, raws, []);
    RegionsNotEmpty(t);
  }

  lemma DecodedFromStart(c: Codec, file: Bytes)
    requires ContentsOf(c, file).Ok?
    ensures var t := ContentsOf(c, file).value;
            RunFrom(c, t.header.chunkSize, FetchAll(file, t.groups), RegionsOf(t), 0, 0, NewGroup(0))
                == Decoded(c, file)
  {
    hide ContentsOf, RegionsRun, RunFrom, RegionsOf, FetchAll;
    var t := ContentsOf(c, file).value;
    RegionsNotEmpty(t);
    RunAtStart(c, t.header.chunkSize, FetchAll(file, t.groups), RegionsOf(t), 0);
    assert RegionsOf(t)[0..] == RegionsOf(t);
  }

  lemma NoneFinished(c: Codec, ws: seq<Write>)
    ensures AllFinished(c, []) + ws == ws
  {}

  /** Takes all the outputs there are. */
  method Drain(decoder: PushDecoder) returns (taken: seq<Output>)
    requires decoder.Valid() && |decoder.outputs| == |decoder.emitted|
    modifies decoder
    ensures taken == old(decoder.emitted) && (!decoder.delegateAes ==> Keyless(taken))
  {
    hide PushDecoder.Asking, PushDecoder.PartKept, ValidGroup;
    ghost var all := decoder.emitted;
    taken := [];
    while decoder.outputs != []
      invariant decoder.Valid() && taken + decoder.outputs == all
      decreases |decoder.outputs|
    {
      var o := decoder.TakeOutput();
      taken := taken + [o.value];
    }
  }

  /**
   Feeds a decoder what it asks for until it is done. For a file that decodes, what comes out,
   with the blocks encrypted that were left to the caller, is what the reading decoder writes, in
   the same order; the feeds are four or five for the tables and one for each group.
   */
  method Drive(c: Codec, file: Bytes, delegateAes: bool) returns (outputs: seq<Output>, feeds: nat)
    requires Decoded(c, file).failure == None
    ensures AllFinished(c, outputs) == Decoded(c, file).writes
    ensures !delegateAes ==> Keyless(outputs)
    ensures feeds == 4 + PartFeeds(c, file) + GroupFeeds(c, file)
  {
    hide PushDecoder.Kept, PushDecoder.PartKept;
    hide ValidGroup;
    hide PushDecoder.Asking, PushDecoder.AtRegions;
    assert Decodes(c, file);
    hide ContentsOf, RegionsOf, GroupsFrom, AllFinished, Decodes, Decoded, FetchAll, ReadAt;
    DecodesContents(c, file);
    var decoder := new PushDecoder(c, |file|, delegateAes);
    feeds := 0;
    assert decoder.Tracks(file);
    ghost var total := decoder.FeedsLeft(file);
    while decoder.stage != Done
      invariant decoder.Valid() && fresh(decoder) && fresh(PartRepr(decoder.part))
      invariant decoder.c == c && decoder.delegateAes == delegateAes
      invariant decoder.Tracks(file) && feeds + decoder.FeedsLeft(file) == total
      invariant |decoder.outputs| == |decoder.emitted|
      decreases decoder.FeedsLeft(file)
    {
      decoder.FeedsLeftPositive(file);
      var request := decoder.request.value;
      var fed := decoder.Feed(ReadAt(file, request.offset, request.len), file);
      feeds := feeds + 1;
    }
    ghost var all := decoder.emitted;
    assert AllFinished(c, all) == Decoded(c, file).writes by {
      decoder.DoneWrites(file);
    }
    outputs := Drain(decoder);
  }

  /** A partition table is fed only where there are partitions. */
  function PartFeeds(c: Codec, file: Bytes): nat {
    var t := ContentsOf(c, file);
    if t.Ok? && t.value.header.partCount > 0 then 1 else 0
  }

  function GroupFeeds(c: Codec, file: Bytes): nat {
    var t := ContentsOf(c, file);
    if t.Ok? then GroupsFrom(RegionsOf(t.value), 0) else 0
  }

  ghost predicate Decodes(c: Codec, file: Bytes) {
    Decoded(c, file).failure == None && ContentsOf(c, file).Ok?
  }

  /** Where the partition table of a container is, and how long its entries are. */
  function InfoOf(file: Bytes): (nat, nat) {
    var bytes := HeaderBytesOf(file);
    if bytes.Ok? && |bytes.value| >= HEADER_1_SIZE + 0xd4 then PartTableInfo(bytes.value) else (0, 0)
  }

  function HeaderLength(file: Bytes): nat {
    var first := ReadAt(file, 0, HEADER_1_SIZE);
    if |first| < HEADER_1_SIZE then 0 else HEADER_1_SIZE + Get32(first, 0x0c)
  }

  lemma ParsedLong(bytes: Bytes, fileSize: nat)
    ensures ParseHeaderMin(bytes, fileSize).Ok? ==> |bytes| >= HEADER_1_SIZE + 0xd4
  {
    hide HasMagic, SecondHeaderFits, Get32, Get64, HeaderAt;
  }

  /** What reading a container comes down to, step by step. */
  lemma ContentsParts(c: Codec, file: Bytes)
    ensures match ContentsOf(c, file)
            case Err(_) => !Decodes(c, file)
            case Ok(t) =>
              var bytes := ReadAt(file, 0, HeaderLength(file));
              && HeaderBytesOf(file) == Ok(bytes) && ParseHeaderMin(bytes, |file|) == Ok(t.header)
              && |bytes| >= HEADER_1_SIZE + 0xd4 && PartTableInfo(bytes) == InfoOf(file) && t.header.compression == ZSTD
              && (t.header.partCount == 0 ==> t.parts == [])
  {
    hide HasMagic, SecondHeaderFits, Get32, Get64, HeaderAt, PartitionsOf, TableBytes, RawEntriesOf, GroupEntriesOf;
  }

  predicate PartsRead(file: Bytes, t: Contents) {
    var info := InfoOf(file);
    PartitionsOf(ReadAt(file, info.0, TableLength(t.header.partCount, info.1)), t.header.partCount, info.1)
        == Ok(t.parts)
  }

  predicate RawsRead(c: Codec, file: Bytes, t: Contents) {
    var raws := TableBytes(c, ReadAt(file, t.header.rawOffset, t.header.rawSize), t.header.rawCount * RAW_ENTRY_SIZE);
    raws.Ok? && RawEntriesOf(raws.value, t.header.rawCount) == t.raws
  }

  predicate GroupsRead(c: Codec, file: Bytes, t: Contents) {
    var groups :=
        TableBytes(c, ReadAt(file, t.header.groupOffset, t.header.groupSize), t.header.groupCount * GROUP_ENTRY_SIZE);
    groups.Ok? && GroupEntriesOf(groups.value, t.header.groupCount) == t.groups
  }

  lemma TablesRead(c: Codec, file: Bytes)
    ensures match ContentsOf(c, file)
            case Err(_) => !Decodes(c, file)
            case Ok(t) =>
              (t.header.partCount > 0 ==> PartsRead(file, t)) && RawsRead(c, file, t) && GroupsRead(c, file, t)
  {
    ContentsParts(c, file);
    hide HeaderBytesOf, ParseHeaderMin, PartTableInfo, PartitionsOf, TableBytes;
    hide RawEntriesOf, GroupEntriesOf, ReadAt, HeaderLength;
    hide InfoOf;
  }

  lemma DecodesContents(c: Codec, file: Bytes)
    requires Decodes(c, file)
    ensures ContentsOf(c, file).Ok?
  {
    hide ContentsOf;
  }

  /** A container that reads has a first header that says how long the second is. */
  lemma FirstHeader(c: Codec, file: Bytes)
    ensures var first := ReadAt(file, 0, HEADER_1_SIZE);
            Decodes(c, file) ==> ContentsOf(c, file).Ok? && HasMagic(first) && SecondHeaderFits(first, |file|)
  {
    hide HasMagic, SecondHeaderFits, ParseHeaderMin, PartitionsIn, TableBytes, RawEntriesOf, GroupEntriesOf, ReadAt;
  }

  function Keyed(ws: seq<Write>, key: Option<Bytes>): (os: seq<Output>)
    ensures |os| == |ws|
  {
    seq(|ws|, i requires 0 <= i < |ws| => Output(ws[i].offset, ws[i].data, key))
  }

  lemma KeyedFinished(c: Codec, key: Bytes, ws: seq<Write>, delegate: bool)
    requires delegate ==> forall i | 0 <= i < |ws| :: |ws[i].data| % BLOCK_TOTAL_SIZE == 0
    ensures AllFinished(c, Keyed(ws, if delegate then Some(key) else None))
         == if delegate then EncryptWrites(c, key, ws) else ws
  {
    hide EncryptBlocks;
  }

  lemma RawFinished(c: Codec, o: Output)
    requires o.key == None
    ensures AllFinished(c, [o]) == [Write(o.offset, o.data)]
  {}

  /** What a step puts out is what it takes off what is left to do. */
  lemma StepConserves(c: Codec, before: seq<Output>, now: seq<Output>, run: Run, ws: seq<Write>, rest: Run)
    requires run == Then(Run(ws, None), rest) && AllFinished(c, now) == ws && run.failure == None
    ensures rest.failure == None
    ensures AllFinished(c, before + now) + rest.writes == AllFinished(c, before) + run.writes
  {
    hide AllFinished;
    FinishedJoin(c, before, now);
    assert AllFinished(c, before) + (ws + rest.writes) == AllFinished(c, before) + ws + rest.writes;
  }

  lemma RunIsOver(c: Codec, chunkSize: nat, chunks: seq<Chunk>, rs: seq<Region>, k: nat, i: nat, g: Group)
    requires ValidGroup(g) && k >= |rs|
    ensures RunFrom(c, chunkSize, chunks, rs, k, i, g) == Run([], None)
  {}
}
