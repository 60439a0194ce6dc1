/** What the scan takes for padding is regenerated, how large packed chunks get, and how small pure padding packs. */
module PackRoundTrip {
  import opened Words
  import opened Sizes
  import opened BigEndian
  import opened PaddingStream
  import opened Generator
  import opened Detection
  import opened Unpacking
  import opened Packing
  import opened Results

  /** A window start at which detection and expansion count generator periods alike. */
  predicate PhaseAgrees(dataOffset: nat, q: nat) {
    InWindow(dataOffset + q) % PERIOD_BYTES <= 2080
  }

  predicate PhasesAgree(dataOffset: nat, starts: seq<nat>) {
    forall q | q in starts :: PhaseAgrees(dataOffset, q)
  }

  /** A stretch that its recorded seed regenerates where it stands. */
  ghost predicate Regenerates(data: seq<Byte>, dataOffset: nat, j: Junk) {
    && j.start < j.end <= |data|
    && InWindow(dataOffset + j.start) + (j.end - j.start) <= BLOCK_TOTAL_SIZE
    && data[j.start..j.end] == PadBytes(Swapped(j.seed), InWindow(dataOffset + j.start), j.end - j.start)
  }

  /** Starting on a word boundary of the disc is enough for the phases to agree. */
  lemma AlignedStart(dataOffset: nat, q: nat)
    requires (dataOffset + q) % 4 == 0
    ensures PhaseAgrees(dataOffset, q)
  {
    WordInWindow(dataOffset + q);
    PhaseOfWord(InWindow(dataOffset + q));
    hide InWindow;
  }

  lemma WordInWindow(x: nat)
    requires x % 4 == 0
    ensures InWindow(x) % 4 == 0
  {
    assert InWindow(x) == 4 * (x / 4 - 0x2000 * (x / BLOCK_TOTAL_SIZE));
  }

  lemma PhaseOfWord(w: nat)
    requires w % 4 == 0
    ensures w % PERIOD_BYTES <= 2080
  {
    var n := w / PERIOD_BYTES;
    assert w % PERIOD_BYTES == 4 * (w / 4 - 521 * n);
  }

  /** Soundness of detection: what it counts as padding is regenerated from the seed it returns. */
  lemma JunkRegenerates(data: seq<Byte>, dataOffset: nat, q: nat, n: nat)
    requires q + n <= |data| && InWindow(dataOffset + q) + n <= BLOCK_TOTAL_SIZE && PhaseAgrees(dataOffset, q)
    ensures forall j | j in JunkIn(data, dataOffset, q, n) :: Regenerates(data, dataOffset, j)
  {
    hide Detect, MatchFrom, ByteAt, Origin, Swapped;
    PhaseExact(InWindow(dataOffset + q));
    forall j | j in JunkIn(data, dataOffset, q, n)
      ensures Regenerates(data, dataOffset, j)
    {
      var window, d := data[q..q + n], InWindow(dataOffset + q);
      var count := MatchLength(window, Swapped(j.seed), d);
      assert j == Junk(q, q + count, j.seed);
      forall i | 0 <= i < count
        ensures data[q..q + count][i] == PadBytes(Swapped(j.seed), d, count)[i]
      {
        assert window[i] == PadByte(Swapped(j.seed), d + i);
      }
    }
  }

  lemma {:induction false} ScanRegenerates(data: seq<Byte>, dataOffset: nat, p: nat)
    requires p <= |data| && PhasesAgree(dataOffset, WindowStarts(data, dataOffset, p))
    ensures forall j | j in Scan(data, dataOffset, p) :: Regenerates(data, dataOffset, j)
    decreases |data| - p
  {
    hide JunkIn, Regenerates, AfterZeroes, WindowLength, PhaseAgrees;
    if p < |data| {
      var q := AfterZeroes(data, p);
      var n := WindowLength(data, dataOffset, q);
      var starts := WindowStarts(data, dataOffset, p);
      assert starts[0] == q && starts[1..] == WindowStarts(data, dataOffset, q + n);
      JunkRegenerates(data, dataOffset, q, n);
      ScanRegenerates(data, dataOffset, q + n);
    }
  }

  lemma ExpandedOne(r: Record, offset: nat)
    ensures Expanded([r], offset) == ExpandedRecord(r, offset)
    ensures r.Literal? ==> Expanded([r], offset) == r.bytes
  {
    assert [r][1..] == [];
  }

  lemma {:induction false} ExpandedJoin(a: seq<Record>, b: seq<Record>, offset: nat)
    ensures Expanded(a + b, offset) == Expanded(a, offset) + Expanded(b, offset + |Expanded(a, offset)|)
    decreases |a|
  {
    hide ExpandedRecord;
    if a == [] {
      assert a + b == b;
    } else {
      assert (a + b)[1..] == a[1..] + b;
      ExpandedJoin(a[1..], b, offset + Length(a[0]));
    }
  }

  lemma {:induction false} SerializedJoin(a: seq<Record>, b: seq<Record>)
    requires AllRecordable(a) && AllRecordable(b)
    ensures AllRecordable(a + b) && Serialized(a + b) == Serialized(a) + Serialized(b)
    decreases |a|
  {
    hide SerializedRecord;
    if a == [] {
      assert a + b == b;
    } else {
      assert (a + b)[1..] == a[1..] + b;
      SerializedJoin(a[1..], b);
    }
  }

  lemma {:induction false} ExpandedLength(rs: seq<Record>, a: nat, b: nat)
    ensures |Expanded(rs, a)| == |Expanded(rs, b)|
  {
    if rs != [] {
      ExpandedLength(rs[1..], a + Length(rs[0]), b + Length(rs[0]));
    }
  }

  /** The records of a plan cover the chunk to its end, each byte once. */
  lemma {:induction false} PlanLength(data: seq<Byte>, junk: seq<Junk>, current: nat)
    requires current <= |data| && Proper(junk)
    ensures |Expanded(Plan(data, junk, current), 0)| == |data| - current
    decreases |data| - current
  {
    hide PlanStep, PlanNext, Plan, ExpandedRecord;
    if current == |data| {
      PlanEnds(data, junk);
    } else {
      var next := PlanNext(data, junk, current);
      PlanLength(data, junk, next);
      PlanUnfold(data, junk, current);
      StepLength(data, junk, current);
      var step, rest := PlanStep(data, junk, current), Plan(data, junk, next);
      ExpandedJoin(step, rest, 0);
      ExpandedLength(rest, 0, |Expanded(step, 0)|);
    }
  }

  lemma StepLength(data: seq<Byte>, junk: seq<Junk>, current: nat)
    requires current < |data| && Proper(junk)
    ensures |Expanded(PlanStep(data, junk, current), 0)| == PlanNext(data, junk, current) - current
  {
    hide Pick, ExpandedRecord;
    var picked := Pick(junk, current, |data|);
    if picked.Some? {
      PickedFits(junk, current, |data|);
      var start, end := Max(current, picked.value.start), Min(|data|, picked.value.end);
      var padding := Padding(end - start, picked.value.seed);
      ExpandedOne(padding, 0);
      ExpandedOne(padding, start - current);
      if start > current {
        var literal := Literal(data[current..start]);
        ExpandedOne(literal, 0);
        ExpandedJoin([literal], [padding], 0);
        assert [literal] + [padding] == PlanStep(data, junk, current);
      } else {
        assert [] + [padding] == [padding];
      }
    } else {
      ExpandedOne(Literal(data[current..]), 0);
    }
  }

  /** The records of a step take few bytes more than what they stand for; padding uses up more than a seed's length. */
  lemma StepSize(data: seq<Byte>, junk: seq<Junk>, current: nat)
    requires current < |data| && Proper(junk)
    ensures AllRecordable(PlanStep(data, junk, current))
    ensures var used, size := PlanNext(data, junk, current) - current, |Serialized(PlanStep(data, junk, current))|;
            && 0 < size
            && if Pick(junk, current, |data|).Some? then used > LFG_SEED_BYTES && size <= used + 75
               else size == used + 4
  {
    hide Pick, Be32, EncodedSeed;
    var picked := Pick(junk, current, |data|);
    if picked.None? {
      SizeOfOne(Literal(data[current..]));
    } else {
      PickedFits(junk, current, |data|);
      var start, end := Max(current, picked.value.start), Min(|data|, picked.value.end);
      var padding := Padding(end - start, picked.value.seed);
      SizeOfOne(padding);
      if start > current {
        var literal := Literal(data[current..start]);
        SizeOfOne(literal);
        SerializedJoin([literal], [padding]);
      } else {
        assert [] + [padding] == [padding];
      }
    }
  }

  lemma SizeOfOne(r: Record)
    requires Recordable(r)
    ensures AllRecordable([r])
    ensures |Serialized([r])| == if r.Literal? then 4 + |r.bytes| else 4 + LFG_SEED_BYTES
  {
    assert [r][1..] == [];
    assert Serialized([r]) == SerializedRecord(r) + [];
  }

  /** The bytes that packing adds, at worst: 75 for each padding record, and a last literal's length. */
  function Growth(n: nat): nat {
    75 * (n / (LFG_SEED_BYTES + 1)) + 4
  }

  lemma {:induction false} PlanSize(data: seq<Byte>, junk: seq<Junk>, current: nat)
    requires current <= |data| && Proper(junk)
    ensures AllRecordable(Plan(data, junk, current))
    ensures |Serialized(Plan(data, junk, current))| <= |data| - current + Growth(|data| - current)
    ensures current < |data| ==> |Serialized(Plan(data, junk, current))| > 0
    decreases |data| - current
  {
    hide PlanStep, PlanNext, Plan, Serialized, Pick;
    PlanRecordable(data, junk, current);
    if current == |data| {
      PlanEnds(data, junk);
    } else {
      var next := PlanNext(data, junk, current);
      StepSize(data, junk, current);
      PlanUnfold(data, junk, current);
      PlanSize(data, junk, next);
      SerializedJoin(PlanStep(data, junk, current), Plan(data, junk, next));
      if Pick(junk, current, |data|).None? {
        LastStep(data, junk, current);
      } else {
        GrowthOn(next - current, |data| - next);
      }
    }
  }

  lemma LastStep(data: seq<Byte>, junk: seq<Junk>, current: nat)
    requires current < |data| && Proper(junk) && Pick(junk, current, |data|).None?
    ensures PlanNext(data, junk, current) == |data| && Plan(data, junk, |data|) == [] && Serialized([]) == []
  {
    hide Pick;
  }

  lemma GrowthOn(used: nat, rest: nat)
    requires used > LFG_SEED_BYTES
    ensures 75 + Growth(rest) <= Growth(used + rest)
  {
    assert (used + rest) / 69 >= (rest + 69) / 69 == rest / 69 + 1;
  }

  /** Packing never leaves nothing, and hardly more than doubles a chunk at worst. */
  lemma PackedSize(data: seq<Byte>, dataOffset: nat)
    requires 0 < |data|
    ensures var p := PackedChunk(data, dataOffset);
            0 < |p.mainData| <= |data| + Growth(|data|) && p.packedSize <= |p.mainData|
  {
    hide Plan, Scan, Serialized, Pick;
    ScanOrdered(data, dataOffset, 0);
    PlanSize(data, Scan(data, dataOffset, 0), 0);
  }

  // ---------- pure padding ----------

  /** Chunk `data` is one full window of padding after another, each starting with a nonzero byte. */
  ghost predicate PurePadding(data: seq<Byte>, seeds: seq<Seed>) {
    && |data| == |seeds| * BLOCK_TOTAL_SIZE
    && forall k | 0 <= k < |seeds| ::
         && data[k * BLOCK_TOTAL_SIZE..(k + 1) * BLOCK_TOTAL_SIZE] == PadBytes(seeds[k], 0, BLOCK_TOTAL_SIZE)
         && PadByte(seeds[k], 0) != 0
  }

  /** The stretch and the record of one full window of padding. */
  function WindowJunk(seeds: seq<Seed>, k: nat): Junk
    requires k < |seeds|
  {
    Junk(k * BLOCK_TOTAL_SIZE, (k + 1) * BLOCK_TOTAL_SIZE, Swapped(Canonical(seeds[k])))
  }

  function JunkFrom(seeds: seq<Seed>, k: nat): seq<Junk>
    requires k <= |seeds|
  {
    seq(|seeds| - k, i requires 0 <= i < |seeds| - k => WindowJunk(seeds, k + i))
  }

  function WindowRecord(seed: Seed): Record {
    Padding(BLOCK_TOTAL_SIZE, Swapped(Canonical(seed)))
  }

  function WindowRecords(seeds: seq<Seed>): seq<Record> {
    seq(|seeds|, i requires 0 <= i < |seeds| => WindowRecord(seeds[i]))
  }

  lemma WholeWindowIsJunk(data: seq<Byte>, dataOffset: nat, seeds: seq<Seed>, k: nat)
    requires PurePadding(data, seeds) && dataOffset % BLOCK_TOTAL_SIZE == 0 && k < |seeds|
    ensures var q := k * BLOCK_TOTAL_SIZE;
            && q + BLOCK_TOTAL_SIZE == (k + 1) * BLOCK_TOTAL_SIZE <= |data|
            && AfterZeroes(data, q) == q && WindowLength(data, dataOffset, q) == BLOCK_TOTAL_SIZE
            && JunkIn(data, dataOffset, q, BLOCK_TOTAL_SIZE) == [WindowJunk(seeds, k)]
  {
    hide JunkIn, ByteAt, Origin, Canonical, Swapped;
    var q := k * BLOCK_TOTAL_SIZE;
    assert (k + 1) * BLOCK_TOTAL_SIZE <= |seeds| * BLOCK_TOTAL_SIZE;
    var window := data[q..q + BLOCK_TOTAL_SIZE];
    assert data[q] == window[0] == PadBytes(seeds[k], 0, BLOCK_TOTAL_SIZE)[0];
    assert InWindow(dataOffset + q) == 0;
    PaddingIsJunk(data, dataOffset, q, seeds[k]);
    assert WindowJunk(seeds, k) == Junk(q, q + BLOCK_TOTAL_SIZE, Swapped(Canonical(seeds[k])));
  }

  lemma PaddingIsJunk(data: seq<Byte>, dataOffset: nat, q: nat, seed: Seed)
    requires q + BLOCK_TOTAL_SIZE <= |data| && InWindow(dataOffset + q) == 0
    requires data[q..q + BLOCK_TOTAL_SIZE] == PadBytes(seed, 0, BLOCK_TOTAL_SIZE)
    ensures JunkIn(data, dataOffset, q, BLOCK_TOTAL_SIZE) == [Junk(q, q + BLOCK_TOTAL_SIZE, Swapped(Canonical(seed)))]
  {
    hide Detect, MatchFrom, Canonical, ByteAt, Origin, PadBytes, Swapped, Phase;
    DetectPadding(seed, 0, BLOCK_TOTAL_SIZE);
    WholeWindowMatched(seed, 0, BLOCK_TOTAL_SIZE);
    SwappedTwice(Canonical(seed));
  }

  lemma {:induction false} ScanPure(data: seq<Byte>, dataOffset: nat, seeds: seq<Seed>, k: nat)
    requires PurePadding(data, seeds) && dataOffset % BLOCK_TOTAL_SIZE == 0 && k <= |seeds|
    requires k * BLOCK_TOTAL_SIZE <= |data|
    ensures Scan(data, dataOffset, k * BLOCK_TOTAL_SIZE) == JunkFrom(seeds, k)
    decreases |seeds| - k
  {
    hide PurePadding, JunkIn, AfterZeroes, WindowLength, WindowJunk, Scan;
    if k == |seeds| {
      assert |data| == k * BLOCK_TOTAL_SIZE by {
        PureLength(data, seeds);
      }
      ScanEnd(data, dataOffset);
    } else {
      WholeWindowIsJunk(data, dataOffset, seeds, k);
      PureLength(data, seeds);
      ScanPure(data, dataOffset, seeds, k + 1);
      ScanStep(data, dataOffset, k * BLOCK_TOTAL_SIZE, k * BLOCK_TOTAL_SIZE, BLOCK_TOTAL_SIZE);
    }
  }

  lemma PureLength(data: seq<Byte>, seeds: seq<Seed>)
    requires PurePadding(data, seeds)
    ensures |data| == |seeds| * BLOCK_TOTAL_SIZE
  {}

  lemma {:induction false} PickPure(seeds: seq<Seed>, i: nat, k: nat)
    requires i <= k < |seeds|
    ensures Pick(JunkFrom(seeds, i), k * BLOCK_TOTAL_SIZE, |seeds| * BLOCK_TOTAL_SIZE) == Some(WindowJunk(seeds, k))
    decreases k - i
  {
    hide Canonical, Swapped;
    assert k * BLOCK_TOTAL_SIZE + BLOCK_TOTAL_SIZE == (k + 1) * BLOCK_TOTAL_SIZE <= |seeds| * BLOCK_TOTAL_SIZE;
    assert JunkFrom(seeds, i)[0] == WindowJunk(seeds, i);
    if i < k {
      assert (i + 1) * BLOCK_TOTAL_SIZE <= k * BLOCK_TOTAL_SIZE;
      assert JunkFrom(seeds, i)[1..] == JunkFrom(seeds, i + 1);
      PickPure(seeds, i + 1, k);
    }
  }

  lemma {:induction false} PlanPure(data: seq<Byte>, seeds: seq<Seed>, k: nat)
    requires |data| == |seeds| * BLOCK_TOTAL_SIZE && k <= |seeds| && k * BLOCK_TOTAL_SIZE <= |data|
    requires Proper(JunkFrom(seeds, 0))
    ensures Plan(data, JunkFrom(seeds, 0), k * BLOCK_TOTAL_SIZE) == WindowRecords(seeds[k..])
    decreases |seeds| - k
  {
    hide Plan, Pick, Swapped, Canonical, JunkFrom;
    var junk := JunkFrom(seeds, 0);
    if k == |seeds| {
      PlanEnds(data, junk);
    } else {
      assert (k + 1) * BLOCK_TOTAL_SIZE <= |data|;
      PickPure(seeds, 0, k);
      PlanUnfold(data, junk, k * BLOCK_TOTAL_SIZE);
      PlanPure(data, seeds, k + 1);
      assert PlanStep(data, junk, k * BLOCK_TOTAL_SIZE) == [WindowRecord(seeds[k])];
      assert WindowRecords(seeds[k..]) == [WindowRecord(seeds[k])] + WindowRecords(seeds[k + 1..]);
    }
  }

  lemma {:induction false} WindowRecordsSize(seeds: seq<Seed>)
    ensures AllRecordable(WindowRecords(seeds)) && |Serialized(WindowRecords(seeds))| == 72 * |seeds|
  {
    hide Be32, EncodedSeed;
    if seeds != [] {
      WindowRecordsSize(seeds[1..]);
      assert WindowRecords(seeds)[1..] == WindowRecords(seeds[1..]);
    }
  }

  /** N windows of padding pack into exactly N padding records, 72 bytes each. */
  lemma PurePaddingPacks(data: seq<Byte>, dataOffset: nat, seeds: seq<Seed>)
    requires PurePadding(data, seeds) && dataOffset % BLOCK_TOTAL_SIZE == 0
    ensures AllRecordable(WindowRecords(seeds))
    ensures PackedChunk(data, dataOffset) == Packed(Serialized(WindowRecords(seeds)), 72 * |seeds|)
  {
    hide PurePadding, Plan, Scan, Serialized, Pick;
    PureLength(data, seeds);
    ScanOrdered(data, dataOffset, 0);
    ScanPure(data, dataOffset, seeds, 0);
    PlanPure(data, seeds, 0);
    assert seeds[0..] == seeds;
    WindowRecordsSize(seeds);
    if seeds == [] {
      assert data == [];
      PlanEnds(data, []);
    } else {
      PickPure(seeds, 0, 0);
    }
  }
}
