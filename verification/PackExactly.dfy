/** Exactly when a packed chunk unpacks to itself. */
module PackExactly {
  import opened Words
  import opened Sizes
  import opened Recurrence
  import opened PaddingStream
  import opened Generator
  import opened Detection
  import opened Soundness
  import opened Unpacking
  import opened Packing
  import opened PackRoundTrip
  import opened Results

  // ---------- bytes of the words detection looked at ----------

  lemma BigEndianLanes(b0: Byte, b1: Byte, b2: Byte, b3: Byte)
    ensures var w := Swap32(FromBe(b0, b1, b2, b3));
            Lane(w, 0) == b0 && Lane(w, 1) == b1 && Lane(w, 2) == b2 && Lane(w, 3) == b3
  {}

  /** Byte `i` of data that shows a stream is the stream's, from the first whole word on. */
  lemma ShownByte(data: seq<Byte>, d: nat, seed: Seed, i: nat)
    requires Shows(data, d, seed) && Skip(d) <= i < Skip(d) + 4 * K
    ensures data[i] == PadByte(seed, d + i)
  {
    hide FromBe, Lane, Swap32, At, Origin;
    var s := Origin(seed);
    var w, k := (i - Skip(d)) / 4, (i - Skip(d)) % 4;
    var m := 4 * K + (d + Skip(d)) / 4 + w;
    var o := 4 * w + Skip(d);
    assert i == o + k && 4 * PERIOD_BYTES + d + o == 4 * m;
    BigEndianLanes(data[o], data[o + 1], data[o + 2], data[o + 3]);
    assert WordsFrom(data, Skip(d))[w] == FromBe(data[o], data[o + 1], data[o + 2], data[o + 3]);
    SwapInvolution(At(s, m));
    assert (4 * m + k) / 4 == m && (4 * m + k) % 4 == k;
    assert 4 * PERIOD_BYTES + (d + i) == 4 * m + k;
  }

  // ---------- one stretch of junk ----------

  /** Byte `i` of the data from `q` on is the stream's from byte `at` on. */
  ghost predicate SameAt(data: seq<Byte>, q: nat, seed: Seed, at: nat, i: nat) {
    q + i < |data| && data[q + i] == PadByte(seed, at + i)
  }

  ghost predicate AllSame(data: seq<Byte>, q: nat, seed: Seed, at: nat, n: nat) {
    forall i: nat | i < n :: SameAt(data, q, seed, at, i)
  }

  /** Padding whose bytes before the first whole word are the stream's, and that is shorter than a period after that. */
  ghost predicate LeadRight(data: seq<Byte>, dataOffset: nat, j: Junk)
    requires j.end <= |data|
  {
    var d := InWindow(dataOffset + j.start);
    && j.end < j.start + Skip(d) + 4 * K
    && j.start <= j.end && AllSame(data, j.start, Swapped(j.seed), d, Min(Skip(d), j.end - j.start))
  }

  lemma JunkShows(data: seq<Byte>, dataOffset: nat, q: nat, n: nat, j: Junk)
    requires q + n <= |data| && j in JunkIn(data, dataOffset, q, n)
    ensures var window, d, seed := data[q..q + n], InWindow(dataOffset + q), Swapped(j.seed);
            && j.start == q < j.end <= q + n && Shows(window, d, seed)
            && AllSame(data, q, seed, Phase(d), j.end - q)
  {
    hide Detect, Shows, PadByte, Swapped, Phase;
    var window, d := data[q..q + n], InWindow(dataOffset + q);
    DetectExactly(window, d);
    forall i: nat | i < j.end - q
      ensures SameAt(data, q, Swapped(j.seed), Phase(d), i)
    {
      assert window[i] == PadByte(Swapped(j.seed), Phase(d) + i);
    }
  }

  /** Bytes that continue a stream at two places a period apart show that it repeats. */
  lemma TwicePlaced(data: seq<Byte>, q: nat, seed: Seed, d: nat, n: nat)
    requires AllSame(data, q, seed, d, n) && AllSame(data, q, seed, d + PERIOD_BYTES, n)
    ensures PadBytes(seed, d, n) == PadBytes(seed, d + PERIOD_BYTES, n)
  {
    hide PadByte;
    forall i: nat | i < n
      ensures PadBytes(seed, d, n)[i] == PadBytes(seed, d + PERIOD_BYTES, n)[i]
    {
      assert SameAt(data, q, seed, d, i) && SameAt(data, q, seed, d + PERIOD_BYTES, i);
      BytesAt(seed, d, n, i);
      BytesAt(seed, d + PERIOD_BYTES, n, i);
    }
  }

  lemma TwicePlacedIsZero(data: seq<Byte>, q: nat, seed: Seed, d: nat, n: nat)
    requires AllSame(data, q, seed, d, n) && AllSame(data, q, seed, d + PERIOD_BYTES, n) && n >= Skip(d) + 4 * K
    ensures q < |data| && data[q] == 0
  {
    hide PadByte;
    TwicePlaced(data, q, seed, d, n);
    RepeatingIsZero(seed, d, n);
    BytesAt(seed, d, n, 0);
    assert SameAt(data, q, seed, d, 0);
  }

  /** A stretch regenerates when every byte of it is the stream's where it stands. */
  lemma RegeneratesEach(data: seq<Byte>, dataOffset: nat, j: Junk)
    requires j.start < j.end <= |data| && InWindow(dataOffset + j.start) + (j.end - j.start) <= BLOCK_TOTAL_SIZE
    ensures Regenerates(data, dataOffset, j)
       <==> AllSame(data, j.start, Swapped(j.seed), InWindow(dataOffset + j.start), j.end - j.start)
  {
    hide PadByte, Swapped;
    var d, seed, count := InWindow(dataOffset + j.start), Swapped(j.seed), j.end - j.start;
    var mine := data[j.start..j.end];
    forall i: nat | i < count
      ensures mine[i] == PadBytes(seed, d, count)[i] <==> SameAt(data, j.start, seed, d, i)
    {
      BytesAt(seed, d, count, i);
    }
    if AllSame(data, j.start, seed, d, count) {
      assert mine == PadBytes(seed, d, count);
    }
  }

  /** Out of phase, a stretch is regenerated only if it is short and its first bytes happen to be right. */
  lemma OutOfPhase(data: seq<Byte>, dataOffset: nat, q: nat, n: nat, j: Junk)
    requires q + n <= |data| && InWindow(dataOffset + q) + n <= BLOCK_TOTAL_SIZE && j in JunkIn(data, dataOffset, q, n)
    requires !PhaseAgrees(dataOffset, q) && data[q] != 0
    ensures Regenerates(data, dataOffset, j) <==> LeadRight(data, dataOffset, j)
  {
    hide Detect, PadByte, Swapped, Phase, JunkIn, Shows, Regenerates;
    var d, seed, count := InWindow(dataOffset + q), Swapped(j.seed), j.end - q;
    JunkShows(data, dataOffset, q, n, j);
    PhaseExact(d);
    RegeneratesEach(data, dataOffset, j);
    if Regenerates(data, dataOffset, j) {
      if count >= Skip(d) + 4 * K {
        TwicePlacedIsZero(data, q, seed, d, count);
      }
    }
    if LeadRight(data, dataOffset, j) {
      forall i: nat | i < count
        ensures SameAt(data, q, seed, d, i)
      {
        if i >= Skip(d) {
          ShownByte(data[q..q + n], d, seed, i);
        }
      }
    }
  }

  lemma BytesAt(seed: Seed, d: nat, n: nat, i: nat)
    requires i < n
    ensures PadBytes(seed, d, n)[i] == PadByte(seed, d + i)
  {}

  /** Where a stretch was found and what makes it come back. */
  ghost predicate StretchFits(data: seq<Byte>, dataOffset: nat, j: Junk) {
    j.end <= |data| && (PhaseAgrees(dataOffset, j.start) || LeadRight(data, dataOffset, j))
  }

  /** Every stretch the scan finds is regenerated exactly when its phase, or its lead, is right. */
  lemma {:induction false} ScanExactly(data: seq<Byte>, dataOffset: nat, p: nat)
    requires p <= |data|
    ensures forall j | j in Scan(data, dataOffset, p) ::
              Regenerates(data, dataOffset, j) <==> StretchFits(data, dataOffset, j)
    decreases |data| - p
  {
    hide JunkIn, AfterZeroes, WindowLength, Regenerates, StretchFits;
    if p < |data| {
      var q := AfterZeroes(data, p);
      var n := WindowLength(data, dataOffset, q);
      ScanStep(data, dataOffset, p, q, n);
      ScanExactly(data, dataOffset, q + n);
      forall j | j in JunkIn(data, dataOffset, q, n)
        ensures Regenerates(data, dataOffset, j) <==> StretchFits(data, dataOffset, j)
      {
        FoundExactly(data, dataOffset, p, j);
      }
    } else {
      ScanEnd(data, dataOffset);
    }
  }

  lemma FoundExactly(data: seq<Byte>, dataOffset: nat, p: nat, j: Junk)
    requires p < |data|
    requires var q := AfterZeroes(data, p);
             j in JunkIn(data, dataOffset, q, WindowLength(data, dataOffset, q))
    ensures Regenerates(data, dataOffset, j) <==> StretchFits(data, dataOffset, j)
  {
    var q := AfterZeroes(data, p);
    var n := WindowLength(data, dataOffset, q);
    hide AfterZeroes, WindowLength, Regenerates, LeadRight, JunkIn, PhaseAgrees;
    JunkShows(data, dataOffset, q, n, j);
    if PhaseAgrees(dataOffset, q) {
      JunkRegenerates(data, dataOffset, q, n);
    } else {
      OutOfPhase(data, dataOffset, q, n, j);
    }
  }

  // ---------- whole chunks ----------

  /** The stretches that are recorded from `current` on. */
  ghost function Recorded(data: seq<Byte>, junk: seq<Junk>, current: nat): seq<Junk>
    requires current <= |data| && Proper(junk)
    decreases |data| - current
  {
    if current >= |data| then []
    else
      var picked := Pick(junk, current, |data|);
      (if picked.None? then [] else [picked.value]) + Recorded(data, junk, PlanNext(data, junk, current))
  }

  /** Stretches that reach past `current` start there or later, and none reaches past the end. */
  predicate Ahead(junk: seq<Junk>, current: nat, end: nat) {
    forall j | j in junk :: j.end <= end && (j.end > current ==> j.start >= current)
  }

  lemma StillAhead(data: seq<Byte>, junk: seq<Junk>, current: nat)
    requires current < |data| && Proper(junk) && Disjoint(junk) && Ahead(junk, current, |data|)
    ensures Ahead(junk, PlanNext(data, junk, current), |data|)
    ensures Pick(junk, current, |data|).Some? ==>
              var j := Pick(junk, current, |data|).value;
              j in junk && current <= j.start < j.end == PlanNext(data, junk, current)
  {
    var picked := Pick(junk, current, |data|);
    if picked.Some? {
      PickedFits(junk, current, |data|);
      var k :| 0 <= k < |junk| && junk[k] == picked.value;
      forall j | j in junk && j.end > picked.value.end
        ensures j.start >= picked.value.end
      {
        var i :| 0 <= i < |junk| && junk[i] == j;
      }
    }
  }

  lemma SplitEquality<T>(a: seq<T>, b: seq<T>, c: seq<T>, d: seq<T>)
    requires |a| == |c|
    ensures a + b == c + d <==> a == c && b == d
  {
    if a + b == c + d {
      assert a == (a + b)[..|a|] && b == (a + b)[|a|..];
      assert c == (c + d)[..|a|] && d == (c + d)[|a|..];
    }
  }

  /** The records up to the end of a stretch. */
  function StretchRecords(data: seq<Byte>, current: nat, j: Junk): seq<Record>
    requires current <= j.start < j.end <= |data|
  {
    (if j.start > current then [Literal(data[current..j.start])] else []) + [Padding(j.end - j.start, j.seed)]
  }

  lemma StretchExactly(data: seq<Byte>, dataOffset: nat, current: nat, j: Junk)
    requires current <= j.start < j.end <= |data|
    requires InWindow(dataOffset + j.start) + (j.end - j.start) <= BLOCK_TOTAL_SIZE
    ensures Expanded(StretchRecords(data, current, j), dataOffset + current) == data[current..j.end]
       <==> Regenerates(data, dataOffset, j)
  {
    hide PadBytes, Swapped, ExpandedRecord;
    var padding := Padding(j.end - j.start, j.seed);
    ExpandedOne(padding, dataOffset + j.start);
    PaddingStands(dataOffset, j);
    if j.start > current {
      var literal := Literal(data[current..j.start]);
      ExpandedOne(literal, dataOffset + current);
      ExpandedJoin([literal], [padding], dataOffset + current);
      assert data[current..j.end] == data[current..j.start] + data[j.start..j.end];
      SplitEquality(Expanded([literal], dataOffset + current), Expanded([padding], dataOffset + j.start),
        data[current..j.start], data[j.start..j.end]);
    } else {
      assert [] + [padding] == [padding];
    }
  }

  lemma StepIs(data: seq<Byte>, junk: seq<Junk>, current: nat)
    requires current < |data| && Proper(junk) && Disjoint(junk) && Ahead(junk, current, |data|)
    ensures var picked := Pick(junk, current, |data|);
            if picked.None? then
              PlanStep(data, junk, current) == [Literal(data[current..])] && PlanNext(data, junk, current) == |data|
            else var j := picked.value;
              && j in junk && current <= j.start < j.end <= |data|
              && PlanStep(data, junk, current) == StretchRecords(data, current, j)
              && PlanNext(data, junk, current) == j.end
  {
    hide Disjoint, Ahead;
    StillAhead(data, junk, current);
  }

  /** A step's records stand for the bytes they replace exactly when its stretch regenerates. */
  lemma StepExactly(data: seq<Byte>, dataOffset: nat, junk: seq<Junk>, current: nat)
    requires current < |data| && Proper(junk) && Disjoint(junk) && Ahead(junk, current, |data|)
    requires forall j | j in junk :: InWindow(dataOffset + j.start) + (j.end - j.start) <= BLOCK_TOTAL_SIZE
    ensures var picked := Pick(junk, current, |data|);
            Expanded(PlanStep(data, junk, current), dataOffset + current)
                == data[current..PlanNext(data, junk, current)]
            <==> (picked.Some? ==> Regenerates(data, dataOffset, picked.value))
  {
    hide Pick, PlanStep, PlanNext, Expanded, Regenerates, Disjoint, Ahead, StretchRecords;
    StepIs(data, junk, current);
    var picked := Pick(junk, current, |data|);
    if picked.None? {
      assert data[current..] == data[current..|data|];
      ExpandedOne(Literal(data[current..]), dataOffset + current);
    } else {
      StretchExactly(data, dataOffset, current, picked.value);
    }
  }

  lemma PaddingStands(dataOffset: nat, j: Junk)
    requires j.start < j.end
    ensures ExpandedRecord(Padding(j.end - j.start, j.seed), dataOffset + j.start)
         == PadBytes(Swapped(j.seed), InWindow(dataOffset + j.start), j.end - j.start)
  {}

  lemma {:induction false} PlanExactly(data: seq<Byte>, dataOffset: nat, junk: seq<Junk>, current: nat)
    requires current <= |data| && Proper(junk) && Disjoint(junk) && Ahead(junk, current, |data|)
    requires forall j | j in junk :: InWindow(dataOffset + j.start) + (j.end - j.start) <= BLOCK_TOTAL_SIZE
    ensures Expanded(Plan(data, junk, current), dataOffset + current) == data[current..]
       <==> forall j | j in Recorded(data, junk, current) :: Regenerates(data, dataOffset, j)
    decreases |data| - current
  {
    hide PlanStep, PlanNext, Plan, Regenerates, ExpandedRecord, Disjoint, Ahead, Proper, Pick;
    if current == |data| {
      PlanEnds(data, junk);
    } else {
      var next := PlanNext(data, junk, current);
      StillAhead(data, junk, current);
      PlanExactly(data, dataOffset, junk, next);
      PlanUnfold(data, junk, current);
      StepExactly(data, dataOffset, junk, current);
      var step, rest := PlanStep(data, junk, current), Plan(data, junk, next);
      StepLength(data, junk, current);
      ExpandedLength(step, 0, dataOffset + current);
      SplitExpansion(data, dataOffset, step, rest, current, next);
    }
  }

  /** Records stand for the data exactly when a first part of them does, and the rest does. */
  lemma SplitExpansion(data: seq<Byte>, dataOffset: nat, step: seq<Record>, rest: seq<Record>, current: nat, next: nat)
    requires current <= next <= |data| && |Expanded(step, dataOffset + current)| == next - current
    ensures Expanded(step + rest, dataOffset + current) == data[current..]
       <==> (Expanded(step, dataOffset + current) == data[current..next]
             && Expanded(rest, dataOffset + next) == data[next..])
  {
    hide Expanded;
    ExpandedJoin(step, rest, dataOffset + current);
    SplitEquality(Expanded(step, dataOffset + current), Expanded(rest, dataOffset + next), data[current..next],
        data[next..]);
    assert data[current..] == data[current..next] + data[next..];
  }

  lemma {:induction false} RecordedFound(data: seq<Byte>, junk: seq<Junk>, current: nat)
    requires current <= |data| && Proper(junk)
    ensures forall j | j in Recorded(data, junk, current) :: j in junk
    decreases |data| - current
  {
    hide PlanNext, Proper, Pick;
    if current < |data| {
      if Pick(junk, current, |data|).Some? {
        PickedFits(junk, current, |data|);
      }
      RecordedFound(data, junk, PlanNext(data, junk, current));
    }
  }

  lemma {:induction false} ScanWindows(data: seq<Byte>, dataOffset: nat, p: nat)
    requires p <= |data|
    ensures forall j | j in Scan(data, dataOffset, p) ::
              InWindow(dataOffset + j.start) + (j.end - j.start) <= BLOCK_TOTAL_SIZE
    decreases |data| - p
  {
    hide JunkIn, AfterZeroes, WindowLength;
    if p < |data| {
      var q := AfterZeroes(data, p);
      ScanWindows(data, dataOffset, q + WindowLength(data, dataOffset, q));
    }
  }

  lemma ScanAhead(data: seq<Byte>, dataOffset: nat)
    ensures var junk := Scan(data, dataOffset, 0);
            Proper(junk) && Disjoint(junk) && Ahead(junk, 0, |data|)
  {
    hide Scan;
    ScanOrdered(data, dataOffset, 0);
  }

  /** That a chunk comes back from its packed form, or was left as it is. */
  ghost predicate RoundTrips(data: seq<Byte>, dataOffset: nat) {
    var p := PackedChunk(data, dataOffset);
    if p.packedSize == 0 then p.mainData == data
    else |p.mainData| == p.packedSize && Unpacked(p.mainData, |data|, dataOffset, p.packedSize) == Ok(data)
  }

  /** Every recorded stretch is in phase, or too short to tell and right at its start. */
  ghost predicate RecordsFit(data: seq<Byte>, dataOffset: nat) {
    ScanAhead(data, dataOffset);
    forall j | j in Recorded(data, Scan(data, dataOffset, 0), 0) :: StretchFits(data, dataOffset, j)
  }

  lemma RecordsLength(data: seq<Byte>, dataOffset: nat)
    requires Records(data, dataOffset) != []
    ensures |Expanded(Records(data, dataOffset), dataOffset)| == |data|
  {
    hide Plan, Scan, Expanded, Pick;
    ScanOrdered(data, dataOffset, 0);
    PlanLength(data, Scan(data, dataOffset, 0), 0);
    ExpandedLength(Records(data, dataOffset), 0, dataOffset);
  }

  /** In a chunk below 2 GiB every record reads back. */
  lemma ShortReadable(data: seq<Byte>, dataOffset: nat)
    requires |data| < JUNK_FLAG
    ensures AllReadable(Records(data, dataOffset))
  {
    hide Plan, Scan, Pick;
    ScanOrdered(data, dataOffset, 0);
    PlanReadable(data, Scan(data, dataOffset, 0), 0);
  }

  /** Where every record reads back, unpacking gives what the records stand for, which is as long as the chunk. */
  lemma UnpacksToExpanded(data: seq<Byte>, dataOffset: nat)
    requires Records(data, dataOffset) != [] && AllReadable(Records(data, dataOffset))
    ensures var p, e := PackedChunk(data, dataOffset), Expanded(Records(data, dataOffset), dataOffset);
            && |p.mainData| == p.packedSize > 0 && |e| == |data|
            && Unpacked(p.mainData, |data|, dataOffset, p.packedSize) == Ok(e)
  {
    hide Plan, Scan, Serialized, UnpackFrom, Expanded, Pick, AllReadable;
    var rs := Records(data, dataOffset);
    ScanOrdered(data, dataOffset, 0);
    PlanRecordable(data, Scan(data, dataOffset, 0), 0);
    RecordsLength(data, dataOffset);
    NoRecordsOfNothing(data, dataOffset);
    PackedSize(data, dataOffset);
    UnpackRecords([], rs, dataOffset, []);
    assert [] + Serialized(rs) == Serialized(rs);
    assert [] + Expanded(rs, dataOffset) == Expanded(rs, dataOffset);
  }

  lemma NoRecordsOfNothing(data: seq<Byte>, dataOffset: nat)
    requires Records(data, dataOffset) != []
    ensures data != []
  {
    hide Scan;
  }

  /** What a packed chunk unpacks to; a chunk without records is stored as it is. */
  ghost function Regained(data: seq<Byte>, dataOffset: nat): (r: seq<Byte>)
    ensures |r| == |data|
  {
    if Records(data, dataOffset) == [] then data
    else
      RecordsLength(data, dataOffset);
      Expanded(Records(data, dataOffset), dataOffset)
  }

  /** Unpacking readable records always succeeds, and gives the chunk exactly when every recorded stretch fits. */
  lemma RegainedExactly(data: seq<Byte>, dataOffset: nat)
    requires AllReadable(Records(data, dataOffset))
    ensures var p := PackedChunk(data, dataOffset);
            if p.packedSize == 0 then p.mainData == data && Regained(data, dataOffset) == data
            else && |p.mainData| == p.packedSize
                 && Unpacked(p.mainData, |data|, dataOffset, p.packedSize) == Ok(Regained(data, dataOffset))
    ensures Regained(data, dataOffset) == data <==> RecordsFit(data, dataOffset)
  {
    hide Plan, Scan, Serialized, Unpacked, Expanded, StretchFits, Regenerates, Ahead, Disjoint, Proper, Recorded;
    hide PackedChunk, AllReadable;
    ScanAhead(data, dataOffset);
    ScanWindows(data, dataOffset, 0);
    ScanExactly(data, dataOffset, 0);
    var junk := Scan(data, dataOffset, 0);
    RecordedFound(data, junk, 0);
    PlanExactly(data, dataOffset, junk, 0);
    assert data[0..] == data;
    if Records(data, dataOffset) == [] {
      NothingPacked(data, dataOffset);
    } else {
      UnpacksToExpanded(data, dataOffset);
    }
  }

  /** A packed chunk of readable records unpacks to the chunk exactly when every stretch that was recorded fits. */
  lemma RoundTripsExactly(data: seq<Byte>, dataOffset: nat)
    requires AllReadable(Records(data, dataOffset))
    ensures RoundTrips(data, dataOffset) <==> RecordsFit(data, dataOffset)
  {
    hide Unpacked, PackedChunk, Regained, RecordsFit, AllReadable, Records;
    RegainedExactly(data, dataOffset);
  }

  lemma NothingPacked(data: seq<Byte>, dataOffset: nat)
    requires Records(data, dataOffset) == []
    ensures PackedChunk(data, dataOffset) == Packed(data, 0)
    ensures Proper(Scan(data, dataOffset, 0)) && Recorded(data, Scan(data, dataOffset, 0), 0) == []
  {
    hide Scan, Pick, PlanStep;
    ScanAhead(data, dataOffset);
    if 0 < |data| && Pick(Scan(data, dataOffset, 0), 0, |data|).Some? {
      PlanUnfold(data, Scan(data, dataOffset, 0), 0);
    }
  }

  /** It is enough that no window of the scan starts in the last three bytes of a period. */
  lemma PhasesSuffice(data: seq<Byte>, dataOffset: nat)
    requires PhasesAgree(dataOffset, WindowStarts(data, dataOffset, 0))
    ensures RecordsFit(data, dataOffset)
  {
    hide Scan, StretchFits, Regenerates, Recorded, PhasesAgree, Proper, Disjoint, Ahead;
    ScanAhead(data, dataOffset);
    ScanRegenerates(data, dataOffset, 0);
    ScanExactly(data, dataOffset, 0);
    RecordedFound(data, Scan(data, dataOffset, 0), 0);
  }

  /**
   The round trip: a packed chunk unpacks to the chunk, whatever it holds, if no window of the
   scan starts in the last three bytes of a generator period.
   */
  lemma PackThenUnpack(data: seq<Byte>, dataOffset: nat)
    requires AllReadable(Records(data, dataOffset)) && PhasesAgree(dataOffset, WindowStarts(data, dataOffset, 0))
    ensures RoundTrips(data, dataOffset)
  {
    hide PhasesAgree, RoundTrips, RecordsFit, WindowStarts, Records;
    PhasesSuffice(data, dataOffset);
    RoundTripsExactly(data, dataOffset);
  }
}
