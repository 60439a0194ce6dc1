/** Which padding of a chunk is found, and which of it is recorded. */
module Finding {
  import opened Words
  import opened Sizes
  import opened PaddingStream
  import opened Generator
  import opened Soundness
  import opened Unpacking
  import opened Packing
  import opened Results

  // ---------- what is found ----------

  /** In which 0x8000 bytes of the disc a byte of the chunk lies. */
  function WindowNo(dataOffset: nat, x: nat): nat {
    (dataOffset + x) / 0x8000
  }

  /** The first byte that is not zero, of those of the chunk that lie in the same 0x8000 bytes of the disc. */
  predicate FirstNonzero(data: seq<Byte>, dataOffset: nat, q: nat) {
    && q < |data| && data[q] != 0
    && forall x | 0 <= x < q && WindowNo(dataOffset, x) == WindowNo(dataOffset, q) :: data[x] == 0
  }

  /** The bytes from `q` to the end of those 0x8000 bytes, or of the chunk. */
  function WindowFrom(data: seq<Byte>, dataOffset: nat, q: nat): seq<Byte>
    requires q < |data|
  {
    var end := ((dataOffset + q) / 0x8000 + 1) * 0x8000 - dataOffset;
    data[q..Min(end, |data|)]
  }

  /**
   The window, which starts at byte `d` of its 0x8000, begins with `n` bytes of padding: its first 521 whole words
   show a stream, which `seed` starts, and the bytes go on with that stream for just so long.
   */
  ghost predicate BeginsWith(window: seq<Byte>, d: nat, seed: Seed, n: int) {
    && (exists other :: Shows(window, d, other)) && Detect(window, d).Found? && seed == Detect(window, d).seed
    && Shows(window, d, Swapped(seed)) && 0 < n <= |window|
    && (forall i | 0 <= i < n :: window[i] == PadByte(Swapped(seed), Phase(d) + i))
    && (n < |window| ==> window[n] != PadByte(Swapped(seed), Phase(d) + n))
  }

  /** A stretch of padding, which starts at the first byte of its window that is not zero. */
  ghost predicate IsStretch(data: seq<Byte>, dataOffset: nat, j: Junk) {
    && FirstNonzero(data, dataOffset, j.start)
    && BeginsWith(WindowFrom(data, dataOffset, j.start), InWindow(dataOffset + j.start), j.seed, j.end - j.start)
  }

  lemma BeginsWhen(window: seq<Byte>, d: nat, seed: Seed, n: int)
    ensures BeginsWith(window, d, seed, n) <==>
              && Detect(window, d).Found? && seed == Detect(window, d).seed && 0 < n
              && n == MatchLength(window, Swapped(seed), Phase(d))
  {
    hide Detect, PadByte, Swapped, Phase, Shows, MatchLength;
    DetectExactly(window, d);
    RunIs(window, Swapped(seed), Phase(d), n);
  }

  lemma WindowIs(data: seq<Byte>, dataOffset: nat, q: nat)
    requires q < |data|
    ensures var n := WindowLength(data, dataOffset, q);
            && 0 < n && q + n <= |data| && WindowFrom(data, dataOffset, q) == data[q..q + n]
            && (q + n < |data| ==> (dataOffset + q + n) % 0x8000 == 0)
            && forall x | q <= x < q + n :: WindowNo(dataOffset, x) == WindowNo(dataOffset, q)
  {
    var at := dataOffset + q;
    WindowEnd(at);
    forall x | q <= x < q + WindowLength(data, dataOffset, q)
      ensures WindowNo(dataOffset, x) == WindowNo(dataOffset, q)
    {
      InsideWindow(at, x - q);
    }
  }

  lemma WindowEnd(at: nat)
    ensures (at / 0x8000 + 1) * 0x8000 == at + (0x8000 - at % 0x8000)
    ensures (at + (0x8000 - at % 0x8000)) % 0x8000 == 0
  {}

  lemma InsideWindow(at: nat, k: nat)
    requires at % 0x8000 + k < 0x8000
    ensures (at + k) / 0x8000 == at / 0x8000
  {}

  lemma WindowData(data: seq<Byte>, dataOffset: nat, q: nat)
    requires q < |data|
    ensures WindowFrom(data, dataOffset, q) == data[q..q + WindowLength(data, dataOffset, q)]
  {
    WindowIs(data, dataOffset, q);
  }

  /** In the window that starts at `q` just its stretch is found. */
  lemma FoundIn(data: seq<Byte>, dataOffset: nat, q: nat, n: nat, j: Junk)
    requires FirstNonzero(data, dataOffset, q) && q + n <= |data| && WindowFrom(data, dataOffset, q) == data[q..q + n]
    ensures j in JunkIn(data, dataOffset, q, n) <==> j.start == q && IsStretch(data, dataOffset, j)
  {
    hide FirstNonzero, WindowFrom, JunkIn, BeginsWith, InWindow;
    JunkBegins(data, dataOffset, q, n, j);
  }

  lemma JunkBegins(data: seq<Byte>, dataOffset: nat, q: nat, n: nat, j: Junk)
    requires q + n <= |data|
    ensures j in JunkIn(data, dataOffset, q, n)
       <==> j.start == q && BeginsWith(data[q..q + n], InWindow(dataOffset + q), j.seed, j.end - q)
  {
    hide JunkIn, BeginsWith, Detect, MatchLength, Swapped, Phase, InWindow;
    JunkIs(data, dataOffset, q, n, j);
    BeginsWhen(data[q..q + n], InWindow(dataOffset + q), j.seed, j.end - q);
  }

  lemma JunkIs(data: seq<Byte>, dataOffset: nat, q: nat, n: nat, j: Junk)
    requires q + n <= |data|
    ensures var window, d := data[q..q + n], InWindow(dataOffset + q);
            j in JunkIn(data, dataOffset, q, n) <==>
              && Detect(window, d).Found? && j.start == q && j.seed == Detect(window, d).seed && q < j.end
              && j.end - q == MatchLength(window, Swapped(j.seed), Phase(d))
  {
    hide Detect, Swapped, Phase, MatchFrom;
  }

  /** How far bytes go on with a stream is where they first leave it. */
  lemma RunIs(window: seq<Byte>, seed: Seed, at: nat, n: int)
    ensures n == MatchLength(window, seed, at)
       <==> && 0 <= n <= |window| && (forall i | 0 <= i < n :: window[i] == PadByte(seed, at + i))
            && (n < |window| ==> window[n] != PadByte(seed, at + n))
  {
    hide PadByte;
    var m := MatchLength(window, seed, at);
    assert 0 <= n < m ==> window[n] == PadByte(seed, at + n);
  }

  /** All before `p` is zero as far as it lies in the same 0x8000 bytes. */
  predicate Cleared(data: seq<Byte>, dataOffset: nat, p: nat)
    requires p <= |data|
  {
    forall x | 0 <= x < p && WindowNo(dataOffset, x) == WindowNo(dataOffset, p) :: data[x] == 0
  }

  lemma ClearedOn(data: seq<Byte>, dataOffset: nat, p: nat, q: nat)
    requires p <= q <= |data| && Cleared(data, dataOffset, p) && forall i | p <= i < q :: data[i] == 0
    ensures Cleared(data, dataOffset, q)
  {
    forall x | 0 <= x < q && WindowNo(dataOffset, x) == WindowNo(dataOffset, q)
      ensures data[x] == 0
    {
      if x < p {
        Between(dataOffset + x, dataOffset + p, dataOffset + q);
      }
    }
  }

  lemma Between(a: nat, b: nat, c: nat)
    requires a <= b <= c && a / 0x8000 == c / 0x8000
    ensures a / 0x8000 == b / 0x8000
  {}

  lemma ClearedAtBoundary(data: seq<Byte>, dataOffset: nat, p: nat)
    requires p <= |data| && (dataOffset + p) % 0x8000 == 0
    ensures Cleared(data, dataOffset, p)
  {
    forall x | 0 <= x < p
      ensures WindowNo(dataOffset, x) != WindowNo(dataOffset, p)
    {}
  }

  /** From `p` on, the scan finds just the stretches that start there or later. */
  lemma {:induction false} ScanFrom(data: seq<Byte>, dataOffset: nat, p: nat, j: Junk)
    requires p <= |data| && (p < |data| ==> Cleared(data, dataOffset, p))
    ensures j in Scan(data, dataOffset, p) <==> p <= j.start && IsStretch(data, dataOffset, j)
    decreases |data| - p
  {
    hide JunkIn, IsStretch, FirstNonzero, Cleared, WindowLength, AfterZeroes, Scan;
    if p == |data| {
      ScanEnd(data, dataOffset);
      if IsStretch(data, dataOffset, j) {
        StretchInside(data, dataOffset, j);
      }
    } else {
      var q := AfterZeroes(data, p);
      var n := WindowLength(data, dataOffset, q);
      ScanStep(data, dataOffset, p, q, n);
      ClearedOn(data, dataOffset, p, q);
      if q == |data| {
        NothingLeft(data, dataOffset, p, j);
      } else {
        FirstIs(data, dataOffset, q);
        WindowIs(data, dataOffset, q);
        WindowData(data, dataOffset, q);
        FoundIn(data, dataOffset, q, n, j);
        if q + n < |data| {
          ClearedAtBoundary(data, dataOffset, q + n);
        }
        ScanFrom(data, dataOffset, q + n, j);
        if IsStretch(data, dataOffset, j) && p <= j.start < q + n {
          OnlyFirst(data, dataOffset, p, q, n, j);
        }
      }
    }
  }

  lemma StretchInside(data: seq<Byte>, dataOffset: nat, j: Junk)
    requires IsStretch(data, dataOffset, j)
    ensures j.start < |data| && data[j.start] != 0 && FirstNonzero(data, dataOffset, j.start)
  {
    hide BeginsWith, WindowFrom;
  }

  lemma FirstIs(data: seq<Byte>, dataOffset: nat, q: nat)
    requires q < |data| && data[q] != 0 && Cleared(data, dataOffset, q)
    ensures FirstNonzero(data, dataOffset, q)
  {}

  lemma NothingLeft(data: seq<Byte>, dataOffset: nat, p: nat, j: Junk)
    requires p < |data| && AfterZeroes(data, p) == |data|
    ensures JunkIn(data, dataOffset, |data|, WindowLength(data, dataOffset, |data|)) == []
    ensures Scan(data, dataOffset, |data|) == []
    ensures p <= j.start ==> !IsStretch(data, dataOffset, j)
  {
    ScanEnd(data, dataOffset);
    hide BeginsWith, WindowFrom, MatchFrom, Scan, Phase;
  }

  lemma OnlyFirst(data: seq<Byte>, dataOffset: nat, p: nat, q: nat, n: nat, j: Junk)
    requires p <= q < |data| && q == AfterZeroes(data, p) && n == WindowLength(data, dataOffset, q)
    requires IsStretch(data, dataOffset, j) && p <= j.start < q + n
    ensures j.start == q
  {
    StretchInside(data, dataOffset, j);
    WindowIs(data, dataOffset, q);
    hide IsStretch, WindowLength, WindowFrom;
  }

  /** The scan of a chunk finds just its stretches of padding. */
  lemma ScanIs(data: seq<Byte>, dataOffset: nat, j: Junk)
    ensures j in Scan(data, dataOffset, 0) <==> IsStretch(data, dataOffset, j)
  {
    hide Scan, IsStretch;
    ScanFrom(data, dataOffset, 0, j);
  }

  // ---------- what is recorded ----------

  /** The record `r` is among them, and those before it go from `at` to `pos`. */
  predicate Comes(rs: seq<Record>, at: nat, pos: nat, r: Record)
    decreases |rs|
  {
    rs != [] && ((at == pos && rs[0] == r) || Comes(rs[1..], at + Length(rs[0]), pos, r))
  }

  lemma {:induction false} ComesLater(first: seq<Record>, rest: seq<Record>, at: nat, pos: nat, r: Record, next: nat)
    requires Comes(rest, next, pos, r) && next == at + Total(first)
    ensures Comes(first + rest, at, pos, r)
    decreases |first|
  {
    if first == [] {
      assert first + rest == rest;
    } else {
      assert (first + rest)[1..] == first[1..] + rest;
      ComesLater(first[1..], rest, at + Length(first[0]), pos, r, next);
    }
  }

  lemma {:induction false} ComesFirst(first: seq<Record>, rest: seq<Record>, at: nat, pos: nat, r: Record)
    requires Comes(first, at, pos, r)
    ensures Comes(first + rest, at, pos, r)
    decreases |first|
  {
    assert (first + rest)[1..] == first[1..] + rest;
    if !(at == pos && first[0] == r) {
      ComesFirst(first[1..], rest, at + Length(first[0]), pos, r);
    }
  }

  /** How many bytes records stand for. */
  function Total(rs: seq<Record>): nat {
    if rs == [] then 0 else Length(rs[0]) + Total(rs[1..])
  }

  /** Of stretches in order, the one picked is the first that reaches far enough, and so none after `k`. */
  lemma {:induction false} PickedBy(junk: seq<Junk>, current: nat, end: nat, k: nat) returns (i: nat)
    requires k < |junk| && Disjoint(junk) && Proper(junk)
    requires current + 68 < junk[k].end && junk[k].start + 68 < end && current + 68 < end
    ensures i <= k && Pick(junk, current, end) == Some(junk[i]) && current + 68 < junk[i].end
    decreases |junk|
  {
    assert junk[0] in junk && junk[k] in junk;
    if junk[0].end > current + 68 {
      i := 0;
      assert k > 0 ==> junk[0].end <= junk[k].start;
    } else {
      forall a, b | 0 <= a < b < |junk[1..]|
        ensures junk[1..][a].end <= junk[1..][b].start
      {
        assert junk[a + 1].end <= junk[b + 1].start;
      }
      var before := PickedBy(junk[1..], current, end, k - 1);
      i := before + 1;
    }
  }

  /** The records up to the end of the padding record. */
  lemma StepRecords(data: seq<Byte>, junk: seq<Junk>, current: nat, j: Junk)
    requires current < |data| && Proper(junk) && Pick(junk, current, |data|) == Some(j)
    requires current <= j.start < j.end <= |data|
    ensures PlanNext(data, junk, current) == j.end && Total(PlanStep(data, junk, current)) == j.end - current
    ensures Comes(PlanStep(data, junk, current), current, j.start, Padding(j.end - j.start, j.seed))
  {
    hide Pick;
    var pad := Padding(j.end - j.start, j.seed);
    if current < j.start {
      var literal := Literal(data[current..j.start]);
      assert PlanStep(data, junk, current) == [literal, pad];
      assert [literal, pad][1..] == [pad] && [pad][1..] == [];
      assert Total([literal, pad]) == Length(literal) + Total([pad]) && Total([pad]) == Length(pad);
    } else {
      assert PlanStep(data, junk, current) == [pad];
      assert [pad][1..] == [];
    }
  }

  /** Every stretch of more than 68 bytes that starts so much before the end is recorded, all of it, where it is. */
  lemma {:induction false} PlanRecords(data: seq<Byte>, junk: seq<Junk>, current: nat, k: nat)
    requires Disjoint(junk) && Proper(junk) && (forall j | j in junk :: j.end <= |data|) && k < |junk|
    requires current <= junk[k].start && junk[k].start + 68 < junk[k].end && junk[k].start + 68 < |data|
    requires forall i | 0 <= i < |junk| :: junk[i].end <= current || current <= junk[i].start
    ensures Comes(Plan(data, junk, current), current, junk[k].start,
                  Padding(junk[k].end - junk[k].start, junk[k].seed))
    decreases |data| - current
  {
    hide Pick, PlanStep, Comes, Total, PlanNext;
    var i := PickedBy(junk, current, |data|, k);
    var j := junk[i];
    assert j in junk;
    StepRecords(data, junk, current, j);
    var step, rest := PlanStep(data, junk, current), Plan(data, junk, j.end);
    var pad := Padding(junk[k].end - junk[k].start, junk[k].seed);
    assert Plan(data, junk, current) == step + rest by {
      PlanUnfolds(data, junk, current);
    }
    if i < k {
      PlanRecords(data, junk, j.end, k);
      ComesLater(step, rest, current, junk[k].start, pad, j.end);
    } else {
      ComesFirst(step, rest, current, junk[k].start, pad);
    }
  }

  lemma PlanUnfolds(data: seq<Byte>, junk: seq<Junk>, current: nat)
    requires current < |data| && Proper(junk)
    ensures Plan(data, junk, current)
         == PlanStep(data, junk, current) + Plan(data, junk, PlanNext(data, junk, current))
  {
    hide PlanStep, PlanNext;
  }

  /**
   Every stretch of padding of a chunk that is longer than a seed, and does not start within a seed's length of
   the chunk's end, is recorded: as one record, where it stands, for all its bytes.
   */
  lemma LongRecorded(data: seq<Byte>, dataOffset: nat, j: Junk)
    requires IsStretch(data, dataOffset, j) && j.start + 68 < j.end && j.start + 68 < |data|
    ensures Comes(Records(data, dataOffset), 0, j.start, Padding(j.end - j.start, j.seed))
  {
    hide IsStretch, Scan, Plan, Comes;
    ScanIs(data, dataOffset, j);
    ScanOrdered(data, dataOffset, 0);
    var junk := Scan(data, dataOffset, 0);
    var k :| 0 <= k < |junk| && junk[k] == j;
    var i := PickedBy(junk, 0, |data|, k);
    PlanRecords(data, junk, 0, k);
  }
}
