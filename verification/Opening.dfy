/** When a stored chunk opens, and as what; and what a raw region of any container decodes to. */
module Opening {
  import opened Results
  import opened Sizes
  import opened BigEndian
  import opened Format
  import opened Unpacking
  import opened Exceptions
  import opened Differing
  import opened Regions
  import Groups

  /** What was stored, inflated if it was compressed. */
  ghost predicate InflatesTo(c: Codec, chunk: Chunk, inflated: Bytes) {
    if chunk.compressed then c.decompress(chunk.bytes) == Ok(inflated) else inflated == chunk.bytes
  }

  predicate AllZero(data: Bytes) {
    forall x | 0 <= x < |data| :: data[x] == 0
  }

  // ---------- raw chunks ----------

  /** A chunk of nothing stands for zeroes; any other for its bytes, unpacked if they are packed. */
  ghost predicate RawOpensAs(c: Codec, chunk: Chunk, expected: nat, offset: nat, data: Bytes) {
    && |data| == expected
    && if chunk.size == 0 then AllZero(data)
       else exists inflated :: InflatesTo(c, chunk, inflated) &&
              if chunk.packedSize == 0 then data == inflated
              else Unpacked(inflated, expected, offset, chunk.packedSize) == Ok(data)
  }

  lemma RawOpensExactly(c: Codec, chunk: Chunk, expected: nat, offset: nat, data: Bytes)
    ensures RawData(c, chunk, expected, offset) == Ok(data) <==> RawOpensAs(c, chunk, expected, offset, data)
  {
    hide Unpacked;
    if chunk.size == 0 {
      if AllZero(data) && |data| == expected {
        assert data == Zeroes(expected);
      }
    } else if RawData(c, chunk, expected, offset) == Ok(data) {
      assert InflatesTo(c, chunk, Inflated(c, chunk).value);
    }
  }

  // ---------- a partition's chunks ----------

  /** Where the data begins: after the list, which is filled up to four bytes unless the chunk is compressed. */
  ghost predicate ListEnds(count: nat, compressed: bool, end: nat) {
    var size := 2 + 22 * count;
    if compressed then end == size else size <= end < size + 4 && end % 4 == 0
  }

  /** An entry of the list, which names a place inside the header of one of the chunk's blocks. */
  predicate EntryOf(inflated: Bytes, k: nat, blocks: nat, e: Exception) {
    && EntrySaid(inflated, 2 + 22 * k, e)
    && e.offset / 0x400 < blocks && e.offset % 0x400 + 20 <= 0x400
  }

  ghost predicate EntriesOf(inflated: Bytes, count: nat, blocks: nat, es: seq<Exception>) {
    |es| == count && forall k | 0 <= k < count :: EntryOf(inflated, k, blocks, es[k])
  }

  /** The data behind the list, unpacked if it is packed. */
  ghost predicate DataBehind(inflated: Bytes, end: nat, packedSize: nat, expected: nat, offset: nat, data: Bytes) {
    if packedSize == 0 then
      end + expected <= |inflated| && data == inflated[end..end + expected]
    else
      && end + packedSize <= |inflated|
      && Unpacked(inflated[end..end + packedSize], expected, offset, packedSize) == Ok(data)
  }

  /** A chunk of nothing stands for zeroes; any other for what its list and the data behind it say. */
  ghost predicate PartOpensAs(c: Codec, chunk: Chunk, expected: nat, offset: nat, content: Content) {
    if chunk.size == 0 then |content.data| == expected && AllZero(content.data) && content.exceptions == []
    else exists inflated, end: nat ::
           && InflatesTo(c, chunk, inflated) && 2 <= |inflated|
           && ListEnds(Number(inflated, 0, 2), chunk.compressed, end) && end <= |inflated|
           && DataBehind(inflated, end, chunk.packedSize, expected, offset, content.data)
           && EntriesOf(inflated, Number(inflated, 0, 2), expected / 0x7c00, content.exceptions)
  }

  lemma EntryIs(inflated: Bytes, k: nat, blocks: nat, e: Exception)
    requires 2 + 22 * (k + 1) <= |inflated|
    ensures EntryOf(inflated, k, blocks, e)
       <==> e == ExceptionAt(inflated, k) && Storable(ExceptionAt(inflated, k), blocks)
  {
    hide Get16, Number;
    Number16(inflated, 2 + 22 * k);
  }

  /** The entries from `k` on are read just as they are written. */
  lemma {:induction false} EntriesRead(inflated: Bytes, count: nat, blocks: nat, k: nat, es: seq<Exception>)
    requires k <= count && 2 + 22 * count <= |inflated|
    ensures ParseExceptions(inflated, count, blocks, k) == Ok(es)
       <==> |es| == count - k && forall i | 0 <= i < |es| :: EntryOf(inflated, k + i, blocks, es[i])
    decreases count - k
  {
    hide EntryOf, ExceptionAt, Storable;
    if k < count {
      var first := ExceptionAt(inflated, k);
      if es == [] {
        EntriesRead(inflated, count, blocks, k + 1, []);
      } else {
        EntriesRead(inflated, count, blocks, k + 1, es[1..]);
        EntryIs(inflated, k, blocks, es[0]);
        assert es == [es[0]] + es[1..];
        var r := ParseExceptions(inflated, count, blocks, k);
        if forall i | 0 <= i < |es| :: EntryOf(inflated, k + i, blocks, es[i]) {
          forall i | 0 <= i < |es[1..]|
            ensures EntryOf(inflated, k + 1 + i, blocks, es[1..][i])
          {
            assert EntryOf(inflated, k + (i + 1), blocks, es[i + 1]);
          }
        }
        if r == Ok(es) {
          forall i | 0 <= i < |es|
            ensures EntryOf(inflated, k + i, blocks, es[i])
          {
            if i > 0 {
              assert EntryOf(inflated, k + 1 + (i - 1), blocks, es[1..][i - 1]);
            }
          }
        }
      }
    }
  }

  lemma AllEntries(inflated: Bytes, count: nat, blocks: nat, es: seq<Exception>)
    requires 2 + 22 * count <= |inflated|
    ensures ParseExceptions(inflated, count, blocks, 0) == Ok(es) <==> EntriesOf(inflated, count, blocks, es)
  {
    hide EntryOf, ParseExceptions;
    EntriesRead(inflated, count, blocks, 0, es);
    assert forall k | 0 <= k < |es| :: EntryOf(inflated, 0 + k, blocks, es[k]) <==> EntryOf(inflated, k, blocks, es[k]);
  }

  lemma EndIs(count: nat, compressed: bool, end: nat)
    ensures ListEnds(count, compressed, end) <==> end == ListSize(count, compressed)
  {
    NextFour(2 + 22 * count, end);
    hide Align4;
  }

  lemma NextFour(n: nat, end: nat)
    ensures n <= end < n + 4 && end % 4 == 0 <==> end == Align4(n)
  {
    if n <= end < n + 4 && end % 4 == 0 {
      assert (n + 3) / 4 == end / 4;
    }
  }

  lemma DataIs(inflated: Bytes, end: nat, packedSize: nat, expected: nat, offset: nat, data: Bytes)
    requires end + packedSize <= |inflated|
    ensures MainData(inflated, end, packedSize, expected, offset) == Ok(data)
       <==> DataBehind(inflated, end, packedSize, expected, offset, data)
  {
    hide Unpacked;
  }

  /** What opening does, in terms of the list's end. */
  lemma OpenedIs(inflated: Bytes, chunk: Chunk, expected: nat, offset: nat, count: nat, end: nat)
    requires 2 <= |inflated| && count == Get16(inflated, 0) && end == ListSize(count, chunk.compressed)
    requires 2 + 22 * count <= end
    ensures Opened(inflated, chunk, expected, offset)
         == if end + chunk.packedSize > |inflated| then Err(BadRecord)
            else match MainData(inflated, end, chunk.packedSize, expected, offset)
                 case Err(error) => Err(error)
                 case Ok(data) =>
                   match ParseExceptions(inflated, count, expected / BLOCK_DATA_SIZE, 0)
                   case Err(error) => Err(error)
                   case Ok(es) => Ok(Content(data, es))
  {
    hide Get16, MainData, ParseExceptions, ListSize;
  }

  lemma OpenedExactly(inflated: Bytes, chunk: Chunk, expected: nat, offset: nat, content: Content)
    requires 2 <= |inflated|
    ensures var count := Number(inflated, 0, 2);
            var end := ListSize(count, chunk.compressed);
            Opened(inflated, chunk, expected, offset) == Ok(content) <==>
              && end <= |inflated| && DataBehind(inflated, end, chunk.packedSize, expected, offset, content.data)
              && EntriesOf(inflated, count, expected / 0x7c00, content.exceptions)
  {
    hide Get16, Number, MainData, DataBehind, EntriesOf, ParseExceptions, Opened, ListSize;
    Number16(inflated, 0);
    var count := Get16(inflated, 0);
    var end := ListSize(count, chunk.compressed);
    AtLeastList(count, chunk.compressed);
    OpenedIs(inflated, chunk, expected, offset, count, end);
    if end + chunk.packedSize <= |inflated| {
      DataIs(inflated, end, chunk.packedSize, expected, offset, content.data);
      AllEntries(inflated, count, expected / 0x7c00, content.exceptions);
    } else {
      BehindFits(inflated, end, chunk.packedSize, expected, offset, content.data);
    }
  }

  lemma AtLeastList(count: nat, compressed: bool)
    ensures 2 + 22 * count <= ListSize(count, compressed)
  {}

  lemma BehindFits(inflated: Bytes, end: nat, packedSize: nat, expected: nat, offset: nat, data: Bytes)
    ensures end <= |inflated| && DataBehind(inflated, end, packedSize, expected, offset, data) ==>
              end + packedSize <= |inflated|
  {
    hide Unpacked;
  }

  /** A partition's chunk opens exactly as said. */
  lemma PartOpensExactly(c: Codec, chunk: Chunk, expected: nat, offset: nat, content: Content)
    ensures PartContent(c, chunk, expected, offset) == Ok(content) <==> PartOpensAs(c, chunk, expected, offset, content)
  {
    hide Opened, Number, DataBehind, EntriesOf, ListEnds, ListSize;
    if chunk.size == 0 {
      if AllZero(content.data) && |content.data| == expected {
        assert content.data == Zeroes(expected);
      }
    } else {
      var r := Inflated(c, chunk);
      if r.Ok? && 2 <= |r.value| {
        OpenedExactly(r.value, chunk, expected, offset, content);
        EndIs(Number(r.value, 0, 2), chunk.compressed, ListSize(Number(r.value, 0, 2), chunk.compressed));
        assert InflatesTo(c, chunk, r.value);
      } else if r.Ok? {
        assert Opened(r.value, chunk, expected, offset).Err? by {
          TooShort(r.value, chunk, expected, offset);
        }
      }
      if PartOpensAs(c, chunk, expected, offset, content) {
        var inflated, end: nat :| InflatesTo(c, chunk, inflated) && 2 <= |inflated|
          && ListEnds(Number(inflated, 0, 2), chunk.compressed, end) && end <= |inflated|
          && DataBehind(inflated, end, chunk.packedSize, expected, offset, content.data)
          && EntriesOf(inflated, Number(inflated, 0, 2), expected / 0x7c00, content.exceptions);
        EndIs(Number(inflated, 0, 2), chunk.compressed, end);
        OpenedExactly(inflated, chunk, expected, offset, content);
      }
    }
  }

  lemma TooShort(inflated: Bytes, chunk: Chunk, expected: nat, offset: nat)
    requires |inflated| < 2
    ensures Opened(inflated, chunk, expected, offset).Err?
  {}

  // ---------- raw regions of any container ----------

  /** Where chunk `i` of a raw region goes, and how many bytes it has. */
  function ChunkFrom(e: RawEntry, chunkSize: nat, i: nat): nat {
    AlignDown(e.offset, BLOCK_TOTAL_SIZE) + i * chunkSize
  }

  function ChunkLength(e: RawEntry, chunkSize: nat, i: nat): nat {
    var end, from := e.offset + e.size, ChunkFrom(e, chunkSize, i);
    if from + chunkSize <= end then chunkSize else if from <= end then end - from else 0
  }

  ghost predicate ChunkOpensAs(c: Codec, e: RawEntry, chunkSize: nat, chunks: seq<Chunk>, i: nat, data: Bytes) {
    && e.group + i < |chunks|
    && RawOpensAs(c, chunks[e.group + i], ChunkLength(e, chunkSize, i), ChunkFrom(e, chunkSize, i), data)
  }

  ghost predicate ChunkOpens(c: Codec, e: RawEntry, chunkSize: nat, chunks: seq<Chunk>, i: nat) {
    exists data :: ChunkOpensAs(c, e, chunkSize, chunks, i, data)
  }

  ghost predicate AllOpen(c: Codec, e: RawEntry, chunkSize: nat, chunks: seq<Chunk>, i: nat) {
    forall k | i <= k < e.groups :: ChunkOpens(c, e, chunkSize, chunks, k)
  }

  /** The region has as many chunks as it needs. */
  predicate JustEnough(e: RawEntry, chunkSize: nat) {
    0 < chunkSize && 0 < e.size && e.groups == DivCeil(e.size + e.offset % BLOCK_TOTAL_SIZE, chunkSize)
  }

  lemma ChunkEnds(e: RawEntry, chunkSize: nat, i: nat)
    requires JustEnough(e, chunkSize) && i < e.groups
    ensures var end := ChunkFrom(e, chunkSize, i) + ChunkLength(e, chunkSize, i);
            && 0 < ChunkLength(e, chunkSize, i)
            && end == if i + 1 == e.groups then e.offset + e.size else ChunkFrom(e, chunkSize, i + 1)
  {
    var whole := e.size + e.offset % BLOCK_TOTAL_SIZE;
    Groups.CeilBounds(whole, chunkSize);
    hide DivCeil;
    assert e.groups * chunkSize == (e.groups - 1) * chunkSize + chunkSize;
    assert (i + 1) * chunkSize == i * chunkSize + chunkSize;
    Groups.TimesOrder(i, e.groups - 1, chunkSize);
    if i + 1 < e.groups {
      Groups.TimesOrder(i + 1, e.groups - 1, chunkSize);
    }
  }

  /** A chunk's step, in the region's own numbers. */
  lemma RawStepIs(c: Codec, e: RawEntry, chunkSize: nat, chunks: seq<Chunk>, i: nat)
    requires 0 < ChunkLength(e, chunkSize, i)
    ensures var n, at := ChunkLength(e, chunkSize, i), ChunkFrom(e, chunkSize, i);
            RawStep(c, e, chunkSize, chunks, i)
              == if |chunks| <= e.group + i then Err(MissingGroup)
                 else match RawData(c, chunks[e.group + i], n, at)
                      case Err(error) => Err(error)
                      case Ok(data) => Ok(Write(at, data))
  {
    hide RawData;
  }

  /** A chunk's step writes what the chunk opens as, if it opens. */
  lemma RawStepExactly(c: Codec, e: RawEntry, chunkSize: nat, chunks: seq<Chunk>, i: nat)
    requires JustEnough(e, chunkSize) && i < e.groups
    ensures var r := RawStep(c, e, chunkSize, chunks, i);
            && (r.Ok? <==> ChunkOpens(c, e, chunkSize, chunks, i))
            && (r.Ok? ==>
                  && r.value.offset == ChunkFrom(e, chunkSize, i) && |r.value.data| == ChunkLength(e, chunkSize, i)
                  && ChunkOpensAs(c, e, chunkSize, chunks, i, r.value.data))
  {
    hide RawData, RawOpensAs, RawStep, JustEnough, ChunkFrom, ChunkLength;
    ChunkEnds(e, chunkSize, i);
    RawStepIs(c, e, chunkSize, chunks, i);
    if e.group + i < |chunks| {
      var chunk, n, at := chunks[e.group + i], ChunkLength(e, chunkSize, i), ChunkFrom(e, chunkSize, i);
      var r := RawData(c, chunk, n, at);
      if r.Ok? {
        RawOpensExactly(c, chunk, n, at, r.value);
        assert ChunkOpensAs(c, e, chunkSize, chunks, i, r.value);
      }
      if data :| ChunkOpensAs(c, e, chunkSize, chunks, i, data) {
        RawOpensExactly(c, chunk, n, at, data);
      }
    }
  }

  /** The writes are what the chunks from `i` on open as, each where its chunk goes. */
  ghost predicate WritesFrom(c: Codec, e: RawEntry, chunkSize: nat, chunks: seq<Chunk>, i: nat, writes: seq<Write>) {
    && i <= e.groups && |writes| == e.groups - i
    && forall k | 0 <= k < |writes| ::
         && writes[k].offset == ChunkFrom(e, chunkSize, i + k)
         && ChunkOpensAs(c, e, chunkSize, chunks, i + k, writes[k].data)
  }

  lemma {:induction false} RawRunExactly(c: Codec, e: RawEntry, chunkSize: nat, chunks: seq<Chunk>, i: nat)
    requires JustEnough(e, chunkSize) && i < e.groups
    ensures var run := RawRun(c, e, chunkSize, chunks, i);
            && (run.failure == None <==> AllOpen(c, e, chunkSize, chunks, i))
            && (run.failure == None ==>
                  && WritesFrom(c, e, chunkSize, chunks, i, run.writes)
                  && Consecutive(run.writes, ChunkFrom(e, chunkSize, i), e.offset + e.size))
    decreases e.groups - i
  {
    hide RawStep, ChunkOpens, ChunkOpensAs, ChunkFrom, ChunkLength, JustEnough;
    RawStepExactly(c, e, chunkSize, chunks, i);
    ChunkEnds(e, chunkSize, i);
    var r := RawStep(c, e, chunkSize, chunks, i);
    if i + 1 < e.groups {
      RawRunExactly(c, e, chunkSize, chunks, i + 1);
      OpenFrom(c, e, chunkSize, chunks, i);
      if r.Ok? && RawRun(c, e, chunkSize, chunks, i + 1).failure == None {
        FirstWrite(c, e, chunkSize, chunks, i, r.value, RawRun(c, e, chunkSize, chunks, i + 1).writes);
      }
    } else if r.Ok? {
      LastRun(c, e, chunkSize, chunks);
      assert [r.value] + [] == [r.value];
      Groups.OneWrite(r.value);
    }
  }

  lemma LastRun(c: Codec, e: RawEntry, chunkSize: nat, chunks: seq<Chunk>)
    ensures RawRun(c, e, chunkSize, chunks, e.groups) == Run([], None)
  {}

  lemma OpenFrom(c: Codec, e: RawEntry, chunkSize: nat, chunks: seq<Chunk>, i: nat)
    requires i < e.groups
    ensures AllOpen(c, e, chunkSize, chunks, i)
       <==> ChunkOpens(c, e, chunkSize, chunks, i) && AllOpen(c, e, chunkSize, chunks, i + 1)
  {
    hide ChunkOpens;
  }

  lemma FirstWrite(c: Codec, e: RawEntry, chunkSize: nat, chunks: seq<Chunk>, i: nat, w: Write, rest: seq<Write>)
    requires i < e.groups && WritesFrom(c, e, chunkSize, chunks, i + 1, rest)
    requires w.offset == ChunkFrom(e, chunkSize, i) && ChunkOpensAs(c, e, chunkSize, chunks, i, w.data)
    ensures WritesFrom(c, e, chunkSize, chunks, i, [w] + rest)
  {
    hide ChunkOpensAs, ChunkFrom;
    var all := [w] + rest;
    forall k | 0 <= k < |all|
      ensures all[k].offset == ChunkFrom(e, chunkSize, i + k)
      ensures ChunkOpensAs(c, e, chunkSize, chunks, i + k, all[k].data)
    {
      if k > 0 {
        assert all[k] == rest[k - 1] && i + k == i + 1 + (k - 1);
      }
    }
  }

  /**
   A raw region of any container decodes exactly when each of its chunks opens; then each is written where it
   goes, and together they follow each other from the start of the region's first block to its end.
   */
  lemma RawRegionDecodes(c: Codec, e: RawEntry, chunkSize: nat, chunks: seq<Chunk>)
    requires JustEnough(e, chunkSize)
    ensures var run := RegionRun(c, chunkSize, chunks, Raw(e), true);
            && (run.failure == None <==> AllOpen(c, e, chunkSize, chunks, 0))
            && (run.failure == None ==>
                  && WritesFrom(c, e, chunkSize, chunks, 0, run.writes)
                  && Consecutive(run.writes, AlignDown(e.offset, BLOCK_TOTAL_SIZE), e.offset + e.size))
  {
    hide RawRun, AllOpen, WritesFrom, Consecutive, DivCeil, AlignDown;
    Groups.CeilBounds(e.size + e.offset % BLOCK_TOTAL_SIZE, chunkSize);
    RawRunExactly(c, e, chunkSize, chunks, 0);
    assert ChunkFrom(e, chunkSize, 0) == AlignDown(e.offset, BLOCK_TOTAL_SIZE);
  }

  // ---------- where decoding stops ----------

  /** Writes of the chunks from `i` on, one after another, as far as there are any. */
  ghost predicate SomeWrites(c: Codec, e: RawEntry, chunkSize: nat, chunks: seq<Chunk>, i: nat, writes: seq<Write>) {
    forall k | 0 <= k < |writes| ::
      && writes[k].offset == ChunkFrom(e, chunkSize, i + k)
      && ChunkOpensAs(c, e, chunkSize, chunks, i + k, writes[k].data)
  }

  lemma MoreWrites(c: Codec, e: RawEntry, chunkSize: nat, chunks: seq<Chunk>, i: nat, w: Write, rest: seq<Write>)
    requires SomeWrites(c, e, chunkSize, chunks, i + 1, rest)
    requires w.offset == ChunkFrom(e, chunkSize, i) && ChunkOpensAs(c, e, chunkSize, chunks, i, w.data)
    ensures SomeWrites(c, e, chunkSize, chunks, i, [w] + rest)
  {
    hide ChunkOpensAs, ChunkFrom;
    var all := [w] + rest;
    forall k | 0 <= k < |all|
      ensures all[k].offset == ChunkFrom(e, chunkSize, i + k)
      ensures ChunkOpensAs(c, e, chunkSize, chunks, i + k, all[k].data)
    {
      if k > 0 {
        assert all[k] == rest[k - 1] && i + k == i + 1 + (k - 1);
      }
    }
  }

  /** A raw region stops at the first chunk that does not open, having written those before it. */
  lemma {:induction false} RawRunStops(c: Codec, e: RawEntry, chunkSize: nat, chunks: seq<Chunk>, i: nat, k: nat)
    requires JustEnough(e, chunkSize) && i <= k < e.groups && !ChunkOpens(c, e, chunkSize, chunks, k)
    requires forall a | i <= a < k :: ChunkOpens(c, e, chunkSize, chunks, a)
    ensures var run := RawRun(c, e, chunkSize, chunks, i);
            run.failure.Some? && |run.writes| == k - i && SomeWrites(c, e, chunkSize, chunks, i, run.writes)
    decreases k - i
  {
    hide RawStep, ChunkOpens, ChunkOpensAs, ChunkFrom, ChunkLength, JustEnough;
    RawStepExactly(c, e, chunkSize, chunks, i);
    if i < k {
      RawRunStops(c, e, chunkSize, chunks, i + 1, k);
      var w := RawStep(c, e, chunkSize, chunks, i).value;
      MoreWrites(c, e, chunkSize, chunks, i, w, RawRun(c, e, chunkSize, chunks, i + 1).writes);
    }
  }

  /** What the first `n` regions write. */
  ghost function WritesOf(c: Codec, chunkSize: nat, chunks: seq<Chunk>, rs: seq<Region>, n: nat): seq<Write>
    requires n <= |rs|
  {
    if n == 0 then []
    else WritesOf(c, chunkSize, chunks, rs, n - 1) + RegionRun(c, chunkSize, chunks, rs[n - 1], true).writes
  }

  lemma {:induction false} WritesFirst(c: Codec, chunkSize: nat, chunks: seq<Chunk>, rs: seq<Region>, n: nat)
    requires 0 < n <= |rs|
    ensures WritesOf(c, chunkSize, chunks, rs, n)
         == RegionRun(c, chunkSize, chunks, rs[0], true).writes + WritesOf(c, chunkSize, chunks, rs[1..], n - 1)
  {
    hide RegionRun;
    if n == 1 {
      assert WritesOf(c, chunkSize, chunks, rs, 0) == [] && WritesOf(c, chunkSize, chunks, rs[1..], 0) == [];
    } else {
      WritesFirst(c, chunkSize, chunks, rs, n - 1);
      assert rs[1..][n - 2] == rs[n - 1];
      JoinedThree(RegionRun(c, chunkSize, chunks, rs[0], true).writes, WritesOf(c, chunkSize, chunks, rs[1..], n - 2),
        RegionRun(c, chunkSize, chunks, rs[n - 1], true).writes);
    }
  }

  lemma JoinedThree(a: seq<Write>, b: seq<Write>, d: seq<Write>)
    ensures (a + b) + d == a + (b + d)
  {}

  /** Regions are decoded one after another, up to the first that fails, whose writes up to there are the last. */
  lemma {:induction false} RegionsStop(c: Codec, chunkSize: nat, chunks: seq<Chunk>, rs: seq<Region>, k: nat)
    requires k < |rs| && RegionRun(c, chunkSize, chunks, rs[k], true).failure.Some?
    requires forall i | 0 <= i < k :: RegionRun(c, chunkSize, chunks, rs[i], true).failure == None
    ensures var run := RegionsRun(c, chunkSize, chunks, rs, true);
            && run.failure == RegionRun(c, chunkSize, chunks, rs[k], true).failure
            && run.writes == WritesOf(c, chunkSize, chunks, rs, k + 1)
    decreases k
  {
    hide RegionRun;
    WritesFirst(c, chunkSize, chunks, rs, k + 1);
    if k > 0 {
      assert rs[1..][k - 1] == rs[k] && forall i | 0 <= i < k - 1 :: rs[1..][i] == rs[i + 1];
      RegionsStop(c, chunkSize, chunks, rs[1..], k - 1);
    } else {
      var first := RegionRun(c, chunkSize, chunks, rs[0], true).writes;
      assert WritesOf(c, chunkSize, chunks, rs[1..], 0) == [] && first + [] == first;
    }
  }

  /** If none fails, all are decoded. */
  lemma {:induction false} RegionsAll(c: Codec, chunkSize: nat, chunks: seq<Chunk>, rs: seq<Region>)
    requires forall i | 0 <= i < |rs| :: RegionRun(c, chunkSize, chunks, rs[i], true).failure == None
    ensures RegionsRun(c, chunkSize, chunks, rs, true) == Run(WritesOf(c, chunkSize, chunks, rs, |rs|), None)
    decreases |rs|
  {
    hide RegionRun;
    if rs != [] {
      assert forall i | 0 <= i < |rs[1..]| :: rs[1..][i] == rs[i + 1];
      RegionsAll(c, chunkSize, chunks, rs[1..]);
      WritesFirst(c, chunkSize, chunks, rs, |rs|);
    }
  }
}
