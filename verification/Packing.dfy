/** Replacing stretches of padding in a chunk by the records that regenerate them. */
module Packing {
  import opened Words
  import opened Sizes
  import opened BigEndian
  import opened PaddingStream
  import opened Generator
  import opened Unpacking
  import opened Results

  /** A stretch of padding found in a chunk. */
  datatype Junk = Junk(start: nat, end: nat, seed: Seed)

  /** No stretch is empty, or longer than a window. */
  predicate Proper(junk: seq<Junk>) {
    forall j | j in junk :: j.start < j.end <= j.start + BLOCK_TOTAL_SIZE
  }

  // ---------- finding padding ----------

  /** The first position from `p` on that holds a nonzero byte, or the end. */
  function AfterZeroes(data: seq<Byte>, p: nat): (q: nat)
    requires p <= |data|
    ensures p <= q <= |data|
    ensures forall i | p <= i < q :: data[i] == 0
    ensures q < |data| ==> data[q] != 0
    decreases |data| - p
  {
    if p < |data| && data[p] == 0 then AfterZeroes(data, p + 1) else p
  }

  /** How far the window that starts at `q` reaches: to the next window boundary of the disc, or the end. */
  function WindowLength(data: seq<Byte>, dataOffset: nat, q: nat): (n: nat)
    requires q <= |data|
    ensures q + n <= |data| && (q < |data| ==> n > 0)
    ensures InWindow(dataOffset + q) + n <= BLOCK_TOTAL_SIZE
  {
    var toBoundary := BLOCK_TOTAL_SIZE - InWindow(dataOffset + q);
    if toBoundary < |data| - q then toBoundary else |data| - q
  }

  /** The padding at the start of the window `[q, q + n)`, if any. */
  ghost function JunkIn(data: seq<Byte>, dataOffset: nat, q: nat, n: nat): (junk: seq<Junk>)
    requires q + n <= |data|
    ensures |junk| <= 1 && forall j | j in junk :: q == j.start < j.end <= q + n
  {
    var window, d := data[q..q + n], InWindow(dataOffset + q);
    var found := Detect(window, d);
    if !found.Found? then []
    else
      var count := MatchLength(window, Swapped(found.seed), Phase(d));
      if count > 0 then [Junk(q, q + count, found.seed)] else []
  }

  /** The padding found from position `p` on. */
  ghost function Scan(data: seq<Byte>, dataOffset: nat, p: nat): seq<Junk>
    requires p <= |data|
    decreases |data| - p
  {
    if p >= |data| then []
    else
      var q := AfterZeroes(data, p);
      var n := WindowLength(data, dataOffset, q);
      JunkIn(data, dataOffset, q, n) + Scan(data, dataOffset, q + n)
  }

  /** The positions at which the scan starts a window. */
  ghost function WindowStarts(data: seq<Byte>, dataOffset: nat, p: nat): seq<nat>
    requires p <= |data|
    decreases |data| - p
  {
    if p >= |data| then []
    else
      var q := AfterZeroes(data, p);
      [q] + WindowStarts(data, dataOffset, q + WindowLength(data, dataOffset, q))
  }

  // ---------- planning records ----------

  /** The first stretch that reaches more than a seed's length beyond `current`, unless it starts too near the end. */
  function Pick(junk: seq<Junk>, current: nat, end: nat): Option<Junk> {
    if end <= current + LFG_SEED_BYTES || junk == [] then None
    else if junk[0].end > current + LFG_SEED_BYTES then
      if junk[0].start + LFG_SEED_BYTES < end then Some(junk[0]) else None
    else Pick(junk[1..], current, end)
  }

  /** The records up to the end of the next padding record, or of the chunk. */
  function PlanStep(data: seq<Byte>, junk: seq<Junk>, current: nat): seq<Record>
    requires current < |data| && Proper(junk)
  {
    var picked := Pick(junk, current, |data|);
    if picked.None? then [Literal(data[current..])]
    else
      PickedFits(junk, current, |data|);
      var start, end := Max(current, picked.value.start), Min(|data|, picked.value.end);
      (if start > current then [Literal(data[current..start])] else []) + [Padding(end - start, picked.value.seed)]
  }

  /** Where those records end. */
  function PlanNext(data: seq<Byte>, junk: seq<Junk>, current: nat): (next: nat)
    requires current < |data|
    ensures current < next <= |data|
  {
    var picked := Pick(junk, current, |data|);
    if picked.None? then |data|
    else
      PickedFits(junk, current, |data|);
      Min(|data|, picked.value.end)
  }

  /** The records for `data[current..]`. */
  function Plan(data: seq<Byte>, junk: seq<Junk>, current: nat): seq<Record>
    requires current <= |data| && Proper(junk)
    decreases |data| - current
  {
    if current >= |data| then []
    else PlanStep(data, junk, current) + Plan(data, junk, PlanNext(data, junk, current))
  }

  lemma PickedFits(junk: seq<Junk>, current: nat, end: nat)
    requires Pick(junk, current, end).Some?
    ensures var j := Pick(junk, current, end).value;
            && j in junk && current + LFG_SEED_BYTES < j.end && j.start + LFG_SEED_BYTES < end
            && current + LFG_SEED_BYTES < end
  {}

  lemma {:induction false} PlanRecordable(data: seq<Byte>, junk: seq<Junk>, current: nat)
    requires current <= |data| && Proper(junk)
    ensures AllRecordable(Plan(data, junk, current))
    decreases |data| - current
  {
    if current < |data| {
      if Pick(junk, current, |data|).Some? {
        PickedFits(junk, current, |data|);
      }
      PlanRecordable(data, junk, PlanNext(data, junk, current));
    }
  }

  /** In a chunk below 2 GiB no literal is too long to read back. */
  lemma {:induction false} PlanReadable(data: seq<Byte>, junk: seq<Junk>, current: nat)
    requires current <= |data| < JUNK_FLAG && Proper(junk)
    ensures AllReadable(Plan(data, junk, current))
    decreases |data| - current
  {
    if current < |data| {
      if Pick(junk, current, |data|).Some? {
        PickedFits(junk, current, |data|);
      }
      PlanReadable(data, junk, PlanNext(data, junk, current));
    }
  }

  /** The stretches found are in order and do not overlap. */
  lemma {:induction false} ScanOrdered(data: seq<Byte>, dataOffset: nat, p: nat)
    requires p <= |data|
    ensures forall j | j in Scan(data, dataOffset, p) :: p <= j.start < j.end <= |data|
    ensures Disjoint(Scan(data, dataOffset, p)) && Proper(Scan(data, dataOffset, p))
    decreases |data| - p
  {
    hide JunkIn;
    if p < |data| {
      var q := AfterZeroes(data, p);
      var n := WindowLength(data, dataOffset, q);
      ScanOrdered(data, dataOffset, q + n);
      DisjointJoin(JunkIn(data, dataOffset, q, n), Scan(data, dataOffset, q + n), q + n);
    }
  }

  lemma DisjointJoin(first: seq<Junk>, rest: seq<Junk>, at: nat)
    requires |first| <= 1 && Disjoint(rest)
    requires (forall j | j in first :: j.end <= at) && forall j | j in rest :: at <= j.start
    ensures Disjoint(first + rest)
  {
    forall a: nat, b: nat | a < b < |first + rest|
      ensures (first + rest)[a].end <= (first + rest)[b].start
    {
      assert (first + rest)[b] in rest;
      if a >= |first| {
        assert rest[a - |first|].end <= rest[b - |first|].start;
      } else {
        assert (first + rest)[a] in first;
      }
    }
  }

  predicate Disjoint(junk: seq<Junk>) {
    forall a, b | 0 <= a < b < |junk| :: junk[a].end <= junk[b].start
  }

  /** The records a chunk is packed into; none if no padding is worth recording. */
  ghost function Records(data: seq<Byte>, dataOffset: nat): seq<Record> {
    ScanOrdered(data, dataOffset, 0);
    var junk := Scan(data, dataOffset, 0);
    if Pick(junk, 0, |data|).None? then [] else Plan(data, junk, 0)
  }

  /** A chunk and its packed size as they are stored. */
  datatype Packed = Packed(mainData: seq<Byte>, packedSize: nat)

  ghost function PackedChunk(data: seq<Byte>, dataOffset: nat): Packed {
    ScanOrdered(data, dataOffset, 0);
    PlanRecordable(data, Scan(data, dataOffset, 0), 0);
    var rs := Records(data, dataOffset);
    if rs == [] then Packed(data, 0) else Packed(Serialized(rs), |Serialized(rs)|)
  }

  method ScanForJunk(data: seq<Byte>, dataOffset: nat) returns (junkInfo: seq<Junk>)
    ensures junkInfo == Scan(data, dataOffset, 0)
  {
    hide JunkIn, Scan;
    junkInfo := [];
    var position, scanOffset := 0, dataOffset;
    while position < |data|
      invariant position <= |data| && scanOffset == dataOffset + position
      invariant junkInfo + Scan(data, dataOffset, position) == Scan(data, dataOffset, 0)
    {
      ghost var p := position;
      var zeroes := CountZeroes(data, position);
      position := position + zeroes;
      scanOffset := scanOffset + zeroes;
      var alignedNext := scanOffset + (BLOCK_TOTAL_SIZE - scanOffset % BLOCK_TOTAL_SIZE);
      var bytesToRead := Min(alignedNext - scanOffset, |data| - position);
      var found := DetectJunk(data, dataOffset, position, bytesToRead);
      ScanStep(data, dataOffset, p, position, bytesToRead);
      junkInfo := junkInfo + found;
      position := position + bytesToRead;
      scanOffset := scanOffset + bytesToRead;
    }
    assert Scan(data, dataOffset, position) == [] by {
      ScanEnd(data, dataOffset);
    }
  }

  lemma ScanStep(data: seq<Byte>, dataOffset: nat, p: nat, q: nat, n: nat)
    requires p < |data| && q == AfterZeroes(data, p) && n == WindowLength(data, dataOffset, q)
    ensures Scan(data, dataOffset, p) == JunkIn(data, dataOffset, q, n) + Scan(data, dataOffset, q + n)
  {
    hide JunkIn, AfterZeroes, WindowLength;
  }

  lemma ScanEnd(data: seq<Byte>, dataOffset: nat)
    ensures Scan(data, dataOffset, |data|) == []
  {}

  method CountZeroes(data: seq<Byte>, position: nat) returns (zeroes: nat)
    requires position <= |data|
    ensures position + zeroes == AfterZeroes(data, position)
  {
    zeroes := 0;
    while position + zeroes < |data| && data[position + zeroes] == 0
      invariant position + zeroes <= |data|
      invariant AfterZeroes(data, position + zeroes) == AfterZeroes(data, position)
    {
      zeroes := zeroes + 1;
    }
  }

  method DetectJunk(data: seq<Byte>, dataOffset: nat, position: nat, bytesToRead: nat) returns (found: seq<Junk>)
    requires position + bytesToRead <= |data|
    ensures found == JunkIn(data, dataOffset, position, bytesToRead)
  {
    hide Detect, MatchFrom, Phase, Swapped;
    var lfg := new LaggedFibonacciGenerator();
    var window := data[position..position + bytesToRead];
    assert window[..bytesToRead] == window;
    var count, seed := lfg.GetSeed(window, bytesToRead, InWindow(dataOffset + position));
    found := [];
    if count > 0 && seed.Some? {
      found := [Junk(position, position + count, seed.value)];
    }
  }

  /** Packs a chunk that lies at `dataOffset` on the disc. */
  method RvzPackChunk(data: seq<Byte>, dataOffset: nat) returns (mainData: seq<Byte>, packedSize: nat)
    ensures Packed(mainData, packedSize) == PackedChunk(data, dataOffset)
  {
    hide Scan, Plan, Serialized, Pick;
    var junkInfo := ScanForJunk(data, dataOffset);
    ScanOrdered(data, dataOffset, 0);
    PlanRecordable(data, junkInfo, 0);
    mainData, packedSize := EmitRecords(data, junkInfo);
  }

  /** Adds a literal record: its length, then its bytes. */
  method WriteLiteral(parts: seq<Byte>, literal: seq<Byte>, ghost rs: seq<Record>) returns (more: seq<Byte>)
    requires literal != [] && AllRecordable(rs) && parts == Serialized(rs)
    ensures AllRecordable(rs + [Literal(literal)]) && more == Serialized(rs + [Literal(literal)])
    ensures |more| == |parts| + 4 + |literal|
  {
    hide Be32, Serialized, SerializedRecord;
    SerializedAppend(rs, Literal(literal));
    SerializedLiteral(literal);
    more := parts + (Be32(|literal| % U32) + literal);
  }

  /** Adds a padding record: its length with bit 31 set, then its seed. */
  method WritePadding(parts: seq<Byte>, length: nat, seed: Seed, ghost rs: seq<Record>) returns (more: seq<Byte>)
    requires 0 < length < JUNK_FLAG && AllRecordable(rs) && parts == Serialized(rs)
    ensures AllRecordable(rs + [Padding(length, seed)]) && more == Serialized(rs + [Padding(length, seed)])
    ensures |more| == |parts| + 4 + LFG_SEED_BYTES
  {
    hide Be32, Serialized, SerializedRecord, EncodedSeed;
    SerializedAppend(rs, Padding(length, seed));
    SerializedPadding(length, seed);
    var seedBytes := SeedBytes(seed);
    more := parts + (Be32(length + JUNK_FLAG) + seedBytes[..]);
  }

  /** Adds the records up to the end of the next padding record, or of the chunk. */
  method EmitStep(data: seq<Byte>, ghost junkInfo: seq<Junk>, currentOffset: nat, junk: Option<Junk>,
      nextJunkStart: nat, nextJunkEnd: nat, sofar: seq<Byte>, ghost rs: seq<Record>)
    returns (parts: seq<Byte>, reached: nat, added: nat)
    requires currentOffset < |data| && Proper(junkInfo) && junk == Pick(junkInfo, currentOffset, |data|)
    requires nextJunkStart == if junk.None? then |data| else Max(currentOffset, junk.value.start)
    requires nextJunkEnd == if junk.None? then |data| else Min(|data|, junk.value.end)
    requires AllRecordable(rs) && sofar == Serialized(rs)
    ensures var all := rs + PlanStep(data, junkInfo, currentOffset);
            && AllRecordable(all) && parts == Serialized(all) && |parts| == |sofar| + added
            && reached == PlanNext(data, junkInfo, currentOffset)
  {
    hide Serialized, Pick, AllRecordable;
    ghost var now := rs;
    parts, reached, added := sofar, currentOffset, 0;
    if junk.Some? {
      PickedFits(junkInfo, currentOffset, |data|);
    }
    var nonJunkBytes := nextJunkStart - currentOffset;
    if nonJunkBytes > 0 {
      var literal := data[currentOffset..currentOffset + nonJunkBytes];
      assert junk.None? ==> data[currentOffset..] == literal;
      parts := WriteLiteral(parts, literal, rs);
      now := rs + [Literal(literal)];
      reached := currentOffset + nonJunkBytes;
      added := 4 + nonJunkBytes;
    }
    var junkBytes := nextJunkEnd - reached;
    if junkBytes > 0 {
      if junk.None? {
        // The safety valve: never reached.
        assert false;
        return;
      }
      parts := WritePadding(parts, junkBytes, junk.value.seed, now);
      now := now + [Padding(junkBytes, junk.value.seed)];
      reached := reached + junkBytes;
      added := added + 4 + LFG_SEED_BYTES;
    }
    assert now == rs + PlanStep(data, junkInfo, currentOffset);
  }

  /** Writes the records out; a chunk without padding worth recording is returned as it is. */
  method EmitRecords(data: seq<Byte>, junkInfo: seq<Junk>) returns (parts: seq<Byte>, packedSize: nat)
    requires Proper(junkInfo)
    requires AllRecordable(Plan(data, junkInfo, 0))
    ensures var rs := if Pick(junkInfo, 0, |data|).None? then [] else Plan(data, junkInfo, 0);
            Packed(parts, packedSize) == if rs == [] then Packed(data, 0) else Packed(Serialized(rs), |Serialized(rs)|)
  {
    hide Plan, Serialized, Pick, AllRecordable, PlanStep;
    NothingSerialized();
    var endOffset := |data|;
    parts := [];
    packedSize := 0;
    var currentOffset := 0;
    var firstLoopIteration := true;
    ghost var rs: seq<Record> := [];
    PlanEnds(data, junkInfo);
    while currentOffset < endOffset
      invariant currentOffset <= endOffset
      invariant rs + Plan(data, junkInfo, currentOffset) == Plan(data, junkInfo, 0)
      invariant AllRecordable(rs) && parts == Serialized(rs) && packedSize == |parts|
      invariant firstLoopIteration ==> currentOffset == 0
      invariant !firstLoopIteration ==> Pick(junkInfo, 0, endOffset).Some? && Plan(data, junkInfo, 0) != []
    {
      var junk := PickJunk(junkInfo, currentOffset, endOffset);
      var nextJunkStart, nextJunkEnd := endOffset, endOffset;
      if junk.Some? {
        PickedFits(junkInfo, currentOffset, endOffset);
        nextJunkStart := Max(currentOffset, junk.value.start);
        nextJunkEnd := Min(endOffset, junk.value.end);
      }
      PlanUnfold(data, junkInfo, currentOffset);
      if firstLoopIteration {
        if nextJunkStart == endOffset {
          return data, 0;
        }
        firstLoopIteration := false;
      }
      ghost var step := PlanStep(data, junkInfo, currentOffset);
      var added: nat;
      parts, currentOffset, added :=
        EmitStep(data, junkInfo, currentOffset, junk, nextJunkStart, nextJunkEnd, parts, rs);
      packedSize := packedSize + added;
      rs := rs + step;
    }
    assert rs == Plan(data, junkInfo, 0);
    assert |data| == 0 ==> data == [];
  }

  lemma PlanUnfold(data: seq<Byte>, junk: seq<Junk>, current: nat)
    requires current < |data| && Proper(junk)
    ensures Plan(data, junk, current) == PlanStep(data, junk, current) + Plan(data, junk, PlanNext(data, junk, current))
    ensures Plan(data, junk, current) != []
  {}

  lemma PlanEnds(data: seq<Byte>, junk: seq<Junk>)
    requires Proper(junk)
    ensures Plan(data, junk, |data|) == [] && Serialized([]) == []
  {}

  lemma NothingSerialized()
    ensures AllRecordable([]) && Serialized([]) == []
  {}

  lemma SerializedLiteral(bytes: seq<Byte>)
    requires bytes != []
    ensures SerializedRecord(Literal(bytes)) == Be32(|bytes| % U32) + bytes
  {}

  lemma SerializedPadding(length: nat, seed: Seed)
    requires 0 < length < JUNK_FLAG
    ensures SerializedRecord(Padding(length, seed)) == Be32(length + JUNK_FLAG) + EncodedSeed(seed)
  {}

  method PickJunk(junkInfo: seq<Junk>, currentOffset: nat, endOffset: nat) returns (junk: Option<Junk>)
    requires currentOffset <= endOffset
    ensures junk == Pick(junkInfo, currentOffset, endOffset)
  {
    junk := None;
    if endOffset - currentOffset > LFG_SEED_BYTES {
      for i := 0 to |junkInfo|
        invariant junk == None
        invariant Pick(junkInfo[i..], currentOffset, endOffset) == Pick(junkInfo, currentOffset, endOffset)
      {
        var candidate := junkInfo[i];
        assert junkInfo[i..][0] == candidate && junkInfo[i..][1..] == junkInfo[i + 1..];
        if candidate.end > currentOffset + LFG_SEED_BYTES {
          if candidate.start + LFG_SEED_BYTES < endOffset {
            junk := Some(candidate);
          }
          break;
        }
      }
    }
  }
}
