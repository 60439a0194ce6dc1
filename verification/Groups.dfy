/**
 What decoding keeps of a partition's hash groups, whatever the container: for every chunk size
 whose blocks divide a group, a group is put out only when its blocks are there.
 */
module Groups {
  import opened Results
  import opened Sizes
  import opened Format
  import opened HashTree
  import opened Exceptions
  import opened Regions

  /** The `k` blocks of a chunk divide the blocks of a group. */
  predicate Divides(k: nat) {
    0 < k && BLOCKS_PER_GROUP % k == 0
  }

  /**
   When `m` blocks were read, the group starts at a multiple of 64, and the slots from there to `m` are
   filled, no others.
   */
  predicate Filled(g: Group, m: nat) {
    && ValidGroup(g) && g.blockIndex == m && g.start % BLOCKS_PER_GROUP == 0 && m - g.start <= BLOCKS_PER_GROUP
    && forall j | 0 <= j < BLOCKS_PER_GROUP :: g.blocks[j].Some? <==> j < m - g.start
  }

  lemma NothingFilled(m: nat)
    requires m % BLOCKS_PER_GROUP == 0
    ensures Filled(NewGroup(m), m)
  {}

  lemma {:induction false} PlacedSlots(blocks: Slots, first: nat, data: Bytes, n: nat, s: nat)
    requires ValidSlots(blocks) && n * BLOCK_DATA_SIZE <= |data| && s < BLOCKS_PER_GROUP
    requires first % BLOCKS_PER_GROUP + n <= BLOCKS_PER_GROUP
    ensures var at := first % BLOCKS_PER_GROUP;
            Placed(blocks, first, data, n)[s].Some? <==> blocks[s].Some? || at <= s < at + n
  {
    hide Placed;
    if n == 0 {
      NonePlaced(blocks, first, data);
    } else {
      PlacedSlots(blocks, first, data, n - 1, s);
      SlotInGroup(first, n - 1);
      PlacedLast(blocks, first, data, n, s);
    }
  }

  lemma PlacedLast(blocks: Slots, first: nat, data: Bytes, n: nat, s: nat)
    requires ValidSlots(blocks) && 0 < n && n * BLOCK_DATA_SIZE <= |data| && s < BLOCKS_PER_GROUP
    ensures Placed(blocks, first, data, n)[s].Some? <==>
            Placed(blocks, first, data, n - 1)[s].Some? || s == (first + n - 1) % BLOCKS_PER_GROUP
  {}

  lemma SlotInGroup(first: nat, n: nat)
    requires first % BLOCKS_PER_GROUP + n < BLOCKS_PER_GROUP
    ensures (first + n) % BLOCKS_PER_GROUP == first % BLOCKS_PER_GROUP + n
  {}

  /** A chunk of `n` blocks that has room in the group fills the next `n` slots. */
  lemma ChunkFills(g: Group, m: nat, content: Content, n: nat)
    requires Filled(g, m) && |content.data| == n * BLOCK_DATA_SIZE && m - g.start + n <= BLOCKS_PER_GROUP
    requires AllStorable(content.exceptions, n)
    ensures |content.data| / BLOCK_DATA_SIZE == n
    ensures Filled(WithChunk(g, content), m + n) && WithChunk(g, content).start == g.start
  {
    hide ValidFiling, Filed, Placed;
    assert |content.data| / BLOCK_DATA_SIZE == n;
    var r := WithChunk(g, content);
    assert n > 0 ==> m % BLOCKS_PER_GROUP == m - g.start;
    if n == 0 {
      NonePlaced(g.blocks, m, content.data);
    } else {
      forall j | 0 <= j < BLOCKS_PER_GROUP
        ensures r.blocks[j].Some? <==> j < m + n - g.start
      {
        PlacedSlots(g.blocks, m, content.data, n, j);
      }
    }
  }

  lemma NonePlaced(blocks: Slots, first: nat, data: Bytes)
    requires ValidSlots(blocks)
    ensures Placed(blocks, first, data, 0) == blocks
  {}

  /** No block that is put out is missing. */
  lemma {:induction false} FilledFinalizes(c: Codec, key: Bytes, blocks: Slots, ex: Filing, n: nat, encrypt: bool,
        j: nat)
    requires ValidSlots(blocks) && ValidFiling(ex) && j <= n <= BLOCKS_PER_GROUP
    requires forall s | 0 <= s < n :: blocks[s].Some?
    ensures Finalized(c, key, blocks, ex, n, encrypt, j).Ok?
    decreases n - j
  {
    hide BlockOut, PatchedHeader, ValidFiling;
    if j < n {
      FilledFinalizes(c, key, blocks, ex, n, encrypt, j + 1);
    }
  }

  /** What putting out does: at a group's or the region's end one write of all blocks that are there. */
  lemma FilledFlushes(c: Codec, key: Bytes, base: nat, g: Group, m: nat, last: bool, encrypt: bool)
    requires Filled(g, m) && g.start < m
    ensures var r := Flushed(c, key, base, g, last, encrypt);
            && r.Ok?
            && if m % BLOCKS_PER_GROUP == 0 || last then
                 && r.value.group == NewGroup(m) && |r.value.writes| == 1
                 && r.value.writes[0].offset == base + g.start * BLOCK_TOTAL_SIZE
                 && |r.value.writes[0].data| == (m - g.start) * BLOCK_TOTAL_SIZE
               else r.value == Stepped(g, [])
  {
    hide Finalized, ValidFiling, NewGroup;
    FilledFinalizes(c, key, g.blocks, g.ex, m - g.start, encrypt, 0);
  }

  /** Chunks of `k` blocks fit what room a group has left. */
  lemma RoomForChunk(k: nat, i: nat)
    requires Divides(k)
    ensures i * k % BLOCKS_PER_GROUP + k <= BLOCKS_PER_GROUP
  {
    var n := BLOCKS_PER_GROUP / k;
    DivMod(BLOCKS_PER_GROUP, k);
    RoomInGroups(n, k, i);
  }

  lemma RoomInGroups(n: nat, k: nat, i: nat)
    requires n * k == BLOCKS_PER_GROUP && 0 < n
    ensures i * k % BLOCKS_PER_GROUP + k <= BLOCKS_PER_GROUP
  {
    DivMod(i, n);
    RoomInGroup(n, k, i / n, i % n, i);
  }

  lemma DivMod(a: nat, b: nat)
    requires 0 < b
    ensures a == a / b * b + a % b && 0 <= a % b < b
    ensures b <= a ==> 0 < a / b
  {}

  /** The same for chunk `x` of a group of `n` chunks. */
  lemma RoomInGroup(n: nat, k: nat, group: nat, x: nat, i: nat)
    requires n * k == BLOCKS_PER_GROUP && x < n && i == group * n + x
    ensures i * k % BLOCKS_PER_GROUP + k <= BLOCKS_PER_GROUP
  {
    assert i * k == group * (n * k) + x * k;
    assert x * k + k <= n * k by {
      TimesOrder(x + 1, n, k);
    }
    WithinGroup(group, x * k);
  }

  lemma WithinGroup(group: nat, b: nat)
    requires b < BLOCKS_PER_GROUP
    ensures (group * BLOCKS_PER_GROUP + b) % BLOCKS_PER_GROUP == b
  {}

  function ChunkBytes(k: nat): nat {
    k * BLOCK_TOTAL_SIZE
  }

  /** The state before chunk `i`, all chunks before it having been full. */
  predicate Ready(g: Group, k: nat, i: nat) {
    Filled(g, i * k) && g.start == i * k / BLOCKS_PER_GROUP * BLOCKS_PER_GROUP
  }

  /** How many blocks chunk `i` has. */
  function BlocksIn(d: DataEntry, k: nat, i: nat): nat
    requires i * k <= d.ns
  {
    Min(k, d.ns - i * k)
  }

  /** That there is a chunk `i`, with blocks in it, that opens. */
  ghost predicate Opens(c: Codec, d: DataEntry, k: nat, chunks: seq<Chunk>, i: nat) {
    && d.gi + i < |chunks| && i * k < d.ns
    && PartContent(c, chunks[d.gi + i], BlocksIn(d, k, i) * BLOCK_DATA_SIZE, i * k * BLOCK_DATA_SIZE).Ok?
  }

  /** That all chunks from `i` on do. */
  ghost predicate AllOpen(c: Codec, d: DataEntry, k: nat, chunks: seq<Chunk>, i: nat) {
    forall a | i <= a < d.ng :: Opens(c, d, k, chunks, a)
  }

  lemma AllOpenFrom(c: Codec, d: DataEntry, k: nat, chunks: seq<Chunk>, i: nat)
    requires i < d.ng
    ensures AllOpen(c, d, k, chunks, i) <==> Opens(c, d, k, chunks, i) && AllOpen(c, d, k, chunks, i + 1)
  {
    hide Opens;
  }

  /** Where block `b` of a region lies on the disc. */
  function BlockAt(d: DataEntry, b: nat): nat {
    (d.fs + b) * BLOCK_TOTAL_SIZE
  }

  lemma ChunkSizes(d: DataEntry, k: nat, i: nat)
    ensures PartChunkSize(ChunkBytes(k)) == k * BLOCK_DATA_SIZE
    ensures i * PartChunkSize(ChunkBytes(k)) == i * k * BLOCK_DATA_SIZE
    ensures i * k <= d.ns ==>
              Min(k * BLOCK_DATA_SIZE, d.ns * BLOCK_DATA_SIZE - i * k * BLOCK_DATA_SIZE)
                  == BlocksIn(d, k, i) * BLOCK_DATA_SIZE
  {
    assert i * (k * BLOCK_DATA_SIZE) == i * k * BLOCK_DATA_SIZE;
  }

  /** From a group as it should be, chunk `i` is taken in exactly when it opens, and what is put out is complete. */
  lemma GroupStep(c: Codec, key: Bytes, d: DataEntry, k: nat, chunks: seq<Chunk>, i: nat, g: Group, encrypt: bool)
    requires Divides(k) && Ready(g, k, i)
    ensures var r := PartStep(c, key, d, ChunkBytes(k), chunks, i, g, encrypt);
            && (r.Ok? <==> Opens(c, d, k, chunks, i))
            && (r.Ok? ==>
                 var m := i * k + BlocksIn(d, k, i);
                 if m % BLOCKS_PER_GROUP == 0 || i + 1 == d.ng then
                   && r.value.group == NewGroup(m) && |r.value.writes| == 1
                   && r.value.writes[0].offset == d.fs * BLOCK_TOTAL_SIZE + g.start * BLOCK_TOTAL_SIZE
                   && |r.value.writes[0].data| == (m - g.start) * BLOCK_TOTAL_SIZE
                 else Filled(r.value.group, m) && r.value.group.start == g.start && r.value.writes == [])
  {
    hide PartContent, Flushed, WithChunk, NewGroup, PartChunkSize;
    ChunkSizes(d, k, i);
    RoomForChunk(k, i);
    assert i * k - g.start == i * k % BLOCKS_PER_GROUP;
    if Opens(c, d, k, chunks, i) {
      var n, m := BlocksIn(d, k, i), i * k;
      var content := PartContent(c, chunks[d.gi + i], n * BLOCK_DATA_SIZE, m * BLOCK_DATA_SIZE).value;
      assert n * BLOCK_DATA_SIZE / BLOCK_DATA_SIZE == n;
      ChunkFills(g, m, content, n);
      hide Filled;
      FilledFlushes(c, key, d.fs * BLOCK_TOTAL_SIZE, WithChunk(g, content), m + n, i + 1 == d.ng, encrypt);
    }
  }

  lemma CeilBounds(a: nat, k: nat)
    requires 0 < k
    ensures a <= DivCeil(a, k) * k < a + k
  {
    var x := a + k - 1;
    assert x == x / k * k + x % k;
  }

  lemma TimesOrder(i: nat, n: nat, k: nat)
    requires i <= n
    ensures i * k <= n * k
  {}

  /** Where chunk `i` of a region ends, if the region has as many chunks as it needs. */
  lemma ChunkEnds(d: DataEntry, k: nat, i: nat)
    requires 0 < k && d.ng == DivCeil(d.ns, k) && i < d.ng
    ensures i * k < d.ns
    ensures i * k + BlocksIn(d, k, i) == if i + 1 == d.ng then d.ns else (i + 1) * k
  {
    hide DivCeil;
    CeilBounds(d.ns, k);
    assert d.ng * k == (d.ng - 1) * k + k && (i + 1) * k == i * k + k;
    TimesOrder(i, d.ng - 1, k);
    if i + 1 < d.ng {
      TimesOrder(i + 1, d.ng - 1, k);
    }
  }

  lemma GroupOf(a: nat, m: nat)
    requires a < m <= a / BLOCKS_PER_GROUP * BLOCKS_PER_GROUP + BLOCKS_PER_GROUP
    ensures m / BLOCKS_PER_GROUP * BLOCKS_PER_GROUP
            == if m % BLOCKS_PER_GROUP == 0 then m else a / BLOCKS_PER_GROUP * BLOCKS_PER_GROUP
  {}

  /** What a step leaves for the next one, and puts out before it. */
  lemma GroupGoesOn(c: Codec, key: Bytes, d: DataEntry, k: nat, chunks: seq<Chunk>, i: nat, g: Group, encrypt: bool)
    requires Divides(k) && d.ng == DivCeil(d.ns, k) && i < d.ng && Opens(c, d, k, chunks, i)
    requires Ready(g, k, i)
    ensures var r := PartStep(c, key, d, ChunkBytes(k), chunks, i, g, encrypt);
            && r.Ok?
            && var next, lo := r.value.group, BlockAt(d, g.start);
            if i + 1 == d.ng then Consecutive(r.value.writes, lo, BlockAt(d, d.ns))
            else
              && Ready(next, k, i + 1)
              && Consecutive(r.value.writes, lo, BlockAt(d, next.start))
  {
    hide PartStep, Opens, DivCeil, ChunkBytes;
    GroupStep(c, key, d, k, chunks, i, g, encrypt);
    ChunkEnds(d, k, i);
    RoomForChunk(k, i);
    var m := i * k + BlocksIn(d, k, i);
    var step := PartStep(c, key, d, ChunkBytes(k), chunks, i, g, encrypt).value;
    hide BlocksIn, Divides;
    GroupOf(i * k, m);
    if m % BLOCKS_PER_GROUP == 0 || i + 1 == d.ng {
      OneWrite(step.writes[0]);
      assert step.writes == [step.writes[0]];
    }
    if m % BLOCKS_PER_GROUP == 0 {
      NothingFilled(m);
    }
  }

  lemma StepOpens(c: Codec, key: Bytes, d: DataEntry, k: nat, chunks: seq<Chunk>, i: nat, g: Group, encrypt: bool)
    requires Divides(k) && Ready(g, k, i)
    ensures PartStep(c, key, d, ChunkBytes(k), chunks, i, g, encrypt).Ok? <==> Opens(c, d, k, chunks, i)
  {
    hide PartStep, Opens, Ready, Divides, ChunkBytes;
    GroupStep(c, key, d, k, chunks, i, g, encrypt);
  }

  lemma OneWrite(w: Write)
    requires w.data != []
    ensures Consecutive([w], w.offset, w.offset + |w.data|)
  {
    assert [w][1..] == [];
    assert Consecutive([], w.offset + |w.data|, w.offset + |w.data|);
  }

  /**
   From chunk `i` on, the region decodes exactly when every chunk opens, and then its writes follow
   each other from the start of the current group to the region's end.
   */
  lemma {:induction false} GroupRun(c: Codec, key: Bytes, d: DataEntry, k: nat, chunks: seq<Chunk>, i: nat, g: Group,
      encrypt: bool)
    requires Divides(k) && d.ng == DivCeil(d.ns, k) && i < d.ng
    requires Ready(g, k, i)
    ensures var run := PartRun(c, key, d, ChunkBytes(k), chunks, i, g, encrypt);
            && (run.failure == None <==> AllOpen(c, d, k, chunks, i))
            && (run.failure == None ==>
                  Consecutive(run.writes, BlockAt(d, g.start), BlockAt(d, d.ns)))
    decreases d.ng - i
  {
    assert ValidGroup(g);
    hide PartStep, Opens, AllOpen, Ready, Divides, Consecutive, ValidGroup, DivCeil, ChunkBytes, BlockAt, PartRun;
    AllOpenFrom(c, d, k, chunks, i);
    StepOpens(c, key, d, k, chunks, i, g, encrypt);
    PartUnfolds(c, key, d, ChunkBytes(k), chunks, i, g, encrypt);
    if Opens(c, d, k, chunks, i) {
      GroupGoesOn(c, key, d, k, chunks, i, g, encrypt);
      var step := PartStep(c, key, d, ChunkBytes(k), chunks, i, g, encrypt).value;
      if i + 1 < d.ng {
        GroupRun(c, key, d, k, chunks, i + 1, step.group, encrypt);
        var rest := PartRun(c, key, d, ChunkBytes(k), chunks, i + 1, step.group, encrypt);
        if rest.failure == None {
          ConsecutiveJoin(step.writes, rest.writes, BlockAt(d, g.start),
            BlockAt(d, step.group.start), BlockAt(d, d.ns));
        }
      } else {
        PartEnds(c, key, d, ChunkBytes(k), chunks, step.group, encrypt);
        assert step.writes + [] == step.writes;
      }
    }
  }

  /**
   A partition region of any container whose chunks divide its groups decodes exactly when each of
   its chunks opens, and then it writes its stretch of the disc through.
   */
  lemma RegionDecodes(c: Codec, key: Bytes, d: DataEntry, k: nat, chunks: seq<Chunk>, encrypt: bool)
    requires Divides(k) && d.ng == DivCeil(d.ns, k) && d.ns > 0
    ensures var run := RegionRun(c, ChunkBytes(k), chunks, Part(key, d), encrypt);
            && (run.failure == None <==> AllOpen(c, d, k, chunks, 0))
            && (run.failure == None ==>
                  Consecutive(run.writes, BlockAt(d, 0), BlockAt(d, d.ns)))
  {
    hide PartRun, Opens, Filled, NewGroup, Consecutive;
    assert 0 < d.ng by {
      CeilBounds(d.ns, k);
    }
    NothingFilled(0);
    StartOf(0);
    assert 0 * k == 0;
    GroupRun(c, key, d, k, chunks, 0, NewGroup(0), encrypt);
  }

  lemma StartOf(at: nat)
    ensures NewGroup(at).start == at
  {}
}
