/**
 Hash exceptions: the stretches of a block's header that differ from the recomputed one. They
 overlap, since the last stretch of a range is moved back to end with it.
 */
module Exceptions {
  import opened Words
  import opened Results
  import opened Sizes
  import opened BigEndian
  import opened Format
  import opened Buffers

  const HASH_SIZE: nat := 20
  const EXCEPTION_SIZE: nat := 22
  const MAX_PER_BLOCK: nat := 52

  /** A hash, and where in a header it goes. */
  datatype Patch = Patch(slot: nat, hash: Bytes)

  predicate Fits(p: Patch) {
    |p.hash| == HASH_SIZE && p.slot + HASH_SIZE <= BLOCK_HEADER_SIZE
  }

  predicate AllFit(ps: seq<Patch>) {
    forall i | 0 <= i < |ps| :: Fits(ps[i])
  }

  function Patch1(header: Bytes, p: Patch): (r: Bytes)
    requires |header| == BLOCK_HEADER_SIZE && Fits(p)
    ensures |r| == BLOCK_HEADER_SIZE
  {
    header[..p.slot] + p.hash + header[p.slot + HASH_SIZE..]
  }

  /** A header with patches put on it in order. */
  function Patched(header: Bytes, ps: seq<Patch>): (r: Bytes)
    requires |header| == BLOCK_HEADER_SIZE && AllFit(ps)
    ensures |r| == BLOCK_HEADER_SIZE
    decreases |ps|
  {
    if ps == [] then header else Patched(Patch1(header, ps[0]), ps[1..])
  }

  // ---------- finding them ----------

  /** The stretches of a range: every 20 bytes, the last moved back into the range. */
  function RangeSlots(base: nat, size: nat): (s: seq<nat>)
    requires size >= HASH_SIZE
  {
    seq(DivCeil(size, HASH_SIZE), i requires 0 <= i => base + Min(HASH_SIZE * i, size - HASH_SIZE))
  }

  /** H0, the padding after it, H1, padding, H2, padding. */
  const RANGES: seq<(nat, nat)> := [(0, 620), (620, 20), (0x280, 160), (0x320, 32), (0x340, 160), (0x3e0, 32)]

  function SlotsOf(ranges: seq<(nat, nat)>): seq<nat>
    requires forall r | r in ranges :: r.1 >= HASH_SIZE
  {
    if ranges == [] then [] else RangeSlots(ranges[0].0, ranges[0].1) + SlotsOf(ranges[1..])
  }

  predicate Differs(orig: Bytes, recomputed: Bytes, slot: nat)
    requires slot + HASH_SIZE <= |orig| == |recomputed|
  {
    orig[slot..slot + HASH_SIZE] != recomputed[slot..slot + HASH_SIZE]
  }

  predicate SlotsFit(slots: seq<nat>) {
    forall i | 0 <= i < |slots| :: slots[i] + HASH_SIZE <= BLOCK_HEADER_SIZE
  }

  function Difference(orig: Bytes, recomputed: Bytes, s: nat): (ps: seq<Patch>)
    requires |orig| == |recomputed| == BLOCK_HEADER_SIZE && s + HASH_SIZE <= BLOCK_HEADER_SIZE
    ensures AllFit(ps) && |ps| <= 1
  {
    if Differs(orig, recomputed, s) then [Patch(s, orig[s..s + HASH_SIZE])] else []
  }

  function Differences(orig: Bytes, recomputed: Bytes, slots: seq<nat>): (ps: seq<Patch>)
    requires |orig| == |recomputed| == BLOCK_HEADER_SIZE && SlotsFit(slots)
    ensures AllFit(ps) && |ps| <= |slots|
  {
    if slots == [] then [] else Difference(orig, recomputed, slots[0]) + Differences(orig, recomputed, slots[1..])
  }

  lemma RangesFit()
    ensures forall r | r in RANGES :: r.1 >= HASH_SIZE && r.0 + r.1 <= BLOCK_HEADER_SIZE
    ensures SlotsFit(SlotsOf(RANGES)) && |SlotsOf(RANGES)| == MAX_PER_BLOCK
  {
    hide RangeSlots;
    RangeFits(0, 620);
    RangeFits(620, 20);
    RangeFits(0x280, 160);
    RangeFits(0x320, 32);
    RangeFits(0x340, 160);
    RangeFits(0x3e0, 32);
    assert SlotsOf(RANGES) == RangeSlots(0, 620) + RangeSlots(620, 20) + RangeSlots(0x280, 160)
      + RangeSlots(0x320, 32) + RangeSlots(0x340, 160) + RangeSlots(0x3e0, 32) by {
      assert RANGES[1..][1..][1..][1..][1..][1..] == [];
      assert SlotsOf(RANGES[1..][1..][1..]) == RangeSlots(0x320, 32) + SlotsOf(RANGES[1..][1..][1..][1..]);
    }
  }

  /** Patches such as one header can need. */
  predicate OfOneBlock(ps: seq<Patch>) {
    AllFit(ps) && |ps| <= MAX_PER_BLOCK
  }

  /** What one block's header needs so that it can be recomputed. */
  function HeaderPatches(orig: Bytes, recomputed: Bytes): (ps: seq<Patch>)
    requires |orig| == |recomputed| == BLOCK_HEADER_SIZE
    ensures OfOneBlock(ps)
  {
    RangesFit();
    Differences(orig, recomputed, SlotsOf(RANGES))
  }

  predicate Holds(slots: seq<nat>, x: nat) {
    exists i | 0 <= i < |slots| :: slots[i] <= x < slots[i] + HASH_SIZE
  }

  /** The stretches of a range cover it. */
  lemma RangeCovered(base: nat, size: nat, x: nat)
    requires size >= HASH_SIZE && base <= x < base + size
    ensures Holds(RangeSlots(base, size), x)
  {
    var i := (x - base) / HASH_SIZE;
    assert i < DivCeil(size, HASH_SIZE);
    var s := RangeSlots(base, size)[i];
    assert s <= x < s + HASH_SIZE;
  }

  lemma {:induction false} RangesCovered(ranges: seq<(nat, nat)>, k: nat, x: nat)
    requires forall r | r in ranges :: r.1 >= HASH_SIZE
    requires k < |ranges| && ranges[k].0 <= x < ranges[k].0 + ranges[k].1
    ensures Holds(SlotsOf(ranges), x)
  {
    hide RangeSlots;
    if k == 0 {
      var first := RangeSlots(ranges[0].0, ranges[0].1);
      RangeCovered(ranges[0].0, ranges[0].1, x);
      var i :| 0 <= i < |first| && first[i] <= x < first[i] + HASH_SIZE;
      assert SlotsOf(ranges)[i] == first[i];
    } else {
      RangesCovered(ranges[1..], k - 1, x);
      var first, rest := RangeSlots(ranges[0].0, ranges[0].1), SlotsOf(ranges[1..]);
      var i :| 0 <= i < |rest| && rest[i] <= x < rest[i] + HASH_SIZE;
      assert SlotsOf(ranges)[|first| + i] == rest[i];
    }
  }

  /** Every byte of a header lies in one of the six ranges. */
  lemma HeaderCovered(x: nat)
    requires x < BLOCK_HEADER_SIZE
    ensures (forall r | r in RANGES :: r.1 >= HASH_SIZE) && Holds(SlotsOf(RANGES), x)
  {
    hide SlotsOf;
    var k := if x < 620 then 0 else if x < 640 then 1 else if x < 0x320 then 2
             else if x < 0x340 then 3 else if x < 0x3e0 then 4 else 5;
    RangesCovered(RANGES, k, x);
  }

  /** Where a header is right or still as recomputed. */
  predicate Between(header: Bytes, orig: Bytes, recomputed: Bytes) {
    |orig| == |header| == |recomputed| == BLOCK_HEADER_SIZE
    && forall x | 0 <= x < BLOCK_HEADER_SIZE :: header[x] == orig[x] || header[x] == recomputed[x]
  }

  /** A header after one stretch has been dealt with. */
  function Dealt(header: Bytes, orig: Bytes, recomputed: Bytes, s: nat): (r: Bytes)
    requires |orig| == |header| == |recomputed| == BLOCK_HEADER_SIZE && s + HASH_SIZE <= BLOCK_HEADER_SIZE
    ensures |r| == BLOCK_HEADER_SIZE
  {
    Patched(header, Difference(orig, recomputed, s))
  }

  lemma DealtRight(header: Bytes, orig: Bytes, recomputed: Bytes, s: nat, x: nat)
    requires Between(header, orig, recomputed) && s + HASH_SIZE <= BLOCK_HEADER_SIZE && x < BLOCK_HEADER_SIZE
    ensures var r := Dealt(header, orig, recomputed, s);
            if s <= x < s + HASH_SIZE then r[x] == orig[x] else r[x] == header[x]
  {
    var p := Patch(s, orig[s..s + HASH_SIZE]);
    assert Fits(p) && [p][1..] == [] && Patched(header, [p]) == Patched(Patch1(header, p), []);
    if s <= x < s + HASH_SIZE {
      assert orig[s..s + HASH_SIZE][x - s] == orig[x];
      assert recomputed[s..s + HASH_SIZE][x - s] == recomputed[x];
    }
  }

  lemma DifferencesDealt(header: Bytes, orig: Bytes, recomputed: Bytes, slots: seq<nat>)
    requires |orig| == |header| == |recomputed| == BLOCK_HEADER_SIZE && SlotsFit(slots) && slots != []
    ensures SlotsFit(slots[1..])
    ensures Patched(header, Differences(orig, recomputed, slots))
         == Patched(Dealt(header, orig, recomputed, slots[0]), Differences(orig, recomputed, slots[1..]))
  {
    hide Differs, Difference, Patch1;
    PatchedJoin(header, Difference(orig, recomputed, slots[0]), Differences(orig, recomputed, slots[1..]));
  }

  lemma {:induction false} PatchedJoin(header: Bytes, a: seq<Patch>, b: seq<Patch>)
    requires |header| == BLOCK_HEADER_SIZE && AllFit(a) && AllFit(b)
    ensures AllFit(a + b) && Patched(header, a + b) == Patched(Patched(header, a), b)
    decreases |a|
  {
    hide Fits, Patch1;
    if a == [] {
      assert a + b == b;
    } else {
      assert (a + b)[1..] == a[1..] + b;
      PatchedJoin(Patch1(header, a[0]), a[1..], b);
    }
  }

  /**
   Patching puts every byte a stretch covers right, whatever the overlaps: each patch writes
   original bytes, so a byte once right stays right.
   */
  lemma {:induction false} PatchingRights(orig: Bytes, header: Bytes, recomputed: Bytes, slots: seq<nat>, x: nat)
    requires Between(header, orig, recomputed) && SlotsFit(slots) && x < BLOCK_HEADER_SIZE
    requires header[x] == orig[x] || Holds(slots, x)
    ensures Patched(header, Differences(orig, recomputed, slots))[x] == orig[x]
    decreases |slots|
  {
    hide Differences, Dealt, Differs;
    if slots == [] {
      NoDifferences(orig, recomputed);
    } else {
      var s := slots[0];
      var after := Dealt(header, orig, recomputed, s);
      forall y: nat | y < BLOCK_HEADER_SIZE
        ensures after[y] == orig[y] || after[y] == recomputed[y]
      {
        DealtRight(header, orig, recomputed, s, y);
      }
      DealtRight(header, orig, recomputed, s, x);
      DifferencesDealt(header, orig, recomputed, slots);
      if header[x] != orig[x] && !(s <= x < s + HASH_SIZE) {
        var i :| 0 <= i < |slots| && slots[i] <= x < slots[i] + HASH_SIZE;
        assert slots[1..][i - 1] == slots[i];
      }
      hide Holds, Patched;
      PatchingRights(orig, after, recomputed, slots[1..], x);
    }
  }

  /** A header comes back from the recomputed one and its exceptions. */
  lemma PatchesRestore(orig: Bytes, recomputed: Bytes)
    requires |orig| == |recomputed| == BLOCK_HEADER_SIZE
    ensures Patched(recomputed, HeaderPatches(orig, recomputed)) == orig
  {
    hide SlotsOf, Patched, Differences;
    RangesFit();
    forall x | 0 <= x < BLOCK_HEADER_SIZE
      ensures Patched(recomputed, HeaderPatches(orig, recomputed))[x] == orig[x]
    {
      HeaderCovered(x);
      PatchingRights(orig, recomputed, recomputed, SlotsOf(RANGES), x);
    }
  }

  // ---------- a chunk's list ----------

  /** An exception of a chunk; its offset counts 0x400 per block. */
  datatype Exception = Exception(offset: nat, hash: Bytes)

  function Located(block: nat, ps: seq<Patch>): (es: seq<Exception>)
    ensures |es| == |ps|
  {
    seq(|ps|, i requires 0 <= i < |ps| => Exception(block * BLOCK_HEADER_SIZE + ps[i].slot, ps[i].hash))
  }

  method CollectHashExceptions(orig: Bytes, recomputed: Bytes, blockInChunk: nat, exceptions: seq<Exception>)
      returns (all: seq<Exception>)
    requires |orig| == |recomputed| == BLOCK_HEADER_SIZE
    ensures all == exceptions + Located(blockInChunk, HeaderPatches(orig, recomputed))
  {
    hide SlotsOf, RangeSlots, Differences, HeaderPatches, Differs, Difference, AllFit, Located;
    RangesFit();
    SlotsEnd();
    PatchesAre(orig, recomputed);
    NoneLocated(blockInChunk);
    ghost var ps: seq<Patch> := [];
    all := exceptions;
    assert RANGES[0..] == RANGES;
    for r := 0 to |RANGES|
      invariant SlotsFit(SlotsOf(RANGES[r..]))
      invariant ps + Differences(orig, recomputed, SlotsOf(RANGES[r..])) == HeaderPatches(orig, recomputed)
      invariant all == exceptions + Located(blockInChunk, ps)
    {
      var base, size := RANGES[r].0, RANGES[r].1;
      ghost var rest := SlotsOf(RANGES[r + 1..]);
      SlotsStep(r);
      RangeFits(base, size);
      DifferencesJoin(orig, recomputed, RangeSlots(base, size), rest);
      ghost var before := ps;
      var found;
      found, ps := CollectRange(orig, recomputed, base, size, blockInChunk, all, ps, exceptions);
      all := found;
    }
    NoDifferences(orig, recomputed);
    assert ps + [] == ps;
  }

  lemma PatchesAre(orig: Bytes, recomputed: Bytes)
    requires |orig| == |recomputed| == BLOCK_HEADER_SIZE
    ensures SlotsFit(SlotsOf(RANGES))
    ensures HeaderPatches(orig, recomputed) == Differences(orig, recomputed, SlotsOf(RANGES))
  {
    hide SlotsOf, Differences;
    RangesFit();
  }

  lemma NoneLocated(block: nat)
    ensures Located(block, []) == []
  {}

  lemma NoDifferences(orig: Bytes, recomputed: Bytes)
    requires |orig| == |recomputed| == BLOCK_HEADER_SIZE
    ensures Differences(orig, recomputed, []) == []
  {}

  lemma SlotsEnd()
    ensures SlotsOf([]) == [] && RANGES[|RANGES|..] == []
  {}

  lemma SlotsStep(r: nat)
    requires r < |RANGES|
    ensures forall k | k in RANGES :: k.1 >= HASH_SIZE
    ensures SlotsOf(RANGES[r..]) == RangeSlots(RANGES[r].0, RANGES[r].1) + SlotsOf(RANGES[r + 1..])
  {
    hide RangeSlots;
    assert RANGES[r..][1..] == RANGES[r + 1..];
  }

  lemma RangeFits(base: nat, size: nat)
    requires HASH_SIZE <= size && base + size <= BLOCK_HEADER_SIZE
    ensures SlotsFit(RangeSlots(base, size)) && |RangeSlots(base, size)| == DivCeil(size, HASH_SIZE)
  {}

  lemma {:induction false} DifferencesJoin(orig: Bytes, recomputed: Bytes, a: seq<nat>, b: seq<nat>)
    requires |orig| == |recomputed| == BLOCK_HEADER_SIZE && SlotsFit(a + b)
    ensures SlotsFit(a) && SlotsFit(b)
    ensures Differences(orig, recomputed, a + b) == Differences(orig, recomputed, a) + Differences(orig, recomputed, b)
  {
    hide Difference;
    assert forall i | 0 <= i < |a| :: a[i] == (a + b)[i];
    assert forall i | 0 <= i < |b| :: b[i] == (a + b)[|a| + i];
    if a == [] {
      assert a + b == b;
    } else {
      assert (a + b)[1..] == a[1..] + b;
      DifferencesJoin(orig, recomputed, a[1..], b);
    }
  }

  /** One range of a header, stretch by stretch. */
  method CollectRange(orig: Bytes, recomputed: Bytes, base: nat, size: nat, blockInChunk: nat, sofar: seq<Exception>,
      ghost before: seq<Patch>, ghost others: seq<Exception>) returns (all: seq<Exception>, ghost ps: seq<Patch>)
    requires |orig| == |recomputed| == BLOCK_HEADER_SIZE && HASH_SIZE <= size && base + size <= BLOCK_HEADER_SIZE
    requires SlotsFit(RangeSlots(base, size)) && sofar == others + Located(blockInChunk, before)
    ensures ps == before + Differences(orig, recomputed, RangeSlots(base, size))
    ensures all == others + Located(blockInChunk, ps)
  {
    hide Differences;
    all, ps := sofar, before;
    ghost var slots := RangeSlots(base, size);
    var l := 0;
    ghost var i: nat := 0;
    assert slots[0..] == slots;
    while l < size
      invariant l == HASH_SIZE * i && i <= |slots|
      invariant ps + Differences(orig, recomputed, slots[i..]) == before + Differences(orig, recomputed, slots)
      invariant all == others + Located(blockInChunk, ps)
    {
      var slot := base + Min(l, size - HASH_SIZE);
      assert slots[i] == slot;
      DifferencesStep(orig, recomputed, slots, i);
      if Differs(orig, recomputed, slot) {
        var hash := orig[slot..slot + HASH_SIZE];
        LocatedOne(blockInChunk, ps, Patch(slot, hash));
        all := all + [Exception(blockInChunk * BLOCK_HEADER_SIZE + slot, hash)];
        ps := ps + [Patch(slot, hash)];
      }
      l := l + HASH_SIZE;
      i := i + 1;
    }
    assert slots[i..] == [];
    NoDifferences(orig, recomputed);
  }

  lemma LocatedOne(block: nat, ps: seq<Patch>, p: Patch)
    ensures Located(block, ps + [p]) == Located(block, ps) + [Exception(block * BLOCK_HEADER_SIZE + p.slot, p.hash)]
  {}

  lemma DifferencesStep(orig: Bytes, recomputed: Bytes, slots: seq<nat>, i: nat)
    requires |orig| == |recomputed| == BLOCK_HEADER_SIZE && SlotsFit(slots) && i < |slots|
    ensures SlotsFit(slots[i..]) && SlotsFit(slots[i + 1..])
    ensures Differences(orig, recomputed, slots[i..])
         == Difference(orig, recomputed, slots[i]) + Differences(orig, recomputed, slots[i + 1..])
  {
    assert slots[i..][1..] == slots[i + 1..];
  }

  // ---------- serialising it ----------

  predicate Storable(e: Exception, blocks: nat) {
    |e.hash| == HASH_SIZE && e.offset / BLOCK_HEADER_SIZE < blocks
    && e.offset % BLOCK_HEADER_SIZE + HASH_SIZE <= BLOCK_HEADER_SIZE
  }

  predicate AllStorable(es: seq<Exception>, blocks: nat) {
    forall i | 0 <= i < |es| :: Storable(es[i], blocks)
  }

  function Entry(e: Exception): (b: Bytes)
    requires |e.hash| == HASH_SIZE
    ensures |b| == EXCEPTION_SIZE
  {
    Be16(e.offset % 0x1_0000) + e.hash
  }

  predicate AllHashes(es: seq<Exception>) {
    forall i | 0 <= i < |es| :: |es[i].hash| == HASH_SIZE
  }

  function Entries(es: seq<Exception>, n: nat): (b: Bytes)
    requires AllHashes(es) && n <= |es|
    ensures |b| == EXCEPTION_SIZE * n
  {
    if n == 0 then [] else Entries(es, n - 1) + Entry(es[n - 1])
  }

  /** The count, then an offset and a hash for each; both numbers are kept in 16 bits. */
  function ExceptionList(es: seq<Exception>): (b: Bytes)
    requires AllHashes(es)
    ensures |b| == 2 + EXCEPTION_SIZE * |es|
  {
    Be16(|es| % 0x1_0000) + Entries(es, |es|)
  }

  method BuildExceptionList(es: seq<Exception>) returns (bytes: array<Byte>)
    requires AllHashes(es)
    ensures fresh(bytes) && bytes[..] == ExceptionList(es)
  {
    hide Be16, Entry, Entries;
    EntriesNone(es);
    bytes := new Byte[2 + |es| * EXCEPTION_SIZE](_ => 0);
    Put(bytes, 0, Be16(|es| % 0x1_0000));
    for i := 0 to |es|
      invariant bytes[..2 + EXCEPTION_SIZE * i] == Be16(|es| % 0x1_0000) + Entries(es, i)
    {
      var o := 2 + i * EXCEPTION_SIZE;
      Put(bytes, o, Be16(es[i].offset % 0x1_0000));
      Put(bytes, o + 2, es[i].hash);
      EntriesNext(es, i);
    }
    assert bytes[..] == bytes[..2 + EXCEPTION_SIZE * |es|];
  }

  lemma EntriesNone(es: seq<Exception>)
    requires AllHashes(es)
    ensures Entries(es, 0) == []
  {}

  lemma EntriesNext(es: seq<Exception>, i: nat)
    requires AllHashes(es) && i < |es|
    ensures Entries(es, i + 1) == Entries(es, i) + Be16(es[i].offset % 0x1_0000) + es[i].hash
  {
    hide Be16;
  }

  function ExceptionAt(list: Bytes, e: nat): (x: Exception)
    requires 2 + EXCEPTION_SIZE * (e + 1) <= |list|
    ensures |x.hash| == HASH_SIZE
  {
    var o := 2 + e * EXCEPTION_SIZE;
    Exception(Get16(list, o), list[o + 2..o + EXCEPTION_SIZE])
  }

  /** Reads the `count` entries of a list back, from entry `e` on. */
  function ParseExceptions(list: Bytes, count: nat, blocks: nat, e: nat): (r: Result<seq<Exception>>)
    requires e <= count && 2 + EXCEPTION_SIZE * count <= |list|
    ensures r.Ok? ==> AllStorable(r.value, blocks) && |r.value| == count - e
    decreases count - e
  {
    if e == count then Ok([])
    else
      if !Storable(ExceptionAt(list, e), blocks) then Err(BadRecord)
      else
        var rest :- ParseExceptions(list, count, blocks, e + 1);
        Ok([ExceptionAt(list, e)] + rest)
  }

  lemma {:induction false} EntryAt(es: seq<Exception>, n: nat, e: nat)
    requires AllHashes(es) && e < n <= |es|
    ensures Entries(es, n)[EXCEPTION_SIZE * e..EXCEPTION_SIZE * e + EXCEPTION_SIZE] == Entry(es[e])
  {
    hide Entry;
    if e < n - 1 {
      EntryAt(es, n - 1, e);
      var shorter := Entries(es, n - 1);
      assert Entries(es, n)[EXCEPTION_SIZE * e..EXCEPTION_SIZE * e + EXCEPTION_SIZE]
          == shorter[EXCEPTION_SIZE * e..EXCEPTION_SIZE * e + EXCEPTION_SIZE];
    }
  }

  /** A list that was written reads back, whatever follows it. */
  lemma {:induction false} ListReads(es: seq<Exception>, tail: Bytes, blocks: nat, e: nat)
    requires AllStorable(es, blocks) && blocks <= BLOCKS_PER_GROUP && e <= |es|
    ensures ParseExceptions(ExceptionList(es) + tail, |es|, blocks, e) == Ok(es[e..])
    decreases |es| - e
  {
    hide Be16, Get16, Entries;
    if e == |es| {
      assert es[e..] == [];
    } else {
      var list := ExceptionList(es) + tail;
      var o := 2 + e * EXCEPTION_SIZE;
      EntryAt(es, |es|, e);
      assert list[o..o + EXCEPTION_SIZE] == Entry(es[e]);
      assert list[o..o + 2] == Entry(es[e])[..2] == Be16(es[e].offset % 0x1_0000);
      assert list[o + 2..o + EXCEPTION_SIZE] == Entry(es[e])[2..] == es[e].hash;
      OffsetFits(es[e], blocks);
      GetPut16(list, o, es[e].offset);
      assert Exception(Get16(list, o), list[o + 2..o + EXCEPTION_SIZE]) == es[e];
      ListReads(es, tail, blocks, e + 1);
      assert es[e..] == [es[e]] + es[e + 1..];
    }
  }

  lemma OffsetFits(e: Exception, blocks: nat)
    requires Storable(e, blocks) && blocks <= BLOCKS_PER_GROUP
    ensures e.offset < 0x1_0000
  {}

  lemma CountReads(es: seq<Exception>, tail: Bytes)
    requires AllHashes(es) && |es| < 0x1_0000
    ensures Get16(ExceptionList(es) + tail, 0) == |es|
  {
    hide Entries, Be16, Get16;
    var list := ExceptionList(es) + tail;
    assert list[0..2] == Be16(|es|);
    GetPut16(list, 0, |es|);
  }

  // ---------- filing by block ----------

  type Filing = seq<seq<Patch>>

  predicate ValidFiling(ex: Filing) {
    |ex| == BLOCKS_PER_GROUP && forall i | 0 <= i < BLOCKS_PER_GROUP :: AllFit(ex[i])
  }

  function NoPatches(): (ex: Filing)
    ensures ValidFiling(ex)
  {
    seq(BLOCKS_PER_GROUP, _ => [])
  }

  function PatchOf(e: Exception): Patch {
    Patch(e.offset % BLOCK_HEADER_SIZE, e.hash)
  }

  predicate AllPatchable(es: seq<Exception>) {
    forall i | 0 <= i < |es| :: Fits(PatchOf(es[i]))
  }

  function FiledOne(ex: Filing, first: nat, e: Exception): (r: Filing)
    requires ValidFiling(ex) && Fits(PatchOf(e))
    ensures ValidFiling(r)
  {
    var g := (first + e.offset / BLOCK_HEADER_SIZE) % BLOCKS_PER_GROUP;
    ex[g := ex[g] + [PatchOf(e)]]
  }

  /** A chunk's exceptions go to the blocks of its group; the chunk's first block has number `first`. */
  function Filed(ex: Filing, first: nat, es: seq<Exception>): (r: Filing)
    requires ValidFiling(ex) && AllPatchable(es)
    ensures ValidFiling(r)
    decreases |es|
  {
    if es == [] then ex else Filed(FiledOne(ex, first, es[0]), first, es[1..])
  }

  lemma {:induction false} FiledJoin(ex: Filing, first: nat, a: seq<Exception>, b: seq<Exception>)
    requires ValidFiling(ex) && AllPatchable(a) && AllPatchable(b)
    ensures AllPatchable(a + b)
    ensures Filed(ex, first, a + b) == Filed(Filed(ex, first, a), first, b)
    decreases |a|
  {
    hide FiledOne, Fits;
    if a == [] {
      assert a + b == b;
    } else {
      assert (a + b)[1..] == a[1..] + b;
      FiledJoin(FiledOne(ex, first, a[0]), first, a[1..], b);
    }
  }

  lemma LocatedPatch(block: nat, ps: seq<Patch>, i: nat)
    requires AllFit(ps) && i < |ps|
    ensures var e := Located(block, ps)[i];
            PatchOf(e) == ps[i] && e.offset / BLOCK_HEADER_SIZE == block && Fits(PatchOf(e))
  {}

  /** A block's exceptions end up, in order, with that block. */
  lemma {:induction false} FiledLocated(ex: Filing, first: nat, block: nat, ps: seq<Patch>)
    requires ValidFiling(ex) && AllFit(ps)
    ensures AllPatchable(Located(block, ps))
    ensures var g := (first + block) % BLOCKS_PER_GROUP;
            Filed(ex, first, Located(block, ps)) == ex[g := ex[g] + ps]
    decreases |ps|
  {
    hide PatchOf, Fits;
    var es, g := Located(block, ps), (first + block) % BLOCKS_PER_GROUP;
    forall i | 0 <= i < |es|
      ensures Fits(PatchOf(es[i]))
    {
      LocatedPatch(block, ps, i);
    }
    if ps == [] {
      assert ex[g] + ps == ex[g];
      assert es == [] && ex[g := ex[g] + ps] == ex;
    } else {
      LocatedPatch(block, ps, 0);
      assert es[1..] == Located(block, ps[1..]);
      var after := FiledOne(ex, first, es[0]);
      FiledLocated(after, first, block, ps[1..]);
      assert ex[g] + [ps[0]] + ps[1..] == ex[g] + ps;
    }
  }

  /** The exceptions of the first `n` blocks of a chunk. */
  function ChunkExceptions(patches: seq<seq<Patch>>, n: nat): seq<Exception>
    requires n <= |patches|
  {
    if n == 0 then [] else ChunkExceptions(patches, n - 1) + Located(n - 1, patches[n - 1])
  }

  predicate AllFitAll(patches: seq<seq<Patch>>) {
    forall b | 0 <= b < |patches| :: OfOneBlock(patches[b])
  }

  /** They can be written, and are at most 52 a block. */
  lemma {:induction false} ChunkExceptionsFit(patches: seq<seq<Patch>>, n: nat)
    requires n <= |patches| && AllFitAll(patches)
    ensures AllStorable(ChunkExceptions(patches, n), n) && AllPatchable(ChunkExceptions(patches, n))
    ensures |ChunkExceptions(patches, n)| <= MAX_PER_BLOCK * n
  {
    if n > 0 {
      ChunkExceptionsFit(patches, n - 1);
      LocatedFits(n - 1, patches[n - 1]);
      StorableJoin(ChunkExceptions(patches, n - 1), Located(n - 1, patches[n - 1]), n - 1);
    }
  }

  lemma LocatedFits(block: nat, ps: seq<Patch>)
    requires AllFit(ps)
    ensures AllStorable(Located(block, ps), block + 1) && AllPatchable(Located(block, ps))
  {
    hide Located;
    var es := Located(block, ps);
    forall i | 0 <= i < |es|
      ensures Storable(es[i], block + 1) && Fits(PatchOf(es[i]))
    {
      LocatedPatch(block, ps, i);
    }
  }

  lemma StorableJoin(a: seq<Exception>, b: seq<Exception>, blocks: nat)
    requires AllStorable(a, blocks) && AllStorable(b, blocks + 1) && AllPatchable(a) && AllPatchable(b)
    ensures AllStorable(a + b, blocks + 1) && AllPatchable(a + b)
  {
    hide Fits, PatchOf;
    forall i | 0 <= i < |a + b|
      ensures Storable((a + b)[i], blocks + 1) && Fits(PatchOf((a + b)[i]))
    {
      assert (a + b)[i] == if i < |a| then a[i] else b[i - |a|];
    }
  }

  /** The patches of each block of a group, after those of the first `n` blocks of a chunk were added. */
  function Added(ex: Filing, first: nat, patches: seq<seq<Patch>>, n: nat): (r: Filing)
    requires ValidFiling(ex) && AllFitAll(patches) && n <= |patches|
    requires first % BLOCKS_PER_GROUP + n <= BLOCKS_PER_GROUP
    ensures ValidFiling(r)
  {
    var f := first % BLOCKS_PER_GROUP;
    seq(BLOCKS_PER_GROUP, g requires 0 <= g < BLOCKS_PER_GROUP =>
      if f <= g < f + n then ex[g] + patches[g - f] else ex[g])
  }

  lemma AddedOne(ex: Filing, first: nat, patches: seq<seq<Patch>>, n: nat)
    requires ValidFiling(ex) && AllFitAll(patches) && n < |patches|
    requires first % BLOCKS_PER_GROUP + n < BLOCKS_PER_GROUP
    ensures var g, r := (first + n) % BLOCKS_PER_GROUP, Added(ex, first, patches, n);
            Added(ex, first, patches, n + 1) == r[g := r[g] + patches[n]]
  {
    hide ValidFiling, AllFitAll;
    assert (first + n) % BLOCKS_PER_GROUP == first % BLOCKS_PER_GROUP + n;
  }

  /** Filing a chunk's exceptions adds to each block its own. */
  lemma {:induction false} ChunkFiled(ex: Filing, first: nat, patches: seq<seq<Patch>>, n: nat)
    requires ValidFiling(ex) && AllFitAll(patches) && n <= |patches|
    requires first % BLOCKS_PER_GROUP + n <= BLOCKS_PER_GROUP
    ensures AllPatchable(ChunkExceptions(patches, n))
    ensures Filed(ex, first, ChunkExceptions(patches, n)) == Added(ex, first, patches, n)
  {
    hide PatchOf, Located, Fits, Added, Filed, AllPatchable, AllFit;
    if n == 0 {
      NothingFiled(ex, first, patches);
    } else {
      ChunkFiled(ex, first, patches, n - 1);
      FiledLocated(Added(ex, first, patches, n - 1), first, n - 1, patches[n - 1]);
      FiledJoin(ex, first, ChunkExceptions(patches, n - 1), Located(n - 1, patches[n - 1]));
      AddedOne(ex, first, patches, n - 1);
    }
  }

  lemma NothingFiled(ex: Filing, first: nat, patches: seq<seq<Patch>>)
    requires ValidFiling(ex) && AllFitAll(patches)
    ensures AllPatchable([]) && Filed(ex, first, []) == Added(ex, first, patches, 0)
  {
    assert Added(ex, first, patches, 0) == ex;
  }
}
