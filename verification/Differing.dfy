/** Which stretches of the headers a chunk's list of exceptions holds, and how the list is written. */
module Differing {
  import opened BigEndian
  import opened Format
  import opened Exceptions

  /**
   Where headers are compared, 20 bytes at a time: through each kind of hash and of gap, the last comparison
   of each moved back to end with it.
   */
  predicate Compared(slot: nat) {
    || (slot < 620 && slot % 20 == 0) || slot == 620
    || (0x280 <= slot < 0x320 && (slot - 0x280) % 20 == 0) || slot == 0x320 || slot == 0x32c
    || (0x340 <= slot < 0x3e0 && (slot - 0x340) % 20 == 0) || slot == 0x3e0 || slot == 0x3ec
  }

  predicate Rising(slots: seq<nat>) {
    forall a, b | 0 <= a < b < |slots| :: slots[a] < slots[b]
  }

  lemma RangeIs(base: nat, size: nat, s: nat)
    requires size >= HASH_SIZE
    ensures s in RangeSlots(base, size)
       <==> base <= s <= base + size - 20 && ((s - base) % 20 == 0 || s == base + size - 20)
  {
    var slots := RangeSlots(base, size);
    if base <= s <= base + size - 20 && ((s - base) % 20 == 0 || s == base + size - 20) {
      var i := if (s - base) % 20 == 0 then (s - base) / 20 else |slots| - 1;
      assert 0 <= i < |slots| && slots[i] == s;
    }
  }

  lemma RangeRises(base: nat, size: nat)
    requires size >= HASH_SIZE
    ensures Rising(RangeSlots(base, size))
  {}

  lemma RisingJoin(a: seq<nat>, b: seq<nat>)
    requires Rising(a) && Rising(b) && forall x, y | x in a && y in b :: x < y
    ensures Rising(a + b)
  {
    forall i, k | 0 <= i < k < |a + b|
      ensures (a + b)[i] < (a + b)[k]
    {
      assert i < |a| ==> (a + b)[i] in a;
      assert k >= |a| ==> (a + b)[k] in b && (a + b)[k] == b[k - |a|];
    }
  }

  /** All slots of ranges lie in them, the ranges being in order. */
  lemma {:induction false} RangesRise(ranges: seq<(nat, nat)>)
    requires forall r | r in ranges :: r.1 >= HASH_SIZE
    requires forall a, b | 0 <= a < b < |ranges| :: ranges[a].0 + ranges[a].1 <= ranges[b].0
    ensures Rising(SlotsOf(ranges))
    ensures forall s | s in SlotsOf(ranges) :: exists r :: r in ranges && s in RangeSlots(r.0, r.1)
    ensures forall r, s | r in ranges && s in RangeSlots(r.0, r.1) :: s in SlotsOf(ranges)
  {
    hide RangeSlots, Rising;
    if ranges == [] {
      assert Rising(SlotsOf(ranges)) by {
        NoneRise();
      }
    } else {
      var first := ranges[0];
      RangesRise(ranges[1..]);
      RangeRises(first.0, first.1);
      forall x, y | x in RangeSlots(first.0, first.1) && y in SlotsOf(ranges[1..])
        ensures x < y
      {
        var r :| r in ranges[1..] && y in RangeSlots(r.0, r.1);
        RangeIs(first.0, first.1, x);
        RangeIs(r.0, r.1, y);
      }
      RisingJoin(RangeSlots(first.0, first.1), SlotsOf(ranges[1..]));
    }
  }

  lemma NoneRise()
    ensures Rising([])
  {}

  /** The slots are just those compared, each once and in order. */
  lemma SlotsAre(s: nat)
    ensures SlotsFit(SlotsOf(RANGES)) && Rising(SlotsOf(RANGES))
    ensures s in SlotsOf(RANGES) <==> Compared(s)
  {
    hide SlotsOf, RangeSlots, Rising;
    RangesFit();
    RangesRise(RANGES);
    RangeIs(0, 620, s);
    RangeIs(620, 20, s);
    RangeIs(0x280, 160, s);
    RangeIs(0x320, 32, s);
    RangeIs(0x340, 160, s);
    RangeIs(0x3e0, 32, s);
    assert RANGES[0] == (0, 620) && RANGES[1] == (620, 20) && RANGES[2] == (0x280, 160);
    assert RANGES[3] == (0x320, 32) && RANGES[4] == (0x340, 160) && RANGES[5] == (0x3e0, 32);
  }

  // ---------- one header ----------

  /** A stretch of a header that is compared and differs, as the header has it. */
  predicate DiffersAt(orig: Bytes, recomputed: Bytes, p: Patch)
    requires |orig| == |recomputed| == 0x400
  {
    && Compared(p.slot) && p.slot + 20 <= 0x400 && p.hash == orig[p.slot..p.slot + 20]
    && orig[p.slot..p.slot + 20] != recomputed[p.slot..p.slot + 20]
  }

  predicate PatchesRise(ps: seq<Patch>) {
    forall a, b | 0 <= a < b < |ps| :: ps[a].slot < ps[b].slot
  }

  lemma {:induction false} DifferencesAre(orig: Bytes, recomputed: Bytes, slots: seq<nat>)
    requires |orig| == |recomputed| == 0x400 && SlotsFit(slots) && Rising(slots)
    ensures var ps := Differences(orig, recomputed, slots);
            && PatchesRise(ps)
            && forall p :: p in ps <==> p.slot in slots && p.hash == orig[p.slot..p.slot + 20]
                                        && Differs(orig, recomputed, p.slot)
  {
    if slots != [] {
      var s, rest := slots[0], Differences(orig, recomputed, slots[1..]);
      DifferencesAre(orig, recomputed, slots[1..]);
      hide Differs, Differences;
      forall p | p in rest
        ensures s < p.slot
      {
        var k :| 0 <= k < |slots[1..]| && slots[1..][k] == p.slot;
        assert slots[0] < slots[k + 1];
      }
      hide SlotsFit, Rising;
      assert Differences(orig, recomputed, slots) == Difference(orig, recomputed, s) + rest by {
        FirstDifference(orig, recomputed, slots);
      }
      assert Difference(orig, recomputed, s)
          == if Differs(orig, recomputed, s) then [Patch(s, orig[s..s + 20])] else [];
      assert forall x :: x in slots <==> x == s || x in slots[1..];
    } else {
      NoDifferences(orig, recomputed);
    }
  }

  lemma FirstDifference(orig: Bytes, recomputed: Bytes, slots: seq<nat>)
    requires |orig| == |recomputed| == 0x400 && SlotsFit(slots) && slots != []
    ensures Differences(orig, recomputed, slots)
         == Difference(orig, recomputed, slots[0]) + Differences(orig, recomputed, slots[1..])
  {}

  /** What a header needs is just where it is compared and differs, in order. */
  lemma HeaderPatchesAre(orig: Bytes, recomputed: Bytes, p: Patch)
    requires |orig| == |recomputed| == 0x400
    ensures PatchesRise(HeaderPatches(orig, recomputed))
    ensures p in HeaderPatches(orig, recomputed) <==> DiffersAt(orig, recomputed, p)
  {
    hide SlotsOf, Differences, Compared, Rising, PatchesRise, HeaderPatches;
    SlotsAre(p.slot);
    PatchesAre(orig, recomputed);
    DifferencesAre(orig, recomputed, SlotsOf(RANGES));
    if Compared(p.slot) {
      var k :| 0 <= k < |SlotsOf(RANGES)| && SlotsOf(RANGES)[k] == p.slot;
    }
  }

  // ---------- a chunk ----------

  predicate OffsetsRise(es: seq<Exception>) {
    forall a, b | 0 <= a < b < |es| :: es[a].offset < es[b].offset
  }

  lemma LocatedAre(block: nat, ps: seq<Patch>)
    requires AllFit(ps) && PatchesRise(ps)
    ensures var es := Located(block, ps);
            && OffsetsRise(es)
            && forall e :: e in es <==> e.offset / 0x400 == block && Patch(e.offset % 0x400, e.hash) in ps
  {
    var es := Located(block, ps);
    forall e
      ensures e in es <==> e.offset / 0x400 == block && Patch(e.offset % 0x400, e.hash) in ps
    {
      if e in es {
        var k :| 0 <= k < |es| && es[k] == e;
        assert ps[k] == Patch(e.offset % 0x400, e.hash);
      }
      if e.offset / 0x400 == block && Patch(e.offset % 0x400, e.hash) in ps {
        var k :| 0 <= k < |ps| && ps[k] == Patch(e.offset % 0x400, e.hash);
        assert es[k] == e;
      }
    }
  }

  predicate AllRise(patches: seq<seq<Patch>>) {
    forall b | 0 <= b < |patches| :: PatchesRise(patches[b])
  }

  /** A chunk's exceptions are what its blocks' headers need, block after block. */
  lemma {:induction false} ChunkExceptionsAre(patches: seq<seq<Patch>>, n: nat)
    requires n <= |patches| && AllFitAll(patches) && AllRise(patches)
    ensures var es := ChunkExceptions(patches, n);
            && OffsetsRise(es)
            && forall e :: e in es
                 <==> e.offset / 0x400 < n && Patch(e.offset % 0x400, e.hash) in patches[e.offset / 0x400]
  {
    hide Located, PatchesRise, OffsetsRise;
    if n == 0 {
      NoOffsets();
    } else {
      var before, mine := ChunkExceptions(patches, n - 1), Located(n - 1, patches[n - 1]);
      ChunkExceptionsAre(patches, n - 1);
      LocatedAre(n - 1, patches[n - 1]);
      OffsetsJoin(before, mine, n - 1);
    }
  }

  lemma NoOffsets()
    ensures OffsetsRise([])
  {}

  lemma OffsetsJoin(a: seq<Exception>, b: seq<Exception>, n: nat)
    requires OffsetsRise(a) && OffsetsRise(b)
    requires (forall e | e in a :: e.offset / 0x400 < n) && forall e | e in b :: e.offset / 0x400 == n
    ensures OffsetsRise(a + b)
  {
    forall i, k | 0 <= i < k < |a + b|
      ensures (a + b)[i].offset < (a + b)[k].offset
    {
      if i < |a| <= k {
        assert (a + b)[i] in a && (a + b)[k] in b;
      }
    }
  }

  // ---------- as it is written ----------

  /** Two bytes for the offset, 20 for the hash. */
  predicate EntrySaid(list: Bytes, o: nat, e: Exception) {
    && o + 22 <= |list| && Number(list, o, 2) == e.offset && list[o + 2..o + 22] == e.hash
  }

  /** The list as it is written: how many, then each. */
  predicate ListSaid(list: Bytes, es: seq<Exception>) {
    && |list| == 2 + 22 * |es| && Number(list, 0, 2) == |es|
    && forall k | 0 <= k < |es| :: EntrySaid(list, 2 + 22 * k, es[k])
  }

  lemma ListIs(es: seq<Exception>)
    requires AllHashes(es) && |es| < 0x1_0000 && forall k | 0 <= k < |es| :: es[k].offset < 0x1_0000
    ensures ListSaid(ExceptionList(es), es)
  {
    hide Be16, Number, Entries;
    var list := ExceptionList(es);
    assert list[0..2] == Be16(|es|);
    Put16(list, 0, |es|);
    forall k | 0 <= k < |es|
      ensures EntrySaid(list, 2 + 22 * k, es[k])
    {
      EntryAt(es, |es|, k);
      var o, entry := 2 + 22 * k, Entry(es[k]);
      assert list[o..o + 22] == Entries(es, |es|)[22 * k..22 * k + 22];
      SubSlice(list, o, 22, 0, 2);
      SubSlice(list, o, 22, 2, 22);
      assert entry[0..2] == Be16(es[k].offset) && entry[2..22] == es[k].hash;
      Put16(list, o, es[k].offset);
    }
  }

  lemma Put16(b: Bytes, o: nat, n: nat)
    requires n < 0x1_0000 && o + 2 <= |b| && b[o..o + 2] == Be16(n)
    ensures Number(b, o, 2) == n
  {
    hide Be16, Number;
    GetPut16(b, o, n);
    Number16(b, o);
  }
}
