/** Which partitions the encoder finds on a disc and takes in, said by the bytes of the disc. */
module Discovery {
  import opened Sizes
  import opened BigEndian
  import opened Format
  import opened Chunking
  import opened DiscBlocks
  import opened Planning
  import Sorting

  // ---------- the four tables ----------

  /** How many entries table `g` has, and where they start; the disc says so from 0x40000 on. */
  function TableCount(iso: Bytes, g: nat): nat
    requires 0x4_0020 <= |iso| && g < 4
  {
    Number(iso, 0x4_0000 + 8 * g, 4)
  }

  function TableStart(iso: Bytes, g: nat): nat
    requires 0x4_0020 <= |iso| && g < 4
  {
    4 * Number(iso, 0x4_0004 + 8 * g, 4)
  }

  /** That table `g` lies on the disc and has an entry `i`. */
  predicate HasEntry(iso: Bytes, g: nat, i: nat) {
    && 0x4_0020 <= |iso| && g < 4
    && TableStart(iso, g) + 8 * TableCount(iso, g) <= |iso| && i < TableCount(iso, g)
  }

  /** The entry: a quarter of the partition's position, and its type. */
  function EntryOf(iso: Bytes, g: nat, i: nat): Candidate
    requires HasEntry(iso, g, i)
  {
    var o := TableStart(iso, g) + 8 * i;
    Candidate(4 * Number(iso, o, 4), Number(iso, o + 4, 4))
  }

  /** That the entry names `x`, and `x` starts on the disc. */
  predicate Names(iso: Bytes, g: nat, i: nat, x: Candidate) {
    HasEntry(iso, g, i) && EntryOf(iso, g, i) == x && x.offset < |iso|
  }

  /** Where `x` is named: in which tables, by which entries. */
  ghost function Places(iso: Bytes, x: Candidate): set<(nat, nat)> {
    set g: nat, i: nat | g < 4 && i < U32 && Names(iso, g, i, x) :: (g, i)
  }

  ghost function PlacesIn(iso: Bytes, x: Candidate, g: nat, from: nat): set<(nat, nat)> {
    set i: nat | from <= i < U32 && Names(iso, g, i, x) :: (g, i)
  }

  ghost function PlacesFrom(iso: Bytes, x: Candidate, from: nat): set<(nat, nat)> {
    set g: nat, i: nat | from <= g < 4 && i < U32 && Names(iso, g, i, x) :: (g, i)
  }

  lemma TableReads(iso: Bytes, g: nat)
    requires 0x4_0020 <= |iso| && g < 4
    ensures var header := ReadAt(iso, PARTITION_TABLE_OFFSET, 0x20);
            && |header| == 0x20 && Get32(header, g * 8) == TableCount(iso, g)
            && Get32(header, g * 8 + 4) * 4 == TableStart(iso, g)
  {
    hide Get32, Number;
    var header := ReadAt(iso, PARTITION_TABLE_OFFSET, 0x20);
    Number32(header, g * 8);
    Number32(header, g * 8 + 4);
    SubSlice(iso, 0x4_0000, 0x20, g * 8, g * 8 + 4);
    SubSlice(iso, 0x4_0000, 0x20, g * 8 + 4, g * 8 + 8);
    NumberSame(header, g * 8, iso, 0x4_0000 + 8 * g, 4);
    NumberSame(header, g * 8 + 4, iso, 0x4_0004 + 8 * g, 4);
  }

  lemma EntryReads(iso: Bytes, g: nat, i: nat)
    requires HasEntry(iso, g, i)
    ensures var table := ReadAt(iso, TableStart(iso, g), TableCount(iso, g) * 8);
            && |table| == TableCount(iso, g) * 8 && i * 8 + 8 <= |table|
            && Candidate(Get32(table, i * 8) * 4, Get32(table, i * 8 + 4)) == EntryOf(iso, g, i)
  {
    hide Get32, Number;
    var at, n := TableStart(iso, g), TableCount(iso, g) * 8;
    var table := ReadAt(iso, at, n);
    Number32(table, i * 8);
    Number32(table, i * 8 + 4);
    SubSlice(iso, at, n, i * 8, i * 8 + 4);
    SubSlice(iso, at, n, i * 8 + 4, i * 8 + 8);
    NumberSame(table, i * 8, iso, at + 8 * i, 4);
    NumberSame(table, i * 8 + 4, iso, at + 8 * i + 4, 4);
  }

  lemma CountBelow(iso: Bytes, g: nat)
    requires 0x4_0020 <= |iso| && g < 4
    ensures TableCount(iso, g) < U32
  {
    hide Number;
    Number32(iso, 0x4_0000 + 8 * g);
  }

  lemma PlacesNext(iso: Bytes, x: Candidate, g: nat, i: nat)
    requires i < U32
    ensures |PlacesIn(iso, x, g, i)| == |PlacesIn(iso, x, g, i + 1)| + if Names(iso, g, i, x) then 1 else 0
  {
    hide Names;
    if Names(iso, g, i, x) {
      assert PlacesIn(iso, x, g, i) == PlacesIn(iso, x, g, i + 1) + {(g, i)};
    } else {
      assert PlacesIn(iso, x, g, i) == PlacesIn(iso, x, g, i + 1);
    }
  }

  /** The entries of a table from `i` on that start on the disc, as many times as they are named. */
  lemma {:induction false} EntriesNamed(iso: Bytes, table: Bytes, x: Candidate, g: nat, i: nat)
    requires 0x4_0020 <= |iso| && g < 4 && i <= TableCount(iso, g)
    requires TableStart(iso, g) + 8 * TableCount(iso, g) <= |iso|
    requires table == ReadAt(iso, TableStart(iso, g), TableCount(iso, g) * 8)
    ensures |table| == TableCount(iso, g) * 8
    ensures multiset(EntriesFrom(iso, table, TableCount(iso, g), i))[x] == |PlacesIn(iso, x, g, i)|
    decreases TableCount(iso, g) - i
  {
    hide Get32, TableCount, TableStart, PlacesIn, EntriesFrom;
    CountBelow(iso, g);
    if i < TableCount(iso, g) {
      EntriesNamed(iso, table, x, g, i + 1);
      EntriesStep(iso, x, g, i);
      PlacesNext(iso, x, g, i);
    } else {
      NoPlaces(iso, x, g, i);
      NoEntries(iso, table, i);
    }
  }

  lemma NoEntries(iso: Bytes, table: Bytes, count: nat)
    requires count * 8 <= |table|
    ensures EntriesFrom(iso, table, count, count) == []
  {}

  lemma EntriesStep(iso: Bytes, x: Candidate, g: nat, i: nat)
    requires HasEntry(iso, g, i)
    ensures var table, count := ReadAt(iso, TableStart(iso, g), TableCount(iso, g) * 8), TableCount(iso, g);
            && |table| == count * 8
            && multiset(EntriesFrom(iso, table, count, i))[x]
                == multiset(EntriesFrom(iso, table, count, i + 1))[x] + if Names(iso, g, i, x) then 1 else 0
  {
    EntryReads(iso, g, i);
    hide Get32, TableCount, TableStart;
    var rest := EntriesFrom(iso, ReadAt(iso, TableStart(iso, g), TableCount(iso, g) * 8), TableCount(iso, g), i + 1);
    Counted(EntryOf(iso, g, i), rest, x);
    hide EntryOf;
  }

  lemma Counted(c: Candidate, rest: seq<Candidate>, x: Candidate)
    ensures multiset([c] + rest)[x] == multiset(rest)[x] + if c == x then 1 else 0
    ensures [] + rest == rest
  {}

  lemma NoPlaces(iso: Bytes, x: Candidate, g: nat, i: nat)
    requires forall k: nat | i <= k :: !HasEntry(iso, g, k)
    ensures PlacesIn(iso, x, g, i) == {}
  {
    hide HasEntry;
  }

  lemma TableNamed(iso: Bytes, x: Candidate, g: nat)
    requires 0x4_0020 <= |iso| && g < 4
    ensures var header := ReadAt(iso, PARTITION_TABLE_OFFSET, 0x20);
            |header| == 0x20 && multiset(TableEntries(iso, header, g))[x] == |PlacesIn(iso, x, g, 0)|
  {
    hide Get32, TableCount, TableStart, PlacesIn, EntriesFrom;
    TableReads(iso, g);
    if TableStart(iso, g) + 8 * TableCount(iso, g) <= |iso| && TableCount(iso, g) > 0 {
      EntriesNamed(iso, ReadAt(iso, TableStart(iso, g), TableCount(iso, g) * 8), x, g, 0);
    } else {
      NoPlaces(iso, x, g, 0);
    }
  }

  lemma PlacesSplit(iso: Bytes, x: Candidate, g: nat)
    requires g < 4
    ensures |PlacesFrom(iso, x, g)| == |PlacesIn(iso, x, g, 0)| + |PlacesFrom(iso, x, g + 1)|
  {
    hide Names;
    assert PlacesFrom(iso, x, g) == PlacesIn(iso, x, g, 0) + PlacesFrom(iso, x, g + 1);
    assert PlacesIn(iso, x, g, 0) !! PlacesFrom(iso, x, g + 1);
  }

  lemma {:induction false} TablesNamed(iso: Bytes, x: Candidate, g: nat)
    requires 0x4_0020 <= |iso| && g <= 4
    ensures var header := ReadAt(iso, PARTITION_TABLE_OFFSET, 0x20);
            |header| == 0x20 && multiset(TablesFrom(iso, header, g))[x] == |PlacesFrom(iso, x, g)|
    decreases 4 - g
  {
    hide TableEntries, PlacesIn, PlacesFrom;
    if g < 4 {
      TableNamed(iso, x, g);
      TablesNamed(iso, x, g + 1);
      PlacesSplit(iso, x, g);
    } else {
      assert PlacesFrom(iso, x, 4) == {} by {
        NoTables(iso, x);
      }
    }
  }

  lemma NoTables(iso: Bytes, x: Candidate)
    ensures PlacesFrom(iso, x, 4) == {}
  {}

  /** A candidate is found as many times as an entry of one of the four tables names it, and so found at all. */
  lemma FoundAsNamed(iso: Bytes, x: Candidate)
    ensures multiset(Candidates(iso))[x] == |Places(iso, x)|
    ensures x in Candidates(iso) <==> exists g: nat, i: nat :: Names(iso, g, i, x)
  {
    hide TablesFrom, Names;
    if |iso| < 0x4_0020 {
      NoRoom(iso, x);
    } else {
      TablesNamed(iso, x, 0);
      Sorting.SortedKeeps(OffsetKey, TablesFrom(iso, ReadAt(iso, PARTITION_TABLE_OFFSET, 0x20), 0));
      assert Places(iso, x) == PlacesFrom(iso, x, 0);
    }
    hide Candidates;
    assert x in Candidates(iso) <==> multiset(Candidates(iso))[x] > 0;
    if Places(iso, x) != {} {
      var p :| p in Places(iso, x);
    }
    if g: nat, i: nat :| Names(iso, g, i, x) {
      NamesBelow(iso, g, i, x);
      assert (g, i) in Places(iso, x);
    }
  }

  lemma NoRoom(iso: Bytes, x: Candidate)
    requires |iso| < 0x4_0020
    ensures Places(iso, x) == {}
  {}

  lemma NamesBelow(iso: Bytes, g: nat, i: nat, x: Candidate)
    requires Names(iso, g, i, x)
    ensures g < 4 && i < U32
  {
    CountBelow(iso, g);
  }

  // ---------- what makes a candidate a partition ----------

  /** Where a partition's data is, as its header says, and how long it claims to be. */
  function ClaimedStart(iso: Bytes, o: nat): nat
    requires o + 0x2c0 <= |iso|
  {
    o + 4 * Number(iso, o + 0x2b8, 4)
  }

  function ClaimedSize(iso: Bytes, o: nat): nat
    requires o + 0x2c0 <= |iso|
  {
    4 * Number(iso, o + 0x2bc, 4)
  }

  /** It has a header with the right number at its start, and claims blocks at a block's start. */
  predicate LooksRight(iso: Bytes, o: nat) {
    && o + 0x2c0 <= |iso| && Number(iso, o, 4) == 0x1_0001
    && ClaimedStart(iso, o) % 0x8000 == 0 && 0x8000 <= ClaimedSize(iso, o)
  }

  /** There is at least a block of it on the disc. */
  predicate IsPartition(iso: Bytes, o: nat) {
    LooksRight(iso, o) && ClaimedStart(iso, o) + 0x8000 <= |iso|
  }

  /** The key in the ticket, decrypted with the title's number as vector. */
  function KeyAt(c: Codec, iso: Bytes, o: nat): Bytes
    requires o + 0x2c0 <= |iso|
  {
    c.decrypt(c.commonKey, iso[o + 0x1dc..o + 0x1e4] + seq(8, _ => 0), iso[o + 0x1bf..o + 0x1cf])
  }

  /** The first block's data, decrypted. */
  function FirstData(c: Codec, iso: Bytes, o: nat): (data: Bytes)
    requires IsPartition(iso, o)
    ensures |data| == 0x7c00
  {
    DataAt(c, KeyAt(c, iso, o), iso, ClaimedStart(iso, o))
  }

  lemma HeaderReads(iso: Bytes, o: nat)
    requires o + 0x2c0 <= |iso|
    ensures var header := ReadAt(iso, o, PARTITION_HEADER_SIZE);
            && |header| == 0x2c0 && Get32(header, 0) == Number(iso, o, 4)
            && o + Get32(header, 0x2b8) * 4 == ClaimedStart(iso, o) && Get32(header, 0x2bc) * 4 == ClaimedSize(iso, o)
            && header[0x1dc..0x1e4] == iso[o + 0x1dc..o + 0x1e4] && header[0x1bf..0x1cf] == iso[o + 0x1bf..o + 0x1cf]
  {
    hide Get32, Number;
    var header := ReadAt(iso, o, PARTITION_HEADER_SIZE);
    Number32(header, 0);
    Number32(header, 0x2b8);
    Number32(header, 0x2bc);
    SubSlice(iso, o, 0x2c0, 0, 4);
    SubSlice(iso, o, 0x2c0, 0x2b8, 0x2bc);
    SubSlice(iso, o, 0x2c0, 0x2bc, 0x2c0);
    SubSlice(iso, o, 0x2c0, 0x1dc, 0x1e4);
    SubSlice(iso, o, 0x2c0, 0x1bf, 0x1cf);
    NumberSame(header, 0, iso, o, 4);
    NumberSame(header, 0x2b8, iso, o + 0x2b8, 4);
    NumberSame(header, 0x2bc, iso, o + 0x2bc, 4);
  }

  lemma FirstBlockReads(c: Codec, iso: Bytes, o: nat)
    requires IsPartition(iso, o)
    ensures var block := ReadAt(iso, ClaimedStart(iso, o), BLOCK_TOTAL_SIZE);
            && |block| == BLOCK_TOTAL_SIZE
            && FileTable(c, KeyAt(c, iso, o), block)
                == (4 * Number(FirstData(c, iso, o), 0x424, 4), 4 * Number(FirstData(c, iso, o), 0x428, 4))
  {
    hide Get32, Number, ClaimedStart, ClaimedSize, KeyAt;
    var plain := FirstData(c, iso, o);
    BlockParts(c, KeyAt(c, iso, o), iso, ClaimedStart(iso, o));
    Number32(plain, 0x424);
    Number32(plain, 0x428);
  }

  /**
   A candidate is set up exactly when it is a partition on the disc, with what its header, its ticket
   and its first block say; it is an error, and not just no partition, only if its data is claimed to
   start behind the disc's end.
   */
  lemma SetUpExactly(c: Codec, iso: Bytes, o: nat)
    ensures var r := SetUp(c, iso, o);
            && (r.Err? <==> LooksRight(iso, o) && |iso| < ClaimedStart(iso, o))
            && (r.Ok? ==> (r.value.Some? <==> IsPartition(iso, o)))
            && (r.Ok? && r.value.Some? ==>
                  r.value.value == ValidPartition(o, KeyAt(c, iso, o), (ClaimedStart(iso, o) - o) % U32,
                    ClaimedStart(iso, o), Min(ClaimedSize(iso, o), |iso| - ClaimedStart(iso, o)),
                    4 * Number(FirstData(c, iso, o), 0x424, 4), 4 * Number(FirstData(c, iso, o), 0x428, 4)))
  {
    hide Get32, Number, FileTable, FirstData, ClaimedStart, ClaimedSize;
    if o + 0x2c0 <= |iso| {
      HeaderReads(iso, o);
      assert seq(8, _ => 0) == Zeroes(8);
      if IsPartition(iso, o) {
        FirstBlockReads(c, iso, o);
      }
    }
  }

  // ---------- what becomes of the partitions ----------

  function PartEnd(part: Partition): nat {
    (part.second.fs + part.second.ns) * 0x8000
  }

  /** The entry is that of the partition at `o`: its key, and where its data starts. */
  predicate EntryFrom(c: Codec, iso: Bytes, part: Partition, o: nat) {
    IsPartition(iso, o) && part.key == KeyAt(c, iso, o) && part.first.fs * 0x8000 == ClaimedStart(iso, o)
  }

  /** The partition at `o` has an entry, or lies inside another that has one and starts no later. */
  ghost predicate Accounted(c: Codec, iso: Bytes, parts: seq<Partition>, o: nat) {
    exists k, q: nat ::
      && 0 <= k < |parts| && EntryFrom(c, iso, parts[k], q)
      && q <= o && (q == o || o < PartEnd(parts[k]))
  }

  ghost predicate Found(c: Codec, iso: Bytes, part: Partition, cands: seq<Candidate>) {
    exists i :: 0 <= i < |cands| && EntryFrom(c, iso, part, cands[i].offset)
  }

  /** Every entry is that of a candidate. */
  ghost predicate AllFound(c: Codec, iso: Bytes, parts: seq<Partition>, cands: seq<Candidate>) {
    forall k | 0 <= k < |parts| :: Found(c, iso, parts[k], cands)
  }

  /** All before `o` lies before the end of an entry, or has been seen. */
  ghost predicate Behind(c: Codec, iso: Bytes, plan: Plan, o: nat) {
    plan.lastEnd <= o || Accounted(c, iso, plan.parts, o)
  }

  lemma AccountedMore(c: Codec, iso: Bytes, parts: seq<Partition>, more: seq<Partition>, o: nat)
    requires Accounted(c, iso, parts, o)
    ensures Accounted(c, iso, parts + more, o)
  {
    hide EntryFrom;
    var k, q: nat :| 0 <= k < |parts| && EntryFrom(c, iso, parts[k], q) && q <= o && (q == o || o < PartEnd(parts[k]));
    assert (parts + more)[k] == parts[k];
  }

  /** A partition that is taken gets an entry of its own, and nothing after it within its data is passed over unseen. */
  lemma TakenHasEntry(c: Codec, iso: Bytes, plan: Plan, cand: Candidate)
    requires plan.lastEnd <= cand.offset < 0x4_0000_0000 && IsPartition(iso, cand.offset)
    ensures var next := AddCandidate(c, iso, plan, cand);
            && next.Ok? && |next.value.parts| == |plan.parts| + 1 && next.value.parts[..|plan.parts|] == plan.parts
            && EntryFrom(c, iso, next.value.parts[|plan.parts|], cand.offset)
            && next.value.lastEnd == PartEnd(next.value.parts[|plan.parts|])
  {
    hide LooksRight, KeyAt, ClaimedStart, SetUp;
    SetUpExactly(c, iso, cand.offset);
    SetUpBounds(c, iso, cand.offset);
    var p := SetUp(c, iso, cand.offset).value.value;
    var before := AddRaw(Before(plan, cand.offset), p.offset, p.dataOffset);
    AddedEntry(before, iso, p);
    SamePartsRaw(plan, cand.offset, p);
  }

  lemma SamePartsRaw(plan: Plan, offset: nat, p: ValidPartition)
    requires plan.lastEnd <= offset
    ensures AddRaw(Before(plan, offset), p.offset, p.dataOffset).parts == plan.parts
  {}

  lemma AddedEntry(plan: Plan, iso: Bytes, p: ValidPartition)
    requires ValidData(p, iso)
    ensures var next := AddData(plan, p);
            && |next.parts| == |plan.parts| + 1 && next.parts[..|plan.parts|] == plan.parts
            && var part := next.parts[|plan.parts|];
               part.key == p.key && part.first.fs * 0x8000 == p.dataStart && next.lastEnd == PartEnd(part)
  {
    hide DataEntryFor, Split, ValidPart, EntryFits, AlignDown;
    Stretches(p, iso, plan.groups);
  }

  lemma NotTaken(c: Codec, iso: Bytes, plan: Plan, cand: Candidate)
    requires AddCandidate(c, iso, plan, cand).Ok?
    requires cand.offset < plan.lastEnd || !IsPartition(iso, cand.offset)
    ensures var next := AddCandidate(c, iso, plan, cand).value;
            next.parts == plan.parts && next.lastEnd == if cand.offset < plan.lastEnd then plan.lastEnd else cand.offset
  {
    hide IsPartition, KeyAt, ClaimedStart, SetUp;
    SetUpExactly(c, iso, cand.offset);
  }

  ghost predicate AllAccounted(c: Codec, iso: Bytes, parts: seq<Partition>, cands: seq<Candidate>) {
    forall i | 0 <= i < |cands| && IsPartition(iso, cands[i].offset) :: Accounted(c, iso, parts, cands[i].offset)
  }

  /** Up to `lastEnd` there is an entry's data, or no candidate to come. */
  ghost predicate NoneUnseen(c: Codec, iso: Bytes, plan: Plan, cands: seq<Candidate>) {
    forall i | 0 <= i < |cands| :: Behind(c, iso, plan, cands[i].offset)
  }

  lemma StepUnseen(c: Codec, iso: Bytes, plan: Plan, cands: seq<Candidate>)
    requires cands != [] && NoneUnseen(c, iso, plan, cands) && InRange(iso, cands)
    requires Sorting.Ordered(OffsetKey, cands) && AddCandidate(c, iso, plan, cands[0]).Ok?
    ensures var next := AddCandidate(c, iso, plan, cands[0]).value;
            && |plan.parts| <= |next.parts| && next.parts[..|plan.parts|] == plan.parts
            && NoneUnseen(c, iso, next, cands[1..])
            && (IsPartition(iso, cands[0].offset) ==> Accounted(c, iso, next.parts, cands[0].offset))
            && (|next.parts| == |plan.parts|
                  || (|next.parts| == |plan.parts| + 1 && EntryFrom(c, iso, next.parts[|plan.parts|], cands[0].offset)))
  {
    hide IsPartition, EntryFrom, AddCandidate, Accounted, PartEnd;
    var cand, next := cands[0], AddCandidate(c, iso, plan, cands[0]).value;
    assert Behind(c, iso, plan, cand.offset);
    assert OffsetKey(cand) == cand.offset;
    if plan.lastEnd <= cand.offset && IsPartition(iso, cand.offset) {
      TakenHasEntry(c, iso, plan, cand);
      forall i | 0 <= i < |cands[1..]|
        ensures Behind(c, iso, next, cands[1..][i].offset)
      {
        assert OffsetKey(cands[0]) <= OffsetKey(cands[i + 1]) == cands[1..][i].offset;
        InEntry(c, iso, next.parts, |plan.parts|, cand.offset, cands[1..][i].offset);
      }
      InEntry(c, iso, next.parts, |plan.parts|, cand.offset, cand.offset);
    } else {
      NotTaken(c, iso, plan, cand);
      forall i | 0 <= i < |cands[1..]|
        ensures Behind(c, iso, next, cands[1..][i].offset)
      {
        assert OffsetKey(cands[0]) <= OffsetKey(cands[i + 1]) == cands[1..][i].offset;
        assert Behind(c, iso, plan, cands[i + 1].offset);
      }
    }
  }

  lemma InEntry(c: Codec, iso: Bytes, parts: seq<Partition>, k: nat, q: nat, o: nat)
    requires k < |parts| && EntryFrom(c, iso, parts[k], q) && q <= o
    ensures Accounted(c, iso, parts, o) || (q < o && PartEnd(parts[k]) <= o)
  {
    hide EntryFrom, PartEnd;
  }

  lemma FoundMore(c: Codec, iso: Bytes, parts: seq<Partition>, next: seq<Partition>, cands: seq<Candidate>, i: nat)
    requires AllFound(c, iso, parts, cands) && i < |cands| && |parts| <= |next| && next[..|parts|] == parts
    requires |next| == |parts| || (|next| == |parts| + 1 && EntryFrom(c, iso, next[|parts|], cands[i].offset))
    ensures AllFound(c, iso, next, cands)
  {
    hide EntryFrom;
    forall k | 0 <= k < |next|
      ensures Found(c, iso, next[k], cands)
    {
      if k < |parts| {
        assert next[k] == next[..|parts|][k];
      }
    }
  }

  /** From candidate `i` on. */
  lemma {:induction false} AllTaken(c: Codec, iso: Bytes, plan: Plan, cands: seq<Candidate>, i: nat)
    requires i <= |cands| && NoneUnseen(c, iso, plan, cands[i..]) && InRange(iso, cands)
    requires Sorting.Ordered(OffsetKey, cands) && AllFound(c, iso, plan.parts, cands)
    requires AllAccounted(c, iso, plan.parts, cands[..i]) && AddCandidates(c, iso, plan, cands[i..]).Ok?
    ensures var parts := AddCandidates(c, iso, plan, cands[i..]).value.parts;
            AllFound(c, iso, parts, cands) && AllAccounted(c, iso, parts, cands)
    decreases |cands| - i
  {
    hide IsPartition, EntryFrom, AddCandidate, AllFound, Accounted, Behind;
    if i == |cands| {
      assert cands[i..] == [] && cands[..i] == cands;
    } else {
      var rest := cands[i..];
      assert rest[0] == cands[i] && rest[1..] == cands[i + 1..];
      StepUnseen(c, iso, plan, rest);
      var next := AddCandidate(c, iso, plan, cands[i]).value;
      FoundMore(c, iso, plan.parts, next.parts, cands, i);
      assert next.parts == plan.parts + next.parts[|plan.parts|..];
      var seen := cands[..i + 1];
      forall a | 0 <= a < |seen| && IsPartition(iso, seen[a].offset)
        ensures Accounted(c, iso, next.parts, seen[a].offset)
      {
        if a < i {
          assert cands[..i][a] == seen[a];
          AccountedMore(c, iso, plan.parts, next.parts[|plan.parts|..], cands[a].offset);
        }
      }
      AllTaken(c, iso, next, cands, i + 1);
    }
  }

  /**
   The partition entries of a plan are those of partitions among the candidates, and every partition among
   them has an entry, or starts inside one that has and that starts no later.
   */
  lemma PartitionsTaken(c: Codec, iso: Bytes, wii: bool)
    requires PlanOf(c, iso, wii).Ok?
    ensures var parts, cands := PlanOf(c, iso, wii).value.parts, Considered(iso, wii);
            AllFound(c, iso, parts, cands) && AllAccounted(c, iso, parts, cands)
  {
    hide Candidates, AddCandidates, AddCandidate, Sorting.Ordered, Accounted, IsPartition, EntryFrom, AllAccounted;
    var cands := Considered(iso, wii);
    ConsideredInRange(iso, wii);
    assert cands[0..] == cands;
    NothingAccounted(c, iso, cands);
    AllTaken(c, iso, NOTHING, cands, 0);
    FinishKeepsParts(AddCandidates(c, iso, NOTHING, cands).value, iso);
  }

  lemma NothingAccounted(c: Codec, iso: Bytes, cands: seq<Candidate>)
    ensures AllAccounted(c, iso, [], cands[..0])
  {}

  lemma FinishKeepsParts(plan: Plan, iso: Bytes)
    ensures Finish(plan, iso).parts == plan.parts
  {}

  // ---------- the entries' order ----------

  /** Each raw entry's groups come after those of the entries before it; so do each partition's. */
  predicate EntriesRise(plan: Plan) {
    && (forall i, k | 0 <= i < k < |plan.raws| :: plan.raws[i].group + plan.raws[i].groups <= plan.raws[k].group)
    && (forall k | 0 <= k < |plan.raws| :: plan.raws[k].group + plan.raws[k].groups <= plan.groups)
    && (forall i, k | 0 <= i < k < |plan.parts| :: GroupsEnd(plan.parts[i]) <= plan.parts[k].first.gi)
    && (forall k | 0 <= k < |plan.parts| ::
          && plan.parts[k].first.gi + plan.parts[k].first.ng == plan.parts[k].second.gi
          && GroupsEnd(plan.parts[k]) <= plan.groups)
  }

  function GroupsEnd(part: Partition): nat {
    part.second.gi + part.second.ng
  }

  lemma RawRises(plan: Plan, offset: nat, size: nat)
    requires EntriesRise(plan)
    ensures EntriesRise(AddRaw(plan, offset, size))
  {
    hide GroupsEnd;
  }

  lemma DataRises(plan: Plan, p: ValidPartition)
    requires EntriesRise(plan)
    ensures EntriesRise(AddData(plan, p))
  {
    hide Split;
  }

  lemma CandidateRises(c: Codec, iso: Bytes, plan: Plan, cand: Candidate)
    requires EntriesRise(plan) && AddCandidate(c, iso, plan, cand).Ok?
    ensures EntriesRise(AddCandidate(c, iso, plan, cand).value)
  {
    hide SetUp, AddRaw, AddData, EntriesRise;
    if cand.offset >= plan.lastEnd {
      var before := AddRaw(plan, plan.lastEnd, cand.offset - plan.lastEnd);
      RawRises(plan, plan.lastEnd, cand.offset - plan.lastEnd);
      EndFree(before, cand.offset);
      var found := SetUp(c, iso, cand.offset).value;
      if found.Some? {
        RawRises(before.(lastEnd := cand.offset), found.value.offset, found.value.dataOffset);
        DataRises(AddRaw(before.(lastEnd := cand.offset), found.value.offset, found.value.dataOffset), found.value);
      }
    }
  }

  lemma EndFree(plan: Plan, offset: nat)
    requires EntriesRise(plan)
    ensures EntriesRise(plan.(lastEnd := offset))
  {}

  lemma {:induction false} CandidatesRise(c: Codec, iso: Bytes, plan: Plan, cands: seq<Candidate>)
    requires EntriesRise(plan) && AddCandidates(c, iso, plan, cands).Ok?
    ensures EntriesRise(AddCandidates(c, iso, plan, cands).value)
    decreases |cands|
  {
    hide AddCandidate, EntriesRise;
    if cands != [] {
      CandidateRises(c, iso, plan, cands[0]);
      CandidatesRise(c, iso, AddCandidate(c, iso, plan, cands[0]).value, cands[1..]);
    }
  }

  /** The entries of a plan stand in the order in which their chunks are numbered. */
  lemma PlanRises(c: Codec, iso: Bytes, wii: bool)
    requires PlanOf(c, iso, wii).Ok?
    ensures EntriesRise(PlanOf(c, iso, wii).value)
  {
    hide AddCandidates, Candidates, AddRaw;
    NothingRises();
    hide EntriesRise;
    CandidatesRise(c, iso, NOTHING, Considered(iso, wii));
    var plan := AddCandidates(c, iso, NOTHING, Considered(iso, wii)).value;
    if plan.lastEnd <= |iso| {
      RawRises(plan, plan.lastEnd, |iso| - plan.lastEnd);
    }
  }

  lemma NothingRises()
    ensures EntriesRise(NOTHING)
  {}

  // ---------- where a partition's two stretches meet ----------

  /**
   The first stretch ends at the first end of a whole group, counted from the data's start, that is not
   before the file table's end; or with the data.
   */
  lemma SplitExactly(p: ValidPartition, iso: Bytes, groups: nat)
    requires ValidData(p, iso)
    ensures var e0 := FirstStretch(p, groups);
            exists n: nat :: FirstGroupEnd(p, n)
              && (e0.fs + e0.ns) * 0x8000
                  == Min(AlignDown(p.dataStart + p.dataSize, 0x8000), p.dataStart + n * 0x20_0000)
  {
    var n := (p.fstOffset + p.fstSize + 0x1f_ffff) / 0x20_0000;
    assert FirstGroupEnd(p, n);
    var e0, s := FirstStretch(p, groups), Split(p);
    assert AlignUp(p.fstOffset + p.fstSize, GROUP_TOTAL_SIZE) == n * 0x20_0000;
    SplitPlace(p);
    hide Split, AlignUp;
    BlocksBetween(p, s, n);
  }

  /** `n` groups are the fewest that reach past the file table. */
  predicate FirstGroupEnd(p: ValidPartition, n: nat) {
    p.fstOffset + p.fstSize <= n * 0x20_0000 < p.fstOffset + p.fstSize + 0x20_0000
  }

  lemma BlocksBetween(p: ValidPartition, s: nat, n: nat)
    requires p.dataStart % 0x8000 == 0 && p.dataStart < 0x8_0000_0000 && p.dataSize < 0x4_0000_0000
    requires s == Min(p.dataStart + p.dataSize, p.dataStart + n * 0x20_0000)
    ensures var e0 := DataEntryFor(p.dataStart, s - p.dataStart, 0);
            (e0.fs + e0.ns) * 0x8000 == Min(AlignDown(p.dataStart + p.dataSize, 0x8000), p.dataStart + n * 0x20_0000)
  {
    var fs, m, whole := p.dataStart / 0x8000, n * 64, p.dataSize / 0x8000;
    assert p.dataStart == fs * 0x8000;
    WholeBlocks(fs, p.dataSize);
    EndOfBlocks(p.dataSize, m);
    assert s - p.dataStart == Min(p.dataSize, m * 0x8000);
    EntryBlocks(p.dataStart, s - p.dataStart);
  }

  lemma EntryBlocks(start: nat, size: nat)
    requires start < 0x8_0000_0000 && size < 0x4_0000_0000
    ensures var e := DataEntryFor(start, size, 0);
            e.fs == start / 0x8000 && e.ns == size / 0x8000
  {}

  lemma WholeBlocks(fs: nat, size: nat)
    ensures AlignDown(fs * 0x8000 + size, 0x8000) == (fs + size / 0x8000) * 0x8000
  {}

  lemma EndOfBlocks(size: nat, m: nat)
    ensures Min(size, m * 0x8000) / 0x8000 == Min(size / 0x8000, m)
  {}
}
