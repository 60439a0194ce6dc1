/** The progress that the encoder reports with each chunk, and that it counts the bytes delivered. */
module Reporting {
  import opened Sizes
  import opened Format
  import opened Chunking
  import opened PartRoundTrip
  import opened Planning
  import opened Streaming
  import opened EndToEnd

  /** The chunks delivered in a trace, in order. */
  function Deliveries(trace: seq<Event>): seq<Event> {
    if trace == [] then []
    else Deliveries(trace[..|trace| - 1]) + if trace[|trace| - 1].Delivered? then [trace[|trace| - 1]] else []
  }

  lemma DeliveriesNext(trace: seq<Event>, e: Event)
    ensures Deliveries(trace + [e]) == Deliveries(trace) + if e.Delivered? then [e] else []
  {
    assert (trace + [e])[..|trace|] == trace;
  }

  /** What was delivered since is the stretch from `lo` to `hi`, by these events, and no header was read. */
  ghost predicate Reported(before: seq<Event>, after: seq<Event>, lo: nat, hi: nat, events: seq<Event>) {
    Grown(before, after, lo, hi) && Deliveries(after) == Deliveries(before) + events
  }

  lemma ReportedNone(trace: seq<Event>, at: nat)
    ensures Reported(trace, trace, at, at, [])
  {
    GrownNone(trace, at);
  }

  lemma ReportedNext(a: seq<Event>, b: seq<Event>, lo: nat, mid: nat, hi: nat, events: seq<Event>, done: nat)
    requires Reported(a, b, lo, mid, events) && lo <= mid <= hi
    ensures Reported(a, b + [Delivered(mid, hi, done)], lo, hi, events + [Delivered(mid, hi, done)])
  {
    hide Grown, Deliveries;
    GrownOne(b, mid, hi, done);
    GrownOn(a, b, b + [Delivered(mid, hi, done)], lo, mid, hi);
    DeliveriesNext(b, Delivered(mid, hi, done));
  }

  lemma ReportedOn(a: seq<Event>, b: seq<Event>, c: seq<Event>, lo: nat, mid: nat, hi: nat, first: seq<Event>,
        second: seq<Event>)
    requires Reported(a, b, lo, mid, first) && Reported(b, c, mid, hi, second) && lo <= mid <= hi
    ensures Reported(a, c, lo, hi, first + second)
  {
    hide Grown, Deliveries;
    GrownOn(a, b, c, lo, mid, hi);
  }

  /** How many bytes of the disc events deliver. */
  function Sum(events: seq<Event>): nat {
    if events == [] then 0
    else
      var e := events[|events| - 1];
      Sum(events[..|events| - 1]) + if e.Delivered? && e.start <= e.end then e.end - e.start else 0
  }

  lemma {:induction false} SumJoin(a: seq<Event>, b: seq<Event>)
    ensures Sum(a + b) == Sum(a) + Sum(b)
  {
    if b == [] {
      assert a + b == a;
    } else {
      assert (a + b)[..|a + b| - 1] == a + b[..|b| - 1];
      SumJoin(a, b[..|b| - 1]);
    }
  }

  function Span(r: Region): nat {
    End(r) - Start(r)
  }

  /** How many bytes regions have together. */
  function Spans(rs: seq<Region>): nat {
    if rs == [] then 0 else Spans(rs[..|rs| - 1]) + Span(rs[|rs| - 1])
  }

  lemma SpansNext(rs: seq<Region>, r: Region)
    ensures Spans(rs + [r]) == Spans(rs) + Span(r)
  {
    assert (rs + [r])[..|rs|] == rs;
  }

  // ---------- what is told of each chunk ----------

  /** A raw region's chunks are told with what was done when they were. */
  function RawEvent(e: RawEntry, base: nat, i: nat): Event {
    Delivered(RawStart(e, i), RawEnd(e, i), base + Min((i + 1) * CHUNK_SIZE, Span(Raw(e))))
  }

  /** Those of a partition with what was done before their window. */
  function PartEvent(d: DataEntry, base: nat, i: nat): Event {
    Delivered((d.fs + 4 * i) * BLOCK_TOTAL_SIZE, (d.fs + Min(4 * i + 4, d.ns)) * BLOCK_TOTAL_SIZE,
              base + From(i) * BLOCK_TOTAL_SIZE)
  }

  function RegionEvent(r: Region, base: nat, i: nat): Event {
    match r
    case Raw(e) => RawEvent(e, base, i)
    case Part(_, d) => PartEvent(d, base, i)
  }

  function RegionEvents(r: Region, base: nat): (events: seq<Event>)
    ensures |events| == GroupsIn(r)
  {
    seq(GroupsIn(r), i requires 0 <= i < GroupsIn(r) => RegionEvent(r, base, i))
  }

  function OrderEvents(rs: seq<Region>): (events: seq<Event>)
    ensures |events| == Total(rs)
  {
    if rs == [] then []
    else
      var before := rs[..|rs| - 1];
      OrderEvents(before) + RegionEvents(rs[|rs| - 1], Spans(before))
  }

  lemma EventsNext(rs: seq<Region>, r: Region)
    ensures OrderEvents(rs + [r]) == OrderEvents(rs) + RegionEvents(r, Spans(rs))
  {
    hide RegionEvents;
    assert (rs + [r])[..|rs|] == rs;
  }

  // ---------- that it is the bytes delivered ----------

  /** How far the first `n` chunks of a region reach. */
  function Reach(r: Region, n: nat): nat {
    if n == 0 then Start(r) else RegionEvent(r, 0, n - 1).end
  }

  lemma RawReaches(e: RawEntry, iso: Bytes, base: nat, i: nat)
    requires ValidRaw(e, iso) && i < e.groups
    ensures var event := RawEvent(e, base, i);
            && event.start == Reach(Raw(e), i) <= event.end == Reach(Raw(e), i + 1)
            && Start(Raw(e)) <= event.end && event.done == base + (event.end - Start(Raw(e)))
            && (i + 1 == e.groups ==> event.end == End(Raw(e)))
  {
    RawBounds(e, iso, i);
    if i > 0 {
      RawBounds(e, iso, i - 1);
    }
    hide ValidRaw, AlignDown;
  }

  lemma PartReaches(key: Bytes, d: DataEntry, iso: Bytes, base: nat, i: nat)
    requires ValidPart(key, d, iso) && i < d.ng
    ensures var event := PartEvent(d, base, i);
            && event.start == Reach(Part(key, d), i) <= event.end == Reach(Part(key, d), i + 1)
            && Start(Part(key, d)) <= event.end && (i + 1 == d.ng ==> event.end == End(Part(key, d)))
            && event.done == base + (Reach(Part(key, d), i - i % 16) - Start(Part(key, d)))
  {
    ChunkBounds(key, d, iso, i);
    if i > 0 {
      ChunkBounds(key, d, iso, i - 1);
    }
    WindowReach(d, i);
    hide ValidPart, From, First;
  }

  lemma WindowReach(d: DataEntry, i: nat)
    ensures From(i) == 4 * (i - i % 16)
  {}

  lemma RegionReaches(r: Region, iso: Bytes, base: nat, i: nat)
    requires ValidRegion(r, iso) && i < GroupsIn(r)
    ensures var event := RegionEvent(r, base, i);
            && event.start == Reach(r, i) <= event.end == Reach(r, i + 1)
            && Start(r) <= event.end && (i + 1 == GroupsIn(r) ==> event.end == End(r))
  {
    hide ValidRaw, ValidPart, RawEvent, PartEvent, Reach, Start, End;
    match r
    case Raw(e) => RawReaches(e, iso, base, i);
    case Part(key, d) => PartReaches(key, d, iso, base, i);
  }

  /** The first `n` chunks of a region deliver just as many bytes as they reach. */
  lemma {:induction false} RegionSum(r: Region, iso: Bytes, base: nat, n: nat)
    requires ValidRegion(r, iso) && n <= GroupsIn(r)
    ensures Start(r) <= Reach(r, n) && Sum(RegionEvents(r, base)[..n]) == Reach(r, n) - Start(r)
  {
    hide ValidRegion, RegionEvent, Start;
    var events := RegionEvents(r, base);
    if n > 0 {
      RegionSum(r, iso, base, n - 1);
      RegionReaches(r, iso, base, n - 1);
      assert events[..n][..n - 1] == events[..n - 1] && events[..n][n - 1] == RegionEvent(r, base, n - 1);
      hide Reach, RegionEvents;
      assert RegionEvent(r, base, n - 1).Delivered? by {
        IsDelivered(r, base, n - 1);
      }
    } else {
      assert events[..0] == [];
    }
  }

  lemma IsDelivered(r: Region, base: nat, i: nat)
    ensures RegionEvent(r, base, i).Delivered?
  {}

  lemma WholeSum(r: Region, iso: Bytes, base: nat)
    requires ValidRegion(r, iso)
    ensures Sum(RegionEvents(r, base)) == Span(r)
  {
    hide ValidRegion, RegionEvents, RegionEvent, Start, End, Sum;
    GroupsExist(r, iso);
    var events, n := RegionEvents(r, base), GroupsIn(r);
    assert events[..n] == events;
    RegionSum(r, iso, base, n);
    RegionReaches(r, iso, 0, n - 1);
  }

  /** All together the chunks deliver as many bytes as the regions have. */
  lemma {:induction false} OrderSum(rs: seq<Region>, iso: Bytes)
    requires AllValid(rs, iso)
    ensures Sum(OrderEvents(rs)) == Spans(rs)
  {
    hide ValidRegion, RegionEvents, Span, Sum;
    if rs != [] {
      var n := |rs| - 1;
      OrderSum(rs[..n], iso);
      WholeSum(rs[n], iso, Spans(rs[..n]));
      SumJoin(OrderEvents(rs[..n]), RegionEvents(rs[n], Spans(rs[..n])));
    } else {
      NoSum();
    }
  }

  lemma NoSum()
    ensures Sum([]) == 0
  {}

  /** The chunks of region `k` are told after those of the regions before it. */
  lemma {:induction false} EventsAt(rs: seq<Region>, k: nat)
    requires k < |rs|
    ensures var at := Total(rs[..k]);
            && at + GroupsIn(rs[k]) <= Total(rs) && OrderEvents(rs)[..at] == OrderEvents(rs[..k])
            && OrderEvents(rs)[at..at + GroupsIn(rs[k])] == RegionEvents(rs[k], Spans(rs[..k]))
  {
    hide RegionEvents, Spans, GroupsIn;
    var n := |rs| - 1;
    if k < n {
      EventsAt(rs[..n], k);
      assert rs[..n][..k] == rs[..k] && rs[..n][k] == rs[k];
      var at, shorter := Total(rs[..k]), OrderEvents(rs[..n]);
      var last := RegionEvents(rs[n], Spans(rs[..n]));
      InFront(shorter, last, 0, at);
      InFront(shorter, last, at, at + GroupsIn(rs[k]));
    }
  }

  lemma InFront(a: seq<Event>, b: seq<Event>, lo: nat, hi: nat)
    requires lo <= hi <= |a|
    ensures (a + b)[lo..hi] == a[lo..hi] && (a + b)[..hi] == a[..hi]
  {}

  /** The stretch of the disc that chunk `i` of a region is. */
  predicate ChunkPlaced(r: Region, i: nat, event: Event) {
    event.Delivered? &&
    match r
    case Raw(e) =>
      && event.start == e.offset / 0x8000 * 0x8000 + i * 0x2_0000
      && event.end == Min(event.start + 0x2_0000, e.offset + e.size)
    case Part(_, d) =>
      && event.start == d.fs * 0x8000 + i * 0x2_0000
      && event.end == Min(event.start + 0x2_0000, (d.fs + d.ns) * 0x8000)
  }

  lemma StretchIs(r: Region, base: nat, i: nat)
    ensures ChunkPlaced(r, i, RegionEvent(r, base, i))
  {
    match r
    case Raw(e) => assert e.offset == e.offset / 0x8000 * 0x8000 + e.offset % 0x8000;
    case Part(_, d) =>
  }

  /** How many of a region's chunks count when chunk `i` is told: in a partition those before its window of 16. */
  function Counting(r: Region, i: nat): (n: nat)
    ensures n <= i + 1
  {
    if r.Raw? then i + 1 else i - i % 16
  }

  /**
   What is told with chunk `i` of region `k`, which is the chunk numbered so: where it starts and ends, and how
   many bytes were delivered, with a raw region up to and with it, with a partition before its window.
   */
  lemma DoneExactly(rs: seq<Region>, iso: Bytes, k: nat, i: nat)
    requires AllValid(rs, iso) && Numbered(rs) && k < |rs| && i < GroupsIn(rs[k])
    ensures var events, g := OrderEvents(rs), GroupOf(rs[k]) + i;
            && g < |events| && ChunkPlaced(rs[k], i, events[g])
            && events[g].done == Sum(events[..GroupOf(rs[k]) + Counting(rs[k], i)])
  {
    hide Numbered, AllValid, RegionEvents, Sum, Total, Spans, OrderEvents, ValidRegion, Reach, RegionEvent, Start;
    hide ChunkPlaced;
    var r, events, base := rs[k], OrderEvents(rs), Spans(rs[..k]);
    EventsAt(rs, k);
    NumberIs(rs, k);
    ValidBefore(rs, iso, k);
    OrderSum(rs[..k], iso);
    StretchIs(r, base, i);
    var g := GroupOf(r) + i;
    var n := Counting(r, i);
    RegionSum(r, iso, base, n);
    EventIs(r, base, i);
    assert events[g] == events[GroupOf(r)..GroupOf(r) + GroupsIn(r)][i];
    DoneIs(r, iso, base, i);
    var mine := RegionEvents(r, base);
    SumJoin(events[..GroupOf(r)], mine[..n]);
    assert events[..GroupOf(r) + n] == events[..GroupOf(r)] + mine[..n] by {
      PrefixJoin(events, GroupOf(r), mine, n);
    }
  }

  lemma PrefixJoin(events: seq<Event>, at: nat, mine: seq<Event>, n: nat)
    requires n <= |mine| && at + |mine| <= |events| && events[at..at + |mine|] == mine
    ensures events[..at + n] == events[..at] + mine[..n]
  {}

  lemma NumberIs(rs: seq<Region>, k: nat)
    requires Numbered(rs) && k < |rs|
    ensures GroupOf(rs[k]) == Total(rs[..k])
  {}

  lemma ValidBefore(rs: seq<Region>, iso: Bytes, k: nat)
    requires AllValid(rs, iso) && k < |rs|
    ensures AllValid(rs[..k], iso) && ValidRegion(rs[k], iso)
  {
    hide ValidRegion;
  }

  lemma EventIs(r: Region, base: nat, i: nat)
    requires i < GroupsIn(r)
    ensures RegionEvents(r, base)[i] == RegionEvent(r, base, i) && RegionEvent(r, base, i).Delivered?
  {}

  lemma DoneIs(r: Region, iso: Bytes, base: nat, i: nat)
    requires ValidRegion(r, iso) && i < GroupsIn(r)
    ensures var n := Counting(r, i);
            Start(r) <= Reach(r, n) && RegionEvent(r, base, i).done == base + (Reach(r, n) - Start(r))
  {
    hide ValidRaw, ValidPart, RawEvent, PartEvent, Reach, Start, End;
    RegionSum(r, iso, base, Counting(r, i));
    match r
    case Raw(e) => RawReaches(e, iso, base, i);
    case Part(key, d) => PartReaches(key, d, iso, base, i);
  }
}
