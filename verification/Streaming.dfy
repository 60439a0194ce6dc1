/** The order in which the encoder reads partition headers and delivers chunks. */
module Streaming {
  import opened Sizes
  import opened Format
  import opened Planning

  /** A partition's header is read, or a chunk of the disc from `start` to `end` is handed on. */
  datatype Event = HeaderRead(offset: nat) | Delivered(start: nat, end: nat, done: nat)

  predicate Holds(e: Event, x: nat) {
    e.Delivered? && e.start <= x < e.end
  }

  /** A chunk that has this byte was delivered. */
  predicate DeliveredAt(trace: seq<Event>, x: nat) {
    exists j | 0 <= j < |trace| :: Holds(trace[j], x)
  }

  predicate DeliveredAll(trace: seq<Event>, lo: nat, hi: nat) {
    forall x: nat | lo <= x < hi :: DeliveredAt(trace, x)
  }

  /** Just what the regions cover was delivered. */
  ghost predicate Told(trace: seq<Event>, rs: seq<Region>) {
    forall x: nat :: DeliveredAt(trace, x) <==> Covered(rs, x)
  }

  /** No header past the disc's own is read before all that precedes it was delivered. */
  predicate Streamed(trace: seq<Event>) {
    forall i | 0 <= i < |trace| && trace[i].HeaderRead? && trace[i].offset > DISC_HEADER_SIZE ::
      DeliveredAll(trace[..i], 0, trace[i].offset)
  }

  /** The progress told never decreases, and has not passed `done`. */
  predicate Progress(trace: seq<Event>, done: nat) {
    && (forall j | 0 <= j < |trace| && trace[j].Delivered? :: trace[j].done <= done)
    && (forall i, j | 0 <= i < j < |trace| && trace[i].Delivered? && trace[j].Delivered? ::
         trace[i].done <= trace[j].done)
  }

  /** What was delivered since is just the stretch from `lo` to `hi`, and no header was read. */
  ghost predicate Grown(before: seq<Event>, after: seq<Event>, lo: nat, hi: nat) {
    && (forall x: nat :: DeliveredAt(after, x) <==> DeliveredAt(before, x) || lo <= x < hi)
    && (Streamed(after) <==> Streamed(before))
  }

  lemma DeliveredNext(trace: seq<Event>, e: Event, x: nat)
    ensures DeliveredAt(trace + [e], x) <==> DeliveredAt(trace, x) || Holds(e, x)
  {
    hide Holds;
    var all := trace + [e];
    if DeliveredAt(all, x) {
      var j :| 0 <= j < |all| && Holds(all[j], x);
      assert j < |trace| ==> Holds(trace[j], x);
    }
    if DeliveredAt(trace, x) {
      var j :| 0 <= j < |trace| && Holds(trace[j], x);
      assert Holds(all[j], x);
    }
    if Holds(e, x) {
      assert Holds(all[|trace|], x);
    }
  }

  /** A further event keeps the order of the pass unless it is a header read too early. */
  lemma StreamedNext(trace: seq<Event>, e: Event)
    ensures Streamed(trace + [e]) <==>
              Streamed(trace) && (e.HeaderRead? && e.offset > DISC_HEADER_SIZE ==> DeliveredAll(trace, 0, e.offset))
  {
    hide DeliveredAll;
    var all := trace + [e];
    assert all[..|trace|] == trace && all[|trace|] == e;
    assert forall i | 0 <= i < |trace| :: all[..i] == trace[..i] && all[i] == trace[i];
    if Streamed(all) {
      forall i | 0 <= i < |trace| && trace[i].HeaderRead? && trace[i].offset > DISC_HEADER_SIZE
        ensures DeliveredAll(trace[..i], 0, trace[i].offset)
      {
        assert all[i] == trace[i];
      }
    }
  }

  lemma GrownOne(trace: seq<Event>, lo: nat, hi: nat, done: nat)
    ensures Grown(trace, trace + [Delivered(lo, hi, done)], lo, hi)
  {
    var e := Delivered(lo, hi, done);
    StreamedNext(trace, e);
    hide DeliveredAt, Streamed;
    forall x: nat
      ensures DeliveredAt(trace + [e], x) <==> DeliveredAt(trace, x) || lo <= x < hi
    {
      DeliveredNext(trace, e, x);
    }
  }

  lemma GrownNone(trace: seq<Event>, at: nat)
    ensures Grown(trace, trace, at, at)
  {}

  lemma GrownOn(a: seq<Event>, b: seq<Event>, c: seq<Event>, lo: nat, mid: nat, hi: nat)
    requires Grown(a, b, lo, mid) && Grown(b, c, mid, hi) && lo <= mid <= hi
    ensures Grown(a, c, lo, hi)
  {
    hide DeliveredAt, Streamed;
  }

  /** Delivering a region's stretch tells of that region. */
  lemma ToldGrown(before: seq<Event>, after: seq<Event>, rs: seq<Region>, r: Region)
    requires Told(before, rs) && Grown(before, after, Start(r), End(r))
    ensures Told(after, rs + [r])
  {
    hide DeliveredAt, Streamed, Covered, Start, End;
    forall x: nat
      ensures DeliveredAt(after, x) <==> Covered(rs + [r], x)
    {
      CoveredLast(rs, r, x);
    }
  }

  /** A header is read in time exactly when all that precedes it is covered. */
  lemma StreamedHeader(trace: seq<Event>, rs: seq<Region>, offset: nat)
    requires Told(trace, rs)
    ensures Told(trace + [HeaderRead(offset)], rs)
    ensures Streamed(trace + [HeaderRead(offset)]) <==> Streamed(trace) && Covers(rs, offset)
  {
    StreamedNext(trace, HeaderRead(offset));
    hide DeliveredAt, Streamed, Covered;
    forall x: nat
      ensures DeliveredAt(trace + [HeaderRead(offset)], x) <==> Covered(rs, x)
    {
      DeliveredNext(trace, HeaderRead(offset), x);
    }
  }

  lemma ProgressOn(trace: seq<Event>, done: nat, e: Event, next: nat)
    requires Progress(trace, done) && done <= next && (e.Delivered? ==> done <= e.done <= next)
    ensures Progress(trace + [e], next)
  {}
}
