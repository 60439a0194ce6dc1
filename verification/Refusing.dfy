/** For what reasons packed data, chunks and regions are refused. */
module Refusing {
  import opened Words
  import opened Results
  import opened BigEndian
  import opened Format
  import opened Unpacking
  import opened Accepting
  import opened Exceptions
  import opened Regions
  import opened Opening

  // ---------- packed data ----------

  /** Why there is no piece at `o`: its number is cut off, or its seed or bytes are, or it brings too many bytes. */
  lemma PieceRefused(bytes: seq<Byte>, expected: nat, offset: nat, o: nat, written: nat)
    requires o < |bytes|
    ensures var r := PieceAt(bytes, expected, offset, o, written);
            if o + 4 > |bytes| then r == Err(TruncatedRecord)
            else
              var n := Number(bytes, o, 4);
              if 0x8000_0000 <= n then
                if o + 72 > |bytes| then r == Err(TruncatedSeed)
                else if written + (n - 0x8000_0000) > expected then r == Err(PaddingOverflow)
                else r.Ok?
              else if o + 4 + n > |bytes| || written + n > expected then r == Err(BadRecord)
              else r.Ok?
  {
    hide Number, Get32;
    if o + 4 <= |bytes| {
      Number32(bytes, o);
    }
  }

  /** The packed data from `o` to `end` is these pieces. */
  predicate MadeUpTo(bytes: seq<Byte>, o: nat, pieces: seq<Accepting.Piece>, end: nat)
    decreases |pieces|
  {
    if pieces == [] then o == end
    else StandsAt(bytes, o, pieces[0]) && MadeUpTo(bytes, o + Room(pieces[0]), pieces[1..], end)
  }

  /** They stand for no more than `left` bytes, and none of them comes when there are no more to come. */
  predicate Fit(pieces: seq<Accepting.Piece>, left: nat)
    decreases |pieces|
  {
    pieces == [] || (0 < left && Size(pieces[0]) <= left && Fit(pieces[1..], left - Size(pieces[0])))
  }

  function Sizes(pieces: seq<Accepting.Piece>): nat {
    if pieces == [] then 0 else Size(pieces[0]) + Sizes(pieces[1..])
  }

  /** Pieces that stand there are taken; what becomes of the rest is decided behind them. */
  lemma {:induction false} PiecesTaken(bytes: seq<Byte>, expected: nat, offset: nat, o: nat, output: seq<Byte>,
        pieces: seq<Accepting.Piece>, end: nat) returns (more: seq<Byte>)
    requires o <= |bytes| && |output| <= expected && MadeUpTo(bytes, o, pieces, end) && Fit(pieces, expected - |output|)
    ensures end <= |bytes| && |more| == Sizes(pieces) && |output| + |more| <= expected
    ensures UnpackFrom(bytes, expected, offset, o, output) == UnpackFrom(bytes, expected, offset, end, output + more)
    decreases |pieces|
  {
    hide PieceAt, StandsAt, BytesOf;
    if pieces == [] {
      more := [];
      assert output + [] == output;
    } else {
      var p := pieces[0];
      StandsInside(bytes, o, p);
      PieceRead(bytes, expected, offset, o, |output|, p);
      var first := BytesOf(p, offset + |output|);
      var rest := PiecesTaken(bytes, expected, offset, o + Room(p), output + first, pieces[1..], end);
      more := first + rest;
      assert (output + first) + rest == output + more;
    }
  }

  lemma StandsInside(bytes: seq<Byte>, o: nat, p: Accepting.Piece)
    requires StandsAt(bytes, o, p)
    ensures o < o + Room(p) <= |bytes| && (p.Filler? ==> |p.seed| == 68)
  {}

  /**
   Behind pieces that are taken, packed data is refused because of the next piece, because more input is left
   than is wanted, or because it ends too soon.
   */
  lemma UnpackRefused(bytes: seq<Byte>, expected: nat, offset: nat, packedSize: nat, pieces: seq<Accepting.Piece>,
      end: nat)
    requires MadeUpTo(bytes, 0, pieces, end) && Fit(pieces, expected)
    ensures var r, n := Unpacked(bytes, expected, offset, packedSize), Sizes(pieces);
            && end <= |bytes| && n <= expected
            && (|bytes| != packedSize ==> r == Err(PackingSizeMismatch))
            && (|bytes| == packedSize && end < |bytes| && n == expected ==> r == Err(UnconsumedInput))
            && (|bytes| == packedSize && end == |bytes| && n < expected ==> r == Err(SizeMismatch))
            && (|bytes| == packedSize && end < |bytes| && n < expected
                  && PieceAt(bytes, expected, offset, end, n).Err? ==>
                  r == Err(PieceAt(bytes, expected, offset, end, n).error))
  {
    hide PieceAt;
    var more := PiecesTaken(bytes, expected, offset, 0, [], pieces, end);
    hide MadeUpTo, Fit;
    assert [] + more == more;
  }

  // ---------- chunks ----------

  /** Why a raw chunk does not open. */
  lemma RawRefused(c: Codec, chunk: Chunk, expected: nat, offset: nat)
    requires chunk.size != 0
    ensures var r := RawData(c, chunk, expected, offset);
            && (chunk.compressed && c.decompress(chunk.bytes).Err? ==> r == Err(c.decompress(chunk.bytes).error))
            && forall inflated | InflatesTo(c, chunk, inflated) ::
                 if chunk.packedSize != 0 then r == Unpacked(inflated, expected, offset, chunk.packedSize)
                 else if |inflated| != expected then r == Err(SizeMismatch)
                 else r == Ok(inflated)
  {
    hide Unpacked;
  }

  /** Why a partition's chunk does not open, in this order. */
  lemma PartRefused(c: Codec, chunk: Chunk, expected: nat, offset: nat, end: nat, inflated: Bytes)
    requires chunk.size != 0
    ensures var r := PartContent(c, chunk, expected, offset);
            && (chunk.compressed && c.decompress(chunk.bytes).Err? ==> r == Err(c.decompress(chunk.bytes).error))
            && (InflatesTo(c, chunk, inflated) && |inflated| < 2 ==> r == Err(BadRecord))
            && (InflatesTo(c, chunk, inflated) && 2 <= |inflated|
                  && ListEnds(Number(inflated, 0, 2), chunk.compressed, end) ==>
                  && (end + chunk.packedSize > |inflated| ==> r == Err(BadRecord))
                  && (chunk.packedSize == 0 && end <= |inflated| < end + expected ==> r == Err(Panic))
                  && (0 < chunk.packedSize && end + chunk.packedSize <= |inflated|
                        && Unpacked(inflated[end..end + chunk.packedSize], expected, offset, chunk.packedSize).Err? ==>
                        r == Err(Unpacked(inflated[end..end + chunk.packedSize], expected, offset,
                               chunk.packedSize).error)))
  {
    hide Unpacked, Number, Get16, ParseExceptions, ListEnds, ListSize;
    if 2 <= |inflated| {
      Number16(inflated, 0);
      EndIs(Number(inflated, 0, 2), chunk.compressed, end);
    }
  }

  /** An entry that names no place in the chunk's headers is a reason too. */
  lemma {:induction false} EntriesRefused(inflated: Bytes, count: nat, blocks: nat, k: nat)
    requires k <= count && 2 + 22 * count <= |inflated|
    ensures var r := ParseExceptions(inflated, count, blocks, k);
            r.Err? ==> r.error == BadRecord
    decreases count - k
  {
    hide ExceptionAt, Storable;
    if k < count {
      EntriesRefused(inflated, count, blocks, k + 1);
    }
  }

  // ---------- regions ----------

  /** Why a raw region stops at chunk `i`, if not because of the chunk. */
  lemma RawStepRefused(c: Codec, e: RawEntry, chunkSize: nat, chunks: seq<Chunk>, i: nat)
    ensures var r, whole := RawStep(c, e, chunkSize, chunks, i), e.size + e.offset % 0x8000;
            if whole < i * chunkSize then r == Err(Panic)
            else if chunkSize == 0 || whole == i * chunkSize then r == Err(SizeMismatch)
            else if |chunks| <= e.group + i then r == Err(MissingGroup)
            else
              var n := if whole - i * chunkSize < chunkSize then whole - i * chunkSize else chunkSize;
              var inner := RawData(c, chunks[e.group + i], n, e.offset - e.offset % 0x8000 + i * chunkSize);
              inner.Err? ==> r == Err(inner.error)
  {
    hide RawData;
  }

  /** Why a partition region stops at chunk `i`, if not because of the chunk. */
  lemma PartStepRefused(c: Codec, key: Bytes, d: DataEntry, chunkSize: nat, chunks: seq<Chunk>, i: nat, g: Group,
      encrypt: bool)
    requires ValidGroup(g)
    ensures var r := PartStep(c, key, d, chunkSize, chunks, i, g, encrypt);
            var size, whole := chunkSize * 0x7c00 / 0x8000, d.ns * 0x7c00;
            if |chunks| <= d.gi + i then r == Err(MissingGroup)
            else if whole < i * size then r == Err(Panic)
            else if size == 0 || whole == i * size then r == Err(SizeMismatch)
            else
              var n := if whole - i * size < size then whole - i * size else size;
              var inner := PartContent(c, chunks[d.gi + i], n, i * size);
              inner.Err? ==> r == Err(inner.error)
  {
    hide PartContent, Flushed, WithChunk, ValidGroup;
  }
}
