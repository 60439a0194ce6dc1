/** Just which packed data unpacks, and to what. */
module Accepting {
  import opened Words
  import opened Results
  import opened BigEndian
  import opened PaddingStream
  import opened Generator
  import opened Unpacking

  /** A part of packed data: bytes as they are, or how many bytes of padding, and the seed's 68 bytes. */
  datatype Piece = Plain(bytes: seq<Byte>) | Filler(length: nat, seed: seq<Byte>)

  function Size(p: Piece): nat {
    match p
    case Plain(bytes) => |bytes|
    case Filler(length, _) => length
  }

  /** How many bytes of packed data it takes. */
  function Room(p: Piece): nat {
    match p
    case Plain(bytes) => 4 + |bytes|
    case Filler(_, _) => 72
  }

  /** The piece stands at `o`: a number whose bit 31 tells padding, then the bytes or the seed. */
  predicate StandsAt(bytes: seq<Byte>, o: nat, p: Piece) {
    && o + Room(p) <= |bytes| && Size(p) < 0x8000_0000
    && match p
       case Plain(plain) => Number(bytes, o, 4) == |plain| && bytes[o + 4..o + 4 + |plain|] == plain
       case Filler(length, seed) => Number(bytes, o, 4) == 0x8000_0000 + length && bytes[o + 4..o + 72] == seed
  }

  /** The packed data from `o` to its end is these pieces, and no other. */
  predicate MadeOf(bytes: seq<Byte>, o: nat, pieces: seq<Piece>)
    decreases |pieces|
  {
    if pieces == [] then o == |bytes|
    else StandsAt(bytes, o, pieces[0]) && MadeOf(bytes, o + Room(pieces[0]), pieces[1..])
  }

  /** They stand for `left` bytes, and none of them comes when there are no more to come. */
  predicate Fill(pieces: seq<Piece>, left: nat)
    decreases |pieces|
  {
    if pieces == [] then left == 0
    else 0 < left && Size(pieces[0]) <= left && Fill(pieces[1..], left - Size(pieces[0]))
  }

  /** What a piece stands for at an offset of the disc; padding starts over in every 0x8000 bytes. */
  ghost function BytesOf(p: Piece, offset: nat): (b: seq<Byte>)
    requires p.Filler? ==> |p.seed| == 68
    ensures |b| == Size(p)
  {
    match p
    case Plain(bytes) => bytes
    case Filler(length, seed) => PadBytes(SeedWords(seed), offset % 0x8000, length)
  }

  predicate AllSeeded(pieces: seq<Piece>) {
    forall k | 0 <= k < |pieces| && pieces[k].Filler? :: |pieces[k].seed| == 68
  }

  ghost function AllBytes(pieces: seq<Piece>, offset: nat): seq<Byte>
    requires AllSeeded(pieces)
    decreases |pieces|
  {
    if pieces == [] then [] else BytesOf(pieces[0], offset) + AllBytes(pieces[1..], offset + Size(pieces[0]))
  }

  lemma {:induction false} MadeIsSeeded(bytes: seq<Byte>, o: nat, pieces: seq<Piece>)
    requires MadeOf(bytes, o, pieces)
    ensures AllSeeded(pieces)
    decreases |pieces|
  {
    if pieces != [] {
      MadeIsSeeded(bytes, o + Room(pieces[0]), pieces[1..]);
      assert pieces[0].Filler? ==> |pieces[0].seed| == 68;
      forall k | 0 <= k < |pieces| && pieces[k].Filler?
        ensures |pieces[k].seed| == 68
      {
        assert k > 0 ==> pieces[k] == pieces[1..][k - 1];
      }
    }
  }

  /** One piece is read just where one stands. */
  lemma PieceRead(bytes: seq<Byte>, expected: nat, offset: nat, o: nat, written: nat, p: Piece)
    requires StandsAt(bytes, o, p) && written + Size(p) <= expected
    ensures PieceAt(bytes, expected, offset, o, written)
         == Ok(Unpacking.Piece(o + Room(p), BytesOf(p, offset + written)))
  {
    hide Get32, Number, PadBytes, SeedWords;
    Number32(bytes, o);
  }

  /** What is read stands there. */
  lemma ReadStands(bytes: seq<Byte>, expected: nat, offset: nat, o: nat, written: nat) returns (p: Piece)
    requires o < |bytes| && PieceAt(bytes, expected, offset, o, written).Ok?
    ensures StandsAt(bytes, o, p) && written + Size(p) <= expected && (p.Filler? ==> |p.seed| == 68)
    ensures PieceAt(bytes, expected, offset, o, written)
         == Ok(Unpacking.Piece(o + Room(p), BytesOf(p, offset + written)))
  {
    hide Get32, Number, PadBytes, SeedWords;
    Number32(bytes, o);
    var n := Get32(bytes, o);
    p := if n >= 0x8000_0000 then Filler(n - 0x8000_0000, bytes[o + 4..o + 72]) else Plain(bytes[o + 4..o + 4 + n]);
  }

  lemma {:induction false} PiecesUnpack(bytes: seq<Byte>, expected: nat, offset: nat, o: nat, output: seq<Byte>,
        pieces: seq<Piece>)
    requires o <= |bytes| && |output| <= expected && MadeOf(bytes, o, pieces) && Fill(pieces, expected - |output|)
    ensures AllSeeded(pieces)
    ensures UnpackFrom(bytes, expected, offset, o, output) == Ok(output + AllBytes(pieces, offset + |output|))
    decreases |pieces|
  {
    hide PieceAt, StandsAt, BytesOf;
    MadeIsSeeded(bytes, o, pieces);
    if pieces == [] {
      assert output + [] == output;
    } else {
      var p := pieces[0];
      PieceRead(bytes, expected, offset, o, |output|, p);
      var more := BytesOf(p, offset + |output|);
      MadeInside(bytes, o, pieces);
      PiecesUnpack(bytes, expected, offset, o + Room(p), output + more, pieces[1..]);
      var rest := AllBytes(pieces[1..], offset + |output| + Size(p));
      assert (output + more) + rest == output + (more + rest);
    }
  }

  lemma MadeInside(bytes: seq<Byte>, o: nat, pieces: seq<Piece>)
    requires pieces != [] && MadeOf(bytes, o, pieces)
    ensures o < o + Room(pieces[0]) <= |bytes|
  {}

  lemma {:induction false} UnpackedPieces(bytes: seq<Byte>, expected: nat, offset: nat, o: nat, output: seq<Byte>)
      returns (pieces: seq<Piece>)
    requires o <= |bytes| && |output| <= expected && UnpackFrom(bytes, expected, offset, o, output).Ok?
    ensures MadeOf(bytes, o, pieces) && Fill(pieces, expected - |output|)
    decreases |bytes| - o
  {
    hide PieceAt, StandsAt, BytesOf;
    if o < |bytes| && |output| < expected {
      var p := ReadStands(bytes, expected, offset, o, |output|);
      var more := BytesOf(p, offset + |output|);
      var rest := UnpackedPieces(bytes, expected, offset, o + Room(p), output + more);
      pieces := [p] + rest;
      assert pieces[1..] == rest;
    } else {
      pieces := [];
    }
  }

  ghost predicate UnpacksAs(bytes: seq<Byte>, expected: nat, offset: nat, pieces: seq<Piece>, out: seq<Byte>) {
    && MadeOf(bytes, 0, pieces) && Fill(pieces, expected) && AllSeeded(pieces)
    && out == AllBytes(pieces, offset)
  }

  /**
   Packed data unpacks exactly when it has the length told and is made of pieces that together stand for as
   many bytes as are expected, none of them coming too late; and it unpacks to what those stand for.
   */
  lemma UnpacksExactly(bytes: seq<Byte>, expected: nat, offset: nat, packedSize: nat, out: seq<Byte>)
    ensures Unpacked(bytes, expected, offset, packedSize) == Ok(out)
       <==> |bytes| == packedSize && exists pieces :: UnpacksAs(bytes, expected, offset, pieces, out)
  {
    hide UnpackFrom, MadeOf, Fill, AllBytes, AllSeeded;
    if UnpackFrom(bytes, expected, offset, 0, []).Ok? {
      var pieces := UnpackedPieces(bytes, expected, offset, 0, []);
      PiecesUnpack(bytes, expected, offset, 0, [], pieces);
      assert [] + AllBytes(pieces, offset) == AllBytes(pieces, offset);
      assert UnpacksAs(bytes, expected, offset, pieces, AllBytes(pieces, offset));
    }
    if pieces :| UnpacksAs(bytes, expected, offset, pieces, out) {
      PiecesUnpack(bytes, expected, offset, 0, [], pieces);
      assert [] + AllBytes(pieces, offset) == AllBytes(pieces, offset);
    }
  }
}
