/** The packed record format, and its expansion. */
module Unpacking {
  import opened Words
  import opened Sizes
  import opened BigEndian
  import opened PaddingStream
  import opened Generator
  import opened Results
  import opened Buffers

  const LFG_SEED_BYTES: nat := 68
  const JUNK_FLAG: nat := 0x8000_0000

  /** The bytes a seed is recorded as, each word little-endian. */
  function EncodedSeed(seed: Seed): (r: seq<Byte>)
    ensures |r| == LFG_SEED_BYTES
  {
    seq(LFG_SEED_BYTES, i requires 0 <= i < LFG_SEED_BYTES => Lane(seed[i / 4], i % 4))
  }

  method SeedBytes(seed: Seed) returns (out: array<Byte>)
    ensures fresh(out) && out[..] == EncodedSeed(seed)
  {
    hide EncodedSeed, Lane;
    out := new Byte[LFG_SEED_BYTES];
    for i := 0 to SEED_WORDS
      invariant forall k | 0 <= k < 4 * i :: out[k] == EncodedSeed(seed)[k]
    {
      RecordedWord(seed, i);
      out[i * 4], out[i * 4 + 1], out[i * 4 + 2], out[i * 4 + 3] :=
        Lane(seed[i], 0), Lane(seed[i], 1), Lane(seed[i], 2), Lane(seed[i], 3);
    }
  }

  lemma RecordedWord(seed: Seed, i: nat)
    requires i < SEED_WORDS
    ensures forall k | 0 <= k < 4 :: EncodedSeed(seed)[4 * i + k] == Lane(seed[i], k)
  {
    hide EncodedSeed, Lane;
    forall k | 0 <= k < 4
      ensures EncodedSeed(seed)[4 * i + k] == Lane(seed[i], k)
    {
      RecordedByte(seed, i, k);
    }
  }

  /** Expansion reads the recorded bytes the other way round, so it sees each word reversed. */
  lemma RecordedSeed(seed: Seed)
    ensures SeedWords(EncodedSeed(seed)) == Swapped(seed)
  {
    hide EncodedSeed, Lane, FromBe, Swap32;
    forall i | 0 <= i < SEED_WORDS
      ensures SeedWords(EncodedSeed(seed))[i] == Swapped(seed)[i]
    {
      RecordedWord(seed, i);
      LanesReadBigEndian(seed[i]);
    }
  }

  lemma RecordedByte(seed: Seed, i: nat, k: nat)
    requires i < SEED_WORDS && k < 4
    ensures EncodedSeed(seed)[4 * i + k] == Lane(seed[i], k)
  {
    hide Lane;
    assert (4 * i + k) / 4 == i && (4 * i + k) % 4 == k;
  }

  /** Where in its 0x8000-byte window a byte of the disc lies. */
  function InWindow(offset: nat): nat {
    offset % BLOCK_TOTAL_SIZE
  }

  /** The bytes one record stands for, and where the next record begins. */
  datatype Piece = Piece(next: nat, bytes: seq<Byte>)

  /** The record at `read`, when `written` of the `expected` bytes have been produced. */
  ghost function PieceAt(bytes: seq<Byte>, expected: nat, dataOffset: nat, read: nat, written: nat): (r: Result<Piece>)
    requires read < |bytes|
    ensures r.Ok? ==> read < r.value.next <= |bytes| && written + |r.value.bytes| <= expected
  {
    if read + 4 > |bytes| then Err(TruncatedRecord)
    else
      var raw := Get32(bytes, read);
      var size := raw % JUNK_FLAG;
      if raw >= JUNK_FLAG then
        if read + 4 + 68 > |bytes| then Err(TruncatedSeed)
        else if written + size > expected then Err(PaddingOverflow)
        else Ok(Piece(read + 72, PadBytes(SeedWords(bytes[read + 4..read + 72]), InWindow(dataOffset + written), size)))
      else if read + 4 + size > |bytes| || written + size > expected then Err(BadRecord)
      else Ok(Piece(read + 4 + size, bytes[read + 4..read + 4 + size]))
  }

  /** What is left to do when `read` input bytes have produced `output`. */
  ghost function UnpackFrom(bytes: seq<Byte>, expected: nat, dataOffset: nat, read: nat,
        output: seq<Byte>): Result<seq<Byte>>
    requires read <= |bytes|
    decreases |bytes| - read
  {
    if read < |bytes| && |output| < expected then
      var piece :- PieceAt(bytes, expected, dataOffset, read, |output|);
      UnpackFrom(bytes, expected, dataOffset, piece.next, output + piece.bytes)
    else if read != |bytes| then Err(UnconsumedInput)
    else if |output| != expected then Err(SizeMismatch)
    else Ok(output)
  }

  /** The expansion of packed bytes into `expected` bytes of the disc at `dataOffset`. */
  ghost function Unpacked(bytes: seq<Byte>, expected: nat, dataOffset: nat, packedSize: nat): Result<seq<Byte>> {
    if |bytes| != packedSize then Err(PackingSizeMismatch) else UnpackFrom(bytes, expected, dataOffset, 0, [])
  }

  method ReadPiece(bytes: seq<Byte>, expected: nat, dataOffset: nat, start: nat, written: nat)
        returns (r: Result<Piece>)
    requires start < |bytes|
    ensures r == PieceAt(bytes, expected, dataOffset, start, written)
  {
    var read := start;
    if read + 4 > |bytes| {
      return Err(TruncatedRecord);
    }
    var raw := Get32(bytes, read);
    read := read + 4;
    var size := raw % JUNK_FLAG;
    if raw >= JUNK_FLAG {
      if read + 68 > |bytes| {
        return Err(TruncatedSeed);
      }
      if written + size > expected {
        return Err(PaddingOverflow);
      }
      var lfg := new Lfg(bytes[read..read + 68]);
      read := read + 68;
      lfg.ForwardBytes(InWindow(dataOffset + written));
      var padding := lfg.NextBytes(size);
      return Ok(Piece(read, padding));
    }
    if read + size > |bytes| || written + size > expected {
      return Err(BadRecord);
    }
    r := Ok(Piece(read + size, bytes[read..read + size]));
  }

  method Unpack(bytes: seq<Byte>, expected: nat, dataOffset: nat, packedSize: nat) returns (r: Result<seq<Byte>>)
    ensures r == Unpacked(bytes, expected, dataOffset, packedSize)
  {
    if |bytes| != packedSize {
      return Err(PackingSizeMismatch);
    }
    var output := new Byte[expected](_ => 0);
    var read, written := 0, 0;
    while read < |bytes| && written < expected
      invariant read <= |bytes| && written <= expected
      invariant UnpackFrom(bytes, expected, dataOffset, read, output[..written])
           == Unpacked(bytes, expected, dataOffset, packedSize)
      decreases |bytes| - read
    {
      ghost var before := output[..written];
      var piece :- ReadPiece(bytes, expected, dataOffset, read, written);
      Put(output, written, piece.bytes);
      read := piece.next;
      written := written + |piece.bytes|;
      assert output[..written] == before + piece.bytes;
    }
    if read != |bytes| {
      return Err(UnconsumedInput);
    }
    if written != expected {
      return Err(SizeMismatch);
    }
    assert output[..] == output[..written];
    return Ok(output[..]);
  }

  // ---------- records ----------

  datatype Record = Literal(bytes: seq<Byte>) | Padding(length: nat, seed: Seed)

  function Length(r: Record): nat {
    match r
    case Literal(bytes) => |bytes|
    case Padding(length, _) => length
  }

  /** What is written out. Padding is never longer than a window, but a literal may be of any length. */
  predicate Recordable(r: Record) {
    match r
    case Literal(bytes) => bytes != []
    case Padding(length, _) => 0 < length < JUNK_FLAG
  }

  predicate AllRecordable(rs: seq<Record>) {
    forall r | r in rs :: Recordable(r)
  }

  /** What reads back: the length needs to leave bit 31 free. */
  predicate Readable(r: Record) {
    0 < Length(r) < JUNK_FLAG
  }

  predicate AllReadable(rs: seq<Record>) {
    forall r | r in rs :: Readable(r)
  }

  function SerializedRecord(r: Record): seq<Byte>
    requires Recordable(r)
  {
    match r
    case Literal(bytes) => Be32(|bytes| % U32) + bytes
    case Padding(length, seed) => Be32(length + JUNK_FLAG) + EncodedSeed(seed)
  }

  function Serialized(rs: seq<Record>): seq<Byte>
    requires AllRecordable(rs)
  {
    if rs == [] then [] else SerializedRecord(rs[0]) + Serialized(rs[1..])
  }

  ghost function ExpandedRecord(r: Record, offset: nat): (e: seq<Byte>)
    ensures |e| == Length(r)
  {
    match r
    case Literal(bytes) => bytes
    case Padding(length, seed) => PadBytes(Swapped(seed), InWindow(offset), length)
  }

  /** What records stand for on the disc from `offset` on. */
  ghost function Expanded(rs: seq<Record>, offset: nat): seq<Byte> {
    if rs == [] then [] else ExpandedRecord(rs[0], offset) + Expanded(rs[1..], offset + Length(rs[0]))
  }

  lemma {:induction false} SerializedAppend(rs: seq<Record>, r: Record)
    requires AllRecordable(rs) && Recordable(r)
    ensures AllRecordable(rs + [r])
    ensures Serialized(rs + [r]) == Serialized(rs) + SerializedRecord(r)
  {
    if rs == [] {
      assert rs + [r] == [r] && [r][1..] == [];
    } else {
      assert (rs + [r])[1..] == rs[1..] + [r];
      SerializedAppend(rs[1..], r);
    }
  }

  /** A serialised record, wherever it stands, reads back as what it stands for exactly when its length does. */
  lemma PieceOfRecord(prefix: seq<Byte>, r: Record, suffix: seq<Byte>, expected: nat, offset: nat, written: nat)
    requires Recordable(r) && written + Length(r) <= expected
    ensures PieceAt(prefix + SerializedRecord(r) + suffix, expected, offset, |prefix|, written)
         == Ok(Piece(|prefix| + |SerializedRecord(r)|, ExpandedRecord(r, offset + written)))
       <==> Readable(r)
  {
    hide Get32, Be32, SeedWords, EncodedSeed, PadBytes;
    var head := SerializedRecord(r);
    var bytes := prefix + head + suffix;
    var raw := if r.Literal? then |r.bytes| % U32 else r.length + JUNK_FLAG;
    assert bytes[|prefix|..|prefix| + 4] == head[..4] == Be32(raw);
    GetPut32(bytes, |prefix|, raw);
    match r
    case Literal(literal) =>
      assert bytes[|prefix| + 4..|prefix| + 4 + |literal|] == literal;
    case Padding(length, seed) =>
      assert bytes[|prefix| + 4..|prefix| + 72] == EncodedSeed(seed);
      RecordedSeed(seed);
  }

  /** Unpacking takes records off the input one by one, and expands each. */
  lemma {:induction false} UnpackRecords(prefix: seq<Byte>, rs: seq<Record>, offset: nat, output: seq<Byte>)
    requires AllRecordable(rs) && AllReadable(rs)
    ensures var rest := Expanded(rs, offset + |output|);
            UnpackFrom(prefix + Serialized(rs), |output| + |rest|, offset, |prefix|, output) == Ok(output + rest)
    decreases |rs|
  {
    hide Get32, Be32, SerializedRecord, PieceAt, ExpandedRecord;
    var bytes := prefix + Serialized(rs);
    var rest := Expanded(rs, offset + |output|);
    if rs == [] {
      assert output + rest == output;
    } else {
      var r := rs[0];
      var head, tail := SerializedRecord(r), Serialized(rs[1..]);
      var piece := ExpandedRecord(r, offset + |output|);
      assert bytes == prefix + head + tail;
      PieceOfRecord(prefix, r, tail, |output| + |rest|, offset, |output|);
      UnpackRecords(prefix + head, rs[1..], offset, output + piece);
      assert output + rest == (output + piece) + Expanded(rs[1..], offset + |output| + |piece|);
    }
  }
}
