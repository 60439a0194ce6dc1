/**
 What a container's regions stand for: the writes that decoding them makes. A run lists the
 writes made up to its end, and the failure that ended it, if one did.
 */
module Regions {
  import opened Results
  import opened Sizes
  import opened BigEndian
  import opened Format
  import opened Unpacking
  import opened HashTree
  import opened Exceptions

  datatype Run = Run(writes: seq<Write>, failure: Option<Error>)

  function Then(a: Run, b: Run): Run {
    if a.failure.Some? then a else Run(a.writes + b.writes, b.failure)
  }

  // ---------- groups ----------

  /** The bytes of the file that a group entry names; bit 31 of its size is a flag. */
  function Fetch(file: Bytes, g: GroupEntry): Chunk {
    Chunk(g.size % FLAG, g.size >= FLAG, g.packedSize, ReadAt(file, g.offset4 * 4, g.size % FLAG))
  }

  function FetchAll(file: Bytes, groups: seq<GroupEntry>): (r: seq<Chunk>)
    ensures |r| == |groups|
  {
    seq(|groups|, k requires 0 <= k < |groups| => Fetch(file, groups[k]))
  }

  function Inflated(c: Codec, chunk: Chunk): Result<Bytes> {
    if chunk.compressed then c.decompress(chunk.bytes) else Ok(chunk.bytes)
  }

  /** Unpacking never returns anything but the number of bytes asked for. */
  lemma {:induction false} UnpackedFully(bytes: Bytes, expected: nat, offset: nat, read: nat, output: Bytes)
    requires read <= |bytes|
    ensures var r := UnpackFrom(bytes, expected, offset, read, output);
            r.Ok? ==> |r.value| == expected
    decreases |bytes| - read
  {
    hide PieceAt;
    if read < |bytes| && |output| < expected {
      var piece := PieceAt(bytes, expected, offset, read, |output|);
      if piece.Ok? {
        UnpackedFully(bytes, expected, offset, piece.value.next, output + piece.value.bytes);
      }
    }
  }

  // ---------- raw regions ----------

  /** The bytes of the disc that a raw region's chunk holds; a chunk of no bytes is zeroes. */
  ghost function RawData(c: Codec, chunk: Chunk, expected: nat, offset: nat): (r: Result<Bytes>)
    ensures r.Ok? ==> |r.value| == expected
  {
    if chunk.size == 0 then Ok(Zeroes(expected))
    else
      var inflated :- Inflated(c, chunk);
      if chunk.packedSize != 0 then
        UnpackedFully(inflated, expected, offset, 0, []);
        Unpacked(inflated, expected, offset, chunk.packedSize)
      else if |inflated| != expected then Err(SizeMismatch)
      else Ok(inflated)
  }

  /** Chunk `i` of a raw region, which counts from the start of the block that the region starts in. */
  ghost function RawStep(c: Codec, e: RawEntry, chunkSize: nat, chunks: seq<Chunk>, i: nat): Result<Write> {
    var skipped := e.offset % BLOCK_TOTAL_SIZE;
    var at := i * chunkSize;
    if e.size + skipped < at then Err(Panic)
    else
      var expected := Min(chunkSize, e.size + skipped - at);
      if expected == 0 then Err(SizeMismatch)
      else if e.group + i >= |chunks| then Err(MissingGroup)
      else
        var data :- RawData(c, chunks[e.group + i], expected, e.offset - skipped + at);
        Ok(Write(e.offset - skipped + at, data))
  }

  /** A raw region from chunk `i` on. */
  ghost function RawRun(c: Codec, e: RawEntry, chunkSize: nat, chunks: seq<Chunk>, i: nat): Run
    decreases e.groups - i
  {
    if i >= e.groups then Run([], None)
    else
      match RawStep(c, e, chunkSize, chunks, i)
      case Err(error) => Run([], Some(error))
      case Ok(w) => Then(Run([w], None), RawRun(c, e, chunkSize, chunks, i + 1))
  }

  // ---------- partition regions ----------

  function PartChunkSize(chunkSize: nat): nat {
    chunkSize * BLOCK_DATA_SIZE / BLOCK_TOTAL_SIZE
  }

  /** A partition's chunk, opened. */
  datatype Content = Content(data: Bytes, exceptions: seq<Exception>)

  /** The exception list is padded to four bytes unless it was compressed with the data. */
  function ListSize(count: nat, compressed: bool): nat {
    if compressed then 2 + count * EXCEPTION_SIZE else Align4(2 + count * EXCEPTION_SIZE)
  }

  ghost function PartContent(c: Codec, chunk: Chunk, expected: nat, offset: nat): (r: Result<Content>)
    ensures r.Ok? ==> |r.value.data| == expected
    ensures r.Ok? ==> AllStorable(r.value.exceptions, expected / BLOCK_DATA_SIZE)
  {
    if chunk.size == 0 then Ok(Content(Zeroes(expected), []))
    else
      var inflated :- Inflated(c, chunk);
      Opened(inflated, chunk, expected, offset)
  }

  ghost function Opened(inflated: Bytes, chunk: Chunk, expected: nat, offset: nat): (r: Result<Content>)
    ensures r.Ok? ==> |r.value.data| == expected
    ensures r.Ok? ==> AllStorable(r.value.exceptions, expected / BLOCK_DATA_SIZE)
  {
    if |inflated| < 2 then Err(BadRecord)
    else
      var count := Get16(inflated, 0);
      var listSize := ListSize(count, chunk.compressed);
      if listSize + chunk.packedSize > |inflated| then Err(BadRecord)
      else
        var data :- MainData(inflated, listSize, chunk.packedSize, expected, offset);
        var exceptions :- ParseExceptions(inflated, count, expected / BLOCK_DATA_SIZE, 0);
        Ok(Content(data, exceptions))
  }

  ghost function MainData(inflated: Bytes, listSize: nat, packedSize: nat, expected: nat,
        offset: nat): (r: Result<Bytes>)
    requires listSize + packedSize <= |inflated|
    ensures r.Ok? ==> |r.value| == expected
  {
    if packedSize > 0 then
      var packed := inflated[listSize..listSize + packedSize];
      UnpackedFully(packed, expected, offset, 0, []);
      Unpacked(packed, expected, offset, packedSize)
    else if listSize + expected > |inflated| then Err(Panic)
    else Ok(inflated[listSize..listSize + expected])
  }

  /** What the decoder keeps between the chunks of a partition. */
  datatype Group = Group(blockIndex: nat, start: nat, blocks: Slots, ex: Filing)

  predicate ValidGroup(g: Group) {
    ValidSlots(g.blocks) && ValidFiling(g.ex) && g.start <= g.blockIndex
  }

  function NoBlocks(): (blocks: Slots)
    ensures ValidSlots(blocks)
  {
    seq(BLOCKS_PER_GROUP, _ => None)
  }

  function NewGroup(at: nat): (g: Group)
    ensures ValidGroup(g)
  {
    Group(at, at, NoBlocks(), NoPatches())
  }

  /** The first `n` blocks of a chunk, put in their places. */
  function Placed(blocks: Slots, first: nat, data: Bytes, n: nat): (r: Slots)
    requires ValidSlots(blocks) && n * BLOCK_DATA_SIZE <= |data|
    ensures ValidSlots(r)
  {
    if n == 0 then blocks
    else
      var piece := data[(n - 1) * BLOCK_DATA_SIZE..n * BLOCK_DATA_SIZE];
      Placed(blocks, first, data, n - 1)[(first + n - 1) % BLOCKS_PER_GROUP := Some(piece)]
  }

  lemma StorablePatches(es: seq<Exception>, blocks: nat)
    requires AllStorable(es, blocks)
    ensures AllPatchable(es)
  {}

  /** A group with a chunk added. */
  function WithChunk(g: Group, content: Content): (r: Group)
    requires ValidGroup(g) && AllStorable(content.exceptions, |content.data| / BLOCK_DATA_SIZE)
    ensures ValidGroup(r)
  {
    var n := |content.data| / BLOCK_DATA_SIZE;
    StorablePatches(content.exceptions, n);
    Group(g.blockIndex + n, g.start, Placed(g.blocks, g.blockIndex, content.data, n),
          Filed(g.ex, g.blockIndex, content.exceptions))
  }

  function ZeroIv(): Bytes {
    Zeroes(16)
  }

  /** The vector for a block's data comes out of its encrypted header. */
  function DataIv(header: Bytes): (iv: Bytes)
    requires |header| == BLOCK_HEADER_SIZE
    ensures |iv| == 16
  {
    header[0x3d0..0x3e0]
  }

  /** A block as it stands on the disc. */
  function Encrypted(c: Codec, key: Bytes, header: Bytes, data: Bytes): (r: Bytes)
    requires |header| == BLOCK_HEADER_SIZE && |data| == BLOCK_DATA_SIZE
    ensures |r| == BLOCK_TOTAL_SIZE
  {
    var cipher := c.encrypt(key, ZeroIv(), header);
    cipher + c.encrypt(key, DataIv(cipher), data)
  }

  /** The hash header of block `j` of a group: recomputed, then patched. */
  function PatchedHeader(c: Codec, blocks: Slots, ex: Filing, j: nat): (r: Bytes)
    requires ValidSlots(blocks) && ValidFiling(ex) && j < BLOCKS_PER_GROUP
    ensures |r| == BLOCK_HEADER_SIZE
  {
    Patched(HashHeader(c, blocks, j), ex[j])
  }

  function BlockOut(c: Codec, key: Bytes, header: Bytes, data: Bytes, encrypt: bool): (r: Bytes)
    requires |header| == BLOCK_HEADER_SIZE && |data| == BLOCK_DATA_SIZE
    ensures |r| == BLOCK_TOTAL_SIZE
  {
    if encrypt then Encrypted(c, key, header, data) else header + data
  }

  /** Blocks `j` to `n` of a finished group. */
  function Finalized(c: Codec, key: Bytes, blocks: Slots, ex: Filing, n: nat, encrypt: bool, j: nat): (r: Result<Bytes>)
    requires ValidSlots(blocks) && ValidFiling(ex) && j <= n <= BLOCKS_PER_GROUP
    ensures r.Ok? ==> |r.value| == (n - j) * BLOCK_TOTAL_SIZE
    decreases n - j
  {
    if j == n then Ok([])
    else if blocks[j].None? then Err(MissingGroup)
    else
      var block := BlockOut(c, key, PatchedHeader(c, blocks, ex, j), blocks[j].value, encrypt);
      var rest :- Finalized(c, key, blocks, ex, n, encrypt, j + 1);
      Ok(block + rest)
  }

  /** The state after a chunk, and what was put out. */
  datatype Stepped = Stepped(group: Group, writes: seq<Write>)

  /** After a chunk, a full group is put out; at the end of the region, whatever there is. */
  function Flushed(c: Codec, key: Bytes, base: nat, g: Group, last: bool, encrypt: bool): (r: Result<Stepped>)
    requires ValidGroup(g)
    ensures r.Ok? ==> ValidGroup(r.value.group)
  {
    if g.blockIndex % BLOCKS_PER_GROUP == 0 || last then
      var n := Min(BLOCKS_PER_GROUP, g.blockIndex - g.start);
      if n > 0 then
        var output :- Finalized(c, key, g.blocks, g.ex, n, encrypt, 0);
        Ok(Stepped(NewGroup(g.blockIndex), [Write(base + g.start * BLOCK_TOTAL_SIZE, output)]))
      else Ok(Stepped(NewGroup(g.blockIndex), []))
    else Ok(Stepped(g, []))
  }

  /** Chunk `i` of a partition region. */
  ghost function PartStep(c: Codec, key: Bytes, d: DataEntry, chunkSize: nat, chunks: seq<Chunk>, i: nat, g: Group,
      encrypt: bool): (r: Result<Stepped>)
    requires ValidGroup(g)
    ensures r.Ok? ==> ValidGroup(r.value.group)
  {
    var size, at := PartChunkSize(chunkSize), i * PartChunkSize(chunkSize);
    if d.gi + i >= |chunks| then Err(MissingGroup)
    else if d.ns * BLOCK_DATA_SIZE < at then Err(Panic)
    else
      var expected := Min(size, d.ns * BLOCK_DATA_SIZE - at);
      if expected == 0 then Err(SizeMismatch)
      else
        var content :- PartContent(c, chunks[d.gi + i], expected, at);
        Flushed(c, key, d.fs * BLOCK_TOTAL_SIZE, WithChunk(g, content), i + 1 == d.ng, encrypt)
  }

  /** A partition region from chunk `i` on. */
  ghost function PartRun(c: Codec, key: Bytes, d: DataEntry, chunkSize: nat, chunks: seq<Chunk>, i: nat, g: Group,
      encrypt: bool): Run
    requires ValidGroup(g)
    decreases d.ng - i
  {
    if i >= d.ng then Run([], None)
    else
      match PartStep(c, key, d, chunkSize, chunks, i, g, encrypt)
      case Err(error) => Run([], Some(error))
      case Ok(s) => Then(Run(s.writes, None), PartRun(c, key, d, chunkSize, chunks, i + 1, s.group, encrypt))
  }

  lemma PartUnfolds(c: Codec, key: Bytes, d: DataEntry, chunkSize: nat, chunks: seq<Chunk>, i: nat, g: Group,
        encrypt: bool)
    requires ValidGroup(g) && i < d.ng
    ensures PartRun(c, key, d, chunkSize, chunks, i, g, encrypt)
         == match PartStep(c, key, d, chunkSize, chunks, i, g, encrypt)
            case Err(error) => Run([], Some(error))
            case Ok(s) => Then(Run(s.writes, None), PartRun(c, key, d, chunkSize, chunks, i + 1, s.group, encrypt))
  {
    hide PartStep, ValidGroup;
  }

  lemma PartEnds(c: Codec, key: Bytes, d: DataEntry, chunkSize: nat, chunks: seq<Chunk>, g: Group, encrypt: bool)
    requires ValidGroup(g)
    ensures PartRun(c, key, d, chunkSize, chunks, d.ng, g, encrypt) == Run([], None)
  {
    hide ValidGroup;
  }

  // ---------- all regions ----------

  ghost function RegionRun(c: Codec, chunkSize: nat, chunks: seq<Chunk>, r: Region, encrypt: bool): Run {
    match r
    case Raw(e) => RawRun(c, e, chunkSize, chunks, 0)
    case Part(key, d) =>
      if d.ns == 0 then Run([], None) else PartRun(c, key, d, chunkSize, chunks, 0, NewGroup(0), encrypt)
  }

  ghost function RegionsRun(c: Codec, chunkSize: nat, chunks: seq<Chunk>, rs: seq<Region>, encrypt: bool): Run {
    if rs == [] then Run([], None)
    else Then(RegionRun(c, chunkSize, chunks, rs[0], encrypt), RegionsRun(c, chunkSize, chunks, rs[1..], encrypt))
  }

  /** A partition's two stretches, without the empty ones. */
  function StretchesOf(p: Partition): seq<Region> {
    (if p.first.ns == 0 then [] else [Part(p.key, p.first)])
        + (if p.second.ns == 0 then [] else [Part(p.key, p.second)])
  }

  function PartRegions(parts: seq<Partition>): seq<Region> {
    if parts == [] then [] else StretchesOf(parts[0]) + PartRegions(parts[1..])
  }

  function RawRegions(raws: seq<RawEntry>): (r: seq<Region>)
    ensures |r| == |raws|
  {
    seq(|raws|, i requires 0 <= i < |raws| => Raw(raws[i]))
  }
}
