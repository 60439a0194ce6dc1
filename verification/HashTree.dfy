/**
 The hash tree over a group of 64 blocks. Each block carries a 0x400-byte header: the digests of
 its own 31 kilobytes (H0), of the H0 arrays of the eight blocks around it (H1), and of the eight
 H1 arrays of the group (H2), with zeroes between them.
 */
module HashTree {
  import opened Words
  import opened Results
  import opened Sizes
  import opened Format
  import opened Buffers

  const H1_ARRAY_SIZE: nat := 160
  const H1_OFFSET: nat := 0x280
  const H2_OFFSET: nat := 0x340

  /** The blocks of a group; a group at the end of a partition lacks the later ones. */
  type Slots = seq<Option<Bytes>>

  predicate ValidSlots(blocks: Slots) {
    |blocks| == BLOCKS_PER_GROUP
    && forall j | 0 <= j < BLOCKS_PER_GROUP && blocks[j].Some? :: |blocks[j].value| == BLOCK_DATA_SIZE
  }

  /** A missing block counts as zeroes. */
  function DataOf(block: Option<Bytes>): Bytes {
    match block
    case Some(data) => data
    case None => Zeroes(BLOCK_DATA_SIZE)
  }

  // ---------- the tree, level by level ----------

  /** The digests of the first `n` kilobytes of a block. */
  function H0(c: Codec, data: Bytes, n: nat): (h: Bytes)
    requires |data| == BLOCK_DATA_SIZE && n <= 31
    ensures |h| == 20 * n
  {
    if n == 0 then [] else H0(c, data, n - 1) + c.sha1(data[(n - 1) * 0x400..n * 0x400])
  }

  function H0Array(c: Codec, blocks: Slots, j: nat): (h: Bytes)
    requires ValidSlots(blocks) && j < BLOCKS_PER_GROUP
    ensures |h| == H0_ARRAY_SIZE
  {
    H0(c, DataOf(blocks[j]), 31)
  }

  /** The H0 arrays of the first `n` blocks. */
  function H0Arrays(c: Codec, blocks: Slots, n: nat): (h: Bytes)
    requires ValidSlots(blocks) && n <= BLOCKS_PER_GROUP
    ensures |h| == n * H0_ARRAY_SIZE
  {
    if n == 0 then [] else H0Arrays(c, blocks, n - 1) + H0Array(c, blocks, n - 1)
  }

  /** The digests of `n` H0 arrays from block `from` on. */
  function H1Run(c: Codec, blocks: Slots, from: nat, n: nat): (h: Bytes)
    requires ValidSlots(blocks) && from + n <= BLOCKS_PER_GROUP
    ensures |h| == 20 * n
  {
    if n == 0 then [] else H1Run(c, blocks, from, n - 1) + c.sha1(H0Array(c, blocks, from + n - 1))
  }

  function H1Array(c: Codec, blocks: Slots, k: nat): (h: Bytes)
    requires ValidSlots(blocks) && k < 8
    ensures |h| == H1_ARRAY_SIZE
  {
    H1Run(c, blocks, 8 * k, 8)
  }

  /** The first `n` H1 arrays. */
  function H1Arrays(c: Codec, blocks: Slots, n: nat): (h: Bytes)
    requires ValidSlots(blocks) && n <= 8
    ensures |h| == H1_ARRAY_SIZE * n
  {
    if n == 0 then [] else H1Arrays(c, blocks, n - 1) + H1Array(c, blocks, n - 1)
  }

  /** The digests of the first `n` H1 arrays. */
  function H2(c: Codec, blocks: Slots, n: nat): (h: Bytes)
    requires ValidSlots(blocks) && n <= 8
    ensures |h| == 20 * n
  {
    if n == 0 then [] else H2(c, blocks, n - 1) + c.sha1(H1Array(c, blocks, n - 1))
  }

  /** The header that block `j` of a group has if its hashes are right. */
  function HashHeader(c: Codec, blocks: Slots, j: nat): (h: Bytes)
    requires ValidSlots(blocks) && j < BLOCKS_PER_GROUP
    ensures |h| == BLOCK_HEADER_SIZE
  {
    H0Array(c, blocks, j) + Zeroes(20) + H1Array(c, blocks, j / 8) + Zeroes(32) + H2(c, blocks, 8) + Zeroes(32)
  }

  // ---------- filling the arrays ----------

  /** Puts the digest of a stretch of `data` into `out`. */
  method Sha1Into(c: Codec, data: Bytes, offset: nat, length: nat, out: array<Byte>, outOffset: nat)
    requires offset + length <= |data| && outOffset + 20 <= out.Length
    modifies out
    ensures out[..outOffset + 20] == old(out[..outOffset]) + c.sha1(data[offset..offset + length])
  {
    var digest := c.sha1(data[offset..offset + length]);
    Put(out, outOffset, digest);
  }

  lemma SameData(blocks: Slots, j: nat)
    requires ValidSlots(blocks) && j < BLOCKS_PER_GROUP
    ensures |DataOf(blocks[j])| == BLOCK_DATA_SIZE
    ensures blocks[j].Some? ==> DataOf(blocks[j]) == blocks[j].value
    ensures blocks[j].None? ==> forall s | 0 <= s < 31 :: ZeroPiece(DataOf(blocks[j]), s)
  {
  }

  /** A missing block hashes as zeroes all through. */
  predicate ZeroPiece(data: Bytes, s: nat)
    requires |data| == BLOCK_DATA_SIZE && s < 31
  {
    data[s * 0x400..(s + 1) * 0x400] == Zeroes(0x400)
  }

  /** The digests of one block, from `base` on. */
  method FillBlock(c: Codec, blocks: Slots, j: nat, h0s: array<Byte>, base: nat)
    requires ValidSlots(blocks) && j < BLOCKS_PER_GROUP && base + H0_ARRAY_SIZE <= h0s.Length
    modifies h0s
    ensures h0s[..base + H0_ARRAY_SIZE] == old(h0s[..base]) + H0Array(c, blocks, j)
  {
    hide H0;
    var zero1k := Zeroes(0x400);
    ghost var data := DataOf(blocks[j]);
    ghost var before := h0s[..base];
    SameData(blocks, j);
    H0Start(c, data);
    for s := 0 to 31
      invariant h0s[..base + s * 20] == before + H0(c, data, s)
    {
      if blocks[j].Some? {
        Sha1Into(c, blocks[j].value, s * 0x400, 0x400, h0s, base + s * 20);
      } else {
        assert ZeroPiece(data, s);
        assert zero1k[0..0x400] == zero1k;
        Sha1Into(c, zero1k, 0, 0x400, h0s, base + s * 20);
      }
      H0Next(c, data, s, before);
    }
  }

  lemma H0Next(c: Codec, data: Bytes, s: nat, before: Bytes)
    requires |data| == BLOCK_DATA_SIZE && s < 31
    ensures before + H0(c, data, s) + c.sha1(data[s * 0x400..(s + 1) * 0x400]) == before + H0(c, data, s + 1)
  {
    hide H0;
    H0Step(c, data, s);
  }

  method FillH0(c: Codec, blocks: Slots, h0s: array<Byte>)
    requires ValidSlots(blocks) && h0s.Length == BLOCKS_PER_GROUP * H0_ARRAY_SIZE
    modifies h0s
    ensures h0s[..] == H0Arrays(c, blocks, BLOCKS_PER_GROUP)
  {
    hide H0Array;
    for j := 0 to BLOCKS_PER_GROUP
      invariant h0s[..j * H0_ARRAY_SIZE] == H0Arrays(c, blocks, j)
    {
      FillBlock(c, blocks, j, h0s, j * H0_ARRAY_SIZE);
    }
    assert h0s[..] == h0s[..BLOCKS_PER_GROUP * H0_ARRAY_SIZE];
  }

  lemma H0Start(c: Codec, data: Bytes)
    requires |data| == BLOCK_DATA_SIZE
    ensures H0(c, data, 0) == []
  {}

  lemma H0Step(c: Codec, data: Bytes, s: nat)
    requires |data| == BLOCK_DATA_SIZE && s < 31
    ensures H0(c, data, s + 1) == H0(c, data, s) + c.sha1(data[s * 0x400..(s + 1) * 0x400])
  {}

  /** Where an array stands among the H0 arrays. */
  lemma {:induction false} H0ArrayAt(c: Codec, blocks: Slots, n: nat, j: nat)
    requires ValidSlots(blocks) && j < n <= BLOCKS_PER_GROUP
    ensures H0Arrays(c, blocks, n)[j * H0_ARRAY_SIZE..(j + 1) * H0_ARRAY_SIZE] == H0Array(c, blocks, j)
  {
    hide H0Array;
    if j < n - 1 {
      H0ArrayAt(c, blocks, n - 1, j);
      var shorter := H0Arrays(c, blocks, n - 1);
      assert (j + 1) * H0_ARRAY_SIZE <= (n - 1) * H0_ARRAY_SIZE;
      assert H0Arrays(c, blocks, n)[j * H0_ARRAY_SIZE..(j + 1) * H0_ARRAY_SIZE]
          == shorter[j * H0_ARRAY_SIZE..(j + 1) * H0_ARRAY_SIZE];
    }
  }

  lemma {:induction false} H1ArrayAt(c: Codec, blocks: Slots, n: nat, k: nat)
    requires ValidSlots(blocks) && k < n <= 8
    ensures H1Arrays(c, blocks, n)[k * H1_ARRAY_SIZE..(k + 1) * H1_ARRAY_SIZE] == H1Array(c, blocks, k)
  {
    hide H1Array;
    if k < n - 1 {
      H1ArrayAt(c, blocks, n - 1, k);
      var shorter := H1Arrays(c, blocks, n - 1);
      assert H1Arrays(c, blocks, n)[k * H1_ARRAY_SIZE..(k + 1) * H1_ARRAY_SIZE]
          == shorter[k * H1_ARRAY_SIZE..(k + 1) * H1_ARRAY_SIZE];
    }
  }

  /** One H1 array, from the H0 arrays of its eight blocks. */
  method FillH1(c: Codec, blocks: Slots, k: nat, h0s: array<Byte>, h1: array<Byte>, h1base: nat)
    requires ValidSlots(blocks) && k < 8 && h0s[..] == H0Arrays(c, blocks, BLOCKS_PER_GROUP)
    requires h1base + H1_ARRAY_SIZE <= h1.Length && h0s != h1
    modifies h1
    ensures h1[..h1base + H1_ARRAY_SIZE] == old(h1[..h1base]) + H1Array(c, blocks, k)
  {
    hide H0Array, H0Arrays, H1Run;
    ghost var before := h1[..h1base];
    RunStart(c, blocks, 8 * k);
    for m := 0 to 8
      invariant h1[..h1base + m * 20] == before + H1Run(c, blocks, 8 * k, m)
    {
      H0ArrayAt(c, blocks, BLOCKS_PER_GROUP, k * 8 + m);
      Sha1Into(c, h0s[..], (k * 8 + m) * H0_ARRAY_SIZE, H0_ARRAY_SIZE, h1, h1base + m * 20);
      RunStep(c, blocks, 8 * k, m);
    }
  }

  method FillH1H2(c: Codec, blocks: Slots, h0s: array<Byte>, h1: array<Byte>, h2: array<Byte>)
    requires ValidSlots(blocks) && h0s[..] == H0Arrays(c, blocks, BLOCKS_PER_GROUP)
    requires h1.Length >= 8 * H1_ARRAY_SIZE && h2.Length == 8 * 20 && h0s != h1 && h0s != h2 && h1 != h2
    modifies h1, h2
    ensures h1[..8 * H1_ARRAY_SIZE] == H1Arrays(c, blocks, 8)
    ensures h2[..] == H2(c, blocks, 8)
  {
    hide H0Array, H1Array, H0Arrays, H1Run, H2, H1Arrays;
    FillStart(c, blocks);
    for k := 0 to 8
      invariant h1[..k * H1_ARRAY_SIZE] == H1Arrays(c, blocks, k)
      invariant h2[..k * 20] == H2(c, blocks, k)
    {
      var h1base := k * H1_ARRAY_SIZE;
      FillH1(c, blocks, k, h0s, h1, h1base);
      ArrayStep(c, blocks, k);
      assert h1[..][h1base..h1base + H1_ARRAY_SIZE] == H1Array(c, blocks, k) by {
        assert h1[..][h1base..h1base + H1_ARRAY_SIZE] == h1[..h1base + H1_ARRAY_SIZE][h1base..];
      }
      Sha1Into(c, h1[..], h1base, H1_ARRAY_SIZE, h2, k * 20);
    }
    assert h2[..] == h2[..8 * 20];
  }

  lemma FillStart(c: Codec, blocks: Slots)
    requires ValidSlots(blocks)
    ensures H1Arrays(c, blocks, 0) == [] && H2(c, blocks, 0) == []
  {}

  lemma RunStart(c: Codec, blocks: Slots, from: nat)
    requires ValidSlots(blocks) && from <= BLOCKS_PER_GROUP
    ensures H1Run(c, blocks, from, 0) == []
  {}

  lemma RunStep(c: Codec, blocks: Slots, from: nat, m: nat)
    requires ValidSlots(blocks) && from + m < BLOCKS_PER_GROUP
    ensures H1Run(c, blocks, from, m + 1) == H1Run(c, blocks, from, m) + c.sha1(H0Array(c, blocks, from + m))
  {
    hide H0Array;
  }

  lemma ArrayStep(c: Codec, blocks: Slots, k: nat)
    requires ValidSlots(blocks) && k < 8
    ensures H1Run(c, blocks, 8 * k, 8) == H1Array(c, blocks, k)
    ensures H1Arrays(c, blocks, k + 1) == H1Arrays(c, blocks, k) + H1Array(c, blocks, k)
    ensures H2(c, blocks, k + 1) == H2(c, blocks, k) + c.sha1(H1Array(c, blocks, k))
  {
    hide H1Run;
  }

  /** A header is zero where no hash goes. */
  method PlaceHashes(own: Bytes, eight: Bytes, all: Bytes) returns (block: array<Byte>)
    requires |own| == H0_ARRAY_SIZE && |eight| == |all| == H1_ARRAY_SIZE
    ensures fresh(block) && block[..] == own + Zeroes(20) + eight + Zeroes(32) + all + Zeroes(32)
  {
    block := new Byte[BLOCK_HEADER_SIZE](_ => 0);
    Put(block, 0, own);
    assert block[..H1_OFFSET] == own + Zeroes(20);
    Put(block, H1_OFFSET, eight);
    assert block[..H2_OFFSET] == own + Zeroes(20) + eight + Zeroes(32);
    Put(block, H2_OFFSET, all);
    assert block[..] == own + Zeroes(20) + eight + Zeroes(32) + all + Zeroes(32);
  }

  /** Copies one block's hashes out of the arrays. */
  method HashBlock(c: Codec, ghost blocks: Slots, h0s: array<Byte>, h1: array<Byte>, h2: array<Byte>, j: nat)
      returns (block: array<Byte>)
    requires ValidSlots(blocks) && j < BLOCKS_PER_GROUP && h1.Length >= 8 * H1_ARRAY_SIZE
    requires h0s[..] == H0Arrays(c, blocks, BLOCKS_PER_GROUP)
    requires h1[..8 * H1_ARRAY_SIZE] == H1Arrays(c, blocks, 8) && h2[..] == H2(c, blocks, 8)
    ensures fresh(block) && block[..] == HashHeader(c, blocks, j)
  {
    hide H0Array, H1Array, H2, H0Arrays, H1Arrays, ValidSlots, Zeroes;
    H0ArrayAt(c, blocks, BLOCKS_PER_GROUP, j);
    H1ArrayAt(c, blocks, 8, j / 8);
    var own := h0s[..][j * H0_ARRAY_SIZE..(j + 1) * H0_ARRAY_SIZE];
    var eight := h1[..8 * H1_ARRAY_SIZE][j / 8 * H1_ARRAY_SIZE..(j / 8 + 1) * H1_ARRAY_SIZE];
    block := PlaceHashes(own, eight, h2[..]);
  }

  // ---------- the encoder's side ----------

  /** The decrypted blocks of a window, as a group: the blocks past its end are missing. */
  function Slotted(plains: seq<Bytes>): (g: Slots)
    requires |plains| <= BLOCKS_PER_GROUP && AllBlocks(plains)
    ensures ValidSlots(g)
  {
    seq(BLOCKS_PER_GROUP, i requires 0 <= i < BLOCKS_PER_GROUP =>
      if i < |plains| then Some(plains[i]) else None)
  }

  predicate AllBlocks(plains: seq<Bytes>) {
    forall i | 0 <= i < |plains| :: |plains[i]| == BLOCK_DATA_SIZE
  }

  function HashHeaders(c: Codec, blocks: Slots): (h: seq<Bytes>)
    requires ValidSlots(blocks)
    ensures |h| == BLOCKS_PER_GROUP && forall i | 0 <= i < BLOCKS_PER_GROUP :: |h[i]| == BLOCK_HEADER_SIZE
  {
    seq(BLOCKS_PER_GROUP, i requires 0 <= i < BLOCKS_PER_GROUP => HashHeader(c, blocks, i))
  }

  /** Recomputes the headers of a window's blocks. */
  method HashGroup(c: Codec, plains: seq<Bytes>) returns (out: seq<Bytes>)
    requires |plains| <= BLOCKS_PER_GROUP && AllBlocks(plains)
    ensures out == HashHeaders(c, Slotted(plains))
  {
    hide HashHeader, H0Arrays, H1Arrays, H2;
    var blocks := Slotted(plains);
    var h0s := new Byte[BLOCKS_PER_GROUP * H0_ARRAY_SIZE];
    var h1 := new Byte[BLOCKS_PER_GROUP * 160];
    var h2 := new Byte[8 * 20];
    FillH0(c, blocks, h0s);
    FillH1H2(c, blocks, h0s, h1, h2);
    out := [];
    for i := 0 to BLOCKS_PER_GROUP
      invariant h0s[..] == H0Arrays(c, blocks, BLOCKS_PER_GROUP)
      invariant h1[..8 * H1_ARRAY_SIZE] == H1Arrays(c, blocks, 8) && h2[..] == H2(c, blocks, 8)
      invariant out == HashHeaders(c, blocks)[..i]
    {
      var block := HashBlock(c, blocks, h0s, h1, h2, i);
      out := out + [block[..]];
    }
  }
}
