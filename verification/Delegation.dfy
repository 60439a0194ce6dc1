/** Decoding with the encryption of blocks left to whoever takes the output. */
module Delegation {
  import opened Sizes
  import opened Format
  import opened HashTree
  import opened Exceptions
  import opened Regions

  /** Encrypts plaintext blocks, header and data one after another, as the taker of the output does. */
  function EncryptBlocks(c: Codec, key: Bytes, plain: Bytes): Bytes
    requires |plain| % BLOCK_TOTAL_SIZE == 0
    decreases |plain|
  {
    if plain == [] then []
    else
      Encrypted(c, key, plain[..BLOCK_HEADER_SIZE], plain[BLOCK_HEADER_SIZE..BLOCK_TOTAL_SIZE])
        + EncryptBlocks(c, key, plain[BLOCK_TOTAL_SIZE..])
  }

  lemma EncryptNext(c: Codec, key: Bytes, header: Bytes, data: Bytes, rest: Bytes)
    requires |header| == BLOCK_HEADER_SIZE && |data| == BLOCK_DATA_SIZE && |rest| % BLOCK_TOTAL_SIZE == 0
    ensures EncryptBlocks(c, key, header + data + rest) == Encrypted(c, key, header, data) + EncryptBlocks(c, key, rest)
  {
    hide Encrypted;
    var plain := header + data + rest;
    assert plain[..BLOCK_HEADER_SIZE] == header && plain[BLOCK_HEADER_SIZE..BLOCK_TOTAL_SIZE] == data;
    assert plain[BLOCK_TOTAL_SIZE..] == rest;
  }

  /** A group rebuilt in plaintext becomes, encrypted, the group rebuilt encrypted. */
  lemma {:induction false} FinalizedDelegated(c: Codec, key: Bytes, blocks: Slots, ex: Filing, n: nat, j: nat)
    requires ValidSlots(blocks) && ValidFiling(ex) && j <= n <= BLOCKS_PER_GROUP
    ensures var plain, cipher := Finalized(c, key, blocks, ex, n, false, j), Finalized(c, key, blocks, ex, n, true, j);
            && plain.Ok? == cipher.Ok? && (plain.Err? ==> plain == cipher)
            && (plain.Ok? ==>
                  |plain.value| % BLOCK_TOTAL_SIZE == 0 && cipher.value == EncryptBlocks(c, key, plain.value))
    decreases n - j
  {
    hide PatchedHeader, Encrypted, EncryptBlocks;
    if j == n {
      NothingEncrypted(c, key);
    } else if blocks[j].Some? {
      FinalizedDelegated(c, key, blocks, ex, n, j + 1);
      var plain := Finalized(c, key, blocks, ex, n, false, j + 1);
      if plain.Ok? {
        EncryptNext(c, key, PatchedHeader(c, blocks, ex, j), blocks[j].value, plain.value);
      }
    }
  }

  lemma NothingEncrypted(c: Codec, key: Bytes)
    ensures EncryptBlocks(c, key, []) == []
  {}

  /** The writes of a partition, with their blocks encrypted. */
  function EncryptWrites(c: Codec, key: Bytes, ws: seq<Write>): (r: seq<Write>)
    requires forall i | 0 <= i < |ws| :: |ws[i].data| % BLOCK_TOTAL_SIZE == 0
    ensures |r| == |ws|
  {
    seq(|ws|, i requires 0 <= i < |ws| => Write(ws[i].offset, EncryptBlocks(c, key, ws[i].data)))
  }

  /** Delegating changes nothing but that the blocks put out are yet to be encrypted. */
  lemma FlushedDelegated(c: Codec, key: Bytes, base: nat, g: Group, last: bool)
    requires ValidGroup(g)
    ensures var plain, cipher := Flushed(c, key, base, g, last, false), Flushed(c, key, base, g, last, true);
            && plain.Ok? == cipher.Ok? && (plain.Err? ==> plain == cipher)
            && (plain.Ok? ==>
                 && plain.value.group == cipher.value.group && |plain.value.writes| == |cipher.value.writes| <= 1
                 && (forall i | 0 <= i < |plain.value.writes| :: |plain.value.writes[i].data| % BLOCK_TOTAL_SIZE == 0)
                 && cipher.value.writes == EncryptWrites(c, key, plain.value.writes))
  {
    hide Finalized, EncryptBlocks;
    if g.blockIndex % BLOCKS_PER_GROUP == 0 || last {
      var n := Min(BLOCKS_PER_GROUP, g.blockIndex - g.start);
      if n > 0 {
        FinalizedDelegated(c, key, g.blocks, g.ex, n, 0);
      }
    }
  }
}
