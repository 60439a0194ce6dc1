/** The encrypted blocks of a partition, said by the bytes of the disc. */
module DiscBlocks {
  import opened Format
  import opened Chunking

  /** What the block at `o` holds besides its header, decrypted; the vector stands in the encrypted header. */
  function DataAt(c: Codec, key: Bytes, iso: Bytes, o: nat): (data: Bytes)
    requires o + 0x8000 <= |iso|
    ensures |data| == 0x7c00
  {
    c.decrypt(key, iso[o + 0x3d0..o + 0x3e0], iso[o + 0x400..o + 0x8000])
  }

  /** Its header, decrypted. */
  function HeaderAt(c: Codec, key: Bytes, iso: Bytes, o: nat): (header: Bytes)
    requires o + 0x8000 <= |iso|
    ensures |header| == 0x400
  {
    c.decrypt(key, seq(16, _ => 0), iso[o..o + 0x400])
  }

  lemma BlockIs(c: Codec, key: Bytes, d: DataEntry, iso: Bytes, b: nat)
    requires ValidPart(key, d, iso) && b < d.ns
    ensures var o := (d.fs + b) * 0x8000;
            && o + 0x8000 <= |iso|
            && HeaderAt(c, key, iso, o) == PlainHeader(c, key, DiscBlock(d, iso, b))
            && DataAt(c, key, iso, o) == PlainData(c, key, DiscBlock(d, iso, b))
  {
    var o := (d.fs + b) * 0x8000;
    var block := DiscBlock(d, iso, b);
    assert block == iso[o..o + 0x8000];
    BlockParts(c, key, iso, o);
  }

  lemma BlockParts(c: Codec, key: Bytes, iso: Bytes, o: nat)
    requires o + 0x8000 <= |iso|
    ensures HeaderAt(c, key, iso, o) == PlainHeader(c, key, iso[o..o + 0x8000])
    ensures DataAt(c, key, iso, o) == PlainData(c, key, iso[o..o + 0x8000])
  {
    SubSlice(iso, o, 0x8000, 0, 0x400);
    SubSlice(iso, o, 0x8000, 0x3d0, 0x3e0);
    SubSlice(iso, o, 0x8000, 0x400, 0x8000);
    var block := iso[o..o + 0x8000];
    assert block[..0x400] == iso[o..o + 0x400] && block[0x400..] == iso[o + 0x400..o + 0x8000];
  }
}
