/** The entities of the container, and the primitives the program takes from libraries. */
module Format {
  import opened Words
  import opened Results
  import opened Sizes

  type Bytes = seq<Byte>

  function Zeroes(n: nat): (z: Bytes)
    ensures |z| == n
  {
    seq(n, _ => 0)
  }

  // ---------- library primitives ----------

  /** AES-128-CBC, SHA-1 and zstd, as functions of their inputs, and the key that title keys are encrypted with. */
  datatype Primitives = Primitives(
    encrypt: (Bytes, Bytes, Bytes) -> Bytes,
    decrypt: (Bytes, Bytes, Bytes) -> Bytes,
    sha1: Bytes -> Bytes,
    compress: Bytes -> Bytes,
    decompress: Bytes -> Result<Bytes>,
    commonKey: Bytes)

  /** All that is known of them. */
  ghost predicate Lawful(p: Primitives) {
    && (forall k, iv, x {:trigger p.encrypt(k, iv, x)} :: |x| % 16 == 0 ==>
          |p.encrypt(k, iv, x)| == |x| && p.decrypt(k, iv, p.encrypt(k, iv, x)) == x)
    && (forall k, iv, x {:trigger p.decrypt(k, iv, x)} :: |x| % 16 == 0 ==>
          |p.decrypt(k, iv, x)| == |x| && p.encrypt(k, iv, p.decrypt(k, iv, x)) == x)
    && (forall x {:trigger p.sha1(x)} :: |p.sha1(x)| == 20)
    && (forall x {:trigger p.compress(x)} :: p.compress(x) != [] && p.decompress(p.compress(x)) == Ok(x))
  }

  /** Primitives that meet the laws, if trivially. */
  function Trivial(): (p: Primitives)
    ensures Lawful(p)
  {
    Primitives((k, iv, x) => x, (k, iv, x) => x, x => Zeroes(20), (x: Bytes) => [0] + x,
               (x: Bytes) => if x == [] then Err(Zstd) else Ok(x[1..]), [])
  }

  type Codec = p: Primitives | Lawful(p) ghost witness Trivial()

  // ---------- entries ----------

  datatype RawEntry = RawEntry(offset: nat, size: nat, group: nat, groups: nat)

  /** A run of `ns` encrypted blocks from block `fs` of the disc, in `ng` groups from `gi`. */
  datatype DataEntry = DataEntry(fs: nat, ns: nat, gi: nat, ng: nat)

  datatype Partition = Partition(key: Bytes, first: DataEntry, second: DataEntry)

  /** Bit 31 of `size` marks a compressed chunk. */
  datatype GroupEntry = GroupEntry(offset4: nat, size: nat, packedSize: nat)

  datatype Header = Header(
    isoSize: nat, compression: nat, chunkSize: nat,
    rawCount: nat, rawOffset: nat, rawSize: nat,
    groupCount: nat, groupOffset: nat, groupSize: nat,
    partCount: nat, dhead: Bytes)

  /** A group as the decoder meets it: what its entry says, and the bytes read for it. */
  datatype Chunk = Chunk(size: nat, compressed: bool, packedSize: nat, bytes: Bytes)

  /** A stretch of the disc, put out by the decoder. */
  datatype Write = Write(offset: nat, data: Bytes)

  datatype Region = Raw(raw: RawEntry) | Part(key: Bytes, data: DataEntry)

  /** Where on the disc a region starts. */
  function Start(r: Region): nat {
    match r
    case Raw(e) => AlignDown(e.offset, BLOCK_TOTAL_SIZE)
    case Part(_, d) => d.fs * BLOCK_TOTAL_SIZE
  }

  /** Where it ends. */
  function End(r: Region): nat {
    match r
    case Raw(e) => e.offset + e.size
    case Part(_, d) => (d.fs + d.ns) * BLOCK_TOTAL_SIZE
  }

  // ---------- byte stores ----------

  lemma SubSlice(b: Bytes, o: nat, n: nat, from: nat, to: nat)
    requires o + n <= |b| && from <= to <= n
    ensures b[o + from..o + to] == b[o..o + n][from..to]
  {
    var row := b[o..o + n];
    forall i | 0 <= i < to - from
      ensures b[o + from..o + to][i] == row[from..to][i]
    {
      assert row[from + i] == b[o + from + i];
    }
  }

  /** Reads from a store, short at its end. */
  function ReadAt(file: Bytes, offset: nat, len: nat): (r: Bytes)
    ensures offset + len <= |file| ==> r == file[offset..offset + len]
  {
    if offset > |file| then [] else file[offset..Min(offset + len, |file|)]
  }

  /** Writes to a store, which grows as needed. */
  function WriteAt(file: Bytes, offset: nat, data: Bytes): (r: Bytes)
    ensures offset <= |file| && offset + |data| <= |file| ==> r == file[..offset] + data + file[offset + |data|..]
    ensures offset == |file| ==> r == file + data
  {
    var grown := if |file| < offset + |data| then file + Zeroes(offset + |data| - |file|) else file;
    grown[..offset] + data + grown[offset + |data|..]
  }

  // ---------- tiling ----------

  /** Writing inside a store puts the data there, and keeps what lies before. */
  lemma WrittenInside(file: Bytes, at: nat, data: Bytes, lo: nat, hi: nat)
    requires at + |data| <= |file| && lo <= hi <= at
    ensures |WriteAt(file, at, data)| == |file|
    ensures WriteAt(file, at, data)[at..at + |data|] == data && WriteAt(file, at, data)[lo..hi] == file[lo..hi]
  {
    assert WriteAt(file, at, data) == file[..at] + data + file[at + |data|..];
  }

  /** A write that is part of the image. */
  predicate IsPart(w: Write, iso: Bytes) {
    w.offset + |w.data| <= |iso| && w.data == iso[w.offset..w.offset + |w.data|]
  }

  ghost predicate AllParts(ws: seq<Write>, iso: Bytes) {
    forall w | w in ws :: IsPart(w, iso)
  }

  /** The writes follow each other without gap or overlap from `lo` to `hi`. */
  ghost predicate Consecutive(ws: seq<Write>, lo: nat, hi: nat)
    decreases |ws|
  {
    if ws == [] then lo == hi
    else ws[0].offset == lo && ws[0].data != [] && Consecutive(ws[1..], lo + |ws[0].data|, hi)
  }

  /** The writes are consecutive stretches of an image from `lo` to `hi`. */
  ghost predicate Tiles(ws: seq<Write>, iso: Bytes, lo: nat, hi: nat) {
    Consecutive(ws, lo, hi) && AllParts(ws, iso)
  }

  lemma {:induction false} ConsecutiveJoin(a: seq<Write>, b: seq<Write>, lo: nat, mid: nat, hi: nat)
    requires Consecutive(a, lo, mid) && Consecutive(b, mid, hi)
    ensures Consecutive(a + b, lo, hi)
    decreases |a|
  {
    if a == [] {
      assert a + b == b;
    } else {
      assert (a + b)[1..] == a[1..] + b;
      ConsecutiveJoin(a[1..], b, lo + |a[0].data|, mid, hi);
    }
  }

  lemma TilesJoin(a: seq<Write>, b: seq<Write>, iso: Bytes, lo: nat, mid: nat, hi: nat)
    requires Tiles(a, iso, lo, mid) && Tiles(b, iso, mid, hi)
    ensures Tiles(a + b, iso, lo, hi)
  {
    hide Consecutive, IsPart;
    ConsecutiveJoin(a, b, lo, mid, hi);
  }

  lemma TilesOne(w: Write, iso: Bytes)
    requires w.data != [] && IsPart(w, iso)
    ensures Tiles([w], iso, w.offset, w.offset + |w.data|)
  {
    hide IsPart;
    var rest := [w][1..];
    assert rest == [] && Consecutive(rest, w.offset + |w.data|, w.offset + |w.data|);
  }

  predicate Touches(w: Write, x: nat) {
    w.offset <= x < w.offset + |w.data|
  }

  predicate Reached(ws: seq<Write>, x: nat) {
    exists w | w in ws :: Touches(w, x)
  }

  /** Consecutive writes are not empty and lie between their ends. */
  lemma {:induction false} ConsecutiveInside(ws: seq<Write>, lo: nat, hi: nat)
    requires Consecutive(ws, lo, hi)
    ensures lo <= hi && forall w | w in ws :: lo <= w.offset < w.offset + |w.data| <= hi
    decreases |ws|
  {
    if ws != [] {
      ConsecutiveInside(ws[1..], lo + |ws[0].data|, hi);
      assert forall w | w in ws :: w == ws[0] || w in ws[1..];
    }
  }

  /** They reach every byte between their ends, and nothing else. */
  lemma {:induction false} ConsecutiveReaches(ws: seq<Write>, lo: nat, hi: nat, x: nat)
    requires Consecutive(ws, lo, hi)
    ensures Reached(ws, x) <==> lo <= x < hi
    decreases |ws|
  {
    ConsecutiveInside(ws, lo, hi);
    if ws != [] && lo <= x < hi {
      if x < lo + |ws[0].data| {
        assert Touches(ws[0], x);
      } else {
        ConsecutiveReaches(ws[1..], lo + |ws[0].data|, hi, x);
        var w :| w in ws[1..] && Touches(w, x);
        assert w in ws;
      }
    }
  }

  /** Two images are the same between `lo` and `hi`. */
  predicate Same(a: Bytes, b: Bytes, lo: nat, hi: nat) {
    |a| == |b| && forall x: nat | lo <= x < hi && x < |a| :: a[x] == b[x]
  }

  /** Writes that tile one image are parts of another exactly when the two are the same there. */
  lemma TilesOther(ws: seq<Write>, image: Bytes, iso: Bytes, lo: nat, hi: nat)
    requires Tiles(ws, image, lo, hi) && |image| == |iso|
    ensures AllParts(ws, iso) <==> Same(image, iso, lo, hi)
  {
    ConsecutiveInside(ws, lo, hi);
    if AllParts(ws, iso) {
      forall x: nat | lo <= x < hi && x < |image|
        ensures image[x] == iso[x]
      {
        ConsecutiveReaches(ws, lo, hi, x);
        var w :| w in ws && Touches(w, x);
        PartsAgree(w, image, iso, x);
      }
    }
    if Same(image, iso, lo, hi) {
      forall w | w in ws
        ensures IsPart(w, iso)
      {
        PartOfSame(w, image, iso, lo, hi);
      }
    }
  }

  lemma PartsAgree(w: Write, a: Bytes, b: Bytes, x: nat)
    requires IsPart(w, a) && IsPart(w, b) && Touches(w, x)
    ensures a[x] == b[x]
  {
    assert w.data[x - w.offset] == a[x] && w.data[x - w.offset] == b[x];
  }

  lemma PartOfSame(w: Write, a: Bytes, b: Bytes, lo: nat, hi: nat)
    requires IsPart(w, a) && Same(a, b, lo, hi) && lo <= w.offset && w.offset + |w.data| <= hi
    ensures IsPart(w, b)
  {
    forall i | 0 <= i < |w.data|
      ensures w.data[i] == b[w.offset + i]
    {
      assert w.data[i] == a[w.offset + i];
    }
  }
}
