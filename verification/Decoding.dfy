/** What decoding a container writes. */
module Decoding {
  import opened Results
  import opened Format
  import opened Regions
  import opened Tables
  import Sorting

  /** A container's regions in the order they are decoded. */
  function RegionsOf(t: Contents): seq<Region> {
    Sorting.Sorted(Start, PartRegions(t.parts) + RawRegions(t.raws))
  }

  ghost function DecodedContents(c: Codec, file: Bytes, t: Contents): Run {
    RegionsRun(c, t.header.chunkSize, FetchAll(file, t.groups), RegionsOf(t), true)
  }

  /** All that decoding a file writes, up to the failure that ends it if there is one. */
  ghost function Decoded(c: Codec, file: Bytes): Run {
    match ContentsOf(c, file)
    case Err(error) => Run([], Some(error))
    case Ok(t) => DecodedContents(c, file, t)
  }

  /** The image that writes leave on an empty medium. */
  function Image(ws: seq<Write>): Bytes {
    if ws == [] then [] else WriteAt(Image(ws[..|ws| - 1]), ws[|ws| - 1].offset, ws[|ws| - 1].data)
  }

  /** An image under construction: right wherever it was written, zero elsewhere. */
  ghost predicate Growing(image: Bytes, ws: seq<Write>, iso: Bytes) {
    |image| <= |iso| && forall x | 0 <= x < |iso| && Reached(ws, x) :: x < |image| && image[x] == iso[x]
  }

  lemma WriteRight(image: Bytes, w: Write, iso: Bytes, x: nat)
    requires |image| <= |iso| && IsPart(w, iso) && x < |iso|
    ensures var next := WriteAt(image, w.offset, w.data);
            && |next| <= |iso| && |image| <= |next|
            && (Touches(w, x) ==> x < |next| && next[x] == iso[x])
            && (x < |image| && !Touches(w, x) ==> next[x] == image[x])
  {
    if Touches(w, x) {
      assert w.data[x - w.offset] == iso[x];
    }
  }

  lemma {:induction false} ImageRight(ws: seq<Write>, iso: Bytes)
    requires AllParts(ws, iso)
    ensures Growing(Image(ws), ws, iso)
  {
    hide WriteAt, IsPart, Touches;
    if ws != [] {
      var n := |ws| - 1;
      var w := ws[n];
      ImageRight(ws[..n], iso);
      assert w in ws;
      var before, after := Image(ws[..n]), Image(ws);
      SizeKept(before, w, iso);
      forall x: nat | x < |iso| && Reached(ws, x)
        ensures x < |after| && after[x] == iso[x]
      {
        WriteRight(before, w, iso, x);
        if !Touches(w, x) {
          var v :| v in ws && Touches(v, x);
          assert v in ws[..n];
        }
      }
    }
  }

  lemma SizeKept(image: Bytes, w: Write, iso: Bytes)
    requires |image| <= |iso| && IsPart(w, iso)
    ensures |WriteAt(image, w.offset, w.data)| <= |iso|
  {}

  /** Writes that are parts of the image and reach all of it leave the image. */
  lemma ImageComplete(ws: seq<Write>, iso: Bytes)
    requires AllParts(ws, iso) && forall x: nat | x < |iso| :: Reached(ws, x)
    ensures Image(ws) == iso
  {
    hide Image, IsPart, Reached;
    ImageRight(ws, iso);
    if |iso| > 0 {
      assert Reached(ws, |iso| - 1);
    }
  }

  lemma {:induction false} ConsecutiveLast(ws: seq<Write>, lo: nat, hi: nat)
    requires Consecutive(ws, lo, hi) && ws != []
    ensures var n := |ws| - 1;
            Consecutive(ws[..n], lo, ws[n].offset) && hi == ws[n].offset + |ws[n].data|
    decreases |ws|
  {
    var n := |ws| - 1;
    if n > 0 {
      ConsecutiveLast(ws[1..], lo + |ws[0].data|, hi);
      assert ws[1..][..n - 1] == ws[..n][1..];
    }
  }

  /** Consecutive writes are all part of the image they leave. */
  lemma {:induction false} ConsecutiveImage(ws: seq<Write>, hi: nat)
    requires Consecutive(ws, 0, hi)
    ensures |Image(ws)| == hi && AllParts(ws, Image(ws))
    decreases |ws|
  {
    hide WriteAt, Consecutive;
    if ws == [] {
      NothingConsecutive(0, hi);
    } else {
      var n := |ws| - 1;
      ConsecutiveLast(ws, 0, hi);
      ConsecutiveImage(ws[..n], ws[n].offset);
      var before := Image(ws[..n]);
      assert Image(ws) == before + ws[n].data;
      forall w | w in ws
        ensures IsPart(w, Image(ws))
      {
        if w != ws[n] {
          assert w in ws[..n];
          assert IsPart(w, before);
        }
      }
    }
  }

  lemma NothingConsecutive(lo: nat, hi: nat)
    requires Consecutive([], lo, hi)
    ensures lo == hi
  {}

  /** Writes that follow each other through the whole disc leave it exactly when each is part of it. */
  lemma ImageExactly(ws: seq<Write>, iso: Bytes)
    requires Consecutive(ws, 0, |iso|)
    ensures Image(ws) == iso <==> AllParts(ws, iso)
  {
    hide IsPart, Reached, Image;
    ConsecutiveImage(ws, |iso|);
    if AllParts(ws, iso) {
      forall x: nat | x < |iso|
        ensures Reached(ws, x)
      {
        ConsecutiveReaches(ws, 0, |iso|, x);
      }
      ImageComplete(ws, iso);
    }
  }
}
