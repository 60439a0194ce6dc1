/** Encoding a disc and decoding the container again, by reading and by feeding. */
module Recovery {
  import opened Results
  import opened Format
  import opened Tables
  import opened Decoding
  import opened Decoder
  import opened Push
  import opened Planning
  import opened EndToEnd
  import opened Assembly

  /**
   Encodes a disc, decodes the container, and puts what is decoded together: for an encodable disc
   that is coverable and recoverable this is the disc. When all partitions start at a block, it is
   the disc only then. The size told on the way is right in any case.
   */
  method EncodeThenDecode(c: Codec, level: int, iso: Bytes) returns (size: Result<nat>, image: Bytes)
    requires Encodable(c, level, iso)
    ensures size == Ok(|iso|)
    ensures Coverable(c, iso) && Recoverable(c, iso) ==> image == iso
    ensures Coverable(c, iso) && AllAligned(Considered(iso, IsWii(iso))) ==> (image == iso <==> Recoverable(c, iso))
  {
    hide EncodedFile, Decoded, ContentsOf, Image, Coverable, PlanFor;
    hide AllParts, Reached, Recoverable, AllAligned, Considered;
    hide Consecutive;
    EncodablePlan(c, level, iso);
    SizeTold(c, level, iso);
    RoundTrip(c, level, iso);
    if Coverable(c, iso) && AllAligned(Considered(iso, IsWii(iso))) {
      StrictTiling(c, level, iso);
    }
    hide Encodable, IsWii;
    ghost var trace;
    var told, file;
    told, file, trace := EncodeIsoToRvz(c, level, iso);
    var sink := new Sink();
    size := DecompressRvz(c, file, sink);
    assert sink.log == Decoded(c, file).writes;
    image := Assemble(sink.log);
  }

  /** Writes the stretches in the order they came. */
  method Assemble(ws: seq<Write>) returns (image: Bytes)
    ensures image == Image(ws)
  {
    hide WriteAt;
    image := [];
    for i := 0 to |ws|
      invariant image == Image(ws[..i])
    {
      assert ws[..i + 1][..i] == ws[..i];
      image := WriteAt(image, ws[i].offset, ws[i].data);
    }
    assert ws[..|ws|] == ws;
  }

  /** The same by feeding; blocks left to the caller are encrypted before they are put in place. */
  method EncodeThenFeed(c: Codec, level: int, iso: Bytes, delegateAes: bool) returns (image: Bytes)
    requires Encodable(c, level, iso) && Coverable(c, iso) && Recoverable(c, iso)
    ensures image == iso
  {
    hide EncodedFile, Decoded, ContentsOf, Image, Coverable, PlanFor;
    hide AllParts, Reached, AllFinished, PartFeeds, GroupFeeds;
    hide Recoverable;
    EncodablePlan(c, level, iso);
    RoundTrip(c, level, iso);
    hide Encodable;
    ghost var trace;
    var told, file;
    told, file, trace := EncodeIsoToRvz(c, level, iso);
    var outputs, feeds := Drive(c, file, delegateAes);
    image := Assemble(AllFinished(c, outputs));
  }
}
