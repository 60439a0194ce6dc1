/** The chunk that does not come back, taken as a disc of its own. */
module GapDisc {
  import opened Results
  import opened Format
  import opened PhaseGap
  import opened PackExactly
  import opened Decoding
  import opened Planning
  import opened EndToEnd
  import opened SmallDisc

  lemma GapIsSmall()
    ensures Small(GapChunk())
  {
    hide GapSeed;
    GapShape();
    var iso, h := GapChunk(), DiscHeader(GapChunk());
    assert iso[0x18] == 0 && iso[0x19] == 0 && iso[0x1a] == 0 && iso[0x1b] == 0;
    hide GapChunk;
    assert h[0x18] == 0 && h[0x19] == 0 && h[0x1a] == 0 && h[0x1b] == 0;
  }

  /** A disc is encoded and covered, and decoding succeeds, but what it leaves is not the disc. */
  ghost predicate DecodesToOther(c: Codec, iso: Bytes) {
    && PlanFor(c, iso).Ok? && Encodable(c, 0, iso) && Coverable(c, iso) && !Recoverable(c, iso)
    && var run := Decoded(c, EncodedFile(c, 0, iso)); run.failure == None && Image(run.writes) != iso
  }

  /** So it is with every disc of one chunk that has a recorded stretch that does not fit. */
  lemma SmallDecodesToOther(iso: Bytes)
    requires Small(iso) && !RecordsFit(iso, 0)
    ensures DecodesToOther(Trivial(), iso)
  {
    hide Encodable, Coverable, Recoverable, RecordsFit, Small, Decoded, EncodedFile, Image, Considered, IsWii;
    hide Consecutive, PlanFor;
    SmallEncodes(iso);
    SmallRecovers(Trivial(), iso);
    SmallPlan(Trivial(), iso);
    StrictTiling(Trivial(), 0, iso);
  }

  lemma GapIsNotRecovered()
    ensures DecodesToOther(Trivial(), GapChunk())
  {
    hide GapChunk, DecodesToOther, RecordsFit, Small;
    GapIsSmall();
    GapMisfits();
    SmallDecodesToOther(GapChunk());
  }
}
