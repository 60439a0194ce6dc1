/** Lawful primitives under which a table of a container does not read back. */
module TableGap {
  import opened Results
  import opened Sizes
  import opened Format
  import opened Tables
  import opened Container

  predicate AllZero(x: Bytes) {
    forall i | 0 <= i < |x| :: x[i] == 0
  }

  /** Zeroes grow by one; everything else keeps its length, its first byte moving to the end. */
  function Rotated(x: Bytes): Bytes {
    if AllZero(x) then x + [0] else x[1..] + [x[0]]
  }

  function RotatedBack(y: Bytes): Result<Bytes> {
    if y == [] then Err(Zstd)
    else if AllZero(y) then Ok(y[..|y| - 1])
    else Ok([y[|y| - 1]] + y[..|y| - 1])
  }

  lemma RotatesBack(x: Bytes)
    ensures Rotated(x) != [] && RotatedBack(Rotated(x)) == Ok(x)
  {
    var y := Rotated(x);
    if AllZero(x) {
      assert AllZero(y) && y[..|y| - 1] == x;
    } else {
      var i :| 0 <= i < |x| && x[i] != 0;
      assert y[if i == 0 then |x| - 1 else i - 1] != 0;
      assert [y[|y| - 1]] + y[..|y| - 1] == x;
    }
  }

  /** All but the compression is trivial. */
  function Rotating(): Primitives {
    Trivial().(compress := x => Rotated(x), decompress := y => RotatedBack(y))
  }

  lemma RotatingLawful()
    ensures Lawful(Rotating())
  {
    hide Rotated, RotatedBack;
    forall x: Bytes
      ensures Rotating().compress(x) != [] && Rotating().decompress(Rotating().compress(x)) == Ok(x)
    {
      RotatesBack(x);
    }
  }

  /** The raw table of a disc of two headers' length. */
  function OneRegion(): (table: Bytes)
    ensures |table| == RAW_ENTRY_SIZE
  {
    var rows := RawRows([RawEntry(0x80, 0x80, 0, 1)]);
    ConcatSize(rows, RAW_ENTRY_SIZE);
    Concat(rows)
  }

  lemma OneRegionEnds()
    ensures OneRegion()[0] == 0 && OneRegion()[RAW_ENTRY_SIZE - 1] == 1
  {
    var e := RawEntry(0x80, 0x80, 0, 1);
    assert OneRegion() == Concat([]) + RawBytes(e);
  }

  /** Compressed, this table has the length it has uncompressed, and is taken for what it is not. */
  lemma TableMisread()
    ensures Lawful(Rotating())
    ensures var c: Codec := Rotating();
            && !Distinct(c, OneRegion())
            && TableBytes(c, c.compress(OneRegion()), |OneRegion()|) != Ok(OneRegion())
  {
    RotatingLawful();
    OneRegionEnds();
    hide OneRegion, Lawful;
    var table := OneRegion();
    assert !AllZero(table);
    assert Rotated(table)[RAW_ENTRY_SIZE - 1] == 0;
  }
}
