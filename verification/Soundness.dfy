/** What detection finds is there: the words it looked at are a stream's, and only then is a seed found. */
module Soundness {
  import opened Words
  import opened Recurrence
  import opened PaddingStream
  import opened Generator
  import opened Detection

  /** All words of a buffer show the bit pair that output words have. */
  ghost predicate AllDoubled(b: Period) {
    forall k | 0 <= k < K :: Doubled(Swap32(b[k]))
  }

  // ---------- one word at a time ----------

  lemma DropUndrop(y: Word)
    requires Doubled(y)
    ensures Drop(Undrop(y)) == y
  {}

  lemma DropKept(w: Word)
    ensures Drop(Kept(w)) == Drop(w)
  {}

  lemma DropRefill(w: Word, hi: Word, lo: Word)
    ensures Drop(Refill(w, hi, lo)) == Drop(w)
  {}

  lemma SwapDoubledXor(a: Word, b: Word)
    requires Doubled(Swap32(a)) && Doubled(Swap32(b))
    ensures Doubled(Swap32(Xor(a, b)))
  {
    SwapXor(a, b);
    hide Swap32, Doubled, Xor;
    DoubledXor(Swap32(a), Swap32(b));
  }

  // ---------- going back ----------

  lemma RewindDoubled(b: Period, m: nat)
    requires AllDoubled(b)
    ensures AllDoubled(Rewind(b, m))
  {
    hide Swap32, Doubled, Xor;
    forall k | 0 <= k < K
      ensures Doubled(Swap32(Rewind(b, m)[k]))
    {
      AboveDoubled(b, m, k);
      if k < J && k < m {
        AboveDoubled(b, m, k + K - J);
        SwapDoubledXor(b[k], RewoundAbove(b, m, k + K - J));
      }
    }
  }

  lemma AboveDoubled(b: Period, m: nat, k: nat)
    requires AllDoubled(b) && k < K
    ensures Doubled(Swap32(RewoundAbove(b, m, k)))
  {
    hide Swap32, Doubled, Xor;
    if J <= k < m {
      SwapDoubledXor(b[k], b[k - J]);
    }
  }

  lemma {:induction false} BackDoubled(b: Period, n: nat)
    requires AllDoubled(b)
    ensures AllDoubled(Back(b, n))
    decreases n
  {
    hide AllDoubled;
    if n > 0 {
      RewindDoubled(b, K);
      BackDoubled(Rewind(b, K), n - 1);
    }
  }

  /** The period that going back leads to comes forward to the buffer again. */
  lemma {:induction false} WindowBack(b: Period, n: nat)
    ensures Window(Back(b, n), n * K) == b
    decreases n
  {
    if n == 0 {
      assert Window(b, 0) == b;
    } else {
      var s, earlier := Back(b, n), Rewind(b, K);
      WindowBack(earlier, n - 1);
      WindowWindow(s, (n - 1) * K, K);
      assert (n - 1) * K + K == n * K;
      MixedEnds(earlier);
      MixedRewind(b, K);
    }
  }

  /** The located period, read on to where the words stood, shows those words. */
  lemma LocatedShows(u: Period, offset: nat, i: nat)
    requires i < K
    ensures At(Located(u, offset), 4 * K + offset + i) == Swap32(u[i])
  {
    var m, div := offset % K, offset / K;
    var t := Rewind(Placed(u, m), m);
    var s := Located(u, offset);
    assert offset == div * K + m;
    WindowBack(t, div + 4);
    assert (div + 4) * K == 4 * K + div * K;
    MixedRewind(Placed(u, m), m);
    WindowAt(s, (div + 4) * K, m + i);
    var k := if m + i < K then m + i else m + i - K;
    assert Mixed(t, m)[k] == Placed(u, m)[k];
    assert At(t, m + i) == Mixed(t, m)[k];
  }

  lemma PlacedDoubled(u: Period, m: nat)
    requires m < K && forall i | 0 <= i < K :: Doubled(u[i])
    ensures AllDoubled(Placed(u, m))
  {
    hide Swap32, Doubled;
    forall k | 0 <= k < K
      ensures Doubled(Swap32(Placed(u, m)[k]))
    {
      SwapInvolution(u[if k < m then K - m + k else k - m]);
    }
  }

  // ---------- the seed stands for the words ----------

  lemma RawFirst(seed: Seed, i: nat)
    requires i < SEED_WORDS
    ensures Raw(seed, i) == seed[i]
  {}

  lemma RecoveredWordStands(s: Period, i: nat)
    requires AllDoubled(s) && Consistent(s) && i < K
    ensures Drop(Raw(Recovered(s), i)) == Swap32(s[i])
  {
    hide Swap32, Doubled, Drop, Undrop, Kept, Refill, Raw;
    var y := Swap32(s[i]);
    assert Doubled(y);
    DropUndrop(y);
    if i < SEED_WORDS {
      RawFirst(Recovered(s), i);
      DropRefill(Undrop(y), Swap32(s[i + 16]), Swap32(s[i + 15]));
    } else {
      DropKept(Raw(Recovered(s), i));
    }
  }

  /** A period that passes both checks is the first period of the seed recovered from it. */
  lemma RecoveredStands(s: Period)
    requires AllDoubled(s) && Consistent(s)
    ensures Origin(Recovered(s)) == s
  {
    hide Swap32, Drop, Raw, Recovered, AllDoubled, Consistent;
    forall i: nat | i < K
      ensures Origin(Recovered(s))[i] == s[i]
    {
      RecoveredWordStands(s, i);
      SwapInvolution(s[i]);
    }
  }

  /** What is found stands for exactly the words that detection looked at. */
  lemma FoundShows(u: seq<Word>, offset: nat, i: nat)
    requires SeedOf(u, offset).Found? && i < K <= |u|
    ensures u[i] == Swap32(At(Origin(Swapped(SeedOf(u, offset).seed)), 4 * K + offset + i))
  {
    hide Swap32, Doubled, Recovered, At, Consistent, Origin, Swapped;
    var s := Located(u[..K], offset);
    PlacedDoubled(u[..K], offset % K);
    RewindDoubled(Placed(u[..K], offset % K), offset % K);
    BackDoubled(Rewind(Placed(u[..K], offset % K), offset % K), offset / K + 4);
    RecoveredStands(s);
    SwappedTwice(Recovered(s));
    LocatedShows(u[..K], offset, i);
    SwapInvolution(u[i]);
  }

  /** The words of data that starts at byte `d` of a window are those of a seed's stream. */
  ghost predicate Shows(data: seq<Byte>, d: nat, seed: Seed) {
    Skip(d) + 4 * K <= |data| &&
    forall i | 0 <= i < K :: WordsFrom(data, Skip(d))[i] == Swap32(At(Origin(seed), 4 * K + (d + Skip(d)) / 4 + i))
  }

  /** Detection finds a seed exactly when the first 521 whole words are some seed's stream. */
  lemma DetectExactly(data: seq<Byte>, d: nat)
    ensures Detect(data, d).Found? <==> exists seed :: Shows(data, d, seed)
    ensures Detect(data, d).Found? ==> Shows(data, d, Swapped(Detect(data, d).seed))
  {
    hide Swap32, Doubled, Located, Recovered, At, FromBe, Consistent, Swapped, Origin, SeedOf;
    if Detect(data, d).Found? {
      DetectLong(data, d);
      var u, offset := WordsFrom(data, Skip(d)), (d + Skip(d)) / 4;
      forall i | 0 <= i < K
        ensures u[i] == Swap32(At(Origin(Swapped(Detect(data, d).seed)), 4 * K + offset + i))
      {
        FoundShows(u, offset, i);
      }
      assert Shows(data, d, Swapped(Detect(data, d).seed));
    }
    if exists seed :: Shows(data, d, seed) {
      var seed :| Shows(data, d, seed);
      ShownFound(data, d, seed);
    }
  }

  lemma DetectLong(data: seq<Byte>, d: nat)
    requires Detect(data, d).Found?
    ensures Skip(d) + 4 * K <= |data|
  {
    hide Located, Recovered, FromBe, Consistent, Swapped;
  }

  lemma ShownFound(data: seq<Byte>, d: nat, seed: Seed)
    requires Shows(data, d, seed)
    ensures Detect(data, d) == Found(Swapped(Canonical(seed)))
  {
    hide Swap32, Doubled, Located, Recovered, Canonical, At, FromBe, Consistent, Swapped, Origin;
    var s, u := Origin(seed), WordsFrom(data, Skip(d));
    var offset := (d + Skip(d)) / 4;
    forall i | 0 <= i < K
      ensures Doubled(u[i])
    {
      StreamDoubled(seed, 4 * K + offset + i);
    }
    LocatedStream(s, offset, u[..K]);
    RecoveredOrigin(seed);
  }
}
