/** What seed detection finds: completeness on padding, and exactly when the whole window is matched. */
module Detection {
  import opened Words
  import opened Recurrence
  import opened PaddingStream
  import opened Generator

  /** Word `i` after alignment, read big-endian from a stretch of padding, is a stream word reversed. */
  lemma PaddingWord(seed: Seed, d: nat, n: nat, i: nat)
    requires Skip(d) <= n && i < (n - Skip(d)) / 4
    ensures WordsFrom(PadBytes(seed, d, n), Skip(d))[i] == Swap32(At(Origin(seed), 4 * K + (d + Skip(d)) / 4 + i))
  {
    hide FromBe, Lane, Swap32, At, Origin;
    var s, data := Origin(seed), PadBytes(seed, d, n);
    var m := 4 * K + (d + Skip(d)) / 4 + i;
    var o := 4 * i + Skip(d);
    assert 4 * PERIOD_BYTES + d + o == 4 * m;
    forall k | 0 <= k < 4
      ensures data[o + k] == Lane(At(s, m), k)
    {
      assert data[o + k] == ByteAt(s, 4 * m + k);
      assert (4 * m + k) / 4 == m && (4 * m + k) % 4 == k;
    }
    LanesReadBigEndian(At(s, m));
  }

  /** A window of the stream, laid into the buffer wherever it starts, rewinds to the first period. */
  lemma LocatedStream(s: Period, offset: nat, u: Period)
    requires forall i | 0 <= i < K :: u[i] == Swap32(At(s, 4 * K + offset + i))
    ensures Located(u, offset) == s
  {
    var m, div := offset % K, offset / K;
    var t := Window(s, (4 + div) * K);
    assert offset == div * K + m;
    assert (4 + div) * K == 4 * K + div * K;
    forall k | 0 <= k < K
      ensures Placed(u, m)[k] == Mixed(t, m)[k]
    {
      WindowAt(s, (4 + div) * K, K + k);
      var i := if k < m then K - m + k else k - m;
      SwapInvolution(At(s, 4 * K + offset + i));
    }
    assert Placed(u, m) == Mixed(t, m);
    RewindMixed(t, m);
    BackWindow(s, 4 + div);
  }

  /**
   Completeness: shown padding that holds 521 whole words, at any offset, detection finds the
   seed, up to the two bits of its first word that no output depends on.
   */
  lemma DetectPadding(seed: Seed, d: nat, n: nat)
    requires n >= Skip(d) + 4 * K
    ensures Detect(PadBytes(seed, d, n), d) == Found(Swapped(Canonical(seed)))
    ensures Origin(Canonical(seed)) == Origin(seed)
  {
    hide Swap32, Doubled, Located, Recovered, Canonical, At, FromBe, Consistent, PadBytes, Swapped, Origin;
    var s, u := Origin(seed), WordsFrom(PadBytes(seed, d, n), Skip(d));
    var offset := (d + Skip(d)) / 4;
    forall i | 0 <= i < K
      ensures u[i] == Swap32(At(s, 4 * K + offset + i)) && Doubled(u[i])
    {
      PaddingWord(seed, d, n, i);
      StreamDoubled(seed, 4 * K + offset + i);
    }
    LocatedStream(s, offset, u[..K]);
    RecoveredOrigin(seed);
    CanonicalOrigin(seed);
  }

  /** Seeds whose padding agrees on one window agree in every bit that matters. */
  lemma PaddingDeterminesSeed(a: Seed, b: Seed, d: nat, n: nat)
    requires n >= Skip(d) + 4 * K
    ensures PadBytes(a, d, n) == PadBytes(b, d, n) <==> Canonical(a) == Canonical(b)
  {
    DetectPadding(a, d, n);
    DetectPadding(b, d, n);
    SwappedTwice(Canonical(a));
    SwappedTwice(Canonical(b));
  }

  /** Detection compares from the position the data stands at, except in the last three bytes of a period. */
  lemma PhaseExact(d: nat)
    ensures d % PERIOD_BYTES <= 2080 ==> Phase(d) == d
    ensures d % PERIOD_BYTES > 2080 ==> Phase(d) == d + PERIOD_BYTES
  {
    var q, r := d / PERIOD_BYTES, d % PERIOD_BYTES;
    assert d == 2084 * q + r;
    assert d + Skip(d) == (d + 3) / 4 * 4 == 4 * (521 * q + (r + 3) / 4);
    if r <= 2080 {
      DivideSum(q, (r + 3) / 4);
    } else {
      assert (r + 3) / 4 == K;
      DivideSum(q + 1, 0);
    }
  }

  lemma DivideSum(q: nat, r: nat)
    requires r < K
    ensures (q * K + r) / K == q
  {}

  /**
   The whole of a window of padding is matched exactly when it does not start in the last three
   bytes of a period, or is nothing but zeroes.
   */
  lemma WholeWindowMatched(seed: Seed, d: nat, n: nat)
    requires n >= Skip(d) + 4 * K
    ensures var data := PadBytes(seed, d, n);
            MatchLength(data, Canonical(seed), Phase(d)) == n
            <==> d % PERIOD_BYTES <= 2080 || forall i | 0 <= i < n :: data[i] == 0
  {
    var data := PadBytes(seed, d, n);
    CanonicalOrigin(seed);
    PhaseExact(d);
    var m := MatchLength(data, Canonical(seed), Phase(d));
    if d % PERIOD_BYTES > 2080 {
      if m == n {
        forall i | 0 <= i < n
          ensures data[i] == PadBytes(seed, d + PERIOD_BYTES, n)[i]
        {
          assert data[i] == PadByte(Canonical(seed), Phase(d) + i);
        }
        RepeatingIsZero(seed, d, n);
      }
      if forall i | 0 <= i < n :: data[i] == 0 {
        ZeroWindowIsZero(seed, d, n);
      }
    }
  }

  /** A stream whose window repeats one period on is zero everywhere. */
  lemma RepeatingIsZero(seed: Seed, d: nat, n: nat)
    requires n >= Skip(d) + 4 * K
    requires PadBytes(seed, d, n) == PadBytes(seed, d + PERIOD_BYTES, n)
    ensures forall i | 0 <= i < n :: PadBytes(seed, d, n)[i] == 0
  {
    var s := Origin(seed);
    var first := 4 * K + (d + Skip(d)) / 4;
    forall z | first + K - J <= z < first + K - J + K
      ensures At(s, z) == 0
    {
      var m := z - (K - J);
      EqualBytesEqualWords(seed, d, n, m - first);
      assert At(s, m + K) == Xor(At(s, m), At(s, m + K - J));
      XorCancel(At(s, m + K - J), At(s, m));
      XorZero(At(s, m), At(s, m + K - J));
    }
    ZeroEverywhere(s, first + K - J);
    forall i | 0 <= i < n
      ensures PadBytes(seed, d, n)[i] == 0
    {
      ZeroByte(s, 4 * PERIOD_BYTES + d + i);
    }
  }

  lemma XorZero(a: Word, b: Word)
    requires Xor(a, b) == a
    ensures b == 0
  {}

  lemma WordByte(s: Period, m: nat, k: nat)
    requires k < 4
    ensures ByteAt(s, 4 * m + k) == Lane(At(s, m), k)
  {
    hide Lane, At;
    assert (4 * m + k) / 4 == m && (4 * m + k) % 4 == k;
  }

  lemma EqualBytesEqualWords(seed: Seed, d: nat, n: nat, i: nat)
    requires n >= Skip(d) + 4 * K && i < K
    requires PadBytes(seed, d, n) == PadBytes(seed, d + PERIOD_BYTES, n)
    ensures var m := 4 * K + (d + Skip(d)) / 4 + i;
            At(Origin(seed), m + K) == At(Origin(seed), m)
  {
    var s := Origin(seed);
    var m := 4 * K + (d + Skip(d)) / 4 + i;
    var o := 4 * i + Skip(d);
    assert 4 * PERIOD_BYTES + d + o == 4 * m;
    forall k | 0 <= k < 4
      ensures Lane(At(s, m), k) == Lane(At(s, m + K), k)
    {
      assert PadBytes(seed, d, n)[o + k] == PadBytes(seed, d + PERIOD_BYTES, n)[o + k];
      assert PadBytes(seed, d, n)[o + k] == ByteAt(s, 4 * m + k);
      assert PadBytes(seed, d + PERIOD_BYTES, n)[o + k] == ByteAt(s, 4 * (m + K) + k);
      WordByte(s, m, k);
      WordByte(s, m + K, k);
    }
    LanesDetermine(At(s, m), At(s, m + K));
  }

  /** Padding that shows only zeroes comes from a stream that is zero everywhere. */
  lemma ZeroWindowIsZero(seed: Seed, d: nat, n: nat)
    requires n >= Skip(d) + 4 * K
    requires forall i | 0 <= i < n :: PadBytes(seed, d, n)[i] == 0
    ensures forall k: nat :: At(Origin(seed), k) == 0
  {
    var s := Origin(seed);
    var first := 4 * K + (d + Skip(d)) / 4;
    forall m | first <= m < first + K
      ensures At(s, m) == 0
    {
      var o := 4 * (m - first) + Skip(d);
      assert 4 * PERIOD_BYTES + d + o == 4 * m;
      forall k | 0 <= k < 4
        ensures Lane(At(s, m), k) == Lane(0, k)
      {
        assert PadBytes(seed, d, n)[o + k] == 0 && PadBytes(seed, d, n)[o + k] == ByteAt(s, 4 * m + k);
        WordByte(s, m, k);
      }
      LanesDetermine(At(s, m), 0);
    }
    ZeroEverywhere(s, first);
  }

  lemma ZeroByte(s: Period, n: nat)
    requires forall k: nat :: At(s, k) == 0
    ensures ByteAt(s, n) == 0
  {
    assert At(s, n / 4) == 0;
  }

  /** A period of zeroes can only come from, and only leads to, zeroes. */
  lemma ZeroEverywhere(s: Period, base: nat)
    requires forall m | base <= m < base + K :: At(s, m) == 0
    ensures forall k: nat :: At(s, k) == 0
  {
    forall k: nat
      ensures At(s, k) == 0
    {
      if k >= base {
        ZeroAfter(s, base, k);
      } else {
        ZeroBefore(s, base, k);
      }
    }
  }

  lemma {:induction false} ZeroAfter(s: Period, base: nat, k: nat)
    requires forall m | base <= m < base + K :: At(s, m) == 0
    requires base <= k
    ensures At(s, k) == 0
    decreases k
  {
    if k >= base + K {
      ZeroAfter(s, base, k - K);
      ZeroAfter(s, base, k - J);
      XorCancel(At(s, k - K), At(s, k - J));
    }
  }

  lemma {:induction false} ZeroBefore(s: Period, base: nat, k: nat)
    requires forall m | base <= m < base + K :: At(s, m) == 0
    requires k <= base
    ensures At(s, k) == 0
    decreases base - k
  {
    if k < base {
      if k + K - J <= base {
        ZeroBefore(s, base, k + K - J);
      } else {
        ZeroAfter(s, base, k + K - J);
      }
      if k + K <= base {
        ZeroBefore(s, base, k + K);
      } else {
        ZeroAfter(s, base, k + K);
      }
      assert At(s, k + K) == Xor(At(s, k), At(s, k + K - J));
      XorCancel(At(s, k), 0);
    }
  }
}
