/**
 The lagged Fibonacci recurrence x[n] = x[n - 521] ^ x[n - 32] and the three ways the
 generator's buffer moves along it.
 */
module Recurrence {
  import opened Words

  const K: nat := 521
  const J: nat := 32

  /** A period: the K consecutive words a generator's buffer holds. */
  type Period = s: seq<Word> | |s| == K witness seq(K, _ => 0)

  /** Word `n` of the sequence that begins with `s`. */
  ghost function At(s: Period, n: nat): Word
    decreases n
  {
    if n < K then s[n] else Xor(At(s, n - K), At(s, n - J))
  }

  /** The K words of the sequence from word `base` on. */
  ghost function Window(s: Period, base: nat): Period {
    seq(K, k requires 0 <= k < K => At(s, base + k))
  }

  /** A buffer part of the way from `s` to the following period: its first `m` words have moved on. */
  ghost function Mixed(s: Period, m: nat): Period {
    seq(K, k requires 0 <= k < K => if k < m then At(s, K + k) else s[k])
  }

  /** Word `k` rewound by the word 32 places below it. */
  ghost function RewoundAbove(b: Period, m: nat, k: nat): Word
    requires k < K
  {
    if J <= k < m then Xor(b[k], b[k - J]) else b[k]
  }

  /** Word `k` rewound; the lowest 32 words need an already rewound word from the top. */
  ghost function RewoundWord(b: Period, m: nat, k: nat): Word
    requires k < K
  {
    if k < J && k < m then Xor(b[k], RewoundAbove(b, m, k + K - J)) else RewoundAbove(b, m, k)
  }

  /** The period that `Mixed(_, m)` came from. */
  ghost function Rewind(b: Period, m: nat): Period {
    seq(K, k requires 0 <= k < K => RewoundWord(b, m, k))
  }

  /** The period `n` periods before `b`. */
  ghost function Back(b: Period, n: nat): Period
    decreases n
  {
    if n == 0 then b else Back(Rewind(b, K), n - 1)
  }

  /** A window's own continuation is the sequence's continuation. */
  lemma {:induction false} WindowAt(s: Period, base: nat, n: nat)
    ensures At(Window(s, base), n) == At(s, base + n)
    decreases n
  {
    if n >= K {
      WindowAt(s, base, n - K);
      WindowAt(s, base, n - J);
    }
  }

  lemma {:induction false} WindowWindow(s: Period, a: nat, b: nat)
    ensures Window(Window(s, a), b) == Window(s, a + b)
  {
    forall k | 0 <= k < K
      ensures Window(Window(s, a), b)[k] == Window(s, a + b)[k]
    {
      WindowAt(s, a, b + k);
    }
  }

  lemma MixedEnds(s: Period)
    ensures Mixed(s, 0) == s
    ensures Mixed(s, K) == Window(s, K)
  {}

  lemma MixedBeyond(s: Period, m: nat)
    requires m >= K
    ensures Mixed(s, m) == Mixed(s, K)
  {}

  /** Rewinding undoes a partial step, across the lag-32 wraparound. */
  lemma RewindMixed(s: Period, m: nat)
    ensures Rewind(Mixed(s, m), m) == s
  {
    forall k | 0 <= k < K
      ensures Rewind(Mixed(s, m), m)[k] == s[k]
    {
      RewoundMixedWord(s, m, k);
    }
  }

  lemma RewoundMixedWord(s: Period, m: nat, k: nat)
    requires k < K
    ensures RewoundWord(Mixed(s, m), m, k) == s[k]
  {
    if k < J && k < m {
      RewoundMixedAbove(s, m, k + K - J);
      assert At(s, K + k) == Xor(At(s, k), At(s, k + K - J));
      XorCancel(s[k], s[k + K - J]);
    } else {
      RewoundMixedAbove(s, m, k);
    }
  }

  lemma RewoundMixedAbove(s: Period, m: nat, k: nat)
    requires k < K && (J <= k || m <= k)
    ensures RewoundAbove(Mixed(s, m), m, k) == s[k]
  {
    if k < m {
      assert At(s, K + k) == Xor(At(s, k), At(s, K + k - J));
      XorCancel(s[k], At(s, K + k - J));
    }
  }

  /** Every buffer is a partial step away from exactly one period. */
  lemma MixedRewind(b: Period, m: nat)
    ensures Mixed(Rewind(b, m), m) == b
  {
    var s := Rewind(b, m);
    forall k | 0 <= k < K
      ensures Mixed(s, m)[k] == b[k]
    {
      if k < m {
        MixedRewindWord(b, m, k);
      }
    }
  }

  lemma MixedRewindWord(b: Period, m: nat, k: nat)
    requires k < K && k < m
    ensures At(Rewind(b, m), K + k) == b[k]
  {
    var s := Rewind(b, m);
    assert At(s, K + k) == Xor(s[k], At(s, K + k - J));
    if k < J {
      XorCancel(b[k], s[k + K - J]);
    } else {
      MixedRewindWord(b, m, k - J);
      XorCancel(b[k], b[k - J]);
    }
  }

  /** Going back over the periods a buffer has advanced. */
  lemma {:induction false} BackWindow(s: Period, n: nat)
    ensures Back(Window(s, n * K), n) == s
  {
    if n == 0 {
      assert Window(s, 0) == s;
    } else {
      var t := Window(s, (n - 1) * K);
      WindowWindow(s, (n - 1) * K, K);
      assert (n - 1) * K + K == n * K;
      MixedEnds(t);
      RewindMixed(t, K);
      BackWindow(s, n - 1);
    }
  }

  lemma {:induction false} BackBack(b: Period, m: nat, n: nat)
    ensures Back(Back(b, m), n) == Back(b, m + n)
    decreases m
  {
    if m != 0 {
      BackBack(Rewind(b, K), m - 1, n);
    }
  }
}
