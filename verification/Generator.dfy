/**
 The two generators: `Lfg` expands a recorded seed into padding, and
 `LaggedFibonacciGenerator` finds the seed of padding it is shown. Both keep 521 words in an
 array and advance it in place.
 */
module Generator {
  import opened Words
  import opened Recurrence
  import opened PaddingStream
  import opened Results

  /** Advances a period in place. */
  method ForwardInPlace(buffer: array<Word>)
    requires buffer.Length == K
    modifies buffer
    ensures buffer[..] == Window(old(buffer[..]), K)
  {
    ghost var s: Period := buffer[..];
    for i := 0 to J
      invariant forall k | 0 <= k < K :: buffer[k] == if k < i then At(s, K + k) else s[k]
    {
      assert At(s, K + i) == Xor(At(s, i), At(s, K + i - J));
      buffer[i] := Xor(buffer[i], buffer[i + K - J]);
    }
    for i := J to K
      invariant forall k | 0 <= k < K :: buffer[k] == if k < i then At(s, K + k) else s[k]
    {
      assert At(s, K + i) == Xor(At(s, i), At(s, K + i - J));
      buffer[i] := Xor(buffer[i], buffer[i - J]);
    }
    assert buffer[..] == Window(s, K);
  }

  /** The output transform, applied to every word in place. */
  method OutputInPlace(buffer: array<Word>)
    requires buffer.Length == K
    modifies buffer
    ensures forall k | 0 <= k < K :: buffer[k] == Swap32(Drop(old(buffer[k])))
  {
    for i := 0 to K
      invariant forall k | 0 <= k < K :: buffer[k] == if k < i then Swap32(Drop(old(buffer[k]))) else old(buffer[k])
    {
      buffer[i] := Swap32(Drop(buffer[i]));
    }
  }

  /** The periods the generator discards after seeding. */
  method ForwardFourPeriods(buffer: array<Word>)
    requires buffer.Length == K
    modifies buffer
    ensures buffer[..] == Window(old(buffer[..]), 4 * K)
  {
    ghost var s: Period := buffer[..];
    assert buffer[..] == Window(s, 0);
    for n := 0 to 4
      invariant buffer[..] == Window(s, n * K)
    {
      ForwardInPlace(buffer);
      WindowWindow(s, n * K, K);
      assert n * K + K == (n + 1) * K;
    }
  }

  /** Fills the buffer from its first 17 words. */
  method ExpandInPlace(buffer: array<Word>)
    requires buffer.Length == K
    modifies buffer
    ensures forall k | 0 <= k < K :: buffer[k] == Raw(old(buffer[..SEED_WORDS]), k)
  {
    ghost var seed: Seed := buffer[..SEED_WORDS];
    for i := SEED_WORDS to K
      invariant forall k | 0 <= k < i :: buffer[k] == Raw(seed, k)
    {
      buffer[i] := Mix(buffer[i - 17], buffer[i - 16], buffer[i - 1]);
    }
  }

  /** The words a 68-byte seed holds, each stored big-endian. */
  ghost function SeedWords(bytes: seq<Byte>): Seed
    requires |bytes| == 4 * SEED_WORDS
  {
    seq(SEED_WORDS, i requires 0 <= i < SEED_WORDS =>
      FromBe(bytes[4 * i], bytes[4 * i + 1], bytes[4 * i + 2], bytes[4 * i + 3]))
  }

  class Lfg {
    const buffer: array<Word>
    var position: nat
    // The stream this generator runs along, and the index in it of the first word in the buffer.
    ghost var origin: Period
    ghost var base: nat

    ghost predicate Valid()
      reads this, buffer
    {
      && buffer.Length == K
      && buffer[..] == Window(origin, base)
      && position < PERIOD_BYTES
    }

    /** The index in the stream of the next byte. */
    ghost function Offset(): nat
      reads this
    {
      4 * base + position
    }

    constructor (seedBytes: seq<Byte>)
      requires |seedBytes| == 4 * SEED_WORDS
      ensures Valid() && fresh(buffer)
      ensures origin == Origin(SeedWords(seedBytes)) && Offset() == 4 * PERIOD_BYTES
    {
      buffer := new Word[K](_ => 0);
      position := 0;
      new;
      ghost var seed := SeedWords(seedBytes);
      for i := 0 to SEED_WORDS
        invariant forall k | 0 <= k < i :: buffer[k] == seed[k]
        invariant position == 0
      {
        var o := i * 4;
        buffer[i] := FromBe(seedBytes[o], seedBytes[o + 1], seedBytes[o + 2], seedBytes[o + 3]);
      }
      assert buffer[..SEED_WORDS] == seed;
      ExpandInPlace(buffer);
      OutputInPlace(buffer);
      origin := Origin(seed);
      assert buffer[..] == origin;
      ForwardFourPeriods(buffer);
      base := 4 * K;
    }

    /** Moves forward by a number of bytes. */
    method ForwardBytes(count: nat)
      requires Valid()
      modifies this, buffer
      ensures Valid() && origin == old(origin) && Offset() == old(Offset()) + count
    {
      position := position + count;
      while position >= K * 4
        invariant buffer.Length == K && buffer[..] == Window(origin, base)
        invariant origin == old(origin) && Offset() == old(Offset()) + count
      {
        ForwardInPlace(buffer);
        WindowWindow(origin, base, K);
        base := base + K;
        position := position - K * 4;
      }
    }

    /** The next `count` bytes of the stream. */
    method NextBytes(count: nat) returns (out: seq<Byte>)
      requires Valid()
      modifies this, buffer
      ensures Valid() && origin == old(origin) && Offset() == old(Offset()) + count
      ensures out == Bytes(old(origin), old(Offset()), count)
    {
      hide At, Lane, Xor;
      out := [];
      while |out| < count
        invariant Valid() && origin == old(origin) && Offset() == old(Offset()) + |out|
        invariant |out| <= count && out == Bytes(old(origin), old(Offset()), |out|)
        decreases count - |out|
      {
        CurrentByte(origin, base, position);
        out := out + [Lane(buffer[position / 4], position % 4)];
        position := position + 1;
        if position == K * 4 {
          ForwardInPlace(buffer);
          WindowWindow(origin, base, K);
          base := base + K;
          position := 0;
        }
      }
    }
  }

  /** Where byte `position` of a buffer lies in the stream. */
  lemma CurrentByte(s: Period, base: nat, position: nat)
    requires position < PERIOD_BYTES
    ensures Lane(Window(s, base)[position / 4], position % 4) == ByteAt(s, 4 * base + position)
  {
    assert (4 * base + position) / 4 == base + position / 4;
    assert (4 * base + position) % 4 == position % 4;
  }

  // ---------- the detecting generator ----------

  datatype SeedResult = NotEnough | FilterFail | InitFail | Found(seed: Seed)

  /** The first period of the stream in which the words `u` would stand at word `offset` after the discarded periods. */
  ghost function Located(u: Period, offset: nat): Period {
    Back(Rewind(Placed(u, offset % K), offset % K), offset / K + 4)
  }

  /** The window `u`, each word reversed, laid into the buffer from word `m` on and wrapped around. */
  ghost function Placed(u: Period, m: nat): Period
    requires m < K
  {
    seq(K, k requires 0 <= k < K => if k < m then Swap32(u[K - m + k]) else Swap32(u[k - m]))
  }

  function Swapped(seed: Seed): Seed {
    seq(SEED_WORDS, i requires 0 <= i < SEED_WORDS => Swap32(seed[i]))
  }

  /** What initialisation checks: the expansion of `seed` is what the later words show. */
  ghost predicate Matches(seed: Seed, shown: Period) {
    forall i | SEED_WORDS <= i < K :: Kept(Raw(seed, i)) == Undrop(shown[i])
  }

  lemma MatchesConsistent(s: Period, shown: Period)
    requires forall k | SEED_WORDS <= k < K :: shown[k] == Swap32(s[k])
    ensures Matches(Recovered(s), shown) <==> Consistent(s)
  {
    hide Raw, Recovered, Swap32, Undrop, Kept;
  }

  predicate PassesFilter(u: seq<Word>) {
    |u| >= K && forall i | 0 <= i < K :: Doubled(u[i])
  }

  /** The outcome of looking for a seed in the words `u` at word offset `offset`. */
  ghost function SeedOf(u: seq<Word>, offset: nat): SeedResult {
    if |u| < K then NotEnough
    else if !PassesFilter(u) then FilterFail
    else
      var s := Located(u[..K], offset);
      if Consistent(s) then Found(Swapped(Recovered(s))) else InitFail
  }

  /** Bytes before the first whole word of data that starts at byte `offset`. */
  function Skip(offset: nat): nat {
    (offset + 3) / 4 * 4 - offset
  }

  /** The whole big-endian words of `data` after its first `skip` bytes. */
  ghost function WordsFrom(data: seq<Byte>, skip: nat): seq<Word>
    requires skip <= |data|
  {
    seq((|data| - skip) / 4, i requires 0 <= i < (|data| - skip) / 4 =>
      FromBe(data[4 * i + skip], data[4 * i + skip + 1], data[4 * i + skip + 2], data[4 * i + skip + 3]))
  }

  /** The outcome of looking for a seed in `data`, found at byte `offset` of a window. */
  ghost function Detect(data: seq<Byte>, offset: nat): SeedResult {
    if |data| < Skip(offset) + 4 then NotEnough
    else SeedOf(WordsFrom(data, Skip(offset)), (offset + Skip(offset)) / 4)
  }

  /** The stream position from which detection compares bytes of data found at byte `offset`. */
  function Phase(offset: nat): nat {
    (offset + Skip(offset)) / 4 / K * PERIOD_BYTES + offset % PERIOD_BYTES
  }

  /** How many bytes of `data`, from byte `k` on, continue the stream of `seed`. */
  ghost function MatchFrom(data: seq<Byte>, seed: Seed, from: nat, k: nat): (n: nat)
    requires k <= |data|
    ensures k <= n <= |data|
    ensures forall i | k <= i < n :: data[i] == PadByte(seed, from + i)
    ensures n < |data| ==> data[n] != PadByte(seed, from + n)
    decreases |data| - k
  {
    if k < |data| && data[k] == PadByte(seed, from + k) then MatchFrom(data, seed, from, k + 1) else k
  }

  ghost function MatchLength(data: seq<Byte>, seed: Seed, from: nat): nat {
    MatchFrom(data, seed, from, 0)
  }

  lemma RawSeed(seed: Seed)
    ensures forall k | 0 <= k < SEED_WORDS :: Raw(seed, k) == seed[k]
  {}

  lemma RawNext(seed: Seed, i: nat)
    requires i >= SEED_WORDS
    ensures Raw(seed, i) == Mix(Raw(seed, i - 17), Raw(seed, i - 16), Raw(seed, i - 1))
  {}

  lemma OriginIs(seed: Seed, output: Period)
    requires forall k | 0 <= k < K :: output[k] == Swap32(Drop(Raw(seed, k)))
    ensures output == Origin(seed)
  {
    hide Swap32, Drop, Raw;
  }

  class LaggedFibonacciGenerator {
    const buffer: array<Word>
    var positionBytes: nat

    constructor ()
      ensures buffer.Length == K && fresh(buffer) && positionBytes == 0
    {
      buffer := new Word[K](_ => 0);
      positionBytes := 0;
    }

    method Forward()
      requires buffer.Length == K
      modifies buffer
      ensures buffer[..] == Window(old(buffer[..]), K)
    {
      ForwardInPlace(buffer);
    }

    /** Takes words `startWord` up to `endWord` back by one period, in place. */
    method Backward(startWord: nat, endWord: nat, ghost s: Period)
      requires buffer.Length == K
      requires buffer[..] == Mixed(s, endWord)
      modifies buffer
      ensures buffer[..] == Mixed(s, if startWord < endWord then startWord else endWord)
    {
      hide Xor;
      var loopEnd := if J < startWord then startWord else J;
      var i := if endWord < K then endWord else K;
      while i > loopEnd
        invariant 0 <= i <= K
        invariant loopEnd <= i || endWord < loopEnd || K < loopEnd
        invariant buffer[..] == Mixed(s, if endWord <= loopEnd || K <= loopEnd then endWord else i)
      {
        assert At(s, K + (i - 1)) == Xor(At(s, i - 1), At(s, K + (i - 1) - J));
        XorCancel(At(s, i - 1), At(s, K + (i - 1) - J));
        buffer[i - 1] := Xor(buffer[i - 1], buffer[i - 1 - J]);
        i := i - 1;
        assert buffer[..] == Mixed(s, i);
      }
      if startWord >= K && endWord >= K {
        MixedBeyond(s, startWord);
        MixedBeyond(s, endWord);
      }
      i := if endWord < J then endWord else J;
      while i > startWord
        invariant 0 <= i <= J
        invariant startWord <= i || endWord <= startWord || J <= startWord
        invariant buffer[..]
               == Mixed(s, if endWord <= startWord then endWord else if J <= startWord then startWord else i)
      {
        assert At(s, K + (i - 1)) == Xor(At(s, i - 1), At(s, i - 1 + K - J));
        XorCancel(At(s, i - 1), At(s, i - 1 + K - J));
        buffer[i - 1] := Xor(buffer[i - 1], buffer[i - 1 + K - J]);
        i := i - 1;
        assert buffer[..] == Mixed(s, i);
      }
    }

    /** Expands the first 17 words over the buffer, optionally checking what was there. */
    method Initialize(checkExistingData: bool) returns (ok: bool)
      requires buffer.Length == K
      modifies buffer
      ensures ok <==> !checkExistingData || Matches(old(buffer[..SEED_WORDS]), old(buffer[..]))
      ensures ok ==> buffer[..] == Window(Origin(old(buffer[..SEED_WORDS])), 4 * K)
    {
      hide Raw, Mix, Kept, Undrop, Drop, Swap32, Origin;
      ghost var seed: Seed := buffer[..SEED_WORDS];
      ghost var was: Period := buffer[..];
      RawSeed(seed);
      for i := SEED_WORDS to K
        invariant forall k | 0 <= k < K :: buffer[k] == if k < i then Raw(seed, k) else was[k]
        invariant checkExistingData ==> forall k | SEED_WORDS <= k < i :: Kept(Raw(seed, k)) == Undrop(was[k])
      {
        RawNext(seed, i);
        var calculated := Mix(buffer[i - 17], buffer[i - 16], buffer[i - 1]);
        if checkExistingData {
          var actual := Undrop(buffer[i]);
          if Kept(calculated) != actual {
            return false;
          }
        }
        buffer[i] := calculated;
      }
      OutputInPlace(buffer);
      OriginIs(seed, buffer[..]);
      ForwardFourPeriods(buffer);
      ok := true;
    }

    /** Recovers the seed of the period in the buffer, four periods after the first, and starts over from it. */
    method Reinitialize() returns (seed: Seed, ok: bool)
      requires buffer.Length == K
      modifies buffer
      ensures seed == Swapped(Recovered(Back(old(buffer[..]), 4)))
      ensures ok <==> Consistent(Back(old(buffer[..]), 4))
      ensures ok ==> buffer[..] == Window(Origin(Recovered(Back(old(buffer[..]), 4))), 4 * K)
    {
      hide Rewind, Origin, Raw, Recover, Recovered, Matches, Consistent, Swap32, Window, Back;
      BackInPlace(4);
      ghost var s: Period := buffer[..];
      RecoverInPlace();
      assert buffer[..SEED_WORDS] == Recovered(s);
      seed := seq(SEED_WORDS, i requires 0 <= i < SEED_WORDS reads this, buffer => Swap32(buffer[i]));
      MatchesConsistent(s, buffer[..]);
      ok := Initialize(true);
    }

    /** Reverses every word and completes the first 17 from the outputs 15 and 16 places on. */
    method RecoverInPlace()
      requires buffer.Length == K
      modifies buffer
      ensures forall k | 0 <= k < K ::
                buffer[k] == if k < SEED_WORDS then Recovered(old(buffer[..]))[k] else Swap32(old(buffer[k]))
    {
      hide Swap32, Recover;
      ghost var s: Period := buffer[..];
      for i := 0 to K
        invariant forall k | 0 <= k < K :: buffer[k] == if k < i then Swap32(s[k]) else s[k]
      {
        buffer[i] := Swap32(buffer[i]);
      }
      for i := 0 to SEED_WORDS
        invariant forall k | 0 <= k < K :: buffer[k] == if k < i then Recovered(s)[k] else Swap32(s[k])
      {
        buffer[i] := Recover(buffer[i], buffer[i + 16], buffer[i + 15]);
      }
    }

    /** Goes back `n` whole periods. */
    method BackInPlace(n: nat)
      requires buffer.Length == K
      modifies buffer
      ensures buffer[..] == Back(old(buffer[..]), n)
    {
      for j := 0 to n
        invariant Back(buffer[..], n - j) == Back(old(buffer[..]), n)
      {
        ghost var s := Rewind(buffer[..], K);
        MixedRewind(buffer[..], K);
        Backward(0, K, s);
        MixedEnds(s);
      }
    }

    /** The next byte of the stream `s`, of which the buffer holds the period from word `base` on. */
    method GetByte(ghost s: Period, ghost base: nat) returns (result: Byte, ghost base': nat)
      requires buffer.Length == K && positionBytes < PERIOD_BYTES && buffer[..] == Window(s, base)
      modifies this, buffer
      ensures positionBytes < PERIOD_BYTES && buffer[..] == Window(s, base')
      ensures 4 * base' + positionBytes == 4 * base + old(positionBytes) + 1
      ensures result == ByteAt(s, 4 * base + old(positionBytes))
    {
      CurrentByte(s, base, positionBytes);
      result := Lane(buffer[positionBytes / 4], positionBytes % 4);
      positionBytes := positionBytes + 1;
      base' := base;
      if positionBytes == K * 4 {
        Forward();
        WindowWindow(s, base, K);
        base' := base + K;
        positionBytes := 0;
      }
    }

    /** Looks for a seed whose stream has the words `u32Data` at word `offset`. */
    method GetSeedU32(u32Data: seq<Word>, offset: nat) returns (r: SeedResult)
      requires buffer.Length == K
      modifies buffer
      ensures r == SeedOf(u32Data, offset)
      ensures r.Found? ==> buffer[..] == Window(Origin(Swapped(r.seed)), (4 + offset / K) * K)
    {
      if |u32Data| < K {
        return NotEnough;
      }
      for i := 0 to K
        invariant forall k | 0 <= k < i :: Doubled(u32Data[k])
      {
        if !Doubled(u32Data[i]) {
          return FilterFail;
        }
      }
      var div := offset / K;
      ghost var first := Located(u32Data[..K], offset);
      LocateInPlace(u32Data[..K], offset);
      var seed, ok := Reinitialize();
      if !ok {
        return InitFail;
      }
      SwappedTwice(Recovered(first));
      ForwardPeriods(div);
      WindowWindow(Origin(Recovered(first)), 4 * K, div * K);
      assert 4 * K + div * K == (4 + div) * K;
      r := Found(seed);
    }

    /** Lays a window of data into the buffer and goes back to the periods that follow seeding. */
    method LocateInPlace(u: Period, offset: nat)
      requires buffer.Length == K
      modifies buffer
      ensures Back(buffer[..], 4) == Located(u, offset)
    {
      hide Rewind, Placed, At;
      var modv := offset % K;
      var div := offset / K;
      PlaceInPlace(u, modv);
      ghost var s := Rewind(buffer[..], modv);
      MixedRewind(buffer[..], modv);
      Backward(0, modv, s);
      MixedEnds(s);
      BackInPlace(div);
      BackBack(s, div, 4);
    }

    /** Lays a window of data into the buffer, starting at word `m`. */
    method PlaceInPlace(u: seq<Word>, m: nat)
      requires buffer.Length == K && |u| == K && m < K
      modifies buffer
      ensures buffer[..] == Placed(u, m)
    {
      for i := 0 to K - m
        invariant forall k | m <= k < m + i :: buffer[k] == Swap32(u[k - m])
      {
        buffer[i + m] := Swap32(u[i]);
      }
      for i := 0 to m
        invariant forall k | m <= k < K :: buffer[k] == Swap32(u[k - m])
        invariant forall k | 0 <= k < i :: buffer[k] == Swap32(u[K - m + k])
      {
        buffer[i] := Swap32(u[K - m + i]);
      }
      assert buffer[..] == Placed(u, m);
    }

    /** Goes forward `n` whole periods. */
    method ForwardPeriods(n: nat)
      requires buffer.Length == K
      modifies buffer
      ensures buffer[..] == Window(old(buffer[..]), n * K)
    {
      ghost var s: Period := buffer[..];
      assert buffer[..] == Window(s, 0);
      for j := 0 to n
        invariant buffer[..] == Window(s, j * K)
      {
        Forward();
        WindowWindow(s, j * K, K);
        assert j * K + K == (j + 1) * K;
      }
    }

    /** The number of leading bytes of `data[..size]` that are padding, and the seed of that padding. */
    method GetSeed(data: seq<Byte>, size: nat, dataOffset: nat) returns (count: nat, found: Option<Seed>)
      requires buffer.Length == K && size <= |data|
      modifies this, buffer
      ensures var detected := Detect(data[..size], dataOffset);
              found == if detected.Found? then Some(detected.seed) else None
      ensures count == if found.Some? then MatchLength(data[..size], Swapped(found.value), Phase(dataOffset)) else 0
    {
      var bytesToSkip := (dataOffset + 3) / 4 * 4 - dataOffset;
      if size < bytesToSkip + 4 {
        return 0, None;
      }
      var u32Data := ReadWords(data[..size], bytesToSkip);
      var offset := (dataOffset + bytesToSkip) / 4;
      var seed := GetSeedU32(u32Data, offset);
      if !seed.Found? {
        return 0, None;
      }
      positionBytes := dataOffset % (K * 4);
      found := Some(seed.seed);
      count := CountMatches(data[..size], Swapped(seed.seed), (4 + offset / K) * K, Phase(dataOffset));
    }

    /** The number of leading bytes of `data` that the generator goes on to produce. */
    method CountMatches(data: seq<Byte>, ghost seed: Seed, ghost start: nat, ghost phase: nat) returns (count: nat)
      requires buffer.Length == K && positionBytes < PERIOD_BYTES && buffer[..] == Window(Origin(seed), start)
      requires 4 * start + positionBytes == 4 * PERIOD_BYTES + phase
      modifies this, buffer
      ensures count == MatchLength(data, seed, phase)
    {
      hide Origin, Window, ByteAt;
      count := 0;
      ghost var base: nat := start;
      while count < |data|
        invariant count <= |data| && positionBytes < PERIOD_BYTES && buffer[..] == Window(Origin(seed), base)
        invariant 4 * base + positionBytes == 4 * PERIOD_BYTES + phase + count
        invariant MatchFrom(data, seed, phase, count) == MatchLength(data, seed, phase)
      {
        var b;
        b, base := GetByte(Origin(seed), base);
        if b != data[count] {
          break;
        }
        count := count + 1;
      }
    }
  }

  /** The whole big-endian words of `data` after its first `skip` bytes. */
  method ReadWords(data: seq<Byte>, skip: nat) returns (u32Data: seq<Word>)
    requires skip <= |data|
    ensures u32Data == WordsFrom(data, skip)
  {
    hide FromBe;
    var wordCount := (|data| - skip) / 4;
    u32Data := [];
    while |u32Data| < wordCount
      invariant |u32Data| <= wordCount
      invariant u32Data == WordsFrom(data, skip)[..|u32Data|]
      decreases wordCount - |u32Data|
    {
      var o := |u32Data| * 4 + skip;
      u32Data := u32Data + [FromBe(data[o], data[o + 1], data[o + 2], data[o + 3])];
    }
  }

  lemma SwappedTwice(w: Seed)
    ensures Swapped(Swapped(w)) == w
  {
    forall i | 0 <= i < SEED_WORDS
      ensures Swapped(Swapped(w))[i] == w[i]
    {
      SwapInvolution(w[i]);
    }
  }
}
