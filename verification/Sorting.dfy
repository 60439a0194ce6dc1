/** Stable sorting by a key. */
module Sorting {
  function Insert<T>(key: T -> nat, x: T, xs: seq<T>): seq<T> {
    if xs == [] || key(x) <= key(xs[0]) then [x] + xs else [xs[0]] + Insert(key, x, xs[1..])
  }

  /** Sorted by key; what has the same key keeps its order. */
  function Sorted<T>(key: T -> nat, xs: seq<T>): seq<T> {
    if xs == [] then [] else Insert(key, xs[0], Sorted(key, xs[1..]))
  }

  predicate Ordered<T>(key: T -> nat, xs: seq<T>) {
    forall i, j | 0 <= i < j < |xs| :: key(xs[i]) <= key(xs[j])
  }

  predicate AllAfter<T>(key: T -> nat, start: nat, xs: seq<T>) {
    forall j | 0 <= j < |xs| :: start <= key(xs[j])
  }

  lemma {:induction false} InsertContents<T>(key: T -> nat, x: T, xs: seq<T>)
    ensures multiset(Insert(key, x, xs)) == multiset(xs) + multiset{x}
  {
    if xs != [] && key(x) > key(xs[0]) {
      InsertContents(key, x, xs[1..]);
      assert xs == [xs[0]] + xs[1..];
    }
  }

  lemma {:induction false} InsertOrdered<T>(key: T -> nat, x: T, xs: seq<T>, start: nat)
    requires Ordered(key, xs) && AllAfter(key, start, xs) && start <= key(x)
    ensures Ordered(key, Insert(key, x, xs)) && AllAfter(key, start, Insert(key, x, xs))
  {
    if xs != [] && key(x) > key(xs[0]) {
      InsertOrdered(key, x, xs[1..], key(xs[0]));
    }
  }

  /** The elements with key `k`, in their order. */
  function WithKey<T>(key: T -> nat, k: nat, xs: seq<T>): seq<T> {
    if xs == [] then [] else (if key(xs[0]) == k then [xs[0]] else []) + WithKey(key, k, xs[1..])
  }

  lemma {:induction false} InsertWithKey<T>(key: T -> nat, k: nat, x: T, xs: seq<T>)
    ensures WithKey(key, k, Insert(key, x, xs)) == (if key(x) == k then [x] else []) + WithKey(key, k, xs)
  {
    hide WithKey;
    if xs != [] && key(x) > key(xs[0]) {
      InsertWithKey(key, k, x, xs[1..]);
      WithKeyOf(key, k, xs[0], Insert(key, x, xs[1..]));
      WithKeyOf(key, k, xs[0], xs[1..]);
      assert xs == [xs[0]] + xs[1..];
    } else {
      WithKeyOf(key, k, x, xs);
    }
  }

  lemma WithKeyOf<T>(key: T -> nat, k: nat, x: T, xs: seq<T>)
    ensures WithKey(key, k, [x] + xs) == (if key(x) == k then [x] else []) + WithKey(key, k, xs)
  {
    assert ([x] + xs)[1..] == xs;
  }

  /** The sort is stable: what has the same key keeps its order. */
  lemma {:induction false} SortedStable<T>(key: T -> nat, k: nat, xs: seq<T>)
    ensures WithKey(key, k, Sorted(key, xs)) == WithKey(key, k, xs)
  {
    if xs != [] {
      SortedStable(key, k, xs[1..]);
      InsertWithKey(key, k, xs[0], Sorted(key, xs[1..]));
    }
  }

  /** It orders by key, and keeps every element. */
  lemma {:induction false} SortedKeeps<T>(key: T -> nat, xs: seq<T>)
    ensures multiset(Sorted(key, xs)) == multiset(xs) && Ordered(key, Sorted(key, xs))
  {
    hide Insert;
    if xs != [] {
      SortedKeeps(key, xs[1..]);
      var rest := Sorted(key, xs[1..]);
      assert AllAfter(key, 0, rest);
      hide Ordered, AllAfter;
      InsertContents(key, xs[0], rest);
      InsertOrdered(key, xs[0], rest, 0);
      MultisetTail(xs);
    }
  }

  lemma MultisetTail<T>(xs: seq<T>)
    requires xs != []
    ensures multiset(xs[1..]) == multiset(xs) - multiset{xs[0]}
  {
    assert xs == [xs[0]] + xs[1..];
  }

  predicate StrictlyOrdered<T>(key: T -> nat, xs: seq<T>) {
    forall i, j | 0 <= i < j < |xs| :: key(xs[i]) < key(xs[j])
  }

  lemma SameHead<T>(key: T -> nat, xs: seq<T>, plan: seq<T>)
    requires Ordered(key, xs) && StrictlyOrdered(key, plan) && multiset(xs) == multiset(plan) && xs != [] && plan != []
    ensures xs[0] == plan[0]
  {
    assert xs[0] in multiset(plan) && plan[0] in multiset(xs);
    var a :| 0 <= a < |plan| && plan[a] == xs[0];
    var b :| 0 <= b < |xs| && xs[b] == plan[0];
  }

  lemma TailsOrdered<T>(key: T -> nat, xs: seq<T>, plan: seq<T>)
    requires Ordered(key, xs) && StrictlyOrdered(key, plan) && xs != [] && plan != []
    ensures Ordered(key, xs[1..]) && StrictlyOrdered(key, plan[1..])
  {}

  lemma SameSize<T>(xs: seq<T>, plan: seq<T>)
    requires multiset(xs) == multiset(plan)
    ensures |xs| == |plan|
  {
    assert |xs| == |multiset(xs)|;
  }

  lemma SameParts<T>(xs: seq<T>, plan: seq<T>)
    requires xs != [] && plan != [] && xs[0] == plan[0] && xs[1..] == plan[1..]
    ensures xs == plan
  {
    assert xs == [xs[0]] + xs[1..] && plan == [plan[0]] + plan[1..];
  }

  /** What is in strict order is what any rearrangement of it sorts to. */
  lemma {:induction false} SortedOnce<T>(key: T -> nat, xs: seq<T>, plan: seq<T>)
    requires Ordered(key, xs) && StrictlyOrdered(key, plan) && multiset(xs) == multiset(plan)
    ensures xs == plan
    decreases |plan|
  {
    SameSize(xs, plan);
    if plan != [] {
      SameHead(key, xs, plan);
      MultisetTail(xs);
      MultisetTail(plan);
      TailsOrdered(key, xs, plan);
      hide Ordered, StrictlyOrdered;
      SortedOnce(key, xs[1..], plan[1..]);
      SameParts(xs, plan);
    }
  }
}
