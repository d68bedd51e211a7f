/** Sequences as bags: permutations, duplicate-free listings of sets, and sorting by a
    string key, which is all the program asks of sort.Slice. */
module Sequences {
  import opened Text

  ghost predicate NoDuplicates<T>(xs: seq<T>) {
    forall i, j :: 0 <= i < j < |xs| ==> xs[i] != xs[j]
  }

  function Elements<T(==)>(xs: seq<T>): set<T> {
    set x | x in xs
  }

  /** xs lists every element of s once, in any order: one iteration over a Go map. */
  ghost predicate Enumerates<T>(xs: seq<T>, s: set<T>) {
    NoDuplicates(xs) && (forall x | x in xs :: x in s) && (forall x | x in s :: x in xs)
  }

  function Without<T>(xs: seq<T>, k: nat): (r: seq<T>)
    requires k < |xs|
    ensures |r| == |xs| - 1
    ensures multiset(xs) == multiset(r) + multiset{xs[k]}
    ensures forall i :: 0 <= i < |r| ==> r[i] == xs[if i < k then i else i + 1]
  {
    assert xs == xs[..k] + [xs[k]] + xs[k + 1..];
    xs[..k] + xs[k + 1..]
  }

  lemma PositionOf<T>(x: T, xs: seq<T>) returns (k: nat)
    requires x in multiset(xs)
    ensures k < |xs| && xs[k] == x
  {
    assert x in xs;
    k :| 0 <= k < |xs| && xs[k] == x;
  }

  lemma {:induction false} SameLength<T>(xs: seq<T>, ys: seq<T>)
    requires multiset(xs) == multiset(ys)
    ensures |xs| == |ys|
  {
    assert |multiset(xs)| == |xs| && |multiset(ys)| == |ys|;
  }

  lemma SameElements<T>(xs: seq<T>, ys: seq<T>)
    requires multiset(xs) == multiset(ys)
    ensures forall x :: x in xs <==> x in ys
  {
    forall x ensures x in xs <==> x in ys {
      assert x in xs <==> x in multiset(xs);
      assert x in ys <==> x in multiset(ys);
    }
  }

  lemma {:induction false} NoDuplicatesCount<T>(xs: seq<T>)
    requires NoDuplicates(xs)
    ensures forall x :: multiset(xs)[x] == (if x in xs then 1 else 0)
  {
    if xs != [] {
      var n := |xs| - 1;
      assert xs == xs[..n] + [xs[n]];
      NoDuplicatesCount(xs[..n]);
      assert forall i :: 0 <= i < n ==> xs[i] == xs[..n][i];
      assert xs[n] !in xs[..n];
    }
  }

  lemma TwiceCounts<T>(xs: seq<T>, i: nat, j: nat)
    requires i < j < |xs| && xs[i] == xs[j]
    ensures multiset(xs)[xs[i]] >= 2
  {
    assert xs == xs[..j] + [xs[j]] + xs[j + 1..];
    assert xs[..j][i] == xs[i];
  }

  lemma PermutedNoDuplicates<T>(xs: seq<T>, ys: seq<T>)
    requires NoDuplicates(xs) && multiset(xs) == multiset(ys)
    ensures NoDuplicates(ys)
  {
    NoDuplicatesCount(xs);
    forall i, j | 0 <= i < j < |ys| ensures ys[i] != ys[j] {
      if ys[i] == ys[j] { TwiceCounts(ys, i, j); }
    }
  }

  /** Two listings of one set are permutations of each other. */
  lemma ListingsPermute<T>(xs: seq<T>, ys: seq<T>, s: set<T>)
    requires Enumerates(xs, s) && Enumerates(ys, s)
    ensures multiset(xs) == multiset(ys)
  {
    NoDuplicatesCount(xs);
    NoDuplicatesCount(ys);
  }

  /** Dropping matching elements keeps a permutation. */
  lemma DropMatching<T>(xs: seq<T>, k: nat, ys: seq<T>)
    requires k < |xs| && ys != [] && xs[k] == ys[0] && multiset(xs) == multiset(ys)
    ensures multiset(Without(xs, k)) == multiset(ys[1..])
  {
    assert ys == [ys[0]] + ys[1..];
    assert multiset(xs) - multiset{xs[k]} == multiset(Without(xs, k));
    assert multiset(ys) - multiset{ys[0]} == multiset(ys[1..]);
  }

  lemma PutBack<T>(xs: seq<T>, k: nat, rest: seq<T>)
    requires k < |xs| && multiset(rest) == multiset(Without(xs, k))
    ensures multiset([xs[k]] + rest) == multiset(xs)
  {
  }

  /** Permuting one of two parallel sequences permutes the other along. */
  lemma {:induction false} PermuteAlong<T, U>(xs: seq<T>, ys: seq<U>, xs': seq<T>) returns (ys': seq<U>, at: seq<nat>)
    requires |xs| == |ys| && multiset(xs) == multiset(xs')
    ensures |at| == |ys'| == |xs'| == |xs| && multiset(ys') == multiset(ys)
    ensures forall i :: 0 <= i < |at| ==> at[i] < |xs| && xs[at[i]] == xs'[i] && ys[at[i]] == ys'[i]
    decreases |xs|
  {
    SameLength(xs, xs');
    if xs == [] {
      ys', at := [], [];
    } else {
      assert xs'[0] in multiset(xs');
      var k := PositionOf(xs'[0], xs);
      DropMatching(xs, k, xs');
      var rest, restAt := PermuteAlong(Without(xs, k), Without(ys, k), xs'[1..]);
      ys' := [ys[k]] + rest;
      PutBack(ys, k, rest);
      at := [k] + seq(|rest|, i requires 0 <= i < |rest| => if restAt[i] < k then restAt[i] else restAt[i] + 1);
    }
  }

  /** Images of two listings of one set, under the same assignment, are permutations. */
  lemma {:induction false} ImagesPermute<T, U>(xs: seq<T>, us: seq<U>, ys: seq<T>, vs: seq<U>)
    requires |xs| == |us| && |ys| == |vs| && multiset(xs) == multiset(ys)
    requires forall i, j :: 0 <= i < |xs| && 0 <= j < |ys| && xs[i] == ys[j] ==> us[i] == vs[j]
    ensures multiset(us) == multiset(vs)
    decreases |xs|
  {
    SameLength(xs, ys);
    if xs != [] {
      assert ys[0] in multiset(ys);
      var k := PositionOf(ys[0], xs);
      DropMatching(xs, k, ys);
      assert vs == [vs[0]] + vs[1..];
      ImagesPermute(Without(xs, k), Without(us, k), ys[1..], vs[1..]);
      assert us[k] == vs[0];
    }
  }

  ghost predicate SortedBy<T>(xs: seq<T>, key: T -> string) {
    forall i, j :: 0 <= i < j < |xs| ==> !Less(key(xs[j]), key(xs[i]))
  }

  ghost predicate InjectiveOn<T>(key: T -> string, xs: seq<T>) {
    forall x, y :: x in xs && y in xs && key(x) == key(y) ==> x == y
  }

  ghost predicate Injective<T(!new)>(key: T -> string) {
    forall x, y :: key(x) == key(y) ==> x == y
  }

  lemma FirstIsLeast<T>(xs: seq<T>, key: T -> string, x: T)
    requires SortedBy(xs, key) && x in xs
    ensures !Less(key(x), key(xs[0]))
  {
    LessTotal(key(x), key(x));
  }

  /** Sorting by an injective key leaves one possible order. */
  lemma {:induction false} SortedUnique<T>(xs: seq<T>, ys: seq<T>, key: T -> string)
    requires multiset(xs) == multiset(ys) && SortedBy(xs, key) && SortedBy(ys, key)
    requires InjectiveOn(key, xs)
    ensures xs == ys
  {
    SameLength(xs, ys);
    if xs != [] {
      SameFirst(xs, ys, key);
      assert multiset(xs[1..]) == multiset(ys[1..]) by {
        DropMatching(xs, 0, ys);
        assert Without(xs, 0) == xs[1..];
      }
      SortedTail(xs, key);
      SortedTail(ys, key);
      SortedUnique(xs[1..], ys[1..], key);
      assert xs == [xs[0]] + xs[1..] && ys == [ys[0]] + ys[1..];
    }
  }

  lemma SortedTail<T>(xs: seq<T>, key: T -> string)
    requires xs != [] && SortedBy(xs, key)
    ensures SortedBy(xs[1..], key) && forall x | x in xs[1..] :: x in xs
  {
  }

  lemma SameFirst<T>(xs: seq<T>, ys: seq<T>, key: T -> string)
    requires multiset(xs) == multiset(ys) && SortedBy(xs, key) && SortedBy(ys, key)
    requires InjectiveOn(key, xs) && xs != [] && ys != []
    ensures xs[0] == ys[0]
  {
    SameElements(xs, ys);
    assert xs[0] in xs && ys[0] in ys;
    FirstIsLeast(xs, key, ys[0]);
    FirstIsLeast(ys, key, xs[0]);
    LessTotal(key(xs[0]), key(ys[0]));
  }

  /** sort.Slice: callers learn that the result is some sorted permutation, no more. */
  method Sort<T>(xs: seq<T>, key: T -> string) returns (ys: seq<T>)
    ensures multiset(ys) == multiset(xs) && SortedBy(ys, key)
  {
    ys := [];
    for i := 0 to |xs|
      invariant multiset(ys) == multiset(xs[..i]) && SortedBy(ys, key)
    {
      assert xs[..i + 1] == xs[..i] + [xs[i]];
      ys := Insert(ys, xs[i], key);
    }
    assert xs[..|xs|] == xs;
  }

  method Insert<T>(xs: seq<T>, x: T, key: T -> string) returns (ys: seq<T>)
    requires SortedBy(xs, key)
    ensures multiset(ys) == multiset(xs) + multiset{x} && SortedBy(ys, key)
  {
    var k := |xs|;
    while k > 0 && Less(key(x), key(xs[k - 1]))
      invariant 0 <= k <= |xs|
      invariant forall j :: k <= j < |xs| ==> Less(key(x), key(xs[j]))
    {
      k := k - 1;
    }
    ys := xs[..k] + [x] + xs[k..];
    InsertedOnce(xs, x, k);
    InsertedInOrder(xs, x, key, k);
  }

  lemma InsertedOnce<T>(xs: seq<T>, x: T, k: nat)
    requires k <= |xs|
    ensures multiset(xs[..k] + [x] + xs[k..]) == multiset(xs) + multiset{x}
  {
    assert xs == xs[..k] + xs[k..];
  }

  lemma InsertedInOrder<T>(xs: seq<T>, x: T, key: T -> string, k: nat)
    requires SortedBy(xs, key) && k <= |xs|
    requires k > 0 ==> !Less(key(x), key(xs[k - 1]))
    requires forall j :: k <= j < |xs| ==> Less(key(x), key(xs[j]))
    ensures SortedBy(xs[..k] + [x] + xs[k..], key)
  {
    var ys := xs[..k] + [x] + xs[k..];
    forall i | 0 <= i < k ensures !Less(key(x), key(xs[i])) {
      if i < k - 1 {
        LessTransitive(key(xs[i]), key(xs[k - 1]), key(x));
      }
    }
    forall i, j | 0 <= i < j < |ys| ensures !Less(key(ys[j]), key(ys[i])) {
      if i == k {
        LessTotal(key(x), key(ys[j]));
      }
    }
  }
}
