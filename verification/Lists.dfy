/** Lists whose elements all satisfy a predicate or differ in a key, and how edits keep that. */
module Lists {
  import opened Wrappers

  ghost predicate All<T(!new)>(xs: seq<T>, p: T -> bool) {
    forall x :: x in xs ==> p(x)
  }

  /** The keys that occur in a list. */
  function Images<T(==), K>(xs: seq<T>, key: T -> K): set<K> {
    set x | x in xs :: key(x)
  }

  lemma ImagesOfLonger<T, K>(xs: seq<T>, key: T -> K, x: T)
    ensures Images(xs + [x], key) == Images(xs, key) + {key(x)}
  {
    assert (xs + [x])[|xs|] == x;
  }

  ghost predicate Related<T>(xs: seq<T>, apart: (T, T) -> bool, i: int, j: int) {
    0 <= i < j < |xs| ==> apart(xs[i], xs[j])
  }

  /** Any two elements are apart, the earlier one first. */
  ghost predicate Pairwise<T>(xs: seq<T>, apart: (T, T) -> bool) {
    forall i, j {:trigger Related(xs, apart, i, j)} :: Related(xs, apart, i, j)
  }

  ghost predicate Differ<T, K>(xs: seq<T>, key: T -> K, i: int, j: int) {
    0 <= i < j < |xs| ==> key(xs[i]) != key(xs[j])
  }

  /** No two elements share a key. */
  ghost predicate Distinct<T, K>(xs: seq<T>, key: T -> K) {
    forall i, j {:trigger Differ(xs, key, i, j)} :: Differ(xs, key, i, j)
  }

  lemma DistinctAt<T, K>(xs: seq<T>, key: T -> K, i: nat, j: nat)
    requires Distinct(xs, key) && i < |xs| && j < |xs| && i != j
    ensures key(xs[i]) != key(xs[j])
  {
    assert Differ(xs, key, i, j) && Differ(xs, key, j, i);
  }

  lemma PairwiseAt<T>(xs: seq<T>, apart: (T, T) -> bool, i: nat, j: nat)
    requires Pairwise(xs, apart) && i < j < |xs|
    ensures apart(xs[i], xs[j])
  {
    assert Related(xs, apart, i, j);
  }

  /** The first position whose element has a key. */
  function FirstWith<T, K(==)>(xs: seq<T>, key: T -> K, k: K): (r: Option<nat>)
    ensures r.Some? ==> r.value < |xs| && key(xs[r.value]) == k
    ensures r.None? ==> forall x :: x in xs ==> key(x) != k
  {
    if xs == [] then None
    else if key(xs[0]) == k then Some(0)
    else
      match FirstWith(xs[1..], key, k)
      case None => None
      case Some(i) => Some(i + 1)
  }

  function Without<T>(xs: seq<T>, i: nat): (r: seq<T>)
    requires i < |xs|
    ensures |r| == |xs| - 1
    ensures forall k :: 0 <= k < |r| ==> r[k] == xs[if k < i then k else k + 1]
  {
    xs[..i] + xs[i + 1..]
  }

  // ---- All ----

  lemma AllAfterUpdate<T(!new)>(xs: seq<T>, p: T -> bool, i: nat, x: T)
    requires All(xs, p) && i < |xs|
    ensures All(xs[i := x], p) <==> p(x)
  {
    assert xs[i := x][i] == x;
  }

  lemma AllAfterAppend<T(!new)>(xs: seq<T>, p: T -> bool, x: T)
    requires All(xs, p)
    ensures All(xs + [x], p) <==> p(x)
  {
    assert (xs + [x])[|xs|] == x;
  }

  lemma AllAfterRemove<T(!new)>(xs: seq<T>, p: T -> bool, i: nat)
    requires All(xs, p) && i < |xs|
    ensures All(Without(xs, i), p)
  {
  }

  // ---- Distinct ----

  lemma DistinctAfterUpdate<T, K>(xs: seq<T>, key: T -> K, i: nat, x: T)
    requires Distinct(xs, key) && i < |xs|
    requires key(x) == key(xs[i]) || forall k :: 0 <= k < |xs| && k != i ==> key(xs[k]) != key(x)
    ensures Distinct(xs[i := x], key)
  {
    var ys := xs[i := x];
    forall j, k
      ensures Differ(ys, key, j, k)
    {
      assert Differ(xs, key, j, k);
    }
  }

  lemma DistinctAfterAppend<T, K>(xs: seq<T>, key: T -> K, x: T)
    requires Distinct(xs, key)
    ensures Distinct(xs + [x], key) <==> key(x) !in Images(xs, key)
    ensures key(x) !in Images(xs, key) <==> forall y :: y in xs ==> key(y) != key(x)
  {
    var ys := xs + [x];
    if Distinct(ys, key) {
      forall y | y in xs
        ensures key(y) != key(x)
      {
        var i :| 0 <= i < |xs| && xs[i] == y;
        assert Differ(ys, key, i, |xs|);
      }
    }
    if key(x) !in Images(xs, key) {
      forall i, j
        ensures Differ(ys, key, i, j)
      {
        assert Differ(xs, key, i, j);
        assert 0 <= i < |xs| ==> xs[i] in xs;
      }
    }
  }

  lemma DistinctAfterRemove<T, K>(xs: seq<T>, key: T -> K, i: nat)
    requires Distinct(xs, key) && i < |xs|
    ensures Distinct(Without(xs, i), key)
  {
    forall j, k
      ensures Differ(Without(xs, i), key, j, k)
    {
      assert Differ(xs, key, if j < i then j else j + 1, if k < i then k else k + 1);
    }
  }

  lemma DistinctPrefix<T, K>(xs: seq<T>, key: T -> K, n: nat)
    requires Distinct(xs, key) && n <= |xs|
    ensures Distinct(xs[..n], key)
  {
    forall j, k
      ensures Differ(xs[..n], key, j, k)
    {
      assert Differ(xs, key, j, k);
    }
  }

  /** Keys that agree on every element are distinct on the same lists. */
  lemma DistinctUnderEqualKeys<T, K>(xs: seq<T>, key: T -> K, other: T -> K)
    requires Distinct(xs, key)
    requires forall x :: x in xs ==> key(x) == other(x)
    ensures Distinct(xs, other)
  {
    forall j, k
      ensures Differ(xs, other, j, k)
    {
      assert Differ(xs, key, j, k);
    }
  }

  // ---- Pairwise ----

  lemma PairwiseAfterAppend<T>(xs: seq<T>, apart: (T, T) -> bool, x: T)
    requires Pairwise(xs, apart)
    ensures Pairwise(xs + [x], apart) <==> forall y :: y in xs ==> apart(y, x)
  {
    var ys := xs + [x];
    if Pairwise(ys, apart) {
      forall y | y in xs
        ensures apart(y, x)
      {
        var i :| 0 <= i < |xs| && xs[i] == y;
        assert Related(ys, apart, i, |xs|);
      }
    }
    if forall y :: y in xs ==> apart(y, x) {
      forall i, j
        ensures Related(ys, apart, i, j)
      {
        assert Related(xs, apart, i, j);
        assert 0 <= i < |xs| ==> xs[i] in xs;
      }
    }
  }

  lemma PairwiseAfterUpdate<T>(xs: seq<T>, apart: (T, T) -> bool, i: nat, x: T)
    requires Pairwise(xs, apart) && i < |xs|
    requires forall k :: 0 <= k < i ==> apart(xs[k], x)
    requires forall k :: i < k < |xs| ==> apart(x, xs[k])
    ensures Pairwise(xs[i := x], apart)
  {
    var ys := xs[i := x];
    forall j, k
      ensures Related(ys, apart, j, k)
    {
      assert Related(xs, apart, j, k);
    }
  }

  lemma PairwiseAfterRemove<T>(xs: seq<T>, apart: (T, T) -> bool, i: nat)
    requires Pairwise(xs, apart) && i < |xs|
    ensures Pairwise(Without(xs, i), apart)
  {
    forall j, k
      ensures Related(Without(xs, i), apart, j, k)
    {
      assert Related(xs, apart, if j < i then j else j + 1, if k < i then k else k + 1);
    }
  }

  lemma PairwisePrefix<T>(xs: seq<T>, apart: (T, T) -> bool, n: nat)
    requires Pairwise(xs, apart) && n <= |xs|
    ensures Pairwise(xs[..n], apart)
  {
    forall j, k
      ensures Related(xs[..n], apart, j, k)
    {
      assert Related(xs, apart, j, k);
    }
  }

  /** The elements that pass, in order. */
  function Filtered<T(!new)>(xs: seq<T>, keep: T -> bool): (r: seq<T>)
    ensures forall x :: x in r <==> x in xs && keep(x)
  {
    if xs == [] then []
    else
      var init, last := xs[..|xs| - 1], xs[|xs| - 1];
      assert xs == init + [last];
      if keep(last) then Filtered(init, keep) + [last] else Filtered(init, keep)
  }

  lemma {:induction false} PairwiseAfterFilter<T(!new)>(xs: seq<T>, apart: (T, T) -> bool, keep: T -> bool)
    requires Pairwise(xs, apart)
    ensures Pairwise(Filtered(xs, keep), apart)
  {
    if xs != [] {
      var init, last := xs[..|xs| - 1], xs[|xs| - 1];
      assert xs == init + [last];
      PairwisePrefix(xs, apart, |xs| - 1);
      PairwiseAfterAppend(init, apart, last);
      PairwiseAfterFilter(init, apart, keep);
      PairwiseAfterAppend(Filtered(init, keep), apart, last);
    }
  }

  lemma AllAfterFilter<T(!new)>(xs: seq<T>, p: T -> bool, keep: T -> bool)
    requires All(xs, p)
    ensures All(Filtered(xs, keep), p)
  {
  }

  // ---- the one element meant ----

  function HasNot<T(!new)>(p: T -> bool): T -> bool {
    (a: T) => !p(a)
  }

  ghost predicate Has<T(!new)>(list: seq<T>, p: T -> bool) {
    exists a :: a in list && p(a)
  }

  /** The position is that of the one element meant, if there is one. */
  ghost predicate Finds<T(!new)>(list: seq<T>, i: Option<nat>, p: T -> bool) {
    && (i.Some? ==> i.value < |list|)
    && forall k :: 0 <= k < |list| ==> (p(list[k]) <==> i == Some(k))
  }

  lemma FoundMeansHas<T(!new)>(list: seq<T>, i: Option<nat>, p: T -> bool)
    requires Finds(list, i, p)
    ensures i.Some? <==> Has(list, p)
  {
    if i.Some? {
      assert list[i.value] in list && p(list[i.value]);
    }
  }

  lemma {:induction false} WithoutIsFiltered<T(!new)>(list: seq<T>, i: nat, keep: T -> bool)
    requires i < |list| && forall k :: 0 <= k < |list| ==> (keep(list[k]) <==> k != i)
    ensures Without(list, i) == Filtered(list, keep)
  {
    var n := |list| - 1;
    var init, last := list[..n], list[n];
    assert list == init + [last];
    if i < n {
      WithoutIsFiltered(init, i, keep);
      assert Without(list, i) == Without(init, i) + [last];
    } else {
      AllPass(init, keep);
      assert Without(list, i) == init;
    }
  }

  lemma {:induction false} AllPass<T(!new)>(list: seq<T>, keep: T -> bool)
    requires forall a :: a in list ==> keep(a)
    ensures Filtered(list, keep) == list
  {
    if list != [] {
      AllPass(list[..|list| - 1], keep);
      assert list == list[..|list| - 1] + [list[|list| - 1]];
    }
  }

  lemma WithoutTheFound<T(!new)>(list: seq<T>, i: nat, p: T -> bool)
    requires Finds(list, Some(i), p)
    ensures Without(list, i) == Filtered(list, HasNot(p))
    ensures forall a :: a in Without(list, i) <==> a in list && !p(a)
  {
    WithoutIsFiltered(list, i, HasNot(p));
  }

  /** The elements meant are changed in this way, and every other stays as and where it is. */
  ghost predicate OnlyChanged<T(!new)>(list: seq<T>, list': seq<T>, p: T -> bool, change: (T, T) -> bool) {
    && |list'| == |list|
    && forall k :: 0 <= k < |list| ==> if p(list[k]) then change(list[k], list'[k]) else list'[k] == list[k]
  }

  lemma OneIsChanged<T(!new)>(list: seq<T>, i: nat, a: T, p: T -> bool, change: (T, T) -> bool)
    requires Finds(list, Some(i), p) && change(list[i], a)
    ensures OnlyChanged(list, list[i := a], p, change)
  {
  }

  // ---- sizes ----

  lemma SubsetIsNoLarger<T>(a: set<T>, b: set<T>)
    requires a <= b
    ensures |a| <= |b|
  {
    assert b == a + (b - a);
  }

  lemma SubmapIsNoLarger<K, V>(a: map<K, V>, b: map<K, V>)
    requires a.Keys <= b.Keys
    ensures |a| <= |b|
    ensures |a| == |b| ==> a.Keys == b.Keys
  {
    assert b.Keys == a.Keys + (b.Keys - a.Keys);
    assert |b.Keys| == |a.Keys| + |b.Keys - a.Keys|;
  }

  lemma TailAsMultiset<T>(xs: seq<T>)
    requires xs != []
    ensures multiset(xs[1..]) == multiset(xs) - multiset{xs[0]}
  {
    assert xs == [xs[0]] + xs[1..];
  }
}
