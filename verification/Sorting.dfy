// Sorting of slices with a strict total order, as done by sort.Slice and
// sort.Strings. The result is the only sorted permutation of the input, so it
// does not matter which algorithm the library uses.
module Sorting {

  ghost predicate StrictTotalOrder<T(!new)>(less: (T, T) -> bool) {
    && (forall x :: !less(x, x))
    && (forall x, y, z :: less(x, y) && less(y, z) ==> less(x, z))
    && (forall x, y :: less(x, y) || less(y, x) || x == y)
  }

  /** Every element of `s` is at most `x`. */
  ghost predicate AtMost<T>(s: seq<T>, x: T, less: (T, T) -> bool) {
    forall y | y in s :: !less(x, y)
  }

  ghost predicate Sorted<T>(s: seq<T>, less: (T, T) -> bool) {
    s == [] || (Sorted(s[..|s| - 1], less) && AtMost(s[..|s| - 1], s[|s| - 1], less))
  }

  ghost predicate IsSortOf<T>(r: seq<T>, s: seq<T>, less: (T, T) -> bool) {
    Sorted(r, less) && multiset(r) == multiset(s)
  }

  /** `x` moved left past the larger elements at the end of `s`. */
  function Insert<T>(s: seq<T>, x: T, less: (T, T) -> bool): (r: seq<T>)
    ensures |r| == |s| + 1
  {
    if s == [] || !less(x, s[|s| - 1]) then s + [x]
    else Insert(s[..|s| - 1], x, less) + [s[|s| - 1]]
  }

  /** The sorted permutation of a sequence. */
  function Sort<T>(s: seq<T>, less: (T, T) -> bool): (r: seq<T>)
    ensures |r| == |s|
  {
    if s == [] then [] else Insert(Sort(s[..|s| - 1], less), s[|s| - 1], less)
  }

  lemma {:induction false} InsertPermutes<T>(s: seq<T>, x: T, less: (T, T) -> bool)
    ensures multiset(Insert(s, x, less)) == multiset(s) + multiset{x}
  {
    if s != [] && less(x, s[|s| - 1]) {
      InsertPermutes(s[..|s| - 1], x, less);
      assert s == s[..|s| - 1] + [s[|s| - 1]];
    }
  }

  lemma {:induction false} InsertSorts<T(!new)>(s: seq<T>, x: T, less: (T, T) -> bool)
    requires StrictTotalOrder(less) && Sorted(s, less)
    ensures Sorted(Insert(s, x, less), less)
  {
    if s == [] || !less(x, s[|s| - 1]) {
      AppendSorts(s, x, less);
    } else {
      var init, last := s[..|s| - 1], s[|s| - 1];
      InsertSorts(init, x, less);
      InsertPermutes(init, x, less);
      var r := Insert(init, x, less);
      hide Insert;
      forall y | y in r
        ensures !less(last, y)
      {
        assert y in multiset(r);
        assert y == x || y in init;
      }
      assert (r + [last])[..|r|] == r;
    }
  }

  lemma AppendSorts<T(!new)>(s: seq<T>, x: T, less: (T, T) -> bool)
    requires StrictTotalOrder(less) && Sorted(s, less) && (s == [] || !less(x, s[|s| - 1]))
    ensures Sorted(s + [x], less)
  {
    assert (s + [x])[..|s|] == s;
    forall y | y in s
      ensures !less(x, y)
    {
      assert y == s[|s| - 1] || y in s[..|s| - 1];
    }
  }

  lemma {:induction false} SortSorts<T(!new)>(s: seq<T>, less: (T, T) -> bool)
    requires StrictTotalOrder(less)
    ensures IsSortOf(Sort(s, less), s, less)
  {
    hide StrictTotalOrder, AtMost, Insert;
    if s != [] {
      var init, last := s[..|s| - 1], s[|s| - 1];
      SortSorts(init, less);
      InsertSorts(Sort(init, less), last, less);
      InsertPermutes(Sort(init, less), last, less);
      assert s == init + [last];
    }
  }

  lemma LastIsLargest<T(!new)>(s: seq<T>, x: T, less: (T, T) -> bool)
    requires StrictTotalOrder(less)
    requires s != [] && Sorted(s, less) && x in multiset(s)
    ensures !less(s[|s| - 1], x)
  {
  }

  /** In a sorted sequence nothing is smaller than what stands before it. */
  lemma {:induction false} SortedPairs<T>(s: seq<T>, less: (T, T) -> bool)
    requires Sorted(s, less)
    ensures forall i, j | 0 <= i < j < |s| :: !less(s[j], s[i])
  {
    if s != [] {
      SortedPairs(s[..|s| - 1], less);
    }
  }

  lemma DropLastPermutes<T>(r: seq<T>, s: seq<T>)
    requires r != [] && s != [] && multiset(r) == multiset(s) && r[|r| - 1] == s[|s| - 1]
    ensures multiset(r[..|r| - 1]) == multiset(s[..|s| - 1])
  {
    assert r == r[..|r| - 1] + [r[|r| - 1]] && s == s[..|s| - 1] + [s[|s| - 1]];
    assert multiset(r[..|r| - 1]) == multiset(r) - multiset{r[|r| - 1]};
    assert multiset(s[..|s| - 1]) == multiset(s) - multiset{s[|s| - 1]};
  }

  /** Two sorted permutations of the same elements are equal. */
  lemma {:induction false} SortedUnique<T(!new)>(r: seq<T>, s: seq<T>, less: (T, T) -> bool)
    requires StrictTotalOrder(less)
    requires Sorted(r, less) && Sorted(s, less) && multiset(r) == multiset(s)
    ensures r == s
  {
    assert |r| == |multiset(r)| == |multiset(s)| == |s|;
    if r != [] {
      var x, y := r[|r| - 1], s[|s| - 1];
      assert x in multiset(s) && y in multiset(r);
      LastIsLargest(s, x, less);
      LastIsLargest(r, y, less);
      DropLastPermutes(r, s);
      SortedUnique(r[..|r| - 1], s[..|s| - 1], less);
      assert r == r[..|r| - 1] + [x] && s == s[..|s| - 1] + [y];
    }
  }

  /** Sorting forgets the order and nothing else. */
  lemma SortEqualIffPermutation<T(!new)>(a: seq<T>, b: seq<T>, less: (T, T) -> bool)
    requires StrictTotalOrder(less)
    ensures Sort(a, less) == Sort(b, less) <==> multiset(a) == multiset(b)
  {
    SortSorts(a, less);
    SortSorts(b, less);
    if multiset(a) == multiset(b) {
      SortedUnique(Sort(a, less), Sort(b, less), less);
    }
  }

  lemma SortStep<T>(s: seq<T>, v: seq<T>, less: (T, T) -> bool, i: nat)
    requires i < |s| && v == Sort(s[..i], less) + s[i..]
    ensures v[..i] == Sort(s[..i], less) && v[i] == s[i] && v[i + 1..] == s[i + 1..]
    ensures Sort(s[..i + 1], less) == Insert(v[..i], v[i], less)
  {
    assert s[..i + 1][..i] == s[..i];
  }

  /** sort.Slice: sorts the slice in place. */
  method SortSlice<T>(a: array<T>, less: (T, T) -> bool)
    modifies a
    ensures a[..] == Sort(old(a[..]), less)
  {
    ghost var s := a[..];
    for i := 0 to a.Length
      invariant a[..] == Sort(s[..i], less) + s[i..]
    {
      SortStep(s, a[..], less, i);
      assert a[..i] == a[..][..i] && a[i + 1..] == a[..][i + 1..];
      SinkInto(a, i, less);
    }
    assert s[..a.Length] == s;
  }

  /** Exchanging `x` with its left neighbour moves it one place to the left. */
  lemma ExchangeMovesLeft<T>(v: seq<T>, w: seq<T>, s: seq<T>, x: T, rest: seq<T>, j: nat)
    requires 0 < j <= |s|
    requires v == s[..j] + [x] + s[j..] + rest
    requires w == v[j - 1 := x][j := s[j - 1]]
    ensures w == s[..j - 1] + [x] + s[j - 1..] + rest
  {
  }

  lemma InsertPasses<T>(s: seq<T>, x: T, less: (T, T) -> bool, j: nat)
    requires 0 < j <= |s| && less(x, s[j - 1])
    ensures Insert(s[..j], x, less) + s[j..] == Insert(s[..j - 1], x, less) + s[j - 1..]
  {
    assert s[..j][..j - 1] == s[..j - 1];
    assert s[j - 1..] == [s[j - 1]] + s[j..];
  }

  /** Moves a[n] left to its place among the first n elements. */
  method SinkInto<T>(a: array<T>, n: nat, less: (T, T) -> bool)
    requires n < a.Length
    modifies a
    ensures a[..] == Insert(old(a[..n]), old(a[n]), less) + old(a[n + 1..])
  {
    ghost var s, x, rest := a[..n], a[n], a[n + 1..];
    hide Insert;
    var j := n;
    assert s[..n] == s && s[n..] == [] && a[..] == s + [x] + rest;
    while j > 0 && less(a[j], a[j - 1])
      invariant 0 <= j <= n
      invariant a[..] == s[..j] + [x] + s[j..] + rest
      invariant Insert(s, x, less) == Insert(s[..j], x, less) + s[j..]
    {
      ghost var v := a[..];
      assert a[j] == v[j] == x && a[j - 1] == v[j - 1] == s[j - 1];
      a[j - 1], a[j] := a[j], a[j - 1];
      assert a[..] == v[j - 1 := x][j := s[j - 1]];
      ExchangeMovesLeft(v, a[..], s, x, rest, j);
      InsertPasses(s, x, less, j);
      j := j - 1;
    }
    assert a[..][j] == x && (j > 0 ==> a[..][j - 1] == s[j - 1]);
    InsertStops(s[..j], x, less);
  }

  lemma InsertStops<T>(s: seq<T>, x: T, less: (T, T) -> bool)
    requires s == [] || !less(x, s[|s| - 1])
    ensures Insert(s, x, less) == s + [x]
  {
  }
}
