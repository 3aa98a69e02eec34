/** std::sort over a strict weak order: a sorted permutation, ties in any order. */
module Sorting {

  /** What a comparator must be for std::sort. */
  ghost predicate StrictWeak<T(!new)>(less: (T, T) -> bool) {
    && (forall a, b :: less(a, b) ==> !less(b, a))
    && (forall a, b, c :: !less(a, b) && !less(b, c) ==> !less(a, c))
  }

  ghost predicate Sorted<T>(s: seq<T>, less: (T, T) -> bool) {
    forall i, j | 0 <= i < j < |s| :: !less(s[j], s[i])
  }

  /** `x` fits before position i. */
  ghost predicate Fits<T>(s: seq<T>, x: T, i: nat, less: (T, T) -> bool) {
    && i <= |s|
    && (forall j | 0 <= j < i :: !less(x, s[j]))
    && forall j | i <= j < |s| :: !less(s[j], x)
  }

  function Inserted<T>(s: seq<T>, x: T, i: nat): seq<T>
    requires i <= |s|
  {
    s[..i] + [x] + s[i..]
  }

  lemma InsertedIsSorted<T>(s: seq<T>, x: T, i: nat, less: (T, T) -> bool)
    requires Sorted(s, less) && Fits(s, x, i, less)
    ensures Sorted(Inserted(s, x, i), less)
  {
    var r := Inserted(s, x, i);
    forall j | 0 <= j < |r| ensures r[j] == if j < i then s[j] else if j == i then x else s[j - 1] {
    }
  }

  lemma InsertedIsPermutation<T>(s: seq<T>, x: T, i: nat)
    requires i <= |s|
    ensures multiset(Inserted(s, x, i)) == multiset(s) + multiset{x}
  {
    assert s == s[..i] + s[i..];
  }

  /** The first element that `x` precedes, and all after it, do not precede `x`. */
  lemma StopFits<T(!new)>(s: seq<T>, x: T, i: nat, less: (T, T) -> bool)
    requires StrictWeak(less) && Sorted(s, less) && i <= |s| && (i < |s| ==> less(x, s[i]))
    requires forall j | 0 <= j < i :: !less(x, s[j])
    ensures Fits(s, x, i, less)
  {
    forall j | i <= j < |s| ensures !less(s[j], x) {
      assert i < j ==> !less(s[j], s[i]);
      assert !less(s[i], x);
    }
  }

  method Insert<T(!new)>(s: seq<T>, x: T, less: (T, T) -> bool) returns (r: seq<T>)
    requires StrictWeak(less) && Sorted(s, less)
    ensures Sorted(r, less) && multiset(r) == multiset(s) + multiset{x}
  {
    var i := 0;
    while i < |s| && !less(x, s[i])
      invariant 0 <= i <= |s|
      invariant forall j | 0 <= j < i :: !less(x, s[j])
    {
      i := i + 1;
    }
    StopFits(s, x, i, less);
    InsertedIsSorted(s, x, i, less);
    InsertedIsPermutation(s, x, i);
    r := s[..i] + [x] + s[i..];
  }

  method Sort<T(!new)>(s: seq<T>, less: (T, T) -> bool) returns (r: seq<T>)
    requires StrictWeak(less)
    ensures Sorted(r, less) && multiset(r) == multiset(s)
  {
    r := [];
    for i := 0 to |s|
      invariant Sorted(r, less) && multiset(r) == multiset(s[..i])
    {
      assert s[..i + 1] == s[..i] + [s[i]];
      r := Insert(r, s[i], less);
    }
    assert s[..|s|] == s;
  }

  ghost predicate OnlyEqualsTie<T(!new)>(s: seq<T>, less: (T, T) -> bool) {
    forall x, y | x in s && y in s && !less(x, y) && !less(y, x) :: x == y
  }

  /** A sorted sequence starts with an element nothing precedes. */
  lemma HeadIsLeast<T>(s: seq<T>, less: (T, T) -> bool, x: T)
    requires Sorted(s, less) && x in s
    ensures x == s[0] || !less(x, s[0])
  {
  }

  lemma TailOf<T>(s: seq<T>)
    requires s != []
    ensures multiset(s[1..]) == multiset(s) - multiset{s[0]}
  {
    assert s == [s[0]] + s[1..];
  }

  lemma SameHead<T(!new)>(a: seq<T>, b: seq<T>, less: (T, T) -> bool)
    requires Sorted(a, less) && Sorted(b, less) && multiset(a) == multiset(b) && a != [] && b != []
    requires OnlyEqualsTie(a, less)
    ensures a[0] == b[0]
  {
    assert a[0] in multiset(b) && b[0] in multiset(a);
    HeadIsLeast(a, less, b[0]);
    HeadIsLeast(b, less, a[0]);
  }

  /** Where ties are between equal elements only, there is one sorted permutation. */
  lemma {:induction false} SortedIsUnique<T(!new)>(a: seq<T>, b: seq<T>, less: (T, T) -> bool)
    requires Sorted(a, less) && Sorted(b, less) && multiset(a) == multiset(b) && OnlyEqualsTie(a, less)
    ensures a == b
  {
    assert |multiset(a)| == |a| && |multiset(b)| == |b|;
    if a != [] {
      SameHead(a, b, less);
      TailOf(a);
      TailOf(b);
      SortedIsUnique(a[1..], b[1..], less);
    }
  }

  lemma {:induction false} PlaceExists<T(!new)>(s: seq<T>, x: T, from: nat, less: (T, T) -> bool) returns (i: nat)
    requires StrictWeak(less) && Sorted(s, less) && from <= |s| && forall j | 0 <= j < from :: !less(x, s[j])
    ensures i <= |s| && Fits(s, x, i, less)
    decreases |s| - from
  {
    if from < |s| && !less(x, s[from]) {
      i := PlaceExists(s, x, from + 1, less);
    } else {
      StopFits(s, x, from, less);
      i := from;
    }
  }

  /** Every sequence has a sorted permutation. */
  lemma {:induction false} SortExists<T(!new)>(s: seq<T>, less: (T, T) -> bool) returns (r: seq<T>)
    requires StrictWeak(less)
    ensures Sorted(r, less) && multiset(r) == multiset(s)
    decreases |s|
  {
    if s == [] {
      r := [];
    } else {
      var n := |s| - 1;
      var rest := SortExists(s[..n], less);
      var i := PlaceExists(rest, s[n], 0, less);
      InsertedIsSorted(rest, s[n], i, less);
      InsertedIsPermutation(rest, s[n], i);
      assert s == s[..n] + [s[n]];
      r := Inserted(rest, s[n], i);
    }
  }
}
