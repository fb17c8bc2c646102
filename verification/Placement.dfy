// Listings built by walking a map in arbitrary order and placing each element
// with sort.Search. Shared by every sorted listing in the repository.
module Placement {
  import opened Ordering
  import opened BinarySearch

  /** The search predicate "x comes before s[j]". */
  function Precedes<T>(before: (T, T) -> bool, s: seq<T>, x: T): (f: int --> bool)
    ensures forall k | 0 <= k < |s| :: f.requires(k) && f(k) == before(x, s[k])
  {
    j requires 0 <= j < |s| => before(x, s[j])
  }

  /** Where binary search sends x. */
  function Slot<T>(before: (T, T) -> bool, s: seq<T>, x: T): (i: nat)
    ensures i <= |s|
    ensures (i == 0 || !before(x, s[i - 1])) && (i == |s| || before(x, s[i]))
  {
    Bisect(Precedes(before, s, x), 0, |s|)
  }

  function Place<T>(before: (T, T) -> bool, s: seq<T>, x: T): seq<T> {
    InsertAt(s, Slot(before, s, x), x)
  }

  /** The list that results when elements arrive in the given order. */
  function Listing<T>(before: (T, T) -> bool, arrivals: seq<T>): seq<T> {
    if arrivals == [] then []
    else Place(before, Listing(before, arrivals[..|arrivals| - 1]), arrivals[|arrivals| - 1])
  }

  /** The comparator is a strict total order on the elements of s. */
  ghost predicate StrictTotalOn<T(!new)>(before: (T, T) -> bool, s: seq<T>) {
    && (forall x, y | x in s && y in s && x != y :: before(x, y) <==> !before(y, x))
    && (forall x, y, z | x in s && y in s && z in s && x != y && y != z && before(x, y) && before(y, z) :: before(x, z))
  }

  /** Every way of walking the elements of s gives the same list. */
  ghost predicate OrderIndependent<T(!new)>(before: (T, T) -> bool, s: seq<T>) {
    forall a, b | Permutation(a, s) && Permutation(b, s) :: Listing(before, a) == Listing(before, b)
  }

  lemma Append<T>(before: (T, T) -> bool, arrivals: seq<T>, x: T)
    ensures Listing(before, arrivals + [x]) == Place(before, Listing(before, arrivals), x)
  {
    assert (arrivals + [x])[..|arrivals|] == arrivals;
  }

  /** Nothing is lost and nothing is added, whatever the comparator. */
  lemma {:induction false} ListingPermutation<T(!new)>(before: (T, T) -> bool, arrivals: seq<T>)
    ensures Permutation(Listing(before, arrivals), arrivals)
  {
    if arrivals != [] {
      var rest, x := arrivals[..|arrivals| - 1], arrivals[|arrivals| - 1];
      ListingPermutation(before, rest);
      InsertAtPermutation(Listing(before, rest), Slot(before, Listing(before, rest), x), x);
      assert arrivals == rest + [x];
    }
  }

  /** In a sorted list the search finds the boundary between smaller and larger. */
  lemma SlotSplits<T(!new)>(before: (T, T) -> bool, s: seq<T>, x: T)
    requires Sorted(before, s) && x !in s && StrictTotalOn(before, s + [x])
    ensures forall k | 0 <= k < Slot(before, s, x) :: before(s[k], x)
    ensures forall k | Slot(before, s, x) <= k < |s| :: before(x, s[k])
  {
    var i := Slot(before, s, x);
    assert forall y :: y in s + [x] <==> y in s || y == x;
    if i > 0 {
      var y := s[i - 1];
      assert before(y, x);
      forall k | 0 <= k < i ensures before(s[k], x) {
        assert k < i - 1 ==> before(s[k], y);
      }
    }
    if i < |s| {
      var y := s[i];
      assert before(x, y);
      forall k | i <= k < |s| ensures before(x, s[k]) {
        assert i < k ==> before(y, s[k]);
      }
    }
  }

  lemma {:induction false} ListingSorted<T(!new)>(before: (T, T) -> bool, arrivals: seq<T>)
    requires Distinct(arrivals) && StrictTotalOn(before, arrivals)
    ensures Sorted(before, Listing(before, arrivals))
  {
    if arrivals != [] {
      var rest, x := arrivals[..|arrivals| - 1], arrivals[|arrivals| - 1];
      var s := Listing(before, rest);
      assert forall y | y in rest :: y in arrivals;
      ListingSorted(before, rest);
      ListingPermutation(before, rest);
      PermutationMembers(s, rest);
      assert x !in s;
      assert forall y | y in s + [x] :: y in arrivals;
      SlotSplits(before, s, x);
      InsertAtSorted(before, s, Slot(before, s, x), x);
    }
  }

  lemma StrictTotalPermutation<T(!new)>(before: (T, T) -> bool, a: seq<T>, b: seq<T>)
    requires Permutation(a, b) && StrictTotalOn(before, a)
    ensures StrictTotalOn(before, b)
  {
    PermutationMembers(a, b);
  }

  /** Under a strict total order all walks of the same elements give one sorted list. */
  lemma ListingUnique<T(!new)>(before: (T, T) -> bool, a: seq<T>, b: seq<T>)
    requires Permutation(a, b) && Distinct(a) && StrictTotalOn(before, a)
    ensures Sorted(before, Listing(before, a))
    ensures Listing(before, a) == Listing(before, b)
  {
    DistinctPermutation(a, b);
    StrictTotalPermutation(before, a, b);
    ListingSorted(before, a);
    ListingSorted(before, b);
    ListingPermutation(before, a);
    ListingPermutation(before, b);
    SortedDistinctUnique(before, Listing(before, a), Listing(before, b), a);
  }

  lemma SortedDistinctUnique<T(!new)>(before: (T, T) -> bool, s: seq<T>, t: seq<T>, a: seq<T>)
    requires Permutation(s, a) && Permutation(s, t) && Distinct(a) && StrictTotalOn(before, a)
    requires Sorted(before, s) && Sorted(before, t)
    ensures s == t
  {
    // compare distinct elements only, so that the comparator's value on equal ones is irrelevant
    var strictly := (x, y) => x != y && before(x, y);
    PermutationMembers(s, a);
    DistinctPermutation(a, s);
    DistinctPermutation(s, t);
    SortedUnique(strictly, s, t);
  }

  /** x stands somewhere before y. */
  ghost predicate InOrder<T(!new)>(s: seq<T>, x: T, y: T) {
    exists i, j :: 0 <= i < j < |s| && s[i] == x && s[j] == y
  }

  /** Later arrivals never exchange elements already placed. */
  lemma PlaceKeepsOrder<T(!new)>(before: (T, T) -> bool, s: seq<T>, z: T, x: T, y: T)
    requires InOrder(s, x, y)
    ensures InOrder(Place(before, s, z), x, y)
  {
    var i, j :| 0 <= i < j < |s| && s[i] == x && s[j] == y;
    var p := Slot(before, s, z);
    var i', j' := if i < p then i else i + 1, if j < p then j else j + 1;
    InsertAtIndex(s, p, z, i');
    InsertAtIndex(s, p, z, j');
  }

  lemma {:induction false} ListingKeepsOrder<T(!new)>(before: (T, T) -> bool, first: seq<T>, rest: seq<T>, x: T, y: T)
    requires InOrder(Listing(before, first), x, y)
    ensures InOrder(Listing(before, first + rest), x, y)
  {
    if rest == [] {
      assert first + rest == first;
    } else {
      var init, z := rest[..|rest| - 1], rest[|rest| - 1];
      ListingKeepsOrder(before, first, init, x, y);
      assert first + rest == (first + init) + [z];
      Append(before, first + init, z);
      PlaceKeepsOrder(before, Listing(before, first + init), z, x, y);
    }
  }

  lemma ListingOfPair<T(!new)>(before: (T, T) -> bool, x: T, y: T)
    ensures Listing(before, [x, y]) == if before(y, x) then [y, x] else [x, y]
  {
    Append(before, [], x);
    Append(before, [x], y);
    assert [] + [x] == [x] && [x] + [y] == [x, y];
    assert Listing(before, [x]) == [x];
  }

  /** Two elements walked first end in the order the comparator gives them. */
  lemma PairFirst<T(!new)>(before: (T, T) -> bool, x: T, y: T, rest: seq<T>)
    ensures before(y, x) ==> InOrder(Listing(before, [x, y] + rest), y, x)
    ensures !before(y, x) ==> InOrder(Listing(before, [x, y] + rest), x, y)
  {
    ListingOfPair(before, x, y);
    var s := Listing(before, [x, y]);
    assert s[0] in s && s[1] in s;
    assert InOrder(s, s[0], s[1]);
    ListingKeepsOrder(before, [x, y], rest, s[0], s[1]);
  }

  lemma TakeOut<T(!new)>(s: seq<T>, x: T) returns (rest: seq<T>)
    requires x in s
    ensures Permutation([x] + rest, s)
    ensures forall y | y in s && y != x :: y in rest
  {
    var i :| 0 <= i < |s| && s[i] == x;
    rest := s[..i] + s[i + 1..];
    assert s == s[..i] + [x] + s[i + 1..];
  }

  lemma MoveToFront<T(!new)>(s: seq<T>, x: T, y: T) returns (rest: seq<T>)
    requires x in s && y in s && x != y
    ensures Permutation([x, y] + rest, s) && Permutation([y, x] + rest, s)
  {
    var u := TakeOut(s, x);
    rest := TakeOut(u, y);
    assert [x, y] + rest == [x] + ([y] + rest);
    assert [y, x] + rest == [y] + ([x] + rest);
    assert multiset([x] + ([y] + rest)) == multiset([x] + u);
  }

  lemma OneWay<T(!new)>(s: seq<T>, x: T, y: T)
    requires Distinct(s)
    ensures !(InOrder(s, x, y) && InOrder(s, y, x))
  {
  }

  lemma IndependentInstance<T(!new)>(before: (T, T) -> bool, s: seq<T>, a: seq<T>)
    requires OrderIndependent(before, s) && Permutation(a, s)
    ensures Listing(before, a) == Listing(before, s)
  {
    assert Permutation(s, s);
  }

  lemma PairPlaced<T(!new)>(before: (T, T) -> bool, s: seq<T>, x: T, y: T)
    requires OrderIndependent(before, s) && x in s && y in s && x != y
    ensures before(y, x) ==> InOrder(Listing(before, s), y, x)
    ensures !before(y, x) ==> InOrder(Listing(before, s), x, y)
  {
    var rest := MoveToFront(s, x, y);
    IndependentInstance(before, s, [x, y] + rest);
    PairFirst(before, x, y, rest);
  }

  /** If the walk order does not matter, the common list orders each pair as the
      comparator does, in exactly one direction. */
  lemma IndependentPair<T(!new)>(before: (T, T) -> bool, s: seq<T>, x: T, y: T)
    requires Distinct(Listing(before, s)) && OrderIndependent(before, s) && x in s && y in s && x != y
    ensures before(x, y) <==> !before(y, x)
    ensures before(x, y) <==> InOrder(Listing(before, s), x, y)
  {
    PairPlaced(before, s, x, y);
    PairPlaced(before, s, y, x);
    OneWay(Listing(before, s), x, y);
  }

  lemma InOrderTransitive<T(!new)>(s: seq<T>, x: T, y: T, z: T)
    requires Distinct(s) && InOrder(s, x, y) && InOrder(s, y, z)
    ensures InOrder(s, x, z)
  {
  }

  lemma IndependentIsTotal<T(!new)>(before: (T, T) -> bool, s: seq<T>)
    requires Distinct(s) && OrderIndependent(before, s)
    ensures StrictTotalOn(before, s)
  {
    var l := Listing(before, s);
    ListingPermutation(before, s);
    DistinctPermutation(s, l);
    forall x, y | x in s && y in s && x != y ensures before(x, y) <==> !before(y, x) {
      IndependentPair(before, s, x, y);
    }
    forall x, y, z | x in s && y in s && z in s && x != y && y != z && before(x, y) && before(y, z)
      ensures before(x, z)
    {
      IndependentPair(before, s, x, y);
      IndependentPair(before, s, y, z);
      InOrderTransitive(l, x, y, z);
      if x == z { assert false; }
      IndependentPair(before, s, x, z);
    }
  }

  /** Walking distinct elements in any order gives one list exactly when the search
      predicate is a strict total order on them. */
  lemma IndependentExactly<T(!new)>(before: (T, T) -> bool, s: seq<T>)
    requires Distinct(s)
    ensures OrderIndependent(before, s) <==> StrictTotalOn(before, s)
  {
    if OrderIndependent(before, s) {
      IndependentIsTotal(before, s);
    }
    if StrictTotalOn(before, s) {
      forall a, b | Permutation(a, s) && Permutation(b, s)
        ensures Listing(before, a) == Listing(before, b)
      {
        DistinctPermutation(s, a);
        StrictTotalPermutation(before, s, a);
        ListingUnique(before, a, b);
      }
    }
  }
}
