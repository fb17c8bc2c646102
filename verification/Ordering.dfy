// Go's order on strings, and lists sorted under a comparator.
module Ordering {

  /** Go's `<` on strings: compare element by element, a proper prefix comes first. */
  predicate Less(a: string, b: string) {
    b != [] && (a == [] || a[0] < b[0] || (a[0] == b[0] && Less(a[1..], b[1..])))
  }

  lemma {:induction false} LessDiffers(a: string, b: string) returns (k: nat)
    requires Less(a, b)
    ensures k <= |a| && k < |b| && a[..k] == b[..k] && (k == |a| || a[k] < b[k])
  {
    k := 0;
    if a != [] && a[0] == b[0] {
      k := LessDiffers(a[1..], b[1..]);
      assert a[..k + 1] == [a[0]] + a[1..][..k] && b[..k + 1] == [b[0]] + b[1..][..k];
      k := k + 1;
    }
  }

  lemma {:induction false} DiffersLess(a: string, b: string, k: nat)
    requires k <= |a| && k < |b| && a[..k] == b[..k] && (k == |a| || a[k] < b[k])
    ensures Less(a, b)
  {
    if k > 0 {
      assert a[..k][0] == a[0] && b[..k][0] == b[0];
      assert a[1..][..k - 1] == a[..k][1..] && b[1..][..k - 1] == b[..k][1..];
      DiffersLess(a[1..], b[1..], k - 1);
    }
  }

  /** A string is less than another exactly if it is a proper prefix of it, or has the lesser
      character at the first place where they differ. */
  lemma LessExactly(a: string, b: string)
    ensures Less(a, b) <==>
      exists k: nat :: k <= |a| && k < |b| && a[..k] == b[..k] && (k == |a| || a[k] < b[k])
  {
    if Less(a, b) {
      var k := LessDiffers(a, b);
    }
    if k: nat :| k <= |a| && k < |b| && a[..k] == b[..k] && (k == |a| || a[k] < b[k]) {
      DiffersLess(a, b, k);
    }
  }

  lemma {:induction false} LessTrichotomy(a: string, b: string)
    ensures Less(a, b) || Less(b, a) || a == b
    ensures !(Less(a, b) && Less(b, a))
    ensures a == b ==> !Less(a, b)
  {
    if a != [] && b != [] {
      LessTrichotomy(a[1..], b[1..]);
      assert a == [a[0]] + a[1..] && b == [b[0]] + b[1..];
    }
  }

  lemma {:induction false} LessTransitive(a: string, b: string, c: string)
    requires Less(a, b) && Less(b, c)
    ensures Less(a, c)
  {
    if a != [] && a[0] == b[0] && b[0] == c[0] {
      LessTransitive(a[1..], b[1..], c[1..]);
    }
  }

  /** Every element comes strictly before every later one. */
  ghost predicate Sorted<T(!new)>(less: (T, T) -> bool, s: seq<T>) {
    forall i, j | 0 <= i < j < |s| :: less(s[i], s[j])
  }

  ghost predicate Distinct<T(!new)>(s: seq<T>) {
    forall i, j | 0 <= i < j < |s| :: s[i] != s[j]
  }

  /** Two lists hold the same elements the same number of times. */
  ghost predicate Permutation<T(!new)>(a: seq<T>, b: seq<T>) {
    multiset(a) == multiset(b)
  }

  lemma PermutationMembers<T(!new)>(a: seq<T>, b: seq<T>)
    requires Permutation(a, b)
    ensures |a| == |b|
    ensures forall x :: x in a <==> x in b
  {
    assert |multiset(a)| == |multiset(b)|;
    forall x ensures x in a <==> x in b {
      assert x in a <==> x in multiset(a);
      assert x in b <==> x in multiset(b);
    }
  }

  /** The comparator never orders two of the elements both ways. */
  ghost predicate Asymmetric<T(!new)>(less: (T, T) -> bool, s: seq<T>) {
    forall x, y | x in s && y in s :: !(less(x, y) && less(y, x))
  }

  lemma SortedHead<T(!new)>(less: (T, T) -> bool, a: seq<T>, b: seq<T>)
    requires a != [] && b != [] && a[0] in b && b[0] in a
    requires Sorted(less, a) && Sorted(less, b) && Asymmetric(less, a)
    ensures a[0] == b[0]
  {
  }

  lemma PermutationTail<T(!new)>(a: seq<T>, b: seq<T>)
    requires Permutation(a, b) && a != [] && b != [] && a[0] == b[0]
    ensures Permutation(a[1..], b[1..])
  {
    assert a == [a[0]] + a[1..] && b == [b[0]] + b[1..];
    assert multiset(a[1..]) == multiset(a) - multiset{a[0]};
    assert multiset(b[1..]) == multiset(b) - multiset{b[0]};
  }

  /** A list has one sorted arrangement: this is what makes a listing independent
      of the order in which a map is walked. */
  lemma {:induction false} SortedUnique<T(!new)>(less: (T, T) -> bool, a: seq<T>, b: seq<T>)
    requires Permutation(a, b) && Sorted(less, a) && Sorted(less, b)
    requires Asymmetric(less, a)
    ensures a == b
  {
    PermutationMembers(a, b);
    if a != [] {
      SortedHead(less, a, b);
      PermutationTail(a, b);
      assert forall x | x in a[1..] :: x in a;
      SortedUnique(less, a[1..], b[1..]);
      assert a == [a[0]] + a[1..] && b == [b[0]] + b[1..];
    }
  }

  function InsertAt<T>(s: seq<T>, i: nat, x: T): (r: seq<T>)
    requires i <= |s|
  {
    s[..i] + [x] + s[i..]
  }

  lemma InsertAtPermutation<T(!new)>(s: seq<T>, i: nat, x: T)
    requires i <= |s|
    ensures Permutation(InsertAt(s, i, x), s + [x])
  {
    assert s == s[..i] + s[i..];
  }

  lemma InsertAtIndex<T>(s: seq<T>, i: nat, x: T, k: nat)
    requires i <= |s| && k <= |s|
    ensures InsertAt(s, i, x)[k] == if k < i then s[k] else if k == i then x else s[k - 1]
  {
  }

  /** Inserting between the smaller and the larger elements keeps a list sorted. */
  lemma InsertAtSorted<T(!new)>(less: (T, T) -> bool, s: seq<T>, i: nat, x: T)
    requires i <= |s| && Sorted(less, s)
    requires forall k | 0 <= k < i :: less(s[k], x)
    requires forall k | i <= k < |s| :: less(x, s[k])
    ensures Sorted(less, InsertAt(s, i, x))
  {
  }

  lemma {:induction false} MultiplicityOne<T(!new)>(a: seq<T>, x: T)
    requires Distinct(a)
    ensures multiset(a)[x] <= 1
  {
    if a != [] {
      MultiplicityOne(a[1..], x);
      assert a == [a[0]] + a[1..];
      if a[0] == x {
        assert x !in a[1..];
        assert x !in multiset(a[1..]);
      }
    }
  }

  lemma DistinctPermutation<T(!new)>(a: seq<T>, b: seq<T>)
    requires Permutation(a, b) && Distinct(a)
    ensures Distinct(b)
  {
    forall i, j | 0 <= i < j < |b| ensures b[i] != b[j] {
      if b[i] == b[j] {
        assert b == b[..j] + [b[j]] + b[j + 1..];
        assert b[i] in b[..j];
        assert multiset(b)[b[j]] >= 2;
        MultiplicityOne(a, b[j]);
      }
    }
  }

  /** Lists without repetition over the same elements are permutations of each other. */
  lemma DistinctSameMembers<T(!new)>(a: seq<T>, b: seq<T>)
    requires Distinct(a) && Distinct(b) && forall x :: x in a <==> x in b
    ensures Permutation(a, b)
  {
    forall x ensures multiset(a)[x] == multiset(b)[x] {
      assert x in multiset(a) <==> x in a;
      assert x in multiset(b) <==> x in b;
      MultiplicityOne(a, x);
      MultiplicityOne(b, x);
    }
  }

  /** A walk of a set in some order: each element once. */
  ghost predicate Enumerates<T(!new)>(order: seq<T>, keys: set<T>) {
    if order == [] then keys == {}
    else
      var last := order[|order| - 1];
      last in keys && Enumerates(order[..|order| - 1], keys - {last})
  }

  /** A walk in progress: the elements in `left` are still to come. */
  ghost predicate Walking<T(!new)>(order: seq<T>, all: set<T>, left: set<T>) {
    left <= all && |order| + |left| == |all| && Enumerates(order, all - left)
  }

  lemma WalkNext<T(!new)>(order: seq<T>, all: set<T>, left: set<T>, k: T)
    requires Walking(order, all, left) && k in left
    ensures |order| < |all| && k !in all - left
    ensures Walking(order + [k], all, left - {k})
  {
    assert (order + [k])[..|order|] == order;
    assert all - (left - {k}) - {k} == all - left;
    assert |left - {k}| == |left| - 1;
  }

  lemma WalkEnds<T(!new)>(order: seq<T>, all: set<T>)
    requires Walking(order, all, {})
    ensures Enumerates(order, all) && |order| == |all|
  {
    assert all - {} == all;
  }

  lemma {:induction false} EnumeratesMembers<T(!new)>(order: seq<T>, keys: set<T>)
    requires Enumerates(order, keys)
    ensures Distinct(order) && |order| == |keys|
    ensures forall x :: x in order <==> x in keys
  {
    if order != [] {
      var rest, last := order[..|order| - 1], order[|order| - 1];
      EnumeratesMembers(rest, keys - {last});
      assert order == rest + [last];
    }
  }

  /** The walks of a set are the permutations of one of them. */
  lemma {:induction false} MembersEnumerate<T(!new)>(order: seq<T>, keys: set<T>)
    requires Distinct(order) && forall x :: x in order <==> x in keys
    ensures Enumerates(order, keys)
  {
    if order != [] {
      var rest, last := order[..|order| - 1], order[|order| - 1];
      assert order == rest + [last] && last in order;
      assert last !in rest;
      MembersEnumerate(rest, keys - {last});
    }
  }
}
