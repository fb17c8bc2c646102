// In-place insertion into the preallocated slices that hold sorted listings.
module SortedSlices {
  import opened Ordering
  import opened BinarySearch
  import opened Placement

  /** Grow the slice a[..l] by one, move a[i..l] up with copy(a[i+1:], a[i:]), and write x
      into the gap. */
  method InsertInto<T>(a: array<T>, l: nat, i: nat, x: T)
    requires i <= l < a.Length
    modifies a
    ensures a[..l + 1] == InsertAt(old(a[..l]), i, x)
  {
    ghost var was := a[..l];
    if i < l {
      forall k | i < k <= l {
        a[k] := a[k - 1];
      }
    }
    a[i] := x;
    forall k | 0 <= k <= l ensures a[k] == InsertAt(was, i, x)[k] {
      InsertAtIndex(was, i, x, k);
    }
  }

  method FindSlot<T>(before: (T, T) -> bool, s: seq<T>, x: T) returns (i: nat)
    ensures i == Slot(before, s, x)
  {
    i := Search(|s|, Precedes(before, s, x));
  }

  /** Place x into the sorted part a[..l] of a preallocated slice. */
  method PlaceInto<T(!new)>(before: (T, T) -> bool, a: array<T>, l: nat, x: T, ghost walk: seq<T>)
    requires l == |walk| < a.Length && a[..l] == Listing(before, walk)
    modifies a
    ensures a[..l + 1] == Listing(before, walk + [x])
  {
    var i := FindSlot(before, a[..l], x);
    InsertInto(a, l, i, x);
    Append(before, walk, x);
  }
}
