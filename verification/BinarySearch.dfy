// Go's sort.Search, the binary search every sorted listing is built with.
module BinarySearch {

  /** The index binary search ends on in [i, j), for any predicate, monotone or not. */
  function Bisect(f: int --> bool, i: nat, j: nat): (r: nat)
    requires i <= j && forall k | i <= k < j :: f.requires(k)
    ensures i <= r <= j
    ensures r == i || !f(r - 1)
    ensures r == j || f(r)
    decreases j - i
  {
    if i >= j then i
    else
      var h := (i + j) / 2;
      if f(h) then Bisect(f, i, h) else Bisect(f, h + 1, j)
  }

  /** Over every range the middle decides in which half the search ends, although the
      predicate need not be monotone. */
  lemma MiddleDecides(f: int --> bool, i: nat, j: nat)
    requires i < j && forall k | i <= k < j :: f.requires(k)
    ensures Bisect(f, i, j) <= (i + j) / 2 <==> f((i + j) / 2)
  {
  }

  /** For a monotone predicate bisection finds the smallest true index. */
  lemma BisectMonotone(f: int --> bool, n: nat)
    requires forall k | 0 <= k < n :: f.requires(k)
    requires forall a, b | 0 <= a <= b < n && f(a) :: f(b)
    ensures forall k | 0 <= k < n :: f(k) <==> Bisect(f, 0, n) <= k
  {
    var r := Bisect(f, 0, n);
    forall k | 0 <= k < n ensures f(k) <==> r <= k {
      if r <= k { assert f(r); } else { assert !f(r - 1); }
    }
  }

  /** sort.Search(n, f): half-open bisection of [0, n). */
  method Search(n: nat, f: int --> bool) returns (i: nat)
    requires forall k | 0 <= k < n :: f.requires(k)
    ensures i <= n && i == Bisect(f, 0, n)
    ensures (i == 0 || !f(i - 1)) && (i == n || f(i))
    ensures n > 0 ==> (i <= n / 2 <==> f(n / 2))
  {
    if n > 0 { MiddleDecides(f, 0, n); }
    i := 0;
    var j := n;
    while i < j
      invariant i <= j <= n
      invariant Bisect(f, i, j) == Bisect(f, 0, n)
    {
      var h := (i + j) / 2;
      if !f(h) {
        i := h + 1;
      } else {
        j := h;
      }
    }
  }
}
