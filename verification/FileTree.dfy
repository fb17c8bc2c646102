// A file system as a map from paths to nodes, and the operations the library uses. How an
// operation turns out is a parameter, so any of them may fail.
module FileTree {

  type Path = seq<string>

  datatype Node = Dir | File(text: string)

  type Files = map<Path, Node>

  /** How a recursive removal turns out: done, or failed with the path and some paths
      below it left. */
  datatype Removal = Removed | Failed(survivors: set<Path>)

  /** How writing a file turns out: a failure may leave the file as it was, or torn. */
  datatype Write = Written | Untouched | Torn(text: string)

  predicate Under(p: Path, q: Path) { p <= q }

  /** Neither path is below the other. */
  predicate Apart(p: Path, q: Path) { !Under(p, q) && !Under(q, p) }

  predicate IsDir(fs: Files, p: Path) { p in fs && fs[p] == Dir }

  predicate IsFile(fs: Files, p: Path) { p in fs && fs[p].File? }

  function RemoveAll(fs: Files, p: Path, r: Removal): Files {
    map q | q in fs && (!Under(p, q) || (r.Failed? && (q == p || q in r.survivors))) :: fs[q]
  }

  /** The paths below p, relative to p. */
  function Tree(fs: Files, p: Path): Files {
    map r | r in (set q | q in fs && Under(p, q) :: q[|p|..]) && p + r in fs :: fs[p + r]
  }

  /** Write a tree below p. */
  function Graft(fs: Files, p: Path, tree: Files): Files {
    fs + map q | q in (set r | r in tree :: p + r) && q[|p|..] in tree :: tree[q[|p|..]]
  }

  /** os.MkdirAll refuses to make a directory where a file is in the way. */
  predicate CanMkdir(fs: Files, p: Path) {
    forall k | 0 <= k <= |p| :: !IsFile(fs, p[..k])
  }

  /** Make p and the directories above it. */
  function MkdirAll(fs: Files, p: Path): Files {
    fs + map q | q in (set k | 0 <= k <= |p| :: p[..k]) && q !in fs :: Dir
  }

  /** os.Rename of a directory to a path that does not exist. */
  function Move(fs: Files, p: Path, q: Path): Files {
    Graft(RemoveAll(fs, p, Removed), q, Tree(fs, p))
  }

  /** Nothing is at or below p. */
  ghost predicate Absent(fs: Files, p: Path) {
    forall q | q in fs :: !Under(p, q)
  }

  /** Both file systems have the same at q. */
  predicate Same(a: Files, b: Files, q: Path) {
    (q in a <==> q in b) && (q in a ==> a[q] == b[q])
  }

  /** Both file systems have the same at and below p. */
  ghost predicate SameBelow(a: Files, b: Files, p: Path) {
    forall q | Under(p, q) :: Same(a, b, q)
  }

  lemma SameBelowJoins(a: Files, b: Files, c: Files, p: Path)
    requires SameBelow(a, b, p) && SameBelow(b, c, p)
    ensures SameBelow(a, c, p)
  {
    forall q | Under(p, q) ensures Same(a, c, q) {
      assert Same(a, b, q) && Same(b, c, q);
    }
  }

  lemma SameBelowNarrows(a: Files, b: Files, p: Path, q: Path)
    requires SameBelow(a, b, p) && Under(p, q)
    ensures SameBelow(a, b, q)
  {
  }

  lemma AbsentBelow(a: Files, b: Files, p: Path)
    requires SameBelow(a, b, p)
    ensures Absent(a, p) <==> Absent(b, p)
  {
    assert forall q | Under(p, q) :: Same(a, b, q);
  }

  lemma ApartBelow(p: Path, x: Path, q: Path)
    requires Apart(p, x) && Under(x, q)
    ensures !Under(p, q)
  {
  }

  // ---- each operation changes only what is below its path ----

  lemma RemoveAllElsewhere(fs: Files, p: Path, r: Removal, x: Path)
    requires Apart(p, x)
    ensures SameBelow(fs, RemoveAll(fs, p, r), x)
  {
    forall q | Under(x, q) ensures Same(fs, RemoveAll(fs, p, r), q) {
      ApartBelow(p, x, q);
    }
  }

  lemma GraftAt(fs: Files, p: Path, tree: Files, q: Path)
    ensures !Under(p, q) ==> Same(fs, Graft(fs, p, tree), q)
    ensures Under(p, q) && q[|p|..] in tree ==> q in Graft(fs, p, tree) && Graft(fs, p, tree)[q] == tree[q[|p|..]]
    ensures Under(p, q) && q[|p|..] !in tree ==> Same(fs, Graft(fs, p, tree), q)
  {
    var s := set r | r in tree :: p + r;
    if q in s {
      var r :| r in tree && q == p + r;
      assert q[|p|..] == r;
    }
    if Under(p, q) && q[|p|..] in tree {
      assert q == p + q[|p|..];
      assert q in s;
    }
  }

  lemma GraftElsewhere(fs: Files, p: Path, tree: Files, x: Path)
    requires Apart(p, x)
    ensures SameBelow(fs, Graft(fs, p, tree), x)
  {
    forall q | Under(x, q) ensures Same(fs, Graft(fs, p, tree), q) {
      ApartBelow(p, x, q);
      GraftAt(fs, p, tree, q);
    }
  }

  lemma MkdirAllElsewhere(fs: Files, p: Path, x: Path)
    requires !Under(x, p)
    ensures SameBelow(fs, MkdirAll(fs, p), x)
  {
    forall q | Under(x, q) ensures Same(fs, MkdirAll(fs, p), q) {
      assert forall k | 0 <= k <= |p| :: q == p[..k] ==> Under(x, p);
    }
  }

  lemma MkdirAllMakes(fs: Files, p: Path)
    requires CanMkdir(fs, p)
    ensures IsDir(MkdirAll(fs, p), p)
  {
    assert p[..|p|] == p && !IsFile(fs, p[..|p|]);
  }

  lemma TreeAt(fs: Files, p: Path, r: Path)
    ensures r in Tree(fs, p) <==> p + r in fs
    ensures r in Tree(fs, p) ==> Tree(fs, p)[r] == fs[p + r]
  {
    var s := set q | q in fs && Under(p, q) :: q[|p|..];
    if p + r in fs {
      assert Under(p, p + r) && (p + r)[|p|..] == r;
      assert r in s;
    }
  }

  lemma MoveElsewhere(fs: Files, p: Path, q: Path, x: Path)
    requires Apart(p, x) && Apart(q, x)
    ensures SameBelow(fs, Move(fs, p, q), x)
  {
    RemoveAllElsewhere(fs, p, Removed, x);
    GraftElsewhere(RemoveAll(fs, p, Removed), q, Tree(fs, p), x);
    SameBelowJoins(fs, RemoveAll(fs, p, Removed), Move(fs, p, q), x);
  }

  /** Making a directory makes it and all above it, unless they are there, and nothing else. */
  lemma MadeExactly(fs: Files, p: Path, q: Path)
    ensures q in MkdirAll(fs, p) <==> q in fs || q <= p
    ensures q in fs ==> q in MkdirAll(fs, p) && MkdirAll(fs, p)[q] == fs[q]
    ensures q !in fs && q <= p ==> q in MkdirAll(fs, p) && MkdirAll(fs, p)[q] == Dir
  {
    if q <= p { assert q == p[..|q|]; }
  }

  /** A move takes everything from the old place to the new one, and touches nothing else. */
  lemma MovedExactly(fs: Files, p: Path, q: Path, x: Path)
    requires Apart(p, q) && Absent(fs, q)
    ensures var m := Move(fs, p, q);
      && (p <= x ==> x !in m)
      && (q <= x ==> (x in m <==> p + x[|q|..] in fs) && (x in m ==> m[x] == fs[p + x[|q|..]]))
      && (!(p <= x) && !(q <= x) ==> (x in m <==> x in fs) && (x in m ==> m[x] == fs[x]))
  {
    var left := RemoveAll(fs, p, Removed);
    GraftAt(left, q, Tree(fs, p), x);
    if q <= x {
      TreeAt(fs, p, x[|q|..]);
      assert !Under(p, x) || x !in left;
    }
  }

  /** After a move the tree is at the new place, unchanged. */
  lemma MovedTree(fs: Files, p: Path, q: Path)
    requires Apart(p, q) && Absent(fs, q)
    ensures Tree(Move(fs, p, q), q) == Tree(fs, p)
  {
    var m := Move(fs, p, q);
    forall r ensures r in Tree(m, q) <==> r in Tree(fs, p)
             ensures r in Tree(m, q) ==> Tree(m, q)[r] == Tree(fs, p)[r] {
      TreeAt(m, q, r);
      GraftAt(RemoveAll(fs, p, Removed), q, Tree(fs, p), q + r);
      assert (q + r)[|q|..] == r && Under(q, q + r);
    }
  }

  /** Trees are equal exactly when the paths below hold the same. */
  lemma TreesAgree(a: Files, b: Files, p: Path)
    ensures Tree(a, p) == Tree(b, p) <==> SameBelow(a, b, p)
  {
    if Tree(a, p) == Tree(b, p) {
      forall q | Under(p, q) ensures Same(a, b, q) {
        assert q == p + q[|p|..];
        TreeAt(a, p, q[|p|..]);
        TreeAt(b, p, q[|p|..]);
      }
    }
    if SameBelow(a, b, p) {
      forall r ensures r in Tree(a, p) <==> r in Tree(b, p)
               ensures r in Tree(a, p) ==> Tree(a, p)[r] == Tree(b, p)[r] {
        TreeAt(a, p, r);
        TreeAt(b, p, r);
        assert Under(p, p + r) && Same(a, b, p + r);
      }
    }
  }
}
