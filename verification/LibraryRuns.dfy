// Every run of imports and deletes: the library stays sound, staging is gone on exit, and
// an installed version never changes until its cookbook's directory is removed.
module LibraryRuns {
  import opened Recipes
  import opened FileTree
  import opened Library
  import opened LibrarySound
  import opened LibraryImports

  datatype Op = ImportOp(archive: Files, faults: Faults) | DeleteOp(name: string, removal: Removal)

  function Apply(sys: System, fs: Files, op: Op): Files {
    match op
    case ImportOp(archive, f) => Import(sys, fs, archive, f).fs
    case DeleteOp(n, r) => Delete(fs, n, r)
  }

  function Run(sys: System, fs: Files, ops: seq<Op>): Files
    decreases |ops|
  {
    if ops == [] then fs else Run(sys, Apply(sys, fs, ops[0]), ops[1..])
  }

  /** The paths without which the pointer of cookbook n is not sound: the pointer, and of
      the version that it names the directory and what an import validates. */
  ghost function Needed(fs: Files, n: string): set<Path>
    requires IsFile(fs, Current(n))
  {
    var root := Version(n, Trim(fs[Current(n)].text));
    {Current(n), root, root + PLUGINS, root + ["recipes"], root + ["METADATA"]}
  }

  /** A delete keeps a sound library sound when it succeeds, when there is nothing to remove,
      or when it fails with all that the pointer needs still there. */
  ghost predicate DeleteKeeps(sys: System, fs: Files, n: string, r: Removal) {
    || n == ".new" || r.Removed? || Absent(fs, Book(n))
    || (Pointed(sys, fs, n) && Needed(fs, n) <= r.survivors)
  }

  ghost predicate OpKeeps(sys: System, fs: Files, op: Op) {
    match op
    case ImportOp(archive, f) => KeepsSound(sys, fs, archive, f)
    case DeleteOp(n, r) => DeleteKeeps(sys, fs, n, r)
  }

  lemma DeleteElsewhere(sys: System, fs: Files, n: string, r: Removal, b: string)
    requires b != n
    ensures SameBelow(fs, Delete(fs, n, r), Book(b))
    ensures SoundBook(sys, fs, b) == SoundBook(sys, Delete(fs, n, r), b)
  {
    BooksApart(n, b);
    RemoveAllElsewhere(fs, Book(n), r, Book(b));
    SoundBookFrame(sys, fs, Delete(fs, n, r), b);
  }

  /** What a failed removal leaves of one path below the book. */
  lemma SurvivorsStay(fs: Files, n: string, survivors: set<Path>, q: Path)
    requires Under(Book(n), q) && q != Book(n)
    ensures q in Delete(fs, n, Failed(survivors)) <==> q in fs && q in survivors
    ensures q in Delete(fs, n, Failed(survivors)) ==> Delete(fs, n, Failed(survivors))[q] == fs[q]
  {
  }

  lemma PointedNeeds(sys: System, fs: Files, n: string)
    requires Pointed(sys, fs, n)
    ensures forall q | q in Needed(fs, n) :: q in fs && Under(Book(n), q) && q != Book(n)
  {
    var root := Version(n, Trim(fs[Current(n)].text));
    assert Under(Book(n), root + PLUGINS) && Under(Book(n), root + ["recipes"]) && Under(Book(n), root + ["METADATA"]);
  }

  /** A failed removal leaves a sound pointer exactly when the pointer was sound and all that
      it needs has survived. */
  lemma FailedDeleteExactly(sys: System, fs: Files, n: string, survivors: set<Path>)
    ensures Pointed(sys, Delete(fs, n, Failed(survivors)), n) <==> Pointed(sys, fs, n) && Needed(fs, n) <= survivors
  {
    var after := Delete(fs, n, Failed(survivors));
    SurvivorsStay(fs, n, survivors, Current(n));
    if IsFile(fs, Current(n)) {
      var root := Version(n, Trim(fs[Current(n)].text));
      SurvivorsStay(fs, n, survivors, root);
      assert Under(Book(n), root + PLUGINS);
      assert Under(Book(n), root + ["recipes"]) && Under(Book(n), root + ["METADATA"]);
      SurvivorsStay(fs, n, survivors, root + PLUGINS);
      SurvivorsStay(fs, n, survivors, root + ["recipes"]);
      SurvivorsStay(fs, n, survivors, root + ["METADATA"]);
    }
    if Pointed(sys, after, n) {
      PointedNeeds(sys, after, n);
      assert Needed(after, n) == Needed(fs, n);
      forall q | q in Needed(fs, n) ensures q in survivors {
        SurvivorsStay(fs, n, survivors, q);
      }
    }
  }

  lemma DeleteSoundExactly(sys: System, fs: Files, n: string, r: Removal)
    requires Sound(sys, fs)
    ensures Sound(sys, Delete(fs, n, r)) <==> DeleteKeeps(sys, fs, n, r)
  {
    forall b | b != n && b != ".new" ensures SoundBook(sys, Delete(fs, n, r), b) {
      DeleteElsewhere(sys, fs, n, r, b);
    }
    assert r.Removed? ==> Absent(Delete(fs, n, r), Book(n));
    if r.Failed? && n != ".new" {
      FailedDeleteExactly(sys, fs, n, r.survivors);
      FailedDeleteLeaves(sys, fs, n, r);
    }
    assert n != ".new" ==> (Sound(sys, Delete(fs, n, r)) <==> SoundBook(sys, Delete(fs, n, r), n));
  }

  lemma FailedDeleteLeaves(sys: System, fs: Files, n: string, r: Removal)
    requires r.Failed? && SoundBook(sys, fs, n)
    ensures Absent(Delete(fs, n, r), Book(n)) <==> Absent(fs, Book(n))
  {
    if !Absent(fs, Book(n)) {
      assert Book(n) in Delete(fs, n, r) && Under(Book(n), Book(n));
    }
  }

  ghost predicate AlwaysSound(sys: System, fs: Files, ops: seq<Op>)
    decreases |ops|
  {
    Sound(sys, fs) && (ops != [] ==> AlwaysSound(sys, Apply(sys, fs, ops[0]), ops[1..]))
  }

  ghost predicate EachKeeps(sys: System, fs: Files, ops: seq<Op>)
    decreases |ops|
  {
    ops == [] || (OpKeeps(sys, fs, ops[0]) && EachKeeps(sys, Apply(sys, fs, ops[0]), ops[1..]))
  }

  lemma OpSoundExactly(sys: System, fs: Files, op: Op)
    requires Sound(sys, fs)
    ensures Sound(sys, Apply(sys, fs, op)) <==> OpKeeps(sys, fs, op)
  {
    match op
    case ImportOp(archive, f) => ImportSoundExactly(sys, fs, archive, f);
    case DeleteOp(n, r) => DeleteSoundExactly(sys, fs, n, r);
  }

  /** Over any run of imports and deletes with any failures, from a sound library: it is
      sound after every operation exactly when each operation meets its condition. */
  lemma {:induction false} RunSoundExactly(sys: System, fs: Files, ops: seq<Op>)
    requires Sound(sys, fs)
    ensures AlwaysSound(sys, fs, ops) <==> EachKeeps(sys, fs, ops)
    decreases |ops|
  {
    if ops != [] {
      var next := Apply(sys, fs, ops[0]);
      OpSoundExactly(sys, fs, ops[0]);
      if Sound(sys, next) {
        RunSoundExactly(sys, next, ops[1..]);
      }
    }
  }

  /** Every removal an import ends with succeeds. */
  predicate Unstages(op: Op) {
    op.ImportOp? ==> op.faults.unstage.Removed?
  }

  /** Whatever else fails, no run leaves a staging directory behind. */
  lemma {:induction false} RunLeavesNoStaging(sys: System, fs: Files, ops: seq<Op>)
    requires Absent(fs, STAGING) && forall op | op in ops :: Unstages(op)
    ensures Absent(Run(sys, fs, ops), STAGING)
    decreases |ops|
  {
    if ops != [] {
      var op := ops[0];
      assert Unstages(op);
      if op.ImportOp? { StagingGone(sys, fs, op.archive, op.faults); }
      RunLeavesNoStaging(sys, Apply(sys, fs, op), ops[1..]);
    }
  }

  /** The operation removes the directory of cookbook n. */
  ghost predicate Erases(sys: System, fs: Files, op: Op, n: string) {
    match op
    case ImportOp(archive, f) => CleansBook(sys, fs, archive, f, n)
    case DeleteOp(b, _) => b == n
  }

  ghost predicate NeverErased(sys: System, fs: Files, ops: seq<Op>, n: string)
    decreases |ops|
  {
    ops == [] || (!Erases(sys, fs, ops[0], n) && NeverErased(sys, Apply(sys, fs, ops[0]), ops[1..], n))
  }

  lemma OpKeepsVersion(sys: System, fs: Files, op: Op, n: string, v: string)
    requires n != ".new" && v != "CURRENT" && Exists(fs, Version(n, v)) && !Erases(sys, fs, op, n)
    ensures SameBelow(fs, Apply(sys, fs, op), Version(n, v))
  {
    match op
    case ImportOp(archive, f) => ImportKeepsVersion(sys, fs, archive, f, n, v);
    case DeleteOp(b, r) =>
      DeleteElsewhere(sys, fs, b, r, n);
      SameBelowNarrows(fs, Delete(fs, b, r), Book(n), Version(n, v));
  }

  /** Over any run with any failures, sound or not, an installed version's tree never
      changes until its cookbook's directory is removed. */
  lemma {:induction false} RunKeepsVersion(sys: System, fs: Files, ops: seq<Op>, n: string, v: string)
    requires n != ".new" && v != "CURRENT" && Exists(fs, Version(n, v)) && NeverErased(sys, fs, ops, n)
    ensures SameBelow(fs, Run(sys, fs, ops), Version(n, v))
    decreases |ops|
  {
    if ops != [] {
      var next := Apply(sys, fs, ops[0]);
      OpKeepsVersion(sys, fs, ops[0], n, v);
      RunKeepsVersion(sys, next, ops[1..], n, v);
      SameBelowJoins(fs, next, Run(sys, fs, ops), Version(n, v));
    }
  }
}
