// The recipe map in memory after an upgrade, against the one that a fresh start builds.
module LibraryUpgrades {
  import opened Recipes
  import opened Loader
  import opened Interleavings
  import opened FileTree
  import opened Library
  import opened LibrarySound
  import opened LibraryImports
  import opened LibraryDisk
  import opened LibraryMemory
  import opened LibraryDeletes
  import opened LibraryStarts

  // ---- loading over what an old version has left ----

  /** What the workers of the old version stored is stored over by those of the new one. */
  ghost predicate Covered(d: Disk, gone: iset<Job>, jobs: iset<Job>) {
    && (forall a | a in gone && Enters(d, a) :: exists b :: b in jobs && Enters(d, b) && KeyOf(d, b) == KeyOf(d, a))
    && (forall a | a in gone && Loads(d, a) :: exists b :: b in jobs && Claims(d, b, KeyOf(d, a), Iaas(a)))
  }

  /** The workers of two sets never enter the same key. */
  ghost predicate Strangers(d: Disk, xs: iset<Job>, ys: iset<Job>) {
    forall a, b | a in xs && b in ys && Enters(d, a) && Enters(d, b) :: KeyOf(d, a) != KeyOf(d, b)
  }

  /** A cell after a complete load: what some new worker loaded, if any claims it. */
  lemma CellAfterLoad(d: Disk, s: Shared, jobs: seq<Job>, schedule: seq<nat>, k: string, iaas: string)
    requires Complete(d, s, jobs, schedule)
    ensures var cell := Lookup(Run(d, s, jobs, schedule).shared.recipes, k, iaas);
      if exists b :: b in Members(jobs) && Claims(d, b, k, iaas)
      then exists b :: b in Members(jobs) && Claims(d, b, k, iaas) && cell == Some(Made(d, b))
      else cell == Lookup(s.recipes, k, iaas)
  {
    var world := Run(d, s, jobs, schedule);
    CellsAfter(d, s, jobs, schedule, k, iaas);
    if b :| b in Members(jobs) && Claims(d, b, k, iaas) {
      var w :| 0 <= w < |jobs| && jobs[w] == b;
      assert Stored(d, jobs, world.phases, w, k, iaas);
    }
    var cell := Lookup(world.shared.recipes, k, iaas);
    if w :| Stored(d, jobs, world.phases, w, k, iaas) && cell == Some(Made(d, jobs[w])) {
      assert jobs[w] in Members(jobs) && Claims(d, jobs[w], k, iaas);
    }
  }

  lemma CoveredKeys(d: Disk, stay: iset<Job>, gone: iset<Job>, s: Shared, jobs: seq<Job>, schedule: seq<nat>, k: string)
    requires Built(d, stay + gone, s.recipes) && Complete(d, s, jobs, schedule) && Covered(d, gone, Members(jobs))
    ensures KeyBuilt(d, stay + Members(jobs), Run(d, s, jobs, schedule).shared.recipes, k)
  {
    var m := Run(d, s, jobs, schedule).shared.recipes;
    LoadExtends(d, stay + gone, s, jobs, schedule);
    assert KeyBuilt(d, stay + gone + Members(jobs), m, k);
    if a :| a in stay + gone + Members(jobs) && Enters(d, a) && KeyOf(d, a) == k {
      if a !in stay + Members(jobs) {
        var b :| b in Members(jobs) && Enters(d, b) && KeyOf(d, b) == k;
        assert b in stay + Members(jobs);
      }
    }
  }

  lemma CoveredCells(d: Disk, stay: iset<Job>, gone: iset<Job>, s: Shared, jobs: seq<Job>, schedule: seq<nat>,
                     k: string, iaas: string)
    requires Built(d, stay + gone, s.recipes) && Complete(d, s, jobs, schedule) && Covered(d, gone, Members(jobs))
    ensures CellBuilt(d, stay + Members(jobs), Run(d, s, jobs, schedule).shared.recipes, k, iaas)
  {
    CellAfterLoad(d, s, jobs, schedule, k, iaas);
    assert CellBuilt(d, stay + gone, s.recipes, k, iaas);
    assert forall a | a in stay + Members(jobs) :: a in stay + gone || a in Members(jobs);
    if a :| a in stay + gone && Claims(d, a, k, iaas) && a !in stay {
      assert a in gone && exists b :: b in Members(jobs) && Claims(d, b, k, iaas);
    }
  }

  lemma BuiltMeansCovered(d: Disk, stay: iset<Job>, gone: iset<Job>, s: Shared, jobs: seq<Job>, schedule: seq<nat>,
                          a: Job)
    requires Built(d, stay + gone, s.recipes) && Complete(d, s, jobs, schedule) && Strangers(d, gone, stay)
    requires Built(d, stay + Members(jobs), Run(d, s, jobs, schedule).shared.recipes)
    requires a in gone && Enters(d, a)
    ensures exists b :: b in Members(jobs) && Enters(d, b) && KeyOf(d, b) == KeyOf(d, a)
    ensures Loads(d, a) ==> exists b :: b in Members(jobs) && Claims(d, b, KeyOf(d, a), Iaas(a))
  {
    var m, k := Run(d, s, jobs, schedule).shared.recipes, KeyOf(d, a);
    LoadExtends(d, stay + gone, s, jobs, schedule);
    assert a in stay + gone + Members(jobs);
    assert KeyBuilt(d, stay + gone + Members(jobs), m, k) && KeyBuilt(d, stay + Members(jobs), m, k);
    if Loads(d, a) {
      var iaas := Iaas(a);
      CellAfterLoad(d, s, jobs, schedule, k, iaas);
      assert a in stay + gone && Claims(d, a, k, iaas);
      assert CellBuilt(d, stay + gone, s.recipes, k, iaas) && CellBuilt(d, stay + Members(jobs), m, k, iaas);
    }
  }

  /** Loading a new version over an old one leaves what a fresh start builds exactly when
      the new version stores over all that the old one has stored. */
  lemma LoadOverExactly(d: Disk, stay: iset<Job>, gone: iset<Job>, s: Shared, jobs: seq<Job>, schedule: seq<nat>)
    requires Built(d, stay + gone, s.recipes) && Complete(d, s, jobs, schedule) && Strangers(d, gone, stay)
    ensures Built(d, stay + Members(jobs), Run(d, s, jobs, schedule).shared.recipes) <==>
      Covered(d, gone, Members(jobs))
  {
    var m := Run(d, s, jobs, schedule).shared.recipes;
    if Covered(d, gone, Members(jobs)) {
      forall k ensures KeyBuilt(d, stay + Members(jobs), m, k) {
        CoveredKeys(d, stay, gone, s, jobs, schedule, k);
      }
      forall k, iaas ensures CellBuilt(d, stay + Members(jobs), m, k, iaas) {
        CoveredCells(d, stay, gone, s, jobs, schedule, k, iaas);
      }
    }
    if Built(d, stay + Members(jobs), m) {
      forall a | a in gone && Enters(d, a)
        ensures exists b :: b in Members(jobs) && Enters(d, b) && KeyOf(d, b) == KeyOf(d, a)
      {
        BuiltMeansCovered(d, stay, gone, s, jobs, schedule, a);
      }
      forall a | a in gone && Loads(d, a) ensures exists b :: b in Members(jobs) && Claims(d, b, KeyOf(d, a), Iaas(a)) {
        BuiltMeansCovered(d, stay, gone, s, jobs, schedule, a);
      }
    }
  }

  // ---- an upgrade ----

  /** The workers that a start runs for cookbook n, and all others. */
  ghost function OwnWalk(fs: Files, n: string): iset<Job> {
    iset job | IsFile(fs, Current(n)) && MetAt(fs, Root(fs, n), job)
  }

  ghost function OtherWalks(fs: Files, core: Path, n: string): iset<Job> {
    iset job | Met(fs, core, job) && (IsFile(fs, Current(n)) ==> job.root != Root(fs, n))
  }

  lemma WalksSplit(fs: Files, core: Path, n: string)
    ensures Walks(fs, core) == OtherWalks(fs, core, n) + OwnWalk(fs, n)
  {
  }

  /** The other cookbooks' workers are the same before and after. */
  lemma OthersStay(a: Files, b: Files, core: Path, n: string, job: Job)
    requires AtRest(a, core) && AtRest(b, core) && OnlyBook(a, b, core, n) && job in OtherWalks(a, core, n)
    ensures job in OtherWalks(b, core, n) && SameBelow(a, b, job.root)
  {
    OtherRootSame(a, b, core, n, job.root);
    assert Under(job.root, job.root + job.elems) && Same(a, b, job.root + job.elems);
    if IsFile(b, Current(n)) {
      assert Under(Book(n), Root(b, n));
      if job.root != core {
        var x := RootsBelow(a, core, job.root);
        BooksApart(x, n);
      }
    }
  }

  lemma OtherWalksSame(a: Files, b: Files, core: Path, n: string)
    requires AtRest(a, core) && AtRest(b, core) && OnlyBook(a, b, core, n)
    ensures OtherWalks(a, core, n) == OtherWalks(b, core, n)
    ensures forall job | job in OtherWalks(a, core, n) :: SameBelow(a, b, job.root)
  {
    forall job | job in OtherWalks(a, core, n) ensures job in OtherWalks(b, core, n) && SameBelow(a, b, job.root) {
      OthersStay(a, b, core, n, job);
    }
    forall job | job in OtherWalks(b, core, n) ensures job in OtherWalks(a, core, n) {
      OthersStay(b, a, core, n, job);
    }
  }

  /** With tidy names no other cookbook shares a key with n. */
  lemma NamesApart(sys: System, parse: Parser, fs: Files, core: Path, n: string)
    requires AtRest(fs, core) && Sound(sys, fs) && Tidy(sys, parse, fs, core) && IsFile(fs, Current(n)) && n != ".new"
    ensures Strangers(DiskOf(sys, parse, fs, core), OwnWalk(fs, n), OtherWalks(fs, core, n))
  {
    var d := DiskOf(sys, parse, fs, core);
    RootName(sys, parse, fs, core, n);
    forall a, b | a in OwnWalk(fs, n) && b in OtherWalks(fs, core, n) && Enters(d, a) && Enters(d, b)
      ensures KeyOf(d, a) != KeyOf(d, b)
    {
      RootNames(sys, parse, fs, core, b.root);
      if KeyOf(d, a) == KeyOf(d, b) {
        KeySplits(BookName(d, a), RecipeName(a), BookName(d, b), RecipeName(b));
      }
    }
  }

  lemma OldRootKept(sys: System, fs: Files, archive: Files, f: Faults, m: Manifest)
    requires Sound(sys, fs) && StartsLoading(sys, fs, archive, f) && Accepted(sys, fs, archive, f) == Some(m)
    requires Pointed(sys, fs, m.name)
    ensures var root := Root(fs, m.name);
      SameBelow(fs, AtLoad(fs, archive, f, m), root) && SameBelow(fs, Import(sys, fs, archive, f).fs, root)
  {
    var v, loaded, after := Trim(fs[Current(m.name)].text), AtLoad(fs, archive, f, m), Import(sys, fs, archive, f).fs;
    LoadingImportLeaves(sys, fs, archive, f);
    CurrentNotInstalled(sys, fs, m.name);
    assert Under(Version(m.name, v), Version(m.name, v));
    LoadingKeepsPointer(sys, fs, archive, f, m);
    ImportKeepsVersion(sys, fs, archive, f, m.name, v);
    SameBelowNarrows(loaded, after, Book(m.name), Version(m.name, v));
    SameBelowFlips(loaded, after, Version(m.name, v));
    SameBelowJoins(fs, after, loaded, Version(m.name, v));
  }

  lemma LoadingKeepsPointer(sys: System, fs: Files, archive: Files, f: Faults, m: Manifest)
    requires Sound(sys, fs) && StartsLoading(sys, fs, archive, f) && Accepted(sys, fs, archive, f) == Some(m)
    ensures !CleansBook(sys, fs, archive, f, m.name)
  {
    PointerPlaceable(sys, fs, archive, f);
    PlaceWrites(sys, Prepared(fs, archive, f, m), m, f);
  }

  /** After an upgrade of a cookbook, the recipe map in memory is one that a fresh start
      builds exactly when each recipe and IaaS of the version that the pointer named before
      is also one of the new version; others stay in memory although they are gone. */
  lemma UpgradeKeepsMemoryExactly(sys: System, parse: Parser, fs: Files, archive: Files, f: Faults, core: Path,
                                  m: Manifest, s: Shared, jobs: seq<Job>, schedule: seq<nat>)
    requires AtRest(fs, core) && Sound(sys, fs) && Tidy(sys, parse, fs, core)
    requires InMemory(sys, parse, fs, core, s.recipes)
    requires StartsLoading(sys, fs, archive, f) && f.unstage.Removed?
    requires Accepted(sys, fs, archive, f) == Some(m) && Pointed(sys, fs, m.name)
    requires LoadsNew(sys, parse, AtLoad(fs, archive, f, m), core, m.name, s, jobs, schedule)
    ensures var d := DiskOf(sys, parse, AtLoad(fs, archive, f, m), core);
      InMemory(sys, parse, Import(sys, fs, archive, f).fs, core, Run(d, s, jobs, schedule).shared.recipes)
      <==> Covered(d, OwnWalk(fs, m.name), Members(jobs))
  {
    var n, loaded, after := m.name, AtLoad(fs, archive, f, m), Import(sys, fs, archive, f).fs;
    LoadingImportLeaves(sys, fs, archive, f);
    ImportOnlyBook(sys, fs, archive, f, core);
    StagingGone(sys, fs, archive, f);
    OldRootKept(sys, fs, archive, f, m);
    UpgradeDisks(sys, parse, fs, loaded, after, core, n, s, jobs, schedule);
  }

  lemma UpgradeDisks(sys: System, parse: Parser, fs: Files, loaded: Files, after: Files, core: Path, n: string,
                     s: Shared, jobs: seq<Job>, schedule: seq<nat>)
    requires AtRest(fs, core) && AtRest(after, core) && n != ".new"
    requires Sound(sys, fs) && Tidy(sys, parse, fs, core) && InMemory(sys, parse, fs, core, s.recipes)
    requires IsFile(fs, Current(n)) && OnlyBook(fs, loaded, core, n) && OnlyBook(fs, after, core, n)
    requires SameBelow(fs, loaded, Root(fs, n)) && SameBelow(loaded, after, Book(n))
    requires LoadsNew(sys, parse, loaded, core, n, s, jobs, schedule)
    ensures var e := DiskOf(sys, parse, loaded, core);
      InMemory(sys, parse, after, core, Run(e, s, jobs, schedule).shared.recipes)
      <==> Covered(e, OwnWalk(fs, n), Members(jobs))
  {
    var d, e, g := DiskOf(sys, parse, fs, core), DiskOf(sys, parse, loaded, core), DiskOf(sys, parse, after, core);
    var stay, gone := OtherWalks(fs, core, n), OwnWalk(fs, n);
    var m := Run(e, s, jobs, schedule).shared.recipes;
    NewAgrees(sys, parse, loaded, after, core, n, s, jobs, schedule);
    OtherWalksSame(fs, after, core, n);
    WalksSplit(fs, core, n);
    WalksSplit(after, core, n);
    assert OwnWalk(after, n) == Members(jobs);
    StayAgrees(sys, parse, fs, loaded, after, core, n);
    OldAgrees(sys, parse, fs, loaded, core, n);
    NamesApart(sys, parse, fs, core, n);
    StrangersAgree(d, e, gone, stay);
    BuiltAgrees(d, e, stay + gone, s.recipes);
    LoadOverExactly(e, stay, gone, s, jobs, schedule);
    BothBuilt(e, g, stay, Members(jobs), m);
  }

  lemma StayAgrees(sys: System, parse: Parser, fs: Files, loaded: Files, after: Files, core: Path, n: string)
    requires AtRest(fs, core) && IsFile(fs, Current(n)) && OnlyBook(fs, loaded, core, n) && OnlyBook(fs, after, core, n)
    ensures var d, e, g := DiskOf(sys, parse, fs, core), DiskOf(sys, parse, loaded, core),
      DiskOf(sys, parse, after, core);
      forall job | job in OtherWalks(fs, core, n) :: Agree(d, e, job) && Agree(e, g, job) && Agree(g, e, job)
  {
    var d, e, g := DiskOf(sys, parse, fs, core), DiskOf(sys, parse, loaded, core), DiskOf(sys, parse, after, core);
    forall job | job in OtherWalks(fs, core, n) ensures Agree(d, e, job) && Agree(e, g, job) && Agree(g, e, job) {
      OtherRootSame(fs, loaded, core, n, job.root);
      OtherRootSame(fs, after, core, n, job.root);
      RootAgrees(sys, parse, fs, loaded, core, job);
      RootAgrees(sys, parse, fs, after, core, job);
    }
  }

  lemma OldAgrees(sys: System, parse: Parser, fs: Files, loaded: Files, core: Path, n: string)
    requires IsFile(fs, Current(n)) && SameBelow(fs, loaded, Root(fs, n))
    ensures forall job | job in OwnWalk(fs, n) ::
      Agree(DiskOf(sys, parse, fs, core), DiskOf(sys, parse, loaded, core), job)
  {
    forall job | job in OwnWalk(fs, n)
      ensures Agree(DiskOf(sys, parse, fs, core), DiskOf(sys, parse, loaded, core), job)
    {
      RootAgrees(sys, parse, fs, loaded, core, job);
    }
  }

  lemma StrangersAgree(d: Disk, e: Disk, xs: iset<Job>, ys: iset<Job>)
    requires Strangers(d, xs, ys)
    requires (forall job | job in xs :: Agree(d, e, job)) && (forall job | job in ys :: Agree(d, e, job))
    ensures Strangers(e, xs, ys)
  {
    forall a, b | a in xs && b in ys && Enters(e, a) && Enters(e, b) ensures KeyOf(e, a) != KeyOf(e, b) {
      assert Agree(d, e, a) && Agree(d, e, b);
    }
  }

  lemma BothBuilt(e: Disk, g: Disk, stay: iset<Job>, own: iset<Job>, m: RecipeMap)
    requires forall job | job in stay :: Agree(e, g, job) && Agree(g, e, job)
    requires forall job | job in own :: Agree(e, g, job)
    ensures Built(e, stay + own, m) <==> Built(g, stay + own, m)
  {
    forall job | job in stay + own ensures Agree(e, g, job) && Agree(g, e, job) {
      if job !in stay { AgreeFlips(e, g, job); }
    }
    if Built(e, stay + own, m) { BuiltAgrees(e, g, stay + own, m); }
    if Built(g, stay + own, m) { BuiltAgrees(g, e, stay + own, m); }
  }

  lemma AgreeFlips(a: Disk, b: Disk, job: Job)
    requires Agree(a, b, job)
    ensures Agree(b, a, job)
  {
  }
}
