// The recipe map in memory over whole runs of imports, upgrades and deletes.
module LibraryMemoryRuns {
  import opened Recipes
  import opened Loader
  import opened Interleavings
  import opened FileTree
  import opened Library
  import opened LibrarySound
  import opened LibraryImports
  import opened LibraryDisk
  import opened LibraryMemory
  import opened LibraryDeletes
  import opened LibraryStarts
  import opened LibraryUpgrades
  import opened Forgetting

  // ---- an import that changes a cookbook without loading it ----

  /** Each recipe that these workers store, those on the other disk store just so. */
  ghost predicate Within(d: Disk, xs: iset<Job>, g: Disk, ys: iset<Job>) {
    && (forall a | a in xs && Enters(d, a) :: exists b :: b in ys && Enters(g, b) && KeyOf(g, b) == KeyOf(d, a))
    && (forall a | a in xs && Loads(d, a) ::
          exists b :: b in ys && Claims(g, b, KeyOf(d, a), Iaas(a)) && Made(g, b) == Made(d, a))
  }

  ghost predicate SameStored(d: Disk, xs: iset<Job>, g: Disk, ys: iset<Job>) {
    Within(d, xs, g, ys) && Within(g, ys, d, xs)
  }

  lemma StoredEntry(d: Disk, g: Disk, stay: iset<Job>, gone: iset<Job>, own: iset<Job>, m: RecipeMap, a: Job)
    requires Built(d, stay + gone, m) && Built(g, stay + own, m) && a in gone && Enters(d, a)
    requires Strangers(d, gone, stay) && forall job | job in stay :: Agree(d, g, job)
    ensures exists b :: b in own && Enters(g, b) && KeyOf(g, b) == KeyOf(d, a)
  {
    var k := KeyOf(d, a);
    assert a in stay + gone && KeyBuilt(d, stay + gone, m, k) && KeyBuilt(g, stay + own, m, k);
    var b :| b in stay + own && Enters(g, b) && KeyOf(g, b) == k;
    assert b in stay ==> Agree(d, g, b);
  }

  lemma StoredCell(d: Disk, g: Disk, stay: iset<Job>, gone: iset<Job>, own: iset<Job>, m: RecipeMap, a: Job)
    requires Built(d, stay + gone, m) && Built(g, stay + own, m) && a in gone && Loads(d, a)
    requires Strangers(d, gone, stay) && Unclashing(d, gone) && forall job | job in stay :: Agree(d, g, job)
    ensures exists b :: b in own && Claims(g, b, KeyOf(d, a), Iaas(a)) && Made(g, b) == Made(d, a)
  {
    var k, iaas := KeyOf(d, a), Iaas(a);
    assert CellBuilt(d, stay + gone, m, k, iaas) && CellBuilt(g, stay + own, m, k, iaas);
    assert a in stay + gone && Claims(d, a, k, iaas);
    var x :| x in stay + gone && Claims(d, x, k, iaas) && Lookup(m, k, iaas) == Some(Made(d, x));
    assert x in gone && !Conflict(d, a, x);
    var b :| b in stay + own && Claims(g, b, k, iaas) && Lookup(m, k, iaas) == Some(Made(g, b));
    assert b in stay ==> Agree(d, g, b);
  }

  lemma BothBuiltWithin(d: Disk, g: Disk, stay: iset<Job>, gone: iset<Job>, own: iset<Job>, m: RecipeMap)
    requires Built(d, stay + gone, m) && Built(g, stay + own, m)
    requires Strangers(d, gone, stay) && Unclashing(d, gone) && forall job | job in stay :: Agree(d, g, job)
    ensures Within(d, gone, g, own)
  {
    forall a | a in gone && Enters(d, a) ensures exists b :: b in own && Enters(g, b) && KeyOf(g, b) == KeyOf(d, a) {
      StoredEntry(d, g, stay, gone, own, m, a);
    }
    forall a | a in gone && Loads(d, a)
      ensures exists b :: b in own && Claims(g, b, KeyOf(d, a), Iaas(a)) && Made(g, b) == Made(d, a)
    {
      StoredCell(d, g, stay, gone, own, m, a);
    }
  }

  /** A worker that enters a key, or claims a cell, has its like on the other disk. */
  lemma EntryWithin(d: Disk, xs: iset<Job>, g: Disk, ys: iset<Job>, stay: iset<Job>, a: Job)
    requires Within(d, xs, g, ys) && (forall job | job in stay :: Agree(d, g, job)) && a in stay + xs && Enters(d, a)
    ensures exists b :: b in stay + ys && Enters(g, b) && KeyOf(g, b) == KeyOf(d, a)
  {
    if a in stay {
      assert Agree(d, g, a) && a in stay + ys;
    } else {
      var b :| b in ys && Enters(g, b) && KeyOf(g, b) == KeyOf(d, a);
      assert b in stay + ys;
    }
  }

  lemma ClaimWithin(d: Disk, xs: iset<Job>, g: Disk, ys: iset<Job>, stay: iset<Job>, a: Job, k: string, iaas: string)
    requires Within(d, xs, g, ys) && forall job | job in stay :: Agree(d, g, job)
    requires a in stay + xs && Claims(d, a, k, iaas)
    ensures exists b :: b in stay + ys && Claims(g, b, k, iaas) && Made(g, b) == Made(d, a)
  {
    if a in stay {
      assert Agree(d, g, a) && a in stay + ys;
    } else {
      var b :| b in ys && Claims(g, b, k, iaas) && Made(g, b) == Made(d, a);
      assert b in stay + ys;
    }
  }

  lemma WithinBuilds(d: Disk, g: Disk, stay: iset<Job>, gone: iset<Job>, own: iset<Job>, m: RecipeMap)
    requires Built(d, stay + gone, m) && SameStored(d, gone, g, own)
    requires forall job | job in stay :: Agree(d, g, job) && Agree(g, d, job)
    ensures Built(g, stay + own, m)
  {
    forall k ensures KeyBuilt(g, stay + own, m, k) {
      assert KeyBuilt(d, stay + gone, m, k);
      if a :| a in stay + gone && Enters(d, a) && KeyOf(d, a) == k { EntryWithin(d, gone, g, own, stay, a); }
      if b :| b in stay + own && Enters(g, b) && KeyOf(g, b) == k { EntryWithin(g, own, d, gone, stay, b); }
    }
    forall k, iaas ensures CellBuilt(g, stay + own, m, k, iaas) {
      assert CellBuilt(d, stay + gone, m, k, iaas);
      if a :| a in stay + gone && Claims(d, a, k, iaas) && Lookup(m, k, iaas) == Some(Made(d, a)) {
        ClaimWithin(d, gone, g, own, stay, a, k, iaas);
      }
      if b :| b in stay + own && Claims(g, b, k, iaas) { ClaimWithin(g, own, d, gone, stay, b, k, iaas); }
    }
  }

  lemma StrangersHere(sys: System, parse: Parser, fs: Files, core: Path, n: string)
    requires InOrder(sys, parse, fs, core)
    ensures Strangers(DiskOf(sys, parse, fs, core), OwnWalk(fs, n), OtherWalks(fs, core, n))
    ensures Unclashing(DiskOf(sys, parse, fs, core), OwnWalk(fs, n))
  {
    TidyUnclashing(sys, parse, fs, core);
    WalksSplit(fs, core, n);
    if IsFile(fs, Current(n)) {
      assert n == ".new" ==> Under(STAGING, Current(n));
      NamesApart(sys, parse, fs, core, n);
    }
  }

  /** The library is one that a start can be trusted with: sound, no import under way, tidy. */
  ghost predicate InOrder(sys: System, parse: Parser, fs: Files, core: Path) {
    AtRest(fs, core) && Sound(sys, fs) && Tidy(sys, parse, fs, core)
  }

  /** Memory stays as it is while a cookbook changes on disk: it still agrees exactly when the
      workers of that cookbook would store the same as before. */
  lemma UnloadedChangeExactly(sys: System, parse: Parser, fs: Files, after: Files, core: Path, n: string, m: RecipeMap)
    requires InOrder(sys, parse, fs, core) && InOrder(sys, parse, after, core) && OnlyBook(fs, after, core, n)
    requires InMemory(sys, parse, fs, core, m)
    ensures InMemory(sys, parse, after, core, m) <==>
      SameStored(DiskOf(sys, parse, fs, core), OwnWalk(fs, n), DiskOf(sys, parse, after, core), OwnWalk(after, n))
  {
    var d, g := DiskOf(sys, parse, fs, core), DiskOf(sys, parse, after, core);
    var stay, gone, own := OtherWalks(fs, core, n), OwnWalk(fs, n), OwnWalk(after, n);
    OtherWalksSame(fs, after, core, n);
    WalksSplit(fs, core, n);
    WalksSplit(after, core, n);
    forall job | job in stay ensures Agree(d, g, job) && Agree(g, d, job) {
      RootAgrees(sys, parse, fs, after, core, job);
    }
    StrangersHere(sys, parse, fs, core, n);
    StrangersHere(sys, parse, after, core, n);
    if SameStored(d, gone, g, own) { WithinBuilds(d, g, stay, gone, own, m); }
    if Built(g, stay + own, m) {
      BothBuiltWithin(d, g, stay, gone, own, m);
      BothBuiltWithin(g, d, stay, own, gone, m);
    }
  }

  lemma AgreeingWithin(d: Disk, g: Disk, xs: iset<Job>)
    requires forall job | job in xs :: Agree(d, g, job)
    ensures Within(d, xs, g, xs)
  {
    forall a | a in xs && Enters(d, a) ensures a in xs && Enters(g, a) && KeyOf(g, a) == KeyOf(d, a) {
      assert Agree(d, g, a);
    }
    forall a | a in xs && Loads(d, a)
      ensures a in xs && Claims(g, a, KeyOf(d, a), Iaas(a)) && Made(g, a) == Made(d, a)
    {
      assert Agree(d, g, a);
    }
  }

  /** So it does when neither the pointer nor what it names has changed. */
  lemma SameRootSameStored(sys: System, parse: Parser, fs: Files, after: Files, core: Path, n: string)
    requires IsFile(fs, Current(n)) && Same(fs, after, Current(n)) && SameBelow(fs, after, Root(fs, n))
    ensures SameStored(DiskOf(sys, parse, fs, core), OwnWalk(fs, n), DiskOf(sys, parse, after, core), OwnWalk(after, n))
  {
    var d, g := DiskOf(sys, parse, fs, core), DiskOf(sys, parse, after, core);
    assert IsFile(after, Current(n)) && Root(after, n) == Root(fs, n);
    forall job: Job | job.root == Root(fs, n)
      ensures Agree(d, g, job) && Agree(g, d, job) && (job in OwnWalk(fs, n) <==> job in OwnWalk(after, n))
    {
      RootAgrees(sys, parse, fs, after, core, job);
    }
    assert OwnWalk(fs, n) == OwnWalk(after, n);
    AgreeingWithin(d, g, OwnWalk(fs, n));
    AgreeingWithin(g, d, OwnWalk(fs, n));
  }

  // ---- runs ----

  /** The library and the maps in memory. */
  datatype Life = Life(fs: Files, s: Shared)

  /** An import, with the workers it starts if it gets as far as loading and the order in
      which they end; or a delete. */
  datatype Act =
    | ImportAct(archive: Files, faults: Faults, jobs: seq<Job>, ending: seq<nat>)
    | DeleteAct(name: string)

  /** Imports remove their staging directory and load all that they start to load; deletes
      are of a cookbook and work. */
  ghost predicate Possible(sys: System, parse: Parser, core: Path, l: Life, a: Act) {
    match a
    case DeleteAct(n) => n != ".new"
    case ImportAct(archive, f, jobs, ending) =>
      && f.unstage.Removed?
      && (StartsLoading(sys, l.fs, archive, f) ==>
            var m := Accepted(sys, l.fs, archive, f).value;
            LoadsNew(sys, parse, AtLoad(l.fs, archive, f, m), core, m.name, l.s, jobs, ending))
  }

  ghost function Next(sys: System, parse: Parser, core: Path, l: Life, a: Act): Life
    requires Possible(sys, parse, core, l, a)
  {
    match a
    case DeleteAct(n) => Life(Delete(l.fs, n, Removed), l.s.(recipes := Forget(l.s.recipes, n)))
    case ImportAct(archive, f, jobs, ending) =>
      var fs := Import(sys, l.fs, archive, f).fs;
      if StartsLoading(sys, l.fs, archive, f) then
        var loaded := AtLoad(l.fs, archive, f, Accepted(sys, l.fs, archive, f).value);
        Life(fs, Run(DiskOf(sys, parse, loaded, core), l.s, jobs, ending).shared)
      else Life(fs, l.s)
  }

  /** Each act can happen and leaves the library in order. */
  ghost predicate Orderly(sys: System, parse: Parser, core: Path, l: Life, acts: seq<Act>)
    decreases |acts|
  {
    acts == [] ||
    (&& Possible(sys, parse, core, l, acts[0])
     && var next := Next(sys, parse, core, l, acts[0]);
        InOrder(sys, parse, next.fs, core) && Orderly(sys, parse, core, next, acts[1..]))
  }

  /** When memory still agrees after one act: a load stores over all that the version before
      has stored, an import that does not load leaves what a start would store, and no other
      cookbook has a key that starts with a deleted name. */
  ghost predicate Agrees(sys: System, parse: Parser, core: Path, l: Life, a: Act) {
    match a
    case DeleteAct(n) => KeysApart(sys, parse, l.fs, core, n)
    case ImportAct(archive, f, jobs, _) =>
      match Accepted(sys, l.fs, archive, f)
      case None => true
      case Some(m) =>
        var after := Import(sys, l.fs, archive, f).fs;
        if StartsLoading(sys, l.fs, archive, f)
        then Covered(DiskOf(sys, parse, AtLoad(l.fs, archive, f, m), core), OwnWalk(l.fs, m.name), Members(jobs))
        else SameStored(DiskOf(sys, parse, l.fs, core), OwnWalk(l.fs, m.name),
                        DiskOf(sys, parse, after, core), OwnWalk(after, m.name))
  }

  lemma ActAgreesExactly(sys: System, parse: Parser, core: Path, l: Life, a: Act)
    requires InOrder(sys, parse, l.fs, core) && InMemory(sys, parse, l.fs, core, l.s.recipes)
    requires Possible(sys, parse, core, l, a) && InOrder(sys, parse, Next(sys, parse, core, l, a).fs, core)
    ensures var next := Next(sys, parse, core, l, a);
      InMemory(sys, parse, next.fs, core, next.s.recipes) <==> Agrees(sys, parse, core, l, a)
  {
    match a
    case DeleteAct(n) => DeleteKeepsMemoryExactly(sys, parse, l.fs, core, n, l.s.recipes);
    case ImportAct(archive, f, jobs, ending) =>
      if Accepted(sys, l.fs, archive, f).None? {
        RefusedKeepsMemory(sys, parse, core, l.fs, archive, f, l.s.recipes);
      } else if StartsLoading(sys, l.fs, archive, f) {
        LoadAgreesExactly(sys, parse, core, l.fs, l.s, archive, f, jobs, ending, Accepted(sys, l.fs, archive, f).value);
      } else {
        var m := Accepted(sys, l.fs, archive, f).value;
        ImportOnlyBook(sys, l.fs, archive, f, core);
        UnloadedChangeExactly(sys, parse, l.fs, Import(sys, l.fs, archive, f).fs, core, m.name, l.s.recipes);
      }
  }

  lemma LoadAgreesExactly(sys: System, parse: Parser, core: Path, fs: Files, s: Shared, archive: Files, f: Faults,
                          jobs: seq<Job>, ending: seq<nat>, m: Manifest)
    requires InOrder(sys, parse, fs, core) && InMemory(sys, parse, fs, core, s.recipes)
    requires StartsLoading(sys, fs, archive, f) && f.unstage.Removed? && Accepted(sys, fs, archive, f) == Some(m)
    requires LoadsNew(sys, parse, AtLoad(fs, archive, f, m), core, m.name, s, jobs, ending)
    ensures var d := DiskOf(sys, parse, AtLoad(fs, archive, f, m), core);
      InMemory(sys, parse, Import(sys, fs, archive, f).fs, core, Run(d, s, jobs, ending).shared.recipes)
      <==> Covered(d, OwnWalk(fs, m.name), Members(jobs))
  {
    if Absent(fs, Book(m.name)) {
      ImportKeepsMemory(sys, parse, fs, archive, f, core, m, s, jobs, ending);
      NothingWalked(fs, m.name);
    } else {
      LoadedIsPointed(sys, fs, archive, f, m);
      UpgradeKeepsMemoryExactly(sys, parse, fs, archive, f, core, m, s, jobs, ending);
    }
  }

  lemma NothingWalked(fs: Files, n: string)
    requires Absent(fs, Book(n))
    ensures OwnWalk(fs, n) == iset{}
  {
    assert Under(Book(n), Current(n));
  }

  lemma LoadedIsPointed(sys: System, fs: Files, archive: Files, f: Faults, m: Manifest)
    requires Sound(sys, fs) && StartsLoading(sys, fs, archive, f) && Accepted(sys, fs, archive, f) == Some(m)
    requires !Absent(fs, Book(m.name))
    ensures Pointed(sys, fs, m.name)
  {
    LoadingImportLeaves(sys, fs, archive, f);
    assert SoundBook(sys, fs, m.name);
  }

  /** An archive that is not accepted changes nothing that a start meets. */
  lemma RefusedKeepsMemory(sys: System, parse: Parser, core: Path, fs: Files, archive: Files, f: Faults, m: RecipeMap)
    requires InOrder(sys, parse, fs, core) && InOrder(sys, parse, Import(sys, fs, archive, f).fs, core)
    requires Accepted(sys, fs, archive, f).None? && InMemory(sys, parse, fs, core, m)
    ensures InMemory(sys, parse, Import(sys, fs, archive, f).fs, core, m)
  {
    var after, d := Import(sys, fs, archive, f).fs, DiskOf(sys, parse, fs, core);
    RefusedOnlyStages(sys, fs, archive, f, core);
    assert OwnWalk(fs, ".new") == iset{} && OwnWalk(after, ".new") == iset{} by {
      assert Under(STAGING, Current(".new"));
    }
    assert SameStored(d, iset{}, DiskOf(sys, parse, after, core), iset{});
    UnloadedChangeExactly(sys, parse, fs, after, core, ".new", m);
  }

  lemma RefusedOnlyStages(sys: System, fs: Files, archive: Files, f: Faults, core: Path)
    requires Apart(LIBRARY, core) && Accepted(sys, fs, archive, f).None?
    ensures OnlyBook(fs, Import(sys, fs, archive, f).fs, core, ".new")
  {
    ImportElsewhere(sys, fs, archive, f, core);
    forall x | x != ".new" ensures SameBelow(fs, Import(sys, fs, archive, f).fs, Book(x)) {
      StagingApart(x);
      ImportElsewhere(sys, fs, archive, f, Book(x));
    }
  }

  ghost predicate AlwaysInMemory(sys: System, parse: Parser, core: Path, l: Life, acts: seq<Act>)
    requires Orderly(sys, parse, core, l, acts)
    decreases |acts|
  {
    && InMemory(sys, parse, l.fs, core, l.s.recipes)
    && (acts != [] ==> AlwaysInMemory(sys, parse, core, Next(sys, parse, core, l, acts[0]), acts[1..]))
  }

  ghost predicate EachAgrees(sys: System, parse: Parser, core: Path, l: Life, acts: seq<Act>)
    requires Orderly(sys, parse, core, l, acts)
    decreases |acts|
  {
    acts == [] ||
    (Agrees(sys, parse, core, l, acts[0])
     && EachAgrees(sys, parse, core, Next(sys, parse, core, l, acts[0]), acts[1..]))
  }

  /** Over any run of imports, upgrades and deletes that keeps the library in order, memory
      agrees with the disk after every act exactly when each act meets its condition. */
  lemma {:induction false} RunInMemoryExactly(sys: System, parse: Parser, core: Path, l: Life, acts: seq<Act>)
    requires InOrder(sys, parse, l.fs, core) && InMemory(sys, parse, l.fs, core, l.s.recipes)
    requires Orderly(sys, parse, core, l, acts)
    ensures AlwaysInMemory(sys, parse, core, l, acts) <==> EachAgrees(sys, parse, core, l, acts)
    decreases |acts|
  {
    if acts != [] {
      var next := Next(sys, parse, core, l, acts[0]);
      ActAgreesExactly(sys, parse, core, l, acts[0]);
      if InMemory(sys, parse, next.fs, core, next.s.recipes) {
        RunInMemoryExactly(sys, parse, core, next, acts[1..]);
      }
    }
  }

  ghost function RunActs(sys: System, parse: Parser, core: Path, l: Life, acts: seq<Act>): Life
    requires Orderly(sys, parse, core, l, acts)
    decreases |acts|
  {
    if acts == [] then l else RunActs(sys, parse, core, Next(sys, parse, core, l, acts[0]), acts[1..])
  }

  /** After such a run, memory is exactly what any start from the library then builds. */
  lemma {:induction false} RunMatchesFresh(sys: System, parse: Parser, core: Path, l: Life, acts: seq<Act>,
                                           jobs: seq<Job>, schedule: seq<nat>)
    requires InOrder(sys, parse, l.fs, core) && InMemory(sys, parse, l.fs, core, l.s.recipes)
    requires Orderly(sys, parse, core, l, acts) && EachAgrees(sys, parse, core, l, acts)
    requires Starts(sys, parse, RunActs(sys, parse, core, l, acts).fs, core, jobs, schedule)
    ensures var end := RunActs(sys, parse, core, l, acts);
      end.s.recipes == Run(DiskOf(sys, parse, end.fs, core), Empty, jobs, schedule).shared.recipes
    decreases |acts|
  {
    if acts == [] {
      MemoryIsFresh(sys, parse, l.fs, core, l.s.recipes, jobs, schedule);
    } else {
      ActAgreesExactly(sys, parse, core, l, acts[0]);
      RunMatchesFresh(sys, parse, core, Next(sys, parse, core, l, acts[0]), acts[1..], jobs, schedule);
    }
  }
}
