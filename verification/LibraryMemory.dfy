// The recipe map in memory against the one that a fresh start builds from disk, after an
// import of a new cookbook.
module LibraryMemory {
  import opened Recipes
  import opened Loader
  import opened Interleavings
  import opened FileTree
  import opened Library
  import opened LibrarySound
  import opened LibraryImports
  import opened LibraryDisk

  /** The workers that a fresh start runs. */
  ghost function Walks(fs: Files, core: Path): iset<Job> {
    iset job | Met(fs, core, job)
  }

  /** The recipe map in memory is one that a fresh start builds. */
  ghost predicate InMemory(sys: System, parse: Parser, fs: Files, core: Path, m: RecipeMap) {
    Built(DiskOf(sys, parse, fs, core), Walks(fs, core), m)
  }

  /** The core cookbook is beside the library, and no import is under way. */
  ghost predicate AtRest(fs: Files, core: Path) {
    Apart(LIBRARY, core) && Absent(fs, STAGING)
  }

  // ---- the roots ----

  lemma RootsBelow(fs: Files, core: Path, root: Path) returns (n: string)
    requires AtRest(fs, core) && IsRoot(fs, core, root) && root != core
    ensures n != ".new" && IsFile(fs, Current(n)) && root == Root(fs, n) && Under(Book(n), root)
  {
    n :| IsFile(fs, Current(n)) && root == Root(fs, n);
    assert n == ".new" ==> Under(STAGING, Current(n));
  }

  /** A change apart from a root's cookbook leaves the root and its walk as they were. */
  lemma SamePointer(a: Files, b: Files, n: string)
    requires SameBelow(a, b, Book(n))
    ensures IsFile(a, Current(n)) <==> IsFile(b, Current(n))
    ensures IsFile(a, Current(n)) ==> Root(a, n) == Root(b, n) && SameBelow(a, b, Root(a, n))
  {
    assert Under(Book(n), Current(n)) && Same(a, b, Current(n));
    if IsFile(a, Current(n)) {
      SameBelowNarrows(a, b, Book(n), Root(a, n));
    }
  }

  /** Outside cookbook n and staging, nothing differs. */
  ghost predicate OnlyBook(a: Files, b: Files, core: Path, n: string) {
    && SameBelow(a, b, core)
    && forall x | x != n && x != ".new" :: SameBelow(a, b, Book(x))
  }

  lemma OtherRootSame(a: Files, b: Files, core: Path, n: string, root: Path)
    requires AtRest(a, core) && OnlyBook(a, b, core, n) && IsRoot(a, core, root)
    requires IsFile(a, Current(n)) ==> root != Root(a, n)
    ensures SameBelow(a, b, root) && IsRoot(b, core, root)
  {
    if root != core {
      var x := RootsBelow(a, core, root);
      SamePointer(a, b, x);
    }
  }

  // ---- a new cookbook ----

  /** Loading some of what the walk of the imported cookbook meets, and how the workers
      started for it end. */
  ghost predicate LoadsSome(sys: System, parse: Parser, loaded: Files, core: Path, n: string, s: Shared,
                            jobs: seq<Job>, schedule: seq<nat>) {
    && IsFile(loaded, Current(n))
    && (forall job | job in jobs :: MetAt(loaded, Root(loaded, n), job))
    && Complete(DiskOf(sys, parse, loaded, core), s, jobs, schedule)
  }

  /** Loading all of it. */
  ghost predicate LoadsNew(sys: System, parse: Parser, loaded: Files, core: Path, n: string, s: Shared, jobs: seq<Job>,
                           schedule: seq<nat>) {
    && LoadsSome(sys, parse, loaded, core, n, s, jobs, schedule)
    && forall job | MetAt(loaded, Root(loaded, n), job) :: job in jobs
  }

  lemma NewWalks(fs: Files, after: Files, core: Path, n: string, job: Job)
    requires AtRest(fs, core) && AtRest(after, core) && OnlyBook(fs, after, core, n)
    requires !IsFile(fs, Current(n)) && IsFile(after, Current(n))
    ensures Met(after, core, job) <==> Met(fs, core, job) || MetAt(after, Root(after, n), job)
  {
    if Met(fs, core, job) {
      OtherRootSame(fs, after, core, n, job.root);
      assert Same(fs, after, job.root + job.elems) by { assert Under(job.root, job.root + job.elems); }
    }
    if Met(after, core, job) && job.root != Root(after, n) {
      OtherRootSame(after, fs, core, n, job.root);
      assert Same(after, fs, job.root + job.elems) by { assert Under(job.root, job.root + job.elems); }
    }
  }

  lemma SameBelowFlips(a: Files, b: Files, p: Path)
    requires SameBelow(a, b, p)
    ensures SameBelow(b, a, p)
  {
    assert forall q | Under(p, q) :: Same(a, b, q);
  }

  /** Workers of roots outside cookbook n find the same on both disks. */
  lemma OthersAgree(sys: System, parse: Parser, a: Files, b: Files, core: Path, n: string)
    requires AtRest(a, core) && OnlyBook(a, b, core, n) && !IsFile(a, Current(n))
    ensures forall job | job in Walks(a, core) :: Agree(DiskOf(sys, parse, a, core), DiskOf(sys, parse, b, core), job)
  {
    forall job | job in Walks(a, core) ensures Agree(DiskOf(sys, parse, a, core), DiskOf(sys, parse, b, core), job) {
      OtherRootSame(a, b, core, n, job.root);
      RootAgrees(sys, parse, a, b, core, job);
    }
  }

  lemma NewAgrees(sys: System, parse: Parser, loaded: Files, after: Files, core: Path, n: string, s: Shared,
                  jobs: seq<Job>, schedule: seq<nat>)
    requires SameBelow(loaded, after, Book(n)) && LoadsNew(sys, parse, loaded, core, n, s, jobs, schedule)
    ensures IsFile(after, Current(n))
    ensures forall job | job in jobs :: Agree(DiskOf(sys, parse, loaded, core), DiskOf(sys, parse, after, core), job)
    ensures forall job :: job in jobs <==> MetAt(after, Root(after, n), job)
  {
    SamePointer(loaded, after, n);
    forall job: Job | job.root == Root(after, n)
      ensures Agree(DiskOf(sys, parse, loaded, core), DiskOf(sys, parse, after, core), job)
      ensures MetAt(loaded, job.root, job) == MetAt(after, job.root, job)
    {
      RootAgrees(sys, parse, loaded, after, core, job);
    }
  }

  lemma AgreeJoins(a: Disk, b: Disk, c: Disk, jobs: iset<Job>)
    requires forall job | job in jobs :: Agree(a, b, job)
    requires forall job | job in jobs :: Agree(a, c, job)
    ensures forall job | job in jobs :: Agree(b, c, job)
  {
    forall job | job in jobs ensures Agree(b, c, job) {
      assert Agree(a, b, job) && Agree(a, c, job);
    }
  }

  /** Loading a cookbook that was not there keeps memory and disk the same. */
  lemma LoadKeepsMemory(sys: System, parse: Parser, fs: Files, loaded: Files, after: Files, core: Path, n: string,
                        s: Shared, jobs: seq<Job>, schedule: seq<nat>)
    requires AtRest(fs, core) && AtRest(after, core) && n != ".new"
    requires !IsFile(fs, Current(n)) && OnlyBook(fs, loaded, core, n) && OnlyBook(fs, after, core, n)
    requires SameBelow(loaded, after, Book(n)) && LoadsNew(sys, parse, loaded, core, n, s, jobs, schedule)
    requires InMemory(sys, parse, fs, core, s.recipes)
    ensures InMemory(sys, parse, after, core, Run(DiskOf(sys, parse, loaded, core), s, jobs, schedule).shared.recipes)
  {
    var d, e, g := DiskOf(sys, parse, fs, core), DiskOf(sys, parse, loaded, core), DiskOf(sys, parse, after, core);
    OthersAgree(sys, parse, fs, loaded, core, n);
    OthersAgree(sys, parse, fs, after, core, n);
    AgreeJoins(d, e, g, Walks(fs, core));
    NewAgrees(sys, parse, loaded, after, core, n, s, jobs, schedule);
    assert Walks(after, core) == Walks(fs, core) + Members(jobs) by {
      forall job ensures job in Walks(after, core) <==> job in Walks(fs, core) || job in jobs {
        NewWalks(fs, after, core, n, job);
      }
    }
    LoadAgreed(d, e, g, Walks(fs, core), s, jobs, schedule);
  }

  lemma LoadAgreed(d: Disk, e: Disk, g: Disk, before: iset<Job>, s: Shared, jobs: seq<Job>, schedule: seq<nat>)
    requires Built(d, before, s.recipes) && Complete(e, s, jobs, schedule)
    requires forall job | job in before :: Agree(d, e, job)
    requires forall job | job in before :: Agree(e, g, job)
    requires forall job | job in jobs :: Agree(e, g, job)
    ensures Built(g, before + Members(jobs), Run(e, s, jobs, schedule).shared.recipes)
  {
    BuiltAgrees(d, e, before, s.recipes);
    LoadExtends(e, before, s, jobs, schedule);
    assert forall job | job in before + Members(jobs) :: job in before || job in jobs;
    BuiltAgrees(e, g, before + Members(jobs), Run(e, s, jobs, schedule).shared.recipes);
  }

  /** The library as it is when the import loads the new recipes. */
  function AtLoad(fs: Files, archive: Files, f: Faults, m: Manifest): Files {
    InBook(Staged(fs, archive, f), m, f).fs
  }

  lemma ImportOnlyBook(sys: System, fs: Files, archive: Files, f: Faults, core: Path)
    requires Apart(LIBRARY, core) && Accepted(sys, fs, archive, f).Some?
    ensures var m := Accepted(sys, fs, archive, f).value;
      && OnlyBook(fs, AtLoad(fs, archive, f, m), core, m.name)
      && OnlyBook(fs, Import(sys, fs, archive, f).fs, core, m.name)
  {
    var m := Accepted(sys, fs, archive, f).value;
    forall x | x == core || exists b | b != m.name && b != ".new" :: x == Book(b)
      ensures SameBelow(fs, AtLoad(fs, archive, f, m), x) && SameBelow(fs, Import(sys, fs, archive, f).fs, x)
    {
      ImportOutside(sys, fs, archive, f, core, x);
    }
  }

  lemma ImportOutside(sys: System, fs: Files, archive: Files, f: Faults, core: Path, x: Path)
    requires Apart(LIBRARY, core) && Accepted(sys, fs, archive, f).Some?
    requires x == core || exists b | b != Accepted(sys, fs, archive, f).value.name && b != ".new" :: x == Book(b)
    ensures SameBelow(fs, AtLoad(fs, archive, f, Accepted(sys, fs, archive, f).value), x)
    ensures SameBelow(fs, Import(sys, fs, archive, f).fs, x)
  {
    var m, staged := Accepted(sys, fs, archive, f).value, Staged(fs, archive, f);
    if x != core {
      var b :| b != m.name && b != ".new" && x == Book(b);
      BooksApart(m.name, b);
      BooksApart(".new", b);
    }
    assert STAGING == Book(".new");
    StagedElsewhere(fs, archive, f, x);
    InBookElsewhere(staged, m, f, x);
    SameBelowJoins(fs, staged, AtLoad(fs, archive, f, m), x);
    ImportElsewhere(sys, fs, archive, f, x);
  }

  /** After importing a cookbook that was not in the library, the recipe map in memory is
      one that a fresh start builds from the new disk; also when the import fails because a
      plugin could not be copied, since all recipes have then been loaded. */
  lemma ImportKeepsMemory(sys: System, parse: Parser, fs: Files, archive: Files, f: Faults, core: Path, m: Manifest,
                          s: Shared, jobs: seq<Job>, schedule: seq<nat>)
    requires AtRest(fs, core) && Sound(sys, fs) && InMemory(sys, parse, fs, core, s.recipes)
    requires StartsLoading(sys, fs, archive, f) && f.unstage.Removed?
    requires Accepted(sys, fs, archive, f) == Some(m) && Absent(fs, Book(m.name))
    requires LoadsNew(sys, parse, AtLoad(fs, archive, f, m), core, m.name, s, jobs, schedule)
    ensures InMemory(sys, parse, Import(sys, fs, archive, f).fs, core,
                     Run(DiskOf(sys, parse, AtLoad(fs, archive, f, m), core), s, jobs, schedule).shared.recipes)
  {
    var loaded, after := AtLoad(fs, archive, f, m), Import(sys, fs, archive, f).fs;
    ImportOnlyBook(sys, fs, archive, f, core);
    StagingGone(sys, fs, archive, f);
    StagingApart(m.name);
    RemoveAllElsewhere(loaded, STAGING, f.unstage, Book(m.name));
    assert Under(Book(m.name), Current(m.name));
    LoadingImportLeaves(sys, fs, archive, f);
    LoadKeepsMemory(sys, parse, fs, loaded, after, core, m.name, s, jobs, schedule);
  }
}
