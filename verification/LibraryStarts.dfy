// Starting from a library: what NewCookbook needs to get through it, and that memory holds
// exactly what such a start builds.
module LibraryStarts {
  import opened Recipes
  import opened Loader
  import opened Interleavings
  import opened FileTree
  import opened Library
  import opened LibrarySound
  import opened LibraryImports
  import LibraryRuns
  import opened LibraryDisk
  import opened LibraryMemory
  import opened LibraryDeletes
  import opened Forgetting

  /** The start can read this library entry's pointer and walk the recipes below it. */
  ghost predicate OpenBook(fs: Files, n: string) {
    Exists(fs, Book(n)) ==> IsFile(fs, Current(n)) && Root(fs, n) + ["recipes"] in fs
  }

  /** NewCookbook reads every library entry; one that it can not read ends the start. */
  ghost predicate Opens(fs: Files) {
    forall n :: OpenBook(fs, n)
  }

  lemma SoundOpens(sys: System, fs: Files)
    requires Sound(sys, fs) && Absent(fs, STAGING)
    ensures Opens(fs)
  {
    forall n ensures OpenBook(fs, n) {
      if n != ".new" {
        assert SoundBook(sys, fs, n);
        SoundBookOpens(sys, fs, n);
      } else {
        assert STAGING == Book(n);
      }
    }
  }

  lemma SoundBookOpens(sys: System, fs: Files, n: string)
    requires SoundBook(sys, fs, n)
    ensures OpenBook(fs, n)
  {
  }

  /** After any run of imports and deletes whose failures leave no partial effects, the
      application can start. */
  lemma {:induction false} RunThenOpens(sys: System, fs: Files, ops: seq<LibraryRuns.Op>)
    requires Sound(sys, fs) && Absent(fs, STAGING)
    requires LibraryRuns.EachKeeps(sys, fs, ops) && forall op | op in ops :: LibraryRuns.Unstages(op)
    ensures Opens(LibraryRuns.Run(sys, fs, ops))
    decreases |ops|
  {
    if ops == [] {
      SoundOpens(sys, fs);
    } else {
      assert ops[0] in ops;
      LibraryRuns.OpSoundExactly(sys, fs, ops[0]);
      assert ops[..1] == [ops[0]];
      LibraryRuns.RunLeavesNoStaging(sys, fs, ops[..1]);
      RunThenOpens(sys, LibraryRuns.Apply(sys, fs, ops[0]), ops[1..]);
    }
  }

  // ---- memory and a fresh start ----

  /** No cookbook's name has a ':', and the core cookbook's name is not in the library. */
  ghost predicate Tidy(sys: System, parse: Parser, fs: Files, core: Path) {
    var d := DiskOf(sys, parse, fs, core);
    && (forall n | IsFile(fs, Current(n)) :: ':' !in n && (core in d.metadata ==> d.metadata[core].name != n))
    && (core in d.metadata ==> ':' !in d.metadata[core].name)
  }

  /** The name that a root's METADATA gives is that of its library entry. */
  lemma RootNames(sys: System, parse: Parser, fs: Files, core: Path, root: Path)
    requires AtRest(fs, core) && Sound(sys, fs) && Tidy(sys, parse, fs, core) && IsRoot(fs, core, root)
    requires root in DiskOf(sys, parse, fs, core).metadata
    ensures var name := DiskOf(sys, parse, fs, core).metadata[root].name;
      ':' !in name && (root != core ==> IsFile(fs, Current(name)) && root == Root(fs, name))
  {
    if root != core {
      var n := RootsBelow(fs, core, root);
      RootName(sys, parse, fs, core, n);
    }
  }

  lemma TidyUnclashing(sys: System, parse: Parser, fs: Files, core: Path)
    requires AtRest(fs, core) && Sound(sys, fs) && Tidy(sys, parse, fs, core)
    ensures Unclashing(DiskOf(sys, parse, fs, core), Walks(fs, core))
  {
    var d := DiskOf(sys, parse, fs, core);
    forall a, b | Met(fs, core, a) && Met(fs, core, b) ensures !Conflict(d, a, b) {
      if Loads(d, a) && Loads(d, b) && KeyOf(d, a) == KeyOf(d, b) && Iaas(a) == Iaas(b) {
        RootNames(sys, parse, fs, core, a.root);
        RootNames(sys, parse, fs, core, b.root);
        SameCellSameRecipe(d, a, b);
      }
    }
  }

  lemma SameCellSameRecipe(d: Disk, a: Job, b: Job)
    requires Loads(d, a) && Loads(d, b) && KeyOf(d, a) == KeyOf(d, b) && Iaas(a) == Iaas(b)
    requires ':' !in BookName(d, a) && ':' !in BookName(d, b)
    ensures BookName(d, a) == BookName(d, b)
    ensures a.root == b.root ==> Made(d, a) == Made(d, b)
  {
    KeySplits(BookName(d, a), RecipeName(a), BookName(d, b), RecipeName(b));
    assert a.elems[..3] == b.elems[..3];
  }

  /** A fresh start from this library: its workers, and an order in which they end. */
  ghost predicate Starts(sys: System, parse: Parser, fs: Files, core: Path, jobs: seq<Job>, schedule: seq<nat>) {
    (forall job :: job in jobs <==> Met(fs, core, job)) && Complete(DiskOf(sys, parse, fs, core), Empty, jobs, schedule)
  }

  /** A recipe map in memory that agrees with the disk equals the one that any fresh start
      builds, whatever the order of its workers. */
  lemma MemoryIsFresh(sys: System, parse: Parser, fs: Files, core: Path, m: RecipeMap, jobs: seq<Job>,
                      schedule: seq<nat>)
    requires AtRest(fs, core) && Sound(sys, fs) && Tidy(sys, parse, fs, core)
    requires InMemory(sys, parse, fs, core, m) && Starts(sys, parse, fs, core, jobs, schedule)
    ensures m == Run(DiskOf(sys, parse, fs, core), Empty, jobs, schedule).shared.recipes
  {
    FreshLoad(DiskOf(sys, parse, fs, core), jobs, schedule);
    assert Members(jobs) == Walks(fs, core);
    TidyUnclashing(sys, parse, fs, core);
    BuiltUnique(DiskOf(sys, parse, fs, core), Walks(fs, core), m,
                Run(DiskOf(sys, parse, fs, core), Empty, jobs, schedule).shared.recipes);
  }

  /** What a fresh start builds agrees with the disk. */
  lemma FreshIsMemory(sys: System, parse: Parser, fs: Files, core: Path, jobs: seq<Job>, schedule: seq<nat>)
    requires Starts(sys, parse, fs, core, jobs, schedule)
    ensures InMemory(sys, parse, fs, core, Run(DiskOf(sys, parse, fs, core), Empty, jobs, schedule).shared.recipes)
  {
    FreshLoad(DiskOf(sys, parse, fs, core), jobs, schedule);
    assert Members(jobs) == Walks(fs, core);
  }

  /** A fresh start reports an error exactly when a recipe that it meets does not load, in
      whatever order its workers end; an import does not look at these errors. */
  lemma FreshFailsExactly(sys: System, parse: Parser, fs: Files, core: Path, jobs: seq<Job>, schedule: seq<nat>)
    requires Starts(sys, parse, fs, core, jobs, schedule)
    ensures Run(DiskOf(sys, parse, fs, core), Empty, jobs, schedule).shared.errs != [] <==>
      exists job :: Met(fs, core, job) && Fails(DiskOf(sys, parse, fs, core), job)
  {
    var d := DiskOf(sys, parse, fs, core);
    ErrorsAfter(d, Empty, jobs, schedule);
    if job :| Met(fs, core, job) && Fails(d, job) {
      var w :| 0 <= w < |jobs| && jobs[w] == job;
      assert Run(d, Empty, jobs, schedule).phases[w] == Done;
    }
  }

  lemma PrefixSplits(n: string, b: string, r: string)
    requires ':' !in n && ':' !in b && Prefixed(n, b + ":" + r)
    ensures n == b
  {
    var k := b + ":" + r;
    assert k[..|n| + 1] == n + ":";
    assert k == n + ":" + k[|n| + 1..];
    KeySplits(n, k[|n| + 1..], b, r);
  }

  /** With tidy names, a delete drops the recipes of that cookbook and of no other. */
  lemma TidyKeysApart(sys: System, parse: Parser, fs: Files, core: Path, n: string)
    requires AtRest(fs, core) && Sound(sys, fs) && Tidy(sys, parse, fs, core) && IsFile(fs, Current(n))
    ensures KeysApart(sys, parse, fs, core, n)
  {
    var d := DiskOf(sys, parse, fs, core);
    assert Under(Book(n), Root(fs, n));
    forall job | Met(fs, core, job) && !Under(Book(n), job.root) && Enters(d, job) ensures !Prefixed(n, KeyOf(d, job)) {
      RootNames(sys, parse, fs, core, job.root);
      if Prefixed(n, KeyOf(d, job)) {
        PrefixSplits(n, BookName(d, job), RecipeName(job));
      }
    }
  }

  /** Deleting an imported cookbook leaves in memory exactly what a fresh start builds. */
  lemma DeleteMatchesFresh(sys: System, parse: Parser, fs: Files, core: Path, n: string, m: RecipeMap,
                           jobs: seq<Job>, schedule: seq<nat>)
    requires AtRest(fs, core) && Sound(sys, fs) && Tidy(sys, parse, fs, core) && IsFile(fs, Current(n)) && n != ".new"
    requires InMemory(sys, parse, fs, core, m) && Starts(sys, parse, Delete(fs, n, Removed), core, jobs, schedule)
    ensures Forget(m, n) == Run(DiskOf(sys, parse, Delete(fs, n, Removed), core), Empty, jobs, schedule).shared.recipes
  {
    var after := Delete(fs, n, Removed);
    TidyKeysApart(sys, parse, fs, core, n);
    DeleteKeepsMemoryExactly(sys, parse, fs, core, n, m);
    LibraryRuns.DeleteSoundExactly(sys, fs, n, Removed);
    MemoryIsFresh(sys, parse, after, core, Forget(m, n), jobs, schedule);
  }

  /** Importing a cookbook that is not in the library yet leaves in memory exactly what a
      fresh start builds. */
  lemma ImportMatchesFresh(sys: System, parse: Parser, fs: Files, archive: Files, f: Faults, core: Path, m: Manifest,
                           s: Shared, newJobs: seq<Job>, ending: seq<nat>, jobs: seq<Job>, schedule: seq<nat>)
    requires AtRest(fs, core) && Sound(sys, fs) && InMemory(sys, parse, fs, core, s.recipes)
    requires StartsLoading(sys, fs, archive, f) && f.unstage.Removed?
    requires Accepted(sys, fs, archive, f) == Some(m) && Absent(fs, Book(m.name)) && Plain(m.version)
    requires LoadsNew(sys, parse, AtLoad(fs, archive, f, m), core, m.name, s, newJobs, ending)
    requires Tidy(sys, parse, Import(sys, fs, archive, f).fs, core)
    requires Starts(sys, parse, Import(sys, fs, archive, f).fs, core, jobs, schedule)
    ensures Run(DiskOf(sys, parse, AtLoad(fs, archive, f, m), core), s, newJobs, ending).shared.recipes
         == Run(DiskOf(sys, parse, Import(sys, fs, archive, f).fs, core), Empty, jobs, schedule).shared.recipes
  {
    ImportKeepsMemory(sys, parse, fs, archive, f, core, m, s, newJobs, ending);
    StagingGone(sys, fs, archive, f);
    WrittenKeeps(sys, fs, archive, f);
    MemoryIsFresh(sys, parse, Import(sys, fs, archive, f).fs, core,
                  Run(DiskOf(sys, parse, AtLoad(fs, archive, f, m), core), s, newJobs, ending).shared.recipes, jobs,
                    schedule);
  }

  /** An import of a plain version that starts loading keeps the library sound. */
  lemma WrittenKeeps(sys: System, fs: Files, archive: Files, f: Faults)
    requires Sound(sys, fs) && StartsLoading(sys, fs, archive, f) && Plain(Accepted(sys, fs, archive, f).value.version)
    ensures Sound(sys, Import(sys, fs, archive, f).fs)
  {
    ImportSoundExactly(sys, fs, archive, f);
  }
}
