// Runs of a few operations on small archives, from any library that is in order.
module LibrarySteps {
  import opened Recipes
  import opened Loader
  import opened Interleavings
  import opened FileTree
  import opened Library
  import opened LibrarySound
  import opened LibraryImports
  import opened LibraryDisk
  import opened LibraryMemory
  import opened LibraryDeletes
  import opened LibraryStarts
  import opened LibraryRestarts
  import opened LibraryExamples
  import opened Forgetting

  const UNWRITTEN := FaultFree.(write := Untouched)

  // ---- one fault-free import ----

  lemma MkdirAllTop(fs: Files, p: Path, q: Path)
    requires !IsFile(fs, q)
    ensures !IsFile(MkdirAll(fs, p), q)
  {
  }

  lemma GraftTop(fs: Files, p: Path, tree: Files, q: Path)
    requires !IsFile(fs, q) && !Under(p, q)
    ensures !IsFile(Graft(fs, p, tree), q)
  {
    GraftAt(fs, p, tree, q);
  }

  lemma PlaceTop(fs: Files, m: Manifest, f: Faults, q: Path)
    requires !IsFile(fs, q) && |q| <= 1
    ensures !IsFile(Place(fs, m, f).fs, q)
  {
    var vp := Version(m.name, m.version);
    GraftTop(RemoveAll(fs, STAGING, Removed), vp, Tree(fs, STAGING), q);
  }

  /** An import puts no file in the place of the library or of the directory above it. */
  lemma ImportTop(sys: System, fs: Files, archive: Files, f: Faults, q: Path)
    requires !IsFile(fs, q) && |q| <= 1
    ensures !IsFile(Import(sys, fs, archive, f).fs, q)
  {
    var cleared := RemoveAll(fs, STAGING, f.clear);
    MkdirAllTop(cleared, STAGING, q);
    GraftTop(MkdirAll(cleared, STAGING), STAGING, archive - {[]}, q);
    var accepted, staged := Accepted(sys, fs, archive, f), Staged(fs, archive, f);
    if accepted.Some? {
      MkdirAllTop(staged, Book(accepted.value.name), q);
      PlaceTop(MkdirAll(staged, Book(accepted.value.name)), accepted.value, f, q);
    }
  }

  /** A library that an import may be added to. */
  ghost predicate Good(sys: System, fs: Files) {
    Sound(sys, fs) && AtRest(fs, CORE) && !IsFile(fs, []) && !IsFile(fs, LIBRARY)
  }

  /** What an archive of a new cookbook adds. */
  lemma NextImport(sys: System, fs: Files, text: string, m: Manifest)
    requires Good(sys, fs) && sys.manifest(text) == Some(m) && Filled(m) && sys.os == m.os && sys.arch == m.arch
    requires m.name != ".new" && Plain(m.version) && Absent(fs, Book(m.name))
    ensures var r := Import(sys, fs, Archive(text), FaultFree);
      && r.ok && Good(sys, r.fs) && StartsLoading(sys, fs, Archive(text), FaultFree)
      && Accepted(sys, fs, Archive(text), FaultFree) == Some(m)
      && OnlyBook(fs, r.fs, CORE, m.name)
      && IsFile(r.fs, Current(m.name)) && Root(r.fs, m.name) == Version(m.name, m.version)
      && Pointed(sys, r.fs, m.name) && Version(m.name, m.version) + RECIPE in r.fs
      && (forall v | v != m.version && v != "CURRENT" :: !Exists(r.fs, Version(m.name, v)))
  {
    var f, after := FaultFree, Import(sys, fs, Archive(text), FaultFree).fs;
    ArchiveValid(sys, text);
    WellFormedArchiveImports(sys, fs, Archive(text));
    LoadingImportLeaves(sys, fs, Archive(text), f);
    ImportOnlyBook(sys, fs, Archive(text), f, CORE);
    StagingGone(sys, fs, Archive(text), f);
    ImportTop(sys, fs, Archive(text), f, []);
    ImportTop(sys, fs, Archive(text), f, LIBRARY);
    assert Under(Book(m.name), Current(m.name)) && SoundBook(sys, after, m.name);
    StagedPath(fs, Archive(text), f, RECIPE);
    TreeAt(after, Version(m.name, m.version), RECIPE);
    TreeAt(Staged(fs, Archive(text), f), STAGING, RECIPE);
    forall v | v != m.version && v != "CURRENT" ensures !Exists(after, Version(m.name, v)) {
      OtherVersionAbsent(sys, fs, Archive(text), m, v);
    }
  }

  /** After importing one version of a new cookbook no other version is there. */
  lemma OtherVersionAbsent(sys: System, fs: Files, archive: Files, m: Manifest, v: string)
    requires Sound(sys, fs) && StartsLoading(sys, fs, archive, FaultFree)
    requires Accepted(sys, fs, archive, FaultFree) == Some(m)
    requires Absent(fs, Book(m.name)) && v != m.version && v != "CURRENT"
    ensures !Exists(Import(sys, fs, archive, FaultFree).fs, Version(m.name, v))
  {
    NotCleaned(sys, fs, archive, m);
    OwnVersionKept(sys, fs, archive, FaultFree, m, v);
    assert forall q | Under(Version(m.name, v), q) :: Under(Book(m.name), q);
  }

  lemma NotCleaned(sys: System, fs: Files, archive: Files, m: Manifest)
    requires Sound(sys, fs) && StartsLoading(sys, fs, archive, FaultFree)
    requires Accepted(sys, fs, archive, FaultFree) == Some(m)
    ensures !CleansBook(sys, fs, archive, FaultFree, m.name)
  {
    PointerPlaceable(sys, fs, archive, FaultFree);
    PlaceWrites(sys, Prepared(fs, archive, FaultFree, m), m, FaultFree);
  }

  /** An upgrade to a version that is not there, failing only when the pointer is written. */
  lemma UnwrittenUpgradeDeletes(sys: System, fs: Files, archive: Files, m: Manifest)
    requires Sound(sys, fs) && Pointed(sys, fs, m.name) && m.name != ".new" && m.version != "CURRENT"
    requires Accepted(sys, fs, archive, UNWRITTEN) == Some(m) && !Exists(fs, Version(m.name, m.version))
    ensures !Import(sys, fs, archive, UNWRITTEN).ok
    ensures Absent(Import(sys, fs, archive, UNWRITTEN).fs, Book(m.name))
  {
    NewVersionReaches(fs, archive, m);
    InstalledCleanedExactly(sys, fs, archive, UNWRITTEN, m.name);
  }

  lemma NewVersionReaches(fs: Files, archive: Files, m: Manifest)
    requires m.name != ".new" && !Exists(fs, Version(m.name, m.version))
    ensures Reaches(Prepared(fs, archive, UNWRITTEN, m), m, UNWRITTEN)
  {
    var x, staged := Version(m.name, m.version), Staged(fs, archive, UNWRITTEN);
    StagingApart(m.name);
    ApartFromBelow(Book(m.name), x, STAGING);
    StagedElsewhere(fs, archive, UNWRITTEN, x);
    MkdirAllElsewhere(staged, Book(m.name), x);
  }

  /** The recipe of an imported cookbook, as a start meets it. */
  lemma RecipeMet(sys: System, parse: Parser, fs: Files, n: string, v: string)
    requires Good(sys, fs) && n != ".new" && IsFile(fs, Current(n)) && Root(fs, n) == Version(n, v)
    requires Version(n, v) + RECIPE in fs
    ensures var d, job := DiskOf(sys, parse, fs, CORE), Job(Version(n, v), RECIPE);
      && Met(fs, CORE, job) && MetAt(fs, Root(fs, n), job) && Matches(job)
      && Enters(d, job) && KeyOf(d, job) == n + ":" + "vpn"
  {
    RootName(sys, parse, fs, CORE, n);
    assert RECIPE[0] == "recipes" && RECIPE[3] == ".terraform" && RECIPE[..1] == ["recipes"];
  }

  lemma NothingParses(sys: System, fs: Files, job: Job)
    requires Matches(job)
    ensures Fails(DiskOf(sys, NoneParse(), fs, CORE), job)
  {
  }

  lemma PointerKept(a: Files, b: Files, n: string)
    requires SameBelow(a, b, Book(n)) && IsFile(a, Current(n))
    ensures IsFile(b, Current(n))
  {
    assert Under(Book(n), Current(n)) && Same(a, b, Current(n));
  }

  // ---- two imports ----

  function Upgraded(sys: System, fs: Files, first: string, second: string): Result {
    Import(sys, Import(sys, fs, Archive(first), FaultFree).fs, Archive(second), UNWRITTEN)
  }

  /** A first version is installed and a second one can not be pointed to. */
  lemma UpgradeDeletes(sys: System, fs: Files, first: string, second: string, m1: Manifest, m2: Manifest)
    requires Good(sys, fs) && sys.manifest(first) == Some(m1) && sys.manifest(second) == Some(m2)
    requires Filled(m1) && Filled(m2) && sys.os == m1.os == m2.os && sys.arch == m1.arch == m2.arch
    requires m1.name == m2.name && m1.name != ".new" && Plain(m1.version) && m1.version != m2.version
    requires m2.version != "CURRENT" && Absent(fs, Book(m1.name))
    ensures Installed(sys, Import(sys, fs, Archive(first), FaultFree).fs, m1.name, m1.version)
    ensures !Upgraded(sys, fs, first, second).ok && Absent(Upgraded(sys, fs, first, second).fs, Book(m1.name))
  {
    var one := Import(sys, fs, Archive(first), FaultFree).fs;
    NextImport(sys, fs, first, m1);
    ArchiveValid(sys, second);
    Accepts(sys, one, second, UNWRITTEN);
    UnwrittenUpgradeDeletes(sys, one, Archive(second), m2);
  }

  function Both(sys: System, fs: Files, first: string, second: string): Files {
    Import(sys, Import(sys, fs, Archive(first), FaultFree).fs, Archive(second), FaultFree).fs
  }

  /** Two cookbooks imported one after the other. */
  lemma BothImported(sys: System, fs: Files, first: string, second: string, m1: Manifest, m2: Manifest)
    requires Good(sys, fs) && sys.manifest(first) == Some(m1) && sys.manifest(second) == Some(m2)
    requires Filled(m1) && Filled(m2) && sys.os == m1.os == m2.os && sys.arch == m1.arch == m2.arch
    requires m1.name != ".new" && m2.name != ".new" && m1.name != m2.name && Plain(m1.version) && Plain(m2.version)
    requires Absent(fs, Book(m1.name)) && Absent(fs, Book(m2.name))
    ensures var two := Both(sys, fs, first, second);
      && Good(sys, two) && IsFile(two, Current(m1.name))
      && IsFile(two, Current(m2.name)) && Root(two, m2.name) == Version(m2.name, m2.version)
      && Version(m2.name, m2.version) + RECIPE in two
  {
    var one := Import(sys, fs, Archive(first), FaultFree).fs;
    NextImport(sys, fs, first, m1);
    NextImport(sys, one, second, m2);
    PointerKept(one, Both(sys, fs, first, second), m1.name);
  }

  /** Deleting a cookbook when another one's key starts with its name and a colon: memory,
      as any start has built it, loses that recipe. */
  lemma DeleteDropsOther(sys: System, parse: Parser, fs: Files, n: string, b: string, v: string) returns (m: RecipeMap)
    requires Good(sys, fs) && n != ".new" && b != ".new" && b != n && Prefixed(n, b + ":" + "vpn")
    requires IsFile(fs, Current(b)) && Root(fs, b) == Version(b, v) && Version(b, v) + RECIPE in fs
    ensures InMemory(sys, parse, fs, CORE, m) && b + ":" + "vpn" in m && b + ":" + "vpn" !in Forget(m, n)
    ensures !InMemory(sys, parse, Delete(fs, n, Removed), CORE, Forget(m, n))
  {
    var d, job, k := DiskOf(sys, parse, fs, CORE), Job(Version(b, v), RECIPE), b + ":" + "vpn";
    RecipeMet(sys, parse, fs, b, v);
    var jobs, schedule := StartExists(sys, parse, fs, CORE);
    FreshIsMemory(sys, parse, fs, CORE, jobs, schedule);
    m := Run(d, Empty, jobs, schedule).shared.recipes;
    assert job in Walks(fs, CORE) && KeyBuilt(d, Walks(fs, CORE), m, k);
    assert job.root[1] == b && Book(n)[1] == n;
    DeleteKeepsMemoryExactly(sys, parse, fs, CORE, n, m);
  }

  // ---- an import and a start ----

  /** When no template parses, no start works with a cookbook imported. */
  lemma ImportThenNoStart(sys: System, fs: Files, text: string, m: Manifest)
    requires Good(sys, fs) && sys.manifest(text) == Some(m) && Filled(m) && sys.os == m.os && sys.arch == m.arch
    requires m.name != ".new" && Plain(m.version) && Absent(fs, Book(m.name)) && StartWorks(sys, NoneParse(), fs, CORE)
    ensures Import(sys, fs, Archive(text), FaultFree).ok
    ensures !StartWorks(sys, NoneParse(), Import(sys, fs, Archive(text), FaultFree).fs, CORE)
  {
    var after := Import(sys, fs, Archive(text), FaultFree).fs;
    NextImport(sys, fs, text, m);
    NextStartExactly(sys, NoneParse(), fs, Archive(text), FaultFree, CORE);
    RecipeMet(sys, NoneParse(), after, m.name, m.version);
    NothingParses(sys, after, Job(Version(m.name, m.version), RECIPE));
  }

  /** No library cookbook but n, and a core cookbook without METADATA. */
  lemma TidyWithOne(sys: System, parse: Parser, a: Files, b: Files, n: string)
    requires OnlyBook(a, b, CORE, n) && AtRest(b, CORE) && ':' !in n
    requires (forall x :: Absent(a, Book(x))) && CORE + ["METADATA"] !in a
    ensures Tidy(sys, parse, b, CORE)
  {
    MetaAgree(sys, parse, a, b, CORE, CORE);
    MetadataAt(sys, parse, a, CORE, CORE);
    forall x | IsFile(b, Current(x)) ensures x == n {
      OnlyPointer(a, b, n, x);
    }
  }

  lemma OnlyPointer(a: Files, b: Files, n: string, x: string)
    requires OnlyBook(a, b, CORE, n) && AtRest(b, CORE) && Absent(a, Book(x)) && IsFile(b, Current(x))
    ensures x == n
  {
    assert Under(Book(x), Current(x)) && STAGING == Book(".new");
    if x != n && x != ".new" { AbsentBelow(a, b, Book(x)); }
  }

  /** The assumptions of ImportMatchesFresh hold together: for memory as any start has built
      it, the import of a first cookbook, and a start after it. */
  lemma AssumptionsHold(sys: System, parse: Parser, fs: Files, text: string, m: Manifest)
    returns (s: Shared, newJobs: seq<Job>, ending: seq<nat>, jobs: seq<Job>, schedule: seq<nat>)
    requires Good(sys, fs) && sys.manifest(text) == Some(m) && Filled(m) && sys.os == m.os && sys.arch == m.arch
    requires m.name != ".new" && Plain(m.version) && ':' !in m.name
    requires (forall x :: Absent(fs, Book(x))) && CORE + ["METADATA"] !in fs
    ensures AtRest(fs, CORE) && Sound(sys, fs) && InMemory(sys, parse, fs, CORE, s.recipes)
    ensures StartsLoading(sys, fs, Archive(text), FaultFree) && FaultFree.unstage.Removed?
    ensures Accepted(sys, fs, Archive(text), FaultFree) == Some(m) && Absent(fs, Book(m.name)) && Plain(m.version)
    ensures LoadsNew(sys, parse, AtLoad(fs, Archive(text), FaultFree, m), CORE, m.name, s, newJobs, ending)
    ensures Tidy(sys, parse, Import(sys, fs, Archive(text), FaultFree).fs, CORE)
    ensures Starts(sys, parse, Import(sys, fs, Archive(text), FaultFree).fs, CORE, jobs, schedule)
  {
    NextImport(sys, fs, text, m);
    TidyWithOne(sys, parse, fs, Import(sys, fs, Archive(text), FaultFree).fs, m.name);
    s := StartedMemory(sys, parse, fs);
    newJobs, ending := ImportLoads(sys, parse, fs, Archive(text), m, s);
    jobs, schedule := StartExists(sys, parse, Import(sys, fs, Archive(text), FaultFree).fs, CORE);
  }

  /** Memory after the import's load is what the fresh start builds. */
  ghost predicate MatchesFresh(sys: System, parse: Parser, fs: Files, archive: Files, m: Manifest,
                               s: Shared, newJobs: seq<Job>, ending: seq<nat>, jobs: seq<Job>, schedule: seq<nat>) {
    && LoadsNew(sys, parse, AtLoad(fs, archive, FaultFree, m), CORE, m.name, s, newJobs, ending)
    && Starts(sys, parse, Import(sys, fs, archive, FaultFree).fs, CORE, jobs, schedule)
    && Run(DiskOf(sys, parse, AtLoad(fs, archive, FaultFree, m), CORE), s, newJobs, ending).shared.recipes
       == Run(DiskOf(sys, parse, Import(sys, fs, archive, FaultFree).fs, CORE), Empty, jobs, schedule).shared.recipes
  }

  /** So ImportMatchesFresh applies: the first import leaves in memory what a start builds. */
  lemma FirstImportMatches(sys: System, parse: Parser, fs: Files, text: string, m: Manifest)
    returns (s: Shared, newJobs: seq<Job>, ending: seq<nat>, jobs: seq<Job>, schedule: seq<nat>)
    requires Good(sys, fs) && sys.manifest(text) == Some(m) && Filled(m) && sys.os == m.os && sys.arch == m.arch
    requires m.name != ".new" && Plain(m.version) && ':' !in m.name
    requires (forall x :: Absent(fs, Book(x))) && CORE + ["METADATA"] !in fs
    ensures InMemory(sys, parse, fs, CORE, s.recipes)
    ensures MatchesFresh(sys, parse, fs, Archive(text), m, s, newJobs, ending, jobs, schedule)
  {
    s, newJobs, ending, jobs, schedule := AssumptionsHold(sys, parse, fs, text, m);
    ImportMatchesFresh(sys, parse, fs, Archive(text), FaultFree, CORE, m, s, newJobs, ending, jobs, schedule);
  }

  lemma StartedMemory(sys: System, parse: Parser, fs: Files) returns (s: Shared)
    ensures InMemory(sys, parse, fs, CORE, s.recipes)
  {
    var first, order := StartExists(sys, parse, fs, CORE);
    FreshIsMemory(sys, parse, fs, CORE, first, order);
    s := Run(DiskOf(sys, parse, fs, CORE), Empty, first, order).shared;
  }

  lemma ImportLoads(sys: System, parse: Parser, fs: Files, archive: Files, m: Manifest, s: Shared)
    returns (jobs: seq<Job>, schedule: seq<nat>)
    requires Sound(sys, fs) && StartsLoading(sys, fs, archive, FaultFree)
    requires Accepted(sys, fs, archive, FaultFree) == Some(m)
    ensures LoadsNew(sys, parse, AtLoad(fs, archive, FaultFree, m), CORE, m.name, s, jobs, schedule)
  {
    LoadingImportLeaves(sys, fs, archive, FaultFree);
    jobs, schedule := LoadExists(sys, parse, AtLoad(fs, archive, FaultFree, m), CORE, m.name, s);
  }
}
