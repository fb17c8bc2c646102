// An upgrade that drops a recipe leaves it in memory.
module LibraryUpgradeCases {
  import opened Recipes
  import opened Loader
  import opened FileTree
  import opened Library
  import opened LibrarySound
  import opened LibraryImports
  import opened LibraryDisk
  import opened LibraryMemory
  import opened LibraryStarts
  import opened LibraryUpgrades
  import opened LibraryExamples
  import opened LibrarySteps
  import LibraryCases

  /** An archive without recipes. */
  function Bare(text: string): Files {
    map[["bin"] := Dir, ["bin", "plugins"] := Dir, PLUGINS := Dir, ["recipes"] := Dir, ["METADATA"] := File(text)]
  }

  lemma BareValid(sys: System, text: string, m: Manifest)
    requires sys.manifest(text) == Some(m) && Filled(m) && sys.os == m.os && sys.arch == m.arch
    ensures Validate(sys, Bare(text), []) == Some(m)
  {
    assert [] + PLUGINS == PLUGINS && [] + ["recipes"] == ["recipes"] && [] + ["METADATA"] == ["METADATA"];
  }

  lemma BareAccepted(sys: System, fs: Files, text: string, m: Manifest)
    requires Good(sys, fs) && sys.manifest(text) == Some(m) && Filled(m) && sys.os == m.os && sys.arch == m.arch
    ensures Accepted(sys, fs, Bare(text), FaultFree) == Some(m)
  {
    BareValid(sys, text, m);
    ArchiveAccepted(sys, fs, Bare(text), FaultFree);
  }

  /** A version that is not there yet can be placed. */
  lemma VersionReaches(fs: Files, archive: Files, m: Manifest)
    requires m.name != ".new" && !Exists(fs, Version(m.name, m.version))
    ensures Reaches(Prepared(fs, archive, FaultFree, m), m, FaultFree)
  {
    var x, staged := Version(m.name, m.version), Staged(fs, archive, FaultFree);
    StagingApart(m.name);
    ApartFromBelow(Book(m.name), x, STAGING);
    StagedElsewhere(fs, archive, FaultFree, x);
    MkdirAllElsewhere(staged, Book(m.name), x);
  }

  /** What the load of a plain version walks is what the archive had. */
  lemma LoadedPath(sys: System, fs: Files, archive: Files, m: Manifest, r: Path)
    requires Sound(sys, fs) && StartsLoading(sys, fs, archive, FaultFree) && r != []
    requires Accepted(sys, fs, archive, FaultFree) == Some(m)
    requires Version(m.name, m.version) + r in AtLoad(fs, archive, FaultFree, m)
    ensures r in archive
  {
    var loaded, after, root := AtLoad(fs, archive, FaultFree, m), Import(sys, fs, archive, FaultFree).fs,
      Version(m.name, m.version);
    LoadingImportLeaves(sys, fs, archive, FaultFree);
    assert Under(Book(m.name), root + r) && Same(loaded, after, root + r);
    TreeAt(after, root, r);
    TreeAt(Staged(fs, archive, FaultFree), STAGING, r);
    StagedPath(fs, archive, FaultFree, r);
  }

  lemma BareIsShallow(text: string, r: Path)
    requires r in Bare(text)
    ensures |r| < 4
  {
  }

  /** The walk of the new version meets nothing that is a recipe. */
  lemma NoRecipeMet(sys: System, fs: Files, text: string, m: Manifest, job: Job)
    requires Sound(sys, fs) && StartsLoading(sys, fs, Bare(text), FaultFree)
    requires Accepted(sys, fs, Bare(text), FaultFree) == Some(m)
    requires job.root == Version(m.name, m.version) && job.root + job.elems in AtLoad(fs, Bare(text), FaultFree, m)
    ensures !Matches(job)
  {
    if job.elems != [] {
      LoadedPath(sys, fs, Bare(text), m, job.elems);
      BareIsShallow(text, job.elems);
    }
  }

  lemma NewRoot(sys: System, fs: Files, archive: Files, m: Manifest)
    requires Sound(sys, fs) && StartsLoading(sys, fs, archive, FaultFree)
    requires Accepted(sys, fs, archive, FaultFree) == Some(m)
    requires Plain(m.version)
    ensures var loaded := AtLoad(fs, archive, FaultFree, m);
      IsFile(loaded, Current(m.name)) && Root(loaded, m.name) == Version(m.name, m.version)
  {
    LoadingImportLeaves(sys, fs, archive, FaultFree);
  }

  /** Memory, as any start has built it, keeps the recipe that the new version has not. */
  lemma UpgradeKeepsOldRecipe(sys: System, parse: Parser, fs: Files, text: string, m: Manifest, v: string)
    returns (s: Shared, jobs: seq<Job>, schedule: seq<nat>)
    requires Good(sys, fs) && Tidy(sys, parse, fs, CORE) && Pointed(sys, fs, m.name) && m.name != ".new"
    requires Root(fs, m.name) == Version(m.name, v) && Version(m.name, v) + RECIPE in fs
    requires sys.manifest(text) == Some(m) && Filled(m) && sys.os == m.os && sys.arch == m.arch
    requires Plain(m.version) && !Exists(fs, Version(m.name, m.version))
    ensures Import(sys, fs, Bare(text), FaultFree).ok && InMemory(sys, parse, fs, CORE, s.recipes)
    ensures LoadsNew(sys, parse, AtLoad(fs, Bare(text), FaultFree, m), CORE, m.name, s, jobs, schedule)
    ensures !InMemory(sys, parse, Import(sys, fs, Bare(text), FaultFree).fs, CORE,
                      Run(DiskOf(sys, parse, AtLoad(fs, Bare(text), FaultFree, m), CORE), s, jobs,
                          schedule).shared.recipes)
  {
    BareAccepted(sys, fs, text, m);
    VersionReaches(fs, Bare(text), m);
    SucceedsExactly(sys, fs, Bare(text), FaultFree);
    s := StartedMemory(sys, parse, fs);
    jobs, schedule := ImportLoads(sys, parse, fs, Bare(text), m, s);
    UpgradeKeepsMemoryExactly(sys, parse, fs, Bare(text), FaultFree, CORE, m, s, jobs, schedule);
    OldRecipeUncovered(sys, parse, fs, text, m, v, s, jobs, schedule);
  }

  lemma OldRecipeUncovered(sys: System, parse: Parser, fs: Files, text: string, m: Manifest, v: string,
                           s: Shared, jobs: seq<Job>, schedule: seq<nat>)
    requires Good(sys, fs) && Pointed(sys, fs, m.name) && m.name != ".new" && Plain(m.version)
    requires Root(fs, m.name) == Version(m.name, v) && Version(m.name, v) + RECIPE in fs
    requires StartsLoading(sys, fs, Bare(text), FaultFree) && Accepted(sys, fs, Bare(text), FaultFree) == Some(m)
    requires LoadsNew(sys, parse, AtLoad(fs, Bare(text), FaultFree, m), CORE, m.name, s, jobs, schedule)
    ensures !Covered(DiskOf(sys, parse, AtLoad(fs, Bare(text), FaultFree, m), CORE), OwnWalk(fs, m.name), Members(jobs))
  {
    var loaded, a := AtLoad(fs, Bare(text), FaultFree, m), Job(Version(m.name, v), RECIPE);
    var d, e := DiskOf(sys, parse, fs, CORE), DiskOf(sys, parse, loaded, CORE);
    RecipeMet(sys, parse, fs, m.name, v);
    OldRootKept(sys, fs, Bare(text), FaultFree, m);
    RootAgrees(sys, parse, fs, loaded, CORE, a);
    assert a in OwnWalk(fs, m.name) && Enters(e, a);
    NewRoot(sys, fs, Bare(text), m);
    forall b | b in Members(jobs) ensures !Enters(e, b) {
      NoRecipeMet(sys, fs, text, m, b);
    }
  }

  /** Version 1 of a cookbook has a recipe, version 2 has none: after the upgrade the recipe
      is still in memory, where no start builds it. */
  lemma UpgradeDroppingRecipe() returns (s: Shared, jobs: seq<Job>, schedule: seq<nat>)
    ensures var sys, parse, fs, m :=
      VersionTexts(), AllParse(), Import(VersionTexts(), CoreFiles(), Archive("1"), FaultFree).fs, NetManifest("2");
      && Import(sys, fs, Bare("2"), FaultFree).ok && InMemory(sys, parse, fs, CORE, s.recipes)
      && LoadsNew(sys, parse, AtLoad(fs, Bare("2"), FaultFree, m), CORE, m.name, s, jobs, schedule)
      && !InMemory(sys, parse, Import(sys, fs, Bare("2"), FaultFree).fs, CORE,
                   Run(DiskOf(sys, parse, AtLoad(fs, Bare("2"), FaultFree, m), CORE), s, jobs, schedule).shared.recipes)
  {
    LibraryCases.CoreIsGood();
    s, jobs, schedule := UpgradeAfterImport(VersionTexts(), AllParse(), CoreFiles(), "1", "2", NetManifest("1"),
                                            NetManifest("2"));
  }

  lemma UpgradeAfterImport(sys: System, parse: Parser, fs: Files, first: string, second: string, m1: Manifest,
                           m2: Manifest)
    returns (s: Shared, jobs: seq<Job>, schedule: seq<nat>)
    requires Good(sys, fs) && sys.manifest(first) == Some(m1) && sys.manifest(second) == Some(m2)
    requires Filled(m1) && Filled(m2) && sys.os == m1.os == m2.os && sys.arch == m1.arch == m2.arch
    requires m1.name == m2.name && m1.name != ".new" && ':' !in m1.name
    requires Plain(m1.version) && Plain(m2.version) && m1.version != m2.version
    requires (forall x :: Absent(fs, Book(x))) && CORE + ["METADATA"] !in fs
    ensures var one := Import(sys, fs, Archive(first), FaultFree).fs;
      && Import(sys, one, Bare(second), FaultFree).ok && InMemory(sys, parse, one, CORE, s.recipes)
      && LoadsNew(sys, parse, AtLoad(one, Bare(second), FaultFree, m2), CORE, m2.name, s, jobs, schedule)
      && !InMemory(sys, parse, Import(sys, one, Bare(second), FaultFree).fs, CORE,
                   Run(DiskOf(sys, parse, AtLoad(one, Bare(second), FaultFree, m2), CORE), s, jobs,
                       schedule).shared.recipes)
  {
    NextImport(sys, fs, first, m1);
    TidyWithOne(sys, parse, fs, Import(sys, fs, Archive(first), FaultFree).fs, m1.name);
    s, jobs, schedule := UpgradeKeepsOldRecipe(sys, parse, Import(sys, fs, Archive(first), FaultFree).fs, second, m2,
                                               m1.version);
  }
}
