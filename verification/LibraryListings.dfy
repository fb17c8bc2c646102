// Whether the recipes in memory can be listed, by what the library on disk holds.
module LibraryListings {
  import opened Recipes
  import opened Loader
  import opened FileTree
  import opened Library
  import opened LibrarySound
  import opened LibraryImports
  import opened LibraryDisk
  import opened LibraryMemory
  import opened LibraryRestarts
  import opened LibraryExamples
  import opened LibrarySteps
  import LibraryCases
  import opened RecipeWalks
  import opened RecipeListRuns

  /** Every recipe that a start meets loads for some IaaS. */
  ghost predicate EachLoads(d: Disk, jobs: iset<Job>) {
    forall a | a in jobs && Enters(d, a) :: exists b :: b in jobs && Loads(d, b) && KeyOf(d, b) == KeyOf(d, a)
  }

  lemma KeyHasVariant(d: Disk, jobs: iset<Job>, m: RecipeMap, k: string)
    requires Built(d, jobs, m) && k in m
    ensures m[k] != map[] <==> exists b :: b in jobs && Loads(d, b) && KeyOf(d, b) == k
  {
    if m[k] != map[] {
      var iaas :| iaas in m[k];
      assert CellBuilt(d, jobs, m, k, iaas) && Lookup(m, k, iaas).Some?;
    }
    if b :| b in jobs && Loads(d, b) && KeyOf(d, b) == k {
      assert Claims(d, b, k, Iaas(b)) && CellBuilt(d, jobs, m, k, Iaas(b));
    }
  }

  lemma BuiltHasVariants(d: Disk, jobs: iset<Job>, m: RecipeMap)
    requires Built(d, jobs, m)
    ensures HasVariants(m) <==> EachLoads(d, jobs)
  {
    forall k | k in m ensures m[k] != map[] <==> exists b :: b in jobs && Loads(d, b) && KeyOf(d, b) == k {
      KeyHasVariant(d, jobs, m, k);
    }
    forall k ensures k in m <==> exists a :: a in jobs && Enters(d, a) && KeyOf(d, a) == k {
      assert KeyBuilt(d, jobs, m, k);
    }
    if HasVariants(m) {
      forall a | a in jobs && Enters(d, a) ensures exists b :: b in jobs && Loads(d, b) && KeyOf(d, b) == KeyOf(d, a) {
        assert KeyOf(d, a) in m;
      }
    } else {
      var k :| k in m && m[k] == map[];
      var a :| a in jobs && Enters(d, a) && KeyOf(d, a) == k;
    }
  }

  /** When memory holds what the disk does, no run of RecipeList fails exactly if each recipe
      on disk loads for some IaaS. */
  lemma MemoryListsExactly(sys: System, parse: Parser, fs: Files, core: Path, m: RecipeMap)
    requires InMemory(sys, parse, fs, core, m)
    ensures (forall visits :: !Stops(m, visits)) <==> EachLoads(DiskOf(sys, parse, fs, core), Walks(fs, core))
  {
    BuiltHasVariants(DiskOf(sys, parse, fs, core), Walks(fs, core), m);
    StopsExactly(m, []);
    forall visits ensures Stops(m, visits) <==> visits == [] && !HasVariants(m) {
      StopsExactly(m, visits);
    }
  }

  /** After a start that worked every run of RecipeList returns. */
  lemma WorkingStartLists(sys: System, parse: Parser, fs: Files, core: Path, m: RecipeMap, visits: seq<Visit>)
    requires InMemory(sys, parse, fs, core, m) && StartWorks(sys, parse, fs, core)
    ensures !Stops(m, visits)
  {
    var d := DiskOf(sys, parse, fs, core);
    forall a | a in Walks(fs, core) && Enters(d, a)
      ensures a in Walks(fs, core) && Loads(d, a) && KeyOf(d, a) == KeyOf(d, a)
    {
      assert Met(fs, core, a);
    }
    MemoryListsExactly(sys, parse, fs, core, m);
  }

  // ---- an import of templates that do not parse ----

  /** Nothing loads, so that all keys in memory are without variants. */
  lemma NothingListed(sys: System, fs: Files, m: RecipeMap, k: string, visits: seq<Visit>)
    requires InMemory(sys, NoneParse(), fs, CORE, m) && k in m
    ensures !Walk(m, m.Keys, visits)
  {
    var d := DiskOf(sys, NoneParse(), fs, CORE);
    forall x | x in m ensures m[x] == map[] {
      KeyHasVariant(d, Walks(fs, CORE), m, x);
      forall job | Loads(d, job) ensures false { NothingParses(sys, fs, job); }
    }
    NoWalkBegins(m, m.Keys, visits);
  }

  /** An import whose load leaves a key in memory with which no run of RecipeList returns. */
  ghost predicate StopsListing(sys: System, fs: Files, archive: Files, m: Manifest, k: string,
                               s: Shared, jobs: seq<Job>, schedule: seq<nat>) {
    var loaded := AtLoad(fs, archive, FaultFree, m);
    && InMemory(sys, NoneParse(), fs, CORE, s.recipes)
      && LoadsNew(sys, NoneParse(), loaded, CORE, m.name, s, jobs, schedule)
    && var recipes := Loader.Run(DiskOf(sys, NoneParse(), loaded, CORE), s, jobs, schedule).shared.recipes;
       k in recipes && Stops(recipes, []) && forall visits :: !Walk(recipes, recipes.Keys, visits)
  }

  /** A first cookbook whose templates do not parse: its import succeeds, and leaves a key
      without variants in memory, so that no run of RecipeList returns. */
  lemma BrokenImportStopsListing() returns (s: Shared, jobs: seq<Job>, schedule: seq<nat>)
    ensures Import(VersionTexts(), CoreFiles(), Archive("1"), FaultFree).ok
    ensures StopsListing(VersionTexts(), CoreFiles(), Archive("1"), NetManifest("1"), "net:vpn", s, jobs, schedule)
  {
    LibraryCases.CoreIsGood();
    assert "net" + ":" + "vpn" == "net:vpn";
    s, jobs, schedule := BrokenImport(VersionTexts(), CoreFiles(), "1", NetManifest("1"));
  }

  lemma BrokenImport(sys: System, fs: Files, text: string, m: Manifest)
    returns (s: Shared, jobs: seq<Job>, schedule: seq<nat>)
    requires Good(sys, fs) && sys.manifest(text) == Some(m) && Filled(m) && sys.os == m.os && sys.arch == m.arch
    requires m.name != ".new" && Plain(m.version) && Absent(fs, Book(m.name))
    ensures Import(sys, fs, Archive(text), FaultFree).ok
    ensures StopsListing(sys, fs, Archive(text), m, m.name + ":" + "vpn", s, jobs, schedule)
  {
    var after := Import(sys, fs, Archive(text), FaultFree).fs;
    NextImport(sys, fs, text, m);
    s := StartedMemory(sys, NoneParse(), fs);
    jobs, schedule := ImportLoads(sys, NoneParse(), fs, Archive(text), m, s);
    ImportKeepsMemory(sys, NoneParse(), fs, Archive(text), FaultFree, CORE, m, s, jobs, schedule);
    var d := DiskOf(sys, NoneParse(), AtLoad(fs, Archive(text), FaultFree, m), CORE);
    var recipes, k := Loader.Run(d, s, jobs, schedule).shared.recipes, m.name + ":" + "vpn";
    RecipeMet(sys, NoneParse(), after, m.name, m.version);
    assert Job(Version(m.name, m.version), RECIPE) in Walks(after, CORE);
    assert KeyBuilt(DiskOf(sys, NoneParse(), after, CORE), Walks(after, CORE), recipes, k);
    forall visits ensures !Walk(recipes, recipes.Keys, visits) {
      NothingListed(sys, after, recipes, k, visits);
    }
    SomeRunReturnsExactly(recipes);
    StopsExactly(recipes, []);
  }
}
