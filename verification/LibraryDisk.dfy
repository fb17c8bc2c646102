// What the recipe loader sees of the file system: the roots it walks, the workers it
// starts, and the recipe map that a complete load builds.
module LibraryDisk {
  import opened Recipes
  import opened Loader
  import opened Interleavings
  import opened FileTree
  import opened Library

  type Parser = Files -> Option<Template>

  /** The directory that a cookbook's pointer names, as it is read back. */
  function Root(fs: Files, n: string): Path
    requires IsFile(fs, Current(n))
  {
    NamedRoot(n, fs[Current(n)].text)
  }

  predicate HasMetadata(sys: System, fs: Files, root: Path) {
    IsFile(fs, root + ["METADATA"]) && sys.manifest(fs[root + ["METADATA"]].text).Some?
  }

  /** The loader's view: METADATA files that parse, and directories whose templates do. */
  function DiskOf(sys: System, parse: Parser, fs: Files, core: Path): Disk {
    Disk(core,
      map root | root in (set q | q in fs && q != [] :: q[..|q| - 1]) && HasMetadata(sys, fs, root) ::
        var m := sys.manifest(fs[root + ["METADATA"]].text).value; Metadata(m.name, m.version),
      map p | p in fs && parse(Tree(fs, p)).Some? :: parse(Tree(fs, p)).value)
  }

  lemma MetadataAt(sys: System, parse: Parser, fs: Files, core: Path, root: Path)
    ensures root in DiskOf(sys, parse, fs, core).metadata <==> HasMetadata(sys, fs, root)
    ensures HasMetadata(sys, fs, root) ==>
      var m := sys.manifest(fs[root + ["METADATA"]].text).value;
      DiskOf(sys, parse, fs, core).metadata[root] == Metadata(m.name, m.version)
  {
    var q := root + ["METADATA"];
    assert q[..|q| - 1] == root;
    if q in fs {
      assert root in (set q | q in fs && q != [] :: q[..|q| - 1]);
    }
  }

  /** The walk of `root`/recipes meets this path. */
  predicate MetAt(fs: Files, root: Path, job: Job) {
    job.root == root && root + job.elems in fs && Under(["recipes"], job.elems)
  }

  /** A root that NewCookbook loads: the core cookbook's, or one that a pointer names. */
  ghost predicate IsRoot(fs: Files, core: Path, root: Path) {
    root == core || exists n :: IsFile(fs, Current(n)) && root == Root(fs, n)
  }

  /** Every path that NewCookbook starts a worker for. */
  ghost predicate Met(fs: Files, core: Path, job: Job) {
    IsRoot(fs, core, job.root) && MetAt(fs, job.root, job)
  }

  // ---- what a load builds ----

  predicate Claims(disk: Disk, job: Job, k: string, iaas: string) {
    Loads(disk, job) && KeyOf(disk, job) == k && Iaas(job) == iaas
  }

  ghost predicate KeyBuilt(disk: Disk, jobs: iset<Job>, m: RecipeMap, k: string) {
    k in m <==> exists job :: job in jobs && Enters(disk, job) && KeyOf(disk, job) == k
  }

  ghost predicate CellBuilt(disk: Disk, jobs: iset<Job>, m: RecipeMap, k: string, iaas: string) {
    || (exists job :: job in jobs && Claims(disk, job, k, iaas) && Lookup(m, k, iaas) == Some(Made(disk, job)))
    || ((forall job | job in jobs :: !Claims(disk, job, k, iaas)) && Lookup(m, k, iaas) == None)
  }

  /** The recipe map holds exactly what these workers load. */
  ghost predicate Built(disk: Disk, jobs: iset<Job>, m: RecipeMap) {
    && (forall k :: KeyBuilt(disk, jobs, m, k))
    && (forall k, iaas :: CellBuilt(disk, jobs, m, k, iaas))
  }

  ghost predicate Unclashing(disk: Disk, jobs: iset<Job>) {
    forall a, b | a in jobs && b in jobs :: !Conflict(disk, a, b)
  }

  /** Two maps that the same workers build are equal unless two workers clash. */
  lemma BuiltUnique(disk: Disk, jobs: iset<Job>, a: RecipeMap, b: RecipeMap)
    requires Built(disk, jobs, a) && Built(disk, jobs, b) && Unclashing(disk, jobs)
    ensures a == b
  {
    forall k ensures k in a <==> k in b {
      assert KeyBuilt(disk, jobs, a, k) && KeyBuilt(disk, jobs, b, k);
    }
    forall k, iaas ensures Lookup(a, k, iaas) == Lookup(b, k, iaas) {
      assert CellBuilt(disk, jobs, a, k, iaas) && CellBuilt(disk, jobs, b, k, iaas);
    }
    SameMap(a, b);
  }

  /** Both disks hold the same for a job. */
  predicate Agree(a: Disk, b: Disk, job: Job) {
    && (Enters(a, job) <==> Enters(b, job)) && (Loads(a, job) <==> Loads(b, job))
    && (Enters(a, job) ==> KeyOf(a, job) == KeyOf(b, job))
    && (Loads(a, job) ==> Made(a, job) == Made(b, job))
  }

  /** Building depends only on what the disk holds for the workers' paths. */
  lemma BuiltAgrees(a: Disk, b: Disk, jobs: iset<Job>, m: RecipeMap)
    requires Built(a, jobs, m) && forall job | job in jobs :: Agree(a, b, job)
    ensures Built(b, jobs, m)
  {
    forall k ensures KeyBuilt(b, jobs, m, k) {
      assert KeyBuilt(a, jobs, m, k);
      assert forall job | job in jobs :: Agree(a, b, job);
    }
    forall k, iaas ensures CellBuilt(b, jobs, m, k, iaas) {
      assert CellBuilt(a, jobs, m, k, iaas);
      assert forall job | job in jobs :: Agree(a, b, job) && (Claims(a, job, k, iaas) <==> Claims(b, job, k, iaas));
    }
  }

  function Members(jobs: seq<Job>): iset<Job> {
    iset job | job in jobs
  }

  lemma KeyExtended(disk: Disk, before: iset<Job>, s: Shared, jobs: seq<Job>, world: World, k: string)
    requires KeyBuilt(disk, before, s.recipes, k) && KeyAccounted(disk, s, jobs, world, k)
    requires |world.phases| == |jobs| && AllDone(world)
    ensures KeyBuilt(disk, before + Members(jobs), world.shared.recipes, k)
  {
    if job :| job in jobs && Enters(disk, job) && KeyOf(disk, job) == k {
      var w :| 0 <= w < |jobs| && jobs[w] == job;
      assert Entered(disk, jobs, world.phases, w, k);
    }
    if w :| Entered(disk, jobs, world.phases, w, k) {
      assert jobs[w] in before + Members(jobs);
    }
    if job :| job in before && Enters(disk, job) && KeyOf(disk, job) == k {
      assert job in before + Members(jobs);
    }
  }

  lemma CellExtended(disk: Disk, before: iset<Job>, s: Shared, jobs: seq<Job>, world: World, k: string, iaas: string)
    requires CellBuilt(disk, before, s.recipes, k, iaas) && CellAccounted(disk, s, jobs, world, k, iaas)
    requires |world.phases| == |jobs| && AllDone(world)
    ensures CellBuilt(disk, before + Members(jobs), world.shared.recipes, k, iaas)
  {
    var all, cell := before + Members(jobs), Lookup(world.shared.recipes, k, iaas);
    if w :| Stored(disk, jobs, world.phases, w, k, iaas) && cell == Some(Made(disk, jobs[w])) {
      assert jobs[w] in all && Claims(disk, jobs[w], k, iaas);
    } else {
      forall job | job in jobs ensures !Claims(disk, job, k, iaas) {
        var w :| 0 <= w < |jobs| && jobs[w] == job;
        assert !Stored(disk, jobs, world.phases, w, k, iaas);
      }
      assert forall job | job in all :: job in before || job in jobs;
      assert forall job | job in before :: job in all;
    }
  }

  /** A complete load adds to a built map exactly what its workers load. */
  lemma LoadExtends(disk: Disk, before: iset<Job>, s: Shared, jobs: seq<Job>, schedule: seq<nat>)
    requires Built(disk, before, s.recipes) && Complete(disk, s, jobs, schedule)
    ensures Built(disk, before + Members(jobs), Run(disk, s, jobs, schedule).shared.recipes)
  {
    var world := Run(disk, s, jobs, schedule);
    forall k ensures KeyBuilt(disk, before + Members(jobs), world.shared.recipes, k) {
      CellsAfter(disk, s, jobs, schedule, k, "");
      KeyExtended(disk, before, s, jobs, world, k);
    }
    forall k, iaas ensures CellBuilt(disk, before + Members(jobs), world.shared.recipes, k, iaas) {
      CellsAfter(disk, s, jobs, schedule, k, iaas);
      CellExtended(disk, before, s, jobs, world, k, iaas);
    }
  }

  /** A fresh load builds exactly what its workers load. */
  lemma FreshLoad(disk: Disk, jobs: seq<Job>, schedule: seq<nat>)
    requires Complete(disk, Empty, jobs, schedule)
    ensures Built(disk, Members(jobs), Run(disk, Empty, jobs, schedule).shared.recipes)
  {
    assert Built(disk, iset{}, Empty.recipes);
    LoadExtends(disk, iset{}, Empty, jobs, schedule);
    assert iset{} + Members(jobs) == Members(jobs);
  }

  // ---- the loader sees only what is below its roots ----

  lemma MetaAgree(sys: System, parse: Parser, a: Files, b: Files, core: Path, root: Path)
    requires SameBelow(a, b, root)
    ensures var d, e := DiskOf(sys, parse, a, core), DiskOf(sys, parse, b, core);
      (root in d.metadata <==> root in e.metadata) && (root in d.metadata ==> d.metadata[root] == e.metadata[root])
  {
    MetadataAt(sys, parse, a, core, root);
    MetadataAt(sys, parse, b, core, root);
    assert Under(root, root + ["METADATA"]) && Same(a, b, root + ["METADATA"]);
  }

  lemma TemplateAgree(sys: System, parse: Parser, a: Files, b: Files, core: Path, p: Path)
    requires SameBelow(a, b, p)
    ensures var d, e := DiskOf(sys, parse, a, core), DiskOf(sys, parse, b, core);
      (p in d.templates <==> p in e.templates) && (p in d.templates ==> d.templates[p] == e.templates[p])
  {
    TreesAgree(a, b, p);
    assert Same(a, b, p);
  }

  lemma RootAgrees(sys: System, parse: Parser, a: Files, b: Files, core: Path, job: Job)
    requires SameBelow(a, b, job.root)
    ensures Agree(DiskOf(sys, parse, a, core), DiskOf(sys, parse, b, core), job)
    ensures MetAt(a, job.root, job) == MetAt(b, job.root, job)
  {
    MetaAgree(sys, parse, a, b, core, job.root);
    if Matches(job) {
      SameBelowNarrows(a, b, job.root, TemplatePath(job));
      TemplateAgree(sys, parse, a, b, core, TemplatePath(job));
    }
    assert Under(job.root, job.root + job.elems) && Same(a, b, job.root + job.elems);
  }
}
