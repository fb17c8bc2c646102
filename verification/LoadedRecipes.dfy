// What a complete load leaves in the cookbook's maps, in terms of the files alone.
module LoadedRecipes {
  import opened Ordering
  import opened Recipes
  import opened Loader
  import opened Interleavings

  /** The path recipes/<name>/<iaas>/.../.terraform of a root with METADATA. */
  ghost predicate RecipePath(disk: Disk, job: Job) {
    && |job.elems| >= 4 && job.elems[0] == "recipes" && job.elems[|job.elems| - 1] == ".terraform"
    && job.root in disk.metadata
  }

  /** The recipe is what METADATA, the path and the templates below it say. */
  ghost predicate ReadFrom(disk: Disk, job: Job, k: string, iaas: string, r: Recipe) {
    && RecipePath(disk, job) && job.root + job.elems[..3] in disk.templates
    && var m, t := disk.metadata[job.root], disk.templates[job.root + job.elems[..3]];
    && k == m.name + ":" + job.elems[1] && iaas == job.elems[2]
    && r.cookbook == m.name && r.version == m.version && r.root == job.root
    && r.name == job.elems[1] && r.iaas == job.elems[2]
    && r.bastion == t.bastion && r.variables == t.variables
  }

  lemma MadeIsRead(disk: Disk, job: Job, k: string, iaas: string)
    ensures (Loads(disk, job) && KeyOf(disk, job) == k && Iaas(job) == iaas) ==
      exists r :: ReadFrom(disk, job, k, iaas, r)
    ensures Loads(disk, job) && KeyOf(disk, job) == k && Iaas(job) == iaas ==>
      ReadFrom(disk, job, k, iaas, Made(disk, job))
  {
    if Loads(disk, job) && KeyOf(disk, job) == k && Iaas(job) == iaas {
      assert ReadFrom(disk, job, k, iaas, Made(disk, job));
    }
  }

  /** A cell holds a recipe read from one of the paths that are for it, or what was there
      before if there is no such path. */
  ghost predicate CellRead(disk: Disk, before: RecipeMap, jobs: seq<Job>, after: RecipeMap, k: string, iaas: string) {
    var cell := Lookup(after, k, iaas);
    if exists job, r :: job in jobs && ReadFrom(disk, job, k, iaas, r)
    then cell.Some? && exists job :: job in jobs && ReadFrom(disk, job, k, iaas, cell.value)
    else cell == Lookup(before, k, iaas)
  }

  /** So it is after every complete load, whatever its order. */
  lemma CellsRead(disk: Disk, s: Shared, jobs: seq<Job>, schedule: seq<nat>, k: string, iaas: string)
    requires Complete(disk, s, jobs, schedule)
    ensures CellRead(disk, s.recipes, jobs, Run(disk, s, jobs, schedule).shared.recipes, k, iaas)
  {
    var world := Run(disk, s, jobs, schedule);
    CellsAfter(disk, s, jobs, schedule, k, iaas);
    forall w | Stored(disk, jobs, world.phases, w, k, iaas)
      ensures jobs[w] in jobs && ReadFrom(disk, jobs[w], k, iaas, Made(disk, jobs[w]))
    {
      MadeIsRead(disk, jobs[w], k, iaas);
    }
    if job, r :| job in jobs && ReadFrom(disk, job, k, iaas, r) {
      MadeIsRead(disk, job, k, iaas);
      var v :| 0 <= v < |jobs| && jobs[v] == job;
      assert Stored(disk, jobs, world.phases, v, k, iaas);
    }
  }

  /** Without conflicts, the cell of every path that loads holds the recipe read from it. */
  lemma OwnCellRead(disk: Disk, s: Shared, jobs: seq<Job>, schedule: seq<nat>, job: Job)
    requires Complete(disk, s, jobs, schedule) && NoConflict(disk, jobs) && job in jobs
    requires |job.elems| >= 4 && job.elems[0] == "recipes" && job.elems[|job.elems| - 1] == ".terraform"
    requires job.root in disk.metadata && job.root + job.elems[..3] in disk.templates
    ensures var m, t := disk.metadata[job.root], disk.templates[job.root + job.elems[..3]];
      var cell := Lookup(Run(disk, s, jobs, schedule).shared.recipes, m.name + ":" + job.elems[1], job.elems[2]);
      && cell.Some?
      && cell.value.cookbook == m.name && cell.value.version == m.version && cell.value.root == job.root
      && cell.value.name == job.elems[1] && cell.value.iaas == job.elems[2]
      && cell.value.bastion == t.bastion && cell.value.variables == t.variables
  {
    var k, iaas := disk.metadata[job.root].name + ":" + job.elems[1], job.elems[2];
    OwnKey(disk, job);
    var r := OwnCell(disk, s, jobs, schedule, job, k, iaas);
  }

  lemma OwnKey(disk: Disk, job: Job)
    requires RecipePath(disk, job) && job.root + job.elems[..3] in disk.templates
    ensures Loads(disk, job) && KeyOf(disk, job) == disk.metadata[job.root].name + ":" + job.elems[1]
    ensures Iaas(job) == job.elems[2]
  {
  }

  lemma OwnCell(disk: Disk, s: Shared, jobs: seq<Job>, schedule: seq<nat>, job: Job, k: string, iaas: string)
    returns (r: Recipe)
    requires Complete(disk, s, jobs, schedule) && NoConflict(disk, jobs) && job in jobs
    requires Loads(disk, job) && KeyOf(disk, job) == k && Iaas(job) == iaas
    ensures Lookup(Run(disk, s, jobs, schedule).shared.recipes, k, iaas) == Some(r) && ReadFrom(disk, job, k, iaas, r)
  {
    MadeIsRead(disk, job, k, iaas);
    CellsRead(disk, s, jobs, schedule, k, iaas);
    r := Lookup(Run(disk, s, jobs, schedule).shared.recipes, k, iaas).value;
    var other :| other in jobs && ReadFrom(disk, other, k, iaas, r);
    SameRead(disk, jobs, job, other, k, iaas, r);
  }

  /** Without conflicts, all paths for one cell say the same. */
  lemma SameRead(disk: Disk, jobs: seq<Job>, job: Job, other: Job, k: string, iaas: string, r: Recipe)
    requires NoConflict(disk, jobs) && job in jobs && other in jobs
    requires Loads(disk, job) && KeyOf(disk, job) == k && Iaas(job) == iaas && ReadFrom(disk, other, k, iaas, r)
    ensures ReadFrom(disk, job, k, iaas, r)
  {
    var v :| 0 <= v < |jobs| && jobs[v] == job;
    var w :| 0 <= w < |jobs| && jobs[w] == other;
    assert !Conflict(disk, jobs[v], jobs[w]);
    MadeIsRead(disk, job, k, iaas);
    MadeIsRead(disk, other, k, iaas);
    assert r == Made(disk, other);
  }

  /** A recipe key is in the map if it was, or if some path is for it, loading or not. */
  lemma KeysRead(disk: Disk, s: Shared, jobs: seq<Job>, schedule: seq<nat>, k: string)
    requires Complete(disk, s, jobs, schedule)
    ensures k in Run(disk, s, jobs, schedule).shared.recipes <==>
      k in s.recipes
      || exists job :: job in jobs && RecipePath(disk, job) && k == disk.metadata[job.root].name + ":" + job.elems[1]
  {
    var world := Run(disk, s, jobs, schedule);
    CellsAfter(disk, s, jobs, schedule, k, "");
    if job :| job in jobs && RecipePath(disk, job) && k == disk.metadata[job.root].name + ":" + job.elems[1] {
      var w :| 0 <= w < |jobs| && jobs[w] == job;
      assert Entered(disk, jobs, world.phases, w, k);
    }
    if w :| Entered(disk, jobs, world.phases, w, k) {
      assert jobs[w] in jobs;
    }
  }

  // ---- the cookbooks ----

  /** The cookbook's entry is the one that this path's root gives it. */
  ghost predicate BookFrom(disk: Disk, job: Job, n: string, cm: CookbookMetadata) {
    && RecipePath(disk, job) && n == disk.metadata[job.root].name
    && cm.name == n && cm.version == disk.metadata[job.root].version
    && cm.path == job.root && (cm.imported <==> job.root != disk.core)
  }

  /** Cookbook n's entry is as it was, but for its list, or was made for one of the paths. */
  ghost predicate BookAccounted(disk: Disk, s: Shared, jobs: seq<Job>, world: World, n: string) {
    n in world.shared.cookbooks ==>
      var cm := world.shared.cookbooks[n];
      if n in s.cookbooks then cm == s.cookbooks[n].(recipes := cm.recipes)
      else exists job :: job in jobs && BookFrom(disk, job, n, cm)
  }

  /** Whatever the order: the entry of a cookbook that was there keeps its name, version,
      path and flag, and a new one has those of the root it was met at; it is imported
      exactly if that root is not the core cookbook's. */
  lemma {:induction false} BooksRead(disk: Disk, s: Shared, jobs: seq<Job>, schedule: seq<nat>, n: string)
    requires forall w | w in schedule :: w < |jobs|
    ensures n in s.cookbooks ==> n in Run(disk, s, jobs, schedule).shared.cookbooks
    ensures BookAccounted(disk, s, jobs, Run(disk, s, jobs, schedule), n)
  {
    if schedule != [] {
      var last := |schedule| - 1;
      Unroll(disk, s, jobs, schedule);
      BooksRead(disk, s, jobs, schedule[..last], n);
      BookStep(disk, s, jobs, Run(disk, s, jobs, schedule[..last]), schedule[last], n);
    }
  }

  lemma BookStep(disk: Disk, s: Shared, jobs: seq<Job>, world: World, w: nat, n: string)
    requires w < |jobs| && Consistent(disk, jobs, world) && BookAccounted(disk, s, jobs, world, n)
    requires n in s.cookbooks ==> n in world.shared.cookbooks
    ensures n in world.shared.cookbooks ==> n in Step(disk, jobs, world, w).shared.cookbooks
    ensures BookAccounted(disk, s, jobs, Step(disk, jobs, world, w), n)
  {
    var after := Step(disk, jobs, world, w);
    if n in after.shared.cookbooks && n !in world.shared.cookbooks {
      assert jobs[w] in jobs && BookFrom(disk, jobs[w], n, after.shared.cookbooks[n]);
    } else if n in world.shared.cookbooks && n !in s.cookbooks {
      var job :| job in jobs && BookFrom(disk, job, n, world.shared.cookbooks[n]);
      assert BookFrom(disk, job, n, after.shared.cookbooks[n]);
    }
  }

  /** The cookbooks of a complete load are those that were there and those that a path met. */
  lemma BooksMet(disk: Disk, s: Shared, jobs: seq<Job>, schedule: seq<nat>, n: string)
    requires Complete(disk, s, jobs, schedule) && ListsSorted(s)
    ensures n in Run(disk, s, jobs, schedule).shared.cookbooks <==>
      n in s.cookbooks || exists job :: job in jobs && RecipePath(disk, job) && n == disk.metadata[job.root].name
  {
    var world := Run(disk, s, jobs, schedule);
    BooksRead(disk, s, jobs, schedule, n);
    if job :| job in jobs && RecipePath(disk, job) && n == disk.metadata[job.root].name {
      var w :| 0 <= w < |jobs| && jobs[w] == job;
      NamesAfter(disk, s, jobs, schedule, n, job.elems[1]);
      assert Named(disk, jobs, world.phases, w, n, job.elems[1]);
      assert job.elems[1] in Names(world.shared, n);
    }
    if n in world.shared.cookbooks && n !in s.cookbooks {
      var job :| job in jobs && BookFrom(disk, job, n, world.shared.cookbooks[n]);
    }
  }
}
