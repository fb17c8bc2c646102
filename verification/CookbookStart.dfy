// Starting from disk: walk the core cookbook and the library, and load what the walks meet.
module CookbookStarts {
  import opened Recipes
  import opened Loader
  import opened Interleavings
  import opened FileTree
  import opened Library
  import opened LibraryDisk
  import opened LibraryMemory
  import opened LibraryStarts
  import opened LibraryRestarts
  import opened Cookbooks

  /** filepath.WalkDir over a root's recipes: one worker per path. */
  method WalkRecipes(fs: Files, root: Path) returns (jobs: seq<Job>)
    ensures forall job :: job in jobs <==> MetAt(fs, root, job)
  {
    jobs := [];
    var todo := set q | q in fs && Under(root + ["recipes"], q);
    while todo != {}
      invariant forall q | q in todo :: q in fs && Under(root + ["recipes"], q)
      invariant forall job | job in jobs :: MetAt(fs, root, job)
      invariant forall q | q in fs && Under(root + ["recipes"], q) :: q in todo || Job(root, q[|root|..]) in jobs
    {
      var q :| q in todo;
      WalkedPath(fs, root, q);
      jobs := jobs + [Job(root, q[|root|..])];
      todo := todo - {q};
    }
    forall job: Job | MetAt(fs, root, job) ensures job in jobs {
      assert Job(root, (root + job.elems)[|root|..]) in jobs;
    }
  }

  lemma WalkedPath(fs: Files, root: Path, q: Path)
    requires q in fs && Under(root + ["recipes"], q)
    ensures MetAt(fs, root, Job(root, q[|root|..]))
  {
    assert q == root + q[|root|..];
    assert q[..|root| + 1] == root + ["recipes"];
    assert q[|root|..][..1] == ["recipes"];
  }

  /** The roots of the library, unless an entry cannot be read. */
  method LibraryRoots(fs: Files) returns (roots: set<Path>, ok: bool)
    ensures ok <==> Opens(fs)
    ensures ok ==> forall root :: root in roots <==> exists n :: IsFile(fs, Current(n)) && root == Root(fs, n)
  {
    roots, ok := {}, true;
    var entries := set q | q in fs && |q| >= 2 && q[0] == "library" :: q[1];
    var todo := entries;
    forall n ensures n in entries <==> Exists(fs, Book(n)) {
    }
    while todo != {}
      invariant todo <= entries
      invariant forall n | n in entries - todo ::
        IsFile(fs, Current(n)) && Root(fs, n) + ["recipes"] in fs && Root(fs, n) in roots
      invariant forall root | root in roots :: exists n :: n in entries && IsFile(fs, Current(n)) && root == Root(fs, n)
    {
      var n :| n in todo;
      todo := todo - {n};
      if !IsFile(fs, Current(n)) || Root(fs, n) + ["recipes"] !in fs {
        ok := false;
        assert !OpenBook(fs, n);
        return;
      }
      roots := roots + {Root(fs, n)};
    }
    forall n | IsFile(fs, Current(n)) ensures n in entries {
      assert Under(Book(n), Current(n));
    }
  }

  method WalkRoots(fs: Files, roots: set<Path>) returns (jobs: seq<Job>)
    ensures forall job :: job in jobs <==> job.root in roots && MetAt(fs, job.root, job)
  {
    jobs := [];
    var todo := roots;
    while todo != {}
      invariant todo <= roots
      invariant forall job :: job in jobs <==> job.root in roots - todo && MetAt(fs, job.root, job)
    {
      var root :| root in todo;
      todo := todo - {root};
      var more := WalkRecipes(fs, root);
      jobs := jobs + more;
    }
  }

  lemma StartsExactly(sys: System, parse: Parser, fs: Files, core: Path, roots: set<Path>, jobs: seq<Job>,
                      schedule: seq<nat>)
    requires forall root :: root in roots <==> exists n :: IsFile(fs, Current(n)) && root == Root(fs, n)
    requires forall job :: job in jobs <==> job.root in roots + {core} && MetAt(fs, job.root, job)
    requires Complete(DiskOf(sys, parse, fs, core), Empty, jobs, schedule)
    ensures Starts(sys, parse, fs, core, jobs, schedule)
    ensures var r := Run(DiskOf(sys, parse, fs, core), Empty, jobs, schedule).shared;
      && InMemory(sys, parse, fs, core, r.recipes)
      && (r.errs == [] <==> forall job | Met(fs, core, job) :: !Fails(DiskOf(sys, parse, fs, core), job))
  {
    assert forall job :: job in jobs <==> Met(fs, core, job);
    FreshIsMemory(sys, parse, fs, core, jobs, schedule);
    FreshFailsExactly(sys, parse, fs, core, jobs, schedule);
  }

  /** NewCookbook over an unpacked core cookbook. The start fails when a root cannot be
      walked or a recipe does not load; otherwise the cookbook holds what its workers load. */
  method NewCookbook(sys: System, parse: Parser, fs: Files, core: Path)
    returns (c: Cookbook, ok: bool, ghost jobs: seq<Job>, ghost schedule: seq<nat>)
    ensures fresh(c)
    ensures ok <==> StartWorks(sys, parse, fs, core)
    ensures ok ==> Starts(sys, parse, fs, core, jobs, schedule)
    ensures ok ==> c.State() == Run(DiskOf(sys, parse, fs, core), Empty, jobs, schedule).shared
    ensures ok ==> InMemory(sys, parse, fs, core, c.recipes)
  {
    c := new Cookbook();
    jobs, schedule := [], [];
    ok := core + ["recipes"] in fs;
    if ok {
      var roots;
      roots, ok := LibraryRoots(fs);
      if ok {
        var walked := WalkRoots(fs, roots + {core});
        jobs := walked;
        schedule := c.AddRecipeMetadata(DiskOf(sys, parse, fs, core), walked);
        StartsExactly(sys, parse, fs, core, roots, jobs, schedule);
        ok := c.errs == [];
      }
    }
  }
}
