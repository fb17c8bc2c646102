// The cookbook together with its files: importing and deleting.
module CookbookStores {
  import opened Recipes
  import opened Loader
  import opened Interleavings
  import opened FileTree
  import opened Library
  import opened LibrarySound
  import opened LibraryImports
  import opened LibraryDisk
  import opened LibraryMemory
  import opened LibraryDeletes
  import opened LibraryStarts
  import opened LibraryRestarts
  import opened Forgetting
  import opened Cookbooks
  import opened CookbookStarts

  ghost predicate HomeOf(path: Path, n: string) {
    exists v :: path == Version(n, v)
  }

  /** Every imported cookbook's path is a version directory of its own library entry. */
  ghost predicate AtHome(s: Shared) {
    forall n | n in s.cookbooks && s.cookbooks[n].imported :: HomeOf(s.cookbooks[n].path, n)
  }

  /** Every root is the core's or a version directory of the cookbook it names. */
  ghost predicate RootsAtHome(disk: Disk, jobs: seq<Job>) {
    forall job | job in jobs && Enters(disk, job) && job.root != disk.core :: HomeOf(job.root, BookName(disk, job))
  }

  lemma {:induction false} LoadKeepsHome(disk: Disk, s: Shared, jobs: seq<Job>, schedule: seq<nat>)
    requires AtHome(s) && RootsAtHome(disk, jobs) && forall w | w in schedule :: w < |jobs|
    ensures AtHome(Run(disk, s, jobs, schedule).shared)
  {
    if schedule != [] {
      var last := |schedule| - 1;
      Unroll(disk, s, jobs, schedule);
      LoadKeepsHome(disk, s, jobs, schedule[..last]);
      assert jobs[schedule[last]] in jobs;
    }
  }

  /** A start from a sound library leaves every imported cookbook's path in its own entry, so
      that deleting it removes that entry. */
  lemma FreshAtHome(sys: System, parse: Parser, fs: Files, core: Path, jobs: seq<Job>, schedule: seq<nat>)
    requires AtRest(fs, core) && Sound(sys, fs) && Starts(sys, parse, fs, core, jobs, schedule)
    ensures AtHome(Run(DiskOf(sys, parse, fs, core), Empty, jobs, schedule).shared)
  {
    var d := DiskOf(sys, parse, fs, core);
    forall job | job in jobs && Enters(d, job) && job.root != core ensures HomeOf(job.root, BookName(d, job)) {
      var n := RootsBelow(fs, core, job.root);
      RootName(sys, parse, fs, core, n);
      assert job.root == Version(n, Trim(fs[Current(n)].text)) && BookName(d, job) == n;
    }
    LoadKeepsHome(d, Empty, jobs, schedule);
  }

  /** So does an import. */
  lemma ImportKeepsHome(sys: System, parse: Parser, loaded: Files, core: Path, n: string, s: Shared, jobs: seq<Job>,
                        schedule: seq<nat>)
    requires AtHome(s) && LoadsNew(sys, parse, loaded, core, n, s, jobs, schedule) && Pointed(sys, loaded, n)
    ensures AtHome(Run(DiskOf(sys, parse, loaded, core), s, jobs, schedule).shared)
  {
    var d := DiskOf(sys, parse, loaded, core);
    MetadataAt(sys, parse, loaded, core, Root(loaded, n));
    forall job | job in jobs && Enters(d, job) && job.root != core ensures HomeOf(job.root, BookName(d, job)) {
      assert MetAt(loaded, Root(loaded, n), job);
      assert job.root == Version(n, Trim(loaded[Current(n)].text)) && BookName(d, job) == n;
    }
    LoadKeepsHome(d, s, jobs, schedule);
  }

  /** In the cookbook's own directory, the pointer is written and names a root that can be
      walked. */
  ghost predicate InBookStarts(fs: Files, m: Manifest, f: Faults) {
    && f.mkBook && CanMkdir(fs, Book(m.name))
    && var made := MkdirAll(fs, Book(m.name));
       WritesPointer(made, m, f) && Loadable(Place(made, m, f).fs, NamedRoot(m.name, m.version))
  }

  lemma StartsExactlyWhen(sys: System, fs: Files, archive: Files, f: Faults)
    requires Sound(sys, fs)
    ensures StartsLoading(sys, fs, archive, f) <==>
      var m := Accepted(sys, fs, archive, f);
      m.Some? && InBookStarts(Staged(fs, archive, f), m.value, f)
  {
    var accepted := Accepted(sys, fs, archive, f);
    if accepted.Some? {
      var m, made := accepted.value, Prepared(fs, archive, f, accepted.value);
      if m.name == ".new" {
        StagedIsDir(fs, archive, f);
        StagingNotPlaced(made, m, f);
      } else {
        PointerPlaceable(sys, fs, archive, f);
        WritesPointerExactly(sys, made, m, f);
        if WritesPointer(made, m, f) { PlaceWrites(sys, made, m, f); }
      }
    }
  }

  /** An import of a cookbook that was not in the library gets all its recipes loaded. */
  ghost predicate NewlyLoaded(sys: System, fs: Files, archive: Files, f: Faults) {
    && Sound(sys, fs) && StartsLoading(sys, fs, archive, f) && !f.load.WalkFailed? && f.unstage.Removed?
    && Absent(fs, Book(Accepted(sys, fs, archive, f).value.name))
  }

  class Store {
    var files: Files
    const core: Path
    const book: Cookbook

    constructor (files: Files, core: Path, book: Cookbook)
      ensures this.files == files && this.core == core && this.book == book
    {
      this.files, this.core, this.book := files, core, book;
    }

    /** importCookbook: read the pointer back and load the recipes below it. A walk that
        fails has started workers for what it had met, a plugin that can not be copied is
        reported when all recipes are loaded. */
    method LoadImported(sys: System, parse: Parser, n: string, f: Faults)
      returns (ok: bool, ghost jobs: seq<Job>, ghost schedule: seq<nat>)
      requires IsFile(files, Current(n))
      modifies book
      ensures ok <==> Loadable(files, Root(files, n)) && f.load.AllLoaded?
      ensures LoadsSome(sys, parse, files, core, n, old(book.State()), jobs, schedule)
      ensures book.State() == Run(DiskOf(sys, parse, files, core), old(book.State()), jobs, schedule).shared
      ensures if Loadable(files, Root(files, n))
        then f.load.WalkFailed? || LoadsNew(sys, parse, files, core, n, old(book.State()), jobs, schedule)
        else book.State() == old(book.State())
    {
      ok, jobs, schedule := false, [], [];
      var versionedPath := NamedRoot(n, files[Current(n)].text);
      if versionedPath + PLUGINS !in files || versionedPath + ["recipes"] !in files {
        return;
      }
      var walked := WalkRecipes(files, versionedPath);
      if f.load.WalkFailed? && f.load.started < |walked| {
        walked := walked[..f.load.started];
      }
      jobs := walked;
      schedule := book.AddRecipeMetadata(DiskOf(sys, parse, files, core), walked);
      ok := f.load.AllLoaded?;
    }

    /** From the check of the versioned path to the rewritten pointer. */
    method PlaceVersion(m: Manifest, f: Faults) returns (written: bool)
      modifies this`files
      ensures written <==> WritesPointer(old(files), m, f)
      ensures Place(old(files), m, f)
           == Result(files, written && f.load.AllLoaded? && Loadable(files, NamedRoot(m.name, m.version)))
      ensures written ==> IsFile(files, Current(m.name)) && files[Current(m.name)].text == m.version
    {
      var versionedPath, currentVersionFile := Version(m.name, m.version), Current(m.name);
      written := false;
      if !f.statVersion {
        return;
      }
      if !Exists(files, versionedPath) {
        if !f.rename || Under(STAGING, versionedPath) {
          return;
        }
        files := Move(files, STAGING, versionedPath);
      } else if !f.compare || Tree(files, STAGING) != Tree(files, versionedPath) {
        return;
      }
      if f.removeCurrent {
        files := RemoveOne(files, currentVersionFile);
      }
      if IsDir(files, currentVersionFile) {
        return;
      }
      match f.write
      case Written => files, written := files[currentVersionFile := File(m.version)], true;
      case Untouched =>
      case Torn(text) => files := files[currentVersionFile := File(text)];
    }

    /** The part of an import that works in the cookbook's own directory, with its deferred
        clean-up; `started` says that it began to load. */
    method ImportVersion(sys: System, parse: Parser, m: Manifest, f: Faults)
      returns (ok: bool, ghost started: bool, ghost jobs: seq<Job>, ghost schedule: seq<nat>)
      modifies this`files, book
      ensures Result(files, ok) == InBook(old(files), m, f)
      ensures started <==> InBookStarts(old(files), m, f)
      ensures Outcome(sys, parse, m.name, f, ok, started, old(book.State()), jobs, schedule)
    {
      var importPath := Book(m.name);
      ok, started, jobs, schedule := false, false, [], [];
      if !f.mkBook || !CanMkdir(files, importPath) {
        return;
      }
      files := MkdirAll(files, importPath);
      var written := PlaceVersion(m, f);
      if written {
        ok, jobs, schedule := LoadImported(sys, parse, m.name, f);
        started := Loadable(files, Root(files, m.name));
      }
      if !ok && f.statCurrent && Current(m.name) !in files {
        files := RemoveAll(files, importPath, f.cleanup);
      }
    }

    /** What loading has made of the maps: nothing unless it started, all recipes unless the
        walk failed, and some of them otherwise. */
    ghost predicate Outcome(sys: System, parse: Parser, n: string, f: Faults, ok: bool, started: bool, s: Shared,
                            jobs: seq<Job>, schedule: seq<nat>)
      reads this, book
    {
      && (ok <==> started && f.load.AllLoaded?)
      && (!started ==> book.State() == s)
      && (started ==> LoadsSome(sys, parse, files, core, n, s, jobs, schedule))
      && (started ==> book.State() == Run(DiskOf(sys, parse, files, core), s, jobs, schedule).shared)
      && (started && !f.load.WalkFailed? ==> LoadsNew(sys, parse, files, core, n, s, jobs, schedule))
    }

    /** Import an archive. The files, the verdict and the recipes it loads are those of the
        import protocol; `loaded` is the library at the time of loading. */
    method ImportCookbook(sys: System, parse: Parser, archive: Files, f: Faults)
      returns (ok: bool, ghost loaded: Files, ghost jobs: seq<Job>, ghost schedule: seq<nat>)
      modifies this`files, book
      ensures Result(files, ok) == Import(sys, old(files), archive, f)
      ensures Sound(sys, old(files)) ==> (ok <==> Succeeds(sys, old(files), archive, f))
      ensures Sound(sys, old(files)) && !StartsLoading(sys, old(files), archive, f) ==>
        book.State() == old(book.State())
      ensures Sound(sys, old(files)) && StartsLoading(sys, old(files), archive, f) ==>
        var m := Accepted(sys, old(files), archive, f).value;
        && loaded == AtLoad(old(files), archive, f, m)
        && LoadsSome(sys, parse, loaded, core, m.name, old(book.State()), jobs, schedule)
        && book.State() == Run(DiskOf(sys, parse, loaded, core), old(book.State()), jobs, schedule).shared
        && (!f.load.WalkFailed? ==> LoadsNew(sys, parse, loaded, core, m.name, old(book.State()), jobs, schedule))
      ensures NewlyLoaded(sys, old(files), archive, f) && AtRest(old(files), core)
        && InMemory(sys, parse, old(files), core, old(book.recipes))
        ==> InMemory(sys, parse, files, core, book.recipes)
    {
      ghost var before, s := files, book.State();
      ok, loaded, jobs, schedule := false, files, [], [];
      files := RemoveAll(files, STAGING, f.clear);
      if !f.mkStaging || !CanMkdir(files, STAGING) {
        return;
      }
      files := MkdirAll(files, STAGING);
      files := Graft(files, STAGING, archive - {[]});
      ghost var started := false;
      if f.unzip && f.readMetadata {
        var metadata := Validate(sys, files, STAGING);
        if metadata.Some? {
          ok, started, jobs, schedule := ImportVersion(sys, parse, metadata.value, f);
        }
      }
      loaded := files;
      files := RemoveAll(files, STAGING, f.unstage);
      if Sound(sys, before) {
        SucceedsExactly(sys, before, archive, f);
        StartsExactlyWhen(sys, before, archive, f);
        if NewlyLoaded(sys, before, archive, f) && AtRest(before, core)
          && InMemory(sys, parse, before, core, s.recipes) {
          ImportKeepsMemory(sys, parse, before, archive, f, core, Accepted(sys, before, archive, f).value, s, jobs,
                            schedule);
        }
      }
    }

    /** Remove every recipe whose key starts with the cookbook's name and ':'. */
    method ForgetRecipes(name: string)
      modifies book`recipes
      ensures book.recipes == Forget(old(book.recipes), name)
    {
      var todo := book.recipes.Keys;
      while todo != {}
        modifies book`recipes
        invariant todo <= book.recipes.Keys
        invariant book.recipes == map k | k in old(book.recipes) && (k in todo || !Prefixed(name, k)) ::
          old(book.recipes)[k]
      {
        var key :| key in todo;
        todo := todo - {key};
        if Prefixed(name, key) {
          book.recipes := book.recipes - {key};
        }
      }
    }

    /** Delete an imported cookbook. An unknown name is no error; the core cookbook is one;
        the cookbook's metadata stays in memory. */
    method DeleteImportedCookbook(name: string, r: Removal) returns (ok: bool)
      requires AtHome(book.State())
      modifies this`files, book`recipes
      ensures ok <==> name !in book.cookbooks || (book.cookbooks[name].imported && r.Removed?)
      ensures files == if name in book.cookbooks && book.cookbooks[name].imported then Delete(old(files), name, r)
        else old(files)
      ensures book.recipes == if ok && name in book.cookbooks then Forget(old(book.recipes), name)
        else old(book.recipes)
    {
      ok := true;
      if name in book.cookbooks {
        var cm := book.cookbooks[name];
        if !cm.imported {
          ok := false;
          return;
        }
        ghost var v :| cm.path == Version(name, v);
        var cookbookLibraryPath := cm.path[..|cm.path| - 1];
        assert cookbookLibraryPath == Book(name);
        files := RemoveAll(files, cookbookLibraryPath, r);
        if r.Failed? {
          ok := false;
          return;
        }
        ForgetRecipes(name);
      }
    }
  }

  /** An import followed by a restart: after an import that got as far as loading, the start
      works exactly when every recipe of the imported cookbook loads, whatever the import
      said; in every case it works exactly when StartWorks says so of the files left. */
  method ImportAndRestart(store: Store, sys: System, parse: Parser, archive: Files, f: Faults)
    returns (ok: bool, works: bool, c: Cookbook)
    requires AtRest(store.files, store.core) && Sound(sys, store.files)
    requires StartWorks(sys, parse, store.files, store.core)
    modifies store`files, store.book
    ensures ok <==> Succeeds(sys, old(store.files), archive, f)
    ensures works <==> StartWorks(sys, parse, store.files, store.core)
    ensures StartsLoading(sys, old(store.files), archive, f) && f.unstage.Removed? ==>
      var n := Accepted(sys, old(store.files), archive, f).value.name;
      && IsFile(store.files, Current(n))
      && (works <==>
          forall job | MetAt(store.files, Root(store.files, n), job) ::
            !Fails(DiskOf(sys, parse, store.files, store.core), job))
  {
    ghost var before, loaded, jobs, schedule := store.files, store.files, [], [];
    ok, loaded, jobs, schedule := store.ImportCookbook(sys, parse, archive, f);
    if StartsLoading(sys, before, archive, f) && f.unstage.Removed? {
      NextStartExactly(sys, parse, before, archive, f, store.core);
    }
    ghost var starters, order;
    c, works, starters, order := NewCookbook(sys, parse, store.files, store.core);
  }
}
