// Whether the application starts again after an import.
module LibraryRestarts {
  import opened Recipes
  import opened Loader
  import opened FileTree
  import opened Library
  import opened LibrarySound
  import opened LibraryImports
  import opened LibraryDisk
  import opened LibraryMemory
  import opened LibraryStarts

  /** A start succeeds: it can walk the core cookbook and the library, and every recipe that
      it meets loads. */
  ghost predicate StartWorks(sys: System, parse: Parser, fs: Files, core: Path) {
    && core + ["recipes"] in fs && Opens(fs)
    && forall job | Met(fs, core, job) :: !Fails(DiskOf(sys, parse, fs, core), job)
  }

  // ---- what an import does to the library's entries ----

  lemma OpenBookFrame(a: Files, b: Files, n: string)
    requires SameBelow(a, b, Book(n))
    ensures OpenBook(a, n) == OpenBook(b, n)
  {
    assert Under(Book(n), Current(n)) && Same(a, b, Current(n));
    if IsFile(a, Current(n)) {
      assert Under(Book(n), Root(a, n) + ["recipes"]) && Same(a, b, Root(a, n) + ["recipes"]);
    }
  }

  /** When an import leaves an entry that a start can read: a lost pointer is followed by a
      clean-up, and the text in a new pointer names a root that has recipes. */
  ghost predicate KeepsOpen(fs: Files, m: Manifest, f: Faults) {
    if Reaches(fs, m, f) && m.version == "CURRENT" then false
    else if LosesPointer(fs, m, f) then f.statCurrent && f.cleanup.Removed?
    else
      || !Reaches(fs, m, f) || f.write.Untouched? || Placed(fs, m, f).None?
      || NamedRoot(m.name, PointerText(m, f)) + ["recipes"] in Placed(fs, m, f).value
  }

  /** What rewriting the pointer leaves for a start to read. */
  lemma PointOpens(sys: System, fs: Files, m: Manifest, f: Faults)
    requires Installed(sys, fs, m.name, m.version) && PointerOk(sys, fs, m.name) && m.version != "CURRENT"
    ensures var r := Point(fs, m, f);
      Current(m.name) in r.fs ==>
        (OpenBook(r.fs, m.name) <==> f.write.Untouched? || NamedRoot(m.name, PointerText(m, f)) + ["recipes"] in fs)
  {
    var n, r := m.name, Point(fs, m, f);
    PointExactly(sys, fs, m, f);
    if Current(n) in r.fs {
      if f.write.Untouched? {
        SoundBookOpens(sys, r.fs, n);
      } else {
        var root := NamedRoot(n, PointerText(m, f));
        assert root + ["recipes"] != Current(n) by {
          assert root == Book(n) ==> (root + ["recipes"])[2] == "recipes";
        }
        PointElsewhere(fs, m, f, root + ["recipes"]);
        assert Same(fs, r.fs, root + ["recipes"]) && r.fs[Current(n)] == File(PointerText(m, f));
      }
    }
  }

  lemma PlaceOpens(sys: System, fs: Files, m: Manifest, f: Faults)
    requires LibrarySound.Ready(sys, fs, m) && m.version != "CURRENT"
    ensures var r := Place(fs, m, f);
      Current(m.name) in r.fs ==> (OpenBook(r.fs, m.name) <==> KeepsOpen(fs, m, f))
  {
    PlaceExactly(sys, fs, m, f);
    PlaceMoves(sys, fs, m, f);
    if !Reaches(fs, m, f) {
      if Current(m.name) in fs { SoundBookOpens(sys, fs, m.name); }
    } else if Exists(fs, Version(m.name, m.version)) {
      ReachedInstalled(sys, fs, m, f);
      PointOpens(sys, fs, m, f);
    } else {
      MoveInstalls(sys, fs, m);
      PointOpens(sys, Move(fs, STAGING, Version(m.name, m.version)), m, f);
    }
  }

  lemma PlaceOrCleanOpens(sys: System, fs: Files, m: Manifest, f: Faults)
    requires LibrarySound.Ready(sys, fs, m)
    ensures OpenBook(PlaceOrClean(fs, m, f).fs, m.name) <==> KeepsOpen(fs, m, f)
  {
    var r := Place(fs, m, f);
    assert Under(Book(m.name), Book(m.name));
    if m.version != "CURRENT" {
      PlaceExactly(sys, fs, m, f);
      PlaceOpens(sys, fs, m, f);
    } else if Reaches(fs, m, f) {
      CurrentBecomesDir(sys, fs, m, f);
    } else {
      PlaceMoves(sys, fs, m, f);
      if Current(m.name) in fs { SoundBookOpens(sys, fs, m.name); }
    }
  }

  /** For every archive and every combination of failures: after an import that has removed
      its staging directory a start can read the library exactly when the cookbook's own
      entry is one that KeepsOpen describes. */
  lemma ImportOpensExactly(sys: System, fs: Files, archive: Files, f: Faults)
    requires Sound(sys, fs) && Absent(fs, STAGING) && f.unstage.Removed?
    ensures Opens(Import(sys, fs, archive, f).fs) <==>
      match Accepted(sys, fs, archive, f)
      case None => true
      case Some(m) => m.name == ".new" || !f.mkBook || KeepsOpen(Prepared(fs, archive, f, m), m, f)
  {
    var accepted, after := Accepted(sys, fs, archive, f), Import(sys, fs, archive, f).fs;
    StagingGone(sys, fs, archive, f);
    forall n | accepted.None? || accepted.value.name != n || n == ".new" ensures OpenBook(after, n) {
      OtherEntryOpens(sys, fs, archive, f, n);
    }
    if accepted.Some? && accepted.value.name != ".new" {
      OwnEntryOpens(sys, fs, archive, f, accepted.value);
      assert Opens(after) <==> OpenBook(after, accepted.value.name);
    }
  }

  lemma OtherEntryOpens(sys: System, fs: Files, archive: Files, f: Faults, n: string)
    requires Sound(sys, fs) && Absent(Import(sys, fs, archive, f).fs, STAGING)
    requires n == ".new" || Accepted(sys, fs, archive, f).None? || Accepted(sys, fs, archive, f).value.name != n
    ensures OpenBook(Import(sys, fs, archive, f).fs, n)
  {
    if n == ".new" {
      assert Book(n) == STAGING;
    } else {
      OtherBookKept(sys, fs, archive, f, n);
      assert SoundBook(sys, fs, n);
      SoundBookOpens(sys, Import(sys, fs, archive, f).fs, n);
    }
  }

  lemma OwnEntryOpens(sys: System, fs: Files, archive: Files, f: Faults, m: Manifest)
    requires Sound(sys, fs) && Accepted(sys, fs, archive, f) == Some(m) && m.name != ".new"
    ensures OpenBook(Import(sys, fs, archive, f).fs, m.name) <==>
      !f.mkBook || KeepsOpen(Prepared(fs, archive, f, m), m, f)
  {
    var staged := Staged(fs, archive, f);
    var done := InBook(staged, m, f).fs;
    PointerPlaceable(sys, fs, archive, f);
    StagingApart(m.name);
    RemoveAllElsewhere(done, STAGING, f.unstage, Book(m.name));
    OpenBookFrame(done, RemoveAll(done, STAGING, f.unstage), m.name);
    if f.mkBook {
      PlaceOrCleanOpens(sys, Prepared(fs, archive, f, m), m, f);
    } else {
      SoundBookOpens(sys, staged, m.name);
    }
  }

  /** With a staging directory left behind, a start can read an otherwise sound library
      exactly if that directory happens to hold a pointer, and recipes below what it names. */
  lemma LeftStagingExactly(sys: System, fs: Files)
    requires Sound(sys, fs) && Exists(fs, STAGING)
    ensures Opens(fs) <==> IsFile(fs, Current(".new")) && Root(fs, ".new") + ["recipes"] in fs
  {
    assert STAGING == Book(".new");
    forall n | n != ".new" ensures OpenBook(fs, n) {
      assert SoundBook(sys, fs, n);
      SoundBookOpens(sys, fs, n);
    }
    assert Opens(fs) <==> OpenBook(fs, ".new");
  }

  /** An empty pointer names the staging directory itself. */
  lemma StagingWithPointerOpens()
    ensures var fs := map[STAGING := Dir, Current(".new") := File(""), STAGING + ["recipes"] := Dir];
      STAGING in fs && Opens(fs)
  {
    var fs: Files := map[STAGING := Dir, Current(".new") := File(""), STAGING + ["recipes"] := Dir];
    assert Trim("") == "" && Book(".new") == STAGING;
    assert Current(".new")[2] != (STAGING + ["recipes"])[2];
    assert fs[Current(".new")] == File("");
    forall n | n != ".new" ensures OpenBook(fs, n) {
      assert Book(n)[1] != STAGING[1];
    }
    assert OpenBook(fs, ".new");
  }

  // ---- the next start ----

  /** After an import that got as far as loading, whether it succeeded or not and whether it
      was an upgrade or not, the next start works exactly when every recipe of the imported
      cookbook loads. The import itself does not look at that. */
  lemma NextStartExactly(sys: System, parse: Parser, fs: Files, archive: Files, f: Faults, core: Path)
    requires AtRest(fs, core) && Sound(sys, fs) && StartWorks(sys, parse, fs, core)
    requires StartsLoading(sys, fs, archive, f) && f.unstage.Removed?
    ensures var n, after := Accepted(sys, fs, archive, f).value.name, Import(sys, fs, archive, f).fs;
      && IsFile(after, Current(n))
      && (StartWorks(sys, parse, after, core) <==>
          forall job | MetAt(after, Root(after, n), job) :: !Fails(DiskOf(sys, parse, after, core), job))
  {
    var n, after := Accepted(sys, fs, archive, f).value.name, Import(sys, fs, archive, f).fs;
    LoadingImportLeaves(sys, fs, archive, f);
    ImportOnlyBook(sys, fs, archive, f, core);
    StagingGone(sys, fs, archive, f);
    LoadedEntriesOpen(sys, fs, archive, f, n);
    assert Under(core, core + ["recipes"]) && Same(fs, after, core + ["recipes"]);
    forall job | Met(after, core, job) && job.root != Root(after, n)
      ensures !Fails(DiskOf(sys, parse, after, core), job)
    {
      OldJobLoads(sys, parse, fs, after, core, n, job);
    }
    forall job | MetAt(after, Root(after, n), job) ensures Met(after, core, job) {
    }
  }

  lemma LoadedEntriesOpen(sys: System, fs: Files, archive: Files, f: Faults, n: string)
    requires Sound(sys, fs) && StartsLoading(sys, fs, archive, f) && Absent(Import(sys, fs, archive, f).fs, STAGING)
    requires n == Accepted(sys, fs, archive, f).value.name
    ensures Opens(Import(sys, fs, archive, f).fs)
  {
    var after := Import(sys, fs, archive, f).fs;
    forall x ensures OpenBook(after, x) {
      if x != n {
        OtherEntryOpens(sys, fs, archive, f, x);
      } else {
        LoadingImportLeaves(sys, fs, archive, f);
        var loaded := InBook(Staged(fs, archive, f), Accepted(sys, fs, archive, f).value, f).fs;
        assert Under(Book(n), Root(loaded, n) + ["recipes"]) && Same(loaded, after, Root(loaded, n) + ["recipes"]);
      }
    }
  }

  /** A job outside the imported cookbook was met, and loaded, before. */
  lemma OldJobLoads(sys: System, parse: Parser, fs: Files, after: Files, core: Path, n: string, job: Job)
    requires AtRest(fs, core) && AtRest(after, core) && OnlyBook(fs, after, core, n) && StartWorks(sys, parse, fs, core)
    requires Met(after, core, job) && IsFile(after, Current(n)) && job.root != Root(after, n)
    ensures !Fails(DiskOf(sys, parse, after, core), job)
  {
    OtherRootSame(after, fs, core, n, job.root);
    RootAgrees(sys, parse, after, fs, core, job);
    assert Met(fs, core, job);
  }
}
