// When an import succeeds and what it then leaves; that it leaves no staging directory; and
// that it leaves installed versions as they are.
module LibraryImports {
  import opened Recipes
  import opened FileTree
  import opened Library
  import opened LibrarySound

  // ---- when an import succeeds, and what it then leaves ----

  /** v nested in itself k times. */
  function Nest(v: string, k: nat): (p: Path)
    ensures |p| == k
  {
    if k == 0 then [] else [v] + Nest(v, k - 1)
  }

  lemma {:induction false} NestInside(fs: Files, p: Path, v: string, k: nat)
    requires p in fs && Tree(fs, p) == Tree(fs, p + [v])
    ensures p + Nest(v, k) in fs
  {
    if k == 0 {
      assert p + Nest(v, 0) == p;
    } else {
      NestInside(fs, p, v, k - 1);
      TreeAt(fs, p, Nest(v, k - 1));
      TreeAt(fs, p + [v], Nest(v, k - 1));
      assert p + [v] + Nest(v, k - 1) == p + Nest(v, k);
    }
  }

  lemma {:induction false} LongestPath(paths: set<Path>) returns (n: nat)
    ensures forall p | p in paths :: |p| < n
  {
    if paths == {} {
      n := 0;
    } else {
      var p :| p in paths;
      n := LongestPath(paths - {p});
      if n <= |p| { n := |p| + 1; }
    }
  }

  /** A directory is not a copy of one inside it. */
  lemma NotOwnCopy(fs: Files, p: Path, v: string)
    requires p in fs
    ensures Tree(fs, p) != Tree(fs, p + [v])
  {
    if Tree(fs, p) == Tree(fs, p + [v]) {
      var n := LongestPath(fs.Keys);
      NestInside(fs, p, v, n);
      assert p + Nest(v, n) in fs.Keys;
      assert false;
    }
  }

  lemma StagingNotPlaced(fs: Files, m: Manifest, f: Faults)
    requires m.name == ".new" && STAGING in fs
    ensures Placed(fs, m, f) == None && Place(fs, m, f) == Result(fs, false)
  {
    var vp := Version(m.name, m.version);
    assert vp == STAGING + [m.version];
    NotOwnCopy(fs, STAGING, m.version);
    assert STAGING == vp[..2];
  }

  /** A cookbook that calls itself ".new" is never imported. */
  lemma StagingNameFails(sys: System, fs: Files, archive: Files, f: Faults)
    requires var m := Accepted(sys, fs, archive, f); m.Some? && m.value.name == ".new"
    ensures !Import(sys, fs, archive, f).ok
  {
    var m := Accepted(sys, fs, archive, f).value;
    StagedIsDir(fs, archive, f);
    StagingNotPlaced(Prepared(fs, archive, f, m), m, f);
  }

  /** The import gets as far as loading the recipes, and both walks find their directory:
      trimming keeps the version, or names a directory that has what the walks look for. */
  ghost predicate StartsLoading(sys: System, fs: Files, archive: Files, f: Faults) {
    match Accepted(sys, fs, archive, f)
    case None => false
    case Some(m) =>
      && m.name != ".new" && m.version != "CURRENT" && f.mkBook
      && Reaches(Prepared(fs, archive, f, m), m, f) && f.write.Written?
      && (Trim(m.version) == m.version || Loadable(Prepared(fs, archive, f, m), NamedRoot(m.name, m.version)))
  }

  /** An import succeeds exactly when it gets as far as loading and all is loaded. */
  ghost predicate Succeeds(sys: System, fs: Files, archive: Files, f: Faults) {
    StartsLoading(sys, fs, archive, f) && f.load.AllLoaded?
  }

  lemma PointerPlaceable(sys: System, fs: Files, archive: Files, f: Faults)
    requires Sound(sys, fs) && Accepted(sys, fs, archive, f).Some?
    requires Accepted(sys, fs, archive, f).value.name != ".new"
    ensures var m := Accepted(sys, fs, archive, f).value;
      && Ready(sys, Prepared(fs, archive, f, m), m) && CanMkdir(Staged(fs, archive, f), Book(m.name))
      && SoundBook(sys, Staged(fs, archive, f), m.name)
  {
    var n := Accepted(sys, fs, archive, f).value.name;
    StagingApart(n);
    StagedElsewhere(fs, archive, f, Book(n));
    SoundBookFrame(sys, fs, Staged(fs, archive, f), n);
    SoundCanMkdir(sys, fs, archive, f, n);
    AcceptedReady(sys, fs, archive, f);
  }

  lemma PointSucceedsExactly(sys: System, fs: Files, m: Manifest, f: Faults)
    requires PointerOk(sys, fs, m.name)
    ensures Point(fs, m, f).ok <==> f.write.Written? && f.load.AllLoaded? && Loadable(fs, NamedRoot(m.name, m.version))
    ensures f.write.Written? ==>
      && IsFile(Point(fs, m, f).fs, Current(m.name)) && Point(fs, m, f).fs[Current(m.name)].text == m.version
      && Loadable(Point(fs, m, f).fs, NamedRoot(m.name, m.version)) == Loadable(fs, NamedRoot(m.name, m.version))
  {
    var root := NamedRoot(m.name, m.version);
    assert |root + PLUGINS| > |Current(m.name)|;
    assert root + ["recipes"] != Current(m.name) by {
      assert root == Book(m.name) ==> (root + ["recipes"])[2] == "recipes";
    }
    PointElsewhere(fs, m, f, root + PLUGINS);
    PointElsewhere(fs, m, f, root + ["recipes"]);
  }

  /** The directories that loading looks for are there once the cookbook is in place exactly
      when they are its own or were there before. */
  lemma MoveLoadable(sys: System, fs: Files, m: Manifest)
    requires Ready(sys, fs, m) && !Exists(fs, Version(m.name, m.version)) && Trim(m.version) != m.version
    ensures var root := NamedRoot(m.name, m.version);
      Loadable(Move(fs, STAGING, Version(m.name, m.version)), root) == Loadable(fs, root)
  {
    var root, vp := NamedRoot(m.name, m.version), Version(m.name, m.version);
    StagingApart(m.name);
    assert Under(Book(m.name), root + PLUGINS) && Under(Book(m.name), root + ["recipes"]);
    ApartFromBelow(Book(m.name), root + PLUGINS, STAGING);
    ApartFromBelow(Book(m.name), root + ["recipes"], STAGING);
    assert (root + PLUGINS)[2] != vp[2] && (root + ["recipes"])[2] != vp[2] by {
      assert root == Book(m.name) ==> Trim(m.version) == "" && m.version != "bin" && m.version != "recipes";
    }
    MoveElsewhere(fs, STAGING, vp, root + PLUGINS);
    MoveElsewhere(fs, STAGING, vp, root + ["recipes"]);
    assert Same(fs, Move(fs, STAGING, vp), root + PLUGINS) && Same(fs, Move(fs, STAGING, vp), root + ["recipes"]);
  }

  lemma InstalledLoadable(sys: System, fs: Files, n: string, v: string)
    requires Installed(sys, fs, n, v) && Trim(v) == v
    ensures NamedRoot(n, v) == Version(n, v) && Loadable(fs, NamedRoot(n, v))
  {
  }

  /** What reaching the pointer leaves: the directory of the version, and the pointer. */
  lemma PlaceWrites(sys: System, fs: Files, m: Manifest, f: Faults)
    requires Ready(sys, fs, m) && m.version != "CURRENT" && Reaches(fs, m, f) && f.write.Written?
    ensures var r, root := Place(fs, m, f), NamedRoot(m.name, m.version);
      && IsFile(r.fs, Current(m.name)) && r.fs[Current(m.name)].text == m.version
      && Tree(r.fs, Version(m.name, m.version)) == Tree(fs, STAGING)
      && (Loadable(r.fs, root) <==> Trim(m.version) == m.version || Loadable(fs, root))
      && (r.ok <==> f.load.AllLoaded? && Loadable(r.fs, root))
  {
    PlaceMoves(sys, fs, m, f);
    var vp := Version(m.name, m.version);
    var at := if Exists(fs, vp) then fs else Move(fs, STAGING, vp);
    if Exists(fs, vp) {
      ReachedInstalled(sys, fs, m, f);
    } else {
      MoveInstalls(sys, fs, m);
      if Trim(m.version) != m.version { MoveLoadable(sys, fs, m); }
    }
    if Trim(m.version) == m.version { InstalledLoadable(sys, at, m.name, m.version); }
    PointSucceedsExactly(sys, at, m, f);
    assert vp[2] != Current(m.name)[2];
    PointBelow(at, m, f, vp);
    TreesAgree(at, Point(at, m, f).fs, vp);
  }

  lemma PlaceSucceedsExactly(sys: System, fs: Files, m: Manifest, f: Faults)
    requires Ready(sys, fs, m)
    ensures Place(fs, m, f).ok <==>
      && m.version != "CURRENT" && Reaches(fs, m, f) && f.write.Written? && f.load.AllLoaded?
      && (Trim(m.version) == m.version || Loadable(fs, NamedRoot(m.name, m.version)))
  {
    PlaceMoves(sys, fs, m, f);
    if m.version == "CURRENT" && Reaches(fs, m, f) {
      CurrentBecomesDir(sys, fs, m, f);
    } else if Reaches(fs, m, f) && f.write.Written? {
      PlaceWrites(sys, fs, m, f);
    }
  }

  /** An import that starts loading, whether or not it then succeeds, leaves the pointer
      with the version, the versioned directory with what was unpacked, and both directories
      that the walks look for. */
  lemma LoadingImportLeaves(sys: System, fs: Files, archive: Files, f: Faults)
    requires Sound(sys, fs) && StartsLoading(sys, fs, archive, f)
    ensures var m := Accepted(sys, fs, archive, f).value;
      var loaded, after := InBook(Staged(fs, archive, f), m, f).fs, Import(sys, fs, archive, f).fs;
      && IsFile(after, Current(m.name)) && after[Current(m.name)].text == m.version
      && IsFile(loaded, Current(m.name)) && loaded[Current(m.name)].text == m.version
      && Tree(after, Version(m.name, m.version)) == Tree(Staged(fs, archive, f), STAGING)
      && Loadable(loaded, NamedRoot(m.name, m.version)) && SameBelow(loaded, after, Book(m.name))
  {
    var m := Accepted(sys, fs, archive, f).value;
    PointerPlaceable(sys, fs, archive, f);
    PlaceWrites(sys, Prepared(fs, archive, f, m), m, f);
    SuccessIsKept(fs, archive, f, m);
  }

  /** When an import succeeds: exactly as Succeeds says; then the pointer holds the version
      and the versioned directory holds what was unpacked, whether it was just moved there
      or had been there before. */
  lemma ImportSucceedsExactly(sys: System, fs: Files, archive: Files, f: Faults)
    requires Sound(sys, fs)
    ensures Import(sys, fs, archive, f).ok <==> Succeeds(sys, fs, archive, f)
    ensures Import(sys, fs, archive, f).ok ==>
      var m, after := Accepted(sys, fs, archive, f).value, Import(sys, fs, archive, f).fs;
      && IsFile(after, Current(m.name)) && after[Current(m.name)].text == m.version
      && Tree(after, Version(m.name, m.version)) == Tree(Staged(fs, archive, f), STAGING)
  {
    SucceedsExactly(sys, fs, archive, f);
    if Succeeds(sys, fs, archive, f) {
      LoadingImportLeaves(sys, fs, archive, f);
    }
  }

  /** Under a sound book the pointer is written exactly when nothing fails up to there. */
  lemma WritesPointerExactly(sys: System, fs: Files, m: Manifest, f: Faults)
    requires Ready(sys, fs, m)
    ensures WritesPointer(fs, m, f) <==> m.version != "CURRENT" && Reaches(fs, m, f) && f.write.Written?
  {
    PlaceMoves(sys, fs, m, f);
    if m.version == "CURRENT" && Reaches(fs, m, f) {
      CurrentBecomesDir(sys, fs, m, f);
    } else if Reaches(fs, m, f) && !Exists(fs, Version(m.name, m.version)) {
      MoveInstalls(sys, fs, m);
    }
  }

  lemma SucceedsExactly(sys: System, fs: Files, archive: Files, f: Faults)
    requires Sound(sys, fs)
    ensures Import(sys, fs, archive, f).ok <==> Succeeds(sys, fs, archive, f)
  {
    var accepted := Accepted(sys, fs, archive, f);
    if accepted.Some? && accepted.value.name == ".new" {
      StagingNameFails(sys, fs, archive, f);
    } else if accepted.Some? {
      PointerPlaceable(sys, fs, archive, f);
      PlaceSucceedsExactly(sys, Prepared(fs, archive, f, accepted.value), accepted.value, f);
    }
  }

  /** A successful import leaves the library sound exactly when trimming keeps the version or
      names one that is installed. */
  lemma SuccessSoundExactly(sys: System, fs: Files, archive: Files, f: Faults, m: Manifest)
    requires Sound(sys, fs) && Accepted(sys, fs, archive, f) == Some(m) && Succeeds(sys, fs, archive, f)
    ensures Sound(sys, Import(sys, fs, archive, f).fs) <==>
      Trim(m.version) == m.version || Installed(sys, Prepared(fs, archive, f, m), m.name, Trim(m.version))
  {
    ImportSoundExactly(sys, fs, archive, f);
  }

  lemma SuccessIsKept(fs: Files, archive: Files, f: Faults, m: Manifest)
    requires m.name != ".new"
    ensures var made, r := Prepared(fs, archive, f, m), Place(Prepared(fs, archive, f, m), m, f);
      var after := RemoveAll(r.fs, STAGING, f.unstage);
      && SameBelow(r.fs, after, Book(m.name))
      && Same(r.fs, after, Current(m.name))
      && Tree(r.fs, Version(m.name, m.version)) == Tree(after, Version(m.name, m.version))
      && Tree(made, STAGING) == Tree(Staged(fs, archive, f), STAGING)
  {
    var made, r := Prepared(fs, archive, f, m), Place(Prepared(fs, archive, f, m), m, f);
    var after := RemoveAll(r.fs, STAGING, f.unstage);
    StagingApart(m.name);
    RemoveAllElsewhere(r.fs, STAGING, f.unstage, Book(m.name));
    assert Under(Book(m.name), Current(m.name));
    SameBelowNarrows(r.fs, after, Book(m.name), Version(m.name, m.version));
    TreesAgree(r.fs, after, Version(m.name, m.version));
    MkdirAllElsewhere(Staged(fs, archive, f), Book(m.name), STAGING);
    TreesAgree(Staged(fs, archive, f), made, STAGING);
  }

  lemma StagedPath(fs: Files, archive: Files, f: Faults, r: Path)
    requires f.clear.Removed? && r != []
    ensures STAGING + r in Staged(fs, archive, f) <==> r in archive
    ensures r in archive ==> Staged(fs, archive, f)[STAGING + r] == archive[r]
  {
    var cleared := RemoveAll(fs, STAGING, f.clear);
    assert Under(STAGING, STAGING + r) && (STAGING + r)[|STAGING|..] == r;
    MkdirAllElsewhere(cleared, STAGING, STAGING + r);
    assert Same(cleared, MkdirAll(cleared, STAGING), STAGING + r);
    GraftAt(MkdirAll(cleared, STAGING), STAGING, archive - {[]}, STAGING + r);
  }

  /** An archive that unpacks into an emptied staging directory is validated as it is. */
  lemma ArchiveAccepted(sys: System, fs: Files, archive: Files, f: Faults)
    requires !IsFile(fs, []) && !IsFile(fs, LIBRARY) && f.clear.Removed? && f.mkStaging && f.unzip && f.readMetadata
    ensures Accepted(sys, fs, archive, f) == Validate(sys, archive, [])
  {
    assert CanMkdir(RemoveAll(fs, STAGING, Removed), STAGING) by {
      assert STAGING[..0] == [] && STAGING[..1] == LIBRARY && STAGING[..2] == STAGING;
    }
    assert [] + PLUGINS == PLUGINS && [] + ["recipes"] == ["recipes"] && [] + ["METADATA"] == ["METADATA"];
    StagedPath(fs, archive, f, PLUGINS);
    StagedPath(fs, archive, f, ["recipes"]);
    StagedPath(fs, archive, f, ["METADATA"]);
  }

  /** A well-formed archive of a plain version of a cookbook that is not in the library is
      imported when nothing fails, and the library stays sound. */
  lemma WellFormedArchiveImports(sys: System, fs: Files, archive: Files)
    requires Sound(sys, fs) && !IsFile(fs, []) && !IsFile(fs, LIBRARY)
    requires var m := Validate(sys, archive, []);
      m.Some? && m.value.name != ".new" && Plain(m.value.version) && Absent(fs, Book(m.value.name))
    ensures Accepted(sys, fs, archive, FaultFree) == Validate(sys, archive, [])
    ensures StartsLoading(sys, fs, archive, FaultFree)
    ensures Import(sys, fs, archive, FaultFree).ok && Sound(sys, Import(sys, fs, archive, FaultFree).fs)
  {
    ArchiveAccepted(sys, fs, archive, FaultFree);
    NewBookReaches(sys, fs, archive, Validate(sys, archive, []).value);
    SucceedsExactly(sys, fs, archive, FaultFree);
    PlainImportKeepsSound(sys, fs, archive, FaultFree);
  }

  lemma NewBookReaches(sys: System, fs: Files, archive: Files, m: Manifest)
    requires m.name != ".new" && Absent(fs, Book(m.name))
    ensures Reaches(Prepared(fs, archive, FaultFree, m), m, FaultFree)
    ensures !Exists(Prepared(fs, archive, FaultFree, m), Version(m.name, m.version))
  {
    var staged := Staged(fs, archive, FaultFree);
    StagingApart(m.name);
    StagedElsewhere(fs, archive, FaultFree, Book(m.name));
    AbsentBelow(fs, staged, Book(m.name));
    NothingBelowNewBook(sys, staged, m.name, m.version);
  }

  // ---- staging ----

  /** The staging directory is gone when the call returns, unless removing it failed. */
  lemma StagingGone(sys: System, fs: Files, archive: Files, f: Faults)
    requires if CanStage(fs, f) then f.unstage.Removed? else f.clear.Removed? || Absent(fs, STAGING)
    ensures Absent(Import(sys, fs, archive, f).fs, STAGING)
  {
  }

  // ---- installed versions do not change ----

  /** The import's deferred clean-up removes the directory of cookbook n. */
  ghost predicate CleansBook(sys: System, fs: Files, archive: Files, f: Faults, n: string) {
    match Accepted(sys, fs, archive, f)
    case None => false
    case Some(m) =>
      var made := Prepared(fs, archive, f, m);
      m.name == n && f.mkBook && CanMkdir(Staged(fs, archive, f), Book(n)) && CleansUp(Place(made, m, f), m, f)
  }

  /** An import leaves every installed version of every cookbook as it is, unless it cleans
      up that cookbook's directory. */
  lemma ImportKeepsVersion(sys: System, fs: Files, archive: Files, f: Faults, n: string, v: string)
    requires n != ".new" && v != "CURRENT" && Exists(fs, Version(n, v)) && !CleansBook(sys, fs, archive, f, n)
    ensures SameBelow(fs, Import(sys, fs, archive, f).fs, Version(n, v))
  {
    var accepted, x := Accepted(sys, fs, archive, f), Version(n, v);
    StagingApart(n);
    ApartFromBelow(Book(n), x, STAGING);
    if accepted.None? || accepted.value.name != n {
      if accepted.Some? {
        BooksApart(n, accepted.value.name);
        ApartFromBelow(Book(n), x, Book(accepted.value.name));
      }
      ImportElsewhere(sys, fs, archive, f, x);
    } else {
      OwnVersionKept(sys, fs, archive, f, accepted.value, v);
    }
  }

  lemma OwnVersionKept(sys: System, fs: Files, archive: Files, f: Faults, m: Manifest, v: string)
    requires Accepted(sys, fs, archive, f) == Some(m) && m.name != ".new" && v != "CURRENT"
    requires v != m.version || Exists(fs, Version(m.name, v))
    requires !CleansBook(sys, fs, archive, f, m.name)
    ensures SameBelow(fs, Import(sys, fs, archive, f).fs, Version(m.name, v))
  {
    var n, x, staged := m.name, Version(m.name, v), Staged(fs, archive, f);
    StagingApart(n);
    ApartFromBelow(Book(n), x, STAGING);
    StagedElsewhere(fs, archive, f, x);
    var done := InBook(staged, m, f).fs;
    if f.mkBook && CanMkdir(staged, Book(n)) {
      var made := Prepared(fs, archive, f, m);
      MkdirAllElsewhere(staged, Book(n), x);
      SameBelowJoins(fs, staged, made, x);
      assert Current(n)[2] != x[2];
      assert m.version == v || Version(n, m.version)[2] != x[2];
      PlaceBelow(made, m, f, x);
      SameBelowJoins(fs, made, done, x);
    }
    RemoveAllElsewhere(done, STAGING, f.unstage, x);
    SameBelowJoins(fs, done, RemoveAll(done, STAGING, f.unstage), x);
  }

  /** The clean-up removes a cookbook with installed versions exactly when the old pointer
      was removed and the new one could not be written: a failed upgrade then deletes every
      version of the cookbook. */
  lemma InstalledCleanedExactly(sys: System, fs: Files, archive: Files, f: Faults, n: string)
    requires Sound(sys, fs) && Pointed(sys, fs, n) && n != ".new"
    ensures CleansBook(sys, fs, archive, f, n) <==>
      var accepted := Accepted(sys, fs, archive, f);
      && accepted.Some? && accepted.value.name == n && f.mkBook && accepted.value.version != "CURRENT"
      && Reaches(Prepared(fs, archive, f, accepted.value), accepted.value, f)
      && f.removeCurrent && f.write.Untouched? && f.statCurrent
  {
    var accepted := Accepted(sys, fs, archive, f);
    if accepted.Some? && accepted.value.name == n {
      PointerPlaceable(sys, fs, archive, f);
      PointerStays(fs, archive, f, accepted.value);
      PointedCleansExactly(sys, Prepared(fs, archive, f, accepted.value), accepted.value, f);
    }
  }

  lemma PointedCleansExactly(sys: System, fs: Files, m: Manifest, f: Faults)
    requires Ready(sys, fs, m) && Current(m.name) in fs
    ensures CleansUp(Place(fs, m, f), m, f) <==>
      m.version != "CURRENT" && Reaches(fs, m, f) && f.removeCurrent && f.write.Untouched? && f.statCurrent
  {
    if m.version != "CURRENT" {
      PlaceExactly(sys, fs, m, f);
    } else if Reaches(fs, m, f) {
      CurrentBecomesDir(sys, fs, m, f);
    } else {
      PlaceMoves(sys, fs, m, f);
    }
  }

  lemma PointerStays(fs: Files, archive: Files, f: Faults, m: Manifest)
    requires m.name != ".new"
    ensures Current(m.name) in fs <==> Current(m.name) in Prepared(fs, archive, f, m)
  {
    StagingApart(m.name);
    ApartFromBelow(Book(m.name), Current(m.name), STAGING);
    StagedElsewhere(fs, archive, f, Current(m.name));
    MkdirAllElsewhere(Staged(fs, archive, f), Book(m.name), Current(m.name));
    assert Same(fs, Staged(fs, archive, f), Current(m.name));
    assert Same(Staged(fs, archive, f), Prepared(fs, archive, f, m), Current(m.name));
  }

  /** A fault-free import of a cookbook that is not in the library yet keeps it sound exactly
      when its version is plain. */
  lemma FreshImportSoundExactly(sys: System, fs: Files, archive: Files)
    requires Sound(sys, fs)
    requires var m := Accepted(sys, fs, archive, FaultFree);
      m.Some? && m.value.name != ".new" && Absent(fs, Book(m.value.name))
    ensures Sound(sys, Import(sys, fs, archive, FaultFree).fs) <==>
      Plain(Accepted(sys, fs, archive, FaultFree).value.version)
  {
    var f := FaultFree;
    var m := Accepted(sys, fs, archive, f).value;
    var staged, made := Staged(fs, archive, f), Prepared(fs, archive, f, m);
    ImportSoundExactly(sys, fs, archive, f);
    PointerStays(fs, archive, f, m);
    StagingApart(m.name);
    StagedElsewhere(fs, archive, f, Book(m.name));
    AbsentBelow(fs, staged, Book(m.name));
    NothingBelowNewBook(sys, staged, m.name, m.version);
    NothingBelowNewBook(sys, staged, m.name, Trim(m.version));
    assert Under(Book(m.name), Current(m.name));
  }

  lemma NothingBelowNewBook(sys: System, fs: Files, n: string, v: string)
    requires Absent(fs, Book(n))
    ensures !Exists(MkdirAll(fs, Book(n)), Version(n, v)) && !Installed(sys, MkdirAll(fs, Book(n)), n, v)
  {
    MkdirAllElsewhere(fs, Book(n), Version(n, v));
    InstalledFrame(sys, fs, MkdirAll(fs, Book(n)), n, v);
    assert forall q | Under(Version(n, v), q) :: Under(Book(n), q);
  }
}
