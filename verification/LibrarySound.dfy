// When an import keeps the library sound: every cookbook directory has a CURRENT that
// names an installed version.
module LibrarySound {
  import opened Recipes
  import opened FileTree
  import opened Library

  /** A version whose directory is not the pointer itself and whose name survives trimming. */
  predicate Plain(v: string) { v != "CURRENT" && Trim(v) == v }

  /** The clean-up works when it is needed, and a failed write leaves no torn pointer. */
  predicate Atomic(f: Faults) {
    f.statCurrent && f.cleanup.Removed? && !f.write.Torn?
  }

  // ---- one directory at a time ----

  lemma TreePath(a: Files, p: Path, b: Files, q: Path, r: Path)
    requires Tree(a, p) == Tree(b, q)
    ensures p + r in a <==> q + r in b
    ensures p + r in a ==> a[p + r] == b[q + r]
  {
    TreeAt(a, p, r);
    TreeAt(b, q, r);
  }

  lemma ValidateTree(sys: System, a: Files, p: Path, b: Files, q: Path)
    requires Tree(a, p) == Tree(b, q)
    ensures Validate(sys, a, p) == Validate(sys, b, q)
    ensures IsDir(a, p) == IsDir(b, q)
  {
    TreePath(a, p, b, q, PLUGINS);
    TreePath(a, p, b, q, ["recipes"]);
    TreePath(a, p, b, q, ["METADATA"]);
    TreePath(a, p, b, q, []);
    assert p + [] == p && q + [] == q;
  }

  /** An unpacked archive that validates is at a directory. */
  lemma StagedIsDir(fs: Files, archive: Files, f: Faults)
    requires CanStage(fs, f)
    ensures IsDir(Staged(fs, archive, f), STAGING)
    ensures !IsFile(Staged(fs, archive, f), []) && !IsFile(Staged(fs, archive, f), LIBRARY)
  {
    var a := RemoveAll(fs, STAGING, f.clear);
    var b := MkdirAll(a, STAGING);
    assert STAGING[..2] == STAGING && STAGING[..1] == LIBRARY && STAGING[..0] == [];
    assert !IsFile(a, STAGING[..2]) && !IsFile(a, STAGING[..1]) && !IsFile(a, STAGING[..0]);
    GraftAt(b, STAGING, archive - {[]}, STAGING);
    GraftAt(b, STAGING, archive - {[]}, LIBRARY);
    GraftAt(b, STAGING, archive - {[]}, []);
    assert STAGING[|STAGING|..] == [];
  }

  // ---- the pointer ----

  /** The pointer, if there is one, names an installed version. */
  ghost predicate PointerOk(sys: System, fs: Files, n: string) {
    IsDir(fs, Book(n)) && (Current(n) in fs ==> Pointed(sys, fs, n))
  }

  lemma InstalledAfterPoint(sys: System, fs: Files, m: Manifest, f: Faults, v: string)
    requires v != "CURRENT" || (PointerOk(sys, fs, m.name) && IsFile(Point(fs, m, f).fs, Current(m.name)))
    ensures Installed(sys, fs, m.name, v) == Installed(sys, Point(fs, m, f).fs, m.name, v)
  {
    if v == "CURRENT" {
      CurrentNotInstalled(sys, fs, m.name);
      return;
    }
    assert Current(m.name)[2] != Version(m.name, v)[2];
    PointBelow(fs, m, f, Version(m.name, v));
    InstalledFrame(sys, fs, Point(fs, m, f).fs, m.name, v);
  }

  /** What a write that was not refused leaves in the pointer. */
  function PointerText(m: Manifest, f: Faults): string {
    if f.write.Torn? then f.write.text else m.version
  }

  lemma CurrentNotInstalled(sys: System, fs: Files, n: string)
    requires PointerOk(sys, fs, n)
    ensures !Installed(sys, fs, n, "CURRENT")
  {
    assert Version(n, "CURRENT") == Current(n);
  }

  /** Rewriting the pointer to an installed version: it is gone, or still the old one, or
      names an installed version exactly when the text that was written does. */
  lemma PointExactly(sys: System, fs: Files, m: Manifest, f: Faults)
    requires Installed(sys, fs, m.name, m.version) && PointerOk(sys, fs, m.name) && m.version != "CURRENT"
    ensures var r := Point(fs, m, f);
      && IsDir(r.fs, Book(m.name)) && (r.ok ==> Current(m.name) in r.fs)
      && (Current(m.name) !in r.fs <==> f.write.Untouched? && (f.removeCurrent || Current(m.name) !in fs))
      && (Current(m.name) in r.fs ==>
          (Pointed(sys, r.fs, m.name) <==> f.write.Untouched? || Installed(sys, fs, m.name, Trim(PointerText(m, f)))))
  {
    var n, r := m.name, Point(fs, m, f);
    PointElsewhere(fs, m, f, Book(n));
    CurrentNotInstalled(sys, fs, n);
    if Current(n) in r.fs && !f.write.Untouched? {
      InstalledAfterPoint(sys, fs, m, f, Trim(PointerText(m, f)));
    }
    if Current(n) in fs {
      InstalledAfterPoint(sys, fs, m, f, Trim(fs[Current(n)].text));
    }
  }

  lemma PointerAfterMkdir(sys: System, fs: Files, n: string)
    requires SoundBook(sys, fs, n) && CanMkdir(fs, Book(n))
    ensures PointerOk(sys, MkdirAll(fs, Book(n)), n)
  {
    MkdirAllMakes(fs, Book(n));
    MkdirAllElsewhere(fs, Book(n), Current(n));
    assert Same(fs, MkdirAll(fs, Book(n)), Current(n)) && Under(Book(n), Current(n));
    if Pointed(sys, fs, n) {
    }
  }

  // ---- placing the staged cookbook ----

  /** A validated cookbook is staged, and its book has a directory. */
  ghost predicate Ready(sys: System, fs: Files, m: Manifest) {
    && m.name != ".new" && PointerOk(sys, fs, m.name)
    && IsDir(fs, STAGING) && Validate(sys, fs, STAGING) == Some(m)
  }

  lemma SameTreeInstalled(sys: System, a: Files, b: Files, m: Manifest)
    requires IsDir(a, STAGING) && Validate(sys, a, STAGING) == Some(m)
    requires Tree(a, STAGING) == Tree(b, Version(m.name, m.version))
    ensures Installed(sys, b, m.name, m.version)
  {
    ValidateTree(sys, a, STAGING, b, Version(m.name, m.version));
  }

  /** Moving the staged cookbook installs it and leaves the pointer as it was. */
  lemma MoveInstalls(sys: System, fs: Files, m: Manifest)
    requires Ready(sys, fs, m) && !Exists(fs, Version(m.name, m.version))
    ensures var moved := Move(fs, STAGING, Version(m.name, m.version));
      && Installed(sys, moved, m.name, m.version)
      && Tree(moved, Version(m.name, m.version)) == Tree(fs, STAGING)
      && IsDir(moved, Book(m.name))
      && (m.version != "CURRENT" ==> PointerOk(sys, moved, m.name))
  {
    var vp := Version(m.name, m.version);
    var moved := Move(fs, STAGING, vp);
    StagingApart(m.name);
    ApartFromBelow(Book(m.name), vp, STAGING);
    MovedTree(fs, STAGING, vp);
    SameTreeInstalled(sys, fs, moved, m);
    GraftAt(RemoveAll(fs, STAGING, Removed), vp, Tree(fs, STAGING), Book(m.name));
    if m.version != "CURRENT" {
      MovePointer(sys, fs, m);
    }
  }

  lemma MovedPointer(sys: System, fs: Files, m: Manifest)
    requires Ready(sys, fs, m) && !Exists(fs, Version(m.name, m.version)) && m.version != "CURRENT"
    ensures Current(m.name) in fs <==> Current(m.name) in Move(fs, STAGING, Version(m.name, m.version))
  {
    var n, vp := m.name, Version(m.name, m.version);
    StagingApart(n);
    assert vp[2] != Current(n)[2];
    ApartFromBelow(Book(n), Current(n), STAGING);
    MoveElsewhere(fs, STAGING, vp, Current(n));
    assert Same(fs, Move(fs, STAGING, vp), Current(n));
  }

  lemma MovePointer(sys: System, fs: Files, m: Manifest)
    requires Ready(sys, fs, m) && !Exists(fs, Version(m.name, m.version)) && m.version != "CURRENT"
    ensures PointerOk(sys, Move(fs, STAGING, Version(m.name, m.version)), m.name)
  {
    var n, vp := m.name, Version(m.name, m.version);
    var moved := Move(fs, STAGING, vp);
    StagingApart(n);
    GraftAt(RemoveAll(fs, STAGING, Removed), vp, Tree(fs, STAGING), Book(n));
    assert vp[2] != Current(n)[2];
    ApartFromBelow(Book(n), Current(n), STAGING);
    MoveElsewhere(fs, STAGING, vp, Current(n));
    assert Same(fs, moved, Current(n));
    if Current(n) in fs {
      MoveKeepsInstalled(sys, fs, m, Trim(fs[Current(n)].text));
    }
  }

  lemma MoveKeepsInstalled(sys: System, fs: Files, m: Manifest, v: string)
    requires m.name != ".new" && !Exists(fs, Version(m.name, m.version))
    ensures v != m.version ==>
      Installed(sys, Move(fs, STAGING, Version(m.name, m.version)), m.name, v) == Installed(sys, fs, m.name, v)
    ensures !Installed(sys, fs, m.name, m.version)
  {
    var n, vp := m.name, Version(m.name, m.version);
    if v != m.version {
      StagingApart(n);
      ApartFromBelow(Book(n), Version(n, v), STAGING);
      assert vp[2] != Version(n, v)[2];
      MoveElsewhere(fs, STAGING, vp, Version(n, v));
      InstalledFrame(sys, fs, Move(fs, STAGING, vp), n, v);
    }
    assert vp in fs ==> Under(vp, vp);
  }

  /** Nothing stops the import before the pointer is rewritten. */
  predicate Reaches(fs: Files, m: Manifest, f: Faults) {
    && f.statVersion
    && if Exists(fs, Version(m.name, m.version))
       then f.compare && Tree(fs, STAGING) == Tree(fs, Version(m.name, m.version))
       else f.rename
  }

  /** The pointer does not exist when the import ends. */
  predicate LosesPointer(fs: Files, m: Manifest, f: Faults) {
    if Reaches(fs, m, f) then f.write.Untouched? && (f.removeCurrent || Current(m.name) !in fs)
    else Current(m.name) !in fs
  }

  /** The pointer text that was written names the new version or one installed before. */
  ghost predicate Names(sys: System, fs: Files, m: Manifest, text: string) {
    Trim(text) == m.version || Installed(sys, fs, m.name, Trim(text))
  }

  /** When an import keeps its cookbook's directory sound: a lost pointer is followed by a
      clean-up, and a new pointer can be read back as an installed version. */
  ghost predicate Keeps(sys: System, fs: Files, m: Manifest, f: Faults) {
    if Reaches(fs, m, f) && m.version == "CURRENT" then false
    else if LosesPointer(fs, m, f) then f.statCurrent && f.cleanup.Removed?
    else !Reaches(fs, m, f) || f.write.Untouched? || Names(sys, fs, m, PointerText(m, f))
  }

  lemma ReachedInstalled(sys: System, fs: Files, m: Manifest, f: Faults)
    requires Ready(sys, fs, m) && Reaches(fs, m, f) && Exists(fs, Version(m.name, m.version))
    ensures Installed(sys, fs, m.name, m.version) && m.version != "CURRENT"
  {
    SameTreeInstalled(sys, fs, fs, m);
    CurrentNotInstalled(sys, fs, m.name);
  }

  lemma PlaceMoves(sys: System, fs: Files, m: Manifest, f: Faults)
    requires Ready(sys, fs, m)
    ensures Reaches(fs, m, f) ==>
      Place(fs, m, f) ==
        Point(if Exists(fs, Version(m.name, m.version)) then fs
              else Move(fs, STAGING, Version(m.name, m.version)), m, f)
    ensures !Reaches(fs, m, f) ==> Place(fs, m, f) == Result(fs, false)
  {
    assert STAGING[1] != Version(m.name, m.version)[1];
  }

  /** What Place leaves of the pointer, for a version that is not itself "CURRENT". */
  lemma PlaceExactly(sys: System, fs: Files, m: Manifest, f: Faults)
    requires Ready(sys, fs, m) && m.version != "CURRENT"
    ensures var r := Place(fs, m, f);
      && IsDir(r.fs, Book(m.name)) && (r.ok ==> Current(m.name) in r.fs)
      && (Current(m.name) !in r.fs <==> LosesPointer(fs, m, f))
      && (Current(m.name) in r.fs ==>
          (Pointed(sys, r.fs, m.name) <==>
           !Reaches(fs, m, f) || f.write.Untouched? || Names(sys, fs, m, PointerText(m, f))))
  {
    var vp := Version(m.name, m.version);
    PlaceMoves(sys, fs, m, f);
    if Reaches(fs, m, f) {
      if Exists(fs, vp) {
        ReachedInstalled(sys, fs, m, f);
        PointExactly(sys, fs, m, f);
      } else {
        MoveInstalls(sys, fs, m);
        MovedPointer(sys, fs, m);
        PointExactly(sys, Move(fs, STAGING, vp), m, f);
        MoveKeepsInstalled(sys, fs, m, Trim(PointerText(m, f)));
      }
    }
  }

  /** Version "CURRENT" puts a directory where the pointer should be. */
  lemma CurrentBecomesDir(sys: System, fs: Files, m: Manifest, f: Faults)
    requires Ready(sys, fs, m) && m.version == "CURRENT" && Reaches(fs, m, f)
    ensures var r := Place(fs, m, f); !r.ok && IsDir(r.fs, Current(m.name)) && IsDir(r.fs, Book(m.name))
  {
    var vp := Version(m.name, m.version);
    PlaceMoves(sys, fs, m, f);
    if Exists(fs, vp) {
      ReachedInstalled(sys, fs, m, f);
    } else {
      MoveInstalls(sys, fs, m);
      FullDirStays(sys, Move(fs, STAGING, vp), m, f);
    }
  }

  /** os.Remove and os.WriteFile both refuse a directory that is not empty. */
  lemma FullDirStays(sys: System, fs: Files, m: Manifest, f: Faults)
    requires m.version == "CURRENT" && Installed(sys, fs, m.name, m.version)
    ensures Point(fs, m, f) == Result(fs, false) && IsDir(fs, Current(m.name)) && !Absent(fs, Book(m.name))
  {
    var p := Current(m.name);
    assert p == Version(m.name, m.version) && Under(Book(m.name), p);
    assert IsDir(fs, p + ["recipes"]) && Under(p, p + ["recipes"]) && p + ["recipes"] != p;
  }

  /** What the deferred clean-up makes of the directory once the pointer is lost, or kept. */
  lemma CleanupExactly(sys: System, r: Result, m: Manifest, f: Faults)
    requires IsDir(r.fs, Book(m.name)) && (r.ok ==> Current(m.name) in r.fs)
    ensures var after := if CleansUp(r, m, f) then RemoveAll(r.fs, Book(m.name), f.cleanup) else r.fs;
      SoundBook(sys, after, m.name) <==>
        if Current(m.name) in r.fs then Pointed(sys, r.fs, m.name) else f.statCurrent && f.cleanup.Removed?
  {
    var after := if CleansUp(r, m, f) then RemoveAll(r.fs, Book(m.name), f.cleanup) else r.fs;
    assert Under(Book(m.name), Book(m.name));
    assert CleansUp(r, m, f) && f.cleanup.Removed? ==> Absent(after, Book(m.name));
    assert CleansUp(r, m, f) && f.cleanup.Failed? ==> Book(m.name) in after && Current(m.name) !in after;
  }

  /** Placing a cookbook keeps its directory sound exactly when Keeps holds. */
  lemma PlaceOrCleanExactly(sys: System, fs: Files, m: Manifest, f: Faults)
    requires Ready(sys, fs, m)
    ensures SoundBook(sys, PlaceOrClean(fs, m, f).fs, m.name) <==> Keeps(sys, fs, m, f)
  {
    if m.version != "CURRENT" {
      PlaceExactly(sys, fs, m, f);
    } else if Reaches(fs, m, f) {
      CurrentBecomesDir(sys, fs, m, f);
    } else {
      PlaceMoves(sys, fs, m, f);
    }
    CleanupExactly(sys, Place(fs, m, f), m, f);
  }

  // ---- the whole import ----

  lemma AcceptedReady(sys: System, fs: Files, archive: Files, f: Faults)
    requires Accepted(sys, fs, archive, f).Some?
    requires var n := Accepted(sys, fs, archive, f).value.name;
      n != ".new" && SoundBook(sys, Staged(fs, archive, f), n) && CanMkdir(Staged(fs, archive, f), Book(n))
    ensures var m := Accepted(sys, fs, archive, f).value;
      Ready(sys, MkdirAll(Staged(fs, archive, f), Book(m.name)), m)
  {
    var staged, m := Staged(fs, archive, f), Accepted(sys, fs, archive, f).value;
    var made := MkdirAll(staged, Book(m.name));
    StagedIsDir(fs, archive, f);
    StagingApart(m.name);
    MkdirAllElsewhere(staged, Book(m.name), STAGING);
    TreesAgree(staged, made, STAGING);
    ValidateTree(sys, staged, STAGING, made, STAGING);
    PointerAfterMkdir(sys, staged, m.name);
  }

  /** The state in which the staged cookbook is placed. */
  function Prepared(fs: Files, archive: Files, f: Faults, m: Manifest): Files {
    MkdirAll(Staged(fs, archive, f), Book(m.name))
  }

  /** What has to hold of an import, for each of its failures, to keep a sound library sound. */
  ghost predicate KeepsSound(sys: System, fs: Files, archive: Files, f: Faults) {
    match Accepted(sys, fs, archive, f)
    case None => true
    case Some(m) => m.name == ".new" || !f.mkBook || Keeps(sys, Prepared(fs, archive, f, m), m, f)
  }

  lemma SoundCanMkdir(sys: System, fs: Files, archive: Files, f: Faults, n: string)
    requires CanStage(fs, f) && SoundBook(sys, Staged(fs, archive, f), n)
    ensures CanMkdir(Staged(fs, archive, f), Book(n))
  {
    StagedIsDir(fs, archive, f);
    assert Under(Book(n), Book(n));
    forall k | 0 <= k <= |Book(n)| ensures !IsFile(Staged(fs, archive, f), Book(n)[..k]) {
      assert k == 0 || k == 1 || k == 2;
      assert Book(n)[..0] == [] && Book(n)[..1] == LIBRARY && Book(n)[..2] == Book(n);
    }
  }

  /** The directory of the cookbook that an import is for. */
  lemma ImportedBookExactly(sys: System, fs: Files, archive: Files, f: Faults)
    requires Sound(sys, fs) && Accepted(sys, fs, archive, f).Some?
    requires Accepted(sys, fs, archive, f).value.name != ".new"
    ensures SoundBook(sys, Import(sys, fs, archive, f).fs, Accepted(sys, fs, archive, f).value.name)
       <==> KeepsSound(sys, fs, archive, f)
  {
    var m, staged := Accepted(sys, fs, archive, f).value, Staged(fs, archive, f);
    var n := m.name;
    StagingApart(n);
    StagedElsewhere(fs, archive, f, Book(n));
    SoundBookFrame(sys, fs, staged, n);
    SoundCanMkdir(sys, fs, archive, f, n);
    AcceptedReady(sys, fs, archive, f);
    PlaceOrCleanExactly(sys, Prepared(fs, archive, f, m), m, f);
    var done := InBook(staged, m, f).fs;
    RemoveAllElsewhere(done, STAGING, f.unstage, Book(n));
    SoundBookFrame(sys, done, RemoveAll(done, STAGING, f.unstage), n);
  }

  lemma OtherBookKept(sys: System, fs: Files, archive: Files, f: Faults, n: string)
    requires n != ".new" && (var m := Accepted(sys, fs, archive, f); m.None? || m.value.name != n)
    ensures SoundBook(sys, Import(sys, fs, archive, f).fs, n) == SoundBook(sys, fs, n)
  {
    var m := Accepted(sys, fs, archive, f);
    StagingApart(n);
    if m.Some? { BooksApart(m.value.name, n); }
    ImportElsewhere(sys, fs, archive, f, Book(n));
    SoundBookFrame(sys, fs, Import(sys, fs, archive, f).fs, n);
  }

  /** For every archive and every combination of failures: the import keeps a sound library
      sound exactly when KeepsSound holds. */
  lemma ImportSoundExactly(sys: System, fs: Files, archive: Files, f: Faults)
    requires Sound(sys, fs)
    ensures Sound(sys, Import(sys, fs, archive, f).fs) <==> KeepsSound(sys, fs, archive, f)
  {
    var m, after := Accepted(sys, fs, archive, f), Import(sys, fs, archive, f).fs;
    forall n | n != ".new" && (m.None? || m.value.name != n) ensures SoundBook(sys, after, n) {
      OtherBookKept(sys, fs, archive, f, n);
    }
    if m.Some? && m.value.name != ".new" {
      ImportedBookExactly(sys, fs, archive, f);
      assert Sound(sys, after) <==> SoundBook(sys, after, m.value.name);
    }
  }

  /** In particular: with working clean-up and writes that leave no torn pointer, importing a
      plain version keeps the library sound, whatever else fails. */
  lemma PlainImportKeepsSound(sys: System, fs: Files, archive: Files, f: Faults)
    requires Sound(sys, fs) && Atomic(f)
    requires var m := Accepted(sys, fs, archive, f); m.Some? ==> Plain(m.value.version)
    ensures Sound(sys, Import(sys, fs, archive, f).fs)
  {
    ImportSoundExactly(sys, fs, archive, f);
  }
}
