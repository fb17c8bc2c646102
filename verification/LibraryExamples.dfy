// Concrete libraries: inputs at which an import, a delete or the next start goes wrong, and
// one at which everything that the general results assume holds together.
module LibraryExamples {
  import opened Recipes
  import opened Loader
  import opened Interleavings
  import opened FileTree
  import opened Library
  import opened LibrarySound
  import opened LibraryImports
  import opened LibraryDisk
  import opened LibraryMemory
  import opened LibraryDeletes
  import opened LibraryStarts
  import opened LibraryRestarts
  import opened Forgetting

  // ---- starts and loads exist for every file system ----

  lemma {:induction false} ListJobs(jobs: set<Job>) returns (list: seq<Job>)
    ensures forall job :: job in list <==> job in jobs
  {
    if jobs == {} {
      list := [];
    } else {
      var job :| job in jobs;
      var rest := ListJobs(jobs - {job});
      list := rest + [job];
    }
  }

  /** Every way of cutting a path in two. */
  function Cuts(fs: Files): set<Job> {
    set q, k | q in fs && 0 <= k <= |q| :: Job(q[..k], q[k..])
  }

  lemma MetIsCut(fs: Files, job: Job)
    requires job.root + job.elems in fs
    ensures job in Cuts(fs)
  {
    var q, k := job.root + job.elems, |job.root|;
    assert q[..k] == job.root && q[k..] == job.elems;
  }

  /** Whatever the files, there is a fresh start. */
  lemma StartExists(sys: System, parse: Parser, fs: Files, core: Path) returns (jobs: seq<Job>, schedule: seq<nat>)
    ensures Starts(sys, parse, fs, core, jobs, schedule)
  {
    jobs := ListJobs(set job | job in Cuts(fs) && Met(fs, core, job));
    forall job ensures job in jobs <==> Met(fs, core, job) {
      if Met(fs, core, job) { MetIsCut(fs, job); }
    }
    SequentialComplete(DiskOf(sys, parse, fs, core), Empty, jobs);
    schedule := OneByOne(|jobs|, |jobs|);
  }

  /** Whatever a pointer names, there is a load of it. */
  lemma LoadExists(sys: System, parse: Parser, fs: Files, core: Path, n: string, s: Shared)
    returns (jobs: seq<Job>, schedule: seq<nat>)
    requires IsFile(fs, Current(n))
    ensures LoadsNew(sys, parse, fs, core, n, s, jobs, schedule)
  {
    jobs := ListJobs(set job | job in Cuts(fs) && MetAt(fs, Root(fs, n), job));
    forall job ensures job in jobs <==> MetAt(fs, Root(fs, n), job) {
      if MetAt(fs, Root(fs, n), job) { MetIsCut(fs, job); }
    }
    SequentialComplete(DiskOf(sys, parse, fs, core), s, jobs);
    schedule := OneByOne(|jobs|, |jobs|);
  }

  // ---- a core cookbook without recipes, and small archives ----

  const CORE: Path := ["core"]
  const RECIPE: Path := ["recipes", "vpn", "aws", ".terraform"]

  function CoreFiles(): Files {
    map[CORE := Dir, CORE + ["recipes"] := Dir]
  }

  /** An archive with one recipe; what its METADATA says depends on the text. */
  function Archive(text: string): Files {
    map[["bin"] := Dir, ["bin", "plugins"] := Dir, PLUGINS := Dir, ["recipes"] := Dir, ["recipes", "vpn"] := Dir,
        ["recipes", "vpn", "aws"] := Dir, RECIPE := Dir, ["METADATA"] := File(text)]
  }

  /** METADATA texts that are read as a version of the cookbook "net", or as a name. */
  function VersionTexts(): System {
    System("linux", "amd64", t => Some(Manifest("net", t, "1.0", "linux", "amd64")))
  }

  function NameTexts(): System {
    System("linux", "amd64", t => Some(Manifest(t, "1", "1.0", "linux", "amd64")))
  }

  /** Templates that all parse, and templates that none do. */
  function AllParse(): Parser { _ => Some(Template(false, map[])) }

  function NoneParse(): Parser { _ => None }

  lemma CoreIsSound(sys: System)
    ensures Sound(sys, CoreFiles()) && AtRest(CoreFiles(), CORE) && Opens(CoreFiles())
    ensures !IsFile(CoreFiles(), []) && !IsFile(CoreFiles(), LIBRARY)
    ensures forall n :: Absent(CoreFiles(), Book(n)) && !IsFile(CoreFiles(), Current(n))
  {
    forall n
      ensures Absent(CoreFiles(), Book(n)) && !IsFile(CoreFiles(), Current(n)) && SoundBook(sys, CoreFiles(), n)
      ensures OpenBook(CoreFiles(), n)
    {
      assert Book(n)[0] == "library" && CORE[0] == "core" && (CORE + ["recipes"])[0] == "core";
      assert Under(Book(n), Current(n));
    }
    assert STAGING == Book(".new");
    assert LIBRARY[0] != CORE[0];
  }

  lemma CoreTop()
    ensures !IsFile(CoreFiles(), []) && !IsFile(CoreFiles(), LIBRARY)
  {
    assert LIBRARY[0] != CORE[0];
  }

  lemma ArchiveValid(sys: System, text: string)
    requires sys.manifest(text).Some?
    ensures var m := sys.manifest(text).value;
      Validate(sys, Archive(text), []) == if Filled(m) && sys.os == m.os && sys.arch == m.arch then Some(m) else None
  {
    assert [] + PLUGINS == PLUGINS && [] + ["recipes"] == ["recipes"] && [] + ["METADATA"] == ["METADATA"];
  }

  lemma Accepts(sys: System, fs: Files, text: string, f: Faults)
    requires !IsFile(fs, []) && !IsFile(fs, LIBRARY) && f.clear.Removed? && f.mkStaging && f.unzip && f.readMetadata
    ensures Accepted(sys, fs, Archive(text), f) == Validate(sys, Archive(text), [])
  {
    ArchiveAccepted(sys, fs, Archive(text), f);
  }

  // ---- versions that leave no usable pointer ----

  /** Version CURRENT: nothing fails, the import does, and no start works any more. */
  lemma CurrentVersionBreaks()
    ensures var r := Import(VersionTexts(), CoreFiles(), Archive("CURRENT"), FaultFree);
      !r.ok && !Sound(VersionTexts(), r.fs) && !Opens(r.fs)
  {
    BadVersionBreaks("CURRENT");
  }

  /** Version "1 ": the pointer is read back as "1", which is not there. */
  lemma TrimmedVersionBreaks()
    ensures var r := Import(VersionTexts(), CoreFiles(), Archive("1 "), FaultFree);
      !r.ok && !Sound(VersionTexts(), r.fs) && !Opens(r.fs)
  {
    assert "1 "[..1] == "1";
    assert Trim("1 ") == Trim("1") == "1";
    BadVersionBreaks("1 ");
  }

  function NetManifest(v: string): Manifest { Manifest("net", v, "1.0", "linux", "amd64") }

  lemma VersionAccepted(v: string)
    requires v != ""
    ensures Accepted(VersionTexts(), CoreFiles(), Archive(v), FaultFree) == Some(NetManifest(v))
  {
    CoreTop();
    ArchiveValid(VersionTexts(), v);
    Accepts(VersionTexts(), CoreFiles(), v, FaultFree);
  }

  /** Any version of a new cookbook that is not plain. */
  lemma BadVersionBreaks(v: string)
    requires v != "" && !Plain(v) && (v != "CURRENT" ==> Trim(v) != "")
    ensures var r := Import(VersionTexts(), CoreFiles(), Archive(v), FaultFree);
      !r.ok && !Sound(VersionTexts(), r.fs) && !Opens(r.fs)
  {
    CoreIsSound(VersionTexts());
    VersionAccepted(v);
    FreshImportSoundExactly(VersionTexts(), CoreFiles(), Archive(v));
    BadVersionFails(v);
    BadVersionStops(v);
  }

  lemma BadVersionFails(v: string)
    requires v != "" && !Plain(v) && (v != "CURRENT" ==> Trim(v) != "")
    ensures !Import(VersionTexts(), CoreFiles(), Archive(v), FaultFree).ok
  {
    CoreIsSound(VersionTexts());
    VersionAccepted(v);
    SucceedsExactly(VersionTexts(), CoreFiles(), Archive(v), FaultFree);
    if v != "CURRENT" { NothingNamed(VersionTexts(), CoreFiles(), v, NetManifest(v)); }
  }

  lemma BadVersionStops(v: string)
    requires v != "" && !Plain(v) && (v != "CURRENT" ==> Trim(v) != "")
    ensures !Opens(Import(VersionTexts(), CoreFiles(), Archive(v), FaultFree).fs)
  {
    CoreIsSound(VersionTexts());
    VersionAccepted(v);
    ImportOpensExactly(VersionTexts(), CoreFiles(), Archive(v), FaultFree);
    BadVersionClosed(v, NetManifest(v));
  }

  lemma BadVersionClosed(v: string, m: Manifest)
    requires m == NetManifest(v) && !Plain(v) && (v != "CURRENT" ==> Trim(v) != "")
    ensures !KeepsOpen(Prepared(CoreFiles(), Archive(v), FaultFree, m), m, FaultFree)
  {
    CoreIsSound(VersionTexts());
    NewBookReaches(VersionTexts(), CoreFiles(), Archive(v), m);
    if v != "CURRENT" { NothingNamed(VersionTexts(), CoreFiles(), v, m); }
    MovedButClosed(Prepared(CoreFiles(), Archive(v), FaultFree, m), m);
  }

  lemma MovedButClosed(fs: Files, m: Manifest)
    requires m.name != ".new" && Reaches(fs, m, FaultFree) && !Exists(fs, Version(m.name, m.version))
    requires m.version == "CURRENT"
      || NamedRoot(m.name, m.version) + ["recipes"] !in Move(fs, STAGING, Version(m.name, m.version))
    ensures !KeepsOpen(fs, m, FaultFree)
  {
    assert STAGING[1] != Version(m.name, m.version)[1];
  }

  /** In a new cookbook a trimmed version names nothing. */
  lemma NothingNamed(sys: System, fs: Files, v: string, m: Manifest)
    requires m.name == "net" && m.version == v && Absent(fs, Book("net")) && Trim(v) != "" && Trim(v) != v
    ensures var made := Prepared(fs, Archive(v), FaultFree, m);
      && !Loadable(made, NamedRoot("net", v))
      && NamedRoot("net", v) + ["recipes"] !in Move(made, STAGING, Version("net", v))
  {
    var made, x := Prepared(fs, Archive(v), FaultFree, m), Version("net", Trim(v));
    StagingApart("net");
    StagedElsewhere(fs, Archive(v), FaultFree, Book("net"));
    AbsentBelow(fs, Staged(fs, Archive(v), FaultFree), Book("net"));
    NothingBelowNewBook(sys, Staged(fs, Archive(v), FaultFree), "net", Trim(v));
    ApartFromBelow(Book("net"), x, STAGING);
    assert x[2] != Version("net", v)[2];
    MoveElsewhere(made, STAGING, Version("net", v), x);
    assert Under(x, x + ["recipes"]) && Same(made, Move(made, STAGING, Version("net", v)), x + ["recipes"]);
    assert Under(x, x + PLUGINS);
  }
}
