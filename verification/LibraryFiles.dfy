// The library in terms of its files: what an archive needs, where an import puts it, what a
// delete takes away, and the recipes that a start makes of what is there.
module LibraryFiles {
  import opened Recipes
  import opened Loader
  import opened Interleavings
  import opened LoadedRecipes
  import opened FileTree
  import opened Library
  import opened LibrarySound
  import opened LibraryImports
  import opened LibraryDisk
  import opened LibraryMemory
  import opened LibraryStarts
  import opened LibraryRestarts

  // ---- strings.TrimSpace ----

  /** Between i and j the text neither begins nor ends with white space, and the rest is white
      space alone. */
  ghost predicate Trimmed(s: string, i: int, j: int) {
    && 0 <= i <= j <= |s| && (i < j ==> !IsSpace(s[i]) && !IsSpace(s[j - 1]))
    && (forall k | 0 <= k < i :: IsSpace(s[k])) && (forall k | j <= k < |s| :: IsSpace(s[k]))
  }

  /** Trimming takes white space off both ends, and all of it. */
  lemma {:induction false} TrimExactly(s: string) returns (i: int, j: int)
    ensures Trimmed(s, i, j) && Trim(s) == s[i..j]
  {
    if s != [] && IsSpace(s[0]) {
      var x, y := TrimExactly(s[1..]);
      i, j := x + 1, y + 1;
      assert s[1..][x..y] == s[i..j];
      assert forall k | 1 <= k < |s| :: s[k] == s[1..][k - 1];
    } else if s != [] && IsSpace(s[|s| - 1]) {
      i, j := TrimExactly(s[..|s| - 1]);
      assert s[..|s| - 1][i..j] == s[i..j];
      assert forall k | 0 <= k < |s| - 1 :: s[k] == s[..|s| - 1][k];
    } else {
      i, j := 0, |s|;
    }
  }

  // ---- importing ----

  /** A cookbook archive for this system, whose METADATA says m. */
  ghost predicate WellFormed(sys: System, archive: Files, m: Manifest) {
    && ["bin", "plugins", "registry.terraform.io"] in archive
      && archive[["bin", "plugins", "registry.terraform.io"]] == Dir
    && ["recipes"] in archive && archive[["recipes"]] == Dir
    && ["METADATA"] in archive && archive[["METADATA"]].File? && sys.manifest(archive[["METADATA"]].text) == Some(m)
    && m.name != "" && m.version != "" && m.terraformVersion != ""
    && m.os != "" && m.arch != "" && m.os == sys.os && m.arch == sys.arch
  }

  /** The version's directory holds the archive, and CURRENT names it. */
  ghost predicate HoldsArchive(fs: Files, m: Manifest, archive: Files) {
    && ["library", m.name, "CURRENT"] in fs && fs[["library", m.name, "CURRENT"]] == File(m.version)
    && forall r: Path | r != [] :: SameAt(fs, ["library", m.name, m.version] + r, archive, r)
  }

  predicate SameAt(a: Files, p: Path, b: Files, q: Path) {
    (p in a <==> q in b) && (p in a ==> a[p] == b[q])
  }

  lemma ValidExactly(sys: System, archive: Files, m: Manifest)
    ensures Validate(sys, archive, []) == Some(m) <==> WellFormed(sys, archive, m)
  {
    assert [] + PLUGINS == PLUGINS && [] + ["recipes"] == ["recipes"] && [] + ["METADATA"] == ["METADATA"];
  }

  lemma StagedValid(sys: System, fs: Files, archive: Files, f: Faults)
    requires f.clear.Removed?
    ensures Validate(sys, Staged(fs, archive, f), STAGING) == Validate(sys, archive, [])
  {
    assert [] + PLUGINS == PLUGINS && [] + ["recipes"] == ["recipes"] && [] + ["METADATA"] == ["METADATA"];
    StagedPath(fs, archive, f, PLUGINS);
    StagedPath(fs, archive, f, ["recipes"]);
    StagedPath(fs, archive, f, ["METADATA"]);
  }

  /** An import that succeeds was of a well-formed archive, and has put all of it, and nothing
      else, below the version that its METADATA gives. */
  lemma ImportInstallsArchive(sys: System, fs: Files, archive: Files, f: Faults)
    requires Sound(sys, fs) && f.clear.Removed? && Import(sys, fs, archive, f).ok
    ensures exists m :: WellFormed(sys, archive, m) && HoldsArchive(Import(sys, fs, archive, f).fs, m, archive)
  {
    var m, after := Accepted(sys, fs, archive, f).value, Import(sys, fs, archive, f).fs;
    ImportSucceedsExactly(sys, fs, archive, f);
    StagedValid(sys, fs, archive, f);
    ValidExactly(sys, archive, m);
    forall r: Path | r != [] ensures SameAt(after, ["library", m.name, m.version] + r, archive, r) {
      TreeAt(after, Version(m.name, m.version), r);
      TreeAt(Staged(fs, archive, f), STAGING, r);
      StagedPath(fs, archive, f, r);
    }
  }

  /** A well-formed archive of a plain version of a new cookbook is imported when nothing fails. */
  lemma WellFormedIsImported(sys: System, fs: Files, archive: Files, m: Manifest)
    requires Sound(sys, fs) && !IsFile(fs, []) && !IsFile(fs, ["library"])
    requires WellFormed(sys, archive, m) && m.name != ".new" && m.version != "CURRENT" && Trim(m.version) == m.version
    requires forall q: Path | q in fs :: !(["library", m.name] <= q)
    ensures Import(sys, fs, archive, FaultFree).ok && HoldsArchive(Import(sys, fs, archive, FaultFree).fs, m, archive)
  {
    ValidExactly(sys, archive, m);
    WellFormedArchiveImports(sys, fs, archive);
    ImportInstallsArchive(sys, fs, archive, FaultFree);
    var n :| WellFormed(sys, archive, n) && HoldsArchive(Import(sys, fs, archive, FaultFree).fs, n, archive);
    assert m == n;
  }

  /** An import that meets a failure of staging, unpacking or reading METADATA is refused and
      changes nothing beside the staging directory and those above it. */
  lemma EarlyFailureChangesNothing(sys: System, fs: Files, archive: Files, f: Faults, q: Path)
    requires !f.mkStaging || !f.unzip || !f.readMetadata
    requires !(["library", ".new"] <= q) && !(q <= ["library", ".new"])
    ensures !Import(sys, fs, archive, f).ok && SameAt(Import(sys, fs, archive, f).fs, q, fs, q)
  {
    ImportElsewhere(sys, fs, archive, f, q);
    assert Apart(STAGING, q) && Under(q, q);
    assert Same(fs, Import(sys, fs, archive, f).fs, q);
  }

  /** An import succeeds only if no operation fails that it needs. */
  lemma SuccessNeeds(sys: System, fs: Files, archive: Files, f: Faults)
    requires Sound(sys, fs) && Import(sys, fs, archive, f).ok
    ensures f.mkStaging && f.unzip && f.readMetadata && f.mkBook && f.statVersion && f.write.Written?
    ensures f.load.AllLoaded? && (f.rename || f.compare)
  {
    SucceedsExactly(sys, fs, archive, f);
  }

  /** After an import that succeeds CURRENT names a root with plugins and recipes: the new
      version's, or the one that is left of it when it is trimmed. */
  lemma ImportedRootLoads(sys: System, fs: Files, archive: Files, f: Faults) returns (m: Manifest, root: Path)
    requires Sound(sys, fs) && Import(sys, fs, archive, f).ok
    ensures var after := Import(sys, fs, archive, f).fs;
      && NamedBy(after, m.name, m.version, root)
      && root + ["bin", "plugins", "registry.terraform.io"] in after && root + ["recipes"] in after
  {
    m := Accepted(sys, fs, archive, f).value;
    root := NamedRoot(m.name, m.version);
    var loaded, after := InBook(Staged(fs, archive, f), m, f).fs, Import(sys, fs, archive, f).fs;
    SucceedsExactly(sys, fs, archive, f);
    LoadingImportLeaves(sys, fs, archive, f);
    assert Under(Book(m.name), root);
    LoadableKept(loaded, after, Book(m.name), root);
  }

  lemma LoadableKept(a: Files, b: Files, p: Path, root: Path)
    requires SameBelow(a, b, p) && p <= root && Loadable(a, root)
    ensures root + ["bin", "plugins", "registry.terraform.io"] in b && root + ["recipes"] in b
  {
    assert Under(p, root + PLUGINS) && Same(a, b, root + PLUGINS);
    assert Under(p, root + ["recipes"]) && Same(a, b, root + ["recipes"]);
  }

  /** os.Remove takes away a file or an empty directory, and nothing else. */
  lemma RemovedOneExactly(fs: Files, p: Path, q: Path)
    ensures q in RemoveOne(fs, p) <==>
      q in fs && (q != p || (fs[p] == Dir && exists x: Path :: x in fs && p < x))
    ensures q in RemoveOne(fs, p) ==> RemoveOne(fs, p)[q] == fs[q]
  {
  }

  /** A delete takes away the cookbook's directory with all below it, and nothing else. */
  lemma DeletedExactly(fs: Files, n: string, q: Path)
    ensures q in Delete(fs, n, Removed) <==> q in fs && !(["library", n] <= q)
    ensures q in Delete(fs, n, Removed) ==> Delete(fs, n, Removed)[q] == fs[q]
  {
  }

  // ---- starting ----

  /** Cookbook n's CURRENT file holds this text and so names the root. */
  ghost predicate NamedBy(fs: Files, n: string, text: string, root: Path) {
    && ["library", n, "CURRENT"] in fs && fs[["library", n, "CURRENT"]] == File(text)
    && root == if Trim(text) == "" then ["library", n] else ["library", n, Trim(text)]
  }

  /** The core cookbook's root, or one that a CURRENT file in the library names. */
  ghost predicate NamesRoot(fs: Files, core: Path, root: Path) {
    root == core || exists n, text :: NamedBy(fs, n, text, root)
  }

  /** What is below p, seen from p. */
  ghost predicate IsBelow(fs: Files, p: Path, sub: Files) {
    forall q: Path :: SameAt(sub, q, fs, p + q)
  }

  /** The files say that r is the recipe of this key and IaaS: below a root with METADATA
      there is a path recipes/<name>/<iaas>/.../.terraform, and the directory
      recipes/<name>/<iaas> parses. */
  ghost predicate OnDisk(sys: System, parse: Parser, fs: Files, core: Path, root: Path, elems: Path, sub: Files,
                         k: string, iaas: string, r: Recipe) {
    && NamesRoot(fs, core, root) && root + elems in fs
    && |elems| >= 4 && elems[0] == "recipes" && elems[|elems| - 1] == ".terraform"
    && root + ["METADATA"] in fs && fs[root + ["METADATA"]].File?
    && root + elems[..3] in fs && IsBelow(fs, root + elems[..3], sub)
    && var m, t := sys.manifest(fs[root + ["METADATA"]].text), parse(sub);
    && m.Some? && t.Some?
    && k == m.value.name + ":" + elems[1] && iaas == elems[2]
    && r.cookbook == m.value.name && r.version == m.value.version && r.root == root
    && r.name == elems[1] && r.iaas == elems[2]
    && r.bastion == t.value.bastion && r.variables == t.value.variables
  }

  lemma BelowIsTree(fs: Files, p: Path, sub: Files)
    ensures IsBelow(fs, p, sub) <==> sub == Tree(fs, p)
  {
    forall q: Path ensures SameAt(Tree(fs, p), q, fs, p + q) { TreeAt(fs, p, q); }
    if IsBelow(fs, p, sub) {
      forall q: Path ensures q in sub <==> q in Tree(fs, p)
                     ensures q in sub ==> sub[q] == Tree(fs, p)[q] {
        assert SameAt(sub, q, fs, p + q) && SameAt(Tree(fs, p), q, fs, p + q);
      }
    }
  }

  lemma TemplatesAt(sys: System, parse: Parser, fs: Files, core: Path, p: Path)
    ensures var d := DiskOf(sys, parse, fs, core);
      && (p in d.templates <==> p in fs && parse(Tree(fs, p)).Some?)
      && (p in d.templates ==> Some(d.templates[p]) == parse(Tree(fs, p)))
  {
  }

  lemma ReadIsOnDisk(sys: System, parse: Parser, fs: Files, core: Path, job: Job, k: string, iaas: string, r: Recipe)
    requires |job.elems| >= 4
    ensures Met(fs, core, job) && ReadFrom(DiskOf(sys, parse, fs, core), job, k, iaas, r) ==>
      OnDisk(sys, parse, fs, core, job.root, job.elems, Tree(fs, job.root + job.elems[..3]), k, iaas, r)
  {
    var p := job.root + job.elems[..3];
    BelowIsTree(fs, p, Tree(fs, p));
    MetadataAt(sys, parse, fs, core, job.root);
    TemplatesAt(sys, parse, fs, core, p);
    RootsNamed(fs, core, job.root);
  }

  lemma OnDiskIsRead(sys: System, parse: Parser, fs: Files, core: Path, job: Job, k: string, iaas: string, r: Recipe)
    requires |job.elems| >= 4
    requires OnDisk(sys, parse, fs, core, job.root, job.elems, Tree(fs, job.root + job.elems[..3]), k, iaas, r)
    ensures Met(fs, core, job) && ReadFrom(DiskOf(sys, parse, fs, core), job, k, iaas, r)
  {
    MetadataAt(sys, parse, fs, core, job.root);
    TemplatesAt(sys, parse, fs, core, job.root + job.elems[..3]);
    RootsNamed(fs, core, job.root);
    assert job.elems[..1] == ["recipes"];
  }

  lemma RootsNamed(fs: Files, core: Path, root: Path)
    ensures IsRoot(fs, core, root) <==> NamesRoot(fs, core, root)
  {
    if root != core {
      if n :| IsFile(fs, Current(n)) && root == Root(fs, n) {
        assert NamedBy(fs, n, fs[Current(n)].text, root);
      }
      if n, text :| NamedBy(fs, n, text, root) {
        assert IsFile(fs, Current(n)) && root == Root(fs, n);
      }
    }
  }

  /** After a start the recipe of a key and IaaS is one that the files give; there is none
      exactly if they give none. */
  lemma StartedCell(sys: System, parse: Parser, fs: Files, core: Path, jobs: seq<Job>, schedule: seq<nat>,
                    k: string, iaas: string)
    requires Starts(sys, parse, fs, core, jobs, schedule)
    ensures var cell := Lookup(Run(DiskOf(sys, parse, fs, core), Empty, jobs, schedule).shared.recipes, k, iaas);
      && (cell.Some? ==> exists root, elems, sub :: OnDisk(sys, parse, fs, core, root, elems, sub, k, iaas, cell.value))
      && ((exists root, elems, sub, r :: OnDisk(sys, parse, fs, core, root, elems, sub, k, iaas, r)) ==> cell.Some?)
  {
    var d := DiskOf(sys, parse, fs, core);
    var cell := Lookup(Run(d, Empty, jobs, schedule).shared.recipes, k, iaas);
    CellsRead(d, Empty, jobs, schedule, k, iaas);
    if cell.Some? {
      var job :| job in jobs && ReadFrom(d, job, k, iaas, cell.value);
      ReadIsOnDisk(sys, parse, fs, core, job, k, iaas, cell.value);
    }
    if root, elems, sub, r :| OnDisk(sys, parse, fs, core, root, elems, sub, k, iaas, r) {
      BelowIsTree(fs, root + elems[..3], sub);
      OnDiskIsRead(sys, parse, fs, core, Job(root, elems), k, iaas, r);
      assert Job(root, elems) in jobs;
    }
  }

  /** A start meets this path: recipes/<name>/<iaas>/.../.terraform below a root. */
  ghost predicate IsMet(fs: Files, core: Path, root: Path, elems: Path) {
    && NamesRoot(fs, core, root) && root + elems in fs
    && |elems| >= 4 && elems[0] == "recipes" && elems[|elems| - 1] == ".terraform"
  }

  /** A start works exactly if the core cookbook has recipes, every entry of the library has a
      CURRENT file naming a root with recipes, and each path that it meets has METADATA and
      templates that parse. */
  lemma StartWorksExactly(sys: System, parse: Parser, fs: Files, core: Path)
    ensures StartWorks(sys, parse, fs, core) <==>
      && core + ["recipes"] in fs
      && (forall q: Path | q in fs && |q| >= 2 && q[0] == "library" :: EntryOpens(fs, q[1]))
      && (forall root, elems | IsMet(fs, core, root, elems) :: Parses(sys, parse, fs, root, elems[..3]))
  {
    OpensExactly(fs);
    var d := DiskOf(sys, parse, fs, core);
    forall job: Job
      ensures Met(fs, core, job) && Fails(d, job) <==>
        IsMet(fs, core, job.root, job.elems) && !Parses(sys, parse, fs, job.root, job.elems[..3])
    {
      MetFails(sys, parse, fs, core, job);
    }
    forall root, elems | IsMet(fs, core, root, elems) && !Parses(sys, parse, fs, root, elems[..3])
      ensures Met(fs, core, Job(root, elems)) && Fails(d, Job(root, elems))
    {
    }
  }

  lemma MetFails(sys: System, parse: Parser, fs: Files, core: Path, job: Job)
    ensures Met(fs, core, job) && Fails(DiskOf(sys, parse, fs, core), job) <==>
      IsMet(fs, core, job.root, job.elems) && !Parses(sys, parse, fs, job.root, job.elems[..3])
  {
    RootsNamed(fs, core, job.root);
    if Matches(job) {
      assert job.elems[..1] == ["recipes"];
      ParsesExactly(sys, parse, fs, core, job);
    }
  }

  /** The entry's CURRENT file names a root that has recipes. */
  ghost predicate EntryOpens(fs: Files, n: string) {
    exists text, root :: NamedBy(fs, n, text, root) && root + ["recipes"] in fs
  }

  /** METADATA of the root and the directory below it can be read. */
  ghost predicate Parses(sys: System, parse: Parser, fs: Files, root: Path, dir: Path) {
    && root + ["METADATA"] in fs && fs[root + ["METADATA"]].File?
    && sys.manifest(fs[root + ["METADATA"]].text).Some?
    && root + dir in fs && exists sub :: IsBelow(fs, root + dir, sub) && parse(sub).Some?
  }

  lemma ParsesExactly(sys: System, parse: Parser, fs: Files, core: Path, job: Job)
    requires Matches(job)
    ensures Fails(DiskOf(sys, parse, fs, core), job) <==> !Parses(sys, parse, fs, job.root, job.elems[..3])
  {
    var d, p := DiskOf(sys, parse, fs, core), job.root + job.elems[..3];
    MetadataAt(sys, parse, fs, core, job.root);
    SomeBelow(parse, fs, p);
    assert p in d.templates <==> p in fs && parse(Tree(fs, p)).Some?;
  }

  lemma SomeBelow(parse: Parser, fs: Files, p: Path)
    ensures (exists sub :: IsBelow(fs, p, sub) && parse(sub).Some?) <==> parse(Tree(fs, p)).Some?
  {
    BelowIsTree(fs, p, Tree(fs, p));
    forall sub | IsBelow(fs, p, sub) ensures sub == Tree(fs, p) { BelowIsTree(fs, p, sub); }
  }

  lemma OpensExactly(fs: Files)
    ensures Opens(fs) <==> forall q: Path | q in fs && |q| >= 2 && q[0] == "library" :: EntryOpens(fs, q[1])
  {
    forall n ensures OpenBook(fs, n) <==> (Exists(fs, Book(n)) ==> EntryOpens(fs, n)) {
      if IsFile(fs, Current(n)) { assert NamedBy(fs, n, fs[Current(n)].text, Root(fs, n)); }
    }
    forall q: Path | q in fs && |q| >= 2 && q[0] == "library" ensures Exists(fs, Book(q[1])) {
      assert q[..2] == Book(q[1]) && Under(Book(q[1]), q);
    }
    if forall q: Path | q in fs && |q| >= 2 && q[0] == "library" :: EntryOpens(fs, q[1]) {
      forall n | Exists(fs, Book(n)) ensures EntryOpens(fs, n) {
        var q :| q in fs && Under(Book(n), q);
        assert q[1] == n;
      }
    }
    if Opens(fs) {
      forall q: Path | q in fs && |q| >= 2 && q[0] == "library" ensures EntryOpens(fs, q[1]) {
        assert OpenBook(fs, q[1]);
      }
    }
  }
}
