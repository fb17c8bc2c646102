// Importing a cookbook archive into the on-disk library: unpack into a staging directory,
// validate, move to a versioned directory, then rewrite the CURRENT pointer.
module Library {
  import opened Recipes
  import opened FileTree

  const LIBRARY: Path := ["library"]
  const STAGING: Path := ["library", ".new"]
  const PLUGINS: Path := ["bin", "plugins", "registry.terraform.io"]

  function Book(n: string): Path { ["library", n] }

  function Version(n: string, v: string): Path { ["library", n, v] }

  function Current(n: string): Path { ["library", n, "CURRENT"] }

  /** The root that a pointer's text names; an empty element does not count in a path. */
  function NamedRoot(n: string, text: string): Path {
    if Trim(text) == "" then Book(n) else Version(n, Trim(text))
  }

  /** Both walks of a load find their directory. */
  predicate Loadable(fs: Files, root: Path) {
    root + PLUGINS in fs && root + ["recipes"] in fs
  }

  datatype Manifest = Manifest(name: string, version: string, terraformVersion: string, os: string, arch: string)

  /** The local system, and how it parses METADATA files and template directories. */
  datatype System = System(os: string, arch: string, manifest: string -> Option<Manifest>)

  /** How loading turns out when its directories are there: all is loaded, or some plugin
      could not be copied, or reading the pointer or a walk failed after that many recipe
      workers had been started. */
  datatype Loading = AllLoaded | CopyFailed | WalkFailed(started: nat)

  /** How each file operation of an import turns out. `removeCurrent` and the two staging
      removals are not checked by the code. */
  datatype Faults = Faults(
    clear: Removal, mkStaging: bool, unzip: bool, readMetadata: bool, mkBook: bool,
    statVersion: bool, rename: bool, compare: bool, removeCurrent: bool, write: Write, load: Loading,
    statCurrent: bool, cleanup: Removal, unstage: Removal)

  const FaultFree := Faults(Removed, true, true, true, true, true, true, true, true, Written, AllLoaded, true, Removed,
                            Removed)

  datatype Result = Result(fs: Files, ok: bool)

  // ---- strings.TrimSpace ----

  predicate IsSpace(c: char) {
    var x := c as int;
    || x in {0x09, 0x0A, 0x0B, 0x0C, 0x0D, 0x20, 0x85, 0xA0, 0x1680, 0x2028, 0x2029, 0x202F, 0x205F, 0x3000}
    || 0x2000 <= x <= 0x200A
  }

  function Trim(s: string): string {
    if s != [] && IsSpace(s[0]) then Trim(s[1..])
    else if s != [] && IsSpace(s[|s| - 1]) then Trim(s[..|s| - 1])
    else s
  }

  // ---- the import ----

  predicate Filled(m: Manifest) {
    m.name != "" && m.version != "" && m.terraformVersion != "" && m.os != "" && m.arch != ""
  }

  /** The manifest of a well-formed cookbook for this system. */
  function Validate(sys: System, fs: Files, root: Path): Option<Manifest> {
    if !IsDir(fs, root + PLUGINS) || !IsDir(fs, root + ["recipes"]) || !IsFile(fs, root + ["METADATA"]) then None
    else
      match sys.manifest(fs[root + ["METADATA"]].text)
      case None => None
      case Some(m) => if Filled(m) && sys.os == m.os && sys.arch == m.arch then Some(m) else None
  }

  /** os.Remove removes a file or an empty directory. */
  function RemoveOne(fs: Files, p: Path): Files {
    if p in fs && (fs[p].File? || forall q | q in fs :: Under(p, q) ==> q == p) then fs - {p} else fs
  }

  /** The library with the old pointer removed, if that works. */
  function Cleared(fs: Files, m: Manifest, f: Faults): Files {
    if f.removeCurrent then RemoveOne(fs, Current(m.name)) else fs
  }

  /** Rewrite the CURRENT pointer, then load the recipes below the root that it names. */
  function Point(fs: Files, m: Manifest, f: Faults): Result {
    var p, cleared := Current(m.name), Cleared(fs, m, f);
    if IsDir(cleared, p) || f.write.Untouched? then Result(cleared, false)
    else if f.write.Torn? then Result(cleared[p := File(f.write.text)], false)
    else
      var pointed := cleared[p := File(m.version)];
      Result(pointed, f.load.AllLoaded? && Loadable(pointed, NamedRoot(m.name, m.version)))
  }

  /** os.Stat finds a path, here also when only something below it is there. */
  predicate Exists(fs: Files, p: Path) {
    exists q | q in fs :: Under(p, q)
  }

  /** Move the staged cookbook to its versioned path, or check that it is already there. */
  function Placed(fs: Files, m: Manifest, f: Faults): Option<Files> {
    var vp := Version(m.name, m.version);
    if !f.statVersion then None
    else if Exists(fs, vp) then
      if f.compare && Tree(fs, STAGING) == Tree(fs, vp) then Some(fs) else None
    else if f.rename && !Under(STAGING, vp) then Some(Move(fs, STAGING, vp))
    else None
  }

  function Place(fs: Files, m: Manifest, f: Faults): Result {
    match Placed(fs, m, f)
    case None => Result(fs, false)
    case Some(at) => Point(at, m, f)
  }

  /** The new pointer is written, so that loading begins. */
  predicate WritesPointer(fs: Files, m: Manifest, f: Faults) {
    match Placed(fs, m, f)
    case None => false
    case Some(at) => f.write.Written? && !IsDir(Cleared(at, m, f), Current(m.name))
  }

  /** The deferred clean-up removes the cookbook's directory when the import failed and no
      pointer exists. */
  predicate CleansUp(r: Result, m: Manifest, f: Faults) {
    !r.ok && f.statCurrent && Current(m.name) !in r.fs
  }

  function PlaceOrClean(fs: Files, m: Manifest, f: Faults): Result {
    var r := Place(fs, m, f);
    if CleansUp(r, m, f) then Result(RemoveAll(r.fs, Book(m.name), f.cleanup), false) else r
  }

  function InBook(fs: Files, m: Manifest, f: Faults): Result {
    if f.mkBook && CanMkdir(fs, Book(m.name)) then PlaceOrClean(MkdirAll(fs, Book(m.name)), m, f)
    else Result(fs, false)
  }

  /** The library once the archive has been unpacked into an emptied staging directory. */
  function Staged(fs: Files, archive: Files, f: Faults): Files {
    Graft(MkdirAll(RemoveAll(fs, STAGING, f.clear), STAGING), STAGING, archive - {[]})
  }

  predicate CanStage(fs: Files, f: Faults) {
    f.mkStaging && CanMkdir(RemoveAll(fs, STAGING, f.clear), STAGING)
  }

  /** The manifest with which an import gets as far as the cookbook's own directory. */
  function Accepted(sys: System, fs: Files, archive: Files, f: Faults): Option<Manifest> {
    if CanStage(fs, f) && f.unzip && f.readMetadata then Validate(sys, Staged(fs, archive, f), STAGING) else None
  }

  /** Import an archive; on a failed unpacking `archive` is what was unpacked by then. */
  function Import(sys: System, fs: Files, archive: Files, f: Faults): Result {
    if !CanStage(fs, f) then Result(RemoveAll(fs, STAGING, f.clear), false)
    else
      var r := match Accepted(sys, fs, archive, f)
        case None => Result(Staged(fs, archive, f), false)
        case Some(m) => InBook(Staged(fs, archive, f), m, f);
      Result(RemoveAll(r.fs, STAGING, f.unstage), r.ok)
  }

  /** Delete an imported cookbook. */
  function Delete(fs: Files, n: string, r: Removal): Files {
    RemoveAll(fs, Book(n), r)
  }

  // ---- what a sound library holds ----

  /** Version v of cookbook n is in the library. */
  ghost predicate Installed(sys: System, fs: Files, n: string, v: string) {
    var root := Version(n, v);
    && IsDir(fs, root)
    && var m := Validate(sys, fs, root);
       m.Some? && m.value.name == n && m.value.version == v
  }

  /** The pointer of cookbook n names an installed version. */
  ghost predicate Pointed(sys: System, fs: Files, n: string) {
    IsDir(fs, Book(n)) && IsFile(fs, Current(n)) && Installed(sys, fs, n, Trim(fs[Current(n)].text))
  }

  ghost predicate SoundBook(sys: System, fs: Files, n: string) {
    Absent(fs, Book(n)) || Pointed(sys, fs, n)
  }

  /** Every cookbook directory in the library has a CURRENT that names an installed version. */
  ghost predicate Sound(sys: System, fs: Files) {
    forall n | n != ".new" :: SoundBook(sys, fs, n)
  }

  // ---- what an import leaves alone ----

  lemma BooksApart(a: string, b: string)
    requires a != b
    ensures Apart(Book(a), Book(b))
  {
    assert Book(a)[1] == a && Book(b)[1] == b;
  }

  lemma StagingApart(n: string)
    requires n != ".new"
    ensures Apart(STAGING, Book(n)) && STAGING == Book(".new")
  {
    BooksApart(n, ".new");
  }

  lemma InstalledFrame(sys: System, a: Files, b: Files, n: string, v: string)
    requires SameBelow(a, b, Version(n, v))
    ensures Installed(sys, a, n, v) == Installed(sys, b, n, v)
  {
    var root := Version(n, v);
    assert Same(a, b, root);
    assert Under(root, root + PLUGINS) && Same(a, b, root + PLUGINS);
    assert Under(root, root + ["recipes"]) && Same(a, b, root + ["recipes"]);
    assert Under(root, root + ["METADATA"]) && Same(a, b, root + ["METADATA"]);
  }

  lemma SoundBookFrame(sys: System, a: Files, b: Files, n: string)
    requires SameBelow(a, b, Book(n))
    ensures SoundBook(sys, a, n) == SoundBook(sys, b, n)
  {
    AbsentBelow(a, b, Book(n));
    assert Same(a, b, Book(n));
    assert Under(Book(n), Current(n)) && Same(a, b, Current(n));
    if IsFile(a, Current(n)) {
      var v := Trim(a[Current(n)].text);
      SameBelowNarrows(a, b, Book(n), Version(n, v));
      InstalledFrame(sys, a, b, n, v);
    }
  }

  /** Removing or writing the pointer changes nothing but the pointer. */
  lemma PointElsewhere(fs: Files, m: Manifest, f: Faults, q: Path)
    requires q != Current(m.name)
    ensures Same(fs, Point(fs, m, f).fs, q)
  {
  }

  lemma PointBelow(fs: Files, m: Manifest, f: Faults, x: Path)
    requires !Under(x, Current(m.name))
    ensures SameBelow(fs, Point(fs, m, f).fs, x)
  {
    forall q | Under(x, q) ensures Same(fs, Point(fs, m, f).fs, q) {
      PointElsewhere(fs, m, f, q);
    }
  }

  /** Placing a cookbook touches staging, its versioned path and its pointer. */
  lemma PlaceBelow(fs: Files, m: Manifest, f: Faults, x: Path)
    requires Apart(STAGING, x) && !Under(x, Current(m.name))
    requires Exists(fs, Version(m.name, m.version)) || Apart(Version(m.name, m.version), x)
    ensures SameBelow(fs, Place(fs, m, f).fs, x)
  {
    var vp := Version(m.name, m.version);
    PointBelow(fs, m, f, x);
    if !Exists(fs, vp) {
      MoveElsewhere(fs, STAGING, vp, x);
      PointBelow(Move(fs, STAGING, vp), m, f, x);
      SameBelowJoins(fs, Move(fs, STAGING, vp), Point(Move(fs, STAGING, vp), m, f).fs, x);
    }
  }

  lemma InBookElsewhere(fs: Files, m: Manifest, f: Faults, x: Path)
    requires Apart(STAGING, x) && Apart(Book(m.name), x)
    ensures SameBelow(fs, InBook(fs, m, f).fs, x)
  {
    var made := MkdirAll(fs, Book(m.name));
    MkdirAllElsewhere(fs, Book(m.name), x);
    assert forall v :: Under(Book(m.name), Version(m.name, v));
    ApartFromBelow(Book(m.name), Version(m.name, m.version), x);
    ApartFromBelow(Book(m.name), Current(m.name), x);
    PlaceBelow(made, m, f, x);
    var r := Place(made, m, f);
    SameBelowJoins(fs, made, r.fs, x);
    RemoveAllElsewhere(r.fs, Book(m.name), f.cleanup, x);
    SameBelowJoins(fs, r.fs, RemoveAll(r.fs, Book(m.name), f.cleanup), x);
  }

  lemma ApartFromBelow(p: Path, q: Path, x: Path)
    requires Under(p, q) && Apart(p, x)
    ensures Apart(q, x)
  {
    assert Under(q, x) ==> Under(p, x);
    ApartBelow(x, p, q);
  }

  lemma StagedElsewhere(fs: Files, archive: Files, f: Faults, x: Path)
    requires Apart(STAGING, x)
    ensures SameBelow(fs, RemoveAll(fs, STAGING, f.clear), x)
    ensures SameBelow(fs, Staged(fs, archive, f), x)
  {
    var a := RemoveAll(fs, STAGING, f.clear);
    var b := MkdirAll(a, STAGING);
    RemoveAllElsewhere(fs, STAGING, f.clear, x);
    MkdirAllElsewhere(a, STAGING, x);
    SameBelowJoins(fs, a, b, x);
    GraftElsewhere(b, STAGING, archive - {[]}, x);
    SameBelowJoins(fs, b, Staged(fs, archive, f), x);
  }

  /** An import changes nothing outside staging and the directory its manifest names. */
  lemma ImportElsewhere(sys: System, fs: Files, archive: Files, f: Faults, x: Path)
    requires Apart(STAGING, x)
    requires var m := Accepted(sys, fs, archive, f); m.None? || Apart(Book(m.value.name), x)
    ensures SameBelow(fs, Import(sys, fs, archive, f).fs, x)
  {
    var staged := Staged(fs, archive, f);
    StagedElsewhere(fs, archive, f, x);
    if CanStage(fs, f) {
      var m := Accepted(sys, fs, archive, f);
      var done := if m.None? then staged else InBook(staged, m.value, f).fs;
      if m.Some? {
        InBookElsewhere(staged, m.value, f, x);
        SameBelowJoins(fs, staged, done, x);
      }
      RemoveAllElsewhere(done, STAGING, f.unstage, x);
      SameBelowJoins(fs, done, RemoveAll(done, STAGING, f.unstage), x);
    }
  }
}
