// The recipe map in memory after a delete, against the one that a fresh start builds.
module LibraryDeletes {
  import opened Recipes
  import opened Loader
  import opened FileTree
  import opened Library
  import opened LibraryDisk
  import opened LibraryMemory
  import opened Forgetting

  lemma DeleteOnlyBook(fs: Files, core: Path, n: string, r: Removal)
    requires Apart(LIBRARY, core)
    ensures OnlyBook(fs, Delete(fs, n, r), core, n)
  {
    RemoveAllElsewhere(fs, Book(n), r, core);
    forall x | x != n && x != ".new" ensures SameBelow(fs, Delete(fs, n, r), Book(x)) {
      BooksApart(n, x);
      RemoveAllElsewhere(fs, Book(n), r, Book(x));
    }
  }

  /** A fresh start after the delete meets what it met before, except below the deleted
      cookbook's root. */
  lemma WalksAfterDelete(fs: Files, core: Path, n: string, job: Job)
    requires AtRest(fs, core) && n != ".new"
    ensures Met(Delete(fs, n, Removed), core, job) <==> Met(fs, core, job) && !Under(Book(n), job.root)
  {
    var after := Delete(fs, n, Removed);
    DeleteOnlyBook(fs, core, n, Removed);
    assert Under(Book(n), Current(n));
    if Met(fs, core, job) && !Under(Book(n), job.root) {
      OtherRootSame(fs, after, core, n, job.root);
      assert Same(fs, after, job.root + job.elems) by { assert Under(job.root, job.root + job.elems); }
    }
    if Met(after, core, job) {
      OtherRootSame(after, fs, core, n, job.root);
      assert Same(after, fs, job.root + job.elems) by { assert Under(job.root, job.root + job.elems); }
      assert Under(Book(n), job.root) ==> Under(Book(n), job.root + job.elems);
    }
  }

  /** In a sound library a cookbook's workers store under keys that start with its name. */
  lemma OwnKeys(sys: System, parse: Parser, fs: Files, core: Path, n: string, job: Job)
    requires AtRest(fs, core) && Sound(sys, fs) && Met(fs, core, job) && Under(Book(n), job.root)
    requires Enters(DiskOf(sys, parse, fs, core), job)
    ensures BookName(DiskOf(sys, parse, fs, core), job) == n
    ensures Prefixed(n, KeyOf(DiskOf(sys, parse, fs, core), job))
  {
    var x := RootsBelow(fs, core, job.root);
    RootName(sys, parse, fs, core, x);
    assert Book(n)[1] == job.root[1] == Book(x)[1];
  }

  lemma RootName(sys: System, parse: Parser, fs: Files, core: Path, n: string)
    requires Sound(sys, fs) && n != ".new" && IsFile(fs, Current(n))
    ensures var d := DiskOf(sys, parse, fs, core);
      && Root(fs, n) in d.metadata && d.metadata[Root(fs, n)].name == n
      && Root(fs, n) == Version(n, Trim(fs[Current(n)].text))
  {
    assert SoundBook(sys, fs, n) && Under(Book(n), Current(n));
    assert Installed(sys, fs, n, Trim(fs[Current(n)].text));
    MetadataAt(sys, parse, fs, core, Root(fs, n));
  }

  /** No cookbook that stays has a recipe key starting with the deleted cookbook's name. */
  ghost predicate KeysApart(sys: System, parse: Parser, fs: Files, core: Path, n: string) {
    forall job | Met(fs, core, job) && !Under(Book(n), job.root) && Enters(DiskOf(sys, parse, fs, core), job) ::
      !Prefixed(n, KeyOf(DiskOf(sys, parse, fs, core), job))
  }

  /** After a delete, the recipe map in memory is one that a fresh start builds exactly when
      no cookbook that stays has a recipe key starting with the deleted name and ':'. */
  lemma DeleteKeepsMemoryExactly(sys: System, parse: Parser, fs: Files, core: Path, n: string, m: RecipeMap)
    requires AtRest(fs, core) && Sound(sys, fs) && n != ".new" && InMemory(sys, parse, fs, core, m)
    ensures InMemory(sys, parse, Delete(fs, n, Removed), core, Forget(m, n)) <==> KeysApart(sys, parse, fs, core, n)
  {
    var d, after := DiskOf(sys, parse, fs, core), Delete(fs, n, Removed);
    var e, stay := DiskOf(sys, parse, after, core), Walks(after, core);
    forall job | job in stay ensures Agree(d, e, job) && Agree(e, d, job) {
      StayingAgrees(sys, parse, fs, core, n, job);
    }
    forall job ensures job in stay <==> job in Walks(fs, core) && !Under(Book(n), job.root) {
      WalksAfterDelete(fs, core, n, job);
    }
    forall job | job in Walks(fs, core) && job !in stay && Enters(d, job) ensures Prefixed(n, KeyOf(d, job)) {
      OwnKeys(sys, parse, fs, core, n, job);
    }
    ForgetExactly(d, Walks(fs, core), stay, n, m);
    StayingBuilt(d, e, stay, Forget(m, n));
  }

  lemma StayingBuilt(d: Disk, e: Disk, stay: iset<Job>, m: RecipeMap)
    requires forall job | job in stay :: Agree(d, e, job) && Agree(e, d, job)
    ensures Built(d, stay, m) <==> Built(e, stay, m)
  {
    if Built(d, stay, m) { BuiltAgrees(d, e, stay, m); }
    if Built(e, stay, m) { BuiltAgrees(e, d, stay, m); }
  }

  lemma StayingAgrees(sys: System, parse: Parser, fs: Files, core: Path, n: string, job: Job)
    requires AtRest(fs, core) && n != ".new" && Met(Delete(fs, n, Removed), core, job)
    ensures var d, e := DiskOf(sys, parse, fs, core), DiskOf(sys, parse, Delete(fs, n, Removed), core);
      Agree(d, e, job) && Agree(e, d, job)
  {
    var after := Delete(fs, n, Removed);
    WalksAfterDelete(fs, core, n, job);
    DeleteOnlyBook(fs, core, n, Removed);
    OtherRootSame(fs, after, core, n, job.root);
    RootAgrees(sys, parse, fs, after, core, job);
  }
}
