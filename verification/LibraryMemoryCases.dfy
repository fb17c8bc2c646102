// A run of an import and a delete that keeps the library in order.
module LibraryMemoryCases {
  import opened Recipes
  import opened Loader
  import opened FileTree
  import opened Library
  import opened LibrarySound
  import opened LibraryImports
  import LibraryRuns
  import opened LibraryDisk
  import opened LibraryMemory
  import opened LibraryDeletes
  import opened LibraryStarts
  import opened LibraryUpgrades
  import opened LibraryMemoryRuns
  import opened LibraryExamples
  import opened LibrarySteps
  import LibraryCases

  lemma DeleteInOrder(sys: System, parse: Parser, fs: Files, core: Path, n: string)
    requires InOrder(sys, parse, fs, core) && n != ".new"
    ensures InOrder(sys, parse, Delete(fs, n, Removed), core)
  {
    var after := Delete(fs, n, Removed);
    LibraryRuns.DeleteSoundExactly(sys, fs, n, Removed);
    DeleteOnlyBook(fs, core, n, Removed);
    StagingApart(n);
    RemoveAllElsewhere(fs, Book(n), Removed, STAGING);
    AbsentBelow(fs, after, STAGING);
    MetaAgree(sys, parse, fs, after, core, core);
    assert forall x | IsFile(after, Current(x)) :: IsFile(fs, Current(x));
  }

  /** A library that is in order, without cookbooks, with memory as any start has built it. */
  ghost predicate Begins(sys: System, parse: Parser, l: Life) {
    && Good(sys, l.fs) && InMemory(sys, parse, l.fs, CORE, l.s.recipes)
    && (forall x :: Absent(l.fs, Book(x))) && CORE + ["METADATA"] !in l.fs
  }

  lemma BeginsInOrder(sys: System, parse: Parser, l: Life)
    requires Begins(sys, parse, l)
    ensures InOrder(sys, parse, l.fs, CORE)
  {
    MetadataAt(sys, parse, l.fs, CORE, CORE);
    forall x ensures !IsFile(l.fs, Current(x)) {
      assert Under(Book(x), Current(x));
    }
  }

  /** An import and a delete that keep library and memory in order. */
  ghost predicate ImportedAndDeleted(sys: System, parse: Parser, l: Life, acts: seq<Act>, n: string) {
    && |acts| == 2 && acts[0].ImportAct? && acts[1] == DeleteAct(n)
    && InOrder(sys, parse, l.fs, CORE) && Orderly(sys, parse, CORE, l, acts)
    && EachAgrees(sys, parse, CORE, l, acts) && AlwaysInMemory(sys, parse, CORE, l, acts)
  }

  /** Importing a first cookbook and deleting it again. */
  lemma ImportThenDelete(sys: System, parse: Parser, l: Life, text: string, m: Manifest) returns (acts: seq<Act>)
    requires Begins(sys, parse, l)
    requires sys.manifest(text) == Some(m) && Filled(m) && sys.os == m.os && sys.arch == m.arch
    requires m.name != ".new" && Plain(m.version) && ':' !in m.name
    ensures ImportedAndDeleted(sys, parse, l, acts, m.name)
  {
    var one := Import(sys, l.fs, Archive(text), FaultFree).fs;
    BeginsInOrder(sys, parse, l);
    NextImport(sys, l.fs, text, m);
    TidyWithOne(sys, parse, l.fs, one, m.name);
    var jobs, ending := ImportLoads(sys, parse, l.fs, Archive(text), m, l.s);
    var a, b := ImportAct(Archive(text), FaultFree, jobs, ending), DeleteAct(m.name);
    acts := [a, b];
    NothingWalked(l.fs, m.name);
    DeleteInOrder(sys, parse, one, CORE, m.name);
    TidyKeysApart(sys, parse, one, CORE, m.name);
    TwoActs(sys, parse, l, a, b);
    RunInMemoryExactly(sys, parse, CORE, l, acts);
  }

  lemma TwoActs(sys: System, parse: Parser, l: Life, a: Act, b: Act)
    requires Possible(sys, parse, CORE, l, a) && Agrees(sys, parse, CORE, l, a)
    requires InOrder(sys, parse, Next(sys, parse, CORE, l, a).fs, CORE)
    requires var next := Next(sys, parse, CORE, l, a);
      && Possible(sys, parse, CORE, next, b) && Agrees(sys, parse, CORE, next, b)
      && InOrder(sys, parse, Next(sys, parse, CORE, next, b).fs, CORE)
    ensures Orderly(sys, parse, CORE, l, [a, b]) && EachAgrees(sys, parse, CORE, l, [a, b])
  {
    var next := Next(sys, parse, CORE, l, a);
    assert [a, b][1..] == [b] && [b][1..] == [];
    assert Orderly(sys, parse, CORE, next, [b]) && EachAgrees(sys, parse, CORE, next, [b]);
  }

  lemma CoreBegins() returns (l: Life)
    ensures Begins(VersionTexts(), AllParse(), l)
  {
    LibraryCases.CoreIsGood();
    var s := StartedMemory(VersionTexts(), AllParse(), CoreFiles());
    l := Life(CoreFiles(), s);
  }

  /** So all that the results on runs assume holds together. */
  lemma FirstImportThenDelete() returns (l: Life, acts: seq<Act>)
    ensures ImportedAndDeleted(VersionTexts(), AllParse(), l, acts, "net")
  {
    l := CoreBegins();
    acts := ImportThenDelete(VersionTexts(), AllParse(), l, "1", NetManifest("1"));
  }
}
