// Concrete libraries at which a run of a few operations goes wrong.
module LibraryCases {
  import opened Recipes
  import opened Loader
  import opened FileTree
  import opened Library
  import opened LibrarySound
  import opened LibraryDisk
  import opened LibraryMemory
  import opened LibraryRestarts
  import opened LibraryExamples
  import opened LibrarySteps
  import opened Forgetting

  function NamedManifest(n: string): Manifest { Manifest(n, "1", "1.0", "linux", "amd64") }

  /** Version 1 of a cookbook is installed; upgrading it to version 2, the old pointer is
      removed and the new one can not be written: nothing of the cookbook is left. */
  lemma FailedUpgradeDeletesAll()
    ensures var sys, fs := VersionTexts(), CoreFiles();
      && Installed(sys, Import(sys, fs, Archive("1"), FaultFree).fs, "net", "1")
      && !Upgraded(sys, fs, "1", "2").ok && Absent(Upgraded(sys, fs, "1", "2").fs, Book("net"))
  {
    CoreIsSound(VersionTexts());
    UpgradeDeletes(VersionTexts(), CoreFiles(), "1", "2", NetManifest("1"), NetManifest("2"));
  }

  lemma CoreStarts(sys: System, parse: Parser)
    ensures StartWorks(sys, parse, CoreFiles(), CORE)
  {
    CoreIsSound(sys);
    forall job | Met(CoreFiles(), CORE, job) ensures !Matches(job) {
      assert job.root == CORE && |CORE + job.elems| == 1 + |job.elems|;
    }
  }

  /** The templates of the imported recipe do not parse: the import succeeds, and the next
      start fails, where the start before it worked. */
  lemma BrokenRecipeStopsStart()
    ensures var sys, fs := VersionTexts(), CoreFiles();
      && StartWorks(sys, NoneParse(), fs, CORE)
      && Import(sys, fs, Archive("1"), FaultFree).ok
      && !StartWorks(sys, NoneParse(), Import(sys, fs, Archive("1"), FaultFree).fs, CORE)
  {
    CoreIsSound(VersionTexts());
    CoreStarts(VersionTexts(), NoneParse());
    ImportThenNoStart(VersionTexts(), CoreFiles(), "1", NetManifest("1"));
  }

  /** With cookbooks "a" and "a:b" imported and loaded, deleting "a" forgets the recipe of
      "a:b" too, and memory is no longer what a fresh start builds. */
  lemma DeletingADropsAB() returns (m: RecipeMap)
    ensures var sys, fs := NameTexts(), Both(NameTexts(), CoreFiles(), "a", "a:b");
      && Sound(sys, fs) && AtRest(fs, CORE) && IsFile(fs, Current("a")) && InMemory(sys, AllParse(), fs, CORE, m)
      && "a:b:vpn" in m && "a:b:vpn" !in Forget(m, "a")
      && !InMemory(sys, AllParse(), Delete(fs, "a", Removed), CORE, Forget(m, "a"))
  {
    CoreIsSound(NameTexts());
    assert |"a:b"| != |"a"| && "a:b" + ":" + "vpn" == "a:b:vpn" && "a" + ":" == "a:b:vpn"[..2];
    BothImported(NameTexts(), CoreFiles(), "a", "a:b", NamedManifest("a"), NamedManifest("a:b"));
    m := DeleteDropsOther(NameTexts(), AllParse(), Both(NameTexts(), CoreFiles(), "a", "a:b"), "a", "a:b", "1");
  }

  /** The core cookbook here is one that AssumptionsHold and its like can begin with. */
  lemma CoreIsGood()
    ensures Good(VersionTexts(), CoreFiles()) && (forall x :: Absent(CoreFiles(), Book(x)))
    ensures CORE + ["METADATA"] !in CoreFiles()
    ensures VersionTexts().manifest("1") == Some(NetManifest("1")) && Plain("1")
  {
    CoreIsSound(VersionTexts());
    assert (CORE + ["METADATA"])[1] != (CORE + ["recipes"])[1];
  }

  /** All that ImportMatchesFresh assumes holds there together: importing the first cookbook
      leaves in memory what the next start builds. */
  lemma FirstImportMatchesFresh()
    returns (s: Shared, newJobs: seq<Job>, ending: seq<nat>, jobs: seq<Job>, schedule: seq<nat>)
    ensures InMemory(VersionTexts(), AllParse(), CoreFiles(), CORE, s.recipes)
    ensures MatchesFresh(VersionTexts(), AllParse(), CoreFiles(), Archive("1"), NetManifest("1"), s, newJobs, ending,
                         jobs, schedule)
  {
    CoreIsGood();
    s, newJobs, ending, jobs, schedule :=
      FirstImportMatches(VersionTexts(), AllParse(), CoreFiles(), "1", NetManifest("1"));
  }
}
