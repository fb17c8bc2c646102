# Cloud Builder: a verified model

Cloud Builder keeps recipes (Terraform templates with annotated variables) in a *cookbook*, lets
users configure and target them, stores everything in one encrypted configuration file and drives
Terraform. This project models the stateful parts of it in Dafny and proves what they keep.

* **Loading recipes.** One worker per walked path runs two critical sections over shared maps.
  `Loader` gives the sections and every interleaving of them, `Interleavings` proves what all
  interleavings have in common, and `Cookbook` is the object whose methods take the steps.
* **The cookbook library on disk.** `FileTree` is a file system in which any operation may fail.
  `Library` is the import protocol (staging, versioned directories, a `CURRENT` pointer, deferred
  clean-up), and `LibrarySound`, `LibraryImports` and `LibraryRuns` say what it keeps for every
  archive and every combination of failures. `LibraryDisk`, `LibraryMemory`, `LibraryDeletes` and
  `LibraryStarts` compare the recipe map in memory with the one a fresh start builds;
  `LibraryUpgrades` does so after an upgrade and `LibraryMemoryRuns` over whole runs;
  `LibraryRestarts` says when the next start works, `LibraryListings` when recipes can be listed.
  `CookbookStart` and `CookbookStore` hold the methods that work on the files step by step,
  `LibraryExamples`, `LibrarySteps`, `LibraryCases`, `LibraryUpgradeCases` and
  `LibraryMemoryCases` concrete libraries at which things go wrong or assumptions hold together.
* **Sorted listings.** Lists are built by walking a map in arbitrary order and inserting with
  `sort.Search`. `Placement` proves when such a list does not depend on the walk, for any
  comparator; `Listings`, `RecipeListRuns`, `TemplateReader` and `Device` apply that.
* **Hand-written JSON.** `Json` models lexemes and the token decoder. `RecipeText`, `CookbookText`
  and `ContextText` are three nested parsers, each proved to undo its printer; `RecipeCodec`,
  `CookbookCodec`, `ContextCodec` and `TargetContext` are the methods that print and parse.
* **Encrypted sessions.** `Sessions` is the configuration file as a state machine over passphrase,
  key timeout, file time and a target context that may stay unloaded; `SessionRuns` proves what
  survives saves, restarts and passphrase changes; `ConfigFile` is the object.
* **Recipe copies.** `RecipeModel` and `RecipeStore` say which edits reach the stored recipe.
* **Terraform.** `PlanTrace` and `Runner` are the plan-file life cycle and the argument lists,
  `Annotations`, `TemplateReader`, `FileNotes` and `ConfigReader` the template reader.

`LoadedRecipes`, `LibraryFiles`, `SessionSettings`, `VariableNotes` and `FormFields` say what comes
out in terms of what goes in (files, actions, lines), without the functions in between.

The imperative parts are classes and loops, each proved against a function or relation on values;
the main results are lemmas about those. Map iteration is a choice of any remaining key. What goes
wrong outside the program (a failing file operation, the order of workers, the clock, the answer to
a passphrase prompt) is a parameter, and the results hold for all its values.

## What does not hold, and when

* `RecipeList` does not always return one entry per key, and not always the same list: a run fails
  exactly if the first key it meets has no IaaS variant (`StopsExactly`), and later such keys are
  listed with the fields of another recipe (`ListedAsOther`). All runs return the same list exactly
  if each recipe has a variant, its variants agree on what is listed, such as being a bastion, and no
  two recipes of one group clash, their cookbook order and their name order disagreeing
  (`RecipeListSameExactly`, `TwoVariantsDependOnWalk`, `TwoCookbooksDependOnWalk`). Keys without
  variants are those of recipes on disk that load for no IaaS (`MemoryListsExactly`); importing
  templates that do not parse succeeds and leaves one (`BrokenImportStopsListing`). The comment at
  cookbook/cookbook.go:650 speaks of descending order; the code inserts in ascending order.
* The loaded recipe map depends on the order of workers exactly when two paths claim one recipe key
  and IaaS with different contents (`IndependentExactlyWithoutConflict`, `TwoRootsConflict`).
* An import can leave a cookbook directory without a usable pointer: with version `CURRENT`, with a
  version that trimming changes, after a torn pointer write, or after a failed clean-up.
  `ImportSoundExactly` gives the exact condition for all failures, `FreshImportSoundExactly` the one
  without failures, `CurrentVersionBreaks` and `TrimmedVersionBreaks` two inputs. Such imports fail,
  and keep the application from starting (`ImportOpensExactly`). So does a staging directory that was
  left behind, unless it holds a pointer of its own (`LeftStagingExactly`, `StagingWithPointerOpens`).
* If an upgrade removes the old pointer and then cannot write the new one, the clean-up deletes every
  installed version of that cookbook (`InstalledCleanedExactly`, `FailedUpgradeDeletesAll`).
* An import does not look at the errors of the recipes it loads; the next start does
  (`NextStartExactly`, `BrokenRecipeStopsStart`).
* Deleting cookbook `a` also drops recipes of a cookbook named `a:b` (`DeleteKeepsMemoryExactly`,
  `DeletingADropsAB`).
* After an upgrade, recipes that only the old version has stay in memory until the next start
  (`UpgradeKeepsMemoryExactly`, `UpgradeDroppingRecipe`).
* An array of empty objects and scalars under `cloud` empties the element stack of `Load` exactly if
  more than two of its objects are not its last element (`ArrayEmptiesStackExactly`): three empty
  objects load, four do not (`ThreeObjectsLoad`).
* An unknown recipe in a saved context is not always ignored: the load fails exactly if the document
  fails without it or some value given for an unknown recipe does not read as a recipe
  (`UnknownEntriesIgnoredExactly`), as one with null variables does not (`UnknownRecipeFails`).
* An error in a recipe's variable list is forgotten if another token follows the list
  (`BadListForgotten`).
* A second save of a session without an owner login is refused, and leaves the first one's file, if
  the session started with a passphrase that does not open what the first save wrote. If it started
  without one and has one set at the first save, the second save seals the target context twice
  (`SecondSaveExactly`), and no later start can read it (`SetPassphraseAndSaveTwice`).
* A passphrase with key timeout -1 makes the saved file unreadable (`OpensExactly`,
  `PassphraseWithoutTimeoutLost`), and so does a passphrase if the file's time cannot be set to the
  seed (`UnsetTimeExactly`).
* A failed removal of the plan file lets one plan be applied twice (`FailedRemovalAppliesTwice`).
* A recipe copy stays shared with the store after it is saved, so later edits are stored without
  another save (`EditAfterSaveIsStored`).
* A recipe's description and resource lists depend on the walk of its variables exactly when two
  template files give different ones (`NoteSameExactly`).

## Model

| member | source | states |
|---|---|---|
| BinarySearch.Search | cookbook/cookbook.go:231-233 | for any predicate, `sort.Search` ends where the predicate is false just before and true at the index |
| BinarySearch.MiddleDecides | cookbook/cookbook.go:652-657 | over every range the middle element decides in which half the search ends, also for a predicate that is not monotone |
| BinarySearch.BisectMonotone | cookbook/cookbook.go:231-233 | for a monotone predicate the index found is the smallest true one |
| Ordering.LessExactly | cookbook/cookbook.go:502-505 | a string is less than another if and only if it is a proper prefix of it or has the lesser character where they first differ |
| Placement.ListingPermutation | cookbook/cookbook.go:631-667 | inserting with binary search loses and adds nothing, whatever the comparator |
| Placement.ListingUnique | cookbook/cookbook.go:496-515 | under a strict total order every walk of the same elements gives one sorted list |
| Placement.IndependentExactly | cookbook/cookbook.go:652-665 | the list is the same for every walk if and only if the search predicate is a strict total order on the elements |
| SortedSlices.InsertInto | cookbook/cookbook.go:658-664 | growing the preallocated slice, shifting with copy and writing the gap inserts at the index and stays within capacity |
| SortedSlices.PlaceInto | cookbook/cookbook.go:502-513 | one insertion into the sorted part gives the listing of one more element |
| Listings.RecipeListBastionsFirst | cookbook/cookbook.go:650-657 | bastion recipes form a prefix for every walk, although the search predicate need not be monotone |
| Listings.RecipeListIndependentExactly | cookbook/cookbook.go:652-657 | the list is independent of the walk if and only if no two entries of one group clash |
| Listings.OneCookbookSorted | cookbook/cookbook.go:650-657 | with all recipes in one cookbook the list is unique and each group strictly sorted by recipe name |
| Listings.TwoCookbooksDependOnWalk | cookbook/cookbook.go:652-657 | recipe b of cookbook a and recipe a of cookbook b are listed in either order, depending on the walk |
| Listings.CookbookListUnique | cookbook/cookbook.go:494-515 | embedded cookbooks first, each group in ascending name order, the same for every walk |
| RecipeWalks.ListRecipes | cookbook/cookbook.go:628-667 | one entry per recipe key, placed as some walk meets it; otherwise a walk has come to a key that leaves no recipe, where the source dereferences nil |
| RecipeWalks.LastVariant | cookbook/cookbook.go:636-648 | the fields of an entry come from the variant met last; with no variant the one of the previous key is kept |
| RecipeWalks.EntriesExactly | cookbook/cookbook.go:636-648 | each key of a walk has an entry; it shows cookbook, version, name and bastion flag of one of its variants and all its IaaS names |
| RecipeListRuns.StopsExactly | cookbook/cookbook.go:628-648 | a run of RecipeList fails if and only if the first key it meets has no IaaS variant |
| RecipeListRuns.SomeRunReturnsExactly | cookbook/cookbook.go:628-667 | some run returns if and only if there are no keys or some key has a variant |
| RecipeListRuns.ListedAsOther | cookbook/cookbook.go:636-648 | a key without variants can be listed with the fields of any variant of any other recipe |
| RecipeListRuns.RecipeListSameExactly | cookbook/cookbook.go:616-668 | for every recipe map: all runs of RecipeList return, and the same list, if and only if each recipe has a variant, its variants agree on what is listed and no two entries of a run clash |
| RecipeListRuns.TwoVariantsDependOnWalk | cookbook/cookbook.go:637-648 | one recipe that is a bastion on one of two IaaS is listed as either, although nothing clashes |
| CookbookWalks.ListCookbooks | cookbook/cookbook.go:489-516 | the walk picks exactly the selected cookbooks and never outgrows the slice allocated for all of them |
| CookbookWalks.PickEnd | cookbook/cookbook.go:489-516 | the finished list holds exactly the selected cookbooks, embedded first, each group by name |
| Cookbooks.InsertName | cookbook/cookbook.go:230-240 | append, copy and overwrite add the name to the sorted list once |
| Loader.AddNameKeeps | cookbook/cookbook.go:230-240 | the list of recipe names stays strictly sorted and gains exactly the name |
| Cookbooks.Cookbook.constructor | cookbook/cookbook.go:105-113 | a new cookbook has empty maps and no errors |
| Cookbooks.Cookbook.EnterRecipe | cookbook/cookbook.go:219-248 | the first critical section: find or create the cookbook, list the recipe name, make sure the recipe key is there |
| Cookbooks.Cookbook.LeaveRecipe | cookbook/cookbook.go:250-269 | the second critical section: store the loaded recipe under its key and IaaS, or record the error |
| Cookbooks.Cookbook.Turn | cookbook/cookbook.go:187-298 | a worker runs to the end of its next critical section, as the transition relation says |
| Cookbooks.Cookbook.AddRecipeMetadata | cookbook/cookbook.go:280-306 | when all workers are done the maps are those of some complete interleaving, and without conflicts the recipe map is that of every interleaving |
| Interleavings.CellsAfter | cookbook/cookbook.go:242-269 | at every point of every interleaving each key and cell is accounted for by workers that ran, or by what was there before |
| Interleavings.SameRecipes | cookbook/cookbook.go:187-302 | any two complete interleavings end with the same recipe map when no two workers claim a cell with different contents |
| Interleavings.IndependentExactlyWithoutConflict | cookbook/cookbook.go:187-302 | the recipe map is the same for every interleaving if and only if no two walked paths conflict |
| Interleavings.LastWins | cookbook/cookbook.go:267-269 | any worker that loads its recipe can be the one whose recipe stays |
| Interleavings.ListsExact | cookbook/cookbook.go:230-240 | in every complete interleaving each cookbook's list is the strictly sorted set of the recipe names its workers met |
| Interleavings.SameLists | cookbook/cookbook.go:230-240 | the lists are the same in any two complete interleavings, conflicts or not |
| Interleavings.SequentialComplete | cookbook/cookbook.go:280-306 | running the workers one after another is a complete interleaving |
| Interleavings.OneRootPerCookbook | cookbook/cookbook.go:208-219 | one root per cookbook name, and names without a colon, rule out conflicts |
| Interleavings.TwoRootsConflict | cookbook/cookbook.go:219-269 | two roots whose METADATA give one name make the recipe map depend on the interleaving |
| Interleavings.ErrorsAfter | cookbook/cookbook.go:293-297 | an error is recorded if and only if a matched path whose worker is done fails to load |
| LoadedRecipes.CellsRead | cookbook/cookbook.go:187-269 | after every complete load a cell holds a recipe read from one of the paths for it, with the cookbook, version, name, IaaS, root, bastion flag and variables that METADATA, path and templates say, or what was there if there is no such path |
| LoadedRecipes.OwnCellRead | cookbook/cookbook.go:187-269 | without conflicts the cell of every path that loads holds the recipe read from it |
| LoadedRecipes.KeysRead | cookbook/cookbook.go:242-248 | a recipe key is present if and only if it was, or some path of a root with METADATA is for it, loading or not |
| LoadedRecipes.BooksRead | cookbook/cookbook.go:222-229 | a new cookbook entry has name, version and path of a root it was met at, and is imported if and only if that is not the core root; an old entry keeps them |
| LoadedRecipes.BooksMet | cookbook/cookbook.go:222-229 | the cookbooks are those that were there and those that some path met |
| Cookbooks.Cookbook.GetRecipe | cookbook/cookbook.go:684-698 | the recipe of that key and IaaS, or nothing |
| Cookbooks.Cookbook.SetRecipe | cookbook/cookbook.go:700-715 | the recipe is stored under its own key and IaaS, and no other cell changes |
| Cookbooks.Cookbook.RecipeList | cookbook/cookbook.go:616-668 | a permutation of one entry per key with the bastions first, whatever the walk, unless the walk stops at a key without variants |
| Cookbooks.Cookbook.CookbookList | cookbook/cookbook.go:489-516 | exactly the selected cookbooks, embedded first, each group strictly by name |
| FileTree.MovedTree | cookbook/cookbook.go:397-400 | after a rename the tree at the new place is the one that was at the old |
| FileTree.MovedExactly | cookbook/cookbook.go:397-400 | a rename takes everything from the old place to the new one and touches nothing else |
| FileTree.MadeExactly | cookbook/cookbook.go:379 | making a directory makes it and all above it that are missing, and nothing else |
| FileTree.TreesAgree | cookbook/cookbook.go:405-413 | two directories compare equal if and only if every path below them holds the same |
| Library.ImportElsewhere | cookbook/cookbook.go:309-421 | whatever fails, an import changes nothing outside staging and the directory of the cookbook that the manifest names |
| LibrarySound.PointExactly | cookbook/cookbook.go:415-418 | after the pointer is rewritten it is gone, or still the old one, or names an installed version if and only if the written text does |
| LibrarySound.MoveInstalls | cookbook/cookbook.go:395-400 | the rename installs the validated cookbook under its version and leaves the pointer as it was |
| LibrarySound.CurrentBecomesDir | cookbook/cookbook.go:386-418 | a version named CURRENT puts a directory where the pointer belongs, and the import fails |
| LibrarySound.CleanupExactly | cookbook/cookbook.go:387-393 | the deferred clean-up leaves a sound directory if and only if the pointer that exists is sound, or none does and both the check and the removal work |
| LibrarySound.PlaceOrCleanExactly | cookbook/cookbook.go:386-418 | placing a validated cookbook keeps its directory sound if and only if a lost pointer is cleaned up and a new pointer reads back as an installed version |
| LibrarySound.ImportSoundExactly | cookbook/cookbook.go:309-421 | for every archive and combination of failures, an import keeps every cookbook directory with a CURRENT naming an installed version if and only if the stated condition on those failures holds |
| LibrarySound.PlainImportKeepsSound | cookbook/cookbook.go:309-421 | with working clean-up and untorn writes, importing a version that trimming keeps and that is not CURRENT is sound whatever else fails |
| LibraryImports.PlaceWrites | cookbook/cookbook.go:395-442 | once the pointer is written both walks find their directory if and only if trimming keeps the version or names a directory that has both |
| LibraryImports.LoadingImportLeaves | cookbook/cookbook.go:415-482 | an import that starts to load, successful or not, leaves the pointer with the version and the versioned directory with what was unpacked |
| LibraryImports.ImportSucceedsExactly | cookbook/cookbook.go:309-482 | exactly when an import succeeds: each step up to loading does, the root that the trimmed pointer names has the directories the walks look for, and all is loaded; then the pointer holds the version and the versioned directory what was unpacked |
| LibraryImports.SuccessSoundExactly | cookbook/cookbook.go:395-442 | a successful import leaves the library sound if and only if trimming keeps the version or names an installed one |
| LibraryImports.WellFormedArchiveImports | cookbook/cookbook.go:347-420 | a well-formed archive of a plain version of a new cookbook is imported when nothing fails, and the library stays sound |
| LibraryFiles.TrimExactly | cookbook/cookbook.go:434 | trimming takes white space off both ends, and all of it |
| LibraryFiles.ImportInstallsArchive | cookbook/cookbook.go:309-482 | an import that succeeds was of an archive with both directories and complete METADATA for this system, and leaves exactly that archive below its version and the version in the pointer |
| LibraryFiles.ImportedRootLoads | cookbook/cookbook.go:431-482 | after an import that succeeds CURRENT names a root that has plugins and recipes |
| LibraryFiles.EarlyFailureChangesNothing | cookbook/cookbook.go:309-376 | an import that cannot stage, unpack or read METADATA is refused, and changes nothing beside the staging directory and those above it |
| LibraryFiles.SuccessNeeds | cookbook/cookbook.go:309-482 | an import succeeds only if no operation fails that it needs |
| LibraryFiles.RemovedOneExactly | cookbook/cookbook.go:415 | removing the old pointer takes away a file or an empty directory, and nothing else |
| LibraryFiles.WellFormedIsImported | cookbook/cookbook.go:347-420 | every such archive of a plain version of a new cookbook is imported so when nothing fails |
| LibraryImports.StagingNameFails | cookbook/cookbook.go:379-413 | a cookbook that calls itself .new is never imported |
| LibraryImports.StagingGone | cookbook/cookbook.go:327-332 | the staging directory is gone when the call returns unless its removal failed |
| LibraryImports.ImportKeepsVersion | cookbook/cookbook.go:395-413 | an import leaves each installed version of each cookbook as it is unless it cleans up that cookbook's directory |
| LibraryImports.InstalledCleanedExactly | cookbook/cookbook.go:387-418 | an import removes a cookbook with installed versions if and only if the old pointer was removed and the new one could not be written |
| LibraryImports.FreshImportSoundExactly | cookbook/cookbook.go:379-418 | without failures, importing a cookbook that is not there yet is sound if and only if its version is not CURRENT and survives trimming |
| LibraryRuns.FailedDeleteExactly | cookbook/cookbook.go:531-534 | a failed removal leaves a sound pointer if and only if it was sound and the pointer, the named version's directory, plugins, recipes and METADATA are all among the survivors |
| LibraryRuns.DeleteSoundExactly | cookbook/cookbook.go:531-534 | a delete keeps a sound library sound if and only if it succeeds, there was nothing to remove, or all that the pointer needs survives |
| LibraryFiles.DeletedExactly | cookbook/cookbook.go:531-534 | a delete takes away the cookbook's directory and all below it, and nothing else |
| LibraryRuns.RunSoundExactly | cookbook/cookbook.go:309-421 | over any run of imports and deletes with any failures, the library is sound after every operation if and only if each operation meets its condition |
| LibraryRuns.RunLeavesNoStaging | cookbook/cookbook.go:327-332 | no run leaves a staging directory behind when the removal that ends each import works |
| LibraryRuns.RunKeepsVersion | cookbook/cookbook.go:395-413 | over any run with any failures, an installed version's tree never changes until its cookbook's directory is removed |
| LibraryStarts.SoundOpens | cookbook/cookbook.go:150-166 | a sound library without staging lets NewCookbook read every entry |
| LibraryStarts.RunThenOpens | cookbook/cookbook.go:150-166 | so it does after any run of operations that meet their conditions |
| LibraryRestarts.ImportOpensExactly | cookbook/cookbook.go:150-166 | for every archive and combination of failures, after an import that removed its staging directory a start can read the library if and only if a lost pointer was cleaned up and the text of a new one names a root with recipes |
| LibraryRestarts.LeftStagingExactly | cookbook/cookbook.go:150-165 | with a staging directory left behind, a start can read an otherwise sound library if and only if that directory holds a pointer and recipes below what it names |
| LibraryRestarts.StagingWithPointerOpens | cookbook/cookbook.go:150-165 | a left staging directory with an empty pointer and recipes does not stop the start |
| LibraryRestarts.NextStartExactly | cookbook/cookbook.go:168-171 | after an import or upgrade that got as far as loading, the next start works if and only if every recipe of the imported cookbook loads |
| CookbookStores.ImportAndRestart | cookbook/cookbook.go:83-482 | an import and the start after it, composed: both verdicts are exact |
| CookbookStarts.WalkRecipes | cookbook/cookbook.go:280-302 | the walk starts one worker for each path below the recipes directory and no other |
| CookbookStarts.LibraryRoots | cookbook/cookbook.go:150-161 | the roots named by the pointers of all entries, or an error if and only if some entry cannot be read |
| CookbookStarts.NewCookbook | cookbook/cookbook.go:83-178 | a start succeeds if and only if the core and every library entry can be walked and every recipe met loads; then the recipe map is what its workers load |
| LibraryFiles.StartedCell | cookbook/cookbook.go:146-269 | after a start there is a recipe for a key and IaaS if and only if the files give one: below the core or a root that a CURRENT file names, from METADATA, path and parsed templates; it is one that they give |
| LibraryFiles.StartWorksExactly | cookbook/cookbook.go:146-178 | a start works if and only if the core cookbook has recipes, every library entry has a CURRENT file that names a root with recipes, and each recipe path that it meets has METADATA and templates that parse |
| LibraryDisk.LoadExtends | cookbook/cookbook.go:180-307 | a complete load adds to a recipe map exactly what its workers load |
| LibraryDisk.BuiltUnique | cookbook/cookbook.go:180-307 | two recipe maps that the same workers build are equal unless two of them clash |
| LibraryMemory.ImportKeepsMemory | cookbook/cookbook.go:420-482 | after importing a cookbook that was not in the library, memory is what a fresh start builds from the new disk, also if a plugin could not be copied |
| LibraryDeletes.WalksAfterDelete | cookbook/cookbook.go:150-166 | after a delete a fresh start meets what it met before except below the deleted root |
| LibraryDeletes.OwnKeys | cookbook/cookbook.go:219 | in a sound library a cookbook's workers store under keys that start with its name and a colon |
| Forgetting.ForgetExactly | cookbook/cookbook.go:536-542 | dropping keys by prefix leaves what the other workers build if and only if none of them stores under the prefix |
| LibraryDeletes.DeleteKeepsMemoryExactly | cookbook/cookbook.go:518-545 | after a delete, memory is what a fresh start builds if and only if no cookbook that stays has a key starting with the deleted name and a colon |
| LibraryStarts.TidyKeysApart | cookbook/cookbook.go:536-542 | with names free of colons and the core name not in the library, a delete drops the recipes of that cookbook and no other |
| LibraryStarts.TidyUnclashing | cookbook/cookbook.go:146-166 | with such names no two workers of a fresh start conflict |
| LibraryStarts.MemoryIsFresh | cookbook/cookbook.go:146-172 | a recipe map that agrees with the disk equals the one of any fresh start, whatever the order of its workers |
| LibraryStarts.ImportMatchesFresh | cookbook/cookbook.go:420-482 | importing a new cookbook leaves exactly the recipe map that a fresh start builds |
| LibraryStarts.DeleteMatchesFresh | cookbook/cookbook.go:518-545 | deleting a cookbook leaves exactly the recipe map that a fresh start builds |
| LibraryUpgrades.LoadOverExactly | cookbook/cookbook.go:242-269 | loading over what an old version has stored leaves what a fresh start builds if and only if the new version stores over all of it |
| LibraryUpgrades.UpgradeKeepsMemoryExactly | cookbook/cookbook.go:395-482 | after an upgrade, memory is what a fresh start builds if and only if each recipe and IaaS of the old version is also one of the new |
| LibraryUpgradeCases.UpgradeDroppingRecipe | cookbook/cookbook.go:395-482 | version 1 has a recipe, version 2 has none: after the upgrade it is still in memory, where no start builds it |
| LibraryMemoryRuns.UnloadedChangeExactly | cookbook/cookbook.go:386-421 | when an import ends before loading, memory still agrees with the disk if and only if the cookbook's workers would store what they did before |
| LibraryMemoryRuns.ActAgreesExactly | cookbook/cookbook.go:309-545 | after one import, upgrade or delete memory agrees with the disk if and only if the act meets the condition stated for its kind |
| LibraryMemoryRuns.RunInMemoryExactly | cookbook/cookbook.go:309-545 | over every run of imports, upgrades and deletes that keeps the library in order, memory agrees with the disk after each act if and only if each act meets its condition |
| LibraryMemoryRuns.RunMatchesFresh | cookbook/cookbook.go:309-545 | after such a run memory is exactly what any start from the library then builds |
| LibraryMemoryCases.FirstImportThenDelete | cookbook/cookbook.go:309-545 | a run of an import and a delete at which all that the results on runs assume holds together |
| LibraryListings.MemoryListsExactly | cookbook/cookbook.go:616-668 | when memory agrees with the disk, no run of RecipeList fails if and only if each recipe on disk loads for some IaaS |
| LibraryListings.WorkingStartLists | cookbook/cookbook.go:616-668 | after a start that worked every run of RecipeList returns |
| LibraryListings.BrokenImportStopsListing | cookbook/cookbook.go:243-263 | a first cookbook whose templates do not parse is imported, and leaves a key with which no run of RecipeList returns |
| LibraryExamples.StartExists | cookbook/cookbook.go:83-178 | for all files there is a fresh start, so what is said of every start is said of some |
| LibraryExamples.CurrentVersionBreaks | cookbook/cookbook.go:395-418 | a fault-free import of version CURRENT fails, and no start works any more |
| LibraryExamples.TrimmedVersionBreaks | cookbook/cookbook.go:431-444 | a fault-free import of a version that ends in a space fails on the walk of a directory that is not there, and no start works any more |
| LibraryCases.FailedUpgradeDeletesAll | cookbook/cookbook.go:387-418 | version 1 is installed, the pointer to version 2 cannot be written, and nothing of the cookbook is left |
| LibraryCases.BrokenRecipeStopsStart | cookbook/cookbook.go:168-171 | an import whose templates do not parse succeeds, and the start that worked before it does not any more |
| LibraryCases.DeletingADropsAB | cookbook/cookbook.go:536-542 | with a and a:b imported, deleting a forgets the recipe of a:b and memory differs from every fresh start |
| LibraryCases.FirstImportMatchesFresh | cookbook/cookbook.go:420-482 | all that ImportMatchesFresh assumes holds together for a first import into an empty library |
| LibraryStarts.FreshFailsExactly | cookbook/cookbook.go:168-171 | a start reports an error if and only if a recipe it meets does not load |
| CookbookStores.FreshAtHome | cookbook/cookbook.go:224-229 | after a start from a sound library every imported cookbook's path lies in its own entry, which is what a delete removes |
| CookbookStores.ImportKeepsHome | cookbook/cookbook.go:224-229 | so it does after an import |
| CookbookStores.Store.LoadImported | cookbook/cookbook.go:423-482 | loading succeeds if and only if both walks find their directory below the root that the trimmed pointer names, and nothing fails; a failing walk has loaded what it met, a failed plugin copy is reported when all recipes are loaded |
| CookbookStores.Store.PlaceVersion | cookbook/cookbook.go:395-418 | the steps from the versioned path to the pointer have the outcome of the protocol for every failure |
| CookbookStores.Store.ImportVersion | cookbook/cookbook.go:378-420 | so have the steps in the cookbook's own directory with their deferred clean-up |
| CookbookStores.Store.ImportCookbook | cookbook/cookbook.go:309-482 | files and verdict are those of the protocol; the maps change if and only if loading starts, and then by all recipes, or by those met before a walk failed; a new cookbook keeps memory and disk the same |
| CookbookStores.Store.ForgetRecipes | cookbook/cookbook.go:536-542 | deleting while walking the map drops exactly the keys with the prefix |
| CookbookStores.Store.DeleteImportedCookbook | cookbook/cookbook.go:518-545 | an unknown name is no error, the embedded cookbook is one; the library entry and the prefixed keys go, unless the removal fails |
| Json.ValueTaken | config/target_context.go:89-135 | the decoder takes a printed value as a whole and leaves what follows it |
| Json.NoValueHere | cookbook/recipe.go:626 | no value starts with a closing bracket, also behind a comma |
| Json.ScanValue | cookbook/recipe.go:622-630 | counting open brackets finds the length of the next value |
| Json.Decoder.Token | config/target_context.go:89-97 | the next lexeme that is not a separator, or the end of the input |
| Json.Decoder.HasMore | config/target_context.go:99 | another element or key follows in the same array or object |
| Json.Decoder.Decode | cookbook/recipe.go:626 | the text of the next value, past any separator |
| RecipeText.RecipeRead | cookbook/recipe.go:583-635 | unmarshalling a printed recipe into any receiver overrides its variables by those listed, in order |
| RecipeText.PrintedMerges | cookbook/recipe.go:657-682 | whatever order the map was printed in, the receiver's variables are overridden by exactly the source's variables with a value |
| RecipeText.UnmarshalMarshalled | cookbook/recipe.go:583-682 | unmarshalling a marshalled recipe merges it, and doing so again with any other print order changes nothing more |
| RecipeText.BadListForgotten | cookbook/recipe.go:591-608 | a variable list that is no array is an error if the document ends with it, and no error if another key follows |
| RecipeText.BadListsRefused | cookbook/recipe.go:611-635 | a list with an element that is no variable is refused, and one that ends with another bracket |
| RecipeText.LastEntryCounts | cookbook/recipe.go:611-635 | of several entries of one name the last counts; a variable that is not listed stays |
| RecipeText.MarshalledVariable | cookbook/recipe.go:583-682 | a variable marshalled with a value has it afterwards, every other one is the receiver's own |
| RecipeCodec.MarshalVariables | cookbook/recipe.go:657-682 | the list holds exactly the variables that have a value, once each, with commas between them |
| RecipeCodec.MarshalRecipe | cookbook/recipe.go:639-655 | whoever unmarshals the output has its variables overridden by exactly those of the source that have a value |
| RecipeCodec.UnmarshalVariables | cookbook/recipe.go:611-635 | the loop merges each entry and ends behind the closing bracket, or behind the value that is no variable, with an error |
| RecipeCodec.UnmarshalRecipe | cookbook/recipe.go:583-609 | the token loop computes the merge that RecipeRead is about; the error of a list lasts until the next token |
| RecipeCodec.GetKeyFieldValues | cookbook/recipe.go:382-399 | one value per key field in order, empty where the variable is unknown or not set |
| RecipeCodec.KeyValuesRestored | cookbook/recipe.go:382-399 | a recipe restored from its own JSON into an unset one has the same key values |
| CookbookText.BookRead | cookbook/cookbook.go:719-842 | unmarshalling a cookbook document, whatever its recipe values, applies its entries in order, and fails if and only if one of them does not decode |
| CookbookText.SavedApplied | cookbook/cookbook.go:719-842 | nothing that a marshalled cookbook lists, known or not, fails the reading |
| CookbookText.OnlyArraysRead | cookbook/cookbook.go:735-741 | any value but an array is refused |
| CookbookText.EntryKeyRefused | cookbook/cookbook.go:764-785 | an element with a key other than its one name and its configuration is refused |
| CookbookText.ConfigRefused | cookbook/cookbook.go:807-809 | a configuration that is no object is refused |
| CookbookText.NestedArrayRefused | cookbook/cookbook.go:751-759 | an array in the place of an element is refused |
| CookbookText.StrayTokenSkipped | cookbook/cookbook.go:810-816 | a token that is no string is passed over between the members of a configuration |
| CookbookText.CellAfterEntries | cookbook/cookbook.go:798-842 | each recipe and IaaS takes exactly the variables listed for it, and no recipe is added or lost |
| CookbookCodec.EntryVarsWritten | cookbook/cookbook.go:846-890 | a marshalled cookbook lists, for each of its recipes and nothing else, exactly the variables with a value |
| CookbookCodec.BookRestored | cookbook/cookbook.go:719-890 | unmarshalling a marshalled cookbook into another restores every recipe both have, for every print order |
| CookbookCodec.RestoredVariable | cookbook/cookbook.go:798-842 | restoring takes each saved value and leaves every other variable and all else of a recipe alone |
| CookbookCodec.MarshalConfigs | cookbook/cookbook.go:867-883 | one member per IaaS variant, with commas between them |
| CookbookCodec.MarshalBook | cookbook/cookbook.go:846-890 | the pieces written add up to a document from which any cookbook restores every recipe both have |
| CookbookCodec.UnmarshalConfigs | cookbook/cookbook.go:798-842 | a known recipe is decoded in place, an unknown one into a recipe that is dropped |
| CookbookCodec.UnmarshalEntries | cookbook/cookbook.go:743-796 | the loop with its current key and recipe name computes what BookRead is about |
| CookbookCodec.UnmarshalBook | cookbook/cookbook.go:719-796 | the document has to start with an array |
| ContextText.DocumentLoads | config/target_context.go:66-178 | loading a document applies its sections in order, whichever is last and although its final braces are never popped, and fails if and only if a recipe value does not decode |
| ContextText.UnknownKeyFails | config/target_context.go:113-141 | a key beside cloud, or one in it that names no section, fails the load |
| ContextStack.StackStaysInBounds | config/target_context.go:77-175 | for every single-object document whose cloud, providers and backends keys hold objects the stack has one to three elements at every token |
| ContextArrays.ArrayEmptiesStackExactly | config/target_context.go:99-110 | an array of empty objects and scalars under cloud makes Load slice below an empty stack if and only if more than two of its objects are not its last element; otherwise it loads and changes nothing |
| ContextArrays.ThreeObjectsLoad | config/target_context.go:99-110 | three empty objects load, four do not |
| ContextArrays.StringMeetsEmptyStack | config/target_context.go:99-112 | a string that follows two objects of such an array, and is not its last element, indexes the empty stack |
| ContextMeaning.UnknownEntriesIgnoredExactly | config/target_context.go:145-171 | a document loads like the same document without its unknown providers, backends and recipes if and only if each value for an unknown recipe reads as a recipe or that document fails too |
| ContextMeaning.UnknownRecipeFails | cookbook/cookbook.go:817-838 | one unknown recipe with null variables fails the load, where the document without it changes nothing |
| ContextMeaning.SavedLoads | config/target_context.go:66-278 | loading what Save wrote restores every known provider and backend, merges every shared recipe and replaces the target set |
| ContextMeaning.SaveThenLoad | config/target_context.go:66-278 | into a fresh context with the same templates and cookbook it gives back exactly the context that was saved, for every walk of its maps |
| ContextCodec.WriteTexts | config/target_context.go:203-217 | each name once with its encoding, with commas between them |
| ContextCodec.SaveContext | config/target_context.go:181-278 | the pieces written add up to a document of the context |
| TargetContexts.TargetContext.ReadKey | config/target_context.go:108-173 | what a key does under each element of the stack |
| TargetContexts.TargetContext.Load | config/target_context.go:66-178 | the token loop with its stack ends as the function on the text says, including where it indexes an empty stack |
| TargetContexts.TargetContext.Save | config/target_context.go:181-278 | the text is a document of the context's state |
| TargetContexts.SaveAndLoad | config/target_context.go:66-278 | saving one context and loading it into a fresh one makes both equal |
| RecipeModel.EditReachesExactly | config/target_context.go:284-306 | an edit changes what the store returns if and only if the store refers to that very copy; no other copy changes |
| RecipeModel.UnsavedEditsInvisible | config/target_context.go:284-302 | in any run of gets, saves and edits that never saves a copy, dropping the edits of that copy changes neither the store nor any other copy |
| RecipeModel.GetHandsOutFetched | config/target_context.go:284-302 | a get of a stored recipe adds one object with exactly the stored values and changes nothing else; another get does nothing |
| RecipeModel.EditSetsValue | cookbook/recipe.go:61-65 | an edit sets the value of one variable that is there, and nothing else |
| RecipeModel.SaveRefers | config/target_context.go:304-306 | a save makes its own slot refer to the saved object, and no other |
| RecipeModel.SavedIsReturned | config/target_context.go:284-306 | a get after a save hands out an object with the saved values, through any gets, edits of other copies and saves elsewhere |
| RecipeModel.EditAfterSaveIsStored | config/target_context.go:304-306 | an edit of a copy after it was saved is stored without another save |
| RecipeStore.RecipeObject.Copy | cookbook/recipe.go:514-561 | a new recipe with new variable objects that hold the same values |
| RecipeStore.Store.GetRecipe | config/target_context.go:284-302 | a get hands out a copy that shares nothing with any other recipe |
| RecipeStore.Store.Edit | cookbook/recipe.go:61-65 | writing a variable of one recipe changes that recipe's value alone |
| RecipeStore.Store.SaveRecipe | config/target_context.go:304-306 | the store keeps the object it is given |
| Devices.Sanitized | config/device_context.go:64-73 | a save drops the owner's private key unless the owner is logged in, and changes nothing else |
| Devices.PlaceGuest | config/device_context.go:213-228 | the inner loop inserts a guest behind all who are not greater, and its shift drops only an empty slot |
| Devices.GuestListUnique | config/device_context.go:208-231 | with guests keyed by name the list is strictly ascending, holds every guest once and is the same for every walk |
| Devices.DeviceContext.GetGuestUsers | config/device_context.go:208-231 | an ascending arrangement of the guests that fills every slot; with guests keyed by name, each stands in exactly one slot and names ascend strictly |
| SessionRuns.StartsWith | config/config_file.go:157-180 | the stored key supplies the passphrase strictly before the timeout and under the same system passphrase, the callback otherwise, and neither without a passphrase |
| SessionRuns.LoadsExactly | config/config_file.go:223-286 | loading succeeds if and only if the passphrase is the one the file was saved under, and gives back what was saved; the target context waits if there is an owner |
| SessionRuns.OwnerLoads | config/config_file.go:527-539 | the owner's login loads exactly the stored target context, any other login leaves it sealed |
| SessionRuns.SaveCarries | config/config_file.go:405-419 | saving without having loaded re-seals the stored target context under the new passphrase and time without changing it |
| SessionRuns.VisitKeeps | config/config_file.go:223-459 | one session with any non-owner logins, changes of passphrase and fitting timeout, and one save keeps the target context |
| SessionRuns.ChainKeeps | config/config_file.go:223-459 | over any chain of such sessions the stored target context never changes |
| SessionRuns.OwnerLoadsAfterChain | config/config_file.go:527-539 | the first owner login after the chain loads exactly what was last written |
| SessionRuns.RestoredAfterSaves | config/config_file.go:320-459 | any number of saves of a loaded session, then a start at any time, restores the contexts if and only if the passphrase is supplied, by the key strictly before the timeout and by the callback from then on |
| SessionRuns.OpensExactly | config/config_file.go:157-190 | a saved session opens with the right answer if and only if it has no passphrase or a timeout other than -1 |
| SessionRuns.UnsetTimeExactly | config/config_file.go:452-455 | when the file's time cannot be set to the seed, a later start with the right answer works if and only if there is no passphrase or the time is the seed anyway |
| SessionSettings.VisitSettings | config/config_file.go:155-459 | over one session with any actions the written timeout is the one read as the actions change it, the passphrase is stored under the session's system passphrase if and only if that timeout is positive, cfgAsOf stays, and the file's time is the second of the save |
| SessionSettings.ChainSettings | config/config_file.go:155-459 | so over any chain of sessions |
| SessionSettings.UploadSettings | config/config_file.go:394-446 | an upload is for a loaded target context alone, its time is what the session keeps and a save writes, and a failed one ends the save |
| SessionSettings.AfterLoadExactly | config/config_file.go:223-267 | a load that fails leaves user, passphrase and keys as they were, one that works leaves what it returns |
| SessionSettings.NewSettings | config/config_file.go:99-100 | a new configuration starts without passphrase and timeout, and with empty contexts |
| SessionRuns.SecondSaveExactly | config/config_file.go:405-419 | a second save without a load is refused, seals twice or keeps the target context, each exactly when stated from the passphrases of start and first save; the first save's file holds the target context in each case |
| SessionRuns.SealedTwiceLost | config/config_file.go:269-318 | no start, at any time and with any answer, can read sealed bytes stored as the target context |
| SessionRuns.SetPassphraseAndSaveTwice | config/config_file.go:184-190 | setting a first passphrase and saving twice without a load encrypts the target context twice, and no later start and owner login can read it |
| SessionRuns.PassphraseWithoutTimeoutLost | config/config_file.go:157-180 | a new configuration with a passphrase and timeout -1 cannot be opened again with that passphrase |
| ConfigFiles.ConfigFile.constructor | config/config_file.go:65-194 | opening or creating the file sets up the session that the state machine starts with |
| ConfigFiles.ConfigFile.GetValue | config/config_file.go:289-318 | a stored value read with the read key, or as it is without one |
| ConfigFiles.ConfigFile.LoadTargetContext | config/config_file.go:269-286 | the loaded flag is set if and only if reading succeeds |
| ConfigFiles.ConfigFile.Load | config/config_file.go:223-267 | the object's steps load what the state machine loads; a context that cannot be read ends the load with what has been loaded by then |
| ConfigFiles.ConfigFile.SetLoggedInUser | config/config_file.go:527-539 | a failed load of the target context leaves the session and its user as they were |
| ConfigFiles.ConfigFile.SetPassphrase | config/config_file.go:497-505 | passphrase and timeout change together |
| ConfigFiles.ConfigFile.SetKeyTimeout | config/config_file.go:511-513 | only the timeout changes |
| ConfigFiles.ConfigFile.SaveAuthAndDevice | config/config_file.go:370-385 | both contexts are sealed under the new key, and the owner's private key may be dropped on the way |
| ConfigFiles.ConfigFile.SaveTargetContext | config/config_file.go:387-419 | the target context is sealed and stored, and the upload hook sets the time up to which it is valid, also with an error |
| ConfigFiles.ConfigFile.WriteFile | config/config_file.go:421-459 | the key is stored, and the file written with the seed as its time unless writing or setting the time fails |
| ConfigFiles.ConfigFile.Save | config/config_file.go:320-459 | session, file and verdict are those of the state machine, for each way in which reading the old value, the upload, the write or setting the time can fail |
| Annotations.TopmostOrderCounts | terraform/config.go:387-456 | of several order annotations in a comment block the topmost counts |
| Annotations.AnyTargetKeyCounts | terraform/config.go:433-440 | a variable is a key field if and only if some target_key annotation of its block is true |
| Annotations.ScanKeepsPlace | terraform/config.go:387-456 | no annotation changes a variable's name, description, file or line |
| VariableNotes.OrdersExactly | terraform/config.go:447-453 | a decimal number is an order if and only if it fits 32 bits, with or without a sign |
| VariableNotes.NoOrder | terraform/config.go:447-453 | no text with another character, and no empty one, is an order |
| VariableNotes.ReadFailsExactly | terraform/config.go:280-462 | reading a variable fails if and only if its file is missing, a bastion flag of the file is no boolean, or its block has a flag that is no boolean or an order that is no number |
| VariableNotes.ReadExactly | terraform/config.go:299-456 | name, description, default and place are the variable's own; sensitive and order are what the topmost line says, or false and the largest int; it is a key if any line says so |
| VariableNotes.NotesExactly | terraform/config.go:395-432 | each note is the value of the topmost line that sets it; without one the display name is the variable's own and other notes are not there |
| Annotations.BlockStart | terraform/config.go:387-456 | the comment block is the longest run of comment lines above the variable |
| ConfigReaders.ConfigReader.ReadTemplate | terraform/config.go:350-384 | a file is accepted if and only if every is_bastion value is a boolean; the recipe is a bastion if some value is true; the last description and lists count |
| ConfigReaders.ConfigReader.ReadVariableMetadata | terraform/config.go:280-462 | the result does not depend on which files have been cached, and the cache stays true to the disk |
| ConfigReaders.ConfigReader.ReadField | terraform/config.go:196-220 | one variable of the walk is read and placed among the described ones |
| ConfigReaders.ConfigReader.ReadMetadata | terraform/config.go:186-272 | it fails if and only if some variable cannot be read; otherwise fields, key fields, description and lists are those of a walk, and the recipe is a bastion if and only if some of its files says so |
| FileNotes.NoteSameExactly | terraform/config.go:343-384 | the description and each resource list are the same for every walk of the variables if and only if all files that give one give the same |
| TemplateReader.FieldOrderUnique | terraform/config.go:186-221 | every walk of the variables gives the same fields: the described ones, each once, strictly by order, file and line |
| FormFields.FieldsExactly | terraform/config.go:186-221 | the fields are the described variables as they are read, each once, by order, then file, then line |
| FormFields.UnorderedLast | terraform/config.go:298 | a field whose variable has no order stands behind all that have one |
| FormFields.KeyNamesExactly | terraform/config.go:269-271 | the key fields are the names of exactly the fields marked as key, in field order |
| FormFields.KeyFieldsExactly | terraform/config.go:269-271 | a name is a key field if and only if it is a described variable with a true target_key in its comment block |
| FormFields.KeyFieldsUnique | terraform/config.go:186-271 | every walk of the variables gives the same key fields |
| FormFields.BastionsExactly | terraform/config.go:364-370 | a file marks the recipe as a bastion if and only if some line of it is a true is_bastion |
| FormFields.FileNoteExactly | terraform/config.go:362-379 | a file's description or list is what its last line says that gives one |
| Runners.VarPairsExact | terraform/runner.go:195-207 | one -var pair per argument, in walk order |
| Runners.Runner.PrepareArgList | terraform/runner.go:179-224 | a list is built if and only if every argument is known and every required input supplied; it is the prefix and the pairs |
| Runners.Runner.PlanCommand | terraform/runner.go:120-134 | the plan command has the configuration path, no input, the plan file and one -var pair per argument, in this order |
| Runners.Runner.Plan | terraform/runner.go:113-140 | the plan command runs if and only if the arguments are accepted |
| Runners.Runner.GetOutput | terraform/runner.go:226-300 | the outputs command is one more event, which may fail |
| Runners.Runner.Apply | terraform/runner.go:142-177 | a missing plan file is written first; after a successful apply the outputs are read; the plan file is removed in every case; an error of any of them is reported |
| Runners.Runner.Taint | terraform/runner.go:302-316 | the plan file goes first, then resources are tainted up to the first failure |
| Runners.Runner.Destroy | terraform/runner.go:318-328 | the plan file goes first |
| PlanTrace.EveryRunAccounted | terraform/runner.go:113-177 | in every sequence of calls with any outcomes each applied plan was written by a successful plan, and nothing was applied, tainted or destroyed since if and only if no removal failed since |
| PlanTrace.PlanEvents | terraform/runner.go:113-140 | an accepted plan call is one plan command, which writes a new plan if and only if it succeeds |
| PlanTrace.ApplyEvents | terraform/runner.go:142-177 | an apply applies the plan that is there, reads outputs after success and removes the plan; without a plan it is a plan call first |
| PlanTrace.TaintEvents | terraform/runner.go:302-316 | a taint removes the plan, then taints each resource in its turn up to and with the first that fails |
| PlanTrace.DestroyEvents | terraform/runner.go:318-328 | a destroy removes the plan, then destroys |
| PlanTrace.NoPlanAppliedTwice | terraform/runner.go:142-177 | while removals work no plan is applied twice |
| PlanTrace.FailedRemovalAppliesTwice | terraform/runner.go:159 | after one failed removal the next apply uses the same plan again |

## Left out

- Unpacking zip archives, and comparing directories file by file: `utils.Unzip`, `utils.UnzipStream` and `utils.DirCompare` are not part of this model. An import takes what was unpacked as its input, and two directories compare equal when their trees are.
- Unpacking the embedded core cookbook on a first start, and the plugin files that imports copy into it: whether a copy fails is part of the fault `load`. A recipe walk that fails lets its workers end; the source does not wait for them.
- Cookbook names and versions that hold a path separator or are `.` or `..`: names are single path elements here.
- `os.Stat` failing with anything but "not found" while the archive is validated, where the source dereferences a nil file info.
- Partial effects of a failing `os.MkdirAll` and of a failing `os.Rename`: either happens or it does not.
- Parsing YAML and Terraform files: METADATA parsing is a function from text, template parsing a function from the directory tree below a recipe.
- Matching regular expressions: a path matches when it lies below recipes, has four elements and ends in .terraform; a template line is an annotation, another comment or neither.
- In-memory cookbook metadata after a delete or an upgrade: the source keeps the old entries.
- Cookbooks.Cookbook.LeaveRecipe: the source writes through the inner map that it looked up before loading; here the entry is looked up again, which is the same map because no section removes one.
- RecipeWalks.ListRecipes: the sorted list of cloud providers of an entry is a set of IaaS names.
- Cookbooks.Cookbook.AddRecipeMetadata: data races on the list of walked files and on the shared error variable are not modelled.
- Malformed JSON: text that is not well formed ends all reading; in a recipe's own loop what the decoder makes of tokens behind it is not part of this model.
- RecipeCodec.UnmarshalVariables: decoding one variable accepts exactly the text its encoder writes, with the fields in that order.
- CookbookCodec.MarshalBook: names need no escapes, because the source writes them between quotation marks as they are.
- ContextCodec.SaveContext: providers, backends and the target set are opaque and kept as the text they encode to; a decode replaces that text and does not fail, nor does one into the placeholder for an unknown name, because the gocloud package that decodes them is not part of this model.
- ContextText.DocumentLoads: a document is one object with the key cloud whose sections are objects of any named values, arrays of a name and an object of any named values, and any target set; other well-formed documents are covered by StackStaysInBounds and ArrayEmptiesStackExactly alone.
- Binding variables to forms, and reading values through them: an edit writes a variable's value.
- RecipeStore.RecipeObject.Copy: fields other than the key, the IaaS and the variables are shared by source and copy and never written.
- The Reset methods, key files, RSA keys, the OAuth client and the REST calls.
- ConfigFiles.ConfigFile.Save: encryption and encoding do not fail here, and whether the hook is called, and with what, is a parameter.
- Encryption is a term that only its own key opens; base64 is dropped.
- Devices.DeviceContext.GetGuestUsers: the device, its keys and managed devices are not part of the context here.
- ConfigReaders.ConfigReader.ReadMetadata: filling the input form, the regions of a provider and the backend type check are left out; resource lists are kept as their text.
- Runners.Runner.GetOutput: the pipe, the drain and the decoded values are left out.
- Runners.Runner.Plan: a plan command that fails is taken to leave the plan file as it was; the arguments of the other commands are not part of their events.
- Runner initialization, backends and environments, and the cookbook's Validate, IaaSList and HasRecipe, which would only add easy members.
