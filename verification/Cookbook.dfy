// The cookbook object: the maps the loader's workers share and the listings read.
module Cookbooks {
  import opened Ordering
  import opened BinarySearch
  import opened Placement
  import opened Recipes
  import opened Listings
  import opened Loader
  import opened Interleavings
  import opened LoadedRecipes
  import opened RecipeWalks
  import opened CookbookWalks

  /** Critical sections still to run. */
  function Remaining(phases: seq<Phase>): nat {
    if phases == [] then 0
    else (match phases[0] case Ready => 2 case Between => 1 case Done => 0) + Remaining(phases[1..])
  }

  lemma {:induction false} RemainingDrops(phases: seq<Phase>, w: nat, next: Phase)
    requires w < |phases| && phases[w] != Done && next != Ready && next != phases[w]
    ensures Remaining(phases[w := next]) < Remaining(phases)
  {
    if w == 0 {
      assert phases[w := next][1..] == phases[1..];
    } else {
      RemainingDrops(phases[1..], w - 1, next);
      assert phases[w := next][1..] == phases[1..][w - 1 := next];
    }
  }

  method FindName(names: seq<string>, name: string) returns (i: nat)
    ensures i == NameIndex(names, name)
  {
    i := Search(|names|, AtOrAfter(names, name));
  }

  /** Append the name and shift it into place, unless the search finds it. */
  method InsertName(list: seq<string>, name: string) returns (names: seq<string>)
    ensures names == AddName(list, name)
  {
    names := list;
    var l := |names|;
    var i := FindName(names, name);
    if i == l || name != names[i] {
      names := names + [name];
      if i < l {
        names := names[..i + 1] + names[i..l];
        names := names[i := name];
      }
      assert names == InsertAt(list, i, name);
    }
  }

  class Cookbook {
    var recipes: RecipeMap
    var cookbooks: map<string, CookbookMetadata>
    var errs: seq<Job>

    constructor ()
      ensures State() == Empty
    {
      recipes, cookbooks, errs := map[], map[], [];
    }

    function State(): Shared
      reads this
    {
      Shared(cookbooks, recipes, errs)
    }

    /** The first critical section of a worker. */
    method EnterRecipe(disk: Disk, job: Job)
      requires Enters(disk, job)
      modifies this
      ensures State() == Enter(disk, old(State()), job)
    {
      var m := disk.metadata[job.root];
      var recipeName, recipeKey := job.elems[1], m.name + ":" + job.elems[1];
      var cm := CookbookMetadata(m.name, m.version, disk.core != job.root, job.root, []);
      if m.name in cookbooks {
        cm := cookbooks[m.name];
      }
      var names := InsertName(cm.recipes, recipeName);
      cookbooks := cookbooks[m.name := cm.(recipes := names)];
      if recipeKey !in recipes {
        recipes := recipes[recipeKey := map[]];
      }
    }

    /** The second critical section, or the one that records an error. */
    method LeaveRecipe(disk: Disk, job: Job)
      requires Enters(disk, job) && KeyOf(disk, job) in recipes
      modifies this
      ensures State() == Leave(disk, old(State()), job)
    {
      if job.root + job.elems[..3] !in disk.templates {
        errs := errs + [job];
      } else {
        var m, t := disk.metadata[job.root], disk.templates[job.root + job.elems[..3]];
        var r := Recipe(m.name, m.version, job.elems[1], job.elems[2], job.root, t.bastion, t.variables);
        var rr := recipes[r.Key()];
        recipes := recipes[r.Key() := rr[job.elems[2] := r]];
      }
    }

    /** Worker w runs its next critical section. */
    method Turn(disk: Disk, jobs: seq<Job>, phases: seq<Phase>, w: nat) returns (next: Phase)
      requires w < |jobs| && Consistent(disk, jobs, World(State(), phases)) && phases[w] != Done
      modifies this
      ensures World(State(), phases[w := next]) == Step(disk, jobs, World(old(State()), phases), w)
    {
      var job := jobs[w];
      next := Done;
      if phases[w] == Between {
        LeaveRecipe(disk, job);
      } else if Matches(job) {
        if job.root !in disk.metadata {
          errs := errs + [job];
        } else {
          EnterRecipe(disk, job);
          next := Between;
        }
      }
    }

    /** Start one worker per walked path and wait for all of them; which worker gets the
        mutex next is arbitrary. */
    method AddRecipeMetadata(disk: Disk, jobs: seq<Job>) returns (ghost schedule: seq<nat>)
      modifies this
      ensures Complete(disk, old(State()), jobs, schedule)
      ensures State() == Run(disk, old(State()), jobs, schedule).shared
      ensures NoConflict(disk, jobs) ==>
        forall other | Complete(disk, old(State()), jobs, other) ::
          recipes == Run(disk, old(State()), jobs, other).shared.recipes
      ensures forall k, iaas :: CellRead(disk, old(recipes), jobs, recipes, k, iaas)
    {
      var phases := seq(|jobs|, _ => Ready);
      schedule := [];
      ghost var s := State();
      while exists w :: 0 <= w < |jobs| && phases[w] != Done
        invariant |phases| == |jobs| && forall w | w in schedule :: w < |jobs|
        invariant World(State(), phases) == Run(disk, s, jobs, schedule)
        decreases Remaining(phases)
      {
        var w: nat :| w < |jobs| && phases[w] != Done;
        RunAppend(disk, s, jobs, schedule, w);
        StepPhases(disk, jobs, World(State(), phases), w);
        var next := Turn(disk, jobs, phases, w);
        RemainingDrops(phases, w, next);
        phases := phases[w := next];
        schedule := schedule + [w];
      }
      if NoConflict(disk, jobs) {
        forall other | Complete(disk, s, jobs, other)
          ensures recipes == Run(disk, s, jobs, other).shared.recipes
        {
          SameRecipes(disk, s, jobs, schedule, other);
        }
      }
      forall k, iaas ensures CellRead(disk, s.recipes, jobs, recipes, k, iaas) {
        CellsRead(disk, s, jobs, schedule, k, iaas);
      }
    }

    method GetRecipe(recipeKey: string, iaas: string) returns (r: Option<Recipe>)
      ensures r == Lookup(recipes, recipeKey, iaas)
    {
      r := None;
      if recipeKey in recipes {
        var rr := recipes[recipeKey];
        if iaas in rr {
          r := Some(rr[iaas]);
        }
      }
    }

    method SetRecipe(r: Recipe)
      modifies this`recipes
      ensures recipes == Put(old(recipes), r.Key(), r.iaas, r)
      ensures Lookup(recipes, r.cookbook + ":" + r.name, r.iaas) == Some(r)
    {
      if r.Key() !in recipes {
        recipes := recipes[r.Key() := map[]];
      }
      recipes := recipes[r.Key() := recipes[r.Key()][r.iaas := r]];
    }

    /** List the recipes, unless the first key that the walk meets has no IaaS variant. */
    method RecipeList() returns (list: seq<RecipeInfo>, ok: bool, ghost visits: seq<Visit>)
      ensures ok ==> Walk(recipes, recipes.Keys, visits) && list == Listing(RecipeBefore, Infos(recipes, visits))
      ensures ok ==> |list| == |recipes| && Permutation(list, Infos(recipes, visits)) && BastionsFirst(list)
      ensures ok ==> forall k :: k in recipes <==> exists x :: x in list && x.key == k
      ensures ok ==> forall x | x in list :: recipes[x.key] != map[] ==> Shows(recipes, x)
      ensures !ok ==> Stops(recipes, visits)
    {
      list, ok, visits := ListRecipes(recipes);
      RecipeListBastionsFirst(Infos(recipes, visits));
      ListingPermutation(RecipeBefore, Infos(recipes, visits));
      if ok {
        PermutationMembers(list, Infos(recipes, visits));
        EntriesExactly(recipes, recipes.Keys, visits);
      }
    }

    /** List the cookbooks, or only the imported ones. */
    method CookbookList(importedOnly: bool) returns (list: seq<CookbookMetadata>)
      requires forall n | n in cookbooks :: cookbooks[n].name == n
      ensures forall cm :: cm in list <==>
        cm.name in cookbooks && cm == cookbooks[cm.name] && (importedOnly ==> cm.imported)
      ensures forall i, j | 0 <= i < j < |list| ::
        (list[j].imported || !list[i].imported)
          && (list[i].imported == list[j].imported ==> Less(list[i].name, list[j].name))
    {
      ghost var walk;
      list, walk := ListCookbooks(cookbooks, importedOnly);
      PickEnd(cookbooks, importedOnly, walk);
    }
  }
}
