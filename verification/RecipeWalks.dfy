// RecipeList: one walk of the recipe map, each entry placed as it is met.
module RecipeWalks {
  import opened Ordering
  import opened Placement
  import opened SortedSlices
  import opened Recipes
  import opened Listings

  function InfoOf(key: string, r: Recipe, iaas: set<string>): RecipeInfo {
    RecipeInfo(key, r.cookbook, r.version, r.name, r.bastion, iaas)
  }

  /** One turn of the loop: the key met, and the recipe that its entry takes its fields from. */
  datatype Visit = Visit(key: string, recipe: Recipe)

  /** The recipe variable before the next turn. */
  function Held(visits: seq<Visit>): Option<Recipe> {
    if visits == [] then None else Some(visits[|visits| - 1].recipe)
  }

  /** What the walk over a recipe's IaaS variants leaves in the recipe variable: the variant
      met last, or what it held before when there is none. */
  ghost predicate Leaves(rr: map<string, Recipe>, before: Option<Recipe>, after: Option<Recipe>) {
    if rr == map[] then after == before else exists iaas | iaas in rr :: after == Some(rr[iaas])
  }

  /** Some walk of the recipe map over the given keys, each of them once. */
  ghost predicate Walk(recipes: RecipeMap, keys: set<string>, visits: seq<Visit>) {
    if visits == [] then keys == {}
    else
      var v, rest := visits[|visits| - 1], visits[..|visits| - 1];
      && v.key in keys && v.key in recipes && Leaves(recipes[v.key], Held(rest), Some(v.recipe))
      && Walk(recipes, keys - {v.key}, rest)
  }

  /** A walk that has come this far can end here: the next key leaves no recipe to take an
      entry's fields from, and the source dereferences nil. */
  ghost predicate Stops(recipes: RecipeMap, visits: seq<Visit>) {
    exists done, key | done <= recipes.Keys && key in recipes && key !in done ::
      Walk(recipes, done, visits) && Leaves(recipes[key], Held(visits), None)
  }

  function InfoAt(recipes: RecipeMap, v: Visit): RecipeInfo {
    InfoOf(v.key, v.recipe, if v.key in recipes then recipes[v.key].Keys else {})
  }

  /** The entries of a walk, in the order in which they are placed. */
  function Infos(recipes: RecipeMap, visits: seq<Visit>): (r: seq<RecipeInfo>)
    ensures |r| == |visits|
  {
    if visits == [] then []
    else Infos(recipes, visits[..|visits| - 1]) + [InfoAt(recipes, visits[|visits| - 1])]
  }

  /** The entry shows, for one of the IaaS variants of its key, that variant's cookbook,
      version, name and bastion flag, and all the IaaS names. */
  ghost predicate Shows(recipes: RecipeMap, x: RecipeInfo) {
    && x.key in recipes && x.iaas == recipes[x.key].Keys
    && exists i :: i in recipes[x.key] && x.cookbook == recipes[x.key][i].cookbook
         && x.version == recipes[x.key][i].version && x.name == recipes[x.key][i].name
         && x.bastion == recipes[x.key][i].bastion
  }

  /** A walk has one entry for each of its keys, which shows one of its variants if it has any. */
  lemma {:induction false} EntriesExactly(recipes: RecipeMap, keys: set<string>, visits: seq<Visit>)
    requires Walk(recipes, keys, visits)
    ensures forall k :: k in keys <==> exists x :: x in Infos(recipes, visits) && x.key == k
    ensures forall x | x in Infos(recipes, visits) ::
      x.key in recipes && (recipes[x.key] != map[] ==> Shows(recipes, x))
  {
    if visits != [] {
      var v, rest := visits[|visits| - 1], visits[..|visits| - 1];
      EntriesExactly(recipes, keys - {v.key}, rest);
      var last := InfoAt(recipes, v);
      assert recipes[v.key] != map[] ==> Shows(recipes, last);
      assert forall x :: x in Infos(recipes, visits) <==> x in Infos(recipes, rest) || x == last;
      forall k ensures k in keys <==> exists x :: x in Infos(recipes, visits) && x.key == k {
        if k in keys && k != v.key {
          assert k in keys - {v.key};
          var x :| x in Infos(recipes, rest) && x.key == k;
          assert x in Infos(recipes, visits);
        }
        assert last in Infos(recipes, visits);
      }
    }
  }

  /** A walk in progress: the keys in `left` are still to come, and `held` is the recipe
      variable. */
  ghost predicate Visited(recipes: RecipeMap, left: set<string>, visits: seq<Visit>, held: Option<Recipe>) {
    && left <= recipes.Keys && |visits| + |left| == |recipes| && held == Held(visits)
    && Walk(recipes, recipes.Keys - left, visits)
  }

  lemma VisitNext(recipes: RecipeMap, left: set<string>, visits: seq<Visit>, held: Option<Recipe>, key: string,
                  r: Recipe)
    requires Visited(recipes, left, visits, held) && key in left && Leaves(recipes[key], held, Some(r))
    ensures Visited(recipes, left - {key}, visits + [Visit(key, r)], Some(r)) && |visits| < |recipes|
    ensures Infos(recipes, visits + [Visit(key, r)]) == Infos(recipes, visits) + [InfoOf(key, r, recipes[key].Keys)]
  {
    assert left - {key} < left && |left| == |left - {key}| + 1;
    assert (visits + [Visit(key, r)])[..|visits|] == visits;
    assert recipes.Keys - (left - {key}) - {key} == recipes.Keys - left;
  }

  lemma StopHere(recipes: RecipeMap, left: set<string>, visits: seq<Visit>, held: Option<Recipe>, key: string)
    requires Visited(recipes, left, visits, held) && key in left && Leaves(recipes[key], held, None)
    ensures Stops(recipes, visits)
  {
    assert Walk(recipes, recipes.Keys - left, visits);
  }

  /** The walk over a recipe's IaaS variants. */
  method LastVariant(rr: map<string, Recipe>, before: Option<Recipe>) returns (r: Option<Recipe>, iaasList: set<string>)
    ensures iaasList == rr.Keys && Leaves(rr, before, r)
  {
    r, iaasList := before, {};
    var left := rr.Keys;
    while left != {}
      invariant left <= rr.Keys && iaasList == rr.Keys - left
      invariant if left == rr.Keys then r == before else exists iaas | iaas in rr :: r == Some(rr[iaas])
    {
      var iaas :| iaas in left;
      r := Some(rr[iaas]);
      iaasList := iaasList + {iaas};
      left := left - {iaas};
    }
  }

  /** What the walk so far has placed, and the recipe variable. */
  ghost predicate Placed(recipes: RecipeMap, left: set<string>, visits: seq<Visit>, held: Option<Recipe>,
                         list: seq<RecipeInfo>) {
    Visited(recipes, left, visits, held) && list == Listing(RecipeBefore, Infos(recipes, visits))
  }

  lemma NothingPlaced(recipes: RecipeMap)
    ensures Placed(recipes, recipes.Keys, [], None, [])
  {
    assert recipes.Keys - recipes.Keys == {};
  }

  lemma AllPlaced(recipes: RecipeMap, visits: seq<Visit>, held: Option<Recipe>, list: seq<RecipeInfo>)
    requires Placed(recipes, {}, visits, held, list)
    ensures Walk(recipes, recipes.Keys, visits) && |visits| == |recipes|
    ensures list == Listing(RecipeBefore, Infos(recipes, visits))
  {
    assert recipes.Keys - {} == recipes.Keys;
  }

  /** One turn of the loop, on the slice infos[..l]. */
  method Meet(all: RecipeMap, key: string, r: Option<Recipe>, infos: array<RecipeInfo>, l: nat,
              ghost left: set<string>, ghost visits: seq<Visit>)
    returns (next: Option<Recipe>)
    requires key in left && infos.Length == |all| && l == |visits| <= |all| && Placed(all, left, visits, r, infos[..l])
    modifies infos
    ensures next.None? ==> Stops(all, visits)
    ensures next.Some? ==> l < infos.Length
    ensures next.Some? ==> Placed(all, left - {key}, visits + [Visit(key, next.value)], next, infos[..l + 1])
  {
    var iaasList;
    next, iaasList := LastVariant(all[key], r);
    if next.None? {
      StopHere(all, left, visits, r, key);
    } else {
      VisitNext(all, left, visits, r, key, next.value);
      PlaceInto(RecipeBefore, infos, l, InfoOf(key, next.value, iaasList), Infos(all, visits));
    }
  }

  /** Walk the recipe map once, placing each entry in a slice of the map's size. `ok` is
      false where the source dereferences a nil recipe. */
  method ListRecipes(all: RecipeMap) returns (list: seq<RecipeInfo>, ok: bool, ghost visits: seq<Visit>)
    ensures ok ==> Walk(all, all.Keys, visits) && |visits| == |all| && list == Listing(RecipeBefore, Infos(all, visits))
    ensures !ok ==> Stops(all, visits)
  {
    var infos := new RecipeInfo[|all|];
    var r, l, keys := None, 0, all.Keys;
    visits := [];
    NothingPlaced(all);
    assert infos[..0] == [];
    while keys != {}
      invariant infos.Length == |all| && l == |visits| <= |all| && Placed(all, keys, visits, r, infos[..l])
    {
      var key :| key in keys;
      r := Meet(all, key, r, infos, l, keys, visits);
      if r.None? {
        return [], false, visits;
      }
      visits := visits + [Visit(key, r.value)];
      keys, l := keys - {key}, l + 1;
    }
    AllPlaced(all, visits, r, infos[..l]);
    list, ok := infos[..l], true;
  }
}
