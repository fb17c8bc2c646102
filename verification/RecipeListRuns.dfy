// When RecipeList gives the same list in every run.
module RecipeListRuns {
  import opened Ordering
  import opened Placement
  import opened Recipes
  import opened Listings
  import opened RecipeWalks

  // ---- whether a run returns ----

  ghost predicate HasVariants(recipes: RecipeMap) {
    forall k | k in recipes :: recipes[k] != map[]
  }

  /** A run fails exactly if the first key it meets has no IaaS variant. */
  lemma StopsExactly(recipes: RecipeMap, visits: seq<Visit>)
    ensures Stops(recipes, visits) <==> visits == [] && !HasVariants(recipes)
  {
    if visits == [] && !HasVariants(recipes) {
      var k :| k in recipes && recipes[k] == map[];
      assert Walk(recipes, {}, visits) && Leaves(recipes[k], Held(visits), None);
    }
  }

  /** A walk goes on at any key, with a variant of it or with what it holds. */
  lemma NextVisit(recipes: RecipeMap, done: set<string>, visits: seq<Visit>, k: string) returns (v: Visit)
    requires Walk(recipes, done, visits) && k in recipes && k !in done && (recipes[k] != map[] || visits != [])
    ensures Walk(recipes, done + {k}, visits + [v])
  {
    if recipes[k] == map[] {
      v := Visit(k, visits[|visits| - 1].recipe);
    } else {
      var iaas :| iaas in recipes[k];
      v := Visit(k, recipes[k][iaas]);
    }
    assert (visits + [v])[..|visits|] == visits;
    assert done + {k} - {k} == done;
  }

  /** A walk that has met a variant, or that meets one at every key, can go on to its end. */
  lemma {:induction false} WalkGoesOn(recipes: RecipeMap, done: set<string>, visits: seq<Visit>)
    returns (all: seq<Visit>)
    requires done <= recipes.Keys && Walk(recipes, done, visits) && (visits != [] || HasVariants(recipes))
    ensures Walk(recipes, recipes.Keys, all) && visits <= all
    decreases |recipes.Keys - done|
  {
    all := visits;
    var left := recipes.Keys - done;
    assert done + left == recipes.Keys;
    if left != {} {
      var k :| k in left;
      var v := NextVisit(recipes, done, visits, k);
      assert recipes.Keys - (done + {k}) == left - {k};
      all := WalkGoesOn(recipes, done + {k}, visits + [v]);
    }
  }

  lemma FirstVisit(recipes: RecipeMap, k: string, iaas: string) returns (v: Visit)
    requires k in recipes && iaas in recipes[k]
    ensures v == Visit(k, recipes[k][iaas]) && Walk(recipes, {k}, [v])
  {
    v := Visit(k, recipes[k][iaas]);
    assert [v][..0] == [] && {k} - {k} == {};
  }

  /** Some run returns exactly if the map is empty or some key has a variant. */
  lemma SomeRunReturnsExactly(recipes: RecipeMap)
    ensures (exists visits :: Walk(recipes, recipes.Keys, visits)) <==>
      recipes == map[] || exists k | k in recipes :: recipes[k] != map[]
  {
    if recipes == map[] {
      assert recipes.Keys == {} && Walk(recipes, recipes.Keys, []);
      assert exists visits :: Walk(recipes, recipes.Keys, visits);
    } else if exists k :: k in recipes && recipes[k] != map[] {
      var k :| k in recipes && recipes[k] != map[];
      var iaas :| iaas in recipes[k];
      var v := FirstVisit(recipes, k, iaas);
      var visits := WalkGoesOn(recipes, {k}, [v]);
      assert exists visits :: Walk(recipes, recipes.Keys, visits);
    } else {
      forall visits ensures !Walk(recipes, recipes.Keys, visits) {
        NoWalkBegins(recipes, recipes.Keys, visits);
      }
    }
  }

  lemma {:induction false} NoWalkBegins(recipes: RecipeMap, keys: set<string>, visits: seq<Visit>)
    requires keys != {} && forall k | k in keys && k in recipes :: recipes[k] == map[]
    ensures !Walk(recipes, keys, visits)
  {
    if visits != [] {
      var v, rest := visits[|visits| - 1], visits[..|visits| - 1];
      if rest != [] && v.key in keys {
        if keys == {v.key} {
          assert !Walk(recipes, {}, rest);
        } else {
          NoWalkBegins(recipes, keys - {v.key}, rest);
        }
      }
    }
  }

  /** A key without variants can be listed with the fields of any variant of another recipe. */
  lemma ListedAsOther(recipes: RecipeMap, k: string, other: string, iaas: string) returns (visits: seq<Visit>)
    requires k in recipes && recipes[k] == map[] && other in recipes && iaas in recipes[other]
    ensures Walk(recipes, recipes.Keys, visits) && InfoOf(k, recipes[other][iaas], {}) in Infos(recipes, visits)
  {
    var v := FirstVisit(recipes, other, iaas);
    var w := Visit(k, v.recipe);
    assert [v, w][..1] == [v] && {other, k} - {k} == {other};
    visits := WalkGoesOn(recipes, {other, k}, [v, w]);
    InfosPrefix(recipes, [v, w], visits);
    assert Infos(recipes, [v, w])[1] == InfoOf(k, recipes[other][iaas], {});
  }

  lemma {:induction false} InfosPrefix(recipes: RecipeMap, some: seq<Visit>, all: seq<Visit>)
    requires some <= all
    ensures Infos(recipes, some) <= Infos(recipes, all)
  {
    if some != all {
      InfosPrefix(recipes, some, all[..|all| - 1]);
    }
  }

  // ---- walks of a map whose keys all have variants ----

  /** An entry's fields come from some IaaS variant of its recipe. */
  ghost predicate Describes(recipes: RecipeMap, info: RecipeInfo) {
    && info.key in recipes
    && exists iaas | iaas in recipes[info.key] :: info == VariantInfo(recipes, info.key, iaas)
  }

  /** One entry for each of the keys, in the order of some walk. */
  ghost predicate Listed(recipes: RecipeMap, keys: set<string>, walk: seq<RecipeInfo>) {
    if walk == [] then keys == {}
    else
      var last := walk[|walk| - 1];
      last.key in keys && Describes(recipes, last) && Listed(recipes, keys - {last.key}, walk[..|walk| - 1])
  }

  lemma {:induction false} WalkListed(recipes: RecipeMap, keys: set<string>, visits: seq<Visit>)
    requires HasVariants(recipes) && Walk(recipes, keys, visits)
    ensures Listed(recipes, keys, Infos(recipes, visits))
  {
    if visits != [] {
      var v, rest := visits[|visits| - 1], visits[..|visits| - 1];
      WalkListed(recipes, keys - {v.key}, rest);
      var iaas :| iaas in recipes[v.key] && v.recipe == recipes[v.key][iaas];
      assert InfoAt(recipes, v) == VariantInfo(recipes, v.key, iaas);
      assert Infos(recipes, visits)[..|rest|] == Infos(recipes, rest);
    }
  }

  lemma {:induction false} ListedWalk(recipes: RecipeMap, keys: set<string>, walk: seq<RecipeInfo>)
    returns (visits: seq<Visit>)
    requires Listed(recipes, keys, walk)
    ensures Walk(recipes, keys, visits) && Infos(recipes, visits) == walk
  {
    visits := [];
    if walk != [] {
      var rest, last := walk[..|walk| - 1], walk[|walk| - 1];
      var earlier := ListedWalk(recipes, keys - {last.key}, rest);
      var iaas :| iaas in recipes[last.key] && last == VariantInfo(recipes, last.key, iaas);
      visits := earlier + [Visit(last.key, recipes[last.key][iaas])];
      assert visits[..|earlier|] == earlier;
    }
  }

  /** Every recipe has an IaaS variant, and its variants agree on what a listing shows. */
  ghost predicate Coherent(recipes: RecipeMap) {
    forall k | k in recipes ::
      && recipes[k] != map[]
      && forall i, j | i in recipes[k] && j in recipes[k] ::
           InfoOf(k, recipes[k][i], recipes[k].Keys) == InfoOf(k, recipes[k][j], recipes[k].Keys)
  }

  lemma DescribesOne(recipes: RecipeMap, a: RecipeInfo, b: RecipeInfo)
    requires Coherent(recipes) && Describes(recipes, a) && Describes(recipes, b) && a.key == b.key
    ensures a == b
  {
  }

  lemma {:induction false} WalkMembers(recipes: RecipeMap, keys: set<string>, walk: seq<RecipeInfo>)
    requires Coherent(recipes) && Listed(recipes, keys, walk)
    ensures Distinct(walk)
    ensures forall info :: info in walk <==> info.key in keys && Describes(recipes, info)
  {
    if walk != [] {
      var rest, last := walk[..|walk| - 1], walk[|walk| - 1];
      WalkMembers(recipes, keys - {last.key}, rest);
      assert last !in rest;
      assert walk == rest + [last];
      forall info ensures info in walk <==> info.key in keys && Describes(recipes, info) {
        assert info in walk <==> info in rest || info == last;
        if info.key == last.key && Describes(recipes, info) { DescribesOne(recipes, info, last); }
      }
    }
  }

  lemma {:induction false} MembersWalk(recipes: RecipeMap, keys: set<string>, walk: seq<RecipeInfo>)
    requires Coherent(recipes) && Distinct(walk)
    requires forall info :: info in walk <==> info.key in keys && Describes(recipes, info)
    requires forall k | k in keys :: exists info :: info in walk && info.key == k
    ensures Listed(recipes, keys, walk)
  {
    if walk != [] {
      var rest, last := walk[..|walk| - 1], walk[|walk| - 1];
      assert walk == rest + [last] && last in walk;
      assert last !in rest;
      forall info ensures info in rest <==> info.key in keys - {last.key} && Describes(recipes, info) {
        assert info in walk <==> info in rest || info == last;
        if info.key == last.key && Describes(recipes, info) { DescribesOne(recipes, info, last); }
      }
      forall k | k in keys - {last.key} ensures exists info :: info in rest && info.key == k {
        var info :| info in walk && info.key == k;
        assert info in rest;
      }
      MembersWalk(recipes, keys - {last.key}, rest);
    } else {
      assert keys == {};
    }
  }

  lemma {:induction false} WalkCovers(recipes: RecipeMap, keys: set<string>, walk: seq<RecipeInfo>, k: string)
    requires Listed(recipes, keys, walk) && k in keys
    ensures exists info :: info in walk && info.key == k
  {
    var rest, last := walk[..|walk| - 1], walk[|walk| - 1];
    assert last in walk && forall info | info in rest :: info in walk;
    if k != last.key {
      WalkCovers(recipes, keys - {last.key}, rest, k);
    }
  }

  /** Walks of a coherent map are exactly the permutations of one of them. */
  lemma WalksArePermutations(recipes: RecipeMap, a: seq<RecipeInfo>, b: seq<RecipeInfo>)
    requires Coherent(recipes) && Listed(recipes, recipes.Keys, a)
    ensures Listed(recipes, recipes.Keys, b) <==> Permutation(b, a)
  {
    WalkMembers(recipes, recipes.Keys, a);
    if Listed(recipes, recipes.Keys, b) {
      WalkMembers(recipes, recipes.Keys, b);
      DistinctSameMembers(b, a);
    } else if Permutation(b, a) {
      DistinctPermutation(a, b);
      PermutationMembers(b, a);
      forall k | k in recipes.Keys ensures exists info :: info in b && info.key == k {
        WalkCovers(recipes, recipes.Keys, a, k);
      }
      MembersWalk(recipes, recipes.Keys, b);
    }
  }

  lemma IndependentGivesSame(recipes: RecipeMap, a: seq<RecipeInfo>, b: seq<RecipeInfo>, c: seq<RecipeInfo>)
    requires Coherent(recipes) && Listed(recipes, recipes.Keys, a) && OrderIndependent(RecipeBefore, a)
    requires Listed(recipes, recipes.Keys, b) && Listed(recipes, recipes.Keys, c)
    ensures Listing(RecipeBefore, b) == Listing(RecipeBefore, c)
  {
    WalksArePermutations(recipes, a, b);
    WalksArePermutations(recipes, a, c);
  }

  /** Every run of RecipeList gives the same list. */
  ghost predicate SameListed(recipes: RecipeMap) {
    forall b, c | Listed(recipes, recipes.Keys, b) && Listed(recipes, recipes.Keys, c) ::
      Listing(RecipeBefore, b) == Listing(RecipeBefore, c)
  }

  lemma SameGivesIndependent(recipes: RecipeMap, a: seq<RecipeInfo>)
    requires Coherent(recipes) && Listed(recipes, recipes.Keys, a) && SameListed(recipes)
    ensures OrderIndependent(RecipeBefore, a)
  {
    forall b, c | Permutation(b, a) && Permutation(c, a) ensures Listing(RecipeBefore, b) == Listing(RecipeBefore, c) {
      WalksArePermutations(recipes, a, b);
      WalksArePermutations(recipes, a, c);
    }
  }

  lemma CoherentSameExactly(recipes: RecipeMap, a: seq<RecipeInfo>)
    requires Coherent(recipes) && Listed(recipes, recipes.Keys, a)
    ensures SameListed(recipes) <==> NoClash(a)
  {
    WalkMembers(recipes, recipes.Keys, a);
    RecipeListIndependentExactly(a);
    if OrderIndependent(RecipeBefore, a) {
      forall b, c | Listed(recipes, recipes.Keys, b) && Listed(recipes, recipes.Keys, c)
        ensures Listing(RecipeBefore, b) == Listing(RecipeBefore, c)
      {
        IndependentGivesSame(recipes, a, b, c);
      }
    }
    if SameListed(recipes) {
      SameGivesIndependent(recipes, a);
    }
  }

  // ---- recipes whose variants disagree ----

  function VariantInfo(recipes: RecipeMap, k: string, iaas: string): RecipeInfo
    requires k in recipes && iaas in recipes[k]
  {
    InfoOf(k, recipes[k][iaas], recipes[k].Keys)
  }

  /** There is a list of entries for any keys. */
  lemma {:induction false} SomeListed(recipes: RecipeMap, keys: set<string>) returns (walk: seq<RecipeInfo>)
    requires HasVariants(recipes) && keys <= recipes.Keys
    ensures Listed(recipes, keys, walk)
    decreases |keys|
  {
    if keys == {} {
      walk := [];
    } else {
      var k :| k in keys;
      var iaas :| iaas in recipes[k];
      var rest := SomeListed(recipes, keys - {k});
      walk := rest + [VariantInfo(recipes, k, iaas)];
      assert walk[..|rest|] == rest;
    }
  }

  /** A walk may meet any key last, and any of its variants last. */
  lemma WalkEndingIn(recipes: RecipeMap, k: string, iaas: string) returns (walk: seq<RecipeInfo>)
    requires HasVariants(recipes) && k in recipes && iaas in recipes[k]
    ensures Listed(recipes, recipes.Keys, walk) && VariantInfo(recipes, k, iaas) in walk
  {
    var rest := SomeListed(recipes, recipes.Keys - {k});
    walk := rest + [VariantInfo(recipes, k, iaas)];
    assert walk[..|rest|] == rest && walk[|rest|] == VariantInfo(recipes, k, iaas);
  }

  /** A walk has one entry for a key. */
  lemma {:induction false} OneEntryPerKey(recipes: RecipeMap, keys: set<string>, walk: seq<RecipeInfo>, x: RecipeInfo,
                                          y: RecipeInfo)
    requires Listed(recipes, keys, walk) && x in walk && y in walk && x.key == y.key
    ensures x == y && x.key in keys
  {
    var rest, last := walk[..|walk| - 1], walk[|walk| - 1];
    assert walk == rest + [last];
    if x in rest {
      OneEntryPerKey(recipes, keys - {last.key}, rest, x, x);
    }
    if y in rest {
      OneEntryPerKey(recipes, keys - {last.key}, rest, y, y);
    }
    if x in rest && y in rest {
      OneEntryPerKey(recipes, keys - {last.key}, rest, x, y);
    }
  }

  lemma ListingMembers(walk: seq<RecipeInfo>)
    ensures forall x :: x in Listing(RecipeBefore, walk) <==> x in walk
  {
    ListingPermutation(RecipeBefore, walk);
    PermutationMembers(Listing(RecipeBefore, walk), walk);
  }

  /** Two variants of one recipe that differ in what is listed show in two runs. */
  lemma SameMeansCoherent(recipes: RecipeMap, k: string, i: string, j: string)
    requires HasVariants(recipes) && SameListed(recipes) && k in recipes && i in recipes[k] && j in recipes[k]
    ensures VariantInfo(recipes, k, i) == VariantInfo(recipes, k, j)
  {
    var a := WalkEndingIn(recipes, k, i);
    var b := WalkEndingIn(recipes, k, j);
    ListingMembers(a);
    ListingMembers(b);
    assert VariantInfo(recipes, k, j) in Listing(RecipeBefore, a);
    OneEntryPerKey(recipes, recipes.Keys, a, VariantInfo(recipes, k, i), VariantInfo(recipes, k, j));
  }

  lemma ListedSameExactly(recipes: RecipeMap)
    requires HasVariants(recipes)
    ensures SameListed(recipes) <==> Coherent(recipes) && forall a | Listed(recipes, recipes.Keys, a) :: NoClash(a)
  {
    if SameListed(recipes) {
      forall k, i, j | k in recipes && i in recipes[k] && j in recipes[k]
        ensures VariantInfo(recipes, k, i) == VariantInfo(recipes, k, j)
      {
        SameMeansCoherent(recipes, k, i, j);
      }
    }
    if Coherent(recipes) {
      forall a | Listed(recipes, recipes.Keys, a) ensures SameListed(recipes) <==> NoClash(a) {
        CoherentSameExactly(recipes, a);
      }
      var a := SomeListed(recipes, recipes.Keys);
    }
  }

  // ---- every run ----

  /** Every run of RecipeList returns, and all of them the same list. */
  ghost predicate SameInEveryRun(recipes: RecipeMap) {
    && (forall visits :: !Stops(recipes, visits))
    && forall b, c | Walk(recipes, recipes.Keys, b) && Walk(recipes, recipes.Keys, c) ::
         Listing(RecipeBefore, Infos(recipes, b)) == Listing(RecipeBefore, Infos(recipes, c))
  }

  /** No two entries of any run clash. */
  ghost predicate NeverClash(recipes: RecipeMap) {
    forall visits | Walk(recipes, recipes.Keys, visits) :: NoClash(Infos(recipes, visits))
  }

  lemma RunsAreListed(recipes: RecipeMap)
    requires HasVariants(recipes)
    ensures SameInEveryRun(recipes) <==> SameListed(recipes)
    ensures NeverClash(recipes) <==> forall a | Listed(recipes, recipes.Keys, a) :: NoClash(a)
  {
    forall visits ensures !Stops(recipes, visits) { StopsExactly(recipes, visits); }
    forall visits | Walk(recipes, recipes.Keys, visits) ensures Listed(recipes, recipes.Keys, Infos(recipes, visits)) {
      WalkListed(recipes, recipes.Keys, visits);
    }
    forall a | Listed(recipes, recipes.Keys, a)
      ensures exists visits :: Walk(recipes, recipes.Keys, visits) && Infos(recipes, visits) == a
    {
      var visits := ListedWalk(recipes, recipes.Keys, a);
    }
  }

  /** For every recipe map: every run of RecipeList returns, and gives the same list, exactly
      when each recipe has a variant, its variants agree on what is listed, and no two entries
      clash. */
  lemma RecipeListSameExactly(recipes: RecipeMap)
    ensures SameInEveryRun(recipes) <==> Coherent(recipes) && NeverClash(recipes)
  {
    if HasVariants(recipes) {
      RunsAreListed(recipes);
      ListedSameExactly(recipes);
    } else {
      StopsExactly(recipes, []);
    }
  }

  /** A recipe that is a bastion on one IaaS only is listed as a bastion or not, although no
      run has entries that clash. */
  lemma TwoVariantsDependOnWalk()
    ensures var aws, google := Recipe("c", "1", "r", "aws", [], true, map[]),
      Recipe("c", "1", "r", "google", [], false, map[]);
      var m := map["c:r" := map["aws" := aws, "google" := google]];
      && HasVariants(m) && !SameInEveryRun(m) && NeverClash(m)
  {
    var aws, google := Recipe("c", "1", "r", "aws", [], true, map[]), Recipe("c", "1", "r", "google", [], false, map[]);
    var m := map["c:r" := map["aws" := aws, "google" := google]];
    assert "aws" in m["c:r"] && "google" in m["c:r"];
    RunsAreListed(m);
    RecipeListSameExactly(m);
    assert VariantInfo(m, "c:r", "aws").bastion != VariantInfo(m, "c:r", "google").bastion;
    forall a | Listed(m, m.Keys, a) ensures NoClash(a) {
      forall x, y | x in a && y in a ensures x == y {
        WalkKeys(m, m.Keys, a, x);
        WalkKeys(m, m.Keys, a, y);
        OneEntryPerKey(m, m.Keys, a, x, y);
      }
    }
  }

  lemma {:induction false} WalkKeys(recipes: RecipeMap, keys: set<string>, walk: seq<RecipeInfo>, x: RecipeInfo)
    requires Listed(recipes, keys, walk) && x in walk
    ensures x.key in keys
  {
    OneEntryPerKey(recipes, keys, walk, x, x);
  }
}
