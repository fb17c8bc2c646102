// The comparators behind RecipeList and CookbookList and what they make of the lists.
module Listings {
  import opened Ordering
  import opened Placement
  import opened Recipes

  /** The search predicate of RecipeList: x goes before y. */
  predicate RecipeBefore(x: RecipeInfo, y: RecipeInfo) {
    || (x.bastion && !y.bastion)
    || (x.bastion == y.bastion && (Less(x.cookbook, y.cookbook) || Less(x.name, y.name)))
  }

  /** The search predicate of CookbookList: embedded cookbooks first, then by name. */
  predicate CookbookBefore(x: CookbookMetadata, y: CookbookMetadata) {
    || (!x.imported && y.imported)
    || (x.imported == y.imported && Less(x.name, y.name))
  }

  // ---- RecipeList ----

  /** All bastion recipes stand before all others. */
  ghost predicate BastionsFirst(s: seq<RecipeInfo>) {
    forall i, j | 0 <= i < j < |s| && s[j].bastion :: s[i].bastion
  }

  lemma PlaceBastionsFirst(s: seq<RecipeInfo>, x: RecipeInfo)
    requires BastionsFirst(s)
    ensures BastionsFirst(Place(RecipeBefore, s, x))
  {
    var p := Slot(RecipeBefore, s, x);
    assert x.bastion && p > 0 ==> s[p - 1].bastion;
    assert !x.bastion && p < |s| ==> !s[p].bastion;
  }

  /** The bastion recipes form a prefix for every walk of the map, although the
      predicate need not be monotone over the list it searches. */
  lemma {:induction false} RecipeListBastionsFirst(walk: seq<RecipeInfo>)
    ensures BastionsFirst(Listing(RecipeBefore, walk))
  {
    if walk != [] {
      RecipeListBastionsFirst(walk[..|walk| - 1]);
      PlaceBastionsFirst(Listing(RecipeBefore, walk[..|walk| - 1]), walk[|walk| - 1]);
    }
  }

  /** Two entries of one group that the predicate cannot tell apart in one direction:
      cookbook order and name order disagree, or both names are equal. */
  predicate Clash(x: RecipeInfo, y: RecipeInfo) {
    && x.bastion == y.bastion
    && (|| (Less(x.cookbook, y.cookbook) && Less(y.name, x.name))
        || (Less(y.cookbook, x.cookbook) && Less(x.name, y.name))
        || (x.cookbook == y.cookbook && x.name == y.name))
  }

  lemma ClashExactly(x: RecipeInfo, y: RecipeInfo)
    ensures (RecipeBefore(x, y) <==> !RecipeBefore(y, x)) <==> !Clash(x, y)
  {
    LessTrichotomy(x.cookbook, y.cookbook);
    LessTrichotomy(x.name, y.name);
  }

  lemma RecipeBeforeTransitive(x: RecipeInfo, y: RecipeInfo, z: RecipeInfo)
    requires RecipeBefore(x, y) && RecipeBefore(y, z)
    requires !Clash(x, y) && !Clash(y, z)
    ensures RecipeBefore(x, z)
  {
    if x.bastion == z.bastion {
      NotAbove(x, y);
      NotAbove(y, z);
      if Less(x.cookbook, y.cookbook) {
        if Less(y.cookbook, z.cookbook) { LessTransitive(x.cookbook, y.cookbook, z.cookbook); }
      } else {
        if Less(y.name, z.name) { LessTransitive(x.name, y.name, z.name); }
      }
    }
  }

  lemma NotAbove(x: RecipeInfo, y: RecipeInfo)
    requires x.bastion == y.bastion && RecipeBefore(x, y) && !Clash(x, y)
    ensures Less(x.cookbook, y.cookbook) || x.cookbook == y.cookbook
    ensures Less(x.name, y.name) || x.name == y.name
  {
    LessTrichotomy(x.cookbook, y.cookbook);
    LessTrichotomy(x.name, y.name);
  }

  ghost predicate NoClash(infos: seq<RecipeInfo>) {
    forall x, y | x in infos && y in infos && x != y :: !Clash(x, y)
  }

  lemma NoClashIsTotal(infos: seq<RecipeInfo>)
    requires NoClash(infos)
    ensures StrictTotalOn(RecipeBefore, infos)
  {
    forall x, y | x in infos && y in infos && x != y
      ensures RecipeBefore(x, y) <==> !RecipeBefore(y, x)
    {
      ClashExactly(x, y);
    }
    forall x, y, z | x in infos && y in infos && z in infos && x != y && y != z && RecipeBefore(x, y)
      && RecipeBefore(y, z)
      ensures RecipeBefore(x, z)
    {
      RecipeBeforeTransitive(x, y, z);
    }
  }

  /** RecipeList gives one list for every walk of the map exactly when no two recipes
      of one group clash. */
  lemma RecipeListIndependentExactly(infos: seq<RecipeInfo>)
    requires Distinct(infos)
    ensures OrderIndependent(RecipeBefore, infos) <==> NoClash(infos)
  {
    IndependentExactly(RecipeBefore, infos);
    if NoClash(infos) {
      NoClashIsTotal(infos);
    }
    if StrictTotalOn(RecipeBefore, infos) {
      forall x, y | x in infos && y in infos && x != y ensures !Clash(x, y) {
        ClashExactly(x, y);
      }
    }
  }

  /** With all recipes in one cookbook nothing clashes, and each group is sorted by name. */
  lemma OneCookbookSorted(walk: seq<RecipeInfo>, other: seq<RecipeInfo>)
    requires Distinct(walk) && Permutation(walk, other)
    requires forall x, y | x in walk && y in walk :: x.cookbook == y.cookbook && (x.name == y.name ==> x == y)
    ensures Listing(RecipeBefore, walk) == Listing(RecipeBefore, other)
    ensures var s := Listing(RecipeBefore, walk);
      forall i, j | 0 <= i < j < |s| && s[i].bastion == s[j].bastion :: Less(s[i].name, s[j].name)
  {
    NoClashWithin(walk);
    NoClashIsTotal(walk);
    ListingUnique(RecipeBefore, walk, other);
    var s := Listing(RecipeBefore, walk);
    ListingPermutation(RecipeBefore, walk);
    PermutationMembers(s, walk);
    forall i, j | 0 <= i < j < |s| && s[i].bastion == s[j].bastion ensures Less(s[i].name, s[j].name) {
      assert s[i] in s && s[j] in s;
      assert RecipeBefore(s[i], s[j]);
      LessTrichotomy(s[i].cookbook, s[j].cookbook);
    }
  }

  lemma NoClashWithin(walk: seq<RecipeInfo>)
    requires forall x, y | x in walk && y in walk :: x.cookbook == y.cookbook && (x.name == y.name ==> x == y)
    ensures NoClash(walk)
  {
    forall x, y | x in walk && y in walk && x != y ensures !Clash(x, y) {
      LessTrichotomy(x.cookbook, y.cookbook);
    }
  }

  /** Two cookbooks are enough for the map walk to show: recipe "b" of cookbook "a" and
      recipe "a" of cookbook "b" each go before the other. */
  lemma TwoCookbooksDependOnWalk()
    ensures var x := RecipeInfo("a:b", "a", "1", "b", false, {});
            var y := RecipeInfo("b:a", "b", "1", "a", false, {});
            Listing(RecipeBefore, [x, y]) == [y, x] && Listing(RecipeBefore, [y, x]) == [x, y]
  {
    var x := RecipeInfo("a:b", "a", "1", "b", false, {});
    var y := RecipeInfo("b:a", "b", "1", "a", false, {});
    assert Less("a", "b");
    ListingOfPair(RecipeBefore, x, y);
    ListingOfPair(RecipeBefore, y, x);
  }

  // ---- CookbookList ----

  lemma CookbookBeforeTotal(s: seq<CookbookMetadata>)
    requires forall x, y | x in s && y in s && x.name == y.name :: x == y
    ensures StrictTotalOn(CookbookBefore, s)
  {
    forall x, y | x in s && y in s && x != y ensures CookbookBefore(x, y) <==> !CookbookBefore(y, x) {
      LessTrichotomy(x.name, y.name);
    }
    forall x, y, z | x in s && y in s && z in s && x != y && y != z && CookbookBefore(x, y) && CookbookBefore(y, z)
      ensures CookbookBefore(x, z)
    {
      if Less(x.name, y.name) && Less(y.name, z.name) { LessTransitive(x.name, y.name, z.name); }
    }
  }

  /** Cookbooks are keyed by name, so any two walks of them list them alike: embedded
      ones first and each group in strictly ascending name order. */
  lemma CookbookListUnique(walk: seq<CookbookMetadata>, other: seq<CookbookMetadata>)
    requires Distinct(walk) && Permutation(walk, other)
    requires forall x, y | x in walk && y in walk && x.name == y.name :: x == y
    ensures Listing(CookbookBefore, walk) == Listing(CookbookBefore, other)
    ensures var s := Listing(CookbookBefore, walk);
      forall i, j | 0 <= i < j < |s| ::
        (s[j].imported || !s[i].imported) && (s[i].imported == s[j].imported ==> Less(s[i].name, s[j].name))
  {
    CookbookBeforeTotal(walk);
    ListingUnique(CookbookBefore, walk, other);
    var s := Listing(CookbookBefore, walk);
    assert forall i, j | 0 <= i < j < |s| :: CookbookBefore(s[i], s[j]);
  }
}
