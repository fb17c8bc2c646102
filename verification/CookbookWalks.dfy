// CookbookList: one walk of the cookbooks, each selected one placed as it is met.
module CookbookWalks {
  import opened Ordering
  import opened Placement
  import opened SortedSlices
  import opened Recipes
  import opened Listings

  /** The cookbooks picked so far by a walk with the names in `left` still to come. */
  ghost predicate Picked(all: map<string, CookbookMetadata>, left: set<string>, importedOnly: bool,
                         walk: seq<CookbookMetadata>) {
    && left <= all.Keys && |walk| + |left| <= |all| && Distinct(walk)
    && forall cm :: cm in walk <==>
         cm.name in all && cm.name !in left && cm == all[cm.name] && (importedOnly ==> cm.imported)
  }

  lemma PickNext(all: map<string, CookbookMetadata>, left: set<string>, importedOnly: bool,
                 walk: seq<CookbookMetadata>, name: string)
    requires Picked(all, left, importedOnly, walk) && name in left && all[name].name == name
    ensures |walk| < |all|
    ensures Picked(all, left - {name}, importedOnly, if importedOnly && !all[name].imported then walk
                   else walk + [all[name]])
  {
    assert all[name] !in walk;
  }

  /** Walk the cookbooks once, skipping embedded ones when asked to, and place each in a
      slice of the map's size. */
  method ListCookbooks(all: map<string, CookbookMetadata>, importedOnly: bool)
    returns (list: seq<CookbookMetadata>, ghost walk: seq<CookbookMetadata>)
    requires forall n | n in all :: all[n].name == n
    ensures Picked(all, {}, importedOnly, walk) && list == Listing(CookbookBefore, walk)
  {
    var slots := new CookbookMetadata[|all|];
    var names, l := all.Keys, 0;
    walk := [];
    while names != {}
      invariant Picked(all, names, importedOnly, walk) && l == |walk| && slots.Length == |all|
      invariant slots[..l] == Listing(CookbookBefore, walk)
    {
      var name :| name in names;
      var cm := all[name];
      PickNext(all, names, importedOnly, walk, name);
      names := names - {name};
      if importedOnly && !cm.imported {
        continue;
      }
      PlaceInto(CookbookBefore, slots, l, cm, walk);
      walk := walk + [cm];
      l := l + 1;
    }
    list := slots[..l];
  }

  lemma PickEnd(all: map<string, CookbookMetadata>, importedOnly: bool, walk: seq<CookbookMetadata>)
    requires Picked(all, {}, importedOnly, walk)
    ensures var list := Listing(CookbookBefore, walk);
      && (forall cm :: cm in list <==> cm.name in all && cm == all[cm.name] && (importedOnly ==> cm.imported))
      && (forall i, j | 0 <= i < j < |list| ::
           (list[j].imported || !list[i].imported)
             && (list[i].imported == list[j].imported ==> Less(list[i].name, list[j].name)))
  {
    CookbookListUnique(walk, walk);
    ListingPermutation(CookbookBefore, walk);
    PermutationMembers(Listing(CookbookBefore, walk), walk);
  }
}
