// What a saved target context restores, and what entries of unknown name change.
module ContextMeaning {
  import opened Recipes
  import opened Json
  import opened RecipeText
  import opened CookbookText
  import opened CookbookCodec
  import opened ContextText

  // ---- unknown entries ----

  function KnownMembers(m: map<string, Text>, ms: seq<Member>): seq<Member> {
    if ms == [] then [] else (if ms[0].key in m then [ms[0]] else []) + KnownMembers(m, ms[1..])
  }

  function KnownConfigs(recipes: RecipeMap, key: string, ms: seq<Member>): seq<Member> {
    if ms == [] then []
    else (if Lookup(recipes, key, ms[0].key).Some? then [ms[0]] else []) + KnownConfigs(recipes, key, ms[1..])
  }

  function KnownEntries(recipes: RecipeMap, es: seq<Entry>): seq<Entry> {
    if es == [] then []
    else
      (if es[0].key in recipes then [Entry(es[0].key, KnownConfigs(recipes, es[0].key, es[0].members))] else [])
      + KnownEntries(recipes, es[1..])
  }

  /** The document without the providers, backends and recipes the context does not know. */
  function Prune(ctx: Context, ss: seq<Section>): seq<Section> {
    if ss == [] then []
    else
      [match ss[0]
       case ProviderSection(ms) => ProviderSection(KnownMembers(ctx.providers, ms))
       case BackendSection(ms) => BackendSection(KnownMembers(ctx.backends, ms))
       case RecipeSection(es) => RecipeSection(KnownEntries(ctx.recipes, es))
       case TargetSection(v) => TargetSection(v)] + Prune(ctx, ss[1..])
  }

  /** The value of an unknown recipe is decoded too, into a recipe that is thrown away. */
  predicate Reads(v: Value) { ReadRecipe(map[], Print(v)).Some? }

  ghost predicate MembersRead(recipes: RecipeMap, key: string, ms: seq<Member>) {
    forall m | m in ms && Lookup(recipes, key, m.key).None? :: Reads(m.value)
  }

  ghost predicate EntriesReadable(recipes: RecipeMap, es: seq<Entry>) {
    forall e | e in es :: MembersRead(recipes, e.key, e.members)
  }

  /** Every value that the document gives for an unknown recipe reads as a recipe. */
  ghost predicate UnknownsRead(recipes: RecipeMap, ss: seq<Section>) {
    forall s | s in ss && s.RecipeSection? :: EntriesReadable(recipes, s.entries)
  }

  /** Two recipe maps know the same recipes. */
  ghost predicate SameRecipes(a: RecipeMap, b: RecipeMap) {
    a.Keys == b.Keys && forall k | k in a :: a[k].Keys == b[k].Keys
  }

  ghost predicate SameNames(a: Context, b: Context) {
    a.providers.Keys == b.providers.Keys && a.backends.Keys == b.backends.Keys && SameRecipes(a.recipes, b.recipes)
  }

  lemma {:induction false} StoreKnown(m: map<string, Text>, names: map<string, Text>, ms: seq<Member>)
    requires m.Keys == names.Keys
    ensures StoreAll(m, KnownMembers(names, ms)) == StoreAll(m, ms)
    ensures StoreAll(m, ms).Keys == m.Keys
    decreases |ms|
  {
    if ms != [] {
      var next := Store(m, ms[0].key, Print(ms[0].value));
      StoreKnown(next, names, ms[1..]);
      TailOfCons(ms[0], KnownMembers(names, ms[1..]));
      if ms[0].key !in m {
        assert [] + KnownMembers(names, ms[1..]) == KnownMembers(names, ms[1..]);
      }
    }
  }

  lemma HeadOrTail<T>(s: seq<T>)
    requires s != []
    ensures forall x :: x in s <==> x == s[0] || x in s[1..]
  {
    assert s == [s[0]] + s[1..];
  }

  lemma DecodeKeepsNames(recipes: RecipeMap, key: string, m: Member)
    ensures var r := ApplyMember(recipes, key, m);
      && (r.Some? ==> SameRecipes(r.value, recipes))
      && (Lookup(recipes, key, m.key).None? ==> r == if Reads(m.value) then Some(recipes) else None)
  {
  }

  /** Members of one configuration object: those for unknown recipes only have to read. */
  lemma {:induction false} ApplyKnownConfigs(recipes: RecipeMap, names: RecipeMap, key: string, ms: seq<Member>)
    requires SameRecipes(recipes, names)
    ensures ApplyMembers(recipes, key, ms) ==
      if MembersRead(names, key, ms) then ApplyMembers(recipes, key, KnownConfigs(names, key, ms)) else None
    ensures ApplyMembers(recipes, key, ms).Some? ==> SameRecipes(ApplyMembers(recipes, key, ms).value, recipes)
    decreases |ms|
  {
    if ms != [] {
      var rest, next := KnownConfigs(names, key, ms[1..]), ApplyMember(recipes, key, ms[0]);
      HeadOrTail(ms);
      DecodeKeepsNames(recipes, key, ms[0]);
      TailOfCons(ms[0], rest);
      assert [] + rest == rest;
      if next.Some? {
        ApplyKnownConfigs(next.value, names, key, ms[1..]);
      }
    }
  }

  lemma {:induction false} UnknownKeyKeeps(names: RecipeMap, key: string, ms: seq<Member>)
    requires key !in names
    ensures KnownConfigs(names, key, ms) == []
  {
    if ms != [] {
      UnknownKeyKeeps(names, key, ms[1..]);
    }
  }

  lemma {:induction false} ApplyKnownEntries(recipes: RecipeMap, names: RecipeMap, es: seq<Entry>)
    requires SameRecipes(recipes, names)
    ensures ApplyEntries(recipes, es) ==
      if EntriesReadable(names, es) then ApplyEntries(recipes, KnownEntries(names, es)) else None
    ensures ApplyEntries(recipes, es).Some? ==> SameRecipes(ApplyEntries(recipes, es).value, recipes)
    decreases |es|
  {
    if es != [] {
      var e, rest := es[0], KnownEntries(names, es[1..]);
      var next := ApplyMembers(recipes, e.key, e.members);
      HeadOrTail(es);
      ApplyKnownConfigs(recipes, names, e.key, e.members);
      TailOfCons(Entry(e.key, KnownConfigs(names, e.key, e.members)), rest);
      assert [] + rest == rest;
      if e.key !in names { UnknownKeyKeeps(names, e.key, e.members); }
      if next.Some? {
        ApplyKnownEntries(next.value, names, es[1..]);
      }
    }
  }

  lemma ApplyKnownSection(ctx: Context, names: Context, s: Section)
    requires SameNames(ctx, names)
    ensures ApplySection(ctx, s)
      == if UnknownsRead(names.recipes, [s]) then ApplySection(ctx, Prune(names, [s])[0]) else None
    ensures ApplySection(ctx, s).Some? ==> SameNames(ApplySection(ctx, s).value, names)
  {
    match s {
      case ProviderSection(ms) => StoreKnown(ctx.providers, names.providers, ms);
      case BackendSection(ms) => StoreKnown(ctx.backends, names.backends, ms);
      case RecipeSection(es) => ApplyKnownEntries(ctx.recipes, names.recipes, es);
      case TargetSection(v) =>
    }
  }

  lemma {:induction false} ApplyPruned(ctx: Context, names: Context, ss: seq<Section>)
    requires SameNames(ctx, names)
    ensures ApplySections(ctx, ss)
      == if UnknownsRead(names.recipes, ss) then ApplySections(ctx, Prune(names, ss)) else None
    decreases |ss|
  {
    if ss != [] {
      var s, p, next := ss[0], Prune(names, [ss[0]])[0], ApplySection(ctx, ss[0]);
      HeadOrTail(ss);
      ApplyKnownSection(ctx, names, s);
      TailOfCons(p, Prune(names, ss[1..]));
      if next.Some? {
        ApplyPruned(next.value, names, ss[1..]);
      }
    }
  }

  /** A document loads like the same document without its unknown providers, backends and
      recipes exactly if each value that it gives for an unknown recipe reads as a recipe, or
      the pruned document fails too: otherwise the load fails. */
  lemma UnknownEntriesIgnoredExactly(ctx: Context, ss: seq<Section>)
    ensures var full, pruned := LoadText(ctx, Print(ContextDoc(ss))), LoadText(ctx, Print(ContextDoc(Prune(ctx, ss))));
      && full == (if UnknownsRead(ctx.recipes, ss) then pruned else Failed)
      && (full == pruned <==> UnknownsRead(ctx.recipes, ss) || pruned == Failed)
  {
    DocumentLoads(ctx, ss);
    DocumentLoads(ctx, Prune(ctx, ss));
    ApplyPruned(ctx, ctx, ss);
  }

  const NullVariables := JObj([Member("variables", JNull)])

  /** One unknown recipe whose variables are null: the load fails, in any context, where the
      document without the recipe changes nothing. */
  lemma UnknownRecipeFails(ctx: Context, key: string, iaas: string)
    requires key !in ctx.recipes
    ensures var ss := [RecipeSection([Entry(key, [Member(iaas, NullVariables)])])];
      && LoadText(ctx, Print(ContextDoc(ss))) == Failed
      && LoadText(ctx, Print(ContextDoc(Prune(ctx, ss)))) == Loaded(ctx)
  {
    var e := Entry(key, [Member(iaas, NullVariables)]);
    var ss := [RecipeSection([e])];
    NullVariablesFail(NullVariables);
    assert e.members[0] in e.members;
    assert ss[0] in ss && ss[0].entries == [e] && [e][0] in [e];
    assert !MembersRead(ctx.recipes, key, e.members);
    assert !EntriesReadable(ctx.recipes, [e]);
    UnknownEntriesIgnoredExactly(ctx, ss);
    PrunedToNothing(ctx, e);
    DocumentLoads(ctx, [RecipeSection([])]);
  }

  lemma PrunedToNothing(ctx: Context, e: Entry)
    requires e.key !in ctx.recipes
    ensures Prune(ctx, [RecipeSection([e])]) == [RecipeSection([])]
    ensures ApplySections(ctx, [RecipeSection([])]) == Some(ctx)
  {
    assert [e][1..] == [] && [RecipeSection([e])][1..] == [] && [RecipeSection([])][1..] == [];
    assert KnownEntries(ctx.recipes, [e]) == [] + KnownEntries(ctx.recipes, []);
    assert Prune(ctx, [RecipeSection([e])]) == [RecipeSection([])] + Prune(ctx, []);
    assert ApplySection(ctx, RecipeSection([])) == Some(ctx);
  }

  lemma NullVariablesFail(v: Value)
    requires v == JObj([Member("variables", JNull)])
    ensures !Reads(v)
  {
    var m, rest := Member("variables", JNull), [RBrace];
    assert [m][1..] == [];
    assert Print(v) == [LBrace] + ([Str("variables")] + ([Colon] + ([Null] + rest)));
    assert rest == [RBrace] + [];
    OpenRead(map[], [Str("variables")] + ([Colon] + ([Null] + rest)));
    NullListRead(map[], rest);
  }

  // ---- saving and loading ----

  /** The members some walk over the given names writes: each name with its text. */
  ghost predicate WrittenTexts(m: map<string, Text>, names: set<string>, ms: seq<Member>) {
    if ms == [] then names == {}
    else
      var x := ms[|ms| - 1];
      x.key in names && x.key in m && Print(x.value) == m[x.key] && WrittenTexts(m, names - {x.key}, ms[..|ms| - 1])
  }

  lemma {:induction false} StoreAllAppend(m: map<string, Text>, ms: seq<Member>, x: Member)
    ensures StoreAll(m, ms + [x]) == Store(StoreAll(m, ms), x.key, Print(x.value))
    decreases |ms|
  {
    TailOfAppend(ms, x);
    if ms != [] {
      StoreAllAppend(Store(m, ms[0].key, Print(ms[0].value)), ms[1..], x);
    }
  }

  lemma {:induction false} StoreWritten(m: map<string, Text>, saved: map<string, Text>, names: set<string>,
                                        ms: seq<Member>)
    requires WrittenTexts(saved, names, ms)
    ensures names <= saved.Keys
    ensures StoreAll(m, ms) == map k | k in m :: if k in names then saved[k] else m[k]
  {
    if ms != [] {
      var rest, x := ms[..|ms| - 1], ms[|ms| - 1];
      assert ms == rest + [x];
      StoreWritten(m, saved, names - {x.key}, rest);
      StoreAllAppend(m, rest, x);
    }
  }

  ghost predicate FourKinds(ss: seq<Section>) {
    |ss| == 4 && ss[0].ProviderSection? && ss[1].BackendSection? && ss[2].RecipeSection? && ss[3].TargetSection?
  }

  /** A document some run of Save writes. */
  ghost predicate SavedAs(ctx: Context, ss: seq<Section>) {
    && FourKinds(ss)
    && WrittenTexts(ctx.providers, ctx.providers.Keys, ss[0].members)
    && WrittenTexts(ctx.backends, ctx.backends.Keys, ss[1].members)
    && (exists es :: WrittenEntries(ctx.recipes, ctx.recipes.Keys, es) && ss[2].entries == EntriesOf(es))
    && Print(ss[3].value) == ctx.targets
  }

  lemma FourSections(ctx: Context, ss: seq<Section>, recipes: RecipeMap)
    requires FourKinds(ss) && ApplyEntries(ctx.recipes, ss[2].entries) == Some(recipes)
    ensures ApplySections(ctx, ss) ==
      Some(Context(StoreAll(ctx.providers, ss[0].members), StoreAll(ctx.backends, ss[1].members), recipes,
                   Print(ss[3].value)))
  {
    assert ss[1..][1..] == ss[2..] && ss[2..][1..] == ss[3..] && ss[3..][1..] == [];
    var c1 := ApplySection(ctx, ss[0]).value;
    var c2 := ApplySection(c1, ss[1]).value;
    assert ApplySections(ctx, ss) == ApplySections(c1, ss[1..]) == ApplySections(c2, ss[2..]);
    var c3 := ApplySection(c2, ss[2]).value;
    assert ApplySections(c2, ss[2..]) == ApplySections(c3, ss[3..]);
    assert ApplySections(c3, ss[3..]) == ApplySection(c3, ss[3]);
  }

  /** The recipe of a fresh cookbook: the same templates, no values set. */
  function Unset(v: Variable): Variable { v.(value := None) }

  /** Same recipes with the same variables, all of them unset. */
  ghost predicate FreshOf(blank: RecipeMap, saved: RecipeMap) {
    && SameRecipes(blank, saved)
    && forall k, i | k in saved && i in saved[k] ::
         && blank[k][i].(variables := map[]) == saved[k][i].(variables := map[])
         && blank[k][i].variables == map n | n in saved[k][i].variables :: Unset(saved[k][i].variables[n])
  }

  lemma MergeUnset(vars: Variables)
    ensures Merge(map n | n in vars :: Unset(vars[n]), vars) == vars
  {
    var blank := map n | n in vars :: Unset(vars[n]);
    assert Merge(blank, vars).Keys == vars.Keys;
    forall n | n in vars ensures Merge(blank, vars)[n] == vars[n] {
      assert blank[n] == Unset(vars[n]);
    }
  }

  /** The texts of known names, each replaced by the saved one if there is one. */
  function Replaced(known: map<string, Text>, saved: map<string, Text>): map<string, Text> {
    map n | n in known :: if n in saved then saved[n] else known[n]
  }

  /** Loading what Save wrote, for every order in which the maps were walked: known
      providers and backends take their saved text, each recipe both contexts have is
      merged, the target set is replaced. */
  lemma SavedLoads(blank: Context, saved: Context, ss: seq<Section>, k: string, iaas: string)
    requires SavedAs(saved, ss) && NamedVariables(saved.recipes)
    ensures var r := LoadText(blank, Print(ContextDoc(ss)));
      && r.Loaded?
      && r.ctx.providers == Replaced(blank.providers, saved.providers)
      && r.ctx.backends == Replaced(blank.backends, saved.backends)
      && r.ctx.targets == saved.targets
      && r.ctx.recipes.Keys == blank.recipes.Keys
      && Lookup(r.ctx.recipes, k, iaas) == Restored(Lookup(blank.recipes, k, iaas), Lookup(saved.recipes, k, iaas))
  {
    DocumentLoads(blank, ss);
    var es :| WrittenEntries(saved.recipes, saved.recipes.Keys, es) && ss[2].entries == EntriesOf(es);
    SavedApplied(blank.recipes, es);
    FourSections(blank, ss, ApplySaved(blank.recipes, es));
    StoreWritten(blank.providers, saved.providers, saved.providers.Keys, ss[0].members);
    StoreWritten(blank.backends, saved.backends, saved.backends.Keys, ss[1].members);
    BookRead(blank.recipes, ss[2].entries);
    BookRestored(blank.recipes, saved.recipes, es, k, iaas);
    CellAfterEntries(blank.recipes, es, k, iaas);
  }

  lemma RestoredCell(blank: RecipeMap, saved: RecipeMap, k: string, iaas: string)
    requires FreshOf(blank, saved)
    ensures Restored(Lookup(blank, k, iaas), Lookup(saved, k, iaas)) == Lookup(saved, k, iaas)
  {
    if Lookup(saved, k, iaas).Some? {
      MergeUnset(saved[k][iaas].variables);
    }
  }

  /** Loading a saved context into a fresh one with the same templates and cookbook gives
      back exactly the context that was saved. */
  lemma SaveThenLoad(blank: Context, saved: Context, ss: seq<Section>)
    requires SavedAs(saved, ss) && NamedVariables(saved.recipes)
    requires blank.providers.Keys == saved.providers.Keys && blank.backends.Keys == saved.backends.Keys
    requires FreshOf(blank.recipes, saved.recipes)
    ensures LoadText(blank, Print(ContextDoc(ss))) == Loaded(saved)
  {
    var r := LoadText(blank, Print(ContextDoc(ss)));
    SavedLoads(blank, saved, ss, "", "");
    forall k, iaas ensures Lookup(r.ctx.recipes, k, iaas) == Lookup(saved.recipes, k, iaas) {
      SavedLoads(blank, saved, ss, k, iaas);
      RestoredCell(blank.recipes, saved.recipes, k, iaas);
    }
    SameMap(r.ctx.recipes, saved.recipes);
    assert r.ctx.providers == saved.providers && r.ctx.backends == saved.backends;
  }
}
