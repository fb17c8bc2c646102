// The cookbook's MarshalJSON and UnmarshalJSON.
module CookbookCodec {
  import opened Ordering
  import opened Recipes
  import opened Json
  import opened RecipeText
  import opened RecipeCodec
  import opened CookbookText

  // ---- what a marshalled cookbook lists ----

  /** The configurations written by some walk over the given IaaS names. */
  ghost predicate WrittenConfigs(rr: map<string, Recipe>, names: set<string>, cs: seq<Config>) {
    if cs == [] then names == {}
    else
      var c := cs[|cs| - 1];
      && c.iaas in names && c.iaas in rr && Printed(rr[c.iaas].variables, c.vars)
      && WrittenConfigs(rr, names - {c.iaas}, cs[..|cs| - 1])
  }

  /** The entries written by some walk over the given recipe keys. */
  ghost predicate WrittenEntries(recipes: RecipeMap, keys: set<string>, es: seq<Saved>) {
    if es == [] then keys == {}
    else
      var e := es[|es| - 1];
      && e.key in keys && e.key in recipes && WrittenConfigs(recipes[e.key], recipes[e.key].Keys, e.configs)
      && WrittenEntries(recipes, keys - {e.key}, es[..|es| - 1])
  }

  lemma VariablesAssoc(a: seq<Variable>, b: seq<Variable>, c: seq<Variable>)
    ensures a + (b + c) == a + b + c
  {
  }

  function Selected(c: Config, iaas: string): seq<Variable> { if c.iaas == iaas then c.vars else [] }

  lemma {:induction false} ConfigVarsAppend(cs: seq<Config>, c: Config, iaas: string)
    ensures ConfigVars(cs + [c], iaas) == ConfigVars(cs, iaas) + Selected(c, iaas)
  {
    TailOfAppend(cs, c);
    if cs != [] {
      ConfigVarsAppend(cs[1..], c, iaas);
      VariablesAssoc(Selected(cs[0], iaas), ConfigVars(cs[1..], iaas), Selected(c, iaas));
    }
  }

  function Listed(e: Saved, key: string, iaas: string): seq<Variable> {
    if e.key == key then ConfigVars(e.configs, iaas) else []
  }

  lemma EntryVarsCons(e: Saved, es: seq<Saved>, key: string, iaas: string)
    ensures EntryVars([e] + es, key, iaas) == Listed(e, key, iaas) + EntryVars(es, key, iaas)
  {
    TailOfCons(e, es);
  }

  lemma {:induction false} EntryVarsAppend(es: seq<Saved>, e: Saved, key: string, iaas: string)
    ensures EntryVars(es + [e], key, iaas) == EntryVars(es, key, iaas) + Listed(e, key, iaas)
  {
    if es == [] {
      EntryVarsCons(e, [], key, iaas);
      assert es + [e] == [e] + [];
    } else {
      var head, rest := es[0], es[1..];
      assert es == [head] + rest && es + [e] == [head] + (rest + [e]);
      EntryVarsCons(head, rest, key, iaas);
      EntryVarsCons(head, rest + [e], key, iaas);
      EntryVarsAppend(rest, e, key, iaas);
      VariablesAssoc(Listed(head, key, iaas), EntryVars(rest, key, iaas), Listed(e, key, iaas));
    }
  }

  lemma {:induction false} ConfigVarsWritten(rr: map<string, Recipe>, names: set<string>, cs: seq<Config>, iaas: string)
    requires WrittenConfigs(rr, names, cs)
    ensures if iaas in names then iaas in rr && Printed(rr[iaas].variables, ConfigVars(cs, iaas))
      else ConfigVars(cs, iaas) == []
  {
    if cs != [] {
      var rest, c := cs[..|cs| - 1], cs[|cs| - 1];
      assert cs == rest + [c];
      ConfigVarsWritten(rr, names - {c.iaas}, rest, iaas);
      ConfigVarsAppend(rest, c, iaas);
    }
  }

  /** A marshalled cookbook lists, for each of its recipes and for nothing else, exactly
      the variables that have a value. */
  lemma {:induction false} EntryVarsWritten(recipes: RecipeMap, keys: set<string>, es: seq<Saved>, key: string,
                                            iaas: string)
    requires WrittenEntries(recipes, keys, es)
    ensures if key in keys && key in recipes && iaas in recipes[key]
      then Printed(recipes[key][iaas].variables, EntryVars(es, key, iaas)) else EntryVars(es, key, iaas) == []
  {
    if es != [] {
      var rest, e := es[..|es| - 1], es[|es| - 1];
      assert es == rest + [e];
      EntryVarsWritten(recipes, keys - {e.key}, rest, key, iaas);
      EntryVarsAppend(rest, e, key, iaas);
      ConfigVarsWritten(recipes[e.key], recipes[e.key].Keys, e.configs, iaas);
    }
  }

  /** Every variable is kept under its own name. */
  ghost predicate NamedVariables(recipes: RecipeMap) {
    forall k, i, n | k in recipes && i in recipes[k] && n in recipes[k][i].variables ::
      recipes[k][i].variables[n].name == n
  }

  /** A recipe with the saved values merged in; one that was not saved stays as it is. */
  function Restored(r: Option<Recipe>, saved: Option<Recipe>): Option<Recipe> {
    if r.Some? && saved.Some? then Some(r.value.(variables := Merge(r.value.variables, saved.value.variables))) else r
  }

  /** What restoring means for one variable: a saved value is taken, every other variable and
      all else of the recipe stays; a recipe that only one side has is left alone. */
  lemma RestoredVariable(r: Recipe, saved: Recipe, n: string)
    ensures Restored(Some(r), None) == Some(r) && Restored(None, Some(saved)) == None
    ensures Restored(Some(r), Some(saved)).Some?
    ensures var x := Restored(Some(r), Some(saved)).value;
      && x == r.(variables := x.variables)
      && (n in saved.variables && saved.variables[n].value.Some? ==>
            n in x.variables && x.variables[n] == saved.variables[n])
      && (n !in saved.variables || saved.variables[n].value.None? ==>
            (n in x.variables <==> n in r.variables) && (n in x.variables ==> x.variables[n] == r.variables[n]))
  {
  }

  /** Unmarshalling a marshalled cookbook into another restores every recipe both have,
      for every order in which the maps were walked while printing. */
  lemma BookRestored(recipes: RecipeMap, saved: RecipeMap, es: seq<Saved>, k: string, iaas: string)
    requires NamedVariables(saved) && WrittenEntries(saved, saved.Keys, es)
    ensures ReadBook(recipes, Print(BookDoc(EntriesOf(es)))).Some?
    ensures Lookup(ReadBook(recipes, Print(BookDoc(EntriesOf(es)))).value, k, iaas)
         == Restored(Lookup(recipes, k, iaas), Lookup(saved, k, iaas))
  {
    BookRead(recipes, EntriesOf(es));
    SavedApplied(recipes, es);
    CellAfterEntries(recipes, es, k, iaas);
    EntryVarsWritten(saved, saved.Keys, es, k, iaas);
    var r, s := Lookup(recipes, k, iaas), Lookup(saved, k, iaas);
    if r.Some? && s.Some? {
      PrintedMerges(r.value.variables, s.value.variables, EntryVars(es, k, iaas));
    }
  }

  // ---- marshalling ----

  /** Write a name between quotation marks as it is. */
  method WriteName(name: string) returns (t: Text)
    requires EscapeFree(name)
    ensures t == [Str(name)]
  {
    t := [Str(name)];
  }

  lemma {:induction false} ConfigMembersAppend(cs: seq<Config>, c: Config)
    ensures ConfigMembers(cs + [c]) == ConfigMembers(cs) + [ConfigMember(c)]
  {
    TailOfAppend(cs, c);
    if cs != [] {
      ConfigMembersAppend(cs[1..], c);
    }
  }

  lemma {:induction false} EntryDocsAppend(es: seq<Entry>, e: Entry)
    ensures EntryDocs(es + [e]) == EntryDocs(es) + [EntryDoc(e)]
  {
    TailOfAppend(es, e);
    if es != [] {
      EntryDocsAppend(es[1..], e);
    }
  }

  lemma {:induction false} EntriesAppend(es: seq<Saved>, e: Saved)
    ensures EntriesOf(es + [e]) == EntriesOf(es) + [EntryOf(e)]
  {
    TailOfAppend(es, e);
    if es != [] {
      EntriesAppend(es[1..], e);
    }
  }

  lemma ConfigMemberText(c: Config)
    ensures PrintMember(ConfigMember(c)) == [Str(c.iaas)] + [Colon] + Print(RecipeDoc(c.vars))
  {
    assert [Str(c.iaas), Colon] == [Str(c.iaas)] + [Colon];
  }

  lemma ConfigAppend(cs: seq<Config>, c: Config)
    ensures PrintMembers(ConfigMembers(cs + [c]), true)
         == PrintMembers(ConfigMembers(cs), true) + Sep(cs == []) + ([Str(c.iaas)] + [Colon] + Print(RecipeDoc(c.vars)))
  {
    ConfigMemberText(c);
    ConfigMembersAppend(cs, c);
    PrintMembersAppend(ConfigMembers(cs), true, ConfigMember(c));
  }

  lemma ConfigWritten(rr: map<string, Recipe>, left: set<string>, cs: seq<Config>, c: Config)
    requires left <= rr.Keys && WrittenConfigs(rr, rr.Keys - left, cs) && c.iaas in left
    requires Printed(rr[c.iaas].variables, c.vars)
    ensures WrittenConfigs(rr, rr.Keys - (left - {c.iaas}), cs + [c])
  {
    assert (cs + [c])[..|cs|] == cs;
    assert rr.Keys - (left - {c.iaas}) - {c.iaas} == rr.Keys - left;
  }

  method MarshalConfigs(rr: map<string, Recipe>) returns (out: Text, ghost cs: seq<Config>)
    requires forall i | i in rr :: EscapeFree(i)
    requires forall i, n | i in rr && n in rr[i].variables :: rr[i].variables[n].name == n
    ensures WrittenConfigs(rr, rr.Keys, cs) && out == PrintMembers(ConfigMembers(cs), true)
  {
    out, cs := [], [];
    var first2, left := true, rr.Keys;
    assert rr.Keys - left == {};
    while left != {}
      invariant left <= rr.Keys && first2 == (cs == []) && WrittenConfigs(rr, rr.Keys - left, cs)
      invariant out == PrintMembers(ConfigMembers(cs), true)
    {
      var iaas :| iaas in left;
      if first2 {
        first2 := false;
      } else {
        out := out + [Comma];
      }
      var name := WriteName(iaas);
      var doc, vs := MarshalRecipe(rr[iaas].variables);
      ConfigWritten(rr, left, cs, Config(iaas, vs));
      ConfigAppend(cs, Config(iaas, vs));
      out := out + (name + [Colon] + doc);
      cs, left := cs + [Config(iaas, vs)], left - {iaas};
    }
    assert rr.Keys - {} == rr.Keys;
  }

  lemma EntryWritten(recipes: RecipeMap, left: set<string>, es: seq<Saved>, e: Saved)
    requires left <= recipes.Keys && WrittenEntries(recipes, recipes.Keys - left, es) && e.key in left
    requires WrittenConfigs(recipes[e.key], recipes[e.key].Keys, e.configs)
    ensures WrittenEntries(recipes, recipes.Keys - (left - {e.key}), es + [e])
    ensures PrintItems(EntryDocs(EntriesOf(es + [e])), true)
         == PrintItems(EntryDocs(EntriesOf(es)), true) + Sep(es == []) + Print(EntryDoc(EntryOf(e)))
  {
    assert (es + [e])[..|es|] == es;
    assert recipes.Keys - (left - {e.key}) - {e.key} == recipes.Keys - left;
    EntriesAppend(es, e);
    EntryDocsAppend(EntriesOf(es), EntryOf(e));
    PrintItemsAppend(EntryDocs(EntriesOf(es)), true, EntryDoc(EntryOf(e)));
  }

  lemma ObjectMemberPieces(key: string, members: seq<Member>)
    ensures PrintMember(Member(key, JObj(members)))
      == [Str(key), Colon, LBrace] + PrintMembers(members, true) + [RBrace]
  {
  }

  lemma Pieces(name: Text, x: Text)
    ensures [LBrace] + (([Str("name"), Colon] + name) + ([Comma] + ([Str("config"), Colon, LBrace] + x + [RBrace])))
      + [RBrace]
         == [LBrace, Str("name"), Colon] + name + [Comma, Str("config"), Colon, LBrace] + x + [RBrace, RBrace]
  {
  }

  /** One array element, written piece by piece. */
  lemma EntryPieces(e: Saved)
    ensures [LBrace, Str("name"), Colon] + [Str(e.key)] + [Comma, Str("config"), Colon, LBrace]
      + PrintMembers(ConfigMembers(e.configs), true) + [RBrace, RBrace] == Print(EntryDoc(EntryOf(e)))
  {
    var a, b := Member("name", JStr(e.key)), Member("config", JObj(ConfigMembers(e.configs)));
    assert PrintMember(a) == [Str("name"), Colon] + [Str(e.key)];
    ObjectMemberPieces("config", ConfigMembers(e.configs));
    TwoMembers(a, b);
    Pieces([Str(e.key)], PrintMembers(ConfigMembers(e.configs), true));
  }

  lemma BookReads(recipes: RecipeMap, es: seq<Saved>, out: Text)
    requires out == Print(BookDoc(EntriesOf(es))) && NamedVariables(recipes)
    requires WrittenEntries(recipes, recipes.Keys, es)
    ensures forall receiver :: ReadBook(receiver, out).Some?
    ensures forall receiver, k, iaas ::
      Lookup(ReadBook(receiver, out).value, k, iaas) == Restored(Lookup(receiver, k, iaas), Lookup(recipes, k, iaas))
  {
    forall receiver ensures ReadBook(receiver, out).Some? {
      BookRead(receiver, EntriesOf(es));
      SavedApplied(receiver, es);
    }
    forall receiver, k, iaas
      ensures Lookup(ReadBook(receiver, out).value, k, iaas)
        == Restored(Lookup(receiver, k, iaas), Lookup(recipes, k, iaas))
    {
      BookRestored(receiver, recipes, es, k, iaas);
    }
  }

  /** Print all recipes and their configurations in the order the maps are walked; whoever
      reads the output restores the recipes both have. */
  method MarshalBook(recipes: RecipeMap) returns (out: Text, ghost es: seq<Saved>)
    requires forall k | k in recipes :: EscapeFree(k) && forall i | i in recipes[k] :: EscapeFree(i)
    requires NamedVariables(recipes)
    ensures WrittenEntries(recipes, recipes.Keys, es) && out == Print(BookDoc(EntriesOf(es)))
    ensures forall receiver :: ReadBook(receiver, out).Some?
    ensures forall receiver, k, iaas ::
      Lookup(ReadBook(receiver, out).value, k, iaas) == Restored(Lookup(receiver, k, iaas), Lookup(recipes, k, iaas))
  {
    var items: Text := [];
    es := [];
    var first1, left := true, recipes.Keys;
    assert recipes.Keys - left == {};
    while left != {}
      invariant left <= recipes.Keys && first1 == (es == []) && WrittenEntries(recipes, recipes.Keys - left, es)
      invariant items == PrintItems(EntryDocs(EntriesOf(es)), true)
    {
      var key :| key in left;
      if first1 {
        first1 := false;
      } else {
        items := items + [Comma];
      }
      var name := WriteName(key);
      var configs, cs := MarshalConfigs(recipes[key]);
      EntryPieces(Saved(key, cs));
      EntryWritten(recipes, left, es, Saved(key, cs));
      items := items + ([LBrace, Str("name"), Colon] + name + [Comma, Str("config"), Colon, LBrace] + configs
                        + [RBrace, RBrace]);
      es, left := es + [Saved(key, cs)], left - {key};
    }
    assert recipes.Keys - {} == recipes.Keys;
    out := [LBracket] + items + [RBracket];
    BookReads(recipes, es, out);
  }

  // ---- unmarshalling ----

  method UnmarshalInto(recipes: RecipeMap, key: string, iaas: string, raw: Text) returns (r: Option<RecipeMap>)
    ensures r == DecodeInto(recipes, key, iaas, raw)
  {
    if key in recipes && iaas in recipes[key] {
      var vars, ok := UnmarshalRecipe(recipes[key][iaas].variables, raw);
      r := if ok then Some(recipes[key := recipes[key][iaas := recipes[key][iaas].(variables := vars)]]) else None;
    } else {
      var discarded, ok := UnmarshalRecipe(map[], raw);
      r := if ok then Some(recipes) else None;
    }
  }

  method UnmarshalConfigs(d: Decoder, recipes: RecipeMap, key: string) returns (r: Option<RecipeMap>)
    requires d.Valid()
    modifies d
    ensures d.Valid()
    ensures match ReadConfigs(recipes, key, old(d.Rest()))
      case None => r == None
      case Some(p) => r == Some(p.0) && d.Rest() == p.1
  {
    var token := d.Token();
    if token != Some(LBrace) {
      return None;
    }
    var cur := recipes;
    ghost var start := d.Rest();
    token := None;
    while token != Some(RBrace)
      invariant d.Valid()
      invariant token != Some(RBrace) ==> ReadConfigItems(cur, key, d.Rest()) == ReadConfigItems(recipes, key, start)
      invariant token == Some(RBrace) ==> ReadConfigItems(recipes, key, start) == Some((cur, d.Rest()))
      decreases |d.Rest()| + if token == Some(RBrace) then 0 else 1
    {
      token := d.Token();
      if token.None? {
        return None;
      }
      if token.value.Str? {
        var raw := d.Decode();
        if raw.None? {
          return None;
        }
        var next := UnmarshalInto(cur, key, token.value.s, raw.value);
        if next.None? {
          return None;
        }
        cur := next.value;
      }
    }
    r := Some(cur);
  }

  lemma ConfigsShrink(recipes: RecipeMap, key: string, t: Text)
    requires ReadConfigs(recipes, key, t).Some?
    ensures |ReadConfigs(recipes, key, t).value.1| <= |t|
  {
    ConfigItemsShrink(recipes, key, AfterToken(t));
  }

  /** What one string does to the token loop, when it is not the "config" key. */
  function StringStep(s: string, currKey: KeyType, name: string): Option<(KeyType, string)> {
    match currKey
    case NoKey => Some((NoKey, name))
    case NameKey => Some((RecipeKey, s))
    case RecipeKey => if s == "name" && name == "" then Some((NameKey, name)) else None
  }

  /** The token loop of UnmarshalJSON. */
  method UnmarshalEntries(d: Decoder, recipes: RecipeMap) returns (r: Option<RecipeMap>)
    requires d.Valid()
    modifies d
    ensures d.Valid() && r == ReadEntries(recipes, old(d.Rest()), NoKey, "")
  {
    var cur, currKey, name := recipes, NoKey, "";
    ghost var start := d.Rest();
    while true
      invariant d.Valid() && ReadEntries(cur, d.Rest(), currKey, name) == ReadEntries(recipes, start, NoKey, "")
      decreases |d.Rest()|
    {
      ghost var t := d.Rest();
      var token := d.Token();
      if token == None || token == Some(RBracket) {
        return Some(cur);
      }
      match token.value {
        case LBrace => currKey := RecipeKey;
        case RBrace => currKey, name := NoKey, "";
        case LBracket => return None;
        case Str(s) =>
          if currKey == RecipeKey && s == "config" {
            if ReadConfigs(cur, name, AfterToken(t)).Some? { ConfigsShrink(cur, name, AfterToken(t)); }
            var next := UnmarshalConfigs(d, cur, name);
            if next.None? {
              return None;
            }
            cur := next.value;
          } else {
            var step := StringStep(s, currKey, name);
            if step.None? {
              return None;
            }
            currKey, name := step.value.0, step.value.1;
          }
        case _ =>
      }
    }
  }

  method UnmarshalBook(recipes: RecipeMap, raw: Text) returns (r: Option<RecipeMap>)
    ensures r == ReadBook(recipes, raw)
  {
    var d := new Decoder(raw);
    var token := d.Token();
    if token != Some(LBracket) {
      return None;
    }
    r := UnmarshalEntries(d, recipes);
  }
}
