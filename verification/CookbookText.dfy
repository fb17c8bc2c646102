// The cookbook's recipe configurations as JSON: an array of recipes, each with an object
// from IaaS name to recipe document.
module CookbookText {
  import opened Ordering
  import opened Recipes
  import opened Json
  import opened RecipeText

  // ---- documents ----

  /** A recipe's key, and the members of its configuration object: IaaS names, each with
      some value. */
  datatype Entry = Entry(key: string, members: seq<Member>)

  function EntryDoc(e: Entry): Value {
    JObj([Member("name", JStr(e.key)), Member("config", JObj(e.members))])
  }

  function EntryDocs(es: seq<Entry>): seq<Value> {
    if es == [] then [] else [EntryDoc(es[0])] + EntryDocs(es[1..])
  }

  function BookDoc(es: seq<Entry>): Value { JArr(EntryDocs(es)) }

  /** What a marshalled cookbook lists for one IaaS, and for one recipe. */
  datatype Config = Config(iaas: string, vars: seq<Variable>)

  datatype Saved = Saved(key: string, configs: seq<Config>)

  function ConfigMember(c: Config): Member { Member(c.iaas, RecipeDoc(c.vars)) }

  function ConfigMembers(cs: seq<Config>): seq<Member> {
    if cs == [] then [] else [ConfigMember(cs[0])] + ConfigMembers(cs[1..])
  }

  function EntryOf(s: Saved): Entry { Entry(s.key, ConfigMembers(s.configs)) }

  function EntriesOf(saved: seq<Saved>): seq<Entry> {
    if saved == [] then [] else [EntryOf(saved[0])] + EntriesOf(saved[1..])
  }

  // ---- reading ----

  function WithVariables(recipes: RecipeMap, key: string, iaas: string, vars: Variables): RecipeMap
    requires Lookup(recipes, key, iaas).Some?
  {
    recipes[key := recipes[key][iaas := recipes[key][iaas].(variables := vars)]]
  }

  /** Decode one recipe document into the recipe it names, or into one that is thrown away. */
  function DecodeInto(recipes: RecipeMap, key: string, iaas: string, raw: Text): Option<RecipeMap> {
    var r := Lookup(recipes, key, iaas);
    match ReadRecipe(if r.Some? then r.value.variables else map[], raw)
    case None => None
    case Some(vars) => Some(if r.Some? then WithVariables(recipes, key, iaas, vars) else recipes)
  }

  /** The loop of readRecipeIaaSConfigs, up to and over the closing brace. */
  function ReadConfigItems(recipes: RecipeMap, key: string, t: Text): Option<(RecipeMap, Text)>
    decreases |t|
  {
    var token, rest := NextToken(t), AfterToken(t);
    if token.None? then None
    else if token.value == RBrace then Some((recipes, rest))
    else if !token.value.Str? then ReadConfigItems(recipes, key, rest)
    else
      var raw := NextValue(rest);
      if raw.None? then None
      else
        match DecodeInto(recipes, key, token.value.s, raw.value)
        case None => None
        case Some(next) => ReadConfigItems(next, key, AfterValue(rest))
  }

  function ReadConfigs(recipes: RecipeMap, key: string, t: Text): Option<(RecipeMap, Text)> {
    if NextToken(t) == Some(LBrace) then ReadConfigItems(recipes, key, AfterToken(t)) else None
  }

  lemma {:induction false} ConfigItemsShrink(recipes: RecipeMap, key: string, t: Text)
    requires ReadConfigItems(recipes, key, t).Some?
    ensures |ReadConfigItems(recipes, key, t).value.1| <= |t|
    decreases |t|
  {
    var token, rest := NextToken(t), AfterToken(t);
    if token.value != RBrace {
      if token.value.Str? {
        var next := DecodeInto(recipes, key, token.value.s, NextValue(rest).value).value;
        ConfigItemsShrink(next, key, AfterValue(rest));
      } else {
        ConfigItemsShrink(recipes, key, rest);
      }
    }
  }

  /** What the token loop of UnmarshalJSON takes the next string for. */
  datatype KeyType = NoKey | RecipeKey | NameKey

  /** The token loop of UnmarshalJSON after the opening bracket; `name` is the recipe being read. */
  function ReadEntries(recipes: RecipeMap, t: Text, currKey: KeyType, name: string): Option<RecipeMap>
    decreases |t|
  {
    var token, rest := NextToken(t), AfterToken(t);
    if token.None? || token.value == RBracket then Some(recipes)
    else
      match token.value
      case LBrace => ReadEntries(recipes, rest, RecipeKey, name)
      case RBrace => ReadEntries(recipes, rest, NoKey, "")
      case LBracket => None
      case Str(s) =>
        (match currKey
         case NoKey => ReadEntries(recipes, rest, currKey, name)
         case NameKey => ReadEntries(recipes, rest, RecipeKey, s)
         case RecipeKey =>
           if s == "config" then
             match ReadConfigs(recipes, name, rest)
             case None => None
             case Some(p) => if |p.1| < |t| then ReadEntries(p.0, p.1, RecipeKey, name) else None
           else if s == "name" && name == "" then ReadEntries(recipes, rest, NameKey, name)
           else None)
      case _ => ReadEntries(recipes, rest, currKey, name)
  }

  function ReadBook(recipes: RecipeMap, t: Text): Option<RecipeMap> {
    if NextToken(t) == Some(LBracket) then ReadEntries(recipes, AfterToken(t), NoKey, "") else None
  }

  // ---- what reading a document means ----

  function ApplyMember(recipes: RecipeMap, key: string, m: Member): Option<RecipeMap> {
    DecodeInto(recipes, key, m.key, Print(m.value))
  }

  function ApplyMembers(recipes: RecipeMap, key: string, ms: seq<Member>): Option<RecipeMap>
    decreases |ms|
  {
    if ms == [] then Some(recipes)
    else
      match ApplyMember(recipes, key, ms[0])
      case None => None
      case Some(next) => ApplyMembers(next, key, ms[1..])
  }

  function ApplyEntries(recipes: RecipeMap, es: seq<Entry>): Option<RecipeMap>
    decreases |es|
  {
    if es == [] then Some(recipes)
    else
      match ApplyMembers(recipes, es[0].key, es[0].members)
      case None => None
      case Some(next) => ApplyEntries(next, es[1..])
  }

  /** One member of an object that is read key by key and value by value. */
  lemma MemberRead(m: Member, first: bool, rest: Text)
    ensures var t := Sep(first) + PrintMember(m) + rest;
      NextToken(t) == Some(Str(m.key)) && AfterToken(t) == [Colon] + (Print(m.value) + rest)
  {
    var tail := [Colon] + (Print(m.value) + rest);
    assert PrintMember(m) + rest == [Str(m.key)] + tail;
    Assoc(Sep(first), PrintMember(m), rest);
    if first {
      assert Sep(first) + ([Str(m.key)] + tail) == [Str(m.key)] + tail;
      TokenHere(Str(m.key), tail);
    } else {
      TokenBehind(Comma, Str(m.key), tail);
    }
  }

  lemma ConfigItemStep(recipes: RecipeMap, key: string, t: Text, iaas: string, raw: Text, next: RecipeMap)
    requires NextToken(t) == Some(Str(iaas)) && NextValue(AfterToken(t)) == Some(raw)
    requires DecodeInto(recipes, key, iaas, raw) == Some(next)
    ensures ReadConfigItems(recipes, key, t) == ReadConfigItems(next, key, AfterValue(AfterToken(t)))
  {
  }

  lemma ConfigItemFails(recipes: RecipeMap, key: string, t: Text, iaas: string, raw: Text)
    requires NextToken(t) == Some(Str(iaas)) && NextValue(AfterToken(t)) == Some(raw)
    requires DecodeInto(recipes, key, iaas, raw) == None
    ensures ReadConfigItems(recipes, key, t) == None
  {
  }

  /** One member of the configuration object: the loop goes on behind it, or ends all. */
  lemma ConfigItemRead(recipes: RecipeMap, key: string, m: Member, first: bool, rest: Text)
    ensures ReadConfigItems(recipes, key, Sep(first) + PrintMember(m) + rest) ==
      match ApplyMember(recipes, key, m)
      case None => None
      case Some(next) => ReadConfigItems(next, key, rest)
  {
    var t, next := Sep(first) + PrintMember(m) + rest, ApplyMember(recipes, key, m);
    MemberRead(m, first, rest);
    ReadValueAfterKey(m.value, rest);
    if next.Some? {
      ConfigItemStep(recipes, key, t, m.key, Print(m.value), next.value);
    } else {
      ConfigItemFails(recipes, key, t, m.key, Print(m.value));
    }
  }

  /** What is left when a part has been read: the text behind it. */
  function With(r: Option<RecipeMap>, rest: Text): Option<(RecipeMap, Text)> {
    match r case None => None case Some(m) => Some((m, rest))
  }

  lemma {:induction false} ConfigItemsRead(recipes: RecipeMap, key: string, ms: seq<Member>, first: bool, rest: Text)
    ensures ReadConfigItems(recipes, key, PrintMembers(ms, first) + ([RBrace] + rest))
         == With(ApplyMembers(recipes, key, ms), rest)
    decreases |ms|
  {
    var close := [RBrace] + rest;
    if ms == [] {
      assert PrintMembers(ms, first) + close == close;
      TokenHere(RBrace, rest);
    } else {
      var more, next := PrintMembers(ms[1..], false), ApplyMember(recipes, key, ms[0]);
      Assoc(Sep(first) + PrintMember(ms[0]), more, close);
      ConfigItemRead(recipes, key, ms[0], first, more + close);
      if next.Some? {
        ConfigItemsRead(next.value, key, ms[1..], false, rest);
      }
    }
  }

  lemma TwoMembers(a: Member, b: Member)
    ensures PrintMembers([a, b], true) == PrintMember(a) + ([Comma] + PrintMember(b))
  {
    assert [a, b][1..] == [b] && [b][1..] == [];
    assert PrintMembers([b], false) == [Comma] + PrintMember(b) + [];
  }

  lemma StringMemberText(key: string, s: string, rest: Text)
    ensures PrintMember(Member(key, JStr(s))) + rest == [Str(key)] + ([Colon] + ([Str(s)] + rest))
  {
  }

  lemma ObjectMemberText(key: string, members: seq<Member>, rest: Text)
    ensures PrintMember(Member(key, JObj(members))) + rest
         == [Str(key)] + ([Colon] + ([LBrace] + (PrintMembers(members, true) + ([RBrace] + rest))))
  {
  }

  lemma BracedText(a: Text, b: Text, rest: Text)
    ensures [LBrace] + (a + ([Comma] + b)) + [RBrace] + rest == [LBrace] + (a + ([Comma] + (b + ([RBrace] + rest))))
  {
  }

  lemma EntryTextOf(e: Entry, rest: Text)
    ensures Print(EntryDoc(e)) + rest ==
      [LBrace] + ([Str("name")] + ([Colon] + ([Str(e.key)] + ([Comma] + ([Str("config")] + ([Colon] + ([LBrace] +
        (PrintMembers(e.members, true) + ([RBrace] + ([RBrace] + rest))))))))))
  {
    var a, b := Member("name", JStr(e.key)), Member("config", JObj(e.members));
    var tail := [RBrace] + rest;
    TwoMembers(a, b);
    BracedText(PrintMember(a), PrintMember(b), rest);
    StringMemberText("name", e.key, [Comma] + (PrintMember(b) + tail));
    ObjectMemberText("config", e.members, tail);
  }

  lemma ConfigsRead(recipes: RecipeMap, key: string, ms: seq<Member>, rest: Text)
    ensures ReadConfigs(recipes, key, [Colon] + ([LBrace] + (PrintMembers(ms, true) + ([RBrace] + rest))))
         == With(ApplyMembers(recipes, key, ms), rest)
  {
    TokenBehind(Colon, LBrace, PrintMembers(ms, true) + ([RBrace] + rest));
    ConfigItemsRead(recipes, key, ms, true, rest);
  }

  lemma TokenStep(recipes: RecipeMap, t: Text, currKey: KeyType, name: string)
    requires NextToken(t).Some?
    ensures var rest := AfterToken(t);
      ReadEntries(recipes, t, currKey, name) ==
        match NextToken(t).value
        case LBrace => ReadEntries(recipes, rest, RecipeKey, name)
        case RBrace => ReadEntries(recipes, rest, NoKey, "")
        case Str(s) =>
          if currKey == NameKey then ReadEntries(recipes, rest, RecipeKey, s)
          else if currKey == RecipeKey && s == "name" && name == "" then ReadEntries(recipes, rest, NameKey, name)
          else ReadEntries(recipes, t, currKey, name)
        case _ => ReadEntries(recipes, t, currKey, name)
  {
  }

  lemma NameRead(recipes: RecipeMap, key: string, first: bool, rest: Text)
    ensures ReadEntries(recipes, Sep(first) + ([LBrace] + ([Str("name")] + ([Colon] + ([Str(key)] + rest)))), NoKey, "")
         == ReadEntries(recipes, rest, RecipeKey, key)
  {
    var t2 := [Colon] + ([Str(key)] + rest);
    var t1 := [Str("name")] + t2;
    var t0 := Sep(first) + ([LBrace] + t1);
    if first { assert t0 == [LBrace] + t1; TokenHere(LBrace, t1); } else { TokenBehind(Comma, LBrace, t1); }
    TokenStep(recipes, t0, NoKey, "");
    TokenHere(Str("name"), t2);
    TokenStep(recipes, t1, RecipeKey, "");
    TokenBehind(Colon, Str(key), rest);
    TokenStep(recipes, t2, NameKey, "");
  }

  lemma ConfigStep(recipes: RecipeMap, t: Text, name: string, next: RecipeMap, rest: Text)
    requires NextToken(t) == Some(Str("config"))
    requires ReadConfigs(recipes, name, AfterToken(t)) == Some((next, rest)) && |rest| < |t|
    ensures ReadEntries(recipes, t, RecipeKey, name) == ReadEntries(next, rest, RecipeKey, name)
  {
    var token := NextToken(t);
    assert token.Some? && token.value != RBracket && token.value.Str? && token.value.s == "config";
  }

  lemma ConfigKeyRead(recipes: RecipeMap, key: string, t: Text, next: Option<RecipeMap>, rest: Text)
    requires ReadConfigs(recipes, key, t) == With(next, [RBrace] + rest) && |rest| < |t|
    ensures ReadEntries(recipes, [Comma] + ([Str("config")] + t), RecipeKey, key)
         == if next.Some? then ReadEntries(next.value, rest, NoKey, "") else None
  {
    TokenBehind(Comma, Str("config"), t);
    if next.Some? {
      ConfigStep(recipes, [Comma] + ([Str("config")] + t), key, next.value, [RBrace] + rest);
      TokenHere(RBrace, rest);
      TokenStep(next.value, [RBrace] + rest, RecipeKey, key);
    }
  }

  /** One array element sends the loop back to where it was, with the element applied, or
      ends all. */
  lemma EntryRead(recipes: RecipeMap, e: Entry, first: bool, rest: Text)
    ensures ReadEntries(recipes, Sep(first) + (Print(EntryDoc(e)) + rest), NoKey, "") ==
      match ApplyMembers(recipes, e.key, e.members)
      case None => None
      case Some(next) => ReadEntries(next, rest, NoKey, "")
  {
    EntryTextOf(e, rest);
    var t := [Colon] + ([LBrace] + (PrintMembers(e.members, true) + ([RBrace] + ([RBrace] + rest))));
    NameRead(recipes, e.key, first, [Comma] + ([Str("config")] + t));
    ConfigsRead(recipes, e.key, e.members, [RBrace] + rest);
    ConfigKeyRead(recipes, e.key, t, ApplyMembers(recipes, e.key, e.members), rest);
  }

  lemma {:induction false} EntriesRead(recipes: RecipeMap, es: seq<Entry>, first: bool, rest: Text)
    ensures ReadEntries(recipes, PrintItems(EntryDocs(es), first) + ([RBracket] + rest), NoKey, "")
      == ApplyEntries(recipes, es)
    decreases |es|
  {
    var close := [RBracket] + rest;
    if es == [] {
      assert PrintItems(EntryDocs(es), first) + close == close;
      TokenHere(RBracket, rest);
    } else {
      var d, more := EntryDoc(es[0]), PrintItems(EntryDocs(es[1..]), false);
      var next := ApplyMembers(recipes, es[0].key, es[0].members);
      TailOfCons(d, EntryDocs(es[1..]));
      Assoc(Sep(first) + Print(d), more, close);
      Assoc(Sep(first), Print(d), more + close);
      EntryRead(recipes, es[0], first, more + close);
      if next.Some? {
        EntriesRead(next.value, es[1..], false, rest);
      }
    }
  }

  /** Unmarshalling a cookbook document applies its entries in order, until one of their
      values does not read as a recipe. */
  lemma BookRead(recipes: RecipeMap, es: seq<Entry>)
    ensures ReadBook(recipes, Print(BookDoc(es))) == ApplyEntries(recipes, es)
  {
    var t := PrintItems(EntryDocs(es), true) + ([RBracket] + []);
    assert Print(BookDoc(es)) == [LBracket] + t;
    TokenHere(LBracket, t);
    EntriesRead(recipes, es, true, []);
  }

  // ---- documents that are refused ----

  /** Only an array is read. */
  lemma OnlyArraysRead(recipes: RecipeMap, v: Value)
    requires !v.JArr?
    ensures ReadBook(recipes, Print(v)) == None
  {
    var t := Print(v);
    assert t == [t[0]] + t[1..];
    TokenHere(t[0], t[1..]);
  }

  /** An element with a key other than its one name and its configuration is refused. */
  lemma EntryKeyRefused(recipes: RecipeMap, key: string, m: Member)
    requires m.key != "config" && (m.key == "name" ==> key != "")
    ensures ReadBook(recipes, Print(JArr([JObj([Member("name", JStr(key)), m])]))) == None
  {
    var behind := [Colon] + (Print(m.value) + ([RBrace] + ([RBracket] + [])));
    RefusedText(key, m);
    ElementBegins(recipes, key, [Comma] + ([Str(m.key)] + behind));
    TokenBehind(Comma, Str(m.key), behind);
    assert ReadEntries(recipes, [Comma] + ([Str(m.key)] + behind), RecipeKey, key) == None;
  }

  /** The array's bracket and the name of its first element. */
  lemma ElementBegins(recipes: RecipeMap, key: string, rest: Text)
    ensures ReadBook(recipes, [LBracket] + (Sep(true) + ([LBrace] + ([Str("name")] + ([Colon] + ([Str(key)] + rest))))))
         == ReadEntries(recipes, rest, RecipeKey, key)
  {
    NameRead(recipes, key, true, rest);
    TokenHere(LBracket, Sep(true) + ([LBrace] + ([Str("name")] + ([Colon] + ([Str(key)] + rest)))));
  }

  /** A configuration that is no object is refused. */
  lemma ConfigRefused(recipes: RecipeMap, key: string, v: Value)
    requires !v.JObj?
    ensures ReadBook(recipes, Print(JArr([JObj([Member("name", JStr(key)), Member("config", v)])]))) == None
  {
    var tail := [RBrace] + ([RBracket] + []);
    var behind := [Colon] + (Print(v) + tail);
    RefusedText(key, Member("config", v));
    ElementBegins(recipes, key, [Comma] + ([Str("config")] + behind));
    NoConfigs(recipes, key, v, tail);
    ConfigKeyRead(recipes, key, behind, None, [RBracket] + []);
  }

  lemma NoConfigs(recipes: RecipeMap, key: string, v: Value, rest: Text)
    requires !v.JObj?
    ensures ReadConfigs(recipes, key, [Colon] + (Print(v) + rest)) == None
  {
    assert Print(v) + rest == [Print(v)[0]] + (Print(v)[1..] + rest);
    TokenBehind(Colon, Print(v)[0], Print(v)[1..] + rest);
  }

  /** An array in the place of an element is refused. */
  lemma NestedArrayRefused(recipes: RecipeMap, items: seq<Value>)
    ensures ReadBook(recipes, Print(JArr([JArr(items)]))) == None
  {
    var rest := PrintItems(items, true) + [RBracket] + ([RBracket] + []);
    OneItemText(JArr(items));
    assert Print(JArr(items)) + ([RBracket] + []) == [LBracket] + rest;
    TokenHere(LBracket, [LBracket] + rest);
    TokenHere(LBracket, rest);
  }

  /** Tokens other than strings between the members of a configuration are passed over. */
  lemma StrayTokenSkipped(recipes: RecipeMap, key: string, l: Lex, rest: Text)
    requires l in {Null, LBrace, LBracket, RBracket} || l.Num? || l.Bool?
    ensures ReadConfigItems(recipes, key, [l] + rest) == ReadConfigItems(recipes, key, rest)
  {
    TokenHere(l, rest);
  }

  lemma MemberText(m: Member, rest: Text)
    ensures PrintMember(m) + rest == [Str(m.key)] + ([Colon] + (Print(m.value) + rest))
  {
    assert PrintMember(m) == [Str(m.key)] + ([Colon] + Print(m.value));
    Assoc([Str(m.key)], [Colon] + Print(m.value), rest);
    Assoc([Colon], Print(m.value), rest);
  }

  lemma OneItemText(e: Value)
    ensures Print(JArr([e])) == [LBracket] + (Print(e) + ([RBracket] + []))
  {
    assert [e][1..] == [] && PrintItems([e], true) == [] + Print(e) + [];
  }

  lemma RefusedText(key: string, m: Member)
    ensures Print(JArr([JObj([Member("name", JStr(key)), m])])) ==
      [LBracket] + (Sep(true) + ([LBrace] + ([Str("name")] + ([Colon] + ([Str(key)] + ([Comma] + ([Str(m.key)] +
        ([Colon] + (Print(m.value) + ([RBrace] + ([RBracket] + [])))))))))))
  {
    var a, e, end := Member("name", JStr(key)), JObj([Member("name", JStr(key)), m]), [RBracket] + [];
    var last := PrintMember(m) + ([RBrace] + end);
    OneItemText(e);
    TwoMembers(a, m);
    BracedText(PrintMember(a), PrintMember(m), end);
    StringMemberText("name", key, [Comma] + last);
    MemberText(m, [RBrace] + end);
    assert Print(e) + end == [LBrace] + (PrintMember(a) + ([Comma] + last));
    assert Sep(true) + (Print(e) + end) == Print(e) + end;
  }

  // ---- what a marshalled cookbook does ----

  function ApplyConfig(recipes: RecipeMap, key: string, c: Config): RecipeMap {
    var r := Lookup(recipes, key, c.iaas);
    if r.Some? then WithVariables(recipes, key, c.iaas, Override(r.value.variables, c.vars)) else recipes
  }

  function ApplyConfigs(recipes: RecipeMap, key: string, cs: seq<Config>): RecipeMap
    decreases |cs|
  {
    if cs == [] then recipes else ApplyConfigs(ApplyConfig(recipes, key, cs[0]), key, cs[1..])
  }

  function ApplySaved(recipes: RecipeMap, saved: seq<Saved>): RecipeMap
    decreases |saved|
  {
    if saved == [] then recipes else ApplySaved(ApplyConfigs(recipes, saved[0].key, saved[0].configs), saved[1..])
  }

  lemma ConfigApplied(recipes: RecipeMap, key: string, c: Config)
    ensures ApplyMember(recipes, key, ConfigMember(c)) == Some(ApplyConfig(recipes, key, c))
  {
    var r := Lookup(recipes, key, c.iaas);
    RecipeRead(if r.Some? then r.value.variables else map[], c.vars);
  }

  lemma {:induction false} ConfigsApplied(recipes: RecipeMap, key: string, cs: seq<Config>)
    ensures ApplyMembers(recipes, key, ConfigMembers(cs)) == Some(ApplyConfigs(recipes, key, cs))
    decreases |cs|
  {
    if cs != [] {
      TailOfCons(ConfigMember(cs[0]), ConfigMembers(cs[1..]));
      ConfigApplied(recipes, key, cs[0]);
      ConfigsApplied(ApplyConfig(recipes, key, cs[0]), key, cs[1..]);
    }
  }

  /** Nothing that a marshalled cookbook lists ends the reading. */
  lemma {:induction false} SavedApplied(recipes: RecipeMap, saved: seq<Saved>)
    ensures ApplyEntries(recipes, EntriesOf(saved)) == Some(ApplySaved(recipes, saved))
    decreases |saved|
  {
    if saved != [] {
      TailOfCons(EntryOf(saved[0]), EntriesOf(saved[1..]));
      ConfigsApplied(recipes, saved[0].key, saved[0].configs);
      SavedApplied(ApplyConfigs(recipes, saved[0].key, saved[0].configs), saved[1..]);
    }
  }

  // ---- cell by cell ----

  /** All variables a document lists for one recipe and IaaS, in order. */
  function ConfigVars(cs: seq<Config>, iaas: string): seq<Variable> {
    if cs == [] then [] else (if cs[0].iaas == iaas then cs[0].vars else []) + ConfigVars(cs[1..], iaas)
  }

  function EntryVars(es: seq<Saved>, key: string, iaas: string): seq<Variable> {
    if es == [] then []
    else (if es[0].key == key then ConfigVars(es[0].configs, iaas) else []) + EntryVars(es[1..], key, iaas)
  }

  lemma {:induction false} OverrideConcat(vars: Variables, a: seq<Variable>, b: seq<Variable>)
    ensures Override(Override(vars, a), b) == Override(vars, a + b)
    decreases |a|
  {
    if a == [] {
      assert a + b == b;
    } else {
      assert (a + b)[0] == a[0] && (a + b)[1..] == a[1..] + b;
      OverrideConcat(vars[a[0].name := a[0]], a[1..], b);
    }
  }

  /** A recipe with its variables overridden; a missing one stays missing. */
  function Overridden(r: Option<Recipe>, vs: seq<Variable>): Option<Recipe> {
    match r case None => None case Some(x) => Some(x.(variables := Override(x.variables, vs)))
  }

  lemma OverriddenConcat(r: Option<Recipe>, a: seq<Variable>, b: seq<Variable>)
    ensures Overridden(Overridden(r, a), b) == Overridden(r, a + b)
    ensures Overridden(r, []) == r
  {
    if r.Some? { OverrideConcat(r.value.variables, a, b); }
  }

  lemma {:induction false} CellAfterConfigs(recipes: RecipeMap, key: string, cs: seq<Config>, k: string, iaas: string)
    ensures ApplyConfigs(recipes, key, cs).Keys == recipes.Keys
    ensures Lookup(ApplyConfigs(recipes, key, cs), k, iaas)
         == Overridden(Lookup(recipes, k, iaas), if k == key then ConfigVars(cs, iaas) else [])
    decreases |cs|
  {
    OverriddenConcat(Lookup(recipes, k, iaas), [], []);
    if cs != [] {
      var next := ApplyConfig(recipes, key, cs[0]);
      var a := if k == key && cs[0].iaas == iaas then cs[0].vars else [];
      assert Lookup(next, k, iaas) == Overridden(Lookup(recipes, k, iaas), a);
      CellAfterConfigs(next, key, cs[1..], k, iaas);
      OverriddenConcat(Lookup(recipes, k, iaas), a, if k == key then ConfigVars(cs[1..], iaas) else []);
    }
  }

  /** After reading what was saved each known recipe has the variables listed for it, in
      order, on top of its own; nothing else changes and no recipe appears. */
  lemma {:induction false} CellAfterEntries(recipes: RecipeMap, es: seq<Saved>, k: string, iaas: string)
    ensures ApplySaved(recipes, es).Keys == recipes.Keys
    ensures Lookup(ApplySaved(recipes, es), k, iaas) == Overridden(Lookup(recipes, k, iaas), EntryVars(es, k, iaas))
    decreases |es|
  {
    OverriddenConcat(Lookup(recipes, k, iaas), [], []);
    if es != [] {
      var next := ApplyConfigs(recipes, es[0].key, es[0].configs);
      var a := if k == es[0].key then ConfigVars(es[0].configs, iaas) else [];
      CellAfterConfigs(recipes, es[0].key, es[0].configs, k, iaas);
      CellAfterEntries(next, es[1..], k, iaas);
      OverriddenConcat(Lookup(recipes, k, iaas), a, EntryVars(es[1..], k, iaas));
    }
  }
}
