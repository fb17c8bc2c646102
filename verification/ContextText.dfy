// The target context as JSON: the token loop of Load with its element stack.
module ContextText {
  import opened Recipes
  import opened Json
  import opened RecipeText
  import opened CookbookText

  datatype Elem = Root | Cloud | Providers | Backends

  /** Providers, backends and the target set are kept as the text they encode to. */
  datatype Context = Context(providers: map<string, Text>, backends: map<string, Text>, recipes: RecipeMap,
                             targets: Text)

  /** One turn of the loop: it ends, with a context or an error, or it indexes an empty
      stack, or it goes on. */
  datatype Turn = End(result: Option<Context>) | Crash | Go(ctx: Context, stack: seq<Elem>, rest: Text)

  /** Decode into the entry of that name; an unknown name is decoded and dropped. */
  function Store(m: map<string, Text>, key: string, raw: Text): map<string, Text> {
    if key in m then m[key := raw] else m
  }

  /** A key met while `top` is the innermost element. */
  function KeyTurn(ctx: Context, stack: seq<Elem>, top: Elem, key: string, rest: Text): Turn {
    var raw := NextValue(rest);
    match top
    case Root => if key == "cloud" then Go(ctx, stack + [Cloud], rest) else End(None)
    case Cloud =>
      if key == "providers" then Go(ctx, stack + [Providers], rest)
      else if key == "backends" then Go(ctx, stack + [Backends], rest)
      else if key == "recipes" then
        if raw.None? || ReadBook(ctx.recipes, raw.value).None? then End(None)
        else Go(ctx.(recipes := ReadBook(ctx.recipes, raw.value).value), stack, AfterValue(rest))
      else if key == "targets" then
        if raw.None? then End(None) else Go(ctx.(targets := raw.value), stack, AfterValue(rest))
      else End(None)
    case Providers =>
      if raw.None? then End(None)
      else Go(ctx.(providers := Store(ctx.providers, key, raw.value)), stack, AfterValue(rest))
    case Backends =>
      if raw.None? then End(None)
      else Go(ctx.(backends := Store(ctx.backends, key, raw.value)), stack, AfterValue(rest))
  }

  /** A token counts only if more follows it in the same object or array. */
  function Next(ctx: Context, stack: seq<Elem>, t: Text): (r: Turn)
    ensures r.Go? ==> |r.rest| < |t|
  {
    var token, rest := NextToken(t), AfterToken(t);
    if token.None? then End(Some(ctx))
    else if !More(rest) then Go(ctx, stack, rest)
    else if token.value == RBrace then
      if stack == [] then Crash else Go(ctx, stack[..|stack| - 1], rest)
    else if token.value.Str? then
      if stack == [] then Crash else KeyTurn(ctx, stack, stack[|stack| - 1], token.value.s, rest)
    else Go(ctx, stack, rest)
  }

  datatype Outcome = Loaded(ctx: Context) | Failed | Crashed

  function Run(ctx: Context, stack: seq<Elem>, t: Text): Outcome
    decreases |t|
  {
    match Next(ctx, stack, t)
    case End(r) => if r.Some? then Loaded(r.value) else Failed
    case Crash => Crashed
    case Go(c, s, rest) => Run(c, s, rest)
  }

  /** Load: the loop started on a document. */
  function LoadText(ctx: Context, t: Text): Outcome { Run(ctx, [Root], t) }

  // ---- documents ----

  datatype Section =
    | ProviderSection(members: seq<Member>)
    | BackendSection(members: seq<Member>)
    | RecipeSection(entries: seq<Entry>)
    | TargetSection(value: Value)

  function SectionMember(s: Section): Member {
    match s
    case ProviderSection(ms) => Member("providers", JObj(ms))
    case BackendSection(ms) => Member("backends", JObj(ms))
    case RecipeSection(es) => Member("recipes", BookDoc(es))
    case TargetSection(v) => Member("targets", v)
  }

  function SectionMembers(ss: seq<Section>): seq<Member> {
    if ss == [] then [] else [SectionMember(ss[0])] + SectionMembers(ss[1..])
  }

  function ContextDoc(ss: seq<Section>): Value {
    JObj([Member("cloud", JObj(SectionMembers(ss)))])
  }

  // ---- what loading a document means ----

  function StoreAll(m: map<string, Text>, ms: seq<Member>): map<string, Text>
    decreases |ms|
  {
    if ms == [] then m else StoreAll(Store(m, ms[0].key, Print(ms[0].value)), ms[1..])
  }

  /** A section's effect, or none when one of its recipe values does not read. */
  function ApplySection(ctx: Context, s: Section): Option<Context> {
    match s
    case ProviderSection(ms) => Some(ctx.(providers := StoreAll(ctx.providers, ms)))
    case BackendSection(ms) => Some(ctx.(backends := StoreAll(ctx.backends, ms)))
    case RecipeSection(es) =>
      (match ApplyEntries(ctx.recipes, es)
       case None => None
       case Some(recipes) => Some(ctx.(recipes := recipes)))
    case TargetSection(v) => Some(ctx.(targets := Print(v)))
  }

  function ApplySections(ctx: Context, ss: seq<Section>): Option<Context>
    decreases |ss|
  {
    if ss == [] then Some(ctx)
    else
      match ApplySection(ctx, ss[0])
      case None => None
      case Some(next) => ApplySections(next, ss[1..])
  }

  // ---- the loop does what the document means ----

  lemma KeyStep(ctx: Context, stack: seq<Elem>, m: Member, first: bool, rest: Text)
    requires stack != []
    ensures var tail := [Colon] + (Print(m.value) + rest);
      && Next(ctx, stack, Sep(first) + PrintMember(m) + rest) == KeyTurn(ctx, stack, stack[|stack| - 1], m.key, tail)
      && NextValue(tail) == Some(Print(m.value)) && AfterValue(tail) == rest
  {
    MemberRead(m, first, rest);
    ReadValueAfterKey(m.value, rest);
  }

  lemma RunStep(ctx: Context, stack: seq<Elem>, t: Text)
    requires Next(ctx, stack, t).Go?
    ensures var n := Next(ctx, stack, t); Run(ctx, stack, t) == Run(n.ctx, n.stack, n.rest)
  {
  }

  lemma {:induction false} ProvidersRun(ctx: Context, stack: seq<Elem>, ms: seq<Member>, first: bool, rest: Text)
    requires stack != [] && stack[|stack| - 1] == Providers
    ensures Run(ctx, stack, PrintMembers(ms, first) + rest)
         == Run(ctx.(providers := StoreAll(ctx.providers, ms)), stack, rest)
    decreases |ms|
  {
    if ms == [] {
      assert PrintMembers(ms, first) + rest == rest;
    } else {
      var more := PrintMembers(ms[1..], false) + rest;
      Assoc(Sep(first) + PrintMember(ms[0]), PrintMembers(ms[1..], false), rest);
      KeyStep(ctx, stack, ms[0], first, more);
      RunStep(ctx, stack, Sep(first) + PrintMember(ms[0]) + more);
      ProvidersRun(ctx.(providers := Store(ctx.providers, ms[0].key, Print(ms[0].value))), stack, ms[1..], false, rest);
    }
  }

  lemma {:induction false} BackendsRun(ctx: Context, stack: seq<Elem>, ms: seq<Member>, first: bool, rest: Text)
    requires stack != [] && stack[|stack| - 1] == Backends
    ensures Run(ctx, stack, PrintMembers(ms, first) + rest)
         == Run(ctx.(backends := StoreAll(ctx.backends, ms)), stack, rest)
    decreases |ms|
  {
    if ms == [] {
      assert PrintMembers(ms, first) + rest == rest;
    } else {
      var more := PrintMembers(ms[1..], false) + rest;
      Assoc(Sep(first) + PrintMember(ms[0]), PrintMembers(ms[1..], false), rest);
      KeyStep(ctx, stack, ms[0], first, more);
      RunStep(ctx, stack, Sep(first) + PrintMember(ms[0]) + more);
      BackendsRun(ctx.(backends := Store(ctx.backends, ms[0].key, Print(ms[0].value))), stack, ms[1..], false, rest);
    }
  }

  /** An opening brace changes nothing. */
  lemma OpenStep(ctx: Context, stack: seq<Elem>, t: Text, rest: Text)
    requires NextToken(t) == Some(LBrace) && AfterToken(t) == rest
    ensures Run(ctx, stack, t) == Run(ctx, stack, rest)
  {
    RunStep(ctx, stack, t);
  }

  /** A closing brace pops the stack exactly if a separator follows it. */
  lemma CloseBrace(ctx: Context, stack: seq<Elem>, rest: Text)
    requires stack != []
    ensures Run(ctx, stack, [RBrace] + rest) == Run(ctx, if More(rest) then stack[..|stack| - 1] else stack, rest)
  {
    TokenHere(RBrace, rest);
    RunStep(ctx, stack, [RBrace] + rest);
  }

  /** The braces that end a document are not popped, and end the loop. */
  lemma LastBraces(ctx: Context, stack: seq<Elem>)
    requires stack != []
    ensures Run(ctx, stack, [RBrace] + [RBrace]) == Loaded(ctx)
  {
    CloseBrace(ctx, stack, [RBrace]);
    assert [RBrace] + [] == [RBrace];
    CloseBrace(ctx, stack, []);
    assert Run(ctx, stack, []) == Loaded(ctx);
  }

  /** What may follow a section: another one, or the end. */
  ghost predicate Continues(rest: Text) {
    rest == [RBrace] + [RBrace] || (rest != [] && rest[0] == Comma)
  }

  lemma AfterObject(ctx: Context, e: Elem, rest: Text)
    requires Continues(rest)
    ensures Run(ctx, [Root, Cloud, e], [RBrace] + rest) == Run(ctx, [Root, Cloud], rest)
  {
    CloseBrace(ctx, [Root, Cloud, e], rest);
    if More(rest) {
      assert [Root, Cloud, e][..2] == [Root, Cloud];
    } else {
      LastBraces(ctx, [Root, Cloud, e]);
      LastBraces(ctx, [Root, Cloud]);
    }
  }

  /** A member whose object is walked: its key pushes an element. */
  lemma PushStep(ctx: Context, key: string, ms: seq<Member>, first: bool, e: Elem, rest: Text)
    requires (key == "providers" && e == Providers) || (key == "backends" && e == Backends)
    ensures Run(ctx, [Root, Cloud], Sep(first) + PrintMember(Member(key, JObj(ms))) + rest)
         == Run(ctx, [Root, Cloud, e], PrintMembers(ms, true) + ([RBrace] + rest))
  {
    var m := Member(key, JObj(ms));
    var inner := PrintMembers(ms, true) + ([RBrace] + rest);
    var t, tail := Sep(first) + PrintMember(m) + rest, [Colon] + ([LBrace] + inner);
    PushText(ms, rest);
    KeyStep(ctx, [Root, Cloud], m, first, rest);
    PushTurn(ctx, key, e, tail);
    RunStep(ctx, [Root, Cloud], t);
    TokenBehind(Colon, LBrace, inner);
    OpenStep(ctx, [Root, Cloud, e], tail, inner);
  }

  lemma PushText(ms: seq<Member>, rest: Text)
    ensures Print(JObj(ms)) + rest == [LBrace] + (PrintMembers(ms, true) + ([RBrace] + rest))
  {
    Assoc([LBrace] + PrintMembers(ms, true), [RBrace], rest);
    Assoc([LBrace], PrintMembers(ms, true), [RBrace] + rest);
  }

  lemma PushTurn(ctx: Context, key: string, e: Elem, tail: Text)
    requires (key == "providers" && e == Providers) || (key == "backends" && e == Backends)
    ensures KeyTurn(ctx, [Root, Cloud], Cloud, key, tail) == Go(ctx, [Root, Cloud, e], tail)
  {
    assert [Root, Cloud] + [e] == [Root, Cloud, e];
    assert |"providers"| != |"backends"|;
  }

  /** The run that goes on when a part has been loaded. */
  function RunWith(ctx: Option<Context>, stack: seq<Elem>, rest: Text): Outcome {
    match ctx case None => Failed case Some(c) => Run(c, stack, rest)
  }

  /** A member whose value is decoded as a whole. */
  lemma DecodedRun(ctx: Context, s: Section, first: bool, rest: Text)
    requires s.RecipeSection? || s.TargetSection?
    ensures Run(ctx, [Root, Cloud], Sep(first) + PrintMember(SectionMember(s)) + rest)
         == RunWith(ApplySection(ctx, s), [Root, Cloud], rest)
  {
    var t := Sep(first) + PrintMember(SectionMember(s)) + rest;
    KeyStep(ctx, [Root, Cloud], SectionMember(s), first, rest);
    if s.RecipeSection? { BookRead(ctx.recipes, s.entries); }
    var next := ApplySection(ctx, s);
    if next.Some? {
      assert Next(ctx, [Root, Cloud], t) == Go(next.value, [Root, Cloud], rest);
      RunStep(ctx, [Root, Cloud], t);
    } else {
      assert Next(ctx, [Root, Cloud], t) == End(None);
    }
  }

  lemma SectionRun(ctx: Context, s: Section, first: bool, rest: Text)
    requires Continues(rest)
    ensures Run(ctx, [Root, Cloud], Sep(first) + PrintMember(SectionMember(s)) + rest)
         == RunWith(ApplySection(ctx, s), [Root, Cloud], rest)
  {
    match s {
      case ProviderSection(ms) =>
        PushStep(ctx, "providers", ms, first, Providers, rest);
        ProvidersRun(ctx, [Root, Cloud, Providers], ms, true, [RBrace] + rest);
        AfterObject(ApplySection(ctx, s).value, Providers, rest);
      case BackendSection(ms) =>
        PushStep(ctx, "backends", ms, first, Backends, rest);
        BackendsRun(ctx, [Root, Cloud, Backends], ms, true, [RBrace] + rest);
        AfterObject(ApplySection(ctx, s).value, Backends, rest);
      case _ => DecodedRun(ctx, s, first, rest);
    }
  }

  /** How a load ends that has applied this much. */
  function Ended(ctx: Option<Context>): Outcome {
    match ctx case None => Failed case Some(c) => Loaded(c)
  }

  lemma {:induction false} SectionsRun(ctx: Context, ss: seq<Section>, first: bool)
    ensures Run(ctx, [Root, Cloud], PrintMembers(SectionMembers(ss), first) + ([RBrace] + [RBrace]))
      == Ended(ApplySections(ctx, ss))
    decreases |ss|
  {
    var end := [RBrace] + [RBrace];
    if ss == [] {
      assert PrintMembers(SectionMembers(ss), first) + end == end;
      LastBraces(ctx, [Root, Cloud]);
    } else {
      var m, more, next := SectionMember(ss[0]), PrintMembers(SectionMembers(ss[1..]), false), ApplySection(ctx, ss[0]);
      TailOfCons(m, SectionMembers(ss[1..]));
      Assoc(Sep(first) + PrintMember(m), more, end);
      MoreContinues(SectionMembers(ss[1..]));
      SectionRun(ctx, ss[0], first, more + end);
      if next.Some? {
        SectionsRun(next.value, ss[1..], false);
      }
    }
  }

  lemma MoreContinues(ms: seq<Member>)
    ensures Continues(PrintMembers(ms, false) + ([RBrace] + [RBrace]))
  {
    if ms == [] {
      assert PrintMembers(ms, false) + ([RBrace] + [RBrace]) == [RBrace] + [RBrace];
    }
  }

  /** Loading a document applies its sections in order, whichever comes last and although
      the braces at the end are never popped; it fails exactly if one can not be applied. */
  lemma DocumentLoads(ctx: Context, ss: seq<Section>)
    ensures LoadText(ctx, Print(ContextDoc(ss))) == Ended(ApplySections(ctx, ss))
  {
    CloudText(ss);
    CloudOpens(ctx, PrintMembers(SectionMembers(ss), true) + ([RBrace] + [RBrace]));
    SectionsRun(ctx, ss, true);
  }

  /** The document's one key opens the cloud object. */
  lemma CloudOpens(ctx: Context, inner: Text)
    ensures Run(ctx, [Root], [LBrace] + ([Str("cloud")] + ([Colon] + ([LBrace] + inner))))
         == Run(ctx, [Root, Cloud], inner)
  {
    var tail := [Colon] + ([LBrace] + inner);
    TokenHere(LBrace, [Str("cloud")] + tail);
    OpenStep(ctx, [Root], [LBrace] + ([Str("cloud")] + tail), [Str("cloud")] + tail);
    TokenHere(Str("cloud"), tail);
    RunStep(ctx, [Root], [Str("cloud")] + tail);
    assert [Root] + [Cloud] == [Root, Cloud];
    TokenBehind(Colon, LBrace, inner);
    OpenStep(ctx, [Root, Cloud], tail, inner);
  }

  lemma CloudText(ss: seq<Section>)
    ensures Print(ContextDoc(ss)) ==
      [LBrace] + ([Str("cloud")] + ([Colon] + ([LBrace] +
        (PrintMembers(SectionMembers(ss), true) + ([RBrace] + [RBrace])))))
  {
    CloudTextOf(SectionMembers(ss));
  }

  lemma CloudTextOf(ms: seq<Member>)
    ensures Print(JObj([Member("cloud", JObj(ms))])) ==
      [LBrace] + ([Str("cloud")] + ([Colon] + ([LBrace] + (PrintMembers(ms, true) + ([RBrace] + [RBrace])))))
  {
    var m := Member("cloud", JObj(ms));
    assert [m][1..] == [];
    assert PrintMembers([m], true) == [] + PrintMember(m) + [];
    ObjectMemberText("cloud", ms, [RBrace]);
    Assoc([LBrace], PrintMember(m), [RBrace]);
  }

  // ---- documents that are refused ----

  lemma OneMemberText(m: Member)
    ensures Print(JObj([m])) == [LBrace] + (Sep(true) + PrintMember(m) + [RBrace])
  {
    assert [m][1..] == [] && PrintMembers([m], true) == [] + PrintMember(m) + [];
  }

  /** A key beside "cloud" fails the load, and so does one in it that names no section. */
  lemma UnknownKeyFails(ctx: Context, m: Member)
    ensures m.key != "cloud" ==> LoadText(ctx, Print(JObj([m]))) == Failed
    ensures m.key !in {"providers", "backends", "recipes", "targets"} ==>
      LoadText(ctx, Print(JObj([Member("cloud", JObj([m]))]))) == Failed
  {
    OneMemberText(m);
    TokenHere(LBrace, Sep(true) + PrintMember(m) + [RBrace]);
    OpenStep(ctx, [Root], [LBrace] + (Sep(true) + PrintMember(m) + [RBrace]), Sep(true) + PrintMember(m) + [RBrace]);
    KeyStep(ctx, [Root], m, true, [RBrace]);
    if m.key !in {"providers", "backends", "recipes", "targets"} {
      UnknownSectionFails(ctx, m);
    }
  }

  lemma UnknownSectionFails(ctx: Context, m: Member)
    requires m.key !in {"providers", "backends", "recipes", "targets"}
    ensures LoadText(ctx, Print(JObj([Member("cloud", JObj([m]))]))) == Failed
  {
    var end := [RBrace] + [RBrace];
    var inner := Sep(true) + PrintMember(m) + end;
    UnknownSectionText(m);
    CloudOpens(ctx, inner);
    KeyStep(ctx, [Root, Cloud], m, true, end);
    assert Next(ctx, [Root, Cloud], inner) == End(None);
  }

  lemma UnknownSectionText(m: Member)
    ensures Print(JObj([Member("cloud", JObj([m]))])) ==
      [LBrace] + ([Str("cloud")] + ([Colon] + ([LBrace] + (Sep(true) + PrintMember(m) + ([RBrace] + [RBrace])))))
  {
    CloudTextOf([m]);
    OneMember(m);
  }

  lemma OneMember(m: Member)
    ensures PrintMembers([m], true) == Sep(true) + PrintMember(m)
  {
    assert [m][1..] == [] && PrintMembers([], false) == [];
  }
}
