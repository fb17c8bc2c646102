// A recipe as JSON: the marshaller prints the variables that have a value, and the
// unmarshaler merges what it reads into the variables it has.
module RecipeText {
  import opened Ordering
  import opened Recipes
  import opened Json

  // ---- documents ----

  function StringOrNull(v: Option<string>): Value {
    if v.Some? then JStr(v.value) else JNull
  }

  /** A variable as encoding/json writes it. */
  function VariableDoc(v: Variable): Value {
    JObj([Member("name", JStr(v.name)), Member("value", StringOrNull(v.value)), Member("optional", JBool(v.optional))])
  }

  function VariableDocs(vs: seq<Variable>): seq<Value> {
    if vs == [] then [] else [VariableDoc(vs[0])] + VariableDocs(vs[1..])
  }

  function RecipeDoc(vs: seq<Variable>): Value {
    JObj([Member("variables", JArr(VariableDocs(vs)))])
  }

  lemma ThreeMembers(a: Member, b: Member, c: Member)
    ensures PrintMembers([a, b, c], true) == PrintMember(a) + [Comma] + PrintMember(b) + [Comma] + PrintMember(c)
  {
    PrintMembersAppend([], true, a);
    PrintMembersAppend([a], true, b);
    PrintMembersAppend([a, b], true, c);
    assert [] + [a] == [a] && [a] + [b] == [a, b] && [a, b] + [c] == [a, b, c];
    assert [] + [] + PrintMember(a) == PrintMember(a);
  }

  lemma VariableText(v: Variable)
    ensures Print(VariableDoc(v)) == [LBrace, Str("name"), Colon, Str(v.name), Comma, Str("value"), Colon,
      if v.value.Some? then Str(v.value.value) else Null, Comma, Str("optional"), Colon, Bool(v.optional), RBrace]
  {
    var a, b, c := Member("name", JStr(v.name)), Member("value", StringOrNull(v.value)),
      Member("optional", JBool(v.optional));
    ThreeMembers(a, b, c);
    assert PrintMember(a) == [Str("name"), Colon, Str(v.name)];
    assert PrintMember(b) == [Str("value"), Colon, if v.value.Some? then Str(v.value.value) else Null];
    assert PrintMember(c) == [Str("optional"), Colon, Bool(v.optional)];
  }

  lemma RecipeTextOf(vs: seq<Variable>)
    ensures Print(RecipeDoc(vs))
      == [LBrace, Str("variables"), Colon, LBracket] + PrintItems(VariableDocs(vs), true) + [RBracket, RBrace]
  {
    var m := Member("variables", JArr(VariableDocs(vs)));
    assert [m][1..] == [];
    assert PrintMembers([m], true) == [] + PrintMember(m) + [];
  }

  // ---- reading ----

  /** encoding/json's decoder for a variable, on the text its encoder writes. */
  function ReadVariable(raw: Text): Option<Variable> {
    if |raw| == 13 && raw[3].Str? && (raw[7].Str? || raw[7].Null?) && raw[11].Bool?
    then
      var v := Variable(raw[3].s, if raw[7].Str? then Some(raw[7].s) else None, raw[11].b);
      if raw == [LBrace, Str("name"), Colon, raw[3], Comma, Str("value"), Colon, raw[7], Comma, Str("optional"), Colon,
                 raw[11], RBrace]
      then Some(v) else None
    else None
  }

  lemma VariableRead(v: Variable)
    ensures ReadVariable(Print(VariableDoc(v))) == Some(v)
  {
    VariableText(v);
  }

  /** What reading a variable list leaves: the variables merged so far, what is still to be
      read, and whether there was no error. */
  datatype Items = Items(vars: Variables, rest: Text, ok: bool)

  /** The loop over the elements of the variable list, up to and over its closing bracket. A
      value that is no variable ends the loop behind it, broken text ends all reading. */
  function ReadVariableItems(vars: Variables, t: Text): (r: Items)
    ensures |r.rest| <= |t|
    decreases |t|
  {
    if More(t) then
      var raw := NextValue(t);
      if raw.None? then Items(vars, [], false)
      else if ReadVariable(raw.value).None? then Items(vars, AfterValue(t), false)
      else
        var v := ReadVariable(raw.value).value;
        ReadVariableItems(vars[v.name := v], AfterValue(t))
    else Items(vars, AfterToken(t), NextToken(t) == Some(RBracket))
  }

  function ReadVariables(vars: Variables, t: Text): (r: Items)
    ensures |r.rest| <= |t|
  {
    if NextToken(t) == Some(LBracket) then ReadVariableItems(vars, AfterToken(t))
    else Items(vars, AfterToken(t), false)
  }

  /** The token loop of UnmarshalJSON: it looks for the "variables" key and merges its list.
      An error in a list does not end the loop, and the next token makes it forgotten. */
  function ReadTokens(vars: Variables, t: Text, ok: bool): (Variables, bool)
    decreases |t|
  {
    if !More(t) then (vars, ok)
    else if NextToken(t).None? then (vars, true)
    else if NextToken(t) == Some(Str("variables")) then
      var p := ReadVariables(vars, AfterToken(t));
      ReadTokens(p.vars, p.rest, p.ok)
    else ReadTokens(vars, AfterToken(t), true)
  }

  function ReadRecipe(vars: Variables, t: Text): Option<Variables> {
    var r := ReadTokens(vars, t, true);
    if r.1 then Some(r.0) else None
  }

  /** The variables after merging: later entries override, by name. */
  function Override(vars: Variables, vs: seq<Variable>): Variables
    decreases |vs|
  {
    if vs == [] then vars else Override(vars[vs[0].name := vs[0]], vs[1..])
  }

  lemma {:induction false} ItemsRead(vars: Variables, vs: seq<Variable>, first: bool, rest: Text)
    ensures ReadVariableItems(vars, PrintItems(VariableDocs(vs), first) + ([RBracket] + rest))
      == Items(Override(vars, vs), rest, true)
    decreases |vs|
  {
    var close := [RBracket] + rest;
    if vs == [] {
      assert PrintItems(VariableDocs(vs), first) + close == close;
      TokenHere(RBracket, rest);
    } else {
      var d, more := VariableDoc(vs[0]), PrintItems(VariableDocs(vs[1..]), false);
      TailOfCons(d, VariableDocs(vs[1..]));
      Assoc(Sep(first) + Print(d), more, close);
      ReadValueAt(d, first, more + close);
      VariableRead(vs[0]);
      ItemsRead(vars[vs[0].name := vs[0]], vs[1..], false, rest);
    }
  }

  lemma TailOfCons<T>(x: T, s: seq<T>)
    ensures ([x] + s)[0] == x && ([x] + s)[1..] == s
  {
  }

  lemma VariablesRead(vars: Variables, vs: seq<Variable>, rest: Text)
    ensures ReadVariables(vars, [Colon] + ([LBracket] + (PrintItems(VariableDocs(vs), true) + ([RBracket] + rest))))
         == Items(Override(vars, vs), rest, true)
  {
    TokenBehind(Colon, LBracket, PrintItems(VariableDocs(vs), true) + ([RBracket] + rest));
    ItemsRead(vars, vs, true, rest);
  }

  lemma KeyRead(vars: Variables, t: Text, next: Variables)
    requires ReadVariables(vars, t) == Items(next, [RBrace], true)
    ensures ReadTokens(vars, [Str("variables")] + t, true) == (next, true)
  {
    TokenHere(Str("variables"), t);
    assert ReadTokens(next, [RBrace], true) == (next, true);
  }

  lemma OpenRead(vars: Variables, t: Text)
    ensures ReadTokens(vars, [LBrace] + t, true) == ReadTokens(vars, t, true)
  {
    TokenHere(LBrace, t);
  }

  lemma NullListRead(vars: Variables, rest: Text)
    ensures ReadTokens(vars, [Str("variables")] + ([Colon] + ([Null] + rest)), true) == ReadTokens(vars, rest, false)
  {
    TokenBehind(Colon, Null, rest);
    TokenHere(Str("variables"), [Colon] + ([Null] + rest));
  }

  lemma OtherKeyRead(vars: Variables, rest: Text, ok: bool)
    ensures ReadTokens(vars, [Comma] + ([Str("other")] + ([Colon] + ([Null] + rest))), ok)
      == ReadTokens(vars, rest, true)
  {
    TokenBehind(Comma, Str("other"), [Colon] + ([Null] + rest));
    TokenBehind(Colon, Null, rest);
  }

  /** A list that is no array is an error if the document ends with it; with another key
      behind it the error is forgotten. */
  lemma BadListForgotten(vars: Variables, rest: Text)
    requires !More(rest)
    ensures ReadRecipe(vars, [Str("variables")] + ([Colon] + ([Null] + rest))) == None
    ensures ReadRecipe(vars, [Str("variables")]
                       + ([Colon] + ([Null] + ([Comma] + ([Str("other")] + ([Colon] + ([Null] + rest)))))))
                         == Some(vars)
  {
    NullListRead(vars, rest);
    NullListRead(vars, [Comma] + ([Str("other")] + ([Colon] + ([Null] + rest))));
    OtherKeyRead(vars, rest, false);
  }

  /** A list with an element that is no variable is refused, and so is one that ends with
      another bracket. */
  lemma BadListsRefused(vars: Variables, v: Value)
    requires ReadVariable(Print(v)).None?
    ensures ReadRecipe(vars, Print(JObj([Member("variables", JArr([v]))]))) == None
    ensures ReadRecipe(vars, [LBrace] + ([Str("variables")] + ([Colon] + ([LBracket] + ([RBrace] + []))))) == None
  {
    var end := [RBracket] + ([RBrace] + []);
    var items := Print(v) + end;
    BadListText(v);
    OpenRead(vars, [Str("variables")] + ([Colon] + ([LBracket] + items)));
    ReadValueAt(v, true, end);
    BadListRead(vars, items, end);
    OpenRead(vars, [Str("variables")] + ([Colon] + ([LBracket] + ([RBrace] + []))));
    TokenHere(RBrace, []);
    BadListRead(vars, [RBrace] + [], []);
  }

  lemma WrappedText(open: Lex, p: Text, close: Lex, rest: Text)
    ensures [open] + p + [close] + rest == [open] + (p + ([close] + rest))
    ensures [] + p == p
  {
  }

  lemma OneItem(v: Value)
    ensures PrintItems([v], true) == Print(v)
  {
    assert [v][1..] == [] && PrintItems([], false) == [];
  }

  lemma OneElementText(v: Value, rest: Text)
    ensures Print(JArr([v])) + rest == [LBracket] + (Print(v) + ([RBracket] + rest))
    ensures Sep(true) + Print(v) + rest == Print(v) + rest
  {
    OneItem(v);
    assert Print(JArr([v])) == [LBracket] + Print(v) + [RBracket];
    WrappedText(LBracket, Print(v), RBracket, rest);
  }

  lemma OneVariablesText(v: Value)
    ensures Print(JObj([Member("variables", v)]))
      == [LBrace] + ([Str("variables")] + ([Colon] + (Print(v) + ([RBrace] + []))))
  {
    var m, p := Member("variables", v), Print(v);
    assert [m][1..] == [] && PrintMembers([m], true) == Sep(true) + PrintMember(m) + [];
    assert Sep(true) + PrintMember(m) + [] == PrintMember(m) == [Str("variables"), Colon] + p;
    WrappedText(LBrace, [Str("variables"), Colon] + p, RBrace, []);
    VariablesKeyText(p, [RBrace] + []);
  }

  lemma VariablesKeyText(p: Text, rest: Text)
    ensures [Str("variables"), Colon] + p + rest == [Str("variables")] + ([Colon] + (p + rest))
  {
  }

  lemma BadListText(v: Value)
    ensures var items := Print(v) + ([RBracket] + ([RBrace] + []));
      && Print(JObj([Member("variables", JArr([v]))]))
        == [LBrace] + ([Str("variables")] + ([Colon] + ([LBracket] + items)))
      && Sep(true) + Print(v) + ([RBracket] + ([RBrace] + [])) == items
  {
    OneVariablesText(JArr([v]));
    OneElementText(v, [RBrace] + []);
    OneElementText(v, [RBracket] + ([RBrace] + []));
  }

  lemma BadListRead(vars: Variables, items: Text, rest: Text)
    requires ReadVariableItems(vars, items) == Items(vars, rest, false) && !More(rest)
    ensures ReadTokens(vars, [Str("variables")] + ([Colon] + ([LBracket] + items)), true) == (vars, false)
  {
    TokenHere(Str("variables"), [Colon] + ([LBracket] + items));
    TokenBehind(Colon, LBracket, items);
  }

  /** Unmarshalling a recipe document into any receiver overrides the receiver's variables
      by exactly those listed, in order. */
  lemma RecipeRead(vars: Variables, vs: seq<Variable>)
    ensures ReadRecipe(vars, Print(RecipeDoc(vs))) == Some(Override(vars, vs))
  {
    var t := [Colon] + ([LBracket] + (PrintItems(VariableDocs(vs), true) + ([RBracket] + [RBrace])));
    assert Print(RecipeDoc(vs)) == [LBrace] + ([Str("variables")] + t) by { RecipeTextOf(vs); }
    VariablesRead(vars, vs, [RBrace]);
    KeyRead(vars, t, Override(vars, vs));
    OpenRead(vars, [Str("variables")] + t);
  }

  // ---- what merging means ----

  lemma {:induction false} OverrideLast(vars: Variables, vs: seq<Variable>, n: string)
    ensures n in Override(vars, vs) <==> n in vars || exists v :: v in vs && v.name == n
    ensures n in Override(vars, vs) ==>
      || (Override(vars, vs)[n] in vs && Override(vars, vs)[n].name == n)
      || (n in vars && Override(vars, vs)[n] == vars[n] && forall v | v in vs :: v.name != n)
    decreases |vs|
  {
    if vs != [] {
      OverrideLast(vars[vs[0].name := vs[0]], vs[1..], n);
      assert forall v :: v in vs <==> v == vs[0] || v in vs[1..];
    }
  }

  lemma {:induction false} LastOverrides(vars: Variables, vs: seq<Variable>, n: string, k: int)
    requires 0 <= k < |vs| && vs[k].name == n && forall j | k < j < |vs| :: vs[j].name != n
    ensures n in Override(vars, vs) && Override(vars, vs)[n] == vs[k]
    decreases |vs|
  {
    if k > 0 {
      LastOverrides(vars[vs[0].name := vs[0]], vs[1..], n, k - 1);
    } else {
      OverrideLast(vars[vs[0].name := vs[0]], vs[1..], n);
    }
  }

  /** After unmarshalling a variable is the last one that the document lists under its name,
      or the receiver's own if it lists none. */
  lemma LastEntryCounts(vars: Variables, vs: seq<Variable>, n: string)
    ensures ReadRecipe(vars, Print(RecipeDoc(vs))).Some?
    ensures var r := ReadRecipe(vars, Print(RecipeDoc(vs))).value;
      && (forall k | 0 <= k < |vs| && vs[k].name == n && (forall j | k < j < |vs| :: vs[j].name != n) ::
            n in r && r[n] == vs[k])
      && ((forall k | 0 <= k < |vs| :: vs[k].name != n) ==>
            (n in r <==> n in vars) && (n in r ==> r[n] == vars[n]))
  {
    RecipeRead(vars, vs);
    OverrideLast(vars, vs, n);
    forall k | 0 <= k < |vs| && vs[k].name == n && (forall j | k < j < |vs| :: vs[j].name != n)
      ensures n in Override(vars, vs) && Override(vars, vs)[n] == vs[k]
    {
      LastOverrides(vars, vs, n, k);
    }
  }

  /** The variables MarshalJSON prints: those with a value. */
  ghost predicate Printed(source: Variables, vs: seq<Variable>) {
    && (forall v :: v in vs <==> v.name in source && source[v.name] == v && v.value.Some?)
    && Distinct(vs)
  }

  /** The receiver's variables overridden by the source's variables that have a value. */
  function Merge(vars: Variables, source: Variables): Variables {
    map n | n in vars.Keys + source.Keys && (n in vars || source[n].value.Some?) ::
      if n in source && source[n].value.Some? then source[n] else vars[n]
  }

  /** Whatever order the source's variables were printed in. */
  lemma PrintedMerges(vars: Variables, source: Variables, vs: seq<Variable>)
    requires Printed(source, vs) && forall n | n in source :: source[n].name == n
    ensures Override(vars, vs) == Merge(vars, source)
  {
    forall n ensures n in Override(vars, vs) <==> n in Merge(vars, source) {
      OverrideLast(vars, vs, n);
      if n in source && source[n].value.Some? { assert source[n] in vs; }
    }
    forall n | n in Override(vars, vs) ensures Override(vars, vs)[n] == Merge(vars, source)[n] {
      OverrideLast(vars, vs, n);
      if n in source && source[n].value.Some? { assert source[n] in vs; }
    }
  }

  lemma MergeTwice(vars: Variables, source: Variables)
    ensures Merge(Merge(vars, source), source) == Merge(vars, source)
  {
  }

  /** A variable that was marshalled with a value has it afterwards; every other one is the
      receiver's own. */
  lemma MarshalledVariable(vars: Variables, source: Variables, vs: seq<Variable>, n: string)
    requires Printed(source, vs) && forall x | x in source :: source[x].name == x
    ensures ReadRecipe(vars, Print(RecipeDoc(vs))).Some?
    ensures var r := ReadRecipe(vars, Print(RecipeDoc(vs))).value;
      && (n in source && source[n].value.Some? ==> n in r && r[n] == source[n])
      && (n !in source || source[n].value.None? ==> (n in r <==> n in vars) && (n in r ==> r[n] == vars[n]))
  {
    RecipeRead(vars, vs);
    PrintedMerges(vars, source, vs);
  }

  /** Unmarshalling what a recipe marshalled merges it; doing so again, with the variables
      printed in any other order, changes nothing more. */
  lemma UnmarshalMarshalled(vars: Variables, source: Variables, vs: seq<Variable>, again: seq<Variable>)
    requires Printed(source, vs) && Printed(source, again) && forall n | n in source :: source[n].name == n
    ensures ReadRecipe(vars, Print(RecipeDoc(vs))) == Some(Merge(vars, source))
    ensures ReadRecipe(Merge(vars, source), Print(RecipeDoc(again))) == Some(Merge(vars, source))
  {
    RecipeRead(vars, vs);
    PrintedMerges(vars, source, vs);
    RecipeRead(Merge(vars, source), again);
    PrintedMerges(Merge(vars, source), source, again);
    MergeTwice(vars, source);
  }
}
