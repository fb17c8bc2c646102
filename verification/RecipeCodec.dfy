// The recipe's MarshalJSON and UnmarshalJSON.
module RecipeCodec {
  import opened Ordering
  import opened Recipes
  import opened Json
  import opened RecipeText

  lemma {:induction false} VariableDocsAppend(vs: seq<Variable>, v: Variable)
    ensures VariableDocs(vs + [v]) == VariableDocs(vs) + [VariableDoc(v)]
  {
    TailOfAppend(vs, v);
    if vs != [] {
      VariableDocsAppend(vs[1..], v);
    }
  }

  /** Printed, for a walk that still has the names in `left` to come. */
  ghost predicate PrintedSoFar(vars: Variables, left: set<string>, vs: seq<Variable>) {
    && (forall v :: v in vs <==> v.name in vars && v.name !in left && vars[v.name] == v && v.value.Some?)
    && Distinct(vs)
  }

  lemma PrintNext(vars: Variables, left: set<string>, vs: seq<Variable>, n: string)
    requires PrintedSoFar(vars, left, vs) && n in left && n in vars && vars[n].name == n
    ensures PrintedSoFar(vars, left - {n}, if vars[n].value.Some? then vs + [vars[n]] else vs)
  {
    assert vars[n] !in vs;
  }

  lemma PrintAppend(vs: seq<Variable>, v: Variable)
    ensures PrintItems(VariableDocs(vs + [v]), true)
         == PrintItems(VariableDocs(vs), true) + Sep(vs == []) + Print(VariableDoc(v))
  {
    VariableDocsAppend(vs, v);
    PrintItemsAppend(VariableDocs(vs), true, VariableDoc(v));
  }

  method MarshalVariables(vars: Variables) returns (items: Text, ghost vs: seq<Variable>)
    requires forall n | n in vars :: vars[n].name == n
    ensures Printed(vars, vs) && items == PrintItems(VariableDocs(vs), true)
  {
    items, vs := [], [];
    var first, left := true, vars.Keys;
    while left != {}
      invariant left <= vars.Keys && first == (vs == []) && PrintedSoFar(vars, left, vs)
      invariant items == PrintItems(VariableDocs(vs), true)
    {
      var n :| n in left;
      var v := vars[n];
      PrintNext(vars, left, vs, n);
      left := left - {n};
      if v.value.Some? {
        PrintAppend(vs, v);
        if first {
          first := false;
        } else {
          items := items + [Comma];
        }
        items := items + Print(VariableDoc(v));
        vs := vs + [v];
      }
    }
  }

  /** Print the variables that have a value, in the order the map is walked; whoever reads
      the output merges them. */
  method MarshalRecipe(vars: Variables) returns (out: Text, ghost vs: seq<Variable>)
    requires forall n | n in vars :: vars[n].name == n
    ensures Printed(vars, vs) && out == Print(RecipeDoc(vs))
    ensures forall receiver :: ReadRecipe(receiver, out) == Some(Merge(receiver, vars))
  {
    var items: Text;
    items, vs := MarshalVariables(vars);
    out := [LBrace, Str("variables"), Colon, LBracket] + items + [RBracket, RBrace];
    RecipeTextOf(vs);
    forall receiver ensures ReadRecipe(receiver, out) == Some(Merge(receiver, vars)) {
      RecipeRead(receiver, vs);
      PrintedMerges(receiver, vars, vs);
    }
  }

  /** Read a variable list, merging each entry into the variables. */
  method UnmarshalVariables(d: Decoder, vars: Variables) returns (cur: Variables, ok: bool)
    requires d.Valid()
    modifies d
    ensures d.Valid()
    ensures var r := ReadVariables(vars, old(d.Rest()));
      cur == r.vars && ok == r.ok && d.Rest() == r.rest
  {
    cur := vars;
    var token := d.Token();
    if token != Some(LBracket) {
      return cur, false;
    }
    ghost var start := d.Rest();
    var more := d.HasMore();
    while more
      invariant d.Valid() && more == More(d.Rest())
      invariant ReadVariableItems(cur, d.Rest()) == ReadVariableItems(vars, start)
      decreases |d.Rest()|
    {
      var raw := d.Decode();
      if raw.None? {
        d.Stop();
        return cur, false;
      }
      var v := ReadVariable(raw.value);
      if v.None? {
        return cur, false;
      }
      cur := cur[v.value.name := v.value];
      more := d.HasMore();
    }
    token := d.Token();
    ok := token == Some(RBracket);
  }

  /** The token loop; the error of a variable list lasts until the next token. */
  method UnmarshalRecipe(vars: Variables, raw: Text) returns (cur: Variables, ok: bool)
    ensures (cur, ok) == ReadTokens(vars, raw, true)
    ensures ReadRecipe(vars, raw) == if ok then Some(cur) else None
  {
    var d := new Decoder(raw);
    cur, ok := vars, true;
    var more := d.HasMore();
    while more
      invariant d.Valid() && more == More(d.Rest())
      invariant ReadTokens(cur, d.Rest(), ok) == ReadTokens(vars, raw, true)
      decreases |d.Rest()|
    {
      var token := d.Token();
      ok := true;
      if token == None {
        return;
      }
      if token == Some(Str("variables")) {
        cur, ok := UnmarshalVariables(d, cur);
      }
      more := d.HasMore();
    }
  }

  // ---- key fields ----

  function KeyValue(vars: Variables, field: string): string {
    if field in vars && vars[field].value.Some? then vars[field].value.value else ""
  }

  /** The values of the key fields, empty for those that are unknown or not set. */
  method GetKeyFieldValues(vars: Variables, keyFields: seq<string>) returns (keyValues: seq<string>)
    ensures |keyValues| == |keyFields|
    ensures forall i | 0 <= i < |keyFields| :: keyValues[i] == KeyValue(vars, keyFields[i])
    ensures forall i | 0 <= i < |keyFields| && keyFields[i] in vars && vars[keyFields[i]].value.Some? ::
      keyValues[i] == vars[keyFields[i]].value.value
    ensures forall i | 0 <= i < |keyFields| && (keyFields[i] !in vars || vars[keyFields[i]].value.None?) ::
      keyValues[i] == ""
  {
    keyValues := [];
    for i := 0 to |keyFields|
      invariant |keyValues| == i && forall k | 0 <= k < i :: keyValues[k] == KeyValue(vars, keyFields[k])
    {
      var value := "";
      if keyFields[i] in vars {
        var variable := vars[keyFields[i]];
        if variable.value.Some? {
          value := variable.value.value;
        }
      }
      keyValues := keyValues + [value];
    }
  }

  /** Unmarshalling what a recipe marshalled gives a recipe of the same template the same
      key values, so that it stands for the same target; `blank` has no values set. */
  lemma KeyValuesRestored(blank: Variables, source: Variables, vs: seq<Variable>, field: string)
    requires Printed(source, vs) && forall n | n in source :: source[n].name == n
    requires forall n | n in blank :: blank[n].value.None?
    ensures ReadRecipe(blank, Print(RecipeDoc(vs))).Some?
    ensures KeyValue(ReadRecipe(blank, Print(RecipeDoc(vs))).value, field) == KeyValue(source, field)
    ensures field in source && source[field].value.Some? ==>
      KeyValue(ReadRecipe(blank, Print(RecipeDoc(vs))).value, field) == source[field].value.value
  {
    RecipeRead(blank, vs);
    PrintedMerges(blank, source, vs);
  }
}
