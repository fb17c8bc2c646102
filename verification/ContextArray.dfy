// What an array in the place of an object does to the element stack of Load.
module ContextArrays {
  import opened Recipes
  import opened Json
  import opened RecipeText
  import opened CookbookText
  import opened ContextText

  /** A value that holds no key and no string. */
  predicate Bare(v: Value) {
    v == JObj([]) || v.JNull? || v.JBool? || v.JNum?
  }

  ghost predicate AllBare(items: seq<Value>) {
    forall i | 0 <= i < |items| :: Bare(items[i])
  }

  /** How many objects of the array are not its last element. */
  function Pops(items: seq<Value>): nat {
    if |items| <= 1 then 0 else (if items[0].JObj? then 1 else 0) + Pops(items[1..])
  }

  /** A token after which nothing follows in its array is skipped. */
  lemma LastToken(ctx: Context, stack: seq<Elem>, l: Lex, rest: Text)
    requires l != Comma && l != Colon && !More(rest)
    ensures Run(ctx, stack, [l] + rest) == Run(ctx, stack, rest)
  {
    TokenHere(l, rest);
    RunStep(ctx, stack, [l] + rest);
  }

  /** Opening brackets and scalars other than strings change nothing. */
  lemma PlainToken(ctx: Context, stack: seq<Elem>, l: Lex, first: bool, rest: Text)
    requires l in {LBrace, LBracket, Null} || l.Num? || l.Bool?
    ensures Run(ctx, stack, Sep(first) + ([l] + rest)) == Run(ctx, stack, rest)
  {
    var t := Sep(first) + ([l] + rest);
    if first { assert t == [l] + rest; TokenHere(l, rest); } else { TokenBehind(Comma, l, rest); }
    RunStep(ctx, stack, t);
  }

  /** A closing brace pops one element exactly if a comma follows it. */
  lemma ClosingBrace(ctx: Context, stack: seq<Elem>, rest: Text)
    requires rest != [] && rest[0] in {Comma, RBracket}
    ensures Run(ctx, stack, [RBrace] + rest) ==
      if rest[0] == RBracket then Run(ctx, stack, rest)
      else if stack == [] then Crashed else Run(ctx, stack[..|stack| - 1], rest)
  {
    TokenHere(RBrace, rest);
    if stack != [] {
      CloseBrace(ctx, stack, rest);
    } else if rest[0] == RBracket {
      LastToken(ctx, stack, RBrace, rest);
    }
  }

  lemma ScalarText(v: Value)
    requires Bare(v)
    ensures v.JObj? ==> Print(v) == [LBrace] + [RBrace]
    ensures v.JNum? ==> Print(v) == [Num(v.n)]
    ensures v.JBool? ==> Print(v) == [Bool(v.b)]
    ensures !v.JObj? ==> Print(v) == [Print(v)[0]] && (Print(v)[0] == Null || Print(v)[0].Num? || Print(v)[0].Bool?)
  {
  }

  /** One element of the array. */
  lemma ElementRun(ctx: Context, stack: seq<Elem>, v: Value, first: bool, rest: Text)
    requires Bare(v) && rest != [] && rest[0] in {Comma, RBracket}
    ensures Run(ctx, stack, Sep(first) + (Print(v) + rest)) ==
      if !v.JObj? || rest[0] == RBracket then Run(ctx, stack, rest)
      else if stack == [] then Crashed else Run(ctx, stack[..|stack| - 1], rest)
  {
    ScalarText(v);
    if v.JObj? {
      Assoc([LBrace], [RBrace], rest);
      PlainToken(ctx, stack, LBrace, first, [RBrace] + rest);
      ClosingBrace(ctx, stack, rest);
    } else {
      PlainToken(ctx, stack, Print(v)[0], first, rest);
    }
  }

  /** The end of the array and of the document. */
  lemma EndRun(ctx: Context, stack: seq<Elem>)
    ensures Run(ctx, stack, [RBracket] + [RBrace]) == Loaded(ctx)
  {
    LastToken(ctx, stack, RBracket, [RBrace]);
    assert [RBrace] == [RBrace] + [];
    LastToken(ctx, stack, RBrace, []);
    assert Run(ctx, stack, []) == Loaded(ctx);
  }

  lemma ItemsFollowed(items: seq<Value>)
    ensures var t := PrintItems(items, false) + ([RBracket] + [RBrace]);
      t != [] && t[0] == if items == [] then RBracket else Comma
  {
    assert items == [] ==> PrintItems(items, false) + ([RBracket] + [RBrace]) == [RBracket] + [RBrace];
  }

  /** The loop over the rest of an array crashes exactly if it has more objects in front of
      its last element than the stack has elements. */
  lemma {:induction false} ItemsRun(ctx: Context, stack: seq<Elem>, items: seq<Value>, first: bool)
    requires AllBare(items)
    ensures Run(ctx, stack, PrintItems(items, first) + ([RBracket] + [RBrace]))
         == if Pops(items) > |stack| then Crashed else Loaded(ctx)
    decreases |items|
  {
    var end := [RBracket] + [RBrace];
    if items == [] {
      assert PrintItems(items, first) + end == end;
      EndRun(ctx, stack);
    } else {
      var v, more := items[0], PrintItems(items[1..], false);
      assert AllBare(items[1..]) && Bare(v);
      Assoc(Sep(first) + Print(v), more, end);
      Assoc(Sep(first), Print(v), more + end);
      ItemsFollowed(items[1..]);
      ElementRun(ctx, stack, v, first, more + end);
      ItemsRun(ctx, stack, items[1..], false);
      if stack != [] { ItemsRun(ctx, stack[..|stack| - 1], items[1..], false); }
    }
  }

  lemma ArrayMemberText(key: string, items: seq<Value>, rest: Text)
    ensures Print(JObj([Member(key, JArr(items))])) + rest
         == [LBrace] + (Sep(true) + PrintMember(Member(key, JArr(items))) + ([RBrace] + rest))
    ensures Print(JArr(items)) + rest == [LBracket] + (PrintItems(items, true) + ([RBracket] + rest))
  {
    var m := Member(key, JArr(items));
    assert [m][1..] == [] && PrintMembers([m], true) == [] + PrintMember(m) + [];
    Assoc([LBracket] + PrintItems(items, true), [RBracket], rest);
    Assoc([LBracket], PrintItems(items, true), [RBracket] + rest);
  }

  /** An array of empty objects and scalars under "cloud" empties the stack, so that the
      next closing brace slices below it, exactly if more than two of its objects are not
      its last element; otherwise the document loads and changes nothing. */
  lemma ArrayEmptiesStackExactly(ctx: Context, items: seq<Value>)
    requires AllBare(items)
    ensures LoadText(ctx, Print(JObj([Member("cloud", JArr(items))])))
         == if Pops(items) > 2 then Crashed else Loaded(ctx)
  {
    var m := Member("cloud", JArr(items));
    ArrayMemberText("cloud", items, []);
    var t := Sep(true) + PrintMember(m) + ([RBrace] + []);
    assert Print(JObj([m])) + [] == Print(JObj([m]));
    assert Sep(true) + ([LBrace] + t) == [LBrace] + t;
    PlainToken(ctx, [Root], LBrace, true, t);
    CloudArray(ctx, m, items);
  }

  lemma CloudArray(ctx: Context, m: Member, items: seq<Value>)
    requires AllBare(items) && m == Member("cloud", JArr(items))
    ensures Run(ctx, [Root], Sep(true) + PrintMember(m) + ([RBrace] + []))
         == if Pops(items) > 2 then Crashed else Loaded(ctx)
  {
    CloudArrayBegins(ctx, m, items);
    ItemsRun(ctx, [Root, Cloud], items, true);
  }

  lemma CloudArrayBegins(ctx: Context, m: Member, items: seq<Value>)
    requires m == Member("cloud", JArr(items))
    ensures Run(ctx, [Root], Sep(true) + PrintMember(m) + ([RBrace] + []))
         == Run(ctx, [Root, Cloud], PrintItems(items, true) + ([RBracket] + [RBrace]))
  {
    var rest := [RBrace] + [];
    var inner := PrintItems(items, true) + ([RBracket] + rest);
    assert rest == [RBrace];
    KeyStep(ctx, [Root], m, true, rest);
    RunStep(ctx, [Root], Sep(true) + PrintMember(m) + rest);
    assert [Root] + [Cloud] == [Root, Cloud];
    ArrayMemberText("cloud", items, rest);
    BracketStep(ctx, [Root, Cloud], inner);
  }

  lemma BracketStep(ctx: Context, stack: seq<Elem>, rest: Text)
    ensures Run(ctx, stack, [Colon] + ([LBracket] + rest)) == Run(ctx, stack, rest)
  {
    TokenBehind(Colon, LBracket, rest);
    RunStep(ctx, stack, [Colon] + ([LBracket] + rest));
  }

  /** A string that follows two objects and is not the last element meets an empty stack. */
  lemma StringMeetsEmptyStack(ctx: Context, s: string)
    ensures LoadText(ctx, Print(JObj([Member("cloud", JArr([JObj([]), JObj([]), JStr(s), JNull]))]))) == Crashed
  {
    var o, items := JObj([]), [JObj([]), JObj([]), JStr(s), JNull];
    var m, end := Member("cloud", JArr(items)), [RBracket] + [RBrace];
    var last := [Comma] + ([Null] + end);
    var third := [Comma] + ([Str(s)] + last);
    var t := Sep(true) + PrintMember(m) + ([RBrace] + []);
    StringItemsText(s);
    ArrayMemberText("cloud", items, []);
    assert Print(JObj([m])) + [] == Print(JObj([m])) && Sep(true) + ([LBrace] + t) == [LBrace] + t;
    PlainToken(ctx, [Root], LBrace, true, t);
    CloudArrayBegins(ctx, m, items);
    ElementRun(ctx, [Root, Cloud], o, true, [Comma] + (Print(o) + third));
    assert [Root, Cloud][..1] == [Root];
    ElementRun(ctx, [Root], o, false, third);
    assert [Root][..0] == [];
    StringCrashes(ctx, s, last);
  }

  lemma StringCrashes(ctx: Context, s: string, rest: Text)
    requires rest != [] && rest[0] == Comma
    ensures Run(ctx, [], [Comma] + ([Str(s)] + ([Comma] + rest[1..]))) == Crashed
  {
    TokenBehind(Comma, Str(s), [Comma] + rest[1..]);
  }

  lemma StringItemsText(s: string)
    ensures var o, end := JObj([]), [RBracket] + [RBrace];
      var third := [Comma] + ([Str(s)] + ([Comma] + ([Null] + end)));
      && PrintItems([o, o, JStr(s), JNull], true) + end == Sep(true) + (Print(o) + ([Comma] + (Print(o) + third)))
      && [Comma] + (Print(o) + third) == Sep(false) + (Print(o) + third)
  {
    var o := JObj([]);
    var four, three, two, one := [o, o, JStr(s), JNull], [o, JStr(s), JNull], [JStr(s), JNull], [JNull];
    assert four[1..] == three && three[1..] == two && two[1..] == one && one[1..] == [];
    assert PrintItems(one, false) == [Comma, Null];
    assert PrintItems(two, false) == [Comma, Str(s), Comma, Null];
    assert Print(o) == [LBrace, RBrace];
    assert PrintItems(three, false) == [Comma, LBrace, RBrace, Comma, Str(s), Comma, Null];
  }

  /** Three empty objects load, four do not. */
  lemma ThreeObjectsLoad(ctx: Context)
    ensures var o := JObj([]);
      && LoadText(ctx, Print(JObj([Member("cloud", JArr([o, o, o]))]))) == Loaded(ctx)
      && LoadText(ctx, Print(JObj([Member("cloud", JArr([o, o, o, o]))]))) == Crashed
  {
    var o := JObj([]);
    var two, three, four := [o, o], [o, o, o], [o, o, o, o];
    assert two[1..] == [o] && three[1..] == two && four[1..] == three;
    assert Pops([o]) == 0;
    assert Pops(two) == 1 + Pops(two[1..]);
    assert Pops(three) == 1 + Pops(three[1..]);
    assert Pops(four) == 1 + Pops(four[1..]);
    ArrayEmptiesStackExactly(ctx, [o, o, o]);
    ArrayEmptiesStackExactly(ctx, [o, o, o, o]);
  }
}
