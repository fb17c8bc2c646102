// The element stack of Load stays between one and three elements.
module ContextStack {
  import opened Recipes
  import opened Json
  import opened RecipeText
  import opened CookbookText
  import opened ContextText

  /** At every turn of the loop the stack is neither empty nor deeper than three. */
  ghost predicate InBounds(ctx: Context, stack: seq<Elem>, t: Text)
    decreases |t|
  {
    && 1 <= |stack| <= 3
    && match Next(ctx, stack, t)
       case End(_) => true
       case Crash => false
       case Go(c, s, rest) => InBounds(c, s, rest)
  }

  predicate Walked(key: string) { key == "cloud" || key == "providers" || key == "backends" }

  /** The keys whose objects are walked token by token hold objects, at every depth. */
  ghost predicate HoldsObjects(ms: seq<Member>)
    decreases ms
  {
    forall i | 0 <= i < |ms| && Walked(ms[i].key) :: ms[i].value.JObj? && HoldsObjects(ms[i].value.members)
  }

  /** The shapes the stack takes. */
  ghost predicate Shape(stack: seq<Elem>) {
    || stack == [Root]
    || stack == [Root, Cloud]
    || stack == [Root, Cloud, Providers]
    || stack == [Root, Cloud, Backends]
  }

  /** What is left of a document inside nested walked objects: for each object, from the
      innermost out, the members still to come and its closing brace. */
  function Rest(levels: seq<seq<Member>>, first: bool): Text {
    if levels == [] then [] else PrintMembers(levels[0], first) + ([RBrace] + Rest(levels[1..], false))
  }

  ghost predicate Levels(levels: seq<seq<Member>>) {
    forall i | 0 <= i < |levels| :: HoldsObjects(levels[i])
  }

  lemma RestMember(m: Member, ms: seq<Member>, outer: seq<seq<Member>>, first: bool)
    ensures Rest([[m] + ms] + outer, first) == Sep(first) + PrintMember(m) + Rest([ms] + outer, false)
  {
    TailOfCons([m] + ms, outer);
    TailOfCons(ms, outer);
    TailOfCons(m, ms);
    Assoc(Sep(first) + PrintMember(m), PrintMembers(ms, false), [RBrace] + Rest(outer, false));
  }

  lemma RestClose(outer: seq<seq<Member>>, first: bool)
    ensures Rest([[]] + outer, first) == [RBrace] + Rest(outer, false)
    ensures More(Rest(outer, false)) ==> outer != []
  {
    TailOfCons([], outer);
    assert PrintMembers([], first) + ([RBrace] + Rest(outer, false)) == [RBrace] + Rest(outer, false);
  }

  lemma RestObject(ms: seq<Member>, outer: seq<seq<Member>>)
    ensures Print(JObj(ms)) + Rest(outer, false) == [LBrace] + Rest([ms] + outer, true)
  {
    TailOfCons(ms, outer);
    Assoc([LBrace] + PrintMembers(ms, true), [RBrace], Rest(outer, false));
    Assoc([LBrace], PrintMembers(ms, true), [RBrace] + Rest(outer, false));
  }

  lemma {:induction false} StackBounded(ctx: Context, stack: seq<Elem>, levels: seq<seq<Member>>, first: bool)
    requires Shape(stack) && |levels| <= |stack| && Levels(levels)
    ensures InBounds(ctx, stack, Rest(levels, first))
    decreases |Rest(levels, first)|
  {
    if levels != [] {
      var outer := levels[1..];
      assert levels == [levels[0]] + outer;
      assert Levels(outer);
      if levels[0] == [] {
        RestClose(outer, first);
        CloseBounded(ctx, stack, outer);
      } else {
        var m, ms := levels[0][0], levels[0][1..];
        assert levels[0] == [m] + ms;
        RestMember(m, ms, outer, first);
        KeyStep(ctx, stack, m, first, Rest([ms] + outer, false));
        assert Levels([ms] + outer) by { TailHolds(levels[0]); }
        MemberBounded(ctx, stack, m, ms, outer, first);
      }
    }
  }

  lemma TailHolds(ms: seq<Member>)
    requires ms != [] && HoldsObjects(ms)
    ensures HoldsObjects(ms[1..])
  {
    assert forall i | 0 <= i < |ms| - 1 :: ms[1..][i] == ms[i + 1];
  }

  function Popped(stack: seq<Elem>): (r: seq<Elem>)
    requires Shape(stack) && |stack| > 1
    ensures Shape(r) && |r| == |stack| - 1 && r == stack[..|stack| - 1]
  {
    stack[..|stack| - 1]
  }

  lemma CloseNext(ctx: Context, stack: seq<Elem>, rest: Text)
    requires stack != []
    ensures Next(ctx, stack, [RBrace] + rest) == Go(ctx, if More(rest) then stack[..|stack| - 1] else stack, rest)
  {
    TokenHere(RBrace, rest);
  }

  /** A turn of the loop keeps the bounds if what it leads to does. */
  lemma BoundedStep(ctx: Context, stack: seq<Elem>, t: Text, next: Turn)
    requires Shape(stack) && Next(ctx, stack, t) == next && next.Go? && InBounds(next.ctx, next.stack, next.rest)
    ensures InBounds(ctx, stack, t)
  {
  }

  lemma {:induction false} CloseBounded(ctx: Context, stack: seq<Elem>, outer: seq<seq<Member>>)
    requires Shape(stack) && |outer| < |stack| && Levels(outer)
    ensures InBounds(ctx, stack, [RBrace] + Rest(outer, false))
    decreases |[RBrace] + Rest(outer, false)|, 0
  {
    var rest := Rest(outer, false);
    RestClose(outer, false);
    CloseNext(ctx, stack, rest);
    assert |[RBrace] + rest| == 1 + |rest|;
    if More(rest) {
      var popped := Popped(stack);
      StackBounded(ctx, popped, outer, false);
      BoundedStep(ctx, stack, [RBrace] + rest, Go(ctx, popped, rest));
    } else {
      StackBounded(ctx, stack, outer, false);
      BoundedStep(ctx, stack, [RBrace] + rest, Go(ctx, stack, rest));
    }
  }

  /** Where a key leads: past its value, or into its object with one more element. */
  lemma KeyLeads(ctx: Context, stack: seq<Elem>, m: Member, tail: Text, rest: Text)
    requires Shape(stack) && tail == [Colon] + (Print(m.value) + rest)
    requires NextValue(tail) == Some(Print(m.value)) && AfterValue(tail) == rest
    ensures var n := KeyTurn(ctx, stack, stack[|stack| - 1], m.key, tail);
      && n != Crash
      && (n.Go? ==> || (n.stack == stack && n.rest == rest)
                    || (Walked(m.key) && Shape(n.stack) && |n.stack| == |stack| + 1 && n.ctx == ctx && n.rest == tail))
  {
  }

  lemma {:induction false} MemberBounded(ctx: Context, stack: seq<Elem>, m: Member, ms: seq<Member>,
                                         outer: seq<seq<Member>>, first: bool)
    requires Shape(stack) && |outer| < |stack| && Levels([ms] + outer)
    requires Walked(m.key) ==> m.value.JObj? && HoldsObjects(m.value.members)
    ensures InBounds(ctx, stack, Sep(first) + PrintMember(m) + Rest([ms] + outer, false))
    decreases |Sep(first) + PrintMember(m) + Rest([ms] + outer, false)|, 0
  {
    var rest := Rest([ms] + outer, false);
    var t, tail := Sep(first) + PrintMember(m) + rest, [Colon] + (Print(m.value) + rest);
    KeyStep(ctx, stack, m, first, rest);
    KeyLeads(ctx, stack, m, tail, rest);
    var n := Next(ctx, stack, t);
    if n.Go? {
      if n.stack == stack {
        StackBounded(n.ctx, stack, [ms] + outer, false);
      } else {
        PushBounded(ctx, n.stack, m.value.members, [ms] + outer);
      }
      BoundedStep(ctx, stack, t, n);
    }
  }

  lemma {:induction false} PushBounded(ctx: Context, stack: seq<Elem>, inner: seq<Member>, outer: seq<seq<Member>>)
    requires Shape(stack) && |outer| < |stack| && Levels(outer) && HoldsObjects(inner)
    ensures InBounds(ctx, stack, [Colon] + (Print(JObj(inner)) + Rest(outer, false)))
    decreases |[Colon] + (Print(JObj(inner)) + Rest(outer, false))|, 0
  {
    var t := Rest([inner] + outer, true);
    RestObject(inner, outer);
    OpenNext(ctx, stack, t);
    assert Levels([inner] + outer);
    StackBounded(ctx, stack, [inner] + outer, true);
    BoundedStep(ctx, stack, [Colon] + ([LBrace] + t), Go(ctx, stack, t));
  }

  lemma OpenNext(ctx: Context, stack: seq<Elem>, t: Text)
    ensures Next(ctx, stack, [Colon] + ([LBrace] + t)) == Go(ctx, stack, t)
  {
    TokenBehind(Colon, LBrace, t);
  }

  /** Loading any single-object document whose cloud, providers and backends keys hold
      objects keeps the stack in bounds at every token, although closing braces that
      nothing follows are not popped. */
  lemma StackStaysInBounds(ctx: Context, members: seq<Member>)
    requires HoldsObjects(members)
    ensures InBounds(ctx, [Root], Print(JObj(members)))
    ensures LoadText(ctx, Print(JObj(members))) != Crashed
  {
    RestObject(members, []);
    assert Print(JObj(members)) + Rest([], false) == Print(JObj(members));
    assert [members] + [] == [members];
    TokenHere(LBrace, Rest([members], true));
    StackBounded(ctx, [Root], [members], true);
    InBoundsNeverCrashes(ctx, [Root], Print(JObj(members)));
  }

  lemma {:induction false} InBoundsNeverCrashes(ctx: Context, stack: seq<Elem>, t: Text)
    requires InBounds(ctx, stack, t)
    ensures Run(ctx, stack, t) != Crashed
    decreases |t|
  {
    var n := Next(ctx, stack, t);
    if n.Go? {
      InBoundsNeverCrashes(n.ctx, n.stack, n.rest);
    }
  }
}
