// The target context's Load and Save.
module ContextCodec {
  import opened Recipes
  import opened Json
  import opened RecipeText
  import opened CookbookText
  import opened CookbookCodec
  import opened ContextText
  import opened ContextMeaning

  /** The text encodes some value. */
  ghost predicate Encoded(t: Text) {
    exists v :: Print(v) == t
  }

  /** Everything Save writes can be written as it is. */
  ghost predicate Printable(ctx: Context) {
    && (forall n | n in ctx.providers :: EscapeFree(n) && Encoded(ctx.providers[n]))
    && (forall n | n in ctx.backends :: EscapeFree(n) && Encoded(ctx.backends[n]))
    && (forall k | k in ctx.recipes :: EscapeFree(k) && forall i | i in ctx.recipes[k] :: EscapeFree(i))
    && NamedVariables(ctx.recipes) && Encoded(ctx.targets)
  }

  lemma TextAppend(m: map<string, Text>, left: set<string>, ms: seq<Member>, x: Member)
    requires left <= m.Keys && WrittenTexts(m, m.Keys - left, ms) && x.key in left && Print(x.value) == m[x.key]
    ensures WrittenTexts(m, m.Keys - (left - {x.key}), ms + [x])
    ensures PrintMembers(ms + [x], true) == PrintMembers(ms, true) + Sep(ms == []) + ([Str(x.key)] + [Colon] + m[x.key])
  {
    assert (ms + [x])[..|ms|] == ms;
    assert m.Keys - (left - {x.key}) - {x.key} == m.Keys - left;
    PrintMembersAppend(ms, true, x);
    assert [Str(x.key), Colon] == [Str(x.key)] + [Colon];
  }

  /** Write each name and its encoding in the order the map is walked. */
  method WriteTexts(m: map<string, Text>) returns (out: Text, ghost ms: seq<Member>)
    requires forall n | n in m :: EscapeFree(n) && Encoded(m[n])
    ensures WrittenTexts(m, m.Keys, ms) && out == PrintMembers(ms, true)
  {
    out, ms := [], [];
    var i, left := 0, m.Keys;
    assert m.Keys - left == {};
    while left != {}
      invariant left <= m.Keys && i == |ms| && WrittenTexts(m, m.Keys - left, ms)
      invariant out == PrintMembers(ms, true)
    {
      var n :| n in left;
      if i > 0 {
        out := out + [Comma];
      }
      var name := WriteName(n);
      ghost var v :| Print(v) == m[n];
      TextAppend(m, left, ms, Member(n, v));
      out := out + (name + [Colon] + m[n]);
      i, ms, left := i + 1, ms + [Member(n, v)], left - {n};
    }
    assert m.Keys - {} == m.Keys;
  }

  lemma FourMembers(a: Member, b: Member, c: Member, d: Member)
    ensures PrintMembers([a, b, c, d], true)
         == PrintMember(a) + [Comma] + PrintMember(b) + [Comma] + PrintMember(c) + [Comma] + PrintMember(d)
  {
    PrintMembersAppend([], true, a);
    PrintMembersAppend([a], true, b);
    PrintMembersAppend([a, b], true, c);
    PrintMembersAppend([a, b, c], true, d);
    assert [] + [a] == [a] && [a] + [b] == [a, b] && [a, b] + [c] == [a, b, c] && [a, b, c] + [d] == [a, b, c, d];
    assert [] + [] + PrintMember(a) == PrintMember(a);
  }

  lemma FourSectionMembers(ss: seq<Section>)
    requires |ss| == 4
    ensures SectionMembers(ss)
      == [SectionMember(ss[0]), SectionMember(ss[1]), SectionMember(ss[2]), SectionMember(ss[3])]
  {
    assert ss[1..][1..] == ss[2..] && ss[2..][1..] == ss[3..] && ss[3..][1..] == [];
    assert SectionMembers(ss[3..]) == [SectionMember(ss[3])] + SectionMembers([]);
    assert SectionMembers(ss[2..]) == [SectionMember(ss[2])] + SectionMembers(ss[3..]);
    assert SectionMembers(ss[1..]) == [SectionMember(ss[1])] + SectionMembers(ss[2..]);
  }

  lemma Flat(t: Text)
    ensures [LBrace] + ([Str("cloud")] + ([Colon] + ([LBrace] + (t + ([RBrace] + [RBrace])))))
         == [LBrace, Str("cloud"), Colon, LBrace] + t + [RBrace, RBrace]
  {
  }

  lemma DocumentText(ss: seq<Section>)
    ensures Print(ContextDoc(ss))
      == [LBrace, Str("cloud"), Colon, LBrace] + PrintMembers(SectionMembers(ss), true) + [RBrace, RBrace]
  {
    CloudText(ss);
    Flat(PrintMembers(SectionMembers(ss), true));
  }

  /** The members of the cloud object, written one after another. */
  lemma DocumentPieces(ss: seq<Section>, m0: Text, m1: Text, m2: Text, m3: Text)
    requires |ss| == 4
    requires m0 == PrintMember(SectionMember(ss[0])) && m1 == PrintMember(SectionMember(ss[1]))
    requires m2 == PrintMember(SectionMember(ss[2])) && m3 == PrintMember(SectionMember(ss[3]))
    ensures [LBrace, Str("cloud"), Colon, LBrace] + (m0 + [Comma] + m1 + [Comma] + m2 + [Comma] + m3) + [RBrace, RBrace]
         == Print(ContextDoc(ss))
  {
    FourSectionMembers(ss);
    FourMembers(SectionMember(ss[0]), SectionMember(ss[1]), SectionMember(ss[2]), SectionMember(ss[3]));
    DocumentText(ss);
  }

  /** A section of named texts. */
  method WriteObject(key: string, m: map<string, Text>) returns (out: Text, ghost ms: seq<Member>)
    requires forall n | n in m :: EscapeFree(n) && Encoded(m[n])
    ensures WrittenTexts(m, m.Keys, ms) && out == PrintMember(Member(key, JObj(ms)))
  {
    var t;
    t, ms := WriteTexts(m);
    ObjectMemberPieces(key, ms);
    out := [Str(key), Colon, LBrace] + t + [RBrace];
  }

  /** Write the context: providers, backends, recipes, targets. */
  method SaveContext(ctx: Context) returns (out: Text, ghost ss: seq<Section>)
    requires Printable(ctx)
    ensures SavedAs(ctx, ss) && out == Print(ContextDoc(ss))
  {
    var providers, pms := WriteObject("providers", ctx.providers);
    var backends, bms := WriteObject("backends", ctx.backends);
    var book, es := MarshalBook(ctx.recipes);
    ghost var v :| Print(v) == ctx.targets;
    var recipes := [Str("recipes"), Colon] + book;
    var targets := [Str("targets"), Colon] + ctx.targets;
    ss := [ProviderSection(pms), BackendSection(bms), RecipeSection(EntriesOf(es)), TargetSection(v)];
    assert recipes == PrintMember(SectionMember(ss[2])) && targets == PrintMember(SectionMember(ss[3]));
    DocumentPieces(ss, providers, backends, recipes, targets);
    out := [LBrace, Str("cloud"), Colon, LBrace]
      + (providers + [Comma] + backends + [Comma] + recipes + [Comma] + targets) + [RBrace, RBrace];
  }
}
