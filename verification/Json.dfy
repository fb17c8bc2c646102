// JSON documents as values and as lexemes, and the decoder that reads them.
module Json {
  import opened Recipes

  /** The lexemes of section 2 of RFC 8259; white space is dropped. */
  datatype Lex = LBrace | RBrace | LBracket | RBracket | Comma | Colon | Str(s: string) | Num(n: int) | Bool(b: bool)
    | Null

  datatype Value =
    | JNull
    | JBool(b: bool)
    | JNum(n: int)
    | JStr(s: string)
    | JArr(items: seq<Value>)
    | JObj(members: seq<Member>)

  datatype Member = Member(key: string, value: Value)

  type Text = seq<Lex>

  // ---- printing ----

  function Print(v: Value): (t: Text)
    ensures t != [] && t[0] !in {RBrace, RBracket, Comma, Colon}
    decreases v, 0
  {
    match v
    case JNull => [Null]
    case JBool(b) => [Bool(b)]
    case JNum(n) => [Num(n)]
    case JStr(s) => [Str(s)]
    case JArr(items) => [LBracket] + PrintItems(items, true) + [RBracket]
    case JObj(members) => [LBrace] + PrintMembers(members, true) + [RBrace]
  }

  /** A comma stands in front of every element but the first. */
  function Sep(first: bool): Text { if first then [] else [Comma] }

  function PrintItems(items: seq<Value>, first: bool): Text
    decreases items, 1
  {
    if items == [] then [] else Sep(first) + Print(items[0]) + PrintItems(items[1..], false)
  }

  function PrintMember(m: Member): (t: Text)
    ensures |t| > 2 && t[0] == Str(m.key) && t[1] == Colon && t[2..] == Print(m.value)
    decreases m, 1
  {
    [Str(m.key), Colon] + Print(m.value)
  }

  function PrintMembers(members: seq<Member>, first: bool): Text
    decreases members, 2
  {
    if members == [] then [] else Sep(first) + PrintMember(members[0]) + PrintMembers(members[1..], false)
  }

  lemma Assoc(a: Text, b: Text, c: Text)
    ensures a + (b + c) == a + b + c
  {
  }

  lemma TailOfAppend<T>(s: seq<T>, x: T)
    ensures s == [] ==> s + [x] == [x] && [x][1..] == []
    ensures s != [] ==> (s + [x])[0] == s[0] && (s + [x])[1..] == s[1..] + [x]
  {
  }

  /** Writing one more element behind those already written. */
  lemma {:induction false} PrintItemsAppend(items: seq<Value>, first: bool, x: Value)
    ensures PrintItems(items + [x], first) == PrintItems(items, first) + Sep(first && items == []) + Print(x)
  {
    TailOfAppend(items, x);
    if items != [] {
      PrintItemsAppend(items[1..], false, x);
      var a, b := Sep(first) + Print(items[0]), PrintItems(items[1..], false);
      Assoc(a, b + Sep(false), Print(x));
      Assoc(a, b, Sep(false));
    }
  }

  lemma {:induction false} PrintMembersAppend(members: seq<Member>, first: bool, x: Member)
    ensures PrintMembers(members + [x], first)
      == PrintMembers(members, first) + Sep(first && members == []) + PrintMember(x)
  {
    TailOfAppend(members, x);
    if members != [] {
      PrintMembersAppend(members[1..], false, x);
      var a, b := Sep(first) + PrintMember(members[0]), PrintMembers(members[1..], false);
      Assoc(a, b + Sep(false), PrintMember(x));
      Assoc(a, b, Sep(false));
    }
  }

  // ---- reading ----

  /** decoder.More: the next lexeme exists and closes nothing. */
  predicate More(t: Text) {
    t != [] && t[0] != RBrace && t[0] != RBracket
  }

  /** Separators are not tokens. */
  function Skip(t: Text): (r: Text)
    ensures |r| <= |t|
  {
    if t != [] && (t[0] == Comma || t[0] == Colon) then t[1..] else t
  }

  function Nest(l: Lex, depth: nat): nat
    requires depth > 0
  {
    if l in {LBrace, LBracket} then depth + 1 else if l in {RBrace, RBracket} then depth - 1 else depth
  }

  function Plus(n: Option<nat>, k: nat): Option<nat> {
    match n case None => None case Some(m) => Some(m + k)
  }

  /** How many lexemes it takes to get from `depth` open brackets to none. */
  function Close(t: Text, depth: nat): (n: Option<nat>)
    ensures n.Some? ==> n.value <= |t|
  {
    if depth == 0 then Some(0)
    else if t == [] then None
    else Plus(Close(t[1..], Nest(t[0], depth)), 1)
  }

  /** The length of the value that starts the text. */
  function ValueLength(t: Text): (n: Option<nat>)
    ensures n.Some? ==> 0 < n.value <= |t|
  {
    if t == [] || t[0] in {RBrace, RBracket, Comma, Colon} then None
    else Plus(Close(t[1..], if t[0] in {LBrace, LBracket} then 1 else 0), 1)
  }

  function NextToken(t: Text): Option<Lex> {
    var u := Skip(t); if u == [] then None else Some(u[0])
  }

  function AfterToken(t: Text): (r: Text)
    ensures |r| <= |t| && (t != [] ==> |r| < |t|)
  {
    var u := Skip(t); if u == [] then [] else u[1..]
  }

  /** The text of the next value. */
  function NextValue(t: Text): Option<Text> {
    var n := ValueLength(Skip(t)); if n.None? then None else Some(Skip(t)[..n.value])
  }

  function AfterValue(t: Text): (r: Text)
    requires NextValue(t).Some?
    ensures |r| < |t|
  {
    Skip(t)[ValueLength(Skip(t)).value..]
  }

  lemma HeadTail(l: Lex, rest: Text)
    ensures ([l] + rest)[0] == l && ([l] + rest)[1..] == rest
  {
  }

  lemma TokenHere(l: Lex, rest: Text)
    requires l != Comma && l != Colon
    ensures var t := [l] + rest;
      NextToken(t) == Some(l) && AfterToken(t) == rest && (More(t) <==> l != RBrace && l != RBracket)
  {
    HeadTail(l, rest);
  }

  lemma TokenBehind(sep: Lex, l: Lex, rest: Text)
    requires sep in {Comma, Colon} && l != Comma && l != Colon
    ensures var t := [sep] + ([l] + rest); NextToken(t) == Some(l) && AfterToken(t) == rest && More(t)
  {
    HeadTail(sep, [l] + rest);
    HeadTail(l, rest);
  }

  /** No value starts with a lexeme that closes one. */
  lemma NoValueHere(l: Lex, rest: Text)
    requires l in {RBrace, RBracket}
    ensures NextValue([l] + rest) == None && NextValue([Comma] + ([l] + rest)) == None
  {
    HeadTail(l, rest);
    HeadTail(Comma, [l] + rest);
  }

  /** How deep a text ends, unless it closes all open brackets on the way. */
  function Depth(t: Text, depth: nat): Option<nat> {
    if depth == 0 then None
    else if t == [] then Some(depth)
    else Depth(t[1..], Nest(t[0], depth))
  }

  lemma {:induction false} DepthConcat(a: Text, b: Text, depth: nat)
    ensures Depth(a + b, depth) == if Depth(a, depth).Some? then Depth(b, Depth(a, depth).value) else None
  {
    if a == [] {
      assert a + b == b;
    } else if depth > 0 {
      assert (a + b)[1..] == a[1..] + b;
      DepthConcat(a[1..], b, Nest(a[0], depth));
    }
  }

  lemma {:induction false} CloseConcat(a: Text, b: Text, depth: nat)
    requires Depth(a, depth).Some?
    ensures Close(a + b, depth) == Plus(Close(b, Depth(a, depth).value), |a|)
  {
    if a == [] {
      assert a + b == b;
    } else {
      assert (a + b)[1..] == a[1..] + b;
      CloseConcat(a[1..], b, Nest(a[0], depth));
    }
  }

  lemma DepthOne(l: Lex, depth: nat)
    requires depth > 0 && Nest(l, depth) > 0
    ensures Depth([l], depth) == Some(Nest(l, depth))
  {
    assert [l][1..] == [];
  }

  lemma DepthSep(first: bool, depth: nat)
    requires depth > 0
    ensures Depth(Sep(first), depth) == Some(depth)
  {
    if !first { DepthOne(Comma, depth); }
  }

  /** A printed value leaves the nesting as it found it. */
  lemma {:induction false} ValueKeepsDepth(v: Value, depth: nat)
    requires depth > 0
    ensures Depth(Print(v), depth) == Some(depth)
    decreases v, 0
  {
    match v {
      case JArr(items) =>
        ItemsKeepDepth(items, true, depth + 1);
        Enclosed(LBracket, PrintItems(items, true), RBracket, depth);
      case JObj(members) =>
        MembersKeepDepth(members, true, depth + 1);
        Enclosed(LBrace, PrintMembers(members, true), RBrace, depth);
      case _ => DepthOne(Print(v)[0], depth);
    }
  }

  lemma Enclosed(open: Lex, inner: Text, close: Lex, depth: nat)
    requires depth > 0 && Depth(inner, depth + 1) == Some(depth + 1)
    requires open in {LBrace, LBracket} && close in {RBrace, RBracket}
    ensures Depth([open] + inner + [close], depth) == Some(depth)
  {
    DepthOne(open, depth);
    DepthOne(close, depth + 1);
    DepthConcat([open], inner, depth);
    DepthConcat([open] + inner, [close], depth);
  }

  lemma {:induction false} ItemsKeepDepth(items: seq<Value>, first: bool, depth: nat)
    requires depth > 0
    ensures Depth(PrintItems(items, first), depth) == Some(depth)
    decreases items, 1
  {
    if items != [] {
      DepthSep(first, depth);
      ValueKeepsDepth(items[0], depth);
      ItemsKeepDepth(items[1..], false, depth);
      DepthConcat(Sep(first), Print(items[0]), depth);
      DepthConcat(Sep(first) + Print(items[0]), PrintItems(items[1..], false), depth);
    }
  }

  lemma MemberKeepsDepth(m: Member, depth: nat)
    requires depth > 0 && Depth(Print(m.value), depth) == Some(depth)
    ensures Depth(PrintMember(m), depth) == Some(depth)
  {
    DepthOne(Str(m.key), depth);
    DepthOne(Colon, depth);
    DepthConcat([Str(m.key)], [Colon], depth);
    assert [Str(m.key)] + [Colon] == [Str(m.key), Colon];
    DepthConcat([Str(m.key), Colon], Print(m.value), depth);
  }

  lemma {:induction false} MembersKeepDepth(members: seq<Member>, first: bool, depth: nat)
    requires depth > 0
    ensures Depth(PrintMembers(members, first), depth) == Some(depth)
    decreases members, 1
  {
    if members != [] {
      DepthSep(first, depth);
      ValueKeepsDepth(members[0].value, depth);
      MemberKeepsDepth(members[0], depth);
      MembersKeepDepth(members[1..], false, depth);
      DepthConcat(Sep(first), PrintMember(members[0]), depth);
      DepthConcat(Sep(first) + PrintMember(members[0]), PrintMembers(members[1..], false), depth);
    }
  }

  lemma CloseLast(close: Lex, rest: Text)
    requires close in {RBrace, RBracket}
    ensures Close([close] + rest, 1) == Some(1)
  {
    HeadTail(close, rest);
  }

  lemma OpenedLength(open: Lex, t: Text)
    requires open in {LBrace, LBracket}
    ensures ValueLength([open] + t) == Plus(Close(t, 1), 1)
  {
    HeadTail(open, t);
  }

  lemma BracketedLength(open: Lex, inner: Text, close: Lex, rest: Text)
    requires Depth(inner, 1) == Some(1)
    requires open in {LBrace, LBracket} && close in {RBrace, RBracket}
    ensures ValueLength([open] + inner + [close] + rest) == Some(|inner| + 2)
  {
    OpenedLength(open, inner + ([close] + rest));
    CloseConcat(inner, [close] + rest, 1);
    CloseLast(close, rest);
    Bracketed(open, inner, close, rest);
  }

  lemma Bracketed(open: Lex, inner: Text, close: Lex, rest: Text)
    ensures [open] + inner + [close] + rest == [open] + (inner + ([close] + rest))
  {
    Assoc([open] + inner, [close], rest);
    Assoc([open], inner, [close] + rest);
  }

  /** The decoder takes a printed value as a whole and leaves what follows it. */
  lemma ValueTaken(v: Value, rest: Text)
    ensures ValueLength(Print(v) + rest) == Some(|Print(v)|)
    ensures (Print(v) + rest)[..|Print(v)|] == Print(v) && (Print(v) + rest)[|Print(v)|..] == rest
  {
    match v {
      case JArr(items) =>
        ItemsKeepDepth(items, true, 1);
        BracketedLength(LBracket, PrintItems(items, true), RBracket, rest);
      case JObj(members) =>
        MembersKeepDepth(members, true, 1);
        BracketedLength(LBrace, PrintMembers(members, true), RBrace, rest);
      case _ =>
    }
  }

  /** A value is taken whether or not a separator stands in front of it. */
  lemma ReadValueAt(v: Value, first: bool, rest: Text)
    ensures var t := Sep(first) + Print(v) + rest;
      More(t) && NextValue(t) == Some(Print(v)) && AfterValue(t) == rest
  {
    Assoc(Sep(first), Print(v), rest);
    ValueTaken(v, rest);
    if first { assert Sep(first) + (Print(v) + rest) == Print(v) + rest; } else { HeadTail(Comma, Print(v) + rest); }
  }

  lemma ReadValueAfterKey(v: Value, rest: Text)
    ensures var t := [Colon] + (Print(v) + rest);
      More(t) && NextValue(t) == Some(Print(v)) && AfterValue(t) == rest
  {
    ValueTaken(v, rest);
    HeadTail(Colon, Print(v) + rest);
  }

  /** Names are written between quotation marks as they are, which is a JSON string only
      if nothing in them needs the escapes of section 7 of RFC 8259. */
  predicate EscapeFree(s: string) {
    forall c | c in s :: c >= ' ' && c != '\"' && c != '\\'
  }

  // ---- the decoder ----

  lemma CloseStep(t: Text, i: nat, depth: nat, before: Option<nat>)
    requires depth > 0 && i < |t| && before == Plus(Close(t[i..], depth), i)
    ensures before == Plus(Close(t[i + 1..], Nest(t[i], depth)), i + 1)
  {
    assert t[i..][0] == t[i] && t[i..][1..] == t[i + 1..];
  }

  /** Scan one value, keeping count of the open brackets. */
  method ScanValue(t: Text) returns (n: Option<nat>)
    ensures n == ValueLength(t)
  {
    if t == [] || t[0] in {RBrace, RBracket, Comma, Colon} {
      return None;
    }
    var depth: nat := if t[0] in {LBrace, LBracket} then 1 else 0;
    var i := 1;
    ghost var length := ValueLength(t);
    while depth > 0 && i < |t|
      invariant 1 <= i <= |t|
      invariant length == Plus(Close(t[i..], depth), i)
      decreases |t| - i
    {
      CloseStep(t, i, depth, length);
      depth, i := Nest(t[i], depth), i + 1;
    }
    n := if depth == 0 then Some(i) else None;
  }

  class Decoder {
    const input: Text
    var pos: nat

    ghost predicate Valid()
      reads this
    {
      pos <= |input|
    }

    function Rest(): Text
      requires Valid()
      reads this
    {
      input[pos..]
    }

    constructor (input: Text)
      ensures Valid() && Rest() == input
    {
      this.input, pos := input, 0;
    }

    method HasMore() returns (more: bool)
      requires Valid()
      ensures more == More(Rest())
    {
      more := pos < |input| && input[pos] != RBrace && input[pos] != RBracket;
    }

    method SkipSeparator()
      requires Valid()
      modifies this
      ensures Valid() && Rest() == Skip(old(Rest()))
    {
      if pos < |input| && (input[pos] == Comma || input[pos] == Colon) {
        pos := pos + 1;
      }
    }

    /** The next token, or None at the end of the input. */
    method Token() returns (token: Option<Lex>)
      requires Valid()
      modifies this
      ensures Valid()
      ensures token == NextToken(old(Rest())) && Rest() == AfterToken(old(Rest()))
    {
      SkipSeparator();
      if pos == |input| {
        return None;
      }
      token := Some(input[pos]);
      pos := pos + 1;
    }

    /** Broken text ends all reading. */
    method Stop()
      requires Valid()
      modifies this
      ensures Valid() && Rest() == []
    {
      pos := |input|;
    }

    /** The text of the next value, to be handed to an unmarshaler. */
    method Decode() returns (raw: Option<Text>)
      requires Valid()
      modifies this
      ensures Valid()
      ensures raw == NextValue(old(Rest()))
      ensures raw.Some? ==> Rest() == AfterValue(old(Rest()))
    {
      SkipSeparator();
      var n := ScanValue(input[pos..]);
      if n.None? {
        return None;
      }
      raw := Some(input[pos..][..n.value]);
      assert input[pos..][n.value..] == input[pos + n.value..];
      pos := pos + n.value;
    }
  }
}
