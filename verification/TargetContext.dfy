// The target context object: Load drives the element stack, Save writes the document.
module TargetContexts {
  import opened Recipes
  import opened Json
  import opened CookbookText
  import opened CookbookCodec
  import opened ContextText
  import opened ContextMeaning
  import opened ContextCodec
  import opened Cookbooks

  datatype LoadResult = Success | Error | Panic

  class TargetContext {
    const cookbook: Cookbook
    var providers: map<string, Text>
    var backends: map<string, Text>
    var targets: Text

    constructor (cookbook: Cookbook, providers: map<string, Text>, backends: map<string, Text>, targets: Text)
      ensures State() == Context(providers, backends, cookbook.recipes, targets) && this.cookbook == cookbook
    {
      this.cookbook, this.providers, this.backends, this.targets := cookbook, providers, backends, targets;
    }

    function State(): Context
      reads this, cookbook
    {
      Context(providers, backends, cookbook.recipes, targets)
    }

    /** Decode what follows a key; `pushed` is the element the key opens, if it opens one. */
    method ReadKey(d: Decoder, top: Elem, key: string) returns (ok: bool, pushed: Option<Elem>)
      requires d.Valid()
      modifies this, cookbook`recipes, d
      ensures d.Valid()
      ensures forall stack | stack != [] && stack[|stack| - 1] == top ::
        match KeyTurn(old(State()), stack, top, key, old(d.Rest()))
        case End(r) => !ok && r == None
        case Crash => false
        case Go(c, s, rest) =>
          ok && State() == c && d.Rest() == rest && s == (if pushed.Some? then stack + [pushed.value] else stack)
    {
      pushed := None;
      if top == Root {
        pushed := Some(Cloud);
        return key == "cloud", pushed;
      }
      if top == Cloud && (key == "providers" || key == "backends") {
        return true, Some(if key == "providers" then Providers else Backends);
      }
      if top == Cloud && key != "recipes" && key != "targets" {
        return false, None;
      }
      var raw := d.Decode();
      if raw.None? {
        return false, None;
      }
      if top == Providers {
        if key in providers {
          providers := providers[key := raw.value];
        }
      } else if top == Backends {
        if key in backends {
          backends := backends[key := raw.value];
        }
      } else if key == "targets" {
        targets := raw.value;
      } else {
        var r := UnmarshalBook(cookbook.recipes, raw.value);
        if r.None? {
          return false, None;
        }
        cookbook.recipes := r.value;
      }
      ok := true;
    }

    /** The token loop; a token counts only if more follows it. */
    method Load(input: Text) returns (result: LoadResult)
      modifies this, cookbook`recipes
      ensures match LoadText(old(State()), input)
        case Loaded(ctx) => result == Success && State() == ctx
        case Failed => result == Error
        case Crashed => result == Panic
    {
      var d := new Decoder(input);
      var stack := [Root];
      ghost var start := State();
      while true
        invariant fresh(d) && d.Valid() && Run(State(), stack, d.Rest()) == LoadText(start, input)
        decreases |d.Rest()|
      {
        ghost var ctx, t := State(), d.Rest();
        var token := d.Token();
        if token == None {
          return Success;
        }
        var more := d.HasMore();
        if more {
          var top := |stack| - 1;
          if token.value == RBrace {
            if top < 0 {
              return Panic;
            }
            stack := stack[..top];
          } else if token.value.Str? {
            if top < 0 {
              return Panic;
            }
            assert Next(ctx, stack, t) == KeyTurn(ctx, stack, stack[top], token.value.s, d.Rest());
            var ok, pushed := ReadKey(d, stack[top], token.value.s);
            if !ok {
              return Error;
            }
            if pushed.Some? {
              stack := stack + [pushed.value];
            }
          }
        }
      }
    }

    /** Write the context, in whatever order its maps are walked. */
    method Save() returns (out: Text, ghost ss: seq<Section>)
      requires Printable(State())
      ensures SavedAs(State(), ss) && out == Print(ContextDoc(ss))
    {
      out, ss := SaveContext(State());
    }
  }

  /** What Save writes, Load restores: into a context with the same templates and the same
      recipes, none of them set, it brings back everything that was saved. */
  method SaveAndLoad(saved: TargetContext, other: TargetContext) returns (result: LoadResult)
    requires saved.cookbook != other.cookbook && saved != other && Printable(saved.State())
    requires other.providers.Keys == saved.providers.Keys && other.backends.Keys == saved.backends.Keys
    requires FreshOf(other.cookbook.recipes, saved.cookbook.recipes)
    modifies other, other.cookbook`recipes
    ensures result == Success && other.State() == old(saved.State()) && saved.State() == old(saved.State())
  {
    var out, ss := saved.Save();
    SaveThenLoad(other.State(), saved.State(), ss);
    result := other.Load(out);
  }
}
