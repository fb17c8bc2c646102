// The Terraform runner: argument lists and the plan file.
module Runners {
  import opened Ordering
  import opened Recipes
  import PlanTrace

  /** Input name to "is optional". */
  type Inputs = map<string, bool>

  /** The arguments a plan accepts: all of them known, and every required input among them. */
  ghost predicate Accepted(inputs: Inputs, args: map<string, string>) {
    && (forall k | k in args :: k in inputs)
    && (forall n | n in inputs && !inputs[n] :: n in args)
  }

  /** One `-var name=value` pair per argument, in the given order. */
  function VarPairs(args: map<string, string>, order: seq<string>): seq<string> {
    if order == [] then []
    else
      var k := order[|order| - 1];
      VarPairs(args, order[..|order| - 1]) + if k in args then ["-var", k + "=" + args[k]] else []
  }

  /** The pairs stand in walk order, and each argument has exactly one. */
  lemma {:induction false} VarPairsExact(args: map<string, string>, order: seq<string>, keys: set<string>)
    requires keys <= args.Keys && Enumerates(order, keys)
    ensures var p := VarPairs(args, order);
      && |p| == 2 * |order| && |order| == |keys|
      && forall i | 0 <= i < |order| ::
        order[i] in keys && p[2 * i] == "-var" && p[2 * i + 1] == order[i] + "=" + args[order[i]]
    ensures Distinct(order) && forall k :: k in order <==> k in keys
  {
    EnumeratesMembers(order, keys);
    if order != [] {
      var rest, k := order[..|order| - 1], order[|order| - 1];
      VarPairsExact(args, rest, keys - {k});
      LastPair(VarPairs(args, rest), rest, args, k);
      assert order == rest + [k];
    }
  }

  lemma LastPair(p: seq<string>, order: seq<string>, args: map<string, string>, k: string)
    requires |p| == 2 * |order| && k in args
    requires forall i | 0 <= i < |order| ::
      order[i] in args && p[2 * i] == "-var" && p[2 * i + 1] == order[i] + "=" + args[order[i]]
    ensures var q, o := p + ["-var", k + "=" + args[k]], order + [k];
      forall i | 0 <= i < |o| :: o[i] in args && q[2 * i] == "-var" && q[2 * i + 1] == o[i] + "=" + args[o[i]]
  {
    var q := p + ["-var", k + "=" + args[k]];
    assert q[2 * |order|] == "-var" && q[2 * |order| + 1] == k + "=" + args[k];
  }

  class Runner {
    const configPath: string
    const planPath: string
    const configInputs: Inputs
    var plan: Option<nat>
    var next: nat
    var trace: seq<PlanTrace.Event>

    constructor (configPath: string, planPath: string, configInputs: Inputs)
      ensures State() == PlanTrace.Initial && this.configInputs == configInputs
      ensures this.configPath == configPath && this.planPath == planPath
    {
      this.configPath, this.planPath, this.configInputs := configPath, planPath, configInputs;
      plan, next, trace := None, 0, [];
    }

    function State(): PlanTrace.State
      reads this
    {
      PlanTrace.State(plan, next, trace)
    }

    function PlanPrefix(): seq<string> {
      [configPath, "plan", "-input=false", "-out=" + planPath]
    }

    /** The plan command, without input, to the plan file, with a -var for each argument. */
    ghost predicate IsPlanCommand(argv: seq<string>, args: map<string, string>, order: seq<string>) {
      && |argv| == 4 + 2 * |order| && |order| == |args| && (forall k :: k in order <==> k in args)
      && argv[0] == configPath && argv[1] == "plan" && argv[2] == "-input=false" && argv[3] == "-out=" + planPath
      && forall i | 0 <= i < |order| :: argv[4 + 2 * i] == "-var" && argv[5 + 2 * i] == order[i] + "=" + args[order[i]]
    }

    lemma PlanCommand(args: map<string, string>, order: seq<string>)
      requires Enumerates(order, args.Keys)
      ensures IsPlanCommand(PlanPrefix() + VarPairs(args, order), args, order)
    {
      VarPairsExact(args, order, args.Keys);
      var p, v := PlanPrefix(), VarPairs(args, order);
      forall i | 0 <= i < |order|
        ensures (p + v)[4 + 2 * i] == "-var" && (p + v)[5 + 2 * i] == order[i] + "=" + args[order[i]]
      {
        assert (p + v)[4 + 2 * i] == v[2 * i] && (p + v)[5 + 2 * i] == v[2 * i + 1];
      }
    }

    /** The required inputs, collected by a walk of the inputs. */
    method Required() returns (required: set<string>)
      ensures required == set n | n in configInputs && !configInputs[n]
    {
      required := {};
      var left := configInputs.Keys;
      while left != {}
        invariant left <= configInputs.Keys
        invariant required == set n | n in configInputs && n !in left && !configInputs[n]
      {
        var name :| name in left;
        if !configInputs[name] {
          required := required + {name};
        }
        left := left - {name};
      }
    }

    /** Append the arguments in walk order, striking each off the required inputs. */
    method PrepareArgList(args: map<string, string>, prefix: seq<string>)
      returns (argList: Option<seq<string>>, ghost order: seq<string>)
      ensures argList.Some? <==> Accepted(configInputs, args)
      ensures argList.Some? <==>
        (forall k | k in args :: k in configInputs) && forall n | n in configInputs && !configInputs[n] :: n in args
      ensures argList.Some? ==> Enumerates(order, args.Keys) && argList.value == prefix + VarPairs(args, order)
    {
      var required := Required();
      ghost var all := required;
      var list, left := prefix, args.Keys;
      order := [];
      while left != {}
        invariant Walking(order, args.Keys, left)
        invariant list == prefix + VarPairs(args, order)
        invariant forall k | k in args && k !in left :: k in configInputs
        invariant required == set n | n in all && (n !in args || n in left)
      {
        var k :| k in left;
        if k !in configInputs {
          return None, [];
        }
        WalkNext(order, args.Keys, left, k);
        assert (order + [k])[..|order|] == order;
        list := list + ["-var"] + [k + "=" + args[k]];
        required := required - {k};
        order, left := order + [k], left - {k};
      }
      WalkEnds(order, args.Keys);
      if required != {} {
        var missing :| missing in required;
        return None, [];
      }
      assert forall n | n in all :: n in args;
      argList := Some(list);
    }

    /** Run `terraform plan` if the arguments are accepted; it may fail. */
    method Plan(args: map<string, string>) returns (err: bool, ghost call: PlanTrace.Call, ghost order: seq<string>)
      modifies this`plan, this`next, this`trace
      ensures call.Plan? && State() == PlanTrace.Step(old(State()), call)
      ensures call.argv.Some? <==> Accepted(configInputs, args)
      ensures call.argv.Some? ==> Enumerates(order, args.Keys)
      ensures call.argv.Some? ==> call.argv.value == PlanPrefix() + VarPairs(args, order)
      ensures call.argv.Some? ==> IsPlanCommand(call.argv.value, args, order)
      ensures err <==> call.argv.None? || !call.ok
    {
      var argList;
      argList, order := PrepareArgList(args, PlanPrefix());
      var ok: bool := *;
      call := PlanTrace.Plan(argList, ok);
      err := argList.None? || !ok;
      if argList.Some? {
        PlanCommand(args, order);
        trace := trace + [PlanTrace.Planned(next, ok, argList.value)];
        if ok {
          plan, next := Some(next), next + 1;
        }
      }
    }

    /** os.RemoveAll on the plan file; its error is ignored. */
    method RemovePlan() returns (ghost removes: bool)
      modifies this`plan, this`trace
      ensures State() == PlanTrace.Remove(old(State()), removes)
    {
      var ok: bool := *;
      removes := ok;
      if plan.Some? {
        if ok {
          plan := None;
        } else {
          trace := trace + [PlanTrace.RemoveFailed];
        }
      }
    }

    /** Run `terraform output`; the command or the decoding of what it prints may fail. */
    method GetOutput() returns (ok: bool)
      modifies this`trace
      ensures trace == old(trace) + [PlanTrace.Outputs(ok)]
    {
      ok := *;
      trace := trace + [PlanTrace.Outputs(ok)];
    }

    /** Apply the plan file, writing one first if there is none. */
    method Apply(args: map<string, string>) returns (err: bool, ghost call: PlanTrace.Call)
      modifies this`plan, this`next, this`trace
      ensures call.Apply? && State() == PlanTrace.Step(old(State()), call)
      ensures call.stat && old(plan).None? ==> (call.argv.Some? <==> Accepted(configInputs, args))
      ensures call.argv.Some? ==>
        exists order :: Enumerates(order, args.Keys) && call.argv.value == PlanPrefix() + VarPairs(args, order)
      ensures err <==> !(call.applyOk && call.outputsOk)
    {
      var stat: bool := *;
      call := PlanTrace.Apply(false, None, false, false, false, true);
      if !stat {
        return true, call;
      }
      ghost var planned := PlanTrace.Plan(None, true);
      if plan.None? {
        ghost var order;
        err, planned, order := Plan(args);
        if err {
          return true, PlanTrace.Apply(true, planned.argv, planned.ok, false, false, true);
        }
      }
      var ok: bool := *;
      trace := trace + [PlanTrace.Applied(plan.value, ok)];
      var outputsOk := false;
      if ok {
        outputsOk := GetOutput();
      }
      ghost var removes := RemovePlan();
      return !outputsOk, PlanTrace.Apply(true, planned.argv, planned.ok, ok, outputsOk, removes);
    }

    /** Remove the plan, then taint the resources in turn up to the first failure. */
    method Taint(resources: seq<string>) returns (err: bool, ghost call: PlanTrace.Call)
      modifies this`plan, this`trace
      ensures call.Taint? && call.resources == resources && State() == PlanTrace.Step(old(State()), call)
      ensures err <==> call.succeeded < |resources|
    {
      ghost var removes := RemovePlan();
      trace := trace + [PlanTrace.TaintCalled];
      ghost var before := State();
      var i := 0;
      while i < |resources|
        invariant i <= |resources| && State() == PlanTrace.TaintFirst(before, resources, i)
      {
        var ok: bool := *;
        trace := trace + [PlanTrace.Tainted(resources[i], ok)];
        if !ok {
          return true, PlanTrace.Taint(resources, i, removes);
        }
        i := i + 1;
      }
      return false, PlanTrace.Taint(resources, i, removes);
    }

    /** Remove the plan, then destroy everything. */
    method Destroy() returns (err: bool, ghost call: PlanTrace.Call)
      modifies this`plan, this`trace
      ensures call.Destroy? && State() == PlanTrace.Step(old(State()), call)
      ensures err <==> !call.ok
    {
      ghost var removes := RemovePlan();
      var ok: bool := *;
      trace := trace + [PlanTrace.Destroyed(ok)];
      return !ok, PlanTrace.Destroy(ok, removes);
    }
  }
}
