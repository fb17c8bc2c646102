// The life of the plan file over every sequence of runner calls.
module PlanTrace {
  import opened Recipes

  type Argv = seq<string>

  /** What the runner did, in order: terraform commands with their outcome, calls of Taint,
      and removals of an existing plan file that failed. */
  datatype Event =
    | Planned(id: nat, ok: bool, argv: Argv)
    | Applied(id: nat, ok: bool)
    | Outputs(ok: bool)
    | TaintCalled
    | Tainted(resource: string, ok: bool)
    | Destroyed(ok: bool)
    | RemoveFailed

  /** `plan` identifies the plan the file holds; each successful plan writes a new one. */
  datatype State = State(plan: Option<nat>, next: nat, trace: seq<Event>)

  const Initial := State(None, 0, [])

  /** A call together with everything outside the runner that decides how it goes.
      `argv` is None when the arguments are rejected, `stat` is false when the plan file
      can not be examined, `removes` is false when removing the file fails. */
  datatype Call =
    | Plan(argv: Option<Argv>, ok: bool)
    | Apply(stat: bool, argv: Option<Argv>, planOk: bool, applyOk: bool, outputsOk: bool, removes: bool)
    | Taint(resources: seq<string>, succeeded: nat, removes: bool)
    | Destroy(ok: bool, removes: bool)

  function Log(s: State, e: Event): State { s.(trace := s.trace + [e]) }

  /** A failing plan command leaves the plan file as it was. */
  function PlanStep(s: State, argv: Option<Argv>, ok: bool): State {
    if argv.None? then s
    else if ok then Log(s.(plan := Some(s.next), next := s.next + 1), Planned(s.next, true, argv.value))
    else Log(s, Planned(s.next, false, argv.value))
  }

  function Remove(s: State, works: bool): State {
    if s.plan.None? then s else if works then s.(plan := None) else Log(s, RemoveFailed)
  }

  /** The apply command, and after a successful one the command that prints the outputs. */
  function ApplyPlan(s: State, id: nat, applyOk: bool, outputsOk: bool): State {
    var a := Log(s, Applied(id, applyOk));
    if applyOk then Log(a, Outputs(outputsOk)) else a
  }

  function ApplyStep(s: State, stat: bool, argv: Option<Argv>, planOk: bool, applyOk: bool, outputsOk: bool,
                     removes: bool): State {
    if !stat then s
    else
      var p := if s.plan.None? then PlanStep(s, argv, planOk) else s;
      if p.plan.None? then p else Remove(ApplyPlan(p, p.plan.value, applyOk, outputsOk), removes)
  }

  /** The first n resources tainted in turn. */
  function TaintFirst(s: State, resources: seq<string>, n: nat): State
    requires n <= |resources|
  {
    if n == 0 then s else Log(TaintFirst(s, resources, n - 1), Tainted(resources[n - 1], true))
  }

  /** Taint the resources in turn up to the first that fails. */
  function TaintAll(s: State, resources: seq<string>, succeeded: nat): State {
    if succeeded < |resources|
    then Log(TaintFirst(s, resources, succeeded), Tainted(resources[succeeded], false))
    else TaintFirst(s, resources, |resources|)
  }

  function Step(s: State, c: Call): State {
    match c
    case Plan(argv, ok) => PlanStep(s, argv, ok)
    case Apply(stat, argv, planOk, applyOk, outputsOk, removes) =>
      ApplyStep(s, stat, argv, planOk, applyOk, outputsOk, removes)
    case Taint(resources, succeeded, removes) => TaintAll(Log(Remove(s, removes), TaintCalled), resources, succeeded)
    case Destroy(ok, removes) => Log(Remove(s, removes), Destroyed(ok))
  }

  /** A removal that fails is logged if there was a plan. */
  function RemovalOf(s: State, works: bool): seq<Event> {
    if s.plan.Some? && !works then [RemoveFailed] else []
  }

  lemma PlanEvents(s: State, argv: Option<Argv>, ok: bool)
    ensures var r := Step(s, Plan(argv, ok));
      && r.trace == s.trace + (if argv.Some? then [Planned(s.next, ok, argv.value)] else [])
      && r.plan == (if argv.Some? && ok then Some(s.next) else s.plan)
      && r.next == (if argv.Some? && ok then s.next + 1 else s.next)
  {
  }

  lemma DestroyEvents(s: State, ok: bool, removes: bool)
    ensures var r := Step(s, Destroy(ok, removes));
      && r.trace == s.trace + RemovalOf(s, removes) + [Destroyed(ok)]
      && r.plan == (if removes then None else s.plan) && r.next == s.next
  {
  }

  lemma {:induction false} TaintedInTurn(s: State, resources: seq<string>, n: nat)
    requires n <= |resources|
    ensures var r := TaintFirst(s, resources, n);
      && r.plan == s.plan && r.next == s.next && |r.trace| == |s.trace| + n && r.trace[..|s.trace|] == s.trace
      && forall i | 0 <= i < n :: r.trace[|s.trace| + i] == Tainted(resources[i], true)
  {
    if n > 0 {
      TaintedInTurn(s, resources, n - 1);
    }
  }

  /** A taint removes the plan, and then taints each resource of the list in its turn, up to
      and with the first that fails. */
  lemma TaintEvents(s: State, resources: seq<string>, succeeded: nat, removes: bool)
    ensures var r := Step(s, Taint(resources, succeeded, removes));
      var head := s.trace + RemovalOf(s, removes) + [TaintCalled];
      && r.plan == (if removes then None else s.plan) && r.next == s.next
      && |r.trace| == |head| + (if succeeded < |resources| then succeeded + 1 else |resources|)
      && r.trace[..|head|] == head
      && (forall i | 0 <= i < succeeded && i < |resources| :: r.trace[|head| + i] == Tainted(resources[i], true))
      && (succeeded < |resources| ==> r.trace[|head| + succeeded] == Tainted(resources[succeeded], false))
  {
    var t := Log(Remove(s, removes), TaintCalled);
    TaintedInTurn(t, resources, if succeeded < |resources| then succeeded else |resources|);
  }

  /** An apply of a plan that is there: the plan is applied, its outputs are read if that
      succeeds, and the plan is removed in either case. */
  lemma ApplyEvents(s: State, argv: Option<Argv>, planOk: bool, applyOk: bool, outputsOk: bool, removes: bool)
    ensures s.plan.Some? ==>
      var r := Step(s, Apply(true, argv, planOk, applyOk, outputsOk, removes));
      && r.trace == s.trace + [Applied(s.plan.value, applyOk)] + (if applyOk then [Outputs(outputsOk)] else [])
                    + RemovalOf(s, removes)
      && r.plan == (if removes then None else s.plan) && r.next == s.next
    ensures s.plan.None? ==>
      var p := Step(s, Plan(argv, planOk));
      Step(s, Apply(true, argv, planOk, applyOk, outputsOk, removes))
        == if p.plan.None? then p else Step(p, Apply(true, argv, planOk, applyOk, outputsOk, removes))
    ensures Step(s, Apply(false, argv, planOk, applyOk, outputsOk, removes)) == s
  {
  }

  function Run(calls: seq<Call>): State {
    if calls == [] then Initial else Step(Run(calls[..|calls| - 1]), calls[|calls| - 1])
  }

  // ---- what a trace says about a plan ----

  /** An apply, taint or destroy, after which an older plan is out of date. */
  predicate Disturbs(e: Event) {
    e.Applied? || e.TaintCalled? || e.Tainted? || e.Destroyed?
  }

  predicate Succeeds(e: Event) { e.Planned? && e.ok }

  /** Plan `id` was written at j and no other plan was written from there to i. */
  ghost predicate WrittenAt(trace: seq<Event>, id: nat, j: int, i: int) {
    && 0 <= j < i <= |trace| && Succeeds(trace[j]) && trace[j].id == id
    && forall k | j < k < i :: !Succeeds(trace[k])
  }

  ghost predicate Undisturbed(trace: seq<Event>, j: int, i: int)
    requires 0 <= j <= i <= |trace|
  {
    forall k | j < k < i :: !Disturbs(trace[k])
  }

  ghost predicate AllRemoved(trace: seq<Event>, j: int, i: int)
    requires 0 <= j <= i <= |trace|
  {
    forall k | j < k < i :: trace[k] != RemoveFailed
  }

  /** A plan written at j is up to date at i exactly when no removal failed in between. */
  ghost predicate Accounted(trace: seq<Event>, id: nat, i: int) {
    exists j :: WrittenAt(trace, id, j, i) && (Undisturbed(trace, j, i) <==> AllRemoved(trace, j, i))
  }

  /** Every plan file in use was written by a successful plan and is up to date exactly
      when no removal of it failed; no two plans share an identifier. */
  ghost predicate Inv(s: State) {
    && (s.plan.Some? ==> Accounted(s.trace, s.plan.value, |s.trace|))
    && (forall i | 0 <= i < |s.trace| && s.trace[i].Applied? :: Accounted(s.trace, s.trace[i].id, i))
    && (forall i | 0 <= i < |s.trace| && Succeeds(s.trace[i]) :: s.trace[i].id < s.next)
    && (forall i, j | 0 <= i < j < |s.trace| && Succeeds(s.trace[i]) && Succeeds(s.trace[j]) ::
        s.trace[i].id < s.trace[j].id)
  }

  /** Accounting up to i only looks at the events before i. */
  lemma AccountedPrefix(trace: seq<Event>, more: seq<Event>, id: nat, i: int)
    requires i <= |trace| && Accounted(trace, id, i)
    ensures Accounted(trace + more, id, i)
  {
    var j :| WrittenAt(trace, id, j, i) && (Undisturbed(trace, j, i) <==> AllRemoved(trace, j, i));
    var t := trace + more;
    assert forall k | 0 <= k < i :: t[k] == trace[k];
    assert WrittenAt(t, id, j, i);
    assert Undisturbed(t, j, i) <==> Undisturbed(trace, j, i);
    assert AllRemoved(t, j, i) <==> AllRemoved(trace, j, i);
  }

  /** The part of the invariant about events already logged. */
  ghost predicate PastInv(s: State) {
    Inv(s.(plan := None))
  }

  lemma LogKeepsPast(s: State, e: Event)
    requires PastInv(s) && !Succeeds(e)
    requires e.Applied? ==> Accounted(s.trace, e.id, |s.trace|)
    ensures PastInv(Log(s, e))
  {
    var t := Log(s, e).trace;
    forall i | 0 <= i < |t| && t[i].Applied? ensures Accounted(t, t[i].id, i) {
      AccountedPrefix(s.trace, [e], t[i].id, i);
    }
  }

  lemma PlanKeeps(s: State, argv: Option<Argv>, ok: bool)
    requires Inv(s)
    ensures Inv(PlanStep(s, argv, ok))
  {
    if argv.Some? {
      var e := Planned(s.next, ok, argv.value);
      var t := s.trace + [e];
      var n := |s.trace|;
      forall i | 0 <= i < |t| && t[i].Applied? ensures Accounted(t, t[i].id, i) {
        AccountedPrefix(s.trace, [e], t[i].id, i);
      }
      if ok {
        assert WrittenAt(t, s.next, n, n + 1) && Undisturbed(t, n, n + 1) && AllRemoved(t, n, n + 1);
      } else if s.plan.Some? {
        QuietKeepsAccounted(s.trace, e, s.plan.value);
      }
    }
  }

  /** An event that neither disturbs nor reports a failed removal changes no accounting. */
  lemma QuietKeepsAccounted(trace: seq<Event>, e: Event, id: nat)
    requires Accounted(trace, id, |trace|) && !Disturbs(e) && e != RemoveFailed && !Succeeds(e)
    ensures Accounted(trace + [e], id, |trace| + 1)
  {
    var n := |trace|;
    var j :| WrittenAt(trace, id, j, n) && (Undisturbed(trace, j, n) <==> AllRemoved(trace, j, n));
    var t := trace + [e];
    assert forall k | 0 <= k < n :: t[k] == trace[k];
    assert WrittenAt(t, id, j, n + 1);
    assert Undisturbed(t, j, n + 1) <==> Undisturbed(trace, j, n);
    assert AllRemoved(t, j, n + 1) <==> AllRemoved(trace, j, n);
  }

  /** Once both a disturbance and a failed removal follow a plan, it stays accounted. */
  ghost predicate Spoiled(trace: seq<Event>, id: nat) {
    exists j :: WrittenAt(trace, id, j, |trace|) && !Undisturbed(trace, j, |trace|) && !AllRemoved(trace, j, |trace|)
  }

  lemma SpoiledStays(trace: seq<Event>, e: Event, id: nat)
    requires Spoiled(trace, id) && !Succeeds(e)
    ensures Spoiled(trace + [e], id) && Accounted(trace + [e], id, |trace| + 1)
  {
    var n := |trace|;
    var j :| WrittenAt(trace, id, j, n) && !Undisturbed(trace, j, n) && !AllRemoved(trace, j, n);
    var t := trace + [e];
    assert forall k | 0 <= k < n :: t[k] == trace[k];
    assert WrittenAt(t, id, j, n + 1);
    var a :| j < a < n && Disturbs(trace[a]);
    var b :| j < b < n && trace[b] == RemoveFailed;
    assert Disturbs(t[a]) && t[b] == RemoveFailed;
  }

  /** A disturbance and a failed removal, in either order, spoil the plan they leave. */
  lemma PairSpoils(trace: seq<Event>, d: Event, f: Event, id: nat)
    requires Accounted(trace, id, |trace|) && !Succeeds(d) && !Succeeds(f)
    requires (Disturbs(d) && f == RemoveFailed) || (d == RemoveFailed && Disturbs(f))
    ensures Spoiled(trace + [d] + [f], id)
  {
    var n := |trace|;
    var j :| WrittenAt(trace, id, j, n);
    var t := trace + [d] + [f];
    assert forall k | 0 <= k < n :: t[k] == trace[k];
    assert t[n] == d && t[n + 1] == f;
    assert WrittenAt(t, id, j, n + 2);
  }

  /** The plan is followed by a disturbance. */
  ghost predicate Disturbed(trace: seq<Event>, id: nat) {
    exists j :: WrittenAt(trace, id, j, |trace|) && !Undisturbed(trace, j, |trace|)
  }

  lemma DisturbedStays(trace: seq<Event>, e: Event, id: nat)
    requires Disturbed(trace, id) && !Succeeds(e)
    ensures Disturbed(trace + [e], id) && (e == RemoveFailed ==> Spoiled(trace + [e], id))
  {
    var n := |trace|;
    var j :| WrittenAt(trace, id, j, n) && !Undisturbed(trace, j, n);
    var t := trace + [e];
    assert forall k | 0 <= k < n :: t[k] == trace[k];
    assert WrittenAt(t, id, j, n + 1) && t[n] == e;
    var a :| j < a < n && Disturbs(trace[a]);
    assert Disturbs(t[a]);
  }

  lemma DisturbingDisturbs(trace: seq<Event>, e: Event, id: nat)
    requires Accounted(trace, id, |trace|) && Disturbs(e)
    ensures Disturbed(trace + [e], id)
  {
    var n := |trace|;
    var j :| WrittenAt(trace, id, j, n);
    var t := trace + [e];
    assert forall k | 0 <= k < n :: t[k] == trace[k];
    assert t[n] == e && WrittenAt(t, id, j, n + 1);
  }

  lemma ApplyPlanKeeps(s: State, applyOk: bool, outputsOk: bool)
    requires Inv(s) && s.plan.Some?
    ensures var a := ApplyPlan(s, s.plan.value, applyOk, outputsOk);
      PastInv(a) && Disturbed(a.trace, s.plan.value)
  {
    var e := Applied(s.plan.value, applyOk);
    LogKeepsPast(s, e);
    DisturbingDisturbs(s.trace, e, s.plan.value);
    if applyOk {
      LogKeepsPast(Log(s, e), Outputs(outputsOk));
      DisturbedStays(Log(s, e).trace, Outputs(outputsOk), s.plan.value);
    }
  }

  lemma ApplyKeeps(s: State, applyOk: bool, outputsOk: bool, removes: bool)
    requires Inv(s) && s.plan.Some?
    ensures Inv(Remove(ApplyPlan(s, s.plan.value, applyOk, outputsOk), removes))
  {
    var a := ApplyPlan(s, s.plan.value, applyOk, outputsOk);
    ApplyPlanKeeps(s, applyOk, outputsOk);
    if !removes {
      LogKeepsPast(a, RemoveFailed);
      DisturbedStays(a.trace, RemoveFailed, s.plan.value);
      SpoiledAccounted(a.trace + [RemoveFailed], s.plan.value);
    }
  }

  lemma SpoiledAccounted(trace: seq<Event>, id: nat)
    requires Spoiled(trace, id)
    ensures Accounted(trace, id, |trace|)
  {
  }

  /** Nothing a later event logs can make a spoiled plan look up to date. */
  ghost predicate Settled(s: State) {
    Inv(s) && (s.plan.Some? ==> Spoiled(s.trace, s.plan.value))
  }

  /** Removing the plan and then disturbing. */
  lemma RemoveAndDisturb(s: State, removes: bool, d: Event)
    requires Inv(s) && Disturbs(d) && !d.Applied?
    ensures var r := Log(Remove(s, removes), d);
      Settled(r)
  {
    if s.plan.Some? && !removes {
      LogKeepsPast(s, RemoveFailed);
      LogKeepsPast(Log(s, RemoveFailed), d);
      PairSpoils(s.trace, RemoveFailed, d, s.plan.value);
      SpoiledAccounted(s.trace + [RemoveFailed] + [d], s.plan.value);
    } else {
      LogKeepsPast(s, d);
    }
  }

  lemma LogKeepsSettled(s: State, e: Event)
    requires Settled(s) && e.Tainted?
    ensures Settled(Log(s, e))
  {
    LogKeepsPast(s, e);
    if s.plan.Some? {
      SpoiledStays(s.trace, e, s.plan.value);
    }
  }

  lemma {:induction false} TaintFirstKeeps(s: State, resources: seq<string>, n: nat)
    requires Settled(s) && n <= |resources|
    ensures Settled(TaintFirst(s, resources, n))
  {
    if n > 0 {
      TaintFirstKeeps(s, resources, n - 1);
      LogKeepsSettled(TaintFirst(s, resources, n - 1), Tainted(resources[n - 1], true));
    }
  }

  lemma StepKeeps(s: State, c: Call)
    requires Inv(s)
    ensures Inv(Step(s, c))
  {
    match c
    case Plan(argv, ok) => PlanKeeps(s, argv, ok);
    case Apply(stat, argv, planOk, applyOk, outputsOk, removes) =>
      if stat {
        var p := if s.plan.None? then PlanStep(s, argv, planOk) else s;
        PlanKeeps(s, argv, planOk);
        if p.plan.Some? { ApplyKeeps(p, applyOk, outputsOk, removes); }
      }
    case Taint(resources, succeeded, removes) =>
      RemoveAndDisturb(s, removes, TaintCalled);
      var t, n := Log(Remove(s, removes), TaintCalled), if succeeded < |resources| then succeeded else |resources|;
      TaintFirstKeeps(t, resources, n);
      if n < |resources| { LogKeepsSettled(TaintFirst(t, resources, n), Tainted(resources[n], false)); }
    case Destroy(ok, removes) => RemoveAndDisturb(s, removes, Destroyed(ok));
  }

  /** In every sequence of calls with any outcomes, starting without a plan file, each
      applied plan was written by a successful plan command, and nothing was applied,
      tainted or destroyed since then exactly when no removal failed since then. */
  lemma {:induction false} EveryRunAccounted(calls: seq<Call>)
    ensures Inv(Run(calls))
  {
    if calls != [] {
      EveryRunAccounted(calls[..|calls| - 1]);
      StepKeeps(Run(calls[..|calls| - 1]), calls[|calls| - 1]);
    }
  }

  /** While removals succeed no plan is applied twice. */
  lemma NoPlanAppliedTwice(calls: seq<Call>, a: nat, b: nat)
    requires var t := Run(calls).trace; a < b < |t| && t[a].Applied? && t[b].Applied?
    requires forall k | 0 <= k < |Run(calls).trace| :: Run(calls).trace[k] != RemoveFailed
    ensures Run(calls).trace[a].id != Run(calls).trace[b].id
  {
    EveryRunAccounted(calls);
    var t := Run(calls).trace;
    var i :| WrittenAt(t, t[a].id, i, a) && (Undisturbed(t, i, a) <==> AllRemoved(t, i, a));
    var j :| WrittenAt(t, t[b].id, j, b) && (Undisturbed(t, j, b) <==> AllRemoved(t, j, b));
    assert i < a && Disturbs(t[a]);
  }

  /** When the removal after an apply fails, the next apply uses the same plan again. */
  lemma FailedRemovalAppliesTwice()
    ensures var c := Apply(true, Some([]), true, true, true, false);
      Run([c, c]).trace ==
        [Planned(0, true, []), Applied(0, true), Outputs(true), RemoveFailed, Applied(0, true), Outputs(true),
         RemoveFailed]
  {
    var c := Apply(true, Some([]), true, true, true, false);
    assert [c, c][..1] == [c] && [c][..0] == [];
    assert Run([c]).trace == [Planned(0, true, []), Applied(0, true), Outputs(true), RemoveFailed];
  }
}
