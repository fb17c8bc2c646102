// Every interleaving of the loader's workers ends with the same recipe map and the
// same recipe lists.
module Interleavings {
  import opened Ordering
  import opened Recipes
  import opened Loader

  // ---- what a world holds, cell by cell ----

  /** Worker w has run its first section and it was for recipe key k. */
  ghost predicate Entered(disk: Disk, jobs: seq<Job>, phases: seq<Phase>, w: int, k: string) {
    && 0 <= w < |jobs| == |phases|
    && phases[w] != Ready && Enters(disk, jobs[w]) && KeyOf(disk, jobs[w]) == k
  }

  /** Worker w has stored its recipe under key k and the given IaaS. */
  ghost predicate Stored(disk: Disk, jobs: seq<Job>, phases: seq<Phase>, w: int, k: string, iaas: string) {
    && 0 <= w < |jobs| == |phases|
    && phases[w] == Done && Loads(disk, jobs[w]) && KeyOf(disk, jobs[w]) == k && Iaas(jobs[w]) == iaas
  }

  /** Worker w has put recipe name r into the list of cookbook n. */
  ghost predicate Named(disk: Disk, jobs: seq<Job>, phases: seq<Phase>, w: int, n: string, r: string) {
    && 0 <= w < |jobs| == |phases|
    && phases[w] != Ready && Enters(disk, jobs[w]) && BookName(disk, jobs[w]) == n && RecipeName(jobs[w]) == r
  }

  /** A recipe key is present if it was, or if some worker entered it. */
  ghost predicate KeyAccounted(disk: Disk, s: Shared, jobs: seq<Job>, world: World, k: string) {
    k in world.shared.recipes <==> k in s.recipes || exists w :: Entered(disk, jobs, world.phases, w, k)
  }

  /** A cell holds the recipe of some worker that stored it, or what was there before. */
  ghost predicate CellAccounted(disk: Disk, s: Shared, jobs: seq<Job>, world: World, k: string, iaas: string) {
    var cell := Lookup(world.shared.recipes, k, iaas);
    || (exists w :: Stored(disk, jobs, world.phases, w, k, iaas) && cell == Some(Made(disk, jobs[w])))
    || ((forall w :: !Stored(disk, jobs, world.phases, w, k, iaas)) && cell == Lookup(s.recipes, k, iaas))
  }

  function Names(s: Shared, n: string): seq<string> {
    if n in s.cookbooks then s.cookbooks[n].recipes else []
  }

  /** A name is listed if it was, or if some worker added it. */
  ghost predicate NameAccounted(disk: Disk, s: Shared, jobs: seq<Job>, world: World, n: string, r: string) {
    r in Names(world.shared, n) <==> r in Names(s, n) || exists w :: Named(disk, jobs, world.phases, w, n, r)
  }

  lemma StepPhases(disk: Disk, jobs: seq<Job>, world: World, w: nat)
    requires w < |jobs| && Consistent(disk, jobs, world)
    ensures forall v | 0 <= v < |jobs| && v != w :: Step(disk, jobs, world, w).phases[v] == world.phases[v]
    ensures var p := Step(disk, jobs, world, w).phases[w];
      match world.phases[w]
      case Ready => p == (if Enters(disk, jobs[w]) then Between else Done)
      case _ => p == Done
  {
  }

  lemma KeyStep(disk: Disk, s: Shared, jobs: seq<Job>, world: World, w: nat, k: string)
    requires w < |jobs| && Consistent(disk, jobs, world) && KeyAccounted(disk, s, jobs, world, k)
    ensures KeyAccounted(disk, s, jobs, Step(disk, jobs, world, w), k)
  {
    var r := Step(disk, jobs, world, w);
    StepPhases(disk, jobs, world, w);
    assert forall v :: Entered(disk, jobs, world.phases, v, k) ==> Entered(disk, jobs, r.phases, v, k);
    assert forall v :: Entered(disk, jobs, r.phases, v, k) ==> Entered(disk, jobs, world.phases, v, k) || v == w;
    if Entered(disk, jobs, r.phases, w, k) && world.phases[w] == Ready {
      assert k in r.shared.recipes;
    }
  }

  lemma LookupStep(disk: Disk, jobs: seq<Job>, world: World, w: nat, k: string, iaas: string)
    requires w < |jobs| && Consistent(disk, jobs, world)
    ensures var r := Step(disk, jobs, world, w);
      Lookup(r.shared.recipes, k, iaas) ==
        if world.phases[w] == Between && Stored(disk, jobs, r.phases, w, k, iaas) then Some(Made(disk, jobs[w]))
        else Lookup(world.shared.recipes, k, iaas)
  {
  }

  lemma StoredStep(disk: Disk, jobs: seq<Job>, world: World, w: nat, k: string, iaas: string)
    requires w < |jobs| && Consistent(disk, jobs, world)
    ensures var r := Step(disk, jobs, world, w);
      forall v :: Stored(disk, jobs, r.phases, v, k, iaas) <==>
        || Stored(disk, jobs, world.phases, v, k, iaas)
        || (v == w && world.phases[w] == Between && Stored(disk, jobs, r.phases, w, k, iaas))
  {
    StepPhases(disk, jobs, world, w);
  }

  lemma CellStep(disk: Disk, s: Shared, jobs: seq<Job>, world: World, w: nat, k: string, iaas: string)
    requires w < |jobs| && Consistent(disk, jobs, world) && CellAccounted(disk, s, jobs, world, k, iaas)
    ensures CellAccounted(disk, s, jobs, Step(disk, jobs, world, w), k, iaas)
  {
    LookupStep(disk, jobs, world, w, k, iaas);
    StoredStep(disk, jobs, world, w, k, iaas);
  }

  /** Every cookbook's list is strictly sorted. */
  ghost predicate ListsSorted(s: Shared) {
    forall n | n in s.cookbooks :: Sorted(Less, s.cookbooks[n].recipes)
  }

  lemma NamesOfEnter(disk: Disk, s: Shared, job: Job, n: string)
    requires Enters(disk, job)
    ensures Names(Enter(disk, s, job), n)
         == if n == BookName(disk, job) then AddName(Names(s, n), RecipeName(job)) else Names(s, n)
  {
  }

  lemma NameStep(disk: Disk, s: Shared, jobs: seq<Job>, world: World, w: nat, n: string, r: string)
    requires w < |jobs| && Consistent(disk, jobs, world) && ListsSorted(world.shared)
    requires NameAccounted(disk, s, jobs, world, n, r)
    ensures NameAccounted(disk, s, jobs, Step(disk, jobs, world, w), n, r)
  {
    var after := Step(disk, jobs, world, w);
    StepPhases(disk, jobs, world, w);
    assert forall v :: Named(disk, jobs, world.phases, v, n, r) ==> Named(disk, jobs, after.phases, v, n, r);
    assert forall v | v != w :: Named(disk, jobs, after.phases, v, n, r) ==> Named(disk, jobs, world.phases, v, n, r);
    if world.phases[w] == Ready && Enters(disk, jobs[w]) {
      NamesOfEnter(disk, world.shared, jobs[w], n);
      AddNameKeeps(Names(world.shared, n), RecipeName(jobs[w]));
      assert Named(disk, jobs, after.phases, w, n, r) <==> n == BookName(disk, jobs[w]) && r == RecipeName(jobs[w]);
      assert !Named(disk, jobs, world.phases, w, n, r);
    } else {
      assert Named(disk, jobs, after.phases, w, n, r) ==> Named(disk, jobs, world.phases, w, n, r);
      assert Names(after.shared, n) == Names(world.shared, n);
    }
  }

  lemma SortedStep(disk: Disk, jobs: seq<Job>, world: World, w: nat)
    requires w < |jobs| && Consistent(disk, jobs, world) && ListsSorted(world.shared)
    ensures ListsSorted(Step(disk, jobs, world, w).shared)
  {
    if world.phases[w] == Ready && Enters(disk, jobs[w]) {
      var n := BookName(disk, jobs[w]);
      AddNameKeeps(Names(world.shared, n), RecipeName(jobs[w]));
    }
  }

  lemma Unroll(disk: Disk, s: Shared, jobs: seq<Job>, schedule: seq<nat>)
    requires schedule != [] && forall w | w in schedule :: w < |jobs|
    ensures var last := |schedule| - 1;
      && schedule[last] < |jobs| && (forall w | w in schedule[..last] :: w < |jobs|)
      && Run(disk, s, jobs, schedule) == Step(disk, jobs, Run(disk, s, jobs, schedule[..last]), schedule[last])
  {
    var last := |schedule| - 1;
    assert schedule[last] in schedule;
    forall w | w in schedule[..last] ensures w < |jobs| {
      assert w in schedule;
    }
  }

  lemma {:induction false} CellsAfter(disk: Disk, s: Shared, jobs: seq<Job>, schedule: seq<nat>, k: string,
                                      iaas: string)
    requires forall w | w in schedule :: w < |jobs|
    ensures KeyAccounted(disk, s, jobs, Run(disk, s, jobs, schedule), k)
    ensures CellAccounted(disk, s, jobs, Run(disk, s, jobs, schedule), k, iaas)
  {
    if schedule != [] {
      var last := |schedule| - 1;
      Unroll(disk, s, jobs, schedule);
      CellsAfter(disk, s, jobs, schedule[..last], k, iaas);
      KeyStep(disk, s, jobs, Run(disk, s, jobs, schedule[..last]), schedule[last], k);
      CellStep(disk, s, jobs, Run(disk, s, jobs, schedule[..last]), schedule[last], k, iaas);
    }
  }

  lemma {:induction false} NamesAfter(disk: Disk, s: Shared, jobs: seq<Job>, schedule: seq<nat>, n: string, r: string)
    requires ListsSorted(s) && forall w | w in schedule :: w < |jobs|
    ensures ListsSorted(Run(disk, s, jobs, schedule).shared)
    ensures NameAccounted(disk, s, jobs, Run(disk, s, jobs, schedule), n, r)
  {
    if schedule != [] {
      var last := |schedule| - 1;
      Unroll(disk, s, jobs, schedule);
      NamesAfter(disk, s, jobs, schedule[..last], n, r);
      SortedStep(disk, jobs, Run(disk, s, jobs, schedule[..last]), schedule[last]);
      NameStep(disk, s, jobs, Run(disk, s, jobs, schedule[..last]), schedule[last], n, r);
    }
  }

  // ---- complete schedules ----

  /** Two workers that would store different recipes in one cell. */
  ghost predicate Conflict(disk: Disk, a: Job, b: Job) {
    && Loads(disk, a) && Loads(disk, b)
    && KeyOf(disk, a) == KeyOf(disk, b) && Iaas(a) == Iaas(b) && Made(disk, a) != Made(disk, b)
  }

  ghost predicate NoConflict(disk: Disk, jobs: seq<Job>) {
    forall v, w | 0 <= v < |jobs| && 0 <= w < |jobs| :: !Conflict(disk, jobs[v], jobs[w])
  }

  /** When all workers are done, who stored, entered and named depends on the jobs alone. */
  lemma DoneTogether(disk: Disk, jobs: seq<Job>, a: World, b: World)
    requires |a.phases| == |jobs| == |b.phases| && AllDone(a) && AllDone(b)
    ensures a.phases == b.phases
  {
  }

  lemma SameCell(disk: Disk, s: Shared, jobs: seq<Job>, a: World, b: World, k: string, iaas: string)
    requires NoConflict(disk, jobs) && a.phases == b.phases
    requires CellAccounted(disk, s, jobs, a, k, iaas) && CellAccounted(disk, s, jobs, b, k, iaas)
    ensures Lookup(a.shared.recipes, k, iaas) == Lookup(b.shared.recipes, k, iaas)
  {
    if exists w :: Stored(disk, jobs, a.phases, w, k, iaas) {
      var v :| Stored(disk, jobs, a.phases, v, k, iaas)
        && Lookup(a.shared.recipes, k, iaas) == Some(Made(disk, jobs[v]));
      var w :| Stored(disk, jobs, b.phases, w, k, iaas)
        && Lookup(b.shared.recipes, k, iaas) == Some(Made(disk, jobs[w]));
      assert !Conflict(disk, jobs[v], jobs[w]);
    }
  }

  /** Every interleaving of the critical sections ends with the same recipe map. */
  lemma SameRecipes(disk: Disk, s: Shared, jobs: seq<Job>, one: seq<nat>, other: seq<nat>)
    requires NoConflict(disk, jobs) && Complete(disk, s, jobs, one) && Complete(disk, s, jobs, other)
    ensures Run(disk, s, jobs, one).shared.recipes == Run(disk, s, jobs, other).shared.recipes
  {
    var a, b := Run(disk, s, jobs, one), Run(disk, s, jobs, other);
    DoneTogether(disk, jobs, a, b);
    forall k ensures k in a.shared.recipes <==> k in b.shared.recipes {
      CellsAfter(disk, s, jobs, one, k, "");
      CellsAfter(disk, s, jobs, other, k, "");
    }
    forall k, iaas ensures Lookup(a.shared.recipes, k, iaas) == Lookup(b.shared.recipes, k, iaas) {
      CellsAfter(disk, s, jobs, one, k, iaas);
      CellsAfter(disk, s, jobs, other, k, iaas);
      SameCell(disk, s, jobs, a, b, k, iaas);
    }
    SameMap(a.shared.recipes, b.shared.recipes);
  }

  lemma {:induction false} SortedSameMembers(a: seq<string>, b: seq<string>)
    requires Sorted(Less, a) && Sorted(Less, b) && forall x :: x in a <==> x in b
    ensures a == b
  {
    if a != [] {
      assert a[0] in b;
    }
    if b != [] {
      assert b[0] in a;
      LessTrichotomy(a[0], b[0]);
      assert a[0] == b[0];
      TailMembers(a, b);
      SortedSameMembers(a[1..], b[1..]);
      assert a == [a[0]] + a[1..] && b == [b[0]] + b[1..];
    }
  }

  lemma TailMembers(a: seq<string>, b: seq<string>)
    requires Sorted(Less, a) && Sorted(Less, b) && a != [] && b != [] && a[0] == b[0]
    requires forall x :: x in a <==> x in b
    ensures forall x :: x in a[1..] <==> x in b[1..]
  {
    TailWithoutHead(a);
    TailWithoutHead(b);
  }

  lemma TailWithoutHead(a: seq<string>)
    requires Sorted(Less, a) && a != []
    ensures forall x :: x in a[1..] <==> x in a && x != a[0]
  {
    forall x ensures x in a[1..] <==> x in a && x != a[0] {
      LessTrichotomy(a[0], a[0]);
      if x in a && x != a[0] {
        var i :| 0 <= i < |a| && a[i] == x;
        assert a[1..][i - 1] == x;
      }
    }
  }

  /** Whatever the interleaving, and whether or not cells conflict, each cookbook's list
      is the strictly sorted set of the recipe names its workers met. */
  lemma ListsExact(disk: Disk, s: Shared, jobs: seq<Job>, schedule: seq<nat>, n: string, r: string)
    requires ListsSorted(s) && Complete(disk, s, jobs, schedule)
    ensures Sorted(Less, Names(Run(disk, s, jobs, schedule).shared, n))
    ensures r in Names(Run(disk, s, jobs, schedule).shared, n) <==>
      || r in Names(s, n)
      || exists w | 0 <= w < |jobs| && Enters(disk, jobs[w]) :: BookName(disk, jobs[w]) == n && RecipeName(jobs[w]) == r
  {
    var world := Run(disk, s, jobs, schedule);
    NamesAfter(disk, s, jobs, schedule, n, r);
    forall w | 0 <= w < |jobs| && Enters(disk, jobs[w]) && BookName(disk, jobs[w]) == n && RecipeName(jobs[w]) == r
      ensures Named(disk, jobs, world.phases, w, n, r)
    {
    }
  }

  lemma SameLists(disk: Disk, s: Shared, jobs: seq<Job>, one: seq<nat>, other: seq<nat>, n: string)
    requires ListsSorted(s) && Complete(disk, s, jobs, one) && Complete(disk, s, jobs, other)
    ensures Names(Run(disk, s, jobs, one).shared, n) == Names(Run(disk, s, jobs, other).shared, n)
  {
    var a, b := Names(Run(disk, s, jobs, one).shared, n), Names(Run(disk, s, jobs, other).shared, n);
    ListsExact(disk, s, jobs, one, n, "");
    ListsExact(disk, s, jobs, other, n, "");
    forall r ensures r in a <==> r in b {
      ListsExact(disk, s, jobs, one, n, r);
      ListsExact(disk, s, jobs, other, n, r);
    }
    SortedSameMembers(a, b);
  }

  // ---- the sequential load, and schedules that let one worker finish last ----

  /** Run the workers below n to their ends one after another, leaving out `skip`. */
  function OneByOne(n: nat, skip: nat): (r: seq<nat>) {
    if n == 0 then [] else OneByOne(n - 1, skip) + if n - 1 == skip then [] else [n - 1, n - 1]
  }

  lemma {:induction false} RunAppend(disk: Disk, s: Shared, jobs: seq<Job>, schedule: seq<nat>, w: nat)
    requires (forall v | v in schedule :: v < |jobs|) && w < |jobs|
    ensures forall v | v in schedule + [w] :: v < |jobs|
    ensures Run(disk, s, jobs, schedule + [w]) == Step(disk, jobs, Run(disk, s, jobs, schedule), w)
  {
    assert (schedule + [w])[..|schedule|] == schedule;
    Unroll(disk, s, jobs, schedule + [w]);
  }

  /** Two turns finish a worker that has not started and touch no other. */
  lemma RunTwice(disk: Disk, s: Shared, jobs: seq<Job>, schedule: seq<nat>, w: nat)
    requires (forall v | v in schedule :: v < |jobs|) && w < |jobs|
    ensures forall v | v in schedule + [w, w] :: v < |jobs|
    ensures var a := Run(disk, s, jobs, schedule);
      Run(disk, s, jobs, schedule + [w, w]) == Step(disk, jobs, Step(disk, jobs, a, w), w)
    ensures Run(disk, s, jobs, schedule + [w, w]).phases == Run(disk, s, jobs, schedule).phases[w := Done]
  {
    RunAppend(disk, s, jobs, schedule, w);
    RunAppend(disk, s, jobs, schedule + [w], w);
    assert schedule + [w, w] == schedule + [w] + [w];
    var a := Run(disk, s, jobs, schedule);
    StepPhases(disk, jobs, a, w);
    StepPhases(disk, jobs, Step(disk, jobs, a, w), w);
  }

  /** The workers below n except `skip` have finished and the others have not started. */
  ghost predicate FinishedBelow(disk: Disk, s: Shared, jobs: seq<Job>, schedule: seq<nat>, n: nat, skip: nat) {
    && (forall v | v in schedule :: v < |jobs|)
    && var p := Run(disk, s, jobs, schedule).phases;
       forall v | 0 <= v < |jobs| :: p[v] == if v < n && v != skip then Done else Ready
  }

  lemma FinishNext(disk: Disk, s: Shared, jobs: seq<Job>, schedule: seq<nat>, n: nat, skip: nat)
    requires 0 < n <= |jobs| && FinishedBelow(disk, s, jobs, schedule, n - 1, skip)
    ensures FinishedBelow(disk, s, jobs, schedule + if n - 1 == skip then [] else [n - 1, n - 1], n, skip)
  {
    if n - 1 == skip {
      assert schedule + [] == schedule;
    } else {
      RunTwice(disk, s, jobs, schedule, n - 1);
    }
  }

  lemma {:induction false} OneByOnePhases(disk: Disk, s: Shared, jobs: seq<Job>, n: nat, skip: nat)
    requires n <= |jobs|
    ensures FinishedBelow(disk, s, jobs, OneByOne(n, skip), n, skip)
  {
    if n > 0 {
      OneByOnePhases(disk, s, jobs, n - 1, skip);
      FinishNext(disk, s, jobs, OneByOne(n - 1, skip), n, skip);
    }
  }

  /** The sequential load: each worker runs to its end before the next starts. */
  lemma SequentialComplete(disk: Disk, s: Shared, jobs: seq<Job>)
    ensures Complete(disk, s, jobs, OneByOne(|jobs|, |jobs|))
  {
    OneByOnePhases(disk, s, jobs, |jobs|, |jobs|);
  }

  lemma LastTurnStores(disk: Disk, jobs: seq<Job>, world: World, w: nat)
    requires w < |jobs| && Consistent(disk, jobs, world) && world.phases[w] == Ready && Loads(disk, jobs[w])
    ensures Lookup(Step(disk, jobs, Step(disk, jobs, world, w), w).shared.recipes, KeyOf(disk, jobs[w]), Iaas(jobs[w]))
         == Some(Made(disk, jobs[w]))
  {
    StepPhases(disk, jobs, world, w);
    StepPhases(disk, jobs, Step(disk, jobs, world, w), w);
    LookupStep(disk, jobs, Step(disk, jobs, world, w), w, KeyOf(disk, jobs[w]), Iaas(jobs[w]));
  }

  lemma LastTwoTurns(disk: Disk, s: Shared, jobs: seq<Job>, others: seq<nat>, w: nat)
    requires w < |jobs| && Loads(disk, jobs[w]) && FinishedBelow(disk, s, jobs, others, |jobs|, w)
    ensures Complete(disk, s, jobs, others + [w, w])
    ensures Lookup(Run(disk, s, jobs, others + [w, w]).shared.recipes, KeyOf(disk, jobs[w]), Iaas(jobs[w]))
         == Some(Made(disk, jobs[w]))
  {
    RunTwice(disk, s, jobs, others, w);
    LastTurnStores(disk, jobs, Run(disk, s, jobs, others), w);
  }

  /** Any worker that loads its recipe can be the last to store in its cell. */
  lemma LastWins(disk: Disk, s: Shared, jobs: seq<Job>, w: nat) returns (schedule: seq<nat>)
    requires w < |jobs| && Loads(disk, jobs[w])
    ensures Complete(disk, s, jobs, schedule)
    ensures Lookup(Run(disk, s, jobs, schedule).shared.recipes, KeyOf(disk, jobs[w]), Iaas(jobs[w]))
      == Some(Made(disk, jobs[w]))
  {
    OneByOnePhases(disk, s, jobs, |jobs|, w);
    LastTwoTurns(disk, s, jobs, OneByOne(|jobs|, w), w);
    schedule := OneByOne(|jobs|, w) + [w, w];
  }

  ghost predicate ScheduleIndependent(disk: Disk, s: Shared, jobs: seq<Job>) {
    forall one, other | Complete(disk, s, jobs, one) && Complete(disk, s, jobs, other) ::
      Run(disk, s, jobs, one).shared.recipes == Run(disk, s, jobs, other).shared.recipes
  }

  /** The loaded recipe map is the same for every interleaving exactly when no two walked
      paths claim one recipe key and IaaS with different contents. */
  lemma IndependentExactlyWithoutConflict(disk: Disk, s: Shared, jobs: seq<Job>)
    ensures ScheduleIndependent(disk, s, jobs) <==> NoConflict(disk, jobs)
  {
    if NoConflict(disk, jobs) {
      forall one, other | Complete(disk, s, jobs, one) && Complete(disk, s, jobs, other)
        ensures Run(disk, s, jobs, one).shared.recipes == Run(disk, s, jobs, other).shared.recipes
      {
        SameRecipes(disk, s, jobs, one, other);
      }
    } else {
      var v, w :| 0 <= v < |jobs| && 0 <= w < |jobs| && Conflict(disk, jobs[v], jobs[w]);
      var one := LastWins(disk, s, jobs, v);
      var other := LastWins(disk, s, jobs, w);
      assert Run(disk, s, jobs, one).shared.recipes != Run(disk, s, jobs, other).shared.recipes;
    }
  }

  /** A key made from a name without ':' splits in one way. */
  lemma KeySplits(a: string, b: string, c: string, d: string)
    requires ':' !in a && ':' !in c && a + ":" + b == c + ":" + d
    ensures a == c && b == d
  {
    var s := a + ":" + b;
    assert s[|a|] == ':' && s[|c|] == ':';
    assert forall i | 0 <= i < |a| :: s[i] == a[i];
    assert forall i | 0 <= i < |c| :: s[i] == c[i];
    assert s[..|a|] == a && s[..|c|] == c && s[|a| + 1..] == b && s[|c| + 1..] == d;
  }

  /** One root per cookbook name, and names without ':', rule out conflicts. */
  lemma OneRootPerCookbook(disk: Disk, jobs: seq<Job>)
    requires forall w | 0 <= w < |jobs| && Enters(disk, jobs[w]) :: ':' !in BookName(disk, jobs[w])
    requires forall v, w | 0 <= v < |jobs| && 0 <= w < |jobs| && Enters(disk, jobs[v]) && Enters(disk, jobs[w]) ::
      BookName(disk, jobs[v]) == BookName(disk, jobs[w]) ==> jobs[v].root == jobs[w].root
    ensures NoConflict(disk, jobs)
  {
    forall v, w | 0 <= v < |jobs| && 0 <= w < |jobs| ensures !Conflict(disk, jobs[v], jobs[w]) {
      var a, b := jobs[v], jobs[w];
      if Loads(disk, a) && Loads(disk, b) && KeyOf(disk, a) == KeyOf(disk, b) && Iaas(a) == Iaas(b) {
        KeySplits(BookName(disk, a), RecipeName(a), BookName(disk, b), RecipeName(b));
        assert a.elems[..3] == b.elems[..3];
      }
    }
  }

  /** Two roots that call themselves alike conflict, so the last worker decides. */
  lemma TwoRootsConflict()
    ensures var m := Metadata("net", "1");
            var p, q := ["lib", "a"], ["lib", "b"];
            var t := Template(false, map[]);
            var disk := Disk([], map[p := m, q := m],
                             map[p + ["recipes", "vpn", "aws"] := t, q + ["recipes", "vpn", "aws"] := t]);
            var elems := ["recipes", "vpn", "aws", ".terraform"];
            !ScheduleIndependent(disk, Empty, [Job(p, elems), Job(q, elems)])
  {
    var m := Metadata("net", "1");
    var p, q := ["lib", "a"], ["lib", "b"];
    var t := Template(false, map[]);
    var disk := Disk([], map[p := m, q := m],
                     map[p + ["recipes", "vpn", "aws"] := t, q + ["recipes", "vpn", "aws"] := t]);
    var elems := ["recipes", "vpn", "aws", ".terraform"];
    var jobs := [Job(p, elems), Job(q, elems)];
    assert elems[..3] == ["recipes", "vpn", "aws"];
    assert p[1] != q[1];
    assert Conflict(disk, jobs[0], jobs[1]);
    IndependentExactlyWithoutConflict(disk, Empty, jobs);
  }

  // ---- errors ----

  ghost predicate ErrorsAccounted(disk: Disk, s: Shared, jobs: seq<Job>, world: World) {
    && |world.phases| == |jobs|
    && (world.shared.errs != [] <==>
        s.errs != [] || exists w :: 0 <= w < |jobs| && world.phases[w] == Done && Fails(disk, jobs[w]))
  }

  lemma ErrorsStep(disk: Disk, s: Shared, jobs: seq<Job>, world: World, w: nat)
    requires w < |jobs| && Consistent(disk, jobs, world) && ErrorsAccounted(disk, s, jobs, world)
    ensures ErrorsAccounted(disk, s, jobs, Step(disk, jobs, world, w))
  {
    var r := Step(disk, jobs, world, w);
    StepPhases(disk, jobs, world, w);
    if world.shared.errs != [] && s.errs == [] {
      var v :| 0 <= v < |jobs| && world.phases[v] == Done && Fails(disk, jobs[v]);
      assert r.phases[v] == Done;
    } else if r.shared.errs != [] && world.shared.errs == [] {
      assert r.phases[w] == Done && Fails(disk, jobs[w]);
    } else if r.shared.errs == [] {
      forall v | 0 <= v < |jobs| && r.phases[v] == Done ensures !Fails(disk, jobs[v]) {
        assert v != w ==> world.phases[v] == Done;
      }
    }
  }

  /** Loading reports an error exactly when some matched path fails to load, whatever
      the interleaving. */
  lemma {:induction false} ErrorsAfter(disk: Disk, s: Shared, jobs: seq<Job>, schedule: seq<nat>)
    requires forall w | w in schedule :: w < |jobs|
    ensures ErrorsAccounted(disk, s, jobs, Run(disk, s, jobs, schedule))
  {
    if schedule != [] {
      var last := |schedule| - 1;
      Unroll(disk, s, jobs, schedule);
      ErrorsAfter(disk, s, jobs, schedule[..last]);
      ErrorsStep(disk, s, jobs, Run(disk, s, jobs, schedule[..last]), schedule[last]);
    }
  }
}
