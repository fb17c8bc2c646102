// The concurrent recipe loader: one worker per walked path, each running up to two
// critical sections over the cookbook's shared maps.
module Loader {
  import opened Ordering
  import opened BinarySearch
  import opened Recipes

  type Path = seq<string>

  /** What the METADATA file of a cookbook root parses to. */
  datatype Metadata = Metadata(name: string, version: string)

  /** What the templates of one recipe and IaaS parse to. */
  datatype Template = Template(bastion: bool, variables: Variables)

  /** The files the loader reads. A root without an entry in `metadata`, or a recipe
      path without one in `templates`, fails to load. */
  datatype Disk = Disk(core: Path, metadata: map<Path, Metadata>, templates: map<Path, Template>)

  /** One walked path: the elements of its name below the cookbook root. */
  datatype Job = Job(root: Path, elems: Path)

  /** The maps guarded by the cookbook's mutex. */
  datatype Shared = Shared(cookbooks: map<string, CookbookMetadata>, recipes: RecipeMap, errs: seq<Job>)

  const Empty := Shared(map[], map[], [])

  /** recipes/<anything>/.terraform with at least four elements. */
  predicate Matches(job: Job) {
    |job.elems| >= 4 && job.elems[0] == "recipes" && job.elems[|job.elems| - 1] == ".terraform"
  }

  predicate Enters(disk: Disk, job: Job) {
    Matches(job) && job.root in disk.metadata
  }

  predicate Loads(disk: Disk, job: Job) {
    Enters(disk, job) && TemplatePath(job) in disk.templates
  }

  predicate Fails(disk: Disk, job: Job) {
    Matches(job) && !Loads(disk, job)
  }

  function TemplatePath(job: Job): Path
    requires Matches(job)
  {
    job.root + job.elems[..3]
  }

  function BookName(disk: Disk, job: Job): string
    requires Enters(disk, job)
  {
    disk.metadata[job.root].name
  }

  function RecipeName(job: Job): string
    requires Matches(job)
  {
    job.elems[1]
  }

  function Iaas(job: Job): string
    requires Matches(job)
  {
    job.elems[2]
  }

  function KeyOf(disk: Disk, job: Job): string
    requires Enters(disk, job)
  {
    BookName(disk, job) + ":" + RecipeName(job)
  }

  /** NewRecipe on one path. */
  function Made(disk: Disk, job: Job): Recipe
    requires Loads(disk, job)
  {
    var m, t := disk.metadata[job.root], disk.templates[TemplatePath(job)];
    Recipe(m.name, m.version, RecipeName(job), Iaas(job), job.root, t.bastion, t.variables)
  }

  /** The search predicate over a cookbook's recipe names: `name <= names[j]`. */
  function AtOrAfter(names: seq<string>, name: string): (f: int --> bool)
    ensures forall k | 0 <= k < |names| :: f.requires(k) && f(k) == !Less(names[k], name)
  {
    j requires 0 <= j < |names| => !Less(names[j], name)
  }

  function NameIndex(names: seq<string>, name: string): (i: nat)
    ensures i <= |names|
  {
    Bisect(AtOrAfter(names, name), 0, |names|)
  }

  /** Insert a name into a sorted list unless it is there. */
  function AddName(names: seq<string>, name: string): seq<string> {
    var i := NameIndex(names, name);
    if i == |names| || name != names[i] then InsertAt(names, i, name) else names
  }

  /** First critical section: find or create the cookbook, add the recipe's name to it
      and make sure the recipe has an entry. */
  function Enter(disk: Disk, s: Shared, job: Job): Shared
    requires Enters(disk, job)
  {
    var m := disk.metadata[job.root];
    var cm := if m.name in s.cookbooks then s.cookbooks[m.name]
              else CookbookMetadata(m.name, m.version, disk.core != job.root, job.root, []);
    var key := KeyOf(disk, job);
    s.(cookbooks := s.cookbooks[m.name := cm.(recipes := AddName(cm.recipes, RecipeName(job)))],
       recipes := if key in s.recipes then s.recipes else s.recipes[key := map[]])
  }

  /** Second critical section: store the loaded recipe, or record that loading failed. */
  function Leave(disk: Disk, s: Shared, job: Job): Shared
    requires Enters(disk, job) && KeyOf(disk, job) in s.recipes
  {
    if Loads(disk, job)
    then s.(recipes := Put(s.recipes, KeyOf(disk, job), Iaas(job), Made(disk, job)))
    else s.(errs := s.errs + [job])
  }

  /** A worker has nothing done, is between its sections, or has finished. */
  datatype Phase = Ready | Between | Done

  datatype World = World(shared: Shared, phases: seq<Phase>)

  /** Every worker between its sections has its recipe's entry in the map. */
  ghost predicate Consistent(disk: Disk, jobs: seq<Job>, world: World) {
    && |world.phases| == |jobs|
    && forall w | 0 <= w < |jobs| && world.phases[w] == Between ::
         Enters(disk, jobs[w]) && KeyOf(disk, jobs[w]) in world.shared.recipes
  }

  /** Let worker w run to the end of its next critical section. */
  function Step(disk: Disk, jobs: seq<Job>, world: World, w: nat): (r: World)
    requires w < |jobs| && Consistent(disk, jobs, world)
    ensures Consistent(disk, jobs, r)
  {
    var s, job := world.shared, jobs[w];
    match world.phases[w]
    case Ready =>
      if !Matches(job) then world.(phases := world.phases[w := Done])
      else if !Enters(disk, job) then World(s.(errs := s.errs + [job]), world.phases[w := Done])
      else World(Enter(disk, s, job), world.phases[w := Between])
    case Between => World(Leave(disk, s, job), world.phases[w := Done])
    case Done => world
  }

  function Start(s: Shared, jobs: seq<Job>): World {
    World(s, seq(|jobs|, _ => Ready))
  }

  /** Let the workers run their sections in the given order, from maps `s`. */
  function Run(disk: Disk, s: Shared, jobs: seq<Job>, schedule: seq<nat>): (r: World)
    requires forall w | w in schedule :: w < |jobs|
    ensures Consistent(disk, jobs, r)
  {
    if schedule == [] then Start(s, jobs)
    else
      var last := |schedule| - 1;
      assert schedule[last] in schedule && forall w | w in schedule[..last] :: w in schedule;
      Step(disk, jobs, Run(disk, s, jobs, schedule[..last]), schedule[last])
  }

  /** The wait count is zero. */
  ghost predicate AllDone(world: World) {
    forall w | 0 <= w < |world.phases| :: world.phases[w] == Done
  }

  /** The schedule runs every worker to its end. */
  ghost predicate Complete(disk: Disk, s: Shared, jobs: seq<Job>, schedule: seq<nat>) {
    (forall w | w in schedule :: w < |jobs|) && AllDone(Run(disk, s, jobs, schedule))
  }

  // ---- the sorted list of recipe names ----

  lemma AtOrAfterMonotone(names: seq<string>, name: string, a: nat, b: nat)
    requires Sorted(Less, names) && a <= b < |names| && AtOrAfter(names, name)(a)
    ensures AtOrAfter(names, name)(b)
  {
    if a < b && Less(names[b], name) {
      assert Less(names[a], names[b]);
      LessTransitive(names[a], names[b], name);
    }
  }

  /** Where AddName's search ends in a sorted list. */
  lemma NameSlot(names: seq<string>, name: string)
    requires Sorted(Less, names)
    ensures var i := NameIndex(names, name);
      && (forall k | 0 <= k < i :: Less(names[k], name))
      && (forall k | i <= k < |names| :: !Less(names[k], name))
  {
    var f := AtOrAfter(names, name);
    forall a, b | 0 <= a <= b < |names| && f(a) ensures f(b) {
      AtOrAfterMonotone(names, name, a, b);
    }
    BisectMonotone(f, |names|);
  }

  /** The list stays strictly sorted and gains exactly the name. */
  lemma AddNameKeeps(names: seq<string>, name: string)
    requires Sorted(Less, names)
    ensures Sorted(Less, AddName(names, name))
    ensures forall x :: x in AddName(names, name) <==> x in names || x == name
  {
    NameSlot(names, name);
    var i := NameIndex(names, name);
    if i == |names| || name != names[i] {
      forall k | i <= k < |names| ensures Less(name, names[k]) {
        LessTrichotomy(names[i], name);
        if i < k { LessTransitive(name, names[i], names[k]); }
      }
      InsertAtSorted(Less, names, i, name);
    }
  }
}
