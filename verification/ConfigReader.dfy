// The Terraform template reader object.
module ConfigReaders {
  import opened Ordering
  import opened Placement
  import opened SortedSlices
  import opened Recipes
  import opened Annotations
  import opened TemplateReader
  import opened FileNotes
  import opened VariableNotes
  import opened FormFields

  method CollectKeys(fields: seq<Metadata>) returns (keys: seq<string>)
    ensures keys == KeyNames(fields)
  {
    keys := [];
    var i := 0;
    while i < |fields|
      invariant i <= |fields| && keys == KeyNames(fields[..i])
    {
      assert fields[..i + 1][..i] == fields[..i];
      if fields[i].key {
        keys := keys + [fields[i].name];
      }
      i := i + 1;
    }
    assert fields[..i] == fields;
  }

  /** Place a variable among the fields if it has a description. */
  method PlaceField(slots: array<Metadata>, ll: nat, vm: Metadata, ghost walk: seq<Metadata>)
    returns (next: nat, ghost walk': seq<Metadata>)
    requires ll == |walk| < slots.Length && slots[..ll] == Listing(FieldBefore, walk)
    modifies slots
    ensures walk' == walk + if vm.description != "" then [vm] else []
    ensures next == |walk'| && slots[..next] == Listing(FieldBefore, walk')
  {
    next, walk' := ll, walk;
    if vm.description != "" {
      PlaceInto(FieldBefore, slots, ll, vm, walk);
      next, walk' := ll + 1, walk + [vm];
    }
  }

  /** Some template file that declares a variable says that the recipe is a bastion. */
  ghost predicate NamesBastion(disk: Templates, vars: map<string, TfVariable>) {
    exists n :: n in vars && vars[n].file in disk && Bastion(disk[vars[n].file])
  }

  lemma SaysBastionExactly(disk: Templates, vars: map<string, TfVariable>)
    ensures NamesBastion(disk, vars) <==> SaysBastion(disk, vars)
  {
    forall n | n in vars && vars[n].file in disk
      ensures Bastion(disk[vars[n].file]) <==>
        exists k: nat :: k < |disk[vars[n].file]| && IsFlag(disk[vars[n].file][k])
    {
      BastionsExactly(disk[vars[n].file]);
    }
    if n :| n in vars && vars[n].file in disk && Bastion(disk[vars[n].file]) {
      BastionsExactly(disk[vars[n].file]);
    }
  }

  lemma BastionOfFiles(disk: Templates, cache: Templates, vars: map<string, TfVariable>, order: seq<string>)
    requires Enumerates(order, vars.Keys) && cache.Keys == FilesOf(vars, order)
    requires forall f | f in cache :: f in disk && cache[f] == disk[f]
    ensures (exists f :: f in cache && Bastion(cache[f])) <==> NamesBastion(disk, vars)
  {
    FilesOfAll(vars, order, vars.Keys);
  }

  /** One more variable of the walk, and its field if it has a description. */
  lemma FieldsNext(disk: Templates, vars: map<string, TfVariable>, order: seq<string>, left: set<string>, name: string,
                   vm: Metadata, known: set<string>)
    requires WellPlaced(disk, vars) && Walking(order, vars.Keys, left) && name in left
    requires ReadVariable(disk, vars[name]) == Some(vm)
    ensures |order| < |vars| && Walking(order + [name], vars.Keys, left - {name})
    ensures FieldsOf(disk, vars, order + [name])
      == FieldsOf(disk, vars, order) + if vm.description != "" then [vm] else []
    ensures NotesOf(disk, vars, order + [name]) == NotesNext(disk, vars, order, name, NotesOf(disk, vars, order))
    ensures known + FilesOf(vars, order + [name]) == known + FilesOf(vars, order) + {vars[name].file}
  {
    WalkNext(order, vars.Keys, left, name);
    assert (order + [name])[..|order|] == order;
  }

  /** A walk in progress: every variable that it has met could be read. */
  ghost predicate Progress(disk: Templates, vars: map<string, TfVariable>, order: seq<string>, left: set<string>)
    requires WellPlaced(disk, vars)
  {
    && Walking(order, vars.Keys, left) && |FieldsOf(disk, vars, order)| <= |order|
    && forall n | n in vars && n !in left :: ReadVariable(disk, vars[n]).Some?
  }

  /** The slice holds the fields met so far, each in its place. */
  ghost predicate Filled(disk: Templates, vars: map<string, TfVariable>, order: seq<string>, slots: array<Metadata>,
                         ll: nat)
    requires WellPlaced(disk, vars)
    reads slots
  {
    ll == |FieldsOf(disk, vars, order)| <= slots.Length
      && slots[..ll] == Listing(FieldBefore, FieldsOf(disk, vars, order))
  }

  lemma ProgressEnds(disk: Templates, vars: map<string, TfVariable>, order: seq<string>)
    requires WellPlaced(disk, vars) && Progress(disk, vars, order, {})
    ensures Enumerates(order, vars.Keys) && forall n | n in vars :: ReadVariable(disk, vars[n]).Some?
  {
    WalkEnds(order, vars.Keys);
  }

  class ConfigReader {
    var templatesWithVars: Templates
    var notes: Notes
    var isBastion: bool
    var fields: seq<Metadata>
    var keyFields: seq<string>

    constructor ()
      ensures templatesWithVars == map[] && keyFields == [] && !isBastion && notes == map[]
    {
      templatesWithVars, notes, isBastion := map[], map[], false;
      fields, keyFields := [], [];
    }

    /** Each cached file is on disk as cached and passed the scan for file annotations. */
    ghost predicate CacheSound(disk: Templates)
      reads this`templatesWithVars
    {
      forall f | f in templatesWithVars :: f in disk && templatesWithVars[f] == disk[f] && FileReads(disk[f])
    }

    /** The recipe counts as a bastion exactly when a file read so far says so. */
    ghost predicate BastionKnown()
      reads this
    {
      isBastion <==> exists f :: f in templatesWithVars && Bastion(templatesWithVars[f])
    }

    /** Scan a file for annotations that belong to no variable. */
    method ReadTemplate(lines: seq<Line>) returns (ok: bool)
      modifies this`notes, this`isBastion
      ensures ok == FileReads(lines)
      ensures ok ==> (isBastion <==> old(isBastion) || Bastion(lines))
      ensures ok ==> notes == WithLines(old(notes), lines)
    {
      var k := 0;
      while k < |lines|
        invariant k <= |lines| && forall i | 0 <= i < k :: !BadBastion(lines[i])
        invariant isBastion <==> old(isBastion) || exists i | 0 <= i < k :: MarksBastion(lines[i])
        invariant notes == WithLines(old(notes), lines[..k])
      {
        assert lines[..k + 1][..k] == lines[..k];
        if lines[k].Annotation? {
          var value := lines[k].value;
          if lines[k].name == DESCRIPTION || (lines[k].name in FILE_NOTES && value != "") {
            notes := notes[lines[k].name := value];
          } else if lines[k].name == "is_bastion" && value != "" {
            match ParseBool(value) {
              case None => return false;
              case Some(b) => isBastion := isBastion || b;
            }
          }
        }
        k := k + 1;
      }
      assert lines[..k] == lines;
      ok := true;
    }

    /** Read a variable's annotations, from the cache when its file has been read. */
    method ReadVariableMetadata(disk: Templates, v: TfVariable) returns (m: Option<Metadata>)
      requires CacheSound(disk) && (v.file in disk ==> v.line <= |disk[v.file]| + 1)
      modifies this`templatesWithVars, this`notes, this`isBastion
      ensures CacheSound(disk)
      ensures m == ReadVariable(disk, v)
      ensures m.Some? ==> templatesWithVars.Keys == old(templatesWithVars).Keys + {v.file}
      ensures m.Some? && old(BastionKnown()) ==> BastionKnown()
      ensures m.Some? ==>
        notes == if v.file in old(templatesWithVars) || v.file !in disk then old(notes)
          else WithLines(old(notes), disk[v.file])
    {
      if v.file !in templatesWithVars {
        if v.file !in disk {
          return None;
        }
        var ok := ReadTemplate(disk[v.file]);
        if !ok {
          return None;
        }
        templatesWithVars := templatesWithVars[v.file := disk[v.file]];
      }
      var lines := templatesWithVars[v.file];
      var vm := Fresh(v);
      var i := v.line - 2;
      while i >= 0
        invariant i < |lines| && Scan(lines, i, vm) == Scan(lines, v.line - 2, Fresh(v))
      {
        if lines[i] == Other {
          break;
        }
        if lines[i].Annotation? {
          match Apply(vm, lines[i].name, lines[i].value) {
            case None => return None;
            case Some(next) => vm := next;
          }
        }
        i := i - 1;
      }
      m := Some(vm);
    }

    /** One turn of the walk: read the variable and place it if it is described. */
    method ReadField(disk: Templates, vars: map<string, TfVariable>, ghost order: seq<string>, ghost left: set<string>,
                     name: string, slots: array<Metadata>, ll: nat, ghost known: set<string>, ghost clean: bool)
      returns (ok: bool, next: nat)
      requires CacheSound(disk) && WellPlaced(disk, vars) && name in left && slots.Length == |vars|
      requires Progress(disk, vars, order, left) && Filled(disk, vars, order, slots, ll)
      requires templatesWithVars.Keys == known + FilesOf(vars, order)
      requires clean ==> known == {} && notes == NotesOf(disk, vars, order)
      modifies this`templatesWithVars, this`notes, this`isBastion, slots
      ensures CacheSound(disk)
      ensures ok <==> ReadVariable(disk, vars[name]).Some?
      ensures ok ==> Progress(disk, vars, order + [name], left - {name})
      ensures ok ==> Filled(disk, vars, order + [name], slots, next)
      ensures ok ==> templatesWithVars.Keys == known + FilesOf(vars, order + [name])
      ensures ok && clean ==> notes == NotesOf(disk, vars, order + [name])
      ensures ok && old(BastionKnown()) ==> BastionKnown()
    {
      var vm := ReadVariableMetadata(disk, vars[name]);
      if vm.None? {
        return false, ll;
      }
      FieldsNext(disk, vars, order, left, name, vm.value, known);
      ghost var walk;
      next, walk := PlaceField(slots, ll, vm.value, FieldsOf(disk, vars, order));
      ok := true;
    }

    /** The walk over the module's variables: each described one is placed as it is read. */
    method ReadFields(disk: Templates, vars: map<string, TfVariable>, slots: array<Metadata>)
      returns (ok: bool, ll: nat, ghost order: seq<string>)
      requires CacheSound(disk) && WellPlaced(disk, vars) && slots.Length == |vars|
      modifies this`templatesWithVars, this`notes, this`isBastion, slots
      ensures ok <==> forall n | n in vars :: ReadVariable(disk, vars[n]).Some?
      ensures ok ==> Enumerates(order, vars.Keys) && Filled(disk, vars, order, slots, ll)
      ensures CacheSound(disk)
      ensures ok ==> templatesWithVars.Keys == old(templatesWithVars).Keys + FilesOf(vars, order)
      ensures ok && old(templatesWithVars) == map[] && old(notes) == map[] ==> notes == NotesOf(disk, vars, order)
      ensures ok && old(BastionKnown()) ==> BastionKnown()
    {
      ghost var known, clean := templatesWithVars.Keys, templatesWithVars == map[] && notes == map[];
      var names := vars.Keys;
      order, ll := [], 0;
      while names != {}
        invariant Progress(disk, vars, order, names) && Filled(disk, vars, order, slots, ll)
        invariant CacheSound(disk) && templatesWithVars.Keys == known + FilesOf(vars, order)
        invariant old(BastionKnown()) ==> BastionKnown()
        invariant clean ==> known == {} && notes == NotesOf(disk, vars, order)
      {
        var name :| name in names;
        ok, ll := ReadField(disk, vars, order, names, name, slots, ll, known, clean);
        if !ok {
          assert ReadVariable(disk, vars[name]).None?;
          return false, 0, [];
        }
        order, names := order + [name], names - {name};
      }
      ProgressEnds(disk, vars, order);
      ok := true;
    }

    method ReadList(disk: Templates, vars: map<string, TfVariable>)
      returns (ok: bool, list: seq<Metadata>, ghost order: seq<string>)
      requires CacheSound(disk) && WellPlaced(disk, vars)
      modifies this`templatesWithVars, this`notes, this`isBastion
      ensures ok <==> forall n | n in vars :: ReadVariable(disk, vars[n]).Some?
      ensures ok ==> Enumerates(order, vars.Keys) && list == Listing(FieldBefore, FieldsOf(disk, vars, order))
      ensures ok && old(templatesWithVars) == map[] && !old(isBastion) ==> (isBastion <==> NamesBastion(disk, vars))
      ensures ok && old(templatesWithVars) == map[] && old(notes) == map[] ==> notes == NotesOf(disk, vars, order)
    {
      var slots := new Metadata[|vars|];
      var ll: nat;
      ok, ll, order := ReadFields(disk, vars, slots);
      list := if ok then slots[..ll] else [];
      if ok && old(templatesWithVars) == map[] {
        BastionOfFiles(disk, templatesWithVars, vars, order);
      }
    }

    /** Read all variables of a module into the ordered field list and the key fields: the
        described variables in order, and the names of those marked as key. */
    method ReadMetadata(disk: Templates, vars: map<string, TfVariable>) returns (ok: bool, ghost order: seq<string>)
      requires CacheSound(disk) && WellPlaced(disk, vars)
      modifies this
      ensures ok <==> forall n | n in vars :: ReadVariable(disk, vars[n]).Some?
      ensures ok ==> Enumerates(order, vars.Keys) && fields == Listing(FieldBefore, FieldsOf(disk, vars, order))
      ensures ok ==> keyFields == old(keyFields) + KeyNames(fields) && ListsKeys(fields, KeyNames(fields))
      ensures ok && SeparateLines(vars) && (forall n | n in vars :: vars[n].name == n) ==> AllFields(disk, vars, fields)
      ensures ok && old(templatesWithVars) == map[] && !old(isBastion) ==> (isBastion <==> SaysBastion(disk, vars))
      ensures ok && old(templatesWithVars) == map[] && old(notes) == map[] ==> notes == NotesOf(disk, vars, order)
    {
      var list: seq<Metadata>;
      ok, list, order := ReadList(disk, vars);
      if ok {
        fields := list;
        var keys := CollectKeys(fields);
        keyFields := keyFields + keys;
        KeyNamesExactly(fields);
        SaysBastionExactly(disk, vars);
        if SeparateLines(vars) && forall n | n in vars :: vars[n].name == n {
          FieldsExactly(disk, vars, order);
        }
      }
    }
  }
}
