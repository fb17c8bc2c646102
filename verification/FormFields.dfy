// The form's fields and the key fields, in terms of the template files' lines.
module FormFields {
  import opened Ordering
  import opened Placement
  import opened Recipes
  import opened Annotations
  import opened TemplateReader
  import opened FileNotes
  import opened VariableNotes

  // ---- the fields ----

  /** Field x stands before field y: by order, then file, then line. */
  predicate StandsBefore(x: Metadata, y: Metadata) {
    || x.order < y.order
    || (x.order == y.order && (Less(x.fileName, y.fileName)
                               || (x.fileName == y.fileName && x.lineNumber < y.lineNumber)))
  }

  /** The fields are the described variables as they are read, each once and in order. */
  ghost predicate AllFields(disk: Templates, vars: map<string, TfVariable>, fields: seq<Metadata>)
    requires WellPlaced(disk, vars)
  {
    && (forall i, j | 0 <= i < j < |fields| :: StandsBefore(fields[i], fields[j]))
    && forall m :: m in fields <==>
         m.name in vars && vars[m.name].description != "" && ReadVariable(disk, vars[m.name]) == Some(m)
  }

  lemma FieldsExactly(disk: Templates, vars: map<string, TfVariable>, order: seq<string>)
    requires WellPlaced(disk, vars) && SeparateLines(vars) && (forall n | n in vars :: vars[n].name == n)
    requires Enumerates(order, vars.Keys)
    ensures AllFields(disk, vars, Listing(FieldBefore, FieldsOf(disk, vars, order)))
  {
    var fields := Listing(FieldBefore, FieldsOf(disk, vars, order));
    FieldOrderUnique(disk, vars, order, order);
    forall i, j | 0 <= i < j < |fields| ensures StandsBefore(fields[i], fields[j]) {
      assert FieldBefore(fields[i], fields[j]);
    }
    forall m ensures m in fields <==>
      m.name in vars && vars[m.name].description != "" && ReadVariable(disk, vars[m.name]) == Some(m)
    {
      assert m in fields <==> IsField(disk, vars, vars.Keys, m);
      if m.name in vars && ReadVariable(disk, vars[m.name]).Some? {
        ReadKeepsPlace(disk, vars[m.name]);
        if ReadVariable(disk, vars[m.name]) != Some(m) { FieldOfName(disk, vars, m.name); }
      }
    }
  }

  /** A field whose variable has no order stands behind all whose variables have one. */
  lemma UnorderedLast(disk: Templates, vars: map<string, TfVariable>, fields: seq<Metadata>, i: nat, j: nat, k: int)
    requires WellPlaced(disk, vars) && AllFields(disk, vars, fields) && i < |fields| && j < |fields|
    requires var v := vars[fields[i].name]; NobodySays(disk[v.file], v.line - 2, "order")
    requires var w := vars[fields[j].name]; Topmost(disk[w.file], w.line - 2, k, "order")
    ensures j < i
  {
    assert fields[i] in fields && fields[j] in fields;
    ReadExactly(disk, vars[fields[i].name]);
    ReadExactly(disk, vars[fields[j].name]);
    assert !StandsBefore(fields[i], fields[j]) && i != j;
  }

  // ---- the key fields ----

  /** The keys are the names of the fields at these places, which are those marked as key. */
  ghost predicate KeysAt(fields: seq<Metadata>, keys: seq<string>, at: seq<int>) {
    && |at| == |keys| && (forall i, j | 0 <= i < j < |at| :: at[i] < at[j])
    && (forall i | 0 <= i < |at| :: 0 <= at[i] < |fields| && fields[at[i]].key && keys[i] == fields[at[i]].name)
    && (forall k | 0 <= k < |fields| && fields[k].key :: k in at)
  }

  /** The keys are the names of the fields marked as key, in field order. */
  ghost predicate ListsKeys(fields: seq<Metadata>, keys: seq<string>) {
    exists at :: KeysAt(fields, keys, at)
  }

  lemma KeysAtNext(fields: seq<Metadata>, keys: seq<string>, at: seq<int>, m: Metadata)
    requires KeysAt(fields, keys, at)
    ensures KeysAt(fields + [m], keys + (if m.key then [m.name] else []), at + if m.key then [|fields|] else [])
  {
    var all, next := fields + [m], at + if m.key then [|fields|] else [];
    forall k | 0 <= k < |all| && all[k].key ensures k in next {
      if k < |fields| { assert fields[k].key; }
    }
  }

  lemma ListsKeysNext(fields: seq<Metadata>, keys: seq<string>, m: Metadata)
    requires ListsKeys(fields, keys)
    ensures ListsKeys(fields + [m], keys + if m.key then [m.name] else [])
  {
    var at :| KeysAt(fields, keys, at);
    KeysAtNext(fields, keys, at, m);
  }

  lemma {:induction false} KeyNamesExactly(fields: seq<Metadata>)
    ensures ListsKeys(fields, KeyNames(fields))
  {
    if fields == [] {
      assert KeysAt([], [], []);
    } else {
      var rest, last := fields[..|fields| - 1], fields[|fields| - 1];
      KeyNamesExactly(rest);
      ListsKeysNext(rest, KeyNames(rest), last);
      assert fields == rest + [last];
    }
  }

  lemma KeysListed(fields: seq<Metadata>, keys: seq<string>, name: string)
    requires ListsKeys(fields, keys)
    ensures name in keys <==> exists m :: m in fields && m.key && m.name == name
  {
    var at :| KeysAt(fields, keys, at);
    if name in keys {
      var i :| 0 <= i < |keys| && keys[i] == name;
      assert fields[at[i]] in fields && fields[at[i]].key;
    }
    if m :| m in fields && m.key && m.name == name {
      var k: nat :| k < |fields| && fields[k] == m;
      assert k in at;
      var i :| 0 <= i < |at| && at[i] == k;
      assert keys[i] == name;
    }
  }

  /** A name is a key field exactly if it is a described variable with a true @target_key in
      its comment block. */
  lemma KeyFieldsExactly(disk: Templates, vars: map<string, TfVariable>, fields: seq<Metadata>, keys: seq<string>,
                         name: string)
    requires WellPlaced(disk, vars) && AllFields(disk, vars, fields) && ListsKeys(fields, keys)
    requires forall n | n in vars :: vars[n].name == n && ReadVariable(disk, vars[n]).Some?
    ensures name in keys <==>
      && name in vars && vars[name].description != "" && vars[name].file in disk
      && exists k :: InBlock(disk[vars[name].file], vars[name].line - 2, k) && IsKeyMark(disk[vars[name].file][k])
  {
    KeysListed(fields, keys, name);
    if name in vars {
      ReadExactly(disk, vars[name]);
      var m := ReadVariable(disk, vars[name]).value;
      assert m in fields <==> vars[name].description != "";
      assert forall x | x in fields && x.name == name :: x == m;
    }
  }

  /** Every walk of the variables gives the same key fields. */
  lemma KeyFieldsUnique(disk: Templates, vars: map<string, TfVariable>, order: seq<string>, other: seq<string>)
    requires WellPlaced(disk, vars) && SeparateLines(vars) && (forall n | n in vars :: vars[n].name == n)
    requires Enumerates(order, vars.Keys) && Enumerates(other, vars.Keys)
    ensures KeyNames(Listing(FieldBefore, FieldsOf(disk, vars, order)))
         == KeyNames(Listing(FieldBefore, FieldsOf(disk, vars, other)))
  {
    FieldOrderUnique(disk, vars, order, other);
  }

  // ---- what files say ----

  /** Some line of a file that declares a variable is a true @is_bastion. */
  ghost predicate SaysBastion(disk: Templates, vars: map<string, TfVariable>) {
    exists n, k: nat :: n in vars && vars[n].file in disk && k < |disk[vars[n].file]| && IsFlag(disk[vars[n].file][k])
  }

  predicate IsFlag(l: Line) { l.Annotation? && l.name == "is_bastion" && IsTrue(l.value) }

  lemma BastionsExactly(lines: seq<Line>)
    ensures Bastion(lines) <==> exists k: nat :: k < |lines| && IsFlag(lines[k])
  {
    forall k | 0 <= k < |lines| ensures MarksBastion(lines[k]) == IsFlag(lines[k]) {
      if lines[k].Annotation? { BoolsExactly(lines[k].value); }
    }
  }

  /** The line gives the recipe's description, or a resource list that is not empty. */
  predicate Gives(l: Line, name: string) {
    && l.Annotation? && l.name == name
    && (name == "recipe_description" ||
        (name in {"resource_instance_list", "resource_instance_data_list"} && l.value != ""))
  }

  /** A file's note is what its last line says that gives one. */
  lemma {:induction false} FileNoteExactly(lines: seq<Line>, name: string)
    ensures FileNote(lines, name).None? ==> forall k | 0 <= k < |lines| :: !Gives(lines[k], name)
    ensures FileNote(lines, name).Some? ==>
      exists k :: 0 <= k < |lines| && Gives(lines[k], name) && FileNote(lines, name) == Some(lines[k].value)
                  && forall j | k < j < |lines| :: !Gives(lines[j], name)
  {
    if lines != [] {
      var n := |lines| - 1;
      FileNoteExactly(lines[..n], name);
      assert SetsNote(lines[n], name) == Gives(lines[n], name);
      assert forall k | 0 <= k < n :: lines[..n][k] == lines[k];
      if Gives(lines[n], name) {
        assert FileNote(lines, name) == Some(lines[n].value);
      } else if FileNote(lines[..n], name).Some? {
        var k :| 0 <= k < n && Gives(lines[..n][k], name) && FileNote(lines[..n], name) == Some(lines[..n][k].value)
                 && forall j | k < j < n :: !Gives(lines[..n][j], name);
        assert Gives(lines[k], name) && forall j | k < j < |lines| :: !Gives(lines[j], name);
      }
    }
  }
}
