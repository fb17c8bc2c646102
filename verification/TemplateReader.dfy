// From the variables of a Terraform module to the fields of a form: what the template
// reader computes.
module TemplateReader {
  import opened Ordering
  import opened Placement
  import opened Recipes
  import opened Annotations

  /** The search predicate of ReadMetadata: by order, then file name, then line. */
  predicate FieldBefore(x: Metadata, y: Metadata) {
    if x.order != y.order then x.order < y.order
    else if x.fileName != y.fileName then Less(x.fileName, y.fileName)
    else x.lineNumber < y.lineNumber
  }

  type Templates = map<string, seq<Line>>

  /** Every variable stands behind the lines of its own file that lead up to it. */
  ghost predicate WellPlaced(disk: Templates, vars: map<string, TfVariable>) {
    forall n | n in vars && vars[n].file in disk :: vars[n].line <= |disk[vars[n].file]| + 1
  }

  /** The annotation scan of a whole file fails on an @is_bastion that is no boolean. */
  predicate FileReads(lines: seq<Line>) {
    forall k | 0 <= k < |lines| :: BadBastion(lines[k]) == false
  }

  predicate BadBastion(l: Line) {
    l.Annotation? && l.name == "is_bastion" && l.value != "" && ParseBool(l.value).None?
  }

  /** The file says that the recipe is a bastion. */
  predicate MarksBastion(l: Line) {
    l.Annotation? && l.name == "is_bastion" && ParseBool(l.value) == Some(true)
  }

  predicate Bastion(lines: seq<Line>) {
    exists k | 0 <= k < |lines| :: MarksBastion(lines[k])
  }

  function Fresh(v: TfVariable): Metadata {
    Metadata(v.name, v.description, v.default, map["display_name" := v.name], false, false, MAX_INT, v.file, v.line)
  }

  /** What readVariableMetadata returns for a variable, whatever has been cached. */
  function ReadVariable(disk: Templates, v: TfVariable): Option<Metadata>
    requires v.file in disk ==> v.line <= |disk[v.file]| + 1
  {
    if v.file !in disk || !FileReads(disk[v.file]) then None
    else Scan(disk[v.file], v.line - 2, Fresh(v))
  }

  lemma ReadKeepsPlace(disk: Templates, v: TfVariable)
    requires v.file in disk ==> v.line <= |disk[v.file]| + 1
    requires ReadVariable(disk, v).Some?
    ensures var m := ReadVariable(disk, v).value;
      m.name == v.name && m.description == v.description && m.fileName == v.file && m.lineNumber == v.line
  {
    ScanKeepsPlace(disk[v.file], v.line - 2, Fresh(v));
  }

  /** The described variables among those met in the given order. */
  function FieldsOf(disk: Templates, vars: map<string, TfVariable>, order: seq<string>): seq<Metadata>
    requires WellPlaced(disk, vars)
  {
    if order == [] then []
    else FieldsOf(disk, vars, order[..|order| - 1]) + FieldOf(disk, vars, order[|order| - 1])
  }

  function FieldOf(disk: Templates, vars: map<string, TfVariable>, name: string): seq<Metadata>
    requires WellPlaced(disk, vars)
  {
    if name !in vars then []
    else
      match ReadVariable(disk, vars[name])
      case None => []
      case Some(m) => if m.description != "" then [m] else []
  }

  ghost predicate IsField(disk: Templates, vars: map<string, TfVariable>, keys: set<string>, m: Metadata)
    requires WellPlaced(disk, vars)
  {
    m.name in keys && FieldOf(disk, vars, m.name) == [m]
  }

  lemma FieldOfName(disk: Templates, vars: map<string, TfVariable>, name: string)
    requires WellPlaced(disk, vars) && (forall n | n in vars :: vars[n].name == n)
    ensures FieldOf(disk, vars, name) == [] || FieldOf(disk, vars, name) == [FieldOf(disk, vars, name)[0]]
    ensures forall m | m in FieldOf(disk, vars, name) ::
      m.name == name && name in vars && m.fileName == vars[name].file && m.lineNumber == vars[name].line
  {
    if name in vars && ReadVariable(disk, vars[name]).Some? {
      ReadKeepsPlace(disk, vars[name]);
    }
  }

  /** Every walk meets the same fields, each once. */
  lemma {:induction false} FieldsOfMembers(disk: Templates, vars: map<string, TfVariable>, order: seq<string>,
                                           keys: set<string>)
    requires WellPlaced(disk, vars) && (forall n | n in vars :: vars[n].name == n)
    requires Enumerates(order, keys)
    ensures Distinct(FieldsOf(disk, vars, order))
    ensures forall m :: m in FieldsOf(disk, vars, order) <==> IsField(disk, vars, keys, m)
  {
    if order != [] {
      var rest, last := order[..|order| - 1], order[|order| - 1];
      FieldsOfMembers(disk, vars, rest, keys - {last});
      FieldOfName(disk, vars, last);
      var s, t := FieldsOf(disk, vars, rest), FieldOf(disk, vars, last);
      forall m ensures m in s + t <==> IsField(disk, vars, keys, m) {
        assert m in s <==> IsField(disk, vars, keys - {last}, m);
        assert m in t <==> m.name == last && FieldOf(disk, vars, last) == [m];
      }
      forall i | 0 <= i < |s| && t != [] ensures s[i] != t[0] {
        assert s[i] in s && t[0] in t;
      }
    }
  }

  /** No two variables are declared on one line. */
  ghost predicate SeparateLines(vars: map<string, TfVariable>) {
    forall a, b | a in vars && b in vars && a != b :: vars[a].file != vars[b].file || vars[a].line != vars[b].line
  }

  lemma FieldsTotal(disk: Templates, vars: map<string, TfVariable>, order: seq<string>)
    requires WellPlaced(disk, vars) && SeparateLines(vars) && (forall n | n in vars :: vars[n].name == n)
    requires Enumerates(order, vars.Keys)
    ensures StrictTotalOn(FieldBefore, FieldsOf(disk, vars, order))
  {
    var s := FieldsOf(disk, vars, order);
    FieldsOfMembers(disk, vars, order, vars.Keys);
    forall x, y | x in s && y in s && x != y ensures FieldBefore(x, y) <==> !FieldBefore(y, x) {
      assert IsField(disk, vars, vars.Keys, x) && IsField(disk, vars, vars.Keys, y);
      FieldOfName(disk, vars, x.name);
      FieldOfName(disk, vars, y.name);
      LessTrichotomy(x.fileName, y.fileName);
    }
    forall x, y, z | x in s && y in s && z in s && x != y && y != z && FieldBefore(x, y) && FieldBefore(y, z)
      ensures FieldBefore(x, z)
    {
      FieldBeforeTransitive(x, y, z);
    }
  }

  lemma FieldBeforeTransitive(x: Metadata, y: Metadata, z: Metadata)
    requires FieldBefore(x, y) && FieldBefore(y, z)
    ensures FieldBefore(x, z)
  {
    LessTrichotomy(x.fileName, y.fileName);
    if Less(x.fileName, y.fileName) && Less(y.fileName, z.fileName) {
      LessTransitive(x.fileName, y.fileName, z.fileName);
      LessTrichotomy(x.fileName, z.fileName);
    }
  }

  /** Every walk of the module's variables yields the same field list: the described
      variables, each once, strictly ascending by order, file and line. */
  lemma FieldOrderUnique(disk: Templates, vars: map<string, TfVariable>, order: seq<string>, other: seq<string>)
    requires WellPlaced(disk, vars) && SeparateLines(vars) && (forall n | n in vars :: vars[n].name == n)
    requires Enumerates(order, vars.Keys) && Enumerates(other, vars.Keys)
    ensures var fields := Listing(FieldBefore, FieldsOf(disk, vars, order));
      && fields == Listing(FieldBefore, FieldsOf(disk, vars, other))
      && Sorted(FieldBefore, fields)
      && forall m :: m in fields <==> IsField(disk, vars, vars.Keys, m)
  {
    var s, t := FieldsOf(disk, vars, order), FieldsOf(disk, vars, other);
    FieldsTotal(disk, vars, order);
    FieldsOfMembers(disk, vars, order, vars.Keys);
    FieldsOfMembers(disk, vars, other, vars.Keys);
    DistinctSameMembers(s, t);
    ListingUnique(FieldBefore, s, t);
    ListingPermutation(FieldBefore, s);
    PermutationMembers(Listing(FieldBefore, s), s);
  }

  /** The names of the key fields, in field order. */
  function KeyNames(fields: seq<Metadata>): seq<string> {
    if fields == [] then []
    else
      var last := fields[|fields| - 1];
      KeyNames(fields[..|fields| - 1]) + if last.key then [last.name] else []
  }
}
