// Annotations that belong to a whole template file: each file that is read for the first
// time overwrites what earlier ones said.
module FileNotes {
  import opened Ordering
  import opened Recipes
  import opened Annotations
  import opened TemplateReader

  const DESCRIPTION := "recipe_description"
  const FILE_NOTES := {DESCRIPTION, "resource_instance_list", "resource_instance_data_list"}

  type Notes = map<string, string>

  /** The lists are set only by an annotation with a value. */
  predicate SetsNote(l: Line, name: string) {
    l.Annotation? && l.name == name && name in FILE_NOTES && (name == DESCRIPTION || l.value != "")
  }

  /** What the file says last under that name. */
  function FileNote(lines: seq<Line>, name: string): Option<string> {
    if lines == [] then None
    else if SetsNote(lines[|lines| - 1], name) then Some(lines[|lines| - 1].value)
    else FileNote(lines[..|lines| - 1], name)
  }

  function NoteOf(notes: Notes, name: string): Option<string> {
    if name in notes then Some(notes[name]) else None
  }

  /** The notes after reading one more line. */
  function WithLine(notes: Notes, l: Line): Notes {
    if l.Annotation? && SetsNote(l, l.name) then notes[l.name := l.value] else notes
  }

  function WithLines(notes: Notes, lines: seq<Line>): Notes {
    if lines == [] then notes else WithLine(WithLines(notes, lines[..|lines| - 1]), lines[|lines| - 1])
  }

  lemma {:induction false} WithLinesNote(notes: Notes, lines: seq<Line>, name: string)
    ensures NoteOf(WithLines(notes, lines), name)
         == if FileNote(lines, name).Some? then FileNote(lines, name) else NoteOf(notes, name)
  {
    if lines != [] {
      WithLinesNote(notes, lines[..|lines| - 1], name);
    }
  }

  /** The files of the variables met in the given order. */
  function FilesOf(vars: map<string, TfVariable>, order: seq<string>): set<string> {
    if order == [] then {}
    else
      var n := order[|order| - 1];
      FilesOf(vars, order[..|order| - 1]) + if n in vars then {vars[n].file} else {}
  }

  lemma {:induction false} FilesOfAll(vars: map<string, TfVariable>, order: seq<string>, keys: set<string>)
    requires Enumerates(order, keys) && keys <= vars.Keys
    ensures forall f :: f in FilesOf(vars, order) <==> exists n :: n in keys && vars[n].file == f
  {
    if order != [] {
      var n := order[|order| - 1];
      FilesOfAll(vars, order[..|order| - 1], keys - {n});
    }
  }

  /** The notes after a walk that meets the variables in the given order: a file is scanned
      when the first of its variables is met, and cached from then on. */
  function NotesOf(disk: Templates, vars: map<string, TfVariable>, order: seq<string>): Notes {
    if order == [] then map[]
    else NotesNext(disk, vars, order[..|order| - 1], order[|order| - 1], NotesOf(disk, vars, order[..|order| - 1]))
  }

  function NotesNext(disk: Templates, vars: map<string, TfVariable>, order: seq<string>, n: string,
                     notes: Notes): Notes {
    if n !in vars || vars[n].file in FilesOf(vars, order) || vars[n].file !in disk then notes
    else WithLines(notes, disk[vars[n].file])
  }

  // ---- when the walk does not matter ----

  /** Every walk of the variables ends with the same note. */
  ghost predicate NoteSame(disk: Templates, vars: map<string, TfVariable>, name: string) {
    forall a, b | Enumerates(a, vars.Keys) && Enumerates(b, vars.Keys) ::
      NoteOf(NotesOf(disk, vars, a), name) == NoteOf(NotesOf(disk, vars, b), name)
  }

  ghost predicate Readable(disk: Templates, vars: map<string, TfVariable>) {
    forall n | n in vars :: vars[n].file in disk
  }

  function VariableNote(disk: Templates, vars: map<string, TfVariable>, n: string, name: string): Option<string>
    requires Readable(disk, vars) && n in vars
  {
    FileNote(disk[vars[n].file], name)
  }

  /** All files that give such a note give the same. */
  ghost predicate NotesAgree(disk: Templates, vars: map<string, TfVariable>, name: string)
    requires Readable(disk, vars)
  {
    forall m, n | m in vars && n in vars && VariableNote(disk, vars, m, name).Some?
      && VariableNote(disk, vars, n, name).Some? ::
      VariableNote(disk, vars, m, name) == VariableNote(disk, vars, n, name)
  }

  /** The note comes from one of the files, if any of them gives one. */
  lemma {:induction false} NoteComesFrom(disk: Templates, vars: map<string, TfVariable>, order: seq<string>,
                                         keys: set<string>, name: string)
    requires Enumerates(order, keys) && keys <= vars.Keys && Readable(disk, vars)
    ensures var note := NoteOf(NotesOf(disk, vars, order), name);
      if note.None? then forall n | n in keys :: VariableNote(disk, vars, n, name).None?
      else exists n :: n in keys && VariableNote(disk, vars, n, name) == note
  {
    if order != [] {
      var rest, last := order[..|order| - 1], order[|order| - 1];
      NoteComesFrom(disk, vars, rest, keys - {last}, name);
      FilesOfAll(vars, rest, keys - {last});
      WithLinesNote(NotesOf(disk, vars, rest), disk[vars[last].file], name);
    }
  }

  lemma {:induction false} EnumerateSet(keys: set<string>) returns (order: seq<string>)
    ensures Enumerates(order, keys)
  {
    if keys == {} {
      order := [];
    } else {
      var k :| k in keys;
      var rest := EnumerateSet(keys - {k});
      order := rest + [k];
      assert order[..|rest|] == rest;
    }
  }

  /** After a walk that leaves the variables of one file to the end, the note is that file's. */
  lemma {:induction false} LastFileCounts(disk: Templates, vars: map<string, TfVariable>, order: seq<string>,
                                          before: set<string>, tail: seq<string>, own: set<string>,
                                          f: string, name: string)
    requires Readable(disk, vars) && before <= vars.Keys && own <= vars.Keys && before !! own && f in disk
    requires Enumerates(order, before) && Enumerates(tail, own) && own != {}
    requires (forall n | n in before :: vars[n].file != f) && (forall n | n in own :: vars[n].file == f)
    ensures Enumerates(order + tail, before + own) && f in FilesOf(vars, order + tail)
    ensures NotesOf(disk, vars, order + tail) == WithLines(NotesOf(disk, vars, order), disk[f])
    decreases |tail|
  {
    var rest, last := tail[..|tail| - 1], tail[|tail| - 1];
    assert (order + tail)[..|order + tail| - 1] == order + rest;
    assert before + own - {last} == before + (own - {last});
    if rest == [] {
      assert order + rest == order && own - {last} == {} && before + {} == before;
      FilesOfAll(vars, order, before);
    } else {
      assert own - {last} != {};
      LastFileCounts(disk, vars, order, before, rest, own - {last}, f, name);
    }
  }

  /** There is a walk that scans the file of any given variable last. */
  lemma WalkEndingWith(disk: Templates, vars: map<string, TfVariable>, n: string, name: string)
    returns (order: seq<string>)
    requires Readable(disk, vars) && n in vars && VariableNote(disk, vars, n, name).Some?
    ensures Enumerates(order, vars.Keys)
    ensures NoteOf(NotesOf(disk, vars, order), name) == VariableNote(disk, vars, n, name)
  {
    var f := vars[n].file;
    var own := set m | m in vars && vars[m].file == f;
    var a := EnumerateSet(vars.Keys - own);
    var b := EnumerateSet(own);
    assert n in own && vars.Keys - own + own == vars.Keys;
    LastFileCounts(disk, vars, a, vars.Keys - own, b, own, f, name);
    WithLinesNote(NotesOf(disk, vars, a), disk[f], name);
    order := a + b;
  }

  /** The description, and each resource list, is the same for every walk exactly when all
      files that give one give the same. */
  lemma NoteSameExactly(disk: Templates, vars: map<string, TfVariable>, name: string)
    requires Readable(disk, vars)
    ensures NoteSame(disk, vars, name) <==> NotesAgree(disk, vars, name)
  {
    if NotesAgree(disk, vars, name) {
      forall a, b | Enumerates(a, vars.Keys) && Enumerates(b, vars.Keys)
        ensures NoteOf(NotesOf(disk, vars, a), name) == NoteOf(NotesOf(disk, vars, b), name)
      {
        NoteComesFrom(disk, vars, a, vars.Keys, name);
        NoteComesFrom(disk, vars, b, vars.Keys, name);
      }
    }
    if NoteSame(disk, vars, name) {
      forall m, n | m in vars && n in vars && VariableNote(disk, vars, m, name).Some?
        && VariableNote(disk, vars, n, name).Some?
        ensures VariableNote(disk, vars, m, name) == VariableNote(disk, vars, n, name)
      {
        var a := WalkEndingWith(disk, vars, m, name);
        var b := WalkEndingWith(disk, vars, n, name);
      }
    }
  }
}
