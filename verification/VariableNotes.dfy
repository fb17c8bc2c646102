// What the comment block above a variable says about it, in terms of its lines.
module VariableNotes {
  import opened Recipes
  import opened Annotations
  import opened TemplateReader

  // ---- values ----

  predicate IsTrue(s: string) { s in {"1", "t", "T", "TRUE", "true", "True"} }

  predicate IsFalse(s: string) { s in {"0", "f", "F", "FALSE", "false", "False"} }

  lemma BoolsExactly(s: string)
    ensures ParseBool(s) == Some(true) <==> IsTrue(s)
    ensures ParseBool(s) == Some(false) <==> IsFalse(s)
  {
  }

  /** A number in decimal digits. */
  function Decimal(n: nat): string {
    if n < 10 then ["0123456789"[n]] else Decimal(n / 10) + ["0123456789"[n % 10]]
  }

  lemma {:induction false} DigitsOfDecimal(n: nat)
    ensures Digits(Decimal(n)) == Some(n) && Decimal(n) != [] && Decimal(n)[0] !in {'-', '+'}
  {
    var s := Decimal(n);
    if n < 10 {
      assert s[..|s| - 1] == [] && Digits([]) == Some(0);
    } else {
      DigitsOfDecimal(n / 10);
      assert s[..|s| - 1] == Decimal(n / 10) && s[|s| - 1] == "0123456789"[n % 10];
    }
  }

  /** An order is a number of 32 bits, with or without a sign. */
  lemma OrdersExactly(n: nat)
    ensures ParseInt32(Decimal(n)) == if n < 0x8000_0000 then Some(n) else None
    ensures ParseInt32("-" + Decimal(n)) == if n <= 0x8000_0000 then Some(-(n as int)) else None
    ensures ParseInt32("+" + Decimal(n)) == ParseInt32(Decimal(n))
  {
    var s := Decimal(n);
    DigitsOfDecimal(n);
    assert ("-" + s)[1..] == s && ("+" + s)[1..] == s;
  }

  lemma {:induction false} OtherCharacterFails(s: string, k: nat)
    requires k < |s| && !('0' <= s[k] <= '9')
    ensures Digits(s) == None
  {
    if k < |s| - 1 { OtherCharacterFails(s[..|s| - 1], k); }
  }

  /** No other text is an order. */
  lemma NoOrder(s: string, k: nat)
    requires k < |s| && !('0' <= s[k] <= '9') && (k == 0 ==> s[0] !in {'-', '+'} || |s| == 1)
    ensures ParseInt32(s) == None && ParseInt32("") == None
  {
    if s[0] in {'-', '+'} {
      if k > 0 { OtherCharacterFails(s[1..], k - 1); }
    } else {
      OtherCharacterFails(s, k);
    }
  }

  // ---- the topmost annotation counts ----

  /** Line k belongs to the block that ends at line i: no other line from there to i. */
  predicate InBlock(lines: seq<Line>, i: int, k: int) {
    0 <= k <= i < |lines| && forall j | k <= j <= i :: lines[j] != Other
  }

  lemma BlockExactly(lines: seq<Line>, i: int, k: int)
    requires -1 <= i < |lines|
    ensures InBlock(lines, i, k) <==> BlockStart(lines, i) <= k <= i
  {
    var b := BlockStart(lines, i);
    assert b > 0 && k <= b - 1 <= i ==> !InBlock(lines, i, k);
  }

  /** The line says something under this name: the texts also without a value. */
  predicate Says(l: Line, name: string) {
    && l.Annotation? && l.name == name
    && (l.value != "" ||
        name in {"display_name", "accepted_values_message", "value_inclusion_filter",
                 "value_inclusion_filter_message", "value_exclusion_filter", "value_exclusion_filter_message"})
  }

  predicate IsNote(name: string) {
    name in {"display_name", "accepted_values", "accepted_values_message", "value_inclusion_filter",
             "value_inclusion_filter_message", "value_exclusion_filter", "value_exclusion_filter_message",
             "environment_variables", "depends_on", "tags"}
  }

  /** Line k is the topmost of the block that says something under this name. */
  ghost predicate Topmost(lines: seq<Line>, i: int, k: int, name: string) {
    && InBlock(lines, i, k) && Says(lines[k], name)
    && forall j | InBlock(lines, i, j) && j < k :: !Says(lines[j], name)
  }

  ghost predicate NobodySays(lines: seq<Line>, i: int, name: string) {
    forall j | InBlock(lines, i, j) :: !Says(lines[j], name)
  }

  /** One line further up: what is topmost there, or this line if nothing is. */
  lemma BlockAbove(lines: seq<Line>, i: int, name: string)
    requires 0 <= i < |lines| && lines[i] != Other
    ensures forall j :: InBlock(lines, i, j) <==> j == i || InBlock(lines, i - 1, j)
    ensures NobodySays(lines, i, name) <==> NobodySays(lines, i - 1, name) && !Says(lines[i], name)
    ensures forall k | k != i :: Topmost(lines, i, k, name) <==> Topmost(lines, i - 1, k, name)
    ensures Topmost(lines, i, i, name) <==> NobodySays(lines, i - 1, name) && Says(lines[i], name)
  {
    forall j ensures InBlock(lines, i, j) <==> j == i || InBlock(lines, i - 1, j) {
      if j < i && InBlock(lines, i - 1, j) { assert forall x | j <= x <= i :: lines[x] != Other; }
    }
  }

  lemma NoteApplied(m: Metadata, l: Line, name: string)
    requires IsNote(name) && (l.Annotation? ==> Apply(m, l.name, l.value).Some?)
    ensures var next := if l.Annotation? then Apply(m, l.name, l.value).value else m;
      NoteIs(next, name, if Says(l, name) then Some(l.value) else NoteIn(m, name))
  {
  }

  function NoteIn(m: Metadata, name: string): Option<string> {
    if name in m.notes then Some(m.notes[name]) else None
  }

  predicate NoteIs(m: Metadata, name: string, value: Option<string>) { NoteIn(m, name) == value }

  /** After the scan each note has the value of the topmost line that sets it, or the one it
      had before if no line does. */
  lemma {:induction false} NoteScanned(lines: seq<Line>, i: int, m: Metadata, name: string)
    requires i < |lines| && Scan(lines, i, m).Some? && IsNote(name)
    ensures forall k | Topmost(lines, i, k, name) :: NoteIs(Scan(lines, i, m).value, name, Some(lines[k].value))
    ensures NobodySays(lines, i, name) ==> NoteIs(Scan(lines, i, m).value, name, NoteIn(m, name))
    decreases if i < 0 then 0 else i + 1
  {
    if i >= 0 && lines[i] != Other {
      NoteApplied(m, lines[i], name);
      BlockAbove(lines, i, name);
      NoteScanned(lines, i - 1, if lines[i].Comment? then m else Apply(m, lines[i].name, lines[i].value).value, name);
    }
  }

  lemma {:induction false} SensitiveScanned(lines: seq<Line>, i: int, m: Metadata)
    requires i < |lines| && Scan(lines, i, m).Some?
    ensures var r := Scan(lines, i, m).value;
      && (forall k | Topmost(lines, i, k, "sensitive") :: r.sensitive <==> IsTrue(lines[k].value))
      && (NobodySays(lines, i, "sensitive") ==> r.sensitive == m.sensitive)
    decreases if i < 0 then 0 else i + 1
  {
    if i >= 0 && lines[i] != Other {
      var next := if lines[i].Comment? then m else Apply(m, lines[i].name, lines[i].value).value;
      BlockAbove(lines, i, "sensitive");
      SensitiveScanned(lines, i - 1, next);
    }
  }

  lemma {:induction false} OrderScanned(lines: seq<Line>, i: int, m: Metadata)
    requires i < |lines| && Scan(lines, i, m).Some?
    ensures var r := Scan(lines, i, m).value;
      && (forall k | Topmost(lines, i, k, "order") :: ParseInt32(lines[k].value) == Some(r.order))
      && (NobodySays(lines, i, "order") ==> r.order == m.order)
    decreases if i < 0 then 0 else i + 1
  {
    if i >= 0 && lines[i] != Other {
      var next := if lines[i].Comment? then m else Apply(m, lines[i].name, lines[i].value).value;
      BlockAbove(lines, i, "order");
      OrderScanned(lines, i - 1, next);
    }
  }

  lemma {:induction false} RestScanned(lines: seq<Line>, i: int, m: Metadata)
    requires i < |lines| && Scan(lines, i, m).Some?
    ensures var r := Scan(lines, i, m).value;
      && r.name == m.name && r.description == m.description && r.default == m.default
      && r.fileName == m.fileName && r.lineNumber == m.lineNumber
      && forall n | !IsNote(n) :: (n in r.notes <==> n in m.notes) && (n in r.notes ==> r.notes[n] == m.notes[n])
    decreases if i < 0 then 0 else i + 1
  {
    if i >= 0 && lines[i] != Other {
      RestScanned(lines, i - 1, if lines[i].Comment? then m else Apply(m, lines[i].name, lines[i].value).value);
    }
  }

  /** A line of the block that cannot be used: a flag that is no boolean, an order that is no
      number. */
  predicate Unusable(l: Line) {
    && l.Annotation? && l.value != ""
    && (|| (l.name in {"sensitive", "target_key"} && !IsTrue(l.value) && !IsFalse(l.value))
        || (l.name == "order" && ParseInt32(l.value).None?))
  }

  lemma {:induction false} ScanFailsExactly(lines: seq<Line>, i: int, m: Metadata)
    requires i < |lines|
    ensures Scan(lines, i, m).None? <==> exists k :: InBlock(lines, i, k) && Unusable(lines[k])
    decreases if i < 0 then 0 else i + 1
  {
    if i >= 0 && lines[i] != Other {
      BlockAbove(lines, i, "");
      if Unusable(lines[i]) {
        assert InBlock(lines, i, i);
      } else {
        ScanFailsExactly(lines, i - 1, if lines[i].Comment? then m else Apply(m, lines[i].name, lines[i].value).value);
      }
    }
  }

  // ---- a variable ----

  /** An @is_bastion with a value that is no boolean. */
  predicate BadFlag(l: Line) {
    l.Annotation? && l.name == "is_bastion" && l.value != "" && !IsTrue(l.value) && !IsFalse(l.value)
  }

  /** Reading a variable fails exactly if its file is missing or has a bad bastion flag, or
      its block has a line that cannot be used. */
  lemma ReadFailsExactly(disk: Templates, v: TfVariable)
    requires v.file in disk ==> v.line <= |disk[v.file]| + 1
    ensures ReadVariable(disk, v).None? <==>
      || v.file !in disk
      || (exists k :: 0 <= k < |disk[v.file]| && BadFlag(disk[v.file][k]))
      || exists k :: InBlock(disk[v.file], v.line - 2, k) && Unusable(disk[v.file][k])
  {
    if v.file in disk {
      forall k | 0 <= k < |disk[v.file]| ensures BadBastion(disk[v.file][k]) == BadFlag(disk[v.file][k]) {
        if disk[v.file][k].Annotation? { BoolsExactly(disk[v.file][k].value); }
      }
      ScanFailsExactly(disk[v.file], v.line - 2, Fresh(v));
    }
  }

  /** What a variable is read as: name, description, default and place are its own; it is
      sensitive, ordered and annotated as the topmost lines of its block say, and a key if
      any of them says so. Without an order it stands behind all that have one. */
  lemma ReadExactly(disk: Templates, v: TfVariable)
    requires (v.file in disk ==> v.line <= |disk[v.file]| + 1) && ReadVariable(disk, v).Some?
    ensures var m, lines, i := ReadVariable(disk, v).value, disk[v.file], v.line - 2;
      && m.name == v.name && m.description == v.description && m.default == v.default
      && m.fileName == v.file && m.lineNumber == v.line
      && (m.key <==> exists k :: InBlock(lines, i, k) && IsKeyMark(lines[k]))
      && (NobodySays(lines, i, "sensitive") ==> !m.sensitive)
      && (forall k | Topmost(lines, i, k, "sensitive") :: m.sensitive <==> IsTrue(lines[k].value))
      && (NobodySays(lines, i, "order") ==> m.order == 0x7FFF_FFFF_FFFF_FFFF)
      && (forall k | Topmost(lines, i, k, "order") :: ParseInt32(lines[k].value) == Some(m.order))
  {
    var lines, i := disk[v.file], v.line - 2;
    RestScanned(lines, i, Fresh(v));
    SensitiveScanned(lines, i, Fresh(v));
    OrderScanned(lines, i, Fresh(v));
    KeyScanned(lines, i, Fresh(v));
  }

  predicate IsKeyMark(l: Line) { l.Annotation? && l.name == "target_key" && IsTrue(l.value) }

  lemma KeyScanned(lines: seq<Line>, i: int, m: Metadata)
    requires i < |lines| && Scan(lines, i, m).Some?
    ensures Scan(lines, i, m).value.key <==> m.key || exists k :: InBlock(lines, i, k) && IsKeyMark(lines[k])
  {
    if i >= 0 {
      AnyTargetKeyCounts(lines, i, m);
      forall k ensures InBlock(lines, i, k) <==> BlockStart(lines, i) <= k <= i { BlockExactly(lines, i, k); }
    }
    forall k | 0 <= k < |lines| && lines[k].Annotation?
      ensures ParseBool(lines[k].value) == Some(true) <==> IsTrue(lines[k].value)
    {
      BoolsExactly(lines[k].value);
    }
  }

  /** ... and each note is what the topmost line says that sets it; without one the display
      name is the variable's own, and other notes are not there. */
  lemma NotesExactly(disk: Templates, v: TfVariable, name: string)
    requires (v.file in disk ==> v.line <= |disk[v.file]| + 1) && ReadVariable(disk, v).Some?
    ensures var note, lines, i := NoteIn(ReadVariable(disk, v).value, name), disk[v.file], v.line - 2;
      && (forall k | IsNote(name) && Topmost(lines, i, k, name) :: note == Some(lines[k].value))
      && (!IsNote(name) || NobodySays(lines, i, name) ==>
            note == if name == "display_name" then Some(v.name) else None)
  {
    var lines, i := disk[v.file], v.line - 2;
    RestScanned(lines, i, Fresh(v));
    if IsNote(name) { NoteScanned(lines, i, Fresh(v), name); }
  }

  /** A name that the block says something under has a topmost line that does. */
  lemma {:induction false} TopmostOrNobody(lines: seq<Line>, i: int, name: string)
    requires i < |lines|
    ensures NobodySays(lines, i, name) || exists k :: Topmost(lines, i, k, name)
    decreases if i < 0 then 0 else i + 1
  {
    if i >= 0 && lines[i] != Other {
      var above := i - 1;
      BlockAbove(lines, i, name);
      TopmostOrNobody(lines, above, name);
      if k :| Topmost(lines, above, k, name) {
        assert Topmost(lines, i, k, name);
      } else if Says(lines[i], name) {
        assert Topmost(lines, i, i, name);
      }
    }
  }
}
