// The comment annotations above a Terraform variable and what they set.
module Annotations {
  import opened Recipes

  /** A template line: a comment carrying `@name: value`, another comment, or neither. */
  datatype Line = Annotation(name: string, value: string) | Comment | Other

  datatype TfVariable = TfVariable(name: string, description: string, default: Option<string>, file: string, line: nat)

  datatype Metadata = Metadata(
    name: string,
    description: string,
    default: Option<string>,
    notes: map<string, string>,
    sensitive: bool,
    key: bool,
    order: int,
    fileName: string,
    lineNumber: nat
  )

  const MAX_INT := 0x7FFF_FFFF_FFFF_FFFF

  /** Annotations copied as text, and those copied only when they have a value. */
  const TEXT_NOTES := {"display_name", "accepted_values_message", "value_inclusion_filter",
                       "value_inclusion_filter_message", "value_exclusion_filter", "value_exclusion_filter_message"}
  const LIST_NOTES := {"accepted_values", "environment_variables", "depends_on", "tags"}

  /** strconv.ParseBool. */
  function ParseBool(s: string): Option<bool> {
    if s in {"1", "t", "T", "TRUE", "true", "True"} then Some(true)
    else if s in {"0", "f", "F", "FALSE", "false", "False"} then Some(false)
    else None
  }

  function Digits(s: string): Option<nat> {
    if s == [] then Some(0)
    else
      var c := s[|s| - 1];
      match Digits(s[..|s| - 1])
      case None => None
      case Some(n) => if '0' <= c <= '9' then Some(10 * n + (c as int - '0' as int)) else None
  }

  /** strconv.ParseInt(s, 10, 32). */
  function ParseInt32(s: string): (r: Option<int>)
    ensures r.Some? ==> -0x8000_0000 <= r.value < 0x8000_0000
  {
    var negative := s != [] && s[0] == '-';
    var body := if s != [] && s[0] in {'-', '+'} then s[1..] else s;
    if body == [] then None
    else
      match Digits(body)
      case None => None
      case Some(n) =>
        var v := if negative then -(n as int) else n;
        if -0x8000_0000 <= v < 0x8000_0000 then Some(v) else None
  }

  /** One annotation; None if its value does not parse. */
  function Apply(m: Metadata, name: string, value: string): Option<Metadata> {
    if name in TEXT_NOTES then Some(m.(notes := m.notes[name := value]))
    else if value == "" then Some(m)
    else if name in LIST_NOTES then Some(m.(notes := m.notes[name := value]))
    else if name == "sensitive" then
      match ParseBool(value) case None => None case Some(b) => Some(m.(sensitive := b))
    else if name == "target_key" then
      match ParseBool(value) case None => None case Some(b) => Some(m.(key := m.key || b))
    else if name == "order" then
      match ParseInt32(value) case None => None case Some(o) => Some(m.(order := o))
    else Some(m)
  }

  /** Read the comment block that ends at line i upwards, up to the first other line. */
  function Scan(lines: seq<Line>, i: int, m: Metadata): Option<Metadata>
    requires i < |lines|
    decreases i + 1
  {
    if i < 0 then Some(m)
    else
      match lines[i]
      case Other => Some(m)
      case Comment => Scan(lines, i - 1, m)
      case Annotation(name, value) =>
        match Apply(m, name, value)
        case None => None
        case Some(m') => Scan(lines, i - 1, m')
  }

  /** The first line of the comment block that ends at line i. */
  function BlockStart(lines: seq<Line>, i: int): (b: int)
    requires -1 <= i < |lines|
    ensures 0 <= b <= i + 1
    ensures forall k | b <= k <= i :: lines[k] != Other
    ensures b > 0 ==> lines[b - 1] == Other
    decreases i + 1
  {
    if i < 0 || lines[i] == Other then i + 1 else BlockStart(lines, i - 1)
  }

  /** An annotation of the block that sets the order or marks a key. */
  predicate Sets(lines: seq<Line>, k: int, name: string) {
    0 <= k < |lines| && lines[k].Annotation? && lines[k].name == name && lines[k].value != ""
  }

  /** The topmost @order annotation of the block that ends at line i. */
  function TopOrder(lines: seq<Line>, i: int): (k: Option<nat>)
    requires -1 <= i < |lines|
    ensures k.None? ==> forall j | BlockStart(lines, i) <= j <= i :: !Sets(lines, j, "order")
    ensures k.Some? ==> BlockStart(lines, i) <= k.value <= i && Sets(lines, k.value, "order")
    ensures k.Some? ==> forall j | BlockStart(lines, i) <= j < k.value :: !Sets(lines, j, "order")
    decreases i + 1
  {
    if i < 0 || lines[i] == Other then None
    else if TopOrder(lines, i - 1).Some? then TopOrder(lines, i - 1)
    else if Sets(lines, i, "order") then Some(i) else None
  }

  /** Of several @order annotations the topmost one counts; without one the order given
      at the start stays. */
  lemma {:induction false} TopmostOrderCounts(lines: seq<Line>, i: int, m: Metadata)
    requires -1 <= i < |lines| && Scan(lines, i, m).Some?
    ensures var r, top := Scan(lines, i, m).value, TopOrder(lines, i);
      if top.None? then r.order == m.order else Some(r.order) == ParseInt32(lines[top.value].value)
    decreases i
  {
    if i >= 0 && lines[i] != Other {
      TopmostOrderCounts(lines, i - 1, if lines[i].Comment? then m else Apply(m, lines[i].name, lines[i].value).value);
    }
  }

  /** A variable is a key field exactly when some @target_key of its block says true. */
  lemma {:induction false} AnyTargetKeyCounts(lines: seq<Line>, i: int, m: Metadata)
    requires -1 <= i < |lines| && Scan(lines, i, m).Some?
    ensures Scan(lines, i, m).value.key <==>
      m.key || exists k | BlockStart(lines, i) <= k <= i ::
        Sets(lines, k, "target_key") && ParseBool(lines[k].value) == Some(true)
    decreases i
  {
    if i >= 0 && lines[i] != Other {
      var m' := if lines[i].Comment? then m else Apply(m, lines[i].name, lines[i].value).value;
      AnyTargetKeyCounts(lines, i - 1, m');
      var marks := Sets(lines, i, "target_key") && ParseBool(lines[i].value) == Some(true);
      assert m'.key <==> m.key || marks;
    }
  }

  /** A scan does not touch where the variable comes from. */
  lemma {:induction false} ScanKeepsPlace(lines: seq<Line>, i: int, m: Metadata)
    requires i < |lines| && Scan(lines, i, m).Some?
    ensures var r := Scan(lines, i, m).value;
      r.name == m.name && r.description == m.description && r.fileName == m.fileName && r.lineNumber == m.lineNumber
    decreases i + 1
  {
    if i >= 0 && lines[i] != Other {
      ScanKeepsPlace(lines, i - 1, if lines[i].Comment? then m else Apply(m, lines[i].name, lines[i].value).value);
    }
  }
}
