// Recipes fetched, edited and saved, seen as values: what sharing between the store and
// the copies it hands out can and can not do.
module RecipeModel {
  import opened Recipes

  /** A recipe's identity and the values of its variables. */
  datatype Shot = Shot(key: string, iaas: string, variables: Variables)

  type Slot = (string, string)

  /** All recipe objects by handle, and which of them the store refers to. */
  datatype Model = Model(objects: seq<Shot>, store: map<Slot, nat>)

  ghost predicate Valid(m: Model) {
    forall s | s in m.store :: m.store[s] < |m.objects|
  }

  datatype Op = Get(slot: Slot) | Edit(handle: nat, name: string, value: Option<string>) | Save(handle: nat)

  function SlotOf(s: Shot): Slot { (s.key, s.iaas) }

  function SetValue(s: Shot, name: string, value: Option<string>): Shot {
    if name in s.variables then s.(variables := s.variables[name := s.variables[name].(value := value)]) else s
  }

  /** GetCookbookRecipe hands out a copy with a new handle; an edit writes through its
      handle; SaveCookbookRecipe makes the store refer to the handle's own object. */
  function Step(m: Model, op: Op): (r: Model)
    requires Valid(m)
    ensures Valid(r)
  {
    match op
    case Get(slot) => if slot in m.store then m.(objects := m.objects + [m.objects[m.store[slot]]]) else m
    case Edit(h, name, value) => if h < |m.objects|
      then m.(objects := m.objects[h := SetValue(m.objects[h], name, value)]) else m
    case Save(h) => if h < |m.objects| then m.(store := m.store[SlotOf(m.objects[h]) := h]) else m
  }

  function Run(m: Model, ops: seq<Op>): (r: Model)
    requires Valid(m)
    ensures Valid(r)
    decreases |ops|
  {
    if ops == [] then m else Run(Step(m, ops[0]), ops[1..])
  }

  /** What GetCookbookRecipe would return. */
  function Fetch(m: Model, slot: Slot): Option<Shot>
    requires Valid(m)
  {
    if slot in m.store then Some(m.objects[m.store[slot]]) else None
  }

  /** A get of a stored recipe hands out one new object with the stored values, and changes
      nothing else; a get of another slot does nothing. */
  lemma GetHandsOutFetched(m: Model, slot: Slot)
    requires Valid(m)
    ensures var r := Step(m, Get(slot));
      && r.store == m.store
      && (slot in m.store ==> Fetch(m, slot).Some? && r.objects == m.objects + [Fetch(m, slot).value])
      && (slot !in m.store ==> Fetch(m, slot).None? && r.objects == m.objects)
  {
  }

  /** An edit sets the value of one variable that is there, and nothing else. */
  lemma EditSetsValue(m: Model, h: nat, name: string, value: Option<string>)
    requires Valid(m) && h < |m.objects|
    ensures var r, before := Step(m, Edit(h, name, value)), m.objects[h];
      && r.store == m.store && |r.objects| == |m.objects|
      && (forall j | 0 <= j < |m.objects| && j != h :: r.objects[j] == m.objects[j])
      && r.objects[h].key == before.key && r.objects[h].iaas == before.iaas
      && r.objects[h].variables.Keys == before.variables.Keys
      && (forall n | n in before.variables && n != name :: r.objects[h].variables[n] == before.variables[n])
      && (name in before.variables ==>
            && r.objects[h].variables[name].value == value
            && r.objects[h].variables[name].name == before.variables[name].name
            && r.objects[h].variables[name].optional == before.variables[name].optional)
  {
  }

  /** A save makes the store refer to the saved object in its own slot, and nowhere else. */
  lemma SaveRefers(m: Model, h: nat, slot: Slot)
    requires Valid(m) && h < |m.objects|
    ensures var r := Step(m, Save(h));
      && r.objects == m.objects
      && (slot == (m.objects[h].key, m.objects[h].iaas) ==> slot in r.store && r.store[slot] == h)
      && (slot != (m.objects[h].key, m.objects[h].iaas) ==>
            (slot in r.store <==> slot in m.store) && (slot in r.store ==> r.store[slot] == m.store[slot]))
  {
  }

  /** An edit reaches what the store returns exactly if the store refers to the edited
      object itself and the edit changes something; other handles never see it. */
  lemma EditReachesExactly(m: Model, h: nat, name: string, value: Option<string>, slot: Slot)
    requires Valid(m) && h < |m.objects|
    ensures var r := Step(m, Edit(h, name, value));
      && (Fetch(r, slot) != Fetch(m, slot) <==>
           slot in m.store && m.store[slot] == h && name in m.objects[h].variables
             && m.objects[h].variables[name].value != value)
      && forall j | 0 <= j < |m.objects| && j != h :: r.objects[j] == m.objects[j]
  {
    var v := m.objects[h].variables;
    if name in v && v[name].value != value {
      assert SetValue(m.objects[h], name, value).variables[name] != v[name];
    } else if name in v {
      assert v[name := v[name].(value := value)] == v;
    }
  }

  /** The operation leaves what is stored in the slot, and the object h, alone. */
  predicate Spares(op: Op, slot: Slot, h: nat, objects: seq<Shot>) {
    match op
    case Get(_) => true
    case Edit(g, _, _) => g != h
    case Save(g) => g < |objects| ==> SlotOf(objects[g]) != slot
  }

  ghost predicate AllSpare(m: Model, ops: seq<Op>, slot: Slot, h: nat)
    requires Valid(m)
    decreases |ops|
  {
    ops != [] ==> Spares(ops[0], slot, h, m.objects) && AllSpare(Step(m, ops[0]), ops[1..], slot, h)
  }

  lemma {:induction false} SparedStays(m: Model, ops: seq<Op>, slot: Slot, h: nat)
    requires Valid(m) && slot in m.store && m.store[slot] == h && AllSpare(m, ops, slot, h)
    ensures Fetch(Run(m, ops), slot) == Some(m.objects[h])
    decreases |ops|
  {
    if ops != [] {
      assert Step(m, ops[0]).objects[h] == m.objects[h];
      SparedStays(Step(m, ops[0]), ops[1..], slot, h);
    }
  }

  /** After a save, a get hands out an object with the saved values, through any gets, any
      edits of other copies and any saves elsewhere. */
  lemma SavedIsReturned(m: Model, h: nat, ops: seq<Op>)
    requires Valid(m) && h < |m.objects|
    requires AllSpare(Step(m, Save(h)), ops, SlotOf(m.objects[h]), h)
    ensures var slot, later := (m.objects[h].key, m.objects[h].iaas), Run(Step(m, Save(h)), ops);
      && Fetch(later, slot) == Some(m.objects[h])
      && Step(later, Get(slot)).objects == later.objects + [m.objects[h]]
  {
    SparedStays(Step(m, Save(h)), ops, SlotOf(m.objects[h]), h);
    GetHandsOutFetched(Run(Step(m, Save(h)), ops), SlotOf(m.objects[h]));
  }

  /** The same objects but for h, and the same store, which does not refer to h. */
  ghost predicate SameBut(a: Model, b: Model, h: nat) {
    && a.store == b.store && |a.objects| == |b.objects|
    && (forall s | s in a.store :: a.store[s] != h)
    && (forall j | 0 <= j < |a.objects| && j != h :: a.objects[j] == b.objects[j])
    && (h < |a.objects| ==> SlotOf(a.objects[h]) == SlotOf(b.objects[h]))
  }

  /** The operations without the edits of h. */
  function WithoutEdits(ops: seq<Op>, h: nat): seq<Op>
    decreases |ops|
  {
    if ops == [] then []
    else (if ops[0].Edit? && ops[0].handle == h then [] else [ops[0]]) + WithoutEdits(ops[1..], h)
  }

  lemma StepSame(a: Model, b: Model, op: Op, h: nat)
    requires Valid(a) && Valid(b) && SameBut(a, b, h) && op != Save(h)
    ensures SameBut(Step(a, op), Step(b, op), h)
    ensures op.Edit? && op.handle == h ==> SameBut(Step(a, op), b, h)
  {
  }

  lemma {:induction false} RunSame(a: Model, b: Model, ops: seq<Op>, h: nat)
    requires Valid(a) && Valid(b) && SameBut(a, b, h) && Save(h) !in ops
    ensures SameBut(Run(a, ops), Run(b, WithoutEdits(ops, h)), h)
    decreases |ops|
  {
    if ops != [] {
      var op, rest := ops[0], WithoutEdits(ops[1..], h);
      assert op in ops && forall o | o in ops[1..] :: o in ops;
      StepSame(a, b, op, h);
      if op.Edit? && op.handle == h {
        RunSame(Step(a, op), b, ops[1..], h);
        assert [] + rest == rest;
      } else {
        RunSame(Step(a, op), Step(b, op), ops[1..], h);
        assert ([op] + rest)[0] == op && ([op] + rest)[1..] == rest;
      }
    }
  }

  /** The edits of a copy that is never saved do not interfere: any run of gets, saves and
      edits gives the same store, and the same values of every other copy, without them. */
  lemma UnsavedEditsInvisible(m: Model, h: nat, ops: seq<Op>, slot: Slot)
    requires Valid(m) && (forall s | s in m.store :: m.store[s] != h) && Save(h) !in ops
    ensures var with, without := Run(m, ops), Run(m, WithoutEdits(ops, h));
      && Fetch(with, slot) == Fetch(without, slot) && with.store == without.store
      && |with.objects| == |without.objects|
      && forall j | 0 <= j < |with.objects| && j != h :: with.objects[j] == without.objects[j]
  {
    RunSame(m, m, ops, h);
  }

  /** Once a copy is saved, later edits of it are stored without another save. */
  lemma EditAfterSaveIsStored(m: Model, h: nat, name: string, value: Option<string>)
    requires Valid(m) && h < |m.objects|
    ensures Fetch(Run(m, [Save(h), Edit(h, name, value)]), SlotOf(m.objects[h]))
      == Some(SetValue(m.objects[h], name, value))
  {
    var a, b := Save(h), Edit(h, name, value);
    assert [a, b][1..] == [b] && [b][1..] == [];
    assert Run(Step(m, a), [b]) == Run(Step(Step(m, a), b), []);
  }
}
