// The recipe objects themselves: the heap behaves as the model of values says.
module RecipeStore {
  import opened Recipes
  import M = RecipeModel

  class VariableObject {
    var name: string
    var value: Option<string>
    var optional: bool

    constructor (name: string, value: Option<string>, optional: bool)
      ensures this.name == name && this.value == value && this.optional == optional
    {
      this.name, this.value, this.optional := name, value, optional;
    }

    function Read(): Variable
      reads this
    {
      Variable(name, value, optional)
    }
  }

  class RecipeObject {
    const key: string
    const iaas: string
    const variables: map<string, VariableObject>

    constructor (key: string, iaas: string, variables: map<string, VariableObject>)
      ensures this.key == key && this.iaas == iaas && this.variables == variables
    {
      this.key, this.iaas, this.variables := key, iaas, variables;
    }

    function Shot(): M.Shot
      reads variables.Values
    {
      M.Shot(key, iaas, map n | n in variables :: variables[n].Read())
    }

    /** No two names share a variable object. */
    ghost predicate Distinct() {
      forall a, b | a in variables && b in variables && a != b :: variables[a] != variables[b]
    }

    /** Write one variable's value. */
    method SetValue(name: string, value: Option<string>)
      requires name in variables && Distinct()
      modifies variables[name]
      ensures variables[name].value == value
      ensures variables[name].name == old(variables[name].name)
      ensures variables[name].optional == old(variables[name].optional)
      ensures Shot() == M.SetValue(old(Shot()), name, value)
    {
      ghost var next := M.SetValue(Shot(), name, value);
      variables[name].value := value;
      forall n | n in variables ensures Shot().variables[n] == next.variables[n] {
        if n != name { assert variables[n].Read() == old(variables[n].Read()); }
      }
    }

    /** A new recipe with new variables of the same values. */
    method Copy() returns (copy: RecipeObject)
      ensures fresh(copy) && copy.Distinct() && forall n | n in copy.variables :: fresh(copy.variables[n])
      ensures copy.Shot() == Shot()
      ensures copy.key == key && copy.iaas == iaas && copy.variables.Keys == variables.Keys
      ensures forall n | n in variables ::
        && copy.variables[n].name == variables[n].name && copy.variables[n].value == variables[n].value
        && copy.variables[n].optional == variables[n].optional
    {
      var copied: map<string, VariableObject> := map[];
      var left := variables.Keys;
      while left != {}
        invariant left <= variables.Keys && copied.Keys == variables.Keys - left
        invariant forall n | n in copied :: fresh(copied[n]) && copied[n].Read() == variables[n].Read()
        invariant forall n | n in copied :: copied[n].name == variables[n].name
        invariant forall n | n in copied :: copied[n].value == variables[n].value
        invariant forall n | n in copied :: copied[n].optional == variables[n].optional
        invariant forall a, b | a in copied && b in copied && a != b :: copied[a] != copied[b]
      {
        var k :| k in left;
        var v := variables[k];
        var w := new VariableObject(v.name, v.value, v.optional);
        copied := copied[k := w];
        left := left - {k};
      }
      copy := new RecipeObject(key, iaas, copied);
    }
  }

  /** The cookbook's recipes as a target context hands them out and takes them back. */
  class Store {
    var recipes: map<M.Slot, RecipeObject>
    ghost var objects: seq<RecipeObject>
    ghost var cells: set<VariableObject>
    ghost var model: M.Model

    /** A recipe has its own variables among the cells, and the values that the model says. */
    static ghost predicate Described(o: RecipeObject, cells: set<VariableObject>, shot: M.Shot)
      reads cells
    {
      o.variables.Values <= cells && o.Distinct() && o.Shot() == shot
    }

    /** Every recipe is described, and no variable belongs to two recipes or names. */
    static ghost predicate Covered(objects: seq<RecipeObject>, cells: set<VariableObject>, shots: seq<M.Shot>)
      reads cells
    {
      && |shots| == |objects|
      && (forall i | 0 <= i < |objects| :: Described(objects[i], cells, shots[i]))
      && (forall i, j | 0 <= i < j < |objects| :: objects[i].variables.Values !! objects[j].variables.Values)
    }

    /** The model describes the heap. */
    ghost predicate Valid()
      reads this, cells
    {
      && M.Valid(model) && Covered(objects, cells, model.objects)
      && recipes.Keys == model.store.Keys
      && (forall s | s in recipes :: recipes[s] == objects[model.store[s]])
    }

    /** Take one more recipe into the description. */
    ghost method Enlist(r: RecipeObject)
      requires Valid() && r.Distinct() && r.variables.Values !! cells
      modifies this`objects, this`cells, this`model
      ensures Valid() && objects == old(objects) + [r] && cells == old(cells) + r.variables.Values
      ensures model == old(model).(objects := old(model).objects + [old(r.Shot())])
    {
      var n, was, shots := |objects|, objects, model.objects;
      objects, cells := objects + [r], cells + r.variables.Values;
      model := model.(objects := model.objects + [r.Shot()]);
      forall i | 0 <= i <= n ensures Described(objects[i], cells, model.objects[i]) {
        if i < n { assert Described(was[i], old(cells), shots[i]); }
      }
      forall i, j | 0 <= i < j <= n ensures objects[i].variables.Values !! objects[j].variables.Values {
        assert Described(was[i], old(cells), shots[i]);
        assert j < n ==> objects[j] == was[j];
      }
    }

    constructor ()
      ensures Valid() && cells == {} && objects == [] && model == M.Model([], map[])
    {
      recipes, objects, cells, model := map[], [], {}, M.Model([], map[]);
    }

    /** Enter the recipes a cookbook was loaded with. */
    method Add(r: RecipeObject)
      requires Valid() && r.Distinct() && r.variables.Values !! cells
      modifies this
      ensures Valid() && objects == old(objects) + [r]
      ensures model == M.Model(old(model.objects) + [r.Shot()], old(model.store)[(r.key, r.iaas) := |old(objects)|])
    {
      Enlist(r);
      recipes := recipes[(r.key, r.iaas) := r];
      model := model.(store := model.store[(r.key, r.iaas) := |objects| - 1]);
    }

    /** GetCookbookRecipe: a copy of the stored recipe, or nothing. */
    method GetRecipe(slot: M.Slot) returns (r: Option<RecipeObject>)
      requires Valid()
      modifies this
      ensures Valid() && model == M.Step(old(model), M.Get(slot))
      ensures r.Some? <==> slot in old(model.store)
      ensures if r.Some? then fresh(r.value) && objects == old(objects) + [r.value] else objects == old(objects)
      ensures r.Some? ==> r.value.Shot() == old(recipes[slot].Shot())
      ensures r.Some? ==> r.value.variables.Keys == old(recipes[slot].variables.Keys)
      ensures r.Some? ==> forall n | n in r.value.variables ::
        r.value.variables[n].value == old(recipes[slot].variables[n].value)
      ensures cells >= old(cells) && fresh(cells - old(cells))
    {
      if slot !in recipes {
        return None;
      }
      var stored := recipes[slot];
      ghost var shot, next := stored.Shot(), M.Step(model, M.Get(slot));
      assert Described(stored, cells, model.objects[model.store[slot]]);
      assert next == model.(objects := model.objects + [shot]);
      var copy := stored.Copy();
      assert copy.Shot() == shot;
      Enlist(copy);
      assert model == next && copy.Shot() == shot;
      r := Some(copy);
    }

    /** Write one variable of a recipe that was handed out. */
    method Edit(r: RecipeObject, name: string, value: Option<string>, ghost h: nat)
      requires Valid() && h < |objects| && objects[h] == r
      modifies this`model, cells
      ensures Valid() && objects == old(objects) && cells == old(cells)
      ensures model == M.Step(old(model), M.Edit(h, name, value))
      ensures name in r.variables ==> r.variables[name].value == value
    {
      ghost var shots := model.objects;
      ghost var next := M.Step(model, M.Edit(h, name, value));
      assert Described(r, cells, shots[h]);
      assert next == model.(objects := shots[h := M.SetValue(shots[h], name, value)]);
      if name in r.variables {
        assert forall j | 0 <= j < |objects| && j != h :: r.variables[name] !in objects[j].variables.Values;
        r.SetValue(name, value);
        forall j | 0 <= j < |objects| ensures Described(objects[j], cells, next.objects[j]) {
          if j != h { assert objects[j].Shot() == old(objects[j].Shot()); }
        }
      }
      model := next;
    }

    /** SaveCookbookRecipe: the store keeps the object it is given. */
    method SaveRecipe(r: RecipeObject, ghost h: nat)
      requires Valid() && h < |objects| && objects[h] == r
      modifies this`recipes, this`model
      ensures Valid() && objects == old(objects) && cells == old(cells)
      ensures model == M.Step(old(model), M.Save(h))
      ensures recipes == old(recipes)[(r.key, r.iaas) := r]
    {
      recipes := recipes[(r.key, r.iaas) := r];
      model := M.Step(model, M.Save(h));
    }
  }
}
