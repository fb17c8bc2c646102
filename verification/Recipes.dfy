// The entities of the cookbook package.
module Recipes {

  datatype Option<+T> = None | Some(value: T)

  /** A recipe input; `value` is None until it has been set. */
  datatype Variable = Variable(name: string, value: Option<string>, optional: bool)

  type Variables = map<string, Variable>

  /** A recipe for one IaaS, as loaded from the templates below `root`. */
  datatype Recipe = Recipe(
    cookbook: string,
    version: string,
    name: string,
    iaas: string,
    root: seq<string>,
    bastion: bool,
    variables: Variables
  ) {
    function Key(): string { cookbook + ":" + name }
  }

  /** The nested map from recipe key to IaaS name to recipe. */
  type RecipeMap = map<string, map<string, Recipe>>

  datatype CookbookMetadata = CookbookMetadata(
    name: string,
    version: string,
    imported: bool,
    path: seq<string>,
    recipes: seq<string>
  )

  datatype RecipeInfo = RecipeInfo(
    key: string,
    cookbook: string,
    version: string,
    name: string,
    bastion: bool,
    iaas: set<string>
  )

  function Lookup(recipes: RecipeMap, key: string, iaas: string): Option<Recipe> {
    if key in recipes && iaas in recipes[key] then Some(recipes[key][iaas]) else None
  }

  function Put(recipes: RecipeMap, key: string, iaas: string, r: Recipe): RecipeMap {
    recipes[key := (if key in recipes then recipes[key] else map[])[iaas := r]]
  }

  /** A recipe map is determined by its keys and cells. */
  lemma SameMap(a: RecipeMap, b: RecipeMap)
    requires forall k :: k in a <==> k in b
    requires forall k, iaas :: Lookup(a, k, iaas) == Lookup(b, k, iaas)
    ensures a == b
  {
    forall k | k in a ensures a[k] == b[k] {
      forall iaas ensures iaas in a[k] <==> iaas in b[k] {
        assert Lookup(a, k, iaas) == Lookup(b, k, iaas);
      }
      forall iaas | iaas in a[k] ensures a[k][iaas] == b[k][iaas] {
        assert Lookup(a, k, iaas) == Lookup(b, k, iaas);
      }
    }
  }
}
