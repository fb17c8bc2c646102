// Dropping a deleted cookbook's recipes from the recipe map by the prefix of their keys.
module Forgetting {
  import opened Recipes
  import opened Loader
  import opened LibraryDisk

  predicate Prefixed(n: string, k: string) { n + ":" <= k }

  /** Drop the recipes whose key starts with the cookbook's name. */
  function Forget(m: RecipeMap, n: string): RecipeMap {
    map k | k in m && !Prefixed(n, k) :: m[k]
  }

  /** When the workers that are gone stored under the prefix, what is left is what the
      others build exactly when none of those stores under it. */
  lemma ForgetExactly(d: Disk, before: iset<Job>, stay: iset<Job>, n: string, m: RecipeMap)
    requires Built(d, before, m) && stay <= before
    requires forall job | job in before && job !in stay && Enters(d, job) :: Prefixed(n, KeyOf(d, job))
    ensures Built(d, stay, Forget(m, n)) <==> forall job | job in stay && Enters(d, job) :: !Prefixed(n, KeyOf(d, job))
  {
    if forall job | job in stay && Enters(d, job) :: !Prefixed(n, KeyOf(d, job)) {
      forall k ensures KeyBuilt(d, stay, Forget(m, n), k) {
        assert KeyBuilt(d, before, m, k);
      }
      forall k, iaas ensures CellBuilt(d, stay, Forget(m, n), k, iaas) {
        assert CellBuilt(d, before, m, k, iaas);
      }
    }
    if Built(d, stay, Forget(m, n)) {
      forall job | job in stay && Enters(d, job) ensures !Prefixed(n, KeyOf(d, job)) {
        assert KeyBuilt(d, stay, Forget(m, n), KeyOf(d, job));
      }
    }
  }
}
