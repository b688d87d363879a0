/** The dependency-building loops of both readers, as a function of what they start from:
    each unit's dict of declared names, filled in against the units indexed by name. */
module DependencyLinks {
  import opened Wrappers
  import opened Dicts

  /** A dependency dict once the names in `names` have been linked against `units`: each
      declared name among them that names a unit maps to that unit; the rest keep what
      they held. The names keep their order. */
  function Resolve<U>(deps: Dict<string, Option<U>>, units: map<string, U>, names: set<string>)
    : (r: Dict<string, Option<U>>)
    ensures r.keys == deps.keys && r.items.Keys == deps.items.Keys
    ensures deps.Valid() ==> r.Valid()
  {
    Dict(deps.keys, map m | m in deps.items :: if m in names && m in units then Some(units[m]) else deps.items[m])
  }

  /** Linking one more name is filling that name's dependency, when it is declared ... */
  lemma ResolveDeclared<U>(deps: Dict<string, Option<U>>, units: map<string, U>, names: set<string>, n: string)
    requires n in deps.items && n in units
    ensures Resolve(deps, units, names + {n}) == Resolve(deps, units, names).Put(n, Some(units[n]))
  {
  }

  /** ... and changes nothing when it is not. */
  lemma ResolveUndeclared<U>(deps: Dict<string, Option<U>>, units: map<string, U>, names: set<string>, n: string)
    requires n !in deps.items
    ensures Resolve(deps, units, names + {n}) == Resolve(deps, units, names)
  {
  }

  /** Linking against no name changes nothing. */
  lemma ResolveNothing<U>(deps: Dict<string, Option<U>>, units: map<string, U>)
    ensures Resolve(deps, units, {}) == deps
  {
  }

  /** Linking the names of `a` and then those of `b` is linking all of them at once, so
      the order in which the loop takes the names does not matter. */
  lemma ResolveInAnyOrder<U>(deps: Dict<string, Option<U>>, units: map<string, U>, a: set<string>, b: set<string>)
    ensures Resolve(Resolve(deps, units, a), units, b) == Resolve(deps, units, a + b)
    ensures Resolve(Resolve(deps, units, a), units, b) == Resolve(Resolve(deps, units, b), units, a)
  {
  }

  /** A dependency dict with the names `deps` linked against `units`. */
  function Linking<U>(deps: seq<string>, units: map<string, U>): (r: Dict<string, Option<U>>)
    ensures r.keys == deps && r.items.Keys == set m | m in deps
  {
    Dict(deps, map m | m in deps :: if m in units then Some(units[m]) else None)
  }

  /** After linking, a declared name is linked exactly when a unit carries it, and then to
      that unit; a name no unit carries stays `None`, without an error. */
  lemma LinkingFinds<U>(deps: seq<string>, units: map<string, U>, m: string)
    requires m in deps
    ensures m in Linking(deps, units).items
    ensures m in units ==> Linking(deps, units).items[m] == Some(units[m])
    ensures m !in units ==> Linking(deps, units).items[m] == None
  {
  }

  /** Linking a dict where nothing is linked yet against every name gives `Linking`. */
  lemma ResolveUnlinked<U>(deps: Dict<string, Option<U>>, units: map<string, U>)
    requires deps.Valid() && forall m :: m in deps.items ==> deps.items[m] == None
    ensures Resolve(deps, units, units.Keys) == Linking(deps.keys, units)
  {
  }
}
