/** `combine(modules, name)`: the merge followed by the guard decision. */
module Combine {
  import opened Wrappers
  import opened Merging
  import opened Guard

  /** What `combine` returns, seen as a value: the merged dictionary and
      whether it comes wrapped in an access guard (whose reported-key set
      then starts empty). */
  datatype View<V> = View(entries: map<string, V>, guarded: bool)

  /** The categories a framework consumes unwrapped. */
  predicate Exempt(name: string)
  {
    name in ["sagas", "reducers"]
  }

  /** The value `combine` returns and the diagnostics it logs, with
      `proxyAvailable` standing for the environment offering `Proxy`. */
  function CombineCategory<V>(modules: seq<Module<V>>, name: string, proxyAvailable: bool): (View<V>, seq<Diagnostic>)
  {
    var s := Merge(modules, name);
    (View(s.merged, name != "" && !Exempt(name) && proxyAvailable), s.log)
  }

  /** What `combine` returns, as an object: the plain dictionary or a guard. */
  datatype Combined<V> = Plain(entries: map<string, V>) | Proxied(guard: AccessGuard<V>)

  function ViewOf<V>(c: Combined<V>): View<V>
  {
    match c
    case Plain(m) => View(m, false)
    case Proxied(g) => View(g.underlying, true)
  }

  /** The default export of combine.ts. */
  method CombineModules<V>(modules: seq<Module<V>>, name: string, proxyAvailable: bool)
    returns (result: Combined<V>, log: seq<Diagnostic>)
    ensures (ViewOf(result), log) == CombineCategory(modules, name, proxyAvailable)
    ensures result.Proxied? ==>
      && fresh(result.guard) && result.guard.Valid() && result.guard.name == name
      && result.guard.warned == {} && result.guard.trace == []
  {
    var merged;
    merged, log := MergeCategory(modules, name);
    if name == "" || Exempt(name) || !proxyAvailable {
      result := Plain(merged);
    } else {
      var g := new AccessGuard(merged, name);
      result := Proxied(g);
    }
  }

  /** The guard decision: `sagas` and `reducers` are never wrapped, nothing is
      wrapped without `Proxy` or without a name, and every other category is;
      the wrapped or plain dictionary is the merge's in every case. */
  lemma GuardPolicy<V>(modules: seq<Module<V>>, name: string, proxyAvailable: bool)
    ensures var v := CombineCategory(modules, name, proxyAvailable).0;
      && v.entries == Merge(modules, name).merged
      && (name == "sagas" || name == "reducers" ==> !v.guarded)
      && (!proxyAvailable ==> !v.guarded)
      && (v.guarded <==> proxyAvailable && name !in {"", "sagas", "reducers"})
  {
  }
}
