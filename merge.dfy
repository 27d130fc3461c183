/** The ordered, first-contributor-wins merge of one category across a list
    of modules: the part of `combine` before the guard decision. */
module Merging {

  /** One line written to the warning channel. */
  datatype Diagnostic =
    | MissingName
    | Collision(name: string, key: string)
    | AbsentRead(key: string, name: string)

  /** The text each diagnostic is logged with. */
  function Message(d: Diagnostic): string
  {
    match d
    case MissingName => "Must provide `combine` with a string, e.g. `reducers`, `sagas`"
    case Collision(name, key) => name + " " + key + " already exists"
    case AbsentRead(key, name) =>
      "Attempting to access non-existent property [" + key + "] from [" + name + "]"
  }

  /** A category collection: its entries in the order `Object.keys` lists them. */
  type Collection<V> = seq<(string, V)>

  /** A module: each category it defines, by name, mapped to its collection. */
  type Module<V> = map<string, Collection<V>>

  /** The dictionary under construction and the diagnostics logged so far. */
  datatype MergeState<V> = MergeState(merged: map<string, V>, log: seq<Diagnostic>)

  /** What a module contributes to a category; a module without the category
      contributes nothing. */
  function Category<V>(m: Module<V>, name: string): Collection<V>
  {
    if name in m then m[name] else []
  }

  /** One key of a module's category reaching the merged dictionary. */
  function Absorb<V>(s: MergeState<V>, name: string, e: (string, V)): MergeState<V>
  {
    if e.0 in s.merged then MergeState(s.merged, s.log + [Collision(name, e.0)])
    else MergeState(s.merged[e.0 := e.1], s.log)
  }

  /** The entries of one collection absorbed in order. */
  function AbsorbAll<V>(s: MergeState<V>, name: string, es: Collection<V>): MergeState<V>
    decreases |es|
  {
    if es == [] then s
    else Absorb(AbsorbAll(s, name, es[..|es| - 1]), name, es[|es| - 1])
  }

  /** The modules absorbed in order, starting from an empty dictionary. */
  function MergeModules<V>(modules: seq<Module<V>>, name: string): MergeState<V>
    decreases |modules|
  {
    if modules == [] then MergeState(map[], [])
    else
      AbsorbAll(MergeModules(modules[..|modules| - 1], name), name,
                Category(modules[|modules| - 1], name))
  }

  /** The merge as a whole: an empty name is reported and yields `{}`. */
  function Merge<V>(modules: seq<Module<V>>, name: string): MergeState<V>
  {
    if name == "" then MergeState(map[], [MissingName])
    else MergeModules(modules, name)
  }

  // ---------------------------------------------------------------------
  // Reference definitions, independent of the merge's order of work
  // ---------------------------------------------------------------------

  predicate HasKey<V>(c: Collection<V>, k: string)
  {
    exists j :: 0 <= j < |c| && c[j].0 == k
  }

  /** Some module that defines the category lists key `k` in it. */
  predicate Contributes<V>(modules: seq<Module<V>>, name: string, k: string)
  {
    exists i :: 0 <= i < |modules| && name in modules[i] && HasKey(modules[i][name], k)
  }

  /** `(k, v)` sits at position `j` of module `i`'s category, and no earlier
      module and no earlier position of module `i` lists `k`. */
  ghost predicate FirstAt<V>(modules: seq<Module<V>>, name: string, k: string, v: V, i: int, j: int)
  {
    && 0 <= i < |modules| && name in modules[i]
    && 0 <= j < |modules[i][name]| && modules[i][name][j] == (k, v)
    && (forall i' :: 0 <= i' < i && name in modules[i'] ==> !HasKey(modules[i'][name], k))
    && (forall j' :: 0 <= j' < j ==> modules[i][name][j'].0 != k)
  }

  /** How often `k` is listed in one collection. */
  function KeyCount<V>(c: Collection<V>, k: string): nat
    decreases |c|
  {
    if c == [] then 0
    else KeyCount(c[..|c| - 1], k) + (if c[|c| - 1].0 == k then 1 else 0)
  }

  /** How often `k` is listed in the category, over all modules. */
  function Occurrences<V>(modules: seq<Module<V>>, name: string, k: string): nat
    decreases |modules|
  {
    if modules == [] then 0
    else Occurrences(modules[..|modules| - 1], name, k) + KeyCount(Category(modules[|modules| - 1], name), k)
  }

  /** How many entries the modules contribute to the category in all. */
  function Contributed<V>(modules: seq<Module<V>>, name: string): nat
    decreases |modules|
  {
    if modules == [] then 0
    else Contributed(modules[..|modules| - 1], name) + |Category(modules[|modules| - 1], name)|
  }

  // ---------------------------------------------------------------------
  // The loop of `combine`
  // ---------------------------------------------------------------------

  /** Builds the merged dictionary in place, module by module and key by key,
      logging each key that is already present and keeping its first value. */
  method MergeCategory<V>(modules: seq<Module<V>>, name: string)
    returns (merged: map<string, V>, log: seq<Diagnostic>)
    ensures MergeState(merged, log) == Merge(modules, name)
    ensures name == "" ==> merged == map[] && log == [MissingName]
    ensures forall k :: k in merged <==> name != "" && Contributes(modules, name, k)
  {
    merged, log := map[], [];
    if name == "" {
      log := log + [MissingName];
      return;
    }
    var i := 0;
    while i < |modules|
      invariant 0 <= i <= |modules|
      invariant MergeState(merged, log) == MergeModules(modules[..i], name)
    {
      assert modules[..i + 1][..i] == modules[..i];
      if name in modules[i] {
        var es := modules[i][name];
        var j := 0;
        while j < |es|
          invariant 0 <= j <= |es|
          invariant MergeState(merged, log) == AbsorbAll(MergeModules(modules[..i], name), name, es[..j])
        {
          assert es[..j + 1][..j] == es[..j];
          var key := es[j].0;
          if key in merged {
            log := log + [Collision(name, key)];
          } else {
            merged := merged[key := es[j].1];
          }
          j := j + 1;
        }
        assert es[..j] == es;
      }
      i := i + 1;
    }
    assert modules[..i] == modules;
    MergedKeys(modules, name);
  }

  // ---------------------------------------------------------------------
  // Properties of one collection's absorption
  // ---------------------------------------------------------------------

  /** Absorbing a collection adds exactly its keys. */
  lemma {:induction false} AbsorbAllKeys<V>(s: MergeState<V>, name: string, es: Collection<V>)
    ensures forall k :: k in AbsorbAll(s, name, es).merged <==> k in s.merged || HasKey(es, k)
    decreases |es|
  {
    if es != [] {
      var p := es[..|es| - 1];
      AbsorbAllKeys(s, name, p);
      forall k ensures HasKey(es, k) <==> HasKey(p, k) || es[|es| - 1].0 == k {
        if HasKey(es, k) {
          var j :| 0 <= j < |es| && es[j].0 == k;
          if j < |es| - 1 { assert p[j] == es[j]; }
        }
        if HasKey(p, k) {
          var j :| 0 <= j < |p| && p[j].0 == k;
          assert es[j] == p[j];
        }
      }
    }
  }

  /** A key already present keeps its value: later entries never overwrite. */
  lemma {:induction false} AbsorbAllKeeps<V>(s: MergeState<V>, name: string, es: Collection<V>, k: string)
    requires k in s.merged
    ensures k in AbsorbAll(s, name, es).merged
    ensures AbsorbAll(s, name, es).merged[k] == s.merged[k]
    decreases |es|
  {
    if es != [] {
      AbsorbAllKeeps(s, name, es[..|es| - 1], k);
    }
  }

  /** A key new to the dictionary takes the value of its first entry. */
  lemma {:induction false} AbsorbAllFirst<V>(s: MergeState<V>, name: string, es: Collection<V>, k: string)
    requires k !in s.merged && k in AbsorbAll(s, name, es).merged
    ensures exists j :: 0 <= j < |es| && es[j] == (k, AbsorbAll(s, name, es).merged[k])
                        && forall j' :: 0 <= j' < j ==> es[j'].0 != k
    decreases |es|
  {
    var p := es[..|es| - 1];
    var t := AbsorbAll(s, name, p);
    var r := AbsorbAll(s, name, es);
    if k in t.merged {
      AbsorbAllFirst(s, name, p, k);
      var j :| 0 <= j < |p| && p[j] == (k, t.merged[k]) && forall j' :: 0 <= j' < j ==> p[j'].0 != k;
      AbsorbAllKeeps(t, name, [es[|es| - 1]], k);
      assert AbsorbAll(t, name, [es[|es| - 1]]) == r by {
        assert [es[|es| - 1]][..0] == [];
      }
      assert es[j] == p[j];
      forall j' | 0 <= j' < j ensures es[j'].0 != k { assert es[j'] == p[j']; }
    } else {
      AbsorbAllKeys(s, name, p);
      var j := |es| - 1;
      forall j' | 0 <= j' < j ensures es[j'].0 != k {
        assert p[j'] == es[j'];
      }
    }
  }

  /** Every line of a log is a collision report naming the category. */
  ghost predicate OnlyCollisions(log: seq<Diagnostic>, name: string)
  {
    forall d :: d in log ==> d.Collision? && d.name == name
  }

  /** Absorbing logs nothing but collisions of this category. */
  lemma {:induction false} AbsorbAllOnlyCollisions<V>(s: MergeState<V>, name: string, es: Collection<V>)
    requires OnlyCollisions(s.log, name)
    ensures OnlyCollisions(AbsorbAll(s, name, es).log, name)
    decreases |es|
  {
    if es != [] {
      AbsorbAllOnlyCollisions(s, name, es[..|es| - 1]);
    }
  }

  /** Each entry either adds a key or logs one collision. */
  lemma {:induction false} AbsorbAllSize<V>(s: MergeState<V>, name: string, es: Collection<V>)
    ensures |AbsorbAll(s, name, es).log| + |AbsorbAll(s, name, es).merged|
            == |s.log| + |s.merged| + |es|
    decreases |es|
  {
    if es != [] {
      var p := es[..|es| - 1];
      var e := es[|es| - 1];
      var t := AbsorbAll(s, name, p);
      AbsorbAllSize(s, name, p);
      if e.0 !in t.merged {
        assert t.merged[e.0 := e.1].Keys == t.merged.Keys + {e.0};
      }
    }
  }

  /** Every listing of a key but the one that enters the dictionary logs one
      `Collision(name, k)`. */
  lemma {:induction false} AbsorbAllCollisions<V>(s: MergeState<V>, name: string, es: Collection<V>, k: string)
    ensures var r := AbsorbAll(s, name, es);
      multiset(r.log)[Collision(name, k)] + (if k in r.merged && k !in s.merged then 1 else 0)
      == multiset(s.log)[Collision(name, k)] + KeyCount(es, k)
    decreases |es|
  {
    if es != [] {
      var p := es[..|es| - 1];
      var e := es[|es| - 1];
      var t := AbsorbAll(s, name, p);
      AbsorbAllCollisions(s, name, p, k);
      if k in s.merged {
        AbsorbAllKeeps(s, name, p, k);
      }
    }
  }

  // ---------------------------------------------------------------------
  // Properties of the merge across modules
  // ---------------------------------------------------------------------

  /** The merged keys are exactly the union of the category's keys over the
      modules that define it. */
  lemma {:induction false} MergedKeys<V>(modules: seq<Module<V>>, name: string)
    ensures forall k :: k in Merge(modules, name).merged <==> name != "" && Contributes(modules, name, k)
  {
    if name != "" {
      MergeModulesKeys(modules, name);
    }
  }

  lemma {:induction false} MergeModulesKeys<V>(modules: seq<Module<V>>, name: string)
    ensures forall k :: k in MergeModules(modules, name).merged <==> Contributes(modules, name, k)
    decreases |modules|
  {
    if modules != [] {
      var n := |modules| - 1;
      var p := modules[..n];
      MergeModulesKeys(p, name);
      AbsorbAllKeys(MergeModules(p, name), name, Category(modules[n], name));
      forall k ensures Contributes(modules, name, k)
                   <==> Contributes(p, name, k) || HasKey(Category(modules[n], name), k) {
        if Contributes(modules, name, k) {
          var i :| 0 <= i < |modules| && name in modules[i] && HasKey(modules[i][name], k);
          if i < n { assert p[i] == modules[i]; }
        }
        if Contributes(p, name, k) {
          var i :| 0 <= i < |p| && name in p[i] && HasKey(p[i][name], k);
          assert modules[i] == p[i];
        }
      }
    }
  }

  /** First contributor wins: every merged value is the one at the earliest
      module, and the earliest position in it, that lists the key. */
  lemma {:induction false} FirstContributorWins<V>(modules: seq<Module<V>>, name: string, k: string)
    requires k in Merge(modules, name).merged
    ensures exists i, j :: FirstAt(modules, name, k, Merge(modules, name).merged[k], i, j)
    decreases |modules|
  {
    MergedKeys(modules, name);
    var n := |modules| - 1;
    var p := modules[..n];
    var t := MergeModules(p, name);
    var c := Category(modules[n], name);
    var v := Merge(modules, name).merged[k];
    if k in t.merged {
      AbsorbAllKeeps(t, name, c, k);
      FirstContributorWins(p, name, k);
      var i, j :| FirstAt(p, name, k, v, i, j);
      assert modules[i] == p[i];
      forall i' | 0 <= i' < i && name in modules[i'] ensures !HasKey(modules[i'][name], k) {
        assert modules[i'] == p[i'];
      }
      assert FirstAt(modules, name, k, v, i, j);
    } else {
      AbsorbAllFirst(t, name, c, k);
      var j :| 0 <= j < |c| && c[j] == (k, v) && forall j' :: 0 <= j' < j ==> c[j'].0 != k;
      MergeModulesKeys(p, name);
      forall i' | 0 <= i' < n && name in modules[i'] ensures !HasKey(modules[i'][name], k) {
        assert modules[i'] == p[i'];
      }
      assert FirstAt(modules, name, k, v, n, j);
    }
  }

  /** A merge logs nothing but collisions naming its category. */
  lemma {:induction false} MergeOnlyCollisions<V>(modules: seq<Module<V>>, name: string)
    requires name != ""
    ensures OnlyCollisions(Merge(modules, name).log, name)
    decreases |modules|
  {
    if modules != [] {
      var n := |modules| - 1;
      MergeOnlyCollisions(modules[..n], name);
      AbsorbAllOnlyCollisions(MergeModules(modules[..n], name), name, Category(modules[n], name));
    }
  }

  /** Collisions plus distinct merged keys account for every contributed entry. */
  lemma {:induction false} MergeSize<V>(modules: seq<Module<V>>, name: string)
    requires name != ""
    ensures |Merge(modules, name).log| + |Merge(modules, name).merged| == Contributed(modules, name)
    decreases |modules|
  {
    if modules != [] {
      var n := |modules| - 1;
      MergeSize(modules[..n], name);
      AbsorbAllSize(MergeModules(modules[..n], name), name, Category(modules[n], name));
    }
  }

  /** A key listed `c` times over all modules is reported `c - 1` times; a key
      never listed is never reported. */
  lemma {:induction false} CollisionCount<V>(modules: seq<Module<V>>, name: string, k: string)
    requires name != ""
    ensures var r := Merge(modules, name);
      multiset(r.log)[Collision(name, k)]
      == if k in r.merged then Occurrences(modules, name, k) - 1 else 0
    decreases |modules|
  {
    if modules != [] {
      var n := |modules| - 1;
      var p := modules[..n];
      var t := MergeModules(p, name);
      var c := Category(modules[n], name);
      CollisionCount(p, name, k);
      AbsorbAllCollisions(t, name, c, k);
      AbsorbAllKeys(t, name, c);
      KeyCountHasKey(c, k);
      if k in t.merged {
        AbsorbAllKeeps(t, name, c, k);
      } else {
        MergeModulesKeys(p, name);
        OccurrencesAbsent(p, name, k);
      }
    }
  }

  /** A key listed nowhere has no occurrences. */
  lemma {:induction false} OccurrencesAbsent<V>(modules: seq<Module<V>>, name: string, k: string)
    requires !Contributes(modules, name, k)
    ensures Occurrences(modules, name, k) == 0
    decreases |modules|
  {
    if modules != [] {
      var n := |modules| - 1;
      var p := modules[..n];
      forall i | 0 <= i < |p| && name in p[i] ensures !HasKey(p[i][name], k) {
        assert p[i] == modules[i];
      }
      OccurrencesAbsent(p, name, k);
      if name in modules[n] {
        KeyCountHasKey(modules[n][name], k);
      } else {
        assert Category(modules[n], name) == [];
      }
    }
  }

  /** `k` is listed in a collection exactly when it occurs there at least once. */
  lemma {:induction false} KeyCountHasKey<V>(c: Collection<V>, k: string)
    ensures KeyCount(c, k) > 0 <==> HasKey(c, k)
    decreases |c|
  {
    if c != [] {
      var p := c[..|c| - 1];
      KeyCountHasKey(p, k);
      if HasKey(c, k) && c[|c| - 1].0 != k {
        var j :| 0 <= j < |c| && c[j].0 == k;
        assert p[j] == c[j];
      }
      if HasKey(p, k) {
        var j :| 0 <= j < |p| && p[j].0 == k;
        assert c[j] == p[j];
      }
    }
  }

  /** Modules whose category keys are pairwise distinct merge silently. */
  lemma DisjointNoCollisions<V>(modules: seq<Module<V>>, name: string)
    requires name != ""
    requires forall k :: Occurrences(modules, name, k) <= 1
    ensures Merge(modules, name).log == []
  {
    var r := Merge(modules, name);
    MergeOnlyCollisions(modules, name);
    forall d ensures multiset(r.log)[d] == 0 {
      if d.Collision? && d.name == name {
        CollisionCount(modules, name, d.key);
      }
    }
    assert multiset(r.log) == multiset{};
    assert |r.log| == |multiset(r.log)|;
  }

  /** A category no module defines merges to an empty dictionary, silently. */
  lemma {:induction false} AbsentCategoryEmpty<V>(modules: seq<Module<V>>, name: string)
    requires name != ""
    requires forall i :: 0 <= i < |modules| ==> name !in modules[i]
    ensures Merge(modules, name) == MergeState(map[], [])
    decreases |modules|
  {
    if modules != [] {
      var n := |modules| - 1;
      AbsentCategoryEmpty(modules[..n], name);
      assert Category(modules[n], name) == [];
    }
  }

  /** Categories merge independently: the merge of one category depends on
      nothing but each module's collection for that category. */
  lemma {:induction false} MergeIndependent<V>(modules: seq<Module<V>>, others: seq<Module<V>>, name: string)
    requires |modules| == |others|
    requires forall i :: 0 <= i < |modules| ==> Category(modules[i], name) == Category(others[i], name)
    ensures Merge(modules, name) == Merge(others, name)
    decreases |modules|
  {
    if name != "" && modules != [] {
      var n := |modules| - 1;
      MergeIndependent(modules[..n], others[..n], name);
      assert MergeModules(modules[..n], name) == MergeModules(others[..n], name);
    }
  }
}
