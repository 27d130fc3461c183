/** The repository's test cases, restated on concrete modules. */
module Scenarios {
  import opened Wrappers
  import opened Merging
  import opened Combine
  import opened Use

  /** The values the tests put in modules: a no-op function or a string. */
  datatype Value = Noop | Str(s: string)

  // ---------------------------------------------------------------------
  // Evaluation steps for short inputs
  // ---------------------------------------------------------------------

  lemma MergeOfTwo<V>(a: Module<V>, b: Module<V>, name: string)
    requires name != ""
    ensures Merge([a, b], name)
         == AbsorbAll(AbsorbAll(MergeState(map[], []), name, Category(a, name)), name, Category(b, name))
  {
    var ms := [a, b];
    assert ms[..1] == [a] && [a][..0] == [];
    assert MergeModules([a], name) == AbsorbAll(MergeState(map[], []), name, Category(a, name));
    assert MergeModules(ms, name) == AbsorbAll(MergeModules([a], name), name, Category(b, name));
  }

  lemma AbsorbOne<V>(s: MergeState<V>, name: string, e: (string, V))
    ensures AbsorbAll(s, name, [e]) == Absorb(s, name, e)
  {
    assert [e][..0] == [];
  }

  lemma AbsorbTwo<V>(s: MergeState<V>, name: string, e1: (string, V), e2: (string, V))
    ensures AbsorbAll(s, name, [e1, e2]) == Absorb(Absorb(s, name, e1), name, e2)
  {
    assert [e1, e2][..1] == [e1];
    AbsorbOne(s, name, e1);
  }

  // ---------------------------------------------------------------------
  // combine.test.ts and the collision example
  // ---------------------------------------------------------------------

  /** Two modules with disjoint `reducers` merge to the union of their keys,
      silently and unguarded. */
  lemma CombineReducersTest(proxyAvailable: bool)
    ensures var modOne: Module<Value> := map["reducers" := [("test", Noop), ("cool", Noop)]];
      var modTwo: Module<Value> := map["reducers" := [("wow", Noop)]];
      CombineCategory([modOne, modTwo], "reducers", proxyAvailable)
      == (View(map["test" := Noop, "cool" := Noop, "wow" := Noop], false), [])
  {
    var modOne: Module<Value> := map["reducers" := [("test", Noop), ("cool", Noop)]];
    var modTwo: Module<Value> := map["reducers" := [("wow", Noop)]];
    MergeOfTwo(modOne, modTwo, "reducers");
    var s0: MergeState<Value> := MergeState(map[], []);
    AbsorbTwo(s0, "reducers", ("test", Noop), ("cool", Noop));
    AbsorbOne(MergeState(map["test" := Noop, "cool" := Noop], []), "reducers", ("wow", Noop));
  }

  /** Two modules listing the same `selectors` key: the first value stays and
      one collision naming the category and the key is logged. */
  lemma CombineCollisionExample(proxyAvailable: bool)
    ensures var a: Module<Value> := map["selectors" := [("x", Str("1"))]];
      var b: Module<Value> := map["selectors" := [("x", Str("2"))]];
      CombineCategory([a, b], "selectors", proxyAvailable)
      == (View(map["x" := Str("1")], proxyAvailable), [Collision("selectors", "x")])
  {
    var a: Module<Value> := map["selectors" := [("x", Str("1"))]];
    var b: Module<Value> := map["selectors" := [("x", Str("2"))]];
    MergeOfTwo(a, b, "selectors");
    assert Category(a, "selectors") == [("x", Str("1"))];
    assert Category(b, "selectors") == [("x", Str("2"))];
    var s0: MergeState<Value> := MergeState(map[], []);
    AbsorbOne(s0, "selectors", ("x", Str("1")));
    var s1 := MergeState(map["x" := Str("1")], []);
    assert Absorb(s0, "selectors", ("x", Str("1"))) == s1;
    AbsorbOne(s1, "selectors", ("x", Str("2")));
    assert Merge([a, b], "selectors") == MergeState(map["x" := Str("1")], [Collision("selectors", "x")]);
    assert !Exempt("selectors");
  }

  // ---------------------------------------------------------------------
  // use.test.ts
  // ---------------------------------------------------------------------

  const ModOne: Module<Value> := map[
    "actionTypes" := [("ONE", Str("ONE"))],
    "actionCreators" := [("one", Noop), ("two", Noop)],
    "effects" := [("sendOne", Noop)],
    "something" := [("four", Noop)]]

  const ModTwo: Module<Value> := map[
    "sagas" := [("onSendOne", Noop)],
    "actionTypes" := [("TWO", Str("TWO")), ("THREE", Str("THREE"))],
    "something" := [("five", Noop)]]

  /** `actionTypes` unions both modules' keys. */
  lemma UseTestActionTypes()
    ensures Merge([ModOne, ModTwo], "actionTypes")
         == MergeState(map["ONE" := Str("ONE"), "TWO" := Str("TWO"), "THREE" := Str("THREE")], [])
  {
    var s0: MergeState<Value> := MergeState(map[], []);
    MergeOfTwo(ModOne, ModTwo, "actionTypes");
    assert Category(ModOne, "actionTypes") == [("ONE", Str("ONE"))];
    assert Category(ModTwo, "actionTypes") == [("TWO", Str("TWO")), ("THREE", Str("THREE"))];
    AbsorbOne(s0, "actionTypes", ("ONE", Str("ONE")));
    var s1 := MergeState(map["ONE" := Str("ONE")], []);
    assert Absorb(s0, "actionTypes", ("ONE", Str("ONE"))) == s1;
    AbsorbTwo(s1, "actionTypes", ("TWO", Str("TWO")), ("THREE", Str("THREE")));
  }

  /** `actionCreators` keeps module one's entries. */
  lemma UseTestActionCreators()
    ensures Merge([ModOne, ModTwo], "actionCreators") == MergeState(map["one" := Noop, "two" := Noop], [])
  {
    var s0: MergeState<Value> := MergeState(map[], []);
    MergeOfTwo(ModOne, ModTwo, "actionCreators");
    assert Category(ModOne, "actionCreators") == [("one", Noop), ("two", Noop)];
    assert Category(ModTwo, "actionCreators") == [];
    AbsorbTwo(s0, "actionCreators", ("one", Noop), ("two", Noop));
  }

  /** A category only one module defines, holding one entry. */
  lemma UseTestSingle(name: string, key: string, one: Value, two: Value)
    requires name != ""
    requires || (Category(ModOne, name) == [(key, one)] && Category(ModTwo, name) == [])
             || (Category(ModOne, name) == [] && Category(ModTwo, name) == [(key, two)])
    ensures Merge([ModOne, ModTwo], name)
         == MergeState(map[key := if Category(ModOne, name) == [] then two else one], [])
  {
    var s0: MergeState<Value> := MergeState(map[], []);
    MergeOfTwo(ModOne, ModTwo, name);
    if Category(ModOne, name) == [] {
      AbsorbOne(s0, name, (key, two));
    } else {
      AbsorbOne(s0, name, (key, one));
    }
  }

  /** `something` gives `{four, five}`. */
  lemma UseTestSomething()
    ensures Merge([ModOne, ModTwo], "something") == MergeState(map["four" := Noop, "five" := Noop], [])
  {
    var s0: MergeState<Value> := MergeState(map[], []);
    MergeOfTwo(ModOne, ModTwo, "something");
    assert Category(ModOne, "something") == [("four", Noop)];
    assert Category(ModTwo, "something") == [("five", Noop)];
    AbsorbOne(s0, "something", ("four", Noop));
    var s1 := MergeState(map["four" := Noop], []);
    assert Absorb(s0, "something", ("four", Noop)) == s1;
    AbsorbOne(s1, "something", ("five", Noop));
  }

  /** Each category of the two test modules, merged on its own: `actionTypes`
      unions both modules' keys, `actionCreators` keeps module one's entries,
      `something` gives `{four, five}`, the categories neither defines are
      empty, and nothing collides. */
  lemma UseTestCategories(ms: seq<Module<Value>>)
    requires ms == [ModOne, ModTwo]
    ensures Merge(ms, "actionTypes")
         == MergeState(map["ONE" := Str("ONE"), "TWO" := Str("TWO"), "THREE" := Str("THREE")], [])
    ensures Merge(ms, "actionCreators") == MergeState(map["one" := Noop, "two" := Noop], [])
    ensures Merge(ms, "effects") == MergeState(map["sendOne" := Noop], [])
    ensures Merge(ms, "sagas") == MergeState(map["onSendOne" := Noop], [])
    ensures Merge(ms, "reducers") == MergeState(map[], [])
    ensures Merge(ms, "selectors") == MergeState(map[], [])
    ensures Merge(ms, "something") == MergeState(map["four" := Noop, "five" := Noop], [])
  {
    UseTestActionTypes();
    UseTestActionCreators();
    UseTestSomething();
    assert Category(ModOne, "effects") == [("sendOne", Noop)] && Category(ModTwo, "effects") == [];
    UseTestSingle("effects", "sendOne", Noop, Noop);
    assert Category(ModOne, "sagas") == [] && Category(ModTwo, "sagas") == [("onSendOne", Noop)];
    UseTestSingle("sagas", "onSendOne", Noop, Noop);
    MergeOfTwo(ModOne, ModTwo, "reducers");
    assert Category(ModOne, "reducers") == [] && Category(ModTwo, "reducers") == [];
    MergeOfTwo(ModOne, ModTwo, "selectors");
    assert Category(ModOne, "selectors") == [] && Category(ModTwo, "selectors") == [];
  }

  /** use.test.ts, both cases: the record holds the six well-known fields,
      plus `something` when it is requested, and no other. */
  lemma UseTestKeys(proxyAvailable: bool, extra: seq<string>)
    requires extra == [] || extra == ["something"]
    ensures UseModules([ModOne, ModTwo], UseOptions<()>.UseOptions(extra, None), proxyAvailable).0.Keys
         == {"reducers", "actionTypes", "actionCreators", "sagas", "effects", "selectors"} + (set n | n in extra)
  {
    var options := UseOptions<()>.UseOptions(extra, None);
    UseFields([ModOne, ModTwo], options, proxyAvailable);
    var r := UseModules([ModOne, ModTwo], options, proxyAvailable).0;
    forall n ensures n in r <==> n in WellKnown || n in extra {
      assert n in Calls(options) <==> n in WellKnown || n in extra;
    }
  }

  /** use.test.ts, both cases: each field holds the expected entries. */
  lemma UseTestEntries(ms: seq<Module<Value>>, proxyAvailable: bool, extra: seq<string>)
    requires ms == [ModOne, ModTwo]
    requires extra == [] || extra == ["something"]
    ensures var r := UseModules(ms, UseOptions<()>.UseOptions(extra, None), proxyAvailable).0;
      && r["actionTypes"].view.entries == map["ONE" := Str("ONE"), "TWO" := Str("TWO"), "THREE" := Str("THREE")]
      && r["actionCreators"].view.entries == map["one" := Noop, "two" := Noop]
      && r["effects"].view.entries == map["sendOne" := Noop]
      && r["sagas"].view.entries == map["onSendOne" := Noop]
      && r["reducers"].view.entries == map[]
      && r["selectors"].view.entries == map[]
      && (extra != [] ==> r["something"].view.entries == map["four" := Noop, "five" := Noop])
  {
    var options := UseOptions<()>.UseOptions(extra, None);
    UseTestCategories(ms);
    UseEntries(ms, options, proxyAvailable);
    assert forall n :: n in WellKnown ==> n in Calls(options);
    assert extra != [] ==> "something" in Calls(options);
  }

  /** use.test.ts, both cases: nothing is logged. */
  lemma UseTestSilent(ms: seq<Module<Value>>, proxyAvailable: bool, extra: seq<string>)
    requires ms == [ModOne, ModTwo]
    requires extra == [] || extra == ["something"]
    ensures UseModules(ms, UseOptions<()>.UseOptions(extra, None), proxyAvailable).1 == []
  {
    var options := UseOptions<()>.UseOptions(extra, None);
    UseTestCategories(ms);
    forall n | n in Calls(options) ensures CombineCategory(ms, n, proxyAvailable).1 == [] {
      assert n in {"reducers", "actionTypes", "actionCreators", "sagas", "effects", "selectors", "something"};
    }
    UseSilent(ms, options, proxyAvailable);
  }
}
