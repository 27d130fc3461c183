/** `use(modules, { extra, log })`: one `combine` call per well-known
    category and per extra name, assembled into one record. */
module Use {
  import opened Wrappers
  import opened Merging
  import opened Combine

  /** The well-known categories, in the order `use` merges them. */
  const WellKnown: seq<string> := ["reducers", "actionTypes", "actionCreators", "sagas", "effects", "selectors"]

  /** The options `use` accepts. `log` stands for the injected sink, of an
      opaque type `L`; combine.ts takes no third argument, so nothing reads it. */
  datatype UseOptions<L> = UseOptions(extra: seq<string>, log: Option<L>)

  /** One field of the record `use` returns: the value of a `combine` call and
      that call's position among all the calls `use` makes. Each call builds a
      fresh object, so the position tells the objects apart. */
  datatype Field<V> = Field(call: nat, view: View<V>)

  /** The `extra.reduce`: each name, in order, adds or replaces a field with a
      fresh `combine` result; `first` is the position of the first such call.
      What these calls log is `CallLog(modules, names, proxyAvailable)`. */
  function ExtraFields<V>(modules: seq<Module<V>>, names: seq<string>, first: nat, proxyAvailable: bool)
    : map<string, Field<V>>
    decreases |names|
  {
    if names == [] then map[]
    else
      var n := names[|names| - 1];
      ExtraFields(modules, names[..|names| - 1], first, proxyAvailable)
        [n := Field(first + |names| - 1, CombineCategory(modules, n, proxyAvailable).0)]
  }

  /** The diagnostics of `combine` over `names`, concatenated in call order. */
  function CallLog<V>(modules: seq<Module<V>>, names: seq<string>, proxyAvailable: bool): seq<Diagnostic>
    decreases |names|
  {
    if names == [] then []
    else CallLog(modules, names[..|names| - 1], proxyAvailable)
         + CombineCategory(modules, names[|names| - 1], proxyAvailable).1
  }

  /** The default export of use.ts: the record and the diagnostics of all its
      `combine` calls. The extras are spread after the well-known fields. */
  function UseModules<V, L>(modules: seq<Module<V>>, options: UseOptions<L>, proxyAvailable: bool)
    : (map<string, Field<V>>, seq<Diagnostic>)
  {
    var (reducers, l0) := CombineCategory(modules, "reducers", proxyAvailable);
    var (actionTypes, l1) := CombineCategory(modules, "actionTypes", proxyAvailable);
    var (actionCreators, l2) := CombineCategory(modules, "actionCreators", proxyAvailable);
    var (sagas, l3) := CombineCategory(modules, "sagas", proxyAvailable);
    var (effects, l4) := CombineCategory(modules, "effects", proxyAvailable);
    var (selectors, l5) := CombineCategory(modules, "selectors", proxyAvailable);
    var extras := ExtraFields(modules, options.extra, |WellKnown|, proxyAvailable);
    var lx := CallLog(modules, options.extra, proxyAvailable);
    var fields := map[
      "reducers" := Field(0, reducers),
      "actionTypes" := Field(1, actionTypes),
      "actionCreators" := Field(2, actionCreators),
      "sagas" := Field(3, sagas),
      "selectors" := Field(5, selectors),
      "effects" := Field(4, effects)];
    (fields + extras, l0 + l1 + l2 + l3 + l4 + l5 + lx)
  }

  // ---------------------------------------------------------------------
  // Reference definitions
  // ---------------------------------------------------------------------

  /** The names `use` passes to `combine`, in call order. */
  function Calls<L>(options: UseOptions<L>): seq<string>
  {
    WellKnown + options.extra
  }

  /** Call `i` is the last of `names` that is made for `n`. */
  predicate LastCall(names: seq<string>, n: string, i: int)
  {
    0 <= i < |names| && names[i] == n && forall j :: i < j < |names| ==> names[j] != n
  }

  // ---------------------------------------------------------------------
  // Properties
  // ---------------------------------------------------------------------

  /** The `reduce` adds a field for each name and no other. */
  lemma {:induction false} ExtraFieldsKeys<V>(modules: seq<Module<V>>, names: seq<string>, first: nat, proxyAvailable: bool)
    ensures forall n :: n in ExtraFields(modules, names, first, proxyAvailable) <==> n in names
    decreases |names|
  {
    if names != [] {
      var p := names[..|names| - 1];
      ExtraFieldsKeys(modules, p, first, proxyAvailable);
      assert names == p + [names[|names| - 1]];
    }
  }

  /** Each field the `reduce` builds holds its name's `combine` result from
      the last call made for that name. */
  lemma ExtraFieldsValues<V>(modules: seq<Module<V>>, names: seq<string>, first: nat, proxyAvailable: bool)
    ensures var r := ExtraFields(modules, names, first, proxyAvailable);
      forall n :: n in r ==>
        && r[n].view == CombineCategory(modules, n, proxyAvailable).0
        && r[n].call >= first && LastCall(names, n, r[n].call - first)
  {
    ExtraFieldsViews(modules, names, first, proxyAvailable);
    ExtraFieldsCalls(modules, names, first, proxyAvailable);
  }

  lemma {:induction false} ExtraFieldsViews<V>(modules: seq<Module<V>>, names: seq<string>, first: nat, proxyAvailable: bool)
    ensures var r := ExtraFields(modules, names, first, proxyAvailable);
      forall n :: n in r ==> r[n].view == CombineCategory(modules, n, proxyAvailable).0
    decreases |names|
  {
    if names != [] {
      ExtraFieldsViews(modules, names[..|names| - 1], first, proxyAvailable);
    }
  }

  lemma {:induction false} ExtraFieldsCalls<V>(modules: seq<Module<V>>, names: seq<string>, first: nat, proxyAvailable: bool)
    ensures forall n :: n in ExtraFields(modules, names, first, proxyAvailable) ==>
      var c := ExtraFields(modules, names, first, proxyAvailable)[n].call;
      c >= first && LastCall(names, n, c - first)
    decreases |names|
  {
    if names != [] {
      var p := names[..|names| - 1];
      var last := names[|names| - 1];
      ExtraFieldsCalls(modules, p, first, proxyAvailable);
      var t := ExtraFields(modules, p, first, proxyAvailable);
      var r := ExtraFields(modules, names, first, proxyAvailable);
      forall n | n in r && n != last ensures LastCall(names, n, r[n].call - first) {
        assert n in t && r[n] == t[n];
        var i := t[n].call - first;
        assert LastCall(p, n, i);
        assert names[i] == p[i];
        forall j | i < j < |names| ensures names[j] != n {
          if j < |p| { assert names[j] == p[j]; }
        }
      }
    }
  }

  /** Two runs of the `reduce`, one after the other, build the union of
      their fields, the second run winning. */
  lemma {:induction false} ExtraFieldsAppend<V>(modules: seq<Module<V>>, a: seq<string>, b: seq<string>, first: nat, proxyAvailable: bool)
    ensures ExtraFields(modules, a + b, first, proxyAvailable)
         == ExtraFields(modules, a, first, proxyAvailable) + ExtraFields(modules, b, first + |a|, proxyAvailable)
    decreases |b|
  {
    if b == [] {
      assert a + b == a;
    } else {
      var q := b[..|b| - 1];
      ExtraFieldsAppend(modules, a, q, first, proxyAvailable);
      assert (a + b)[..|a + b| - 1] == a + q;
      var n := b[|b| - 1];
      assert (a + b)[|a + b| - 1] == n;
      var f := Field(first + |a| + |b| - 1, CombineCategory(modules, n, proxyAvailable).0);
      var x := ExtraFields(modules, a, first, proxyAvailable);
      var y := ExtraFields(modules, q, first + |a|, proxyAvailable);
      assert ExtraFields(modules, a + b, first, proxyAvailable)
          == ExtraFields(modules, a + q, first, proxyAvailable)[n := f];
      assert ExtraFields(modules, b, first + |a|, proxyAvailable) == y[n := f];
      UpdateAfterUnion(x, y, n, f);
    }
  }

  lemma UpdateAfterUnion<K, W>(x: map<K, W>, y: map<K, W>, k: K, w: W)
    ensures (x + y)[k := w] == x + y[k := w]
  {
  }

  /** The diagnostics of a concatenation of calls are those of each part. */
  lemma {:induction false} CallLogAppend<V>(modules: seq<Module<V>>, a: seq<string>, b: seq<string>, proxyAvailable: bool)
    ensures CallLog(modules, a + b, proxyAvailable)
            == CallLog(modules, a, proxyAvailable) + CallLog(modules, b, proxyAvailable)
    decreases |b|
  {
    if b == [] {
      assert a + b == a;
    } else {
      var q := b[..|b| - 1];
      var l := CombineCategory(modules, b[|b| - 1], proxyAvailable).1;
      CallLogAppend(modules, a, q, proxyAvailable);
      assert (a + b)[..|a + b| - 1] == a + q;
      assert (a + b)[|a + b| - 1] == b[|b| - 1];
      assert CallLog(modules, a + b, proxyAvailable) == CallLog(modules, a + q, proxyAvailable) + l;
      assert CallLog(modules, b, proxyAvailable) == CallLog(modules, q, proxyAvailable) + l;
    }
  }

  /** The six well-known calls are the `reduce` run over `WellKnown`, so the
      record `use` returns is one run over all the names it merges. */
  lemma UseIsOneFold<V, L>(modules: seq<Module<V>>, options: UseOptions<L>, proxyAvailable: bool)
    ensures UseModules(modules, options, proxyAvailable).0 == ExtraFields(modules, Calls(options), 0, proxyAvailable)
  {
    ExtraFieldsAppend(modules, WellKnown, options.extra, 0, proxyAvailable);
    WellKnownFold(modules, proxyAvailable);
  }

  /** The six well-known calls, as a run of the `reduce` from position 0. */
  lemma WellKnownFold<V>(modules: seq<Module<V>>, p: bool)
    ensures ExtraFields(modules, WellKnown, 0, p) == map[
      "reducers" := Field(0, CombineCategory(modules, "reducers", p).0),
      "actionTypes" := Field(1, CombineCategory(modules, "actionTypes", p).0),
      "actionCreators" := Field(2, CombineCategory(modules, "actionCreators", p).0),
      "sagas" := Field(3, CombineCategory(modules, "sagas", p).0),
      "selectors" := Field(5, CombineCategory(modules, "selectors", p).0),
      "effects" := Field(4, CombineCategory(modules, "effects", p).0)]
  {
    var w := WellKnown;
    var w1, w2, w3, w4, w5 := w[..1], w[..2], w[..3], w[..4], w[..5];
    assert w5[..4] == w4 && w4[..3] == w3 && w3[..2] == w2 && w2[..1] == w1 && w1[..0] == [];
    var m1 := map["reducers" := Field(0, CombineCategory(modules, "reducers", p).0)];
    assert ExtraFields(modules, w1, 0, p) == m1;
    var m2 := m1["actionTypes" := Field(1, CombineCategory(modules, "actionTypes", p).0)];
    assert ExtraFields(modules, w2, 0, p) == m2;
    var m3 := m2["actionCreators" := Field(2, CombineCategory(modules, "actionCreators", p).0)];
    assert ExtraFields(modules, w3, 0, p) == m3;
    var m4 := m3["sagas" := Field(3, CombineCategory(modules, "sagas", p).0)];
    assert ExtraFields(modules, w4, 0, p) == m4;
    var m5 := m4["effects" := Field(4, CombineCategory(modules, "effects", p).0)];
    assert ExtraFields(modules, w5, 0, p) == m5;
    var m6 := m5["selectors" := Field(5, CombineCategory(modules, "selectors", p).0)];
    assert ExtraFields(modules, w, 0, p) == m6;
  }

  /** Every field of the record `use` returns holds `combine(modules, n)` for
      its own name `n`; the fields are exactly the well-known names and the
      extra names; and each field comes from the last call made for its name,
      so extras spread last replace a well-known field of the same name and a
      repeated extra name keeps its last result. */
  lemma UseFields<V, L>(modules: seq<Module<V>>, options: UseOptions<L>, proxyAvailable: bool)
    ensures var r := UseModules(modules, options, proxyAvailable).0;
      && (forall n :: n in r <==> n in Calls(options))
      && (forall n :: n in r ==>
            r[n].view == CombineCategory(modules, n, proxyAvailable).0
            && LastCall(Calls(options), n, r[n].call))
  {
    UseIsOneFold(modules, options, proxyAvailable);
    ExtraFieldsKeys(modules, Calls(options), 0, proxyAvailable);
    ExtraFieldsValues(modules, Calls(options), 0, proxyAvailable);
  }

  /** The diagnostics of `use` are those of its 6 + |extra| `combine` calls,
      concatenated in call order. */
  lemma UseTrace<V, L>(modules: seq<Module<V>>, options: UseOptions<L>, proxyAvailable: bool)
    ensures UseModules(modules, options, proxyAvailable).1 == CallLog(modules, Calls(options), proxyAvailable)
    ensures |Calls(options)| == 6 + |options.extra|
  {
    CallLogAppend(modules, WellKnown, options.extra, proxyAvailable);
    var w := WellKnown;
    var p := proxyAvailable;
    var w1, w2, w3, w4, w5 := w[..1], w[..2], w[..3], w[..4], w[..5];
    assert w5[..4] == w4 && w4[..3] == w3 && w3[..2] == w2 && w2[..1] == w1 && w1[..0] == [];
    var l1 := CombineCategory(modules, "reducers", p).1;
    assert CallLog(modules, w1, p) == l1;
    var l2 := l1 + CombineCategory(modules, "actionTypes", p).1;
    assert CallLog(modules, w2, p) == l2;
    var l3 := l2 + CombineCategory(modules, "actionCreators", p).1;
    assert CallLog(modules, w3, p) == l3;
    var l4 := l3 + CombineCategory(modules, "sagas", p).1;
    assert CallLog(modules, w4, p) == l4;
    var l5 := l4 + CombineCategory(modules, "effects", p).1;
    assert CallLog(modules, w5, p) == l5;
    var l6 := l5 + CombineCategory(modules, "selectors", p).1;
    assert CallLog(modules, w, p) == l6;
  }

  /** Each field `n` of the record `use` returns holds the merge of category
      `n`, for every well-known and every extra name. */
  lemma UseEntries<V, L>(modules: seq<Module<V>>, options: UseOptions<L>, proxyAvailable: bool)
    ensures var r := UseModules(modules, options, proxyAvailable).0;
      forall n :: n in Calls(options) ==> n in r && r[n].view.entries == Merge(modules, n).merged
  {
    UseFields(modules, options, proxyAvailable);
  }

  /** If none of its calls logs anything, `use` logs nothing. */
  lemma UseSilent<V, L>(modules: seq<Module<V>>, options: UseOptions<L>, proxyAvailable: bool)
    requires forall n :: n in Calls(options) ==> CombineCategory(modules, n, proxyAvailable).1 == []
    ensures UseModules(modules, options, proxyAvailable).1 == []
  {
    UseTrace(modules, options, proxyAvailable);
    CallLogSilent(modules, Calls(options), proxyAvailable);
  }

  lemma {:induction false} CallLogSilent<V>(modules: seq<Module<V>>, names: seq<string>, p: bool)
    requires forall n :: n in names ==> CombineCategory(modules, n, p).1 == []
    ensures CallLog(modules, names, p) == []
    decreases |names|
  {
    if names != [] {
      var q := names[..|names| - 1];
      assert forall n :: n in q ==> n in names;
      CallLogSilent(modules, q, p);
    }
  }

  /** Without modules and without extras, `use` returns exactly the six
      well-known fields, each an empty dictionary, and logs nothing. */
  lemma UseNoModules<V, L>(options: UseOptions<L>, proxyAvailable: bool)
    requires options.extra == []
    ensures var r := UseModules<V, L>([], options, proxyAvailable);
      && r.0.Keys == {"reducers", "actionTypes", "actionCreators", "sagas", "effects", "selectors"}
      && (forall n :: n in r.0 ==> r.0[n].view.entries == map[])
      && r.1 == []
  {
  }

  /** The injected sink is ignored: two option records that differ only in
      `log` give the same record and the same diagnostics on the warning
      channel. */
  lemma InjectedSinkIgnored<V, L>(modules: seq<Module<V>>, a: UseOptions<L>, b: UseOptions<L>, proxyAvailable: bool)
    requires a.extra == b.extra
    ensures UseModules(modules, a, proxyAvailable) == UseModules(modules, b, proxyAvailable)
  {
  }
}
