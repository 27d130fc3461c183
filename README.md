# redux-package-loader: a Dafny model of `combine` and `use`

redux-package-loader assembles a Redux application from feature modules. A
module is a record whose fields are categories (`reducers`, `actionTypes`,
`actionCreators`, `sagas`, `effects`, `selectors`, or any other name). Each
category is a string-keyed dictionary.

- `combine(modules, name)` merges one category across the module list, in
  order. The first module that lists a key wins. Every later listing of the
  key is reported as a collision on the warning channel. Unless the category
  is `sagas` or `reducers`, or the host has no `Proxy`, the merged dictionary
  is returned behind an access guard. The guard reports, once per key, every
  read of a key the dictionary does not hold. An empty name is reported and
  yields `{}`.
- `use(modules, { extra, log })` calls `combine` once for each of the six
  well-known categories and once for each extra name. It assembles the
  results into one record, with the extras spread last.

The model has six modules:

- `Wrappers`: `Option` and map lookup.
- `Merging`: the merge loop of `combine`.
  - `MergeCategory` is a method with nested loops, proved against the
    specification function `Merge`.
  - The lemmas relate `Merge` to order-free reference definitions: which
    modules contribute a key, the first position that lists it, and how
    often it is listed.
  - `Message` gives the exact text of each diagnostic.
- `Guard`: the `get` trap of the guard, as the class `AccessGuard`. Its
  field `warned` is the source's `errorAlreadySent`. Its field `trace` is
  what the guard has written to the warning channel. `Read` and `ReadAll`
  give the same behaviour as values.
- `Combine`: the guard decision and `CombineModules`, the method for the
  whole of `combine`. Its value-level counterpart is `CombineCategory`.
- `Use`: `use` as the pure function `UseModules`. Each field of the record
  carries the position of the `combine` call that built it. That position
  stands for the identity of the fresh object each call returns.
- `Scenarios`: the repository's test cases, and the collision example,
  proved on concrete modules.

Writes to the warning channel are returned as a sequence of `Diagnostic`
values instead of being printed. Whether the host offers `Proxy` is a
boolean parameter, `proxyAvailable`.

`use` takes a `log` option and hands it to `combine` as a third argument.
`combine` declares only two parameters and always logs through the global
`console.warn`, so the option has no effect. The model keeps that
behaviour: `UseOptions.log` is accepted and never read, and
`Use.InjectedSinkIgnored` proves that it changes nothing.

## Model

| member | source | states |
|---|---|---|
| Merging.MergeCategory | src/combine.ts:5-26 | The loop builds exactly the state `Merge` defines. An empty name gives `{}` and one missing-name report. Otherwise the merged keys are exactly the keys some module lists under the category. |
| Merging.AbsorbAllKeys | src/combine.ts:18-25 | Absorbing one module's collection adds exactly that collection's keys to the dictionary. |
| Merging.AbsorbAllKeeps | src/combine.ts:19-22 | A key already merged keeps its value whatever later entries list it. |
| Merging.AbsorbAllFirst | src/combine.ts:18-24 | A key new to the dictionary takes the value of its first entry in the collection. |
| Merging.AbsorbAllOnlyCollisions | src/combine.ts:19-22 | Absorbing a collection logs nothing but collision reports naming this category. |
| Merging.AbsorbAllSize | src/combine.ts:18-25 | Each entry either adds a new key or logs exactly one collision. |
| Merging.AbsorbAllCollisions | src/combine.ts:19-22 | Each listing of a key logs one collision for it, except the listing that enters the dictionary. |
| Merging.MergedKeys | src/combine.ts:8-26 | The merged keys are the union, over the modules that define the category, of its keys; with an empty name the result is empty. |
| Merging.MergeModulesKeys | src/combine.ts:13-26 | Over any module list, a key is merged exactly when some module lists it under the category. |
| Merging.FirstContributorWins | src/combine.ts:13-26 | Every merged value is the one at the earliest module, and the earliest position in that module, that lists the key. |
| Merging.MergeOnlyCollisions | src/combine.ts:19-22 | With a name given, the merge logs only collision reports naming its category. |
| Merging.MergeSize | src/combine.ts:13-26 | Collisions logged plus distinct keys merged equals the number of entries all modules contribute. |
| Merging.CollisionCount | src/combine.ts:19-22 | A key listed c times over all modules is reported c - 1 times. A key never listed is never reported. |
| Merging.OccurrencesAbsent | src/combine.ts:13-18 | A key no module lists has no occurrences. |
| Merging.KeyCountHasKey | src/combine.ts:18 | A key occurs in a collection at least once exactly when the collection lists it. |
| Merging.DisjointNoCollisions | src/combine.ts:19-22 | Modules whose keys for the category are pairwise distinct merge without any report. |
| Merging.AbsentCategoryEmpty | src/combine.ts:13-16 | A category no module defines merges to `{}` with no report. |
| Merging.MergeIndependent | src/combine.ts:13-18 | The merge of a category depends only on each module's collection for that category. |
| Guard.AccessGuard.constructor | src/combine.ts:32-33 | A new guard wraps the merged dictionary under the category name, with no key reported yet. |
| Guard.AccessGuard.Get | src/combine.ts:34-51 | A read returns what a plain lookup returns. A missing key not yet reported is logged once and recorded; every other read leaves the state unchanged. Reported keys are always missing keys, each logged exactly once. |
| Guard.ReadMissingTwice | src/combine.ts:39-50 | Two reads of one missing key through a fresh guard both yield `undefined`, and only one report is logged. |
| Guard.ReadAllValues | src/combine.ts:39-50 | Over any series of reads, each read yields exactly the plain lookup of its key. |
| Guard.ReadAllWarned | src/combine.ts:39-47 | After a series of reads, the reported keys are the earlier ones plus every missing key read. The set only grows and never takes in a key the dictionary holds. |
| Guard.ReadAllWarnsOnce | src/combine.ts:39-47 | A series of reads logs one report for each newly reported key and nothing else, with no report repeated. |
| Guard.RepeatedReadSilent | src/combine.ts:39-50 | A second read of a key right after the first reports nothing and returns the same value. |
| Combine.CombineModules | src/combine.ts:5-53 | Returns the merge of the category, plain or behind a fresh guard with no key reported, exactly as `CombineCategory` says. |
| Combine.GuardPolicy | src/combine.ts:28-33 | `sagas` and `reducers` are never guarded. Nothing is guarded without `Proxy` or without a name. Every other category is guarded, and the wrapped dictionary is the merge in every case. |
| Use.ExtraFieldsKeys | src/use.ts:27-30 | The `reduce` over the extra names adds a field for each name and no other. |
| Use.ExtraFieldsValues | src/use.ts:27-30 | Each field of the `reduce` holds its own name's `combine` result, from the last call made for that name. |
| Use.ExtraFieldsAppend | src/use.ts:27-30 | Two runs of the `reduce` in sequence build the union of their fields, with the later run winning. |
| Use.CallLogAppend | src/use.ts:19-30 | The diagnostics of two runs of calls in sequence are the concatenation of each run's diagnostics. |
| Use.UseIsOneFold | src/use.ts:21-40 | The record `use` builds equals one fold over the well-known names followed by the extras. |
| Use.WellKnownFold | src/use.ts:21-38 | The six explicit well-known fields equal the fold over the well-known names in call order. |
| Use.UseFields | src/use.ts:14-41 | The fields are exactly the well-known and extra names. Each holds `combine(modules, n)` for its own name `n`, from the last call made for `n`, so an extra overrides a well-known field of the same name. |
| Use.UseTrace | src/use.ts:19-30 | `use` logs the diagnostics of its 6 + \|extra\| `combine` calls, concatenated in call order. |
| Use.UseEntries | src/use.ts:21-40 | Every well-known and extra field holds the merge of its own category. |
| Use.UseSilent | src/use.ts:21-30 | If none of its `combine` calls logs anything, `use` logs nothing. |
| Use.CallLogSilent | src/use.ts:27-30 | A series of silent `combine` calls logs nothing. |
| Use.UseNoModules | src/use.ts:14-41 | With no modules and no extras, `use` returns exactly the six well-known fields, each `{}`, and logs nothing. |
| Use.InjectedSinkIgnored | src/use.ts:16-19 | Two option records that differ only in `log` give the same record and the same diagnostics. |
| Scenarios.CombineReducersTest | src/combine.test.ts:9-31 | Two modules with disjoint `reducers` merge to `{test, cool, wow}`, unguarded and with no report. |
| Scenarios.CombineCollisionExample | src/combine.ts:19-24 | Two modules listing `selectors.x` keep the first value and log one collision naming `selectors` and `x`. |
| Scenarios.UseTestCategories | src/use.test.ts:62-125 | Each category of the test modules merges to the expected dictionary with no collision. |
| Scenarios.UseTestKeys | src/use.test.ts:7-125 | The record holds the six well-known fields, plus `something` when it is requested, and no other. |
| Scenarios.UseTestEntries | src/use.test.ts:7-125 | In both test cases each field holds the expected entries. |
| Scenarios.UseTestSilent | src/use.test.ts:7-125 | In both test cases nothing is logged. |

## Left out

- Console output: the warning channel is a returned `Diagnostic` trace. The text of each line is fixed by `Merging.Message`. Each guard keeps its own trace, so how reads on several guards interleave on one console is not modelled.
- The `Proxy` probe (`window.hasOwnProperty('Proxy')`) is the boolean `proxyAvailable`; the global environment is not modelled.
- Symbol-keyed reads through the guard (src/combine.ts:35-37), reads of inherited prototype members, and every trap other than `get` are not modelled. Keys are strings and the dictionary holds only own keys.
- Writes through the guard are not modelled. A guard's dictionary is fixed when it is made.
- A category value that is not an object (which makes `Object.keys` throw) is not modelled. Each category is an ordered sequence of key-value entries, in the order `Object.keys` would list them.
- Special JavaScript keys such as `__proto__` are not modelled. The merged dictionary is a plain map.
- Module values (reducers, action creators, sagas) are opaque: the type parameter `V`. `src/types.ts` and the Redux typings are not part of this model.
- Input modules are immutable values, so "the inputs are never modified" holds by construction rather than by a stated contract.
- Object identity of the fresh dictionaries `use` gets back is represented by the position of the `combine` call that built each one.
- The tape test harness is not modelled. Its cases are restated as the `Scenarios` lemmas.
