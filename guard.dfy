/** The access guard `combine` wraps around a merged dictionary: a string-keyed
    read of a missing key is reported once per key and yields `undefined`. */
module Guard {
  import opened Wrappers
  import opened Merging

  /** The outcome of one read: the value returned, the set of keys already
      reported afterwards, and what the read logged. */
  datatype ReadResult<V> = ReadResult(value: Option<V>, warned: set<string>, log: seq<Diagnostic>)

  /** One string-keyed read through the guard. A key that is neither present
      nor already reported is reported and recorded; every other read is a
      plain lookup. */
  function Read<V>(underlying: map<string, V>, name: string, warned: set<string>, key: string): ReadResult<V>
  {
    if key !in underlying && key !in warned then
      ReadResult(None, warned + {key}, [AbsentRead(key, name)])
    else
      ReadResult(Lookup(underlying, key), warned, [])
  }

  /** The outcome of a series of reads on one guard. */
  datatype ReadsResult<V> = ReadsResult(values: seq<Option<V>>, warned: set<string>, log: seq<Diagnostic>)

  function ReadAll<V>(underlying: map<string, V>, name: string, warned: set<string>, keys: seq<string>): ReadsResult<V>
    decreases |keys|
  {
    if keys == [] then ReadsResult([], warned, [])
    else
      var r := ReadAll(underlying, name, warned, keys[..|keys| - 1]);
      var x := Read(underlying, name, r.warned, keys[|keys| - 1]);
      ReadsResult(r.values + [x.value], x.warned, r.log + x.log)
  }

  /** The keys among `keys` that the dictionary does not hold. */
  function AbsentKeys<V>(underlying: map<string, V>, keys: seq<string>): set<string>
  {
    set i | 0 <= i < |keys| && keys[i] !in underlying :: keys[i]
  }

  /** Only keys missing from the dictionary are ever recorded as reported. */
  ghost predicate WarnedAbsent<V>(underlying: map<string, V>, warned: set<string>)
  {
    forall k :: k in warned ==> k !in underlying
  }

  /** A guard as an object: the dictionary it wraps and the category name are
      fixed when it is made; the set of reported keys (`errorAlreadySent`)
      and the diagnostics it has logged change with each read. */
  class AccessGuard<V> {
    const underlying: map<string, V>
    const name: string
    var warned: set<string>
    var trace: seq<Diagnostic>

    /** Each reported key is missing from the dictionary and was logged
        exactly once, and nothing else was logged. */
    ghost predicate Valid()
      reads this
    {
      && WarnedAbsent(underlying, warned)
      && (forall d :: d in trace ==> d.AbsentRead? && d.name == name && d.key in warned)
      && (forall k :: k in warned ==> AbsentRead(k, name) in trace)
      && (forall i, j :: 0 <= i < j < |trace| ==> trace[i] != trace[j])
      && |trace| == |warned|
    }

    constructor (underlying: map<string, V>, name: string)
      ensures Valid()
      ensures this.underlying == underlying && this.name == name
      ensures warned == {} && trace == []
    {
      this.underlying := underlying;
      this.name := name;
      warned := {};
      trace := [];
    }

    /** The `get` trap for a string key. */
    method Get(key: string) returns (value: Option<V>)
      requires Valid()
      modifies this
      ensures Valid()
      ensures value == Lookup(underlying, key)
      ensures var x := Read(underlying, name, old(warned), key);
        x.value == value && warned == x.warned && trace == old(trace) + x.log
      ensures key in underlying ==> warned == old(warned) && trace == old(trace)
      ensures key !in underlying && key !in old(warned) ==>
        warned == old(warned) + {key} && trace == old(trace) + [AbsentRead(key, name)]
      ensures key in old(warned) ==> warned == old(warned) && trace == old(trace)
    {
      if key !in underlying && key !in warned {
        trace := trace + [AbsentRead(key, name)];
        warned := warned + {key};
        return None;
      }
      value := if key in underlying then Some(underlying[key]) else None;
    }
  }

  /** Reading the same missing key twice through a fresh guard: both reads
      yield `undefined` and only the first is reported. */
  method ReadMissingTwice<V>(underlying: map<string, V>, name: string, key: string)
    returns (first: Option<V>, second: Option<V>, trace: seq<Diagnostic>)
    requires key !in underlying
    ensures first == None && second == None
    ensures trace == [AbsentRead(key, name)]
  {
    var g := new AccessGuard(underlying, name);
    first := g.Get(key);
    second := g.Get(key);
    trace := g.trace;
  }

  /** Reads are transparent: whatever was reported before, every read yields
      exactly what a plain lookup yields. */
  lemma {:induction false} ReadAllValues<V>(underlying: map<string, V>, name: string, warned: set<string>, keys: seq<string>)
    ensures var r := ReadAll(underlying, name, warned, keys);
      |r.values| == |keys| && forall i :: 0 <= i < |keys| ==> r.values[i] == Lookup(underlying, keys[i])
    decreases |keys|
  {
    if keys != [] {
      ReadAllValues(underlying, name, warned, keys[..|keys| - 1]);
    }
  }

  /** After a series of reads the reported keys are those reported before
      plus every missing key read; the set only grows and never takes in a
      key the dictionary holds. */
  lemma {:induction false} ReadAllWarned<V>(underlying: map<string, V>, name: string, warned: set<string>, keys: seq<string>)
    requires WarnedAbsent(underlying, warned)
    ensures var r := ReadAll(underlying, name, warned, keys);
      r.warned == warned + AbsentKeys(underlying, keys) && WarnedAbsent(underlying, r.warned)
    decreases |keys|
  {
    if keys != [] {
      var p := keys[..|keys| - 1];
      ReadAllWarned(underlying, name, warned, p);
      var k := keys[|keys| - 1];
      assert AbsentKeys(underlying, keys)
          == AbsentKeys(underlying, p) + (if k in underlying then {} else {k}) by {
        forall x | x in AbsentKeys(underlying, keys)
          ensures x in AbsentKeys(underlying, p) + (if k in underlying then {} else {k})
        {
          var i :| 0 <= i < |keys| && keys[i] !in underlying && keys[i] == x;
          if i < |p| { assert p[i] == keys[i]; }
        }
        forall x | x in AbsentKeys(underlying, p) ensures x in AbsentKeys(underlying, keys) {
          var i :| 0 <= i < |p| && p[i] !in underlying && p[i] == x;
          assert keys[i] == p[i];
        }
      }
    }
  }

  /** One report per key: a series of reads logs `AbsentRead(k, name)` for
      exactly the missing keys `k` read that were not reported before, each
      once, and nothing else. */
  lemma {:induction false} ReadAllWarnsOnce<V>(underlying: map<string, V>, name: string, warned: set<string>, keys: seq<string>)
    requires WarnedAbsent(underlying, warned)
    ensures var r := ReadAll(underlying, name, warned, keys);
      && (forall d :: d in r.log ==> d.AbsentRead? && d.name == name && d.key in r.warned - warned)
      && (forall k :: k in r.warned - warned ==> AbsentRead(k, name) in r.log)
      && (forall i, j :: 0 <= i < j < |r.log| ==> r.log[i] != r.log[j])
      && |r.log| == |r.warned - warned|
    decreases |keys|
  {
    if keys != [] {
      var p := keys[..|keys| - 1];
      var k := keys[|keys| - 1];
      var t := ReadAll(underlying, name, warned, p);
      ReadAllWarnsOnce(underlying, name, warned, p);
      ReadAllWarned(underlying, name, warned, p);
      var r := ReadAll(underlying, name, warned, keys);
      if k !in underlying && k !in t.warned {
        assert r.warned - warned == (t.warned - warned) + {k};
        assert r.log == t.log + [AbsentRead(k, name)];
        forall i, j | 0 <= i < j < |r.log| ensures r.log[i] != r.log[j] {
          if j == |t.log| {
            assert r.log[i] in t.log;
          }
        }
      }
    }
  }

  /** A second read of a key right after the first reports nothing and
      returns the same value. */
  lemma RepeatedReadSilent<V>(underlying: map<string, V>, name: string, warned: set<string>, key: string)
    ensures var x := Read(underlying, name, warned, key);
      var y := Read(underlying, name, x.warned, key);
      y.log == [] && y.warned == x.warned && y.value == x.value
  {
  }
}
