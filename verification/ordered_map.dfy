/**
 * Python's `dict` with its insertion order: the keys in the order they were first
 * inserted, and the current value of each. Assigning to a present key replaces its
 * value and keeps its place.
 */
module OrderedMaps {

  datatype OrderedMap<K(==,!new), V> = OrderedMap(keys: seq<K>, values: map<K, V>)
  {
    /** The keys are distinct and are exactly the keys that have a value. */
    ghost predicate Valid()
    {
      && (forall i, j :: 0 <= i < j < |keys| ==> keys[i] != keys[j])
      && (forall i :: 0 <= i < |keys| ==> keys[i] in values)
      && (forall k :: k in values <==> k in keys)
    }

    function Size(): nat
    {
      |keys|
    }

    /** `d[k] = v`. */
    function Put(k: K, v: V): (r: OrderedMap<K, V>)
      requires Valid()
      ensures r.Valid()
      ensures r.values == values[k := v]
      ensures k in values ==> r.keys == keys
      ensures k !in values ==> r.keys == keys + [k]
    {
      if k in values then OrderedMap(keys, values[k := v]) else OrderedMap(keys + [k], values[k := v])
    }
  }

  function Empty<K(==,!new), V>(): (r: OrderedMap<K, V>)
    ensures r.Valid() && r.keys == [] && r.values == map[]
  {
    OrderedMap([], map[])
  }

  /** The dictionary built by assigning the pairs in order, `d[k] = v` for each. */
  function FromPairs<K(==,!new), V>(ps: seq<(K, V)>): (r: OrderedMap<K, V>)
    ensures r.Valid()
  {
    if ps == [] then Empty() else FromPairs(ps[..|ps| - 1]).Put(ps[|ps| - 1].0, ps[|ps| - 1].1)
  }

  /** The index of the first pair whose key is `k` (|ps| when there is none). */
  function FirstKeyAt<K(==), V>(ps: seq<(K, V)>, k: K): (i: nat)
    ensures i <= |ps|
    ensures i < |ps| ==> ps[i].0 == k
    ensures forall j :: 0 <= j < i ==> ps[j].0 != k
  {
    if ps == [] then 0 else if ps[0].0 == k then 0 else 1 + FirstKeyAt(ps[1..], k)
  }

  /** The keys are exactly the keys assigned. */
  lemma {:induction false} FromPairsKeys<K(!new), V>(ps: seq<(K, V)>)
    ensures forall k :: k in FromPairs(ps).keys <==> exists i :: 0 <= i < |ps| && ps[i].0 == k
  {
    if ps != [] {
      var init := ps[..|ps| - 1];
      FromPairsKeys(init);
      forall k | k in FromPairs(ps).keys ensures exists i :: 0 <= i < |ps| && ps[i].0 == k {
        if k != ps[|ps| - 1].0 {
          var i :| 0 <= i < |init| && init[i].0 == k;
          assert ps[i] == init[i];
        }
      }
      forall k | (exists i :: 0 <= i < |ps| && ps[i].0 == k) ensures k in FromPairs(ps).keys {
        var i :| 0 <= i < |ps| && ps[i].0 == k;
        if i < |init| {
          assert init[i] == ps[i];
        }
      }
    }
  }

  /** The keys are ordered by their first assignment: a key assigned again keeps its place. */
  lemma {:induction false} FromPairsOrder<K(!new), V>(ps: seq<(K, V)>)
    ensures forall i, j :: 0 <= i < j < |FromPairs(ps).keys| ==>
              FirstKeyAt(ps, FromPairs(ps).keys[i]) < FirstKeyAt(ps, FromPairs(ps).keys[j])
  {
    if ps != [] {
      var init := ps[..|ps| - 1];
      FromPairsOrder(init);
      FromPairsKeys(init);
      forall x | x in FromPairs(init).keys ensures FirstKeyAt(init, x) < |init| {
        var i :| 0 <= i < |init| && init[i].0 == x;
      }
      var keys0 := FromPairs(init).keys;
      var k := ps[|ps| - 1].0;
      OrderKept(init, ps, keys0);
      if k !in keys0 {
        NewKeyLast(init, ps, k);
        AppendLargest(keys0, k, x => FirstKeyAt(ps, x));
      }
    }
  }

  /** An assignment to a key already present leaves the order of the keys as it was. */
  lemma OrderKept<K, V>(init: seq<(K, V)>, ps: seq<(K, V)>, keys: seq<K>)
    requires |init| <= |ps| && init == ps[..|init|]
    requires forall x :: x in keys ==> FirstKeyAt(init, x) < |init|
    requires forall i, j :: 0 <= i < j < |keys| ==> FirstKeyAt(init, keys[i]) < FirstKeyAt(init, keys[j])
    ensures forall i :: 0 <= i < |keys| ==> FirstKeyAt(ps, keys[i]) == FirstKeyAt(init, keys[i]) < |init|
    ensures forall i, j :: 0 <= i < j < |keys| ==> FirstKeyAt(ps, keys[i]) < FirstKeyAt(ps, keys[j])
  {
    forall i | 0 <= i < |keys| ensures FirstKeyAt(ps, keys[i]) == FirstKeyAt(init, keys[i]) < |init| {
      assert keys[i] in keys;
      FirstKeyAtPrefix(init, ps, keys[i]);
    }
  }

  /** Appending an element ranked above all others keeps a sequence ranked increasingly. */
  lemma AppendLargest<K>(keys0: seq<K>, k: K, rank: K -> int)
    requires forall i :: 0 <= i < |keys0| ==> rank(keys0[i]) < rank(k)
    requires forall i, j :: 0 <= i < j < |keys0| ==> rank(keys0[i]) < rank(keys0[j])
    ensures forall i, j :: 0 <= i < j < |keys0 + [k]| ==> rank((keys0 + [k])[i]) < rank((keys0 + [k])[j])
  {
  }

  /** A key not assigned before the last pair is first assigned there. */
  lemma NewKeyLast<K, V>(init: seq<(K, V)>, ps: seq<(K, V)>, k: K)
    requires ps != [] && init == ps[..|ps| - 1] && ps[|ps| - 1].0 == k
    requires FirstKeyAt(init, k) == |init|
    ensures FirstKeyAt(ps, k) == |init|
  {
  }

  /** Prepending pairs does not move the first assignment of a key already assigned. */
  lemma FirstKeyAtPrefix<K, V>(p: seq<(K, V)>, s: seq<(K, V)>, k: K)
    requires |p| <= |s| && p == s[..|p|]
    requires FirstKeyAt(p, k) < |p|
    ensures FirstKeyAt(s, k) == FirstKeyAt(p, k)
  {
    assert s[FirstKeyAt(p, k)] == p[FirstKeyAt(p, k)];
  }

  /** Each key holds the value of its last assignment. */
  lemma {:induction false} FromPairsValues<K(!new), V>(ps: seq<(K, V)>)
    ensures forall i :: 0 <= i < |ps| && (forall j :: i < j < |ps| ==> ps[j].0 != ps[i].0) ==>
              ps[i].0 in FromPairs(ps).values && FromPairs(ps).values[ps[i].0] == ps[i].1
  {
    if ps != [] {
      var init := ps[..|ps| - 1];
      FromPairsValues(init);
      var m0 := FromPairs(init);
      var m := FromPairs(ps);
      var last := ps[|ps| - 1];
      assert m.values == m0.values[last.0 := last.1];
      forall i | 0 <= i < |ps| && (forall j :: i < j < |ps| ==> ps[j].0 != ps[i].0)
        ensures ps[i].0 in m.values && m.values[ps[i].0] == ps[i].1
      {
        if i < |init| {
          assert ps[i] == init[i];
          assert ps[|ps| - 1].0 != ps[i].0;
          forall j | i < j < |init| ensures init[j].0 != init[i].0 {
            assert init[j] == ps[j];
          }
        }
      }
    }
  }

  /**
   * `m'` is `m` with `f` applied to the values of its first i keys (in order) and the other
   * values as they were; the keys are unchanged.
   */
  ghost predicate MappedUpTo<K(!new), V>(m: OrderedMap<K, V>, m': OrderedMap<K, V>, f: V -> V, i: nat)
    requires m.Valid() && i <= |m.keys|
  {
    && m'.keys == m.keys && m'.values.Keys == m.values.Keys
    && (forall j :: 0 <= j < i ==> m'.values[m.keys[j]] == f(m.values[m.keys[j]]))
    && (forall j :: i <= j < |m.keys| ==> m'.values[m.keys[j]] == m.values[m.keys[j]])
  }

  lemma MappedStart<K(!new), V>(m: OrderedMap<K, V>, f: V -> V)
    requires m.Valid()
    ensures MappedUpTo(m, m, f, 0)
  {
  }

  /** Rewriting the value of the next key extends the rewritten part by one. */
  lemma MappedStep<K(!new), V>(m: OrderedMap<K, V>, m': OrderedMap<K, V>, f: V -> V, i: nat, m'': OrderedMap<K, V>)
    requires m.Valid() && i < |m.keys| && MappedUpTo(m, m', f, i)
    requires m''.keys == m'.keys && m''.values == m'.values[m.keys[i] := f(m.values[m.keys[i]])]
    ensures MappedUpTo(m, m'', f, i + 1)
  {
    forall j | 0 <= j < |m.keys| && j != i ensures m.keys[j] != m.keys[i] {
    }
  }

  /** Once every key has been visited, every value has been rewritten. */
  lemma MappedAll<K(!new), V>(m: OrderedMap<K, V>, m': OrderedMap<K, V>, f: V -> V)
    requires m.Valid() && MappedUpTo(m, m', f, |m.keys|)
    ensures m'.values == map k | k in m.values :: f(m.values[k])
  {
    forall k | k in m.values ensures m'.values[k] == f(m.values[k]) {
      var j :| 0 <= j < |m.keys| && m.keys[j] == k;
    }
  }
}
