/** Ordered maps (`BTreeMap`) as parallel sequences of ascending keys and their values. */
module SortedMap {
  import opened Bytes

  /** Lexicographic order, as on `str`. */
  predicate Lex(a: seq<byte>, b: seq<byte>) {
    b != [] && (a == [] || a[0] < b[0] || (a[0] == b[0] && Lex(a[1..], b[1..])))
  }

  lemma {:induction false} LexIsStrict(a: seq<byte>, b: seq<byte>)
    requires Lex(a, b)
    ensures a != b && !Lex(b, a)
  {
    if a != [] && a[0] == b[0] {
      LexIsStrict(a[1..], b[1..]);
    }
  }

  ghost predicate Ascending<K>(less: (K, K) -> bool, keys: seq<K>) {
    forall i, j :: 0 <= i < j < |keys| ==> less(keys[i], keys[j])
  }

  ghost predicate Strict<K(!new)>(less: (K, K) -> bool) {
    forall a, b :: less(a, b) ==> a != b && !less(b, a)
  }

  /** `BTreeMap::insert`: a known key keeps its place and takes the new value. */
  function Insert<K(==), V>(less: (K, K) -> bool, keys: seq<K>, values: seq<V>, k: K, v: V): (r: (seq<K>, seq<V>))
    requires |keys| == |values|
    ensures |r.0| == |r.1|
  {
    if keys == [] then ([k], [v])
    else if keys[0] == k then (keys, [v] + values[1..])
    else if less(k, keys[0]) then ([k] + keys, [v] + values)
    else
      var (ks, vs) := Insert(less, keys[1..], values[1..], k, v);
      ([keys[0]] + ks, [values[0]] + vs)
  }

  lemma {:induction false} InsertLast<K(!new), V>(less: (K, K) -> bool, keys: seq<K>, values: seq<V>, k: K, v: V)
    requires |keys| == |values| && Strict(less) && Ascending(less, keys + [k])
    ensures Insert(less, keys, values, k, v) == (keys + [k], values + [v])
  {
    if keys == [] {
      assert keys + [k] == [k] && values + [v] == [v];
    } else {
      assert less((keys + [k])[0], (keys + [k])[|keys|]);
      assert keys[1..] + [k] == (keys + [k])[1..];
      InsertLast(less, keys[1..], values[1..], k, v);
      assert [keys[0]] + (keys[1..] + [k]) == keys + [k];
      assert [values[0]] + (values[1..] + [v]) == values + [v];
    }
  }

  /** Inserting pairs one after another into the map of `ks` and `vs`. */
  function InsertAll<K(==), V>(less: (K, K) -> bool, ks: seq<K>, vs: seq<V>, keys: seq<K>, values: seq<V>):
      (r: (seq<K>, seq<V>))
    requires |ks| == |vs| && |keys| == |values|
    ensures |r.0| == |r.1|
    decreases keys
  {
    if keys == [] then (ks, vs)
    else
      var m := Insert(less, ks, vs, keys[0], values[0]);
      InsertAll(less, m.0, m.1, keys[1..], values[1..])
  }

  /** Pairs in ascending order make the map that holds exactly them. */
  lemma {:induction false} InsertAllAscending<K(!new), V>(less: (K, K) -> bool, ks: seq<K>, vs: seq<V>,
                                                          keys: seq<K>, values: seq<V>)
    requires |ks| == |vs| && |keys| == |values| && Strict(less) && Ascending(less, ks + keys)
    ensures InsertAll(less, ks, vs, keys, values) == (ks + keys, vs + values)
    decreases keys
  {
    if keys == [] {
      assert ks + keys == ks && vs + values == vs;
    } else {
      assert ks + keys == ks + [keys[0]] + keys[1..] && vs + values == vs + [values[0]] + values[1..];
      assert forall i, j :: 0 <= i < j <= |ks| ==> (ks + [keys[0]])[i] == (ks + keys)[i] && (ks + [keys[0]])[j] == (ks + keys)[j];
      InsertLast(less, ks, vs, keys[0], values[0]);
      InsertAllAscending(less, ks + [keys[0]], vs + [values[0]], keys[1..], values[1..]);
    }
  }

  lemma {:induction false} InsertedValue<K, V>(less: (K, K) -> bool, keys: seq<K>, values: seq<V>, k: K, v: V, x: V)
    requires |keys| == |values| && x in Insert(less, keys, values, k, v).1
    ensures x == v || x in values
  {
    if keys != [] && keys[0] != k && !less(k, keys[0]) && x != values[0] {
      InsertedValue(less, keys[1..], values[1..], k, v, x);
    }
  }

  /** A map built by insertions holds only what it held and what was inserted. */
  lemma {:induction false} InsertedValues<K, V>(less: (K, K) -> bool, ks: seq<K>, vs: seq<V>, keys: seq<K>,
                                                values: seq<V>, x: V)
    requires |ks| == |vs| && |keys| == |values| && x in InsertAll(less, ks, vs, keys, values).1
    ensures x in vs || x in values
    decreases keys
  {
    if keys != [] {
      var m := Insert(less, ks, vs, keys[0], values[0]);
      InsertedValues(less, m.0, m.1, keys[1..], values[1..], x);
      if x in m.1 {
        InsertedValue(less, ks, vs, keys[0], values[0], x);
      }
    }
  }
}
