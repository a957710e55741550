/** What a map holds after any insertions, in any order: the last value of every key. */
module MapContents {
  import opened Bytes
  import opened Wrappers
  import opened SortedMap
  import opened Scalars
  import Dynamic
  import Codec
  import Reader

  /** The value of the last pair with key `k`. */
  function Last<K(==), V>(keys: seq<K>, values: seq<V>, k: K): (v: Option<V>)
    requires |keys| == |values|
    ensures v.Some? <==> k in keys
  {
    if keys == [] then None
    else
      var rest := Last(keys[1..], values[1..], k);
      if rest.Some? then rest else if keys[0] == k then Some(values[0]) else None
  }

  /** `less` orders the keys among `ok`. */
  ghost predicate Orders<K(!new)>(less: (K, K) -> bool, ok: K -> bool) {
    && (forall a, b :: ok(a) && ok(b) ==> less(a, b) || a == b || less(b, a))
    && (forall a, b :: less(a, b) ==> a != b && !less(b, a))
    && (forall a, b, c :: less(a, b) && less(b, c) ==> less(a, c))
  }

  ghost predicate AllOk<K(!new)>(ok: K -> bool, keys: seq<K>) {
    forall i :: 0 <= i < |keys| ==> ok(keys[i])
  }

  lemma InsertFirst<K(!new)>(less: (K, K) -> bool, ok: K -> bool, keys: seq<K>, k: K)
    requires Orders(less, ok) && Ascending(less, keys) && keys != [] && less(k, keys[0])
    ensures Ascending(less, [k] + keys) && k !in keys
  {
    forall i | 0 <= i < |keys|
      ensures less(k, keys[i])
    {
      if i > 0 {
        assert less(keys[0], keys[i]);
      }
    }
    assert forall i :: 1 <= i <= |keys| ==> ([k] + keys)[i] == keys[i - 1];
  }

  lemma AscendingTail<K(!new)>(less: (K, K) -> bool, ok: K -> bool, keys: seq<K>)
    requires Orders(less, ok) && Ascending(less, keys) && keys != []
    ensures Ascending(less, keys[1..]) && keys[0] !in keys[1..]
    ensures forall k :: k in keys[1..] ==> less(keys[0], k)
  {
    forall k | k in keys[1..]
      ensures less(keys[0], k)
    {
      var i :| 0 <= i < |keys[1..]| && keys[1..][i] == k;
      assert keys[i + 1] == k;
    }
  }

  /** Inserting keeps the keys ascending, adds the pair, and changes nothing else. */
  lemma {:induction false} InsertContents<K(!new), V>(less: (K, K) -> bool, ok: K -> bool,
                                                      keys: seq<K>, values: seq<V>, k: K, v: V)
    requires |keys| == |values| && Orders(less, ok) && Ascending(less, keys) && AllOk(ok, keys) && ok(k)
    ensures var (ks, vs) := Insert(less, keys, values, k, v);
            && Ascending(less, ks) && AllOk(ok, ks)
            && (forall x :: x in ks <==> x == k || x in keys)
            && (forall x :: Last(ks, vs, x) == if x == k then Some(v) else Last(keys, values, x))
    decreases keys
  {
    var (ks, vs) := Insert(less, keys, values, k, v);
    if keys == [] {
    } else if keys[0] == k {
      AscendingTail(less, ok, keys);
    } else if less(k, keys[0]) {
      InsertFirst(less, ok, keys, k);
      assert ks[1..] == keys && vs[1..] == values;
    } else {
      AscendingTail(less, ok, keys);
      InsertContents(less, ok, keys[1..], values[1..], k, v);
      var tail := Insert(less, keys[1..], values[1..], k, v);
      assert ks[1..] == tail.0 && vs[1..] == tail.1 && ks[0] == keys[0];
      forall j | 0 < j < |ks|
        ensures less(ks[0], ks[j])
      {
        assert ks[j] == tail.0[j - 1] && ks[j] in tail.0;
      }
      forall i, j | 0 < i < j < |ks|
        ensures less(ks[i], ks[j])
      {
        assert ks[i] == tail.0[i - 1] && ks[j] == tail.0[j - 1];
      }
    }
  }

  /** Pairs inserted one after another, whatever their order and however often a key recurs:
      the last value of every key, and every other key as it was. */
  lemma {:induction false} InsertAllContents<K(!new), V>(less: (K, K) -> bool, ok: K -> bool,
                                                         ks: seq<K>, vs: seq<V>, keys: seq<K>, values: seq<V>)
    requires |ks| == |vs| && |keys| == |values| && Orders(less, ok)
    requires Ascending(less, ks) && AllOk(ok, ks) && AllOk(ok, keys)
    ensures var m := InsertAll(less, ks, vs, keys, values);
            && Ascending(less, m.0) && AllOk(ok, m.0)
            && forall k :: Last(m.0, m.1, k)
                        == if Last(keys, values, k).Some? then Last(keys, values, k) else Last(ks, vs, k)
    decreases keys
  {
    if keys != [] {
      InsertContents(less, ok, ks, vs, keys[0], values[0]);
      var m := Insert(less, ks, vs, keys[0], values[0]);
      InsertAllContents(less, ok, m.0, m.1, keys[1..], values[1..]);
    }
  }

  // The two orders maps go by.

  /** Before a longer text that starts with it, or smaller at the first byte that differs. */
  lemma {:induction false} LexIff(a: seq<byte>, b: seq<byte>)
    ensures Lex(a, b) <==> (a <= b && a != b) || exists i :: 0 <= i < |a| && i < |b| && a[..i] == b[..i] && a[i] < b[i]
  {
    if a != [] && b != [] {
      LexIff(a[1..], b[1..]);
      if a[0] == b[0] {
        assert a == [a[0]] + a[1..] && b == [b[0]] + b[1..];
        if i: nat :| i < |a[1..]| && i < |b[1..]| && a[1..][..i] == b[1..][..i] && a[1..][i] < b[1..][i] {
          assert a[..i + 1] == [a[0]] + a[1..][..i] && b[..i + 1] == [b[0]] + b[1..][..i];
          assert a[i + 1] < b[i + 1];
        }
        if i: nat :| i < |a| && i < |b| && a[..i] == b[..i] && a[i] < b[i] {
          assert i > 0;
          assert a[1..][..i - 1] == a[..i][1..] && b[1..][..i - 1] == b[..i][1..];
          assert a[1..][i - 1] < b[1..][i - 1];
        }
      } else {
        assert a[..0] == b[..0];
        forall i | 0 < i < |a| && i < |b|
          ensures a[..i] != b[..i]
        {
          assert a[..i][0] != b[..i][0];
        }
      }
    }
  }

  lemma {:induction false} LexIsTotal(a: seq<byte>, b: seq<byte>)
    ensures Lex(a, b) || a == b || Lex(b, a)
  {
    if a != [] && b != [] && a[0] == b[0] {
      LexIsTotal(a[1..], b[1..]);
      assert a == [a[0]] + a[1..] && b == [b[0]] + b[1..];
    }
  }

  lemma {:induction false} LexIsTransitive(a: seq<byte>, b: seq<byte>, c: seq<byte>)
    requires Lex(a, b) && Lex(b, c)
    ensures Lex(a, c)
  {
    if a != [] && a[0] == b[0] && b[0] == c[0] {
      LexIsTransitive(a[1..], b[1..], c[1..]);
    }
  }

  lemma LexOrders()
    ensures forall a, b :: Lex(a, b) || a == b || Lex(b, a)
    ensures forall a, b :: Lex(a, b) ==> a != b && !Lex(b, a)
    ensures forall a, b, c :: Lex(a, b) && Lex(b, c) ==> Lex(a, c)
  {
    forall a, b
      ensures Lex(a, b) || a == b || Lex(b, a)
    {
      LexIsTotal(a, b);
    }
    forall a, b | Lex(a, b)
      ensures a != b && !Lex(b, a)
    {
      LexIsStrict(a, b);
    }
    forall a, b, c | Lex(a, b) && Lex(b, c)
      ensures Lex(a, c)
    {
      LexIsTransitive(a, b, c);
    }
  }

  /** A decoded dynamic map: exactly the lists of equal length with text keys make one, its
      keys ascend, and each key has the last value it came with. */
  lemma DynamicMapContents(keys: seq<Dynamic.Dyn>, values: seq<Dynamic.Dyn>, st: Reader.St)
    ensures var r := Dynamic.MakeMap(keys, values, st);
            && (r.Ok? <==> |keys| == |values| && forall i :: 0 <= i < |keys| ==> keys[i].Text?)
            && (r.Ok? ==>
                  && r.value.Map? && |r.value.keys| == |r.value.values| && Ascending(Dynamic.KeyLess, r.value.keys)
                  && forall k :: Last(r.value.keys, r.value.values, k) == Last(keys, values, k))
  {
    if Dynamic.MakeMap(keys, values, st).Ok? {
      var ok: Dynamic.Dyn -> bool := (k: Dynamic.Dyn) => k.Text?;
      assert Orders(Dynamic.KeyLess, ok) by {
        hide Lex;
        LexOrders();
      }
      InsertAllContents(Dynamic.KeyLess, ok, [], [], keys, values);
    }
  }

  /** The same for maps of a type, whose keys are texts or numbers. */
  lemma TypedMapContents(key: Codec.Ty, keys: seq<Codec.Value>, values: seq<Codec.Value>, st: Reader.St)
    requires Codec.IsKey(key) && forall i :: 0 <= i < |keys| ==> Codec.Typed(key, keys[i])
    ensures var r := Codec.MakeMap(keys, values, st);
            && (r.Ok? <==> |keys| == |values|)
            && (r.Ok? ==>
                  && r.value.VMap? && |r.value.keys| == |r.value.values| && Ascending(Codec.KeyLess, r.value.keys)
                  && forall k :: Last(r.value.keys, r.value.values, k) == Last(keys, values, k))
  {
    if |keys| == |values| {
      var ok: Codec.Value -> bool := (k: Codec.Value) => if key.Text? then k.VText? else k.VNumber?;
      assert Orders(Codec.KeyLess, ok) by {
        hide Lex;
        LexOrders();
      }
      InsertAllContents(Codec.KeyLess, ok, [], [], keys, values);
    }
  }
}
