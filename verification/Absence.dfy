/** What a field that a header does not have is: nothing of its kind. */
module Absence {
  import opened Bytes
  import opened Wire
  import opened Scalars
  import Dynamic
  import opened Codec

  /** A value that amounts to nothing: a number of zero bytes, an array of absent elements, a
      text, list, option or `Unspecified` written with count zero and no body, a map without
      keys, a struct of absent fields. */
  ghost predicate Absent(t: Ty, v: Value)
    requires WellFormed(t)
    decreases t
  {
    && Fits(t, v)
    && match t
       case Scalar(_) => Body(t, v) == Zeros(BlobSize(t))
       case Array(n, elem) => forall i :: 0 <= i < n ==> Absent(elem, v.items[i])
       case Struct(_, blobs, datas) =>
         && |v.blobs| == |blobs| && |v.datas| == |datas|
         && (forall i :: 0 <= i < |blobs| ==> Absent(blobs[i], v.blobs[i]))
         && (forall i :: 0 <= i < |datas| ==> Absent(datas[i], v.datas[i]))
       case Map(_, _) => |v.keys| == 0
       case Unspecified => v.u.Default? && HeaderFor(t, v).count == 0 && Body(t, v) == []
       case _ => HeaderFor(t, v).count == 0 && Body(t, v) == []
  }

  lemma {:induction false} ZeroScalar(kind: Kind, n: int)
    requires InRange(kind, n)
    ensures ScalarBytes(kind, n) == Zeros(Width(kind)) <==> n == 0
  {
    ZeroIsZeros(Width(kind));
    if ScalarBytes(kind, n) == Zeros(Width(kind)) {
      ScalarRoundTrip(kind, n);
      ScalarRoundTrip(kind, 0);
    }
  }

  /** Of every type exactly one value is absent: the one that stands for a missing field. */
  lemma {:induction false} AbsentIffDefault(t: Ty, v: Value)
    requires WellFormed(t)
    ensures Absent(t, v) <==> v == Default(t)
    decreases t, 1
  {
    match t
    case Scalar(kind) =>
      assert InRange(kind, 0);
      if v.VNumber? && InRange(kind, v.n) {
        ZeroScalar(kind, v.n);
        assert Body(t, v) == ScalarBytes(kind, v.n);
      }
    case Array(_, elem) =>
      AbsentIffDefault(elem, Default(elem));
      if v.VArray? {
        forall i | 0 <= i < |v.items|
          ensures Absent(elem, v.items[i]) <==> v.items[i] == Default(elem)
        {
          AbsentIffDefault(elem, v.items[i]);
        }
        ItemsAbsent(t, v);
      }
    case Struct(_, blobs, datas) =>
      if v.VStruct? {
        EachAbsent(blobs, v.blobs);
        EachAbsent(datas, v.datas);
      }
    case _ => EmptyAbsent(t, v);
  }

  lemma EmptyAbsent(t: Ty, v: Value)
    requires WellFormed(t) && (t.Text? || t.List? || t.Option? || t.Map? || t.Unspecified?)
    ensures Absent(t, v) <==> v == Default(t)
  {
    match t
    case Text => assert Utf8([]);
    case List(elem) => NoItems(elem);
    case Option(_) =>
    case Map(key, value) =>
      NoItems(key);
      NoItems(value);
      assert v.VMap? && |v.keys| == |v.values| == 0 ==> v == VMap([], []);
    case Unspecified => assert v == VDyn(Dynamic.Default) ==> Fits(t, v);
  }

  lemma NoItems(t: Ty)
    requires WellFormed(t)
    ensures AllFit(t, []) && Items(t, []) == []
  {}

  lemma ItemsAbsent(t: Ty, v: Value)
    requires t.Array? && WellFormed(t) && v.VArray? && Absent(t.elem, Default(t.elem))
    requires forall i :: 0 <= i < |v.items| ==> (Absent(t.elem, v.items[i]) <==> v.items[i] == Default(t.elem))
    ensures Absent(t, v) <==> v == Default(t)
  {
    if v == Default(t) {
      assert v.items == Default(t).items;
      assert forall i :: 0 <= i < |v.items| ==> Fits(t.elem, v.items[i]);
      assert Fits(t, v);
    }
    if Absent(t, v) {
      assert forall i :: 0 <= i < t.n ==> v.items[i] == Default(t.elem);
      assert v.items == Default(t).items;
    }
  }

  lemma {:induction false} EachAbsent(ts: seq<Ty>, vs: seq<Value>)
    requires forall i :: 0 <= i < |ts| ==> WellFormed(ts[i])
    ensures |vs| == |ts| && (forall i :: 0 <= i < |ts| ==> Absent(ts[i], vs[i])) <==> vs == Defaults(ts)
    ensures vs == Defaults(ts) ==> EachFits(ts, vs)
    decreases ts, 0
  {
    if |vs| == |ts| {
      forall i | 0 <= i < |ts|
        ensures Absent(ts[i], vs[i]) <==> vs[i] == Default(ts[i])
      {
        AbsentIffDefault(ts[i], vs[i]);
      }
    }
  }
}
