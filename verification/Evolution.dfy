/** Schema evolution: what a reader of one version of a type makes of what a writer of
    another version wrote. */
module Evolution {
  import opened Bytes
  import opened Wrappers
  import opened Wire
  import opened Reader
  import opened Extent
  import opened Scalars
  import opened SortedMap
  import opened DynamicTrip
  import opened Framing
  import Dynamic
  import opened Codec

  /** One is a prefix of the other. */
  predicate SameStart(a: seq<Ty>, b: seq<Ty>) {
    a == [] || b == [] || (a[0] == b[0] && SameStart(a[1..], b[1..]))
  }

  /** `w` and `r` are versions of one type: one has the fields of the other and possibly
      more at the end, recursively. Types without an ordinal have no versions. */
  predicate Evolved(w: Ty, r: Ty)
    requires WellFormed(w) && WellFormed(r)
  {
    match r
    case Struct(ordinal, blobs, datas) =>
      && w.Struct? && w.ordinal == ordinal
      && SameStart(w.blobs, blobs)
      && (ordinal == 0 ==> FormatOf(w) == FormatOf(r))
      && forall i :: 0 <= i < Min(|w.datas|, |datas|) ==> Evolved(w.datas[i], datas[i])
    case List(elem) => w.List? && Evolved(w.elem, elem)
    case Option(elem) => w.Option? && Evolved(w.elem, elem)
    case Map(key, value) => w.Map? && w.key == key && Evolved(w.value, value)
    case _ => w == r
  }

  /** The writer has no more blob bytes than the reader, or one of the two has no structured
      field; and so for every nested type both sides know. */
  predicate Safe(w: Ty, r: Ty)
    requires WellFormed(w) && WellFormed(r) && Evolved(w, r)
  {
    match r
    case Struct(_, blobs, datas) =>
      && (TotalSize(w.blobs) <= TotalSize(blobs) || w.datas == [] || datas == [])
      && forall i :: 0 <= i < Min(|w.datas|, |datas|) ==> Safe(w.datas[i], datas[i])
    case List(elem) => Safe(w.elem, elem)
    case Option(elem) => Safe(w.elem, elem)
    case Map(_, value) => Safe(w.value, value)
    case _ => true
  }

  /** A written value in the reader's eyes: fields it does not know are gone, fields the
      writer did not know have their defaults. */
  function Reconcile(r: Ty, v: Value): Value {
    match r
    case Struct(_, blobs, datas) =>
      if v.VStruct? then VStruct(ReconcileBlobs(blobs, v.blobs), ReconcileDatas(datas, v.datas)) else v
    case List(elem) => if v.VList? then VList(ReconcileItems(elem, v.items)) else v
    case Option(elem) => if v.VSome? then VSome(Reconcile(elem, v.value)) else v
    case Map(_, value) => if v.VMap? then VMap(v.keys, ReconcileItems(value, v.values)) else v
    case _ => v
  }

  function ReconcileBlobs(ts: seq<Ty>, vs: seq<Value>): (r: seq<Value>)
    ensures |r| == |ts|
  {
    if ts == [] then [] else if vs == [] then Defaults(ts) else [vs[0]] + ReconcileBlobs(ts[1..], vs[1..])
  }

  function ReconcileDatas(ts: seq<Ty>, vs: seq<Value>): (r: seq<Value>)
    ensures |r| == |ts|
  {
    if ts == [] then [] else if vs == [] then Defaults(ts)
    else [Reconcile(ts[0], vs[0])] + ReconcileDatas(ts[1..], vs[1..])
  }

  function ReconcileItems(t: Ty, vs: seq<Value>): (r: seq<Value>)
    ensures |r| == |vs|
    decreases t, vs
  {
    if vs == [] then [] else [Reconcile(t, vs[0])] + ReconcileItems(t, vs[1..])
  }

  /** Between a type and itself nothing is lost. */
  lemma {:induction false} ReconcileSelf(t: Ty, v: Value)
    requires WellFormed(t) && Fits(t, v)
    ensures Reconcile(t, v) == v
    decreases t, v
  {
    match t
    case Struct(_, blobs, datas) =>
      ReconcileSelfBlobs(blobs, v.blobs);
      ReconcileSelfDatas(datas, v.datas);
    case List(elem) => ReconcileSelfItems(elem, v.items);
    case Option(elem) =>
      if v.VSome? {
        ReconcileSelf(elem, v.value);
      }
    case Map(_, value) => ReconcileSelfItems(value, v.values);
    case _ =>
  }

  lemma {:induction false} EvolvedSelf(t: Ty)
    requires WellFormed(t)
    ensures Evolved(t, t) && Safe(t, t)
    decreases t
  {
    match t
    case Struct(_, blobs, datas) =>
      SameStartSelf(blobs);
      forall i | 0 <= i < |datas|
        ensures Evolved(datas[i], datas[i]) && Safe(datas[i], datas[i])
      {
        EvolvedSelf(datas[i]);
      }
    case List(elem) => EvolvedSelf(elem);
    case Option(elem) => EvolvedSelf(elem);
    case Map(_, value) => EvolvedSelf(value);
    case _ =>
  }

  lemma {:induction false} SameStartSelf(ts: seq<Ty>)
    ensures SameStart(ts, ts)
  {
    if ts != [] {
      SameStartSelf(ts[1..]);
    }
  }

  lemma {:induction false} ReconcileSelfBlobs(ts: seq<Ty>, vs: seq<Value>)
    requires |ts| == |vs|
    ensures ReconcileBlobs(ts, vs) == vs
  {
    if ts != [] {
      ReconcileSelfBlobs(ts[1..], vs[1..]);
    }
  }

  lemma {:induction false} ReconcileSelfDatas(ts: seq<Ty>, vs: seq<Value>)
    requires EachFits(ts, vs) && forall i :: 0 <= i < |ts| ==> WellFormed(ts[i])
    ensures ReconcileDatas(ts, vs) == vs
    decreases ts, vs
  {
    if ts != [] {
      ReconcileSelf(ts[0], vs[0]);
      ReconcileSelfDatas(ts[1..], vs[1..]);
    }
  }

  lemma {:induction false} ReconcileSelfItems(t: Ty, vs: seq<Value>)
    requires WellFormed(t) && AllFit(t, vs)
    ensures ReconcileItems(t, vs) == vs
    decreases t, vs
  {
    if vs != [] {
      ReconcileSelf(t, vs[0]);
      ReconcileSelfItems(t, vs[1..]);
    }
  }
}
