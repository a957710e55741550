/** Between unsafe versions of a type, some value is misread: safety is exactly the condition
    under which evolution keeps its promise. */
module Unsafe {
  import opened Bytes
  import opened Wire
  import opened Reader
  import opened Extent
  import opened Scalars
  import opened Wrappers
  import opened SortedMap
  import opened DynamicTrip
  import opened Framing
  import Dynamic
  import opened Codec
  import opened Evolution
  import opened Compatibility

  // Values that are easy to misread.

  lemma {:induction false} DefaultSendable(t: Ty)
    requires WellFormed(t)
    ensures Sendable(t, Default(t))
    decreases t
  {
    match t
    case Array(n, elem) => DefaultSendable(elem);
    case Struct(_, blobs, datas) =>
      forall i | 0 <= i < |blobs|
        ensures Sendable(blobs[i], Default(blobs[i]))
      {
        DefaultSendable(blobs[i]);
      }
      forall i | 0 <= i < |datas|
        ensures Sendable(datas[i], Default(datas[i]))
      {
        DefaultSendable(datas[i]);
      }
    case _ =>
  }

  /** A value whose header counts one datum. */
  function One(t: Ty): Value {
    match t
    case Text => VText([0x61])
    case List(elem) => VList([Default(elem)])
    case Option(elem) => VSome(Default(elem))
    case Unspecified => VDyn(Dynamic.Number(U8, 7))
    case _ => Default(t)
  }

  lemma OneSendable(t: Ty)
    requires WellFormed(t)
    ensures Sendable(t, One(t))
  {
    DefaultSendable(t);
    match t
    case Text => assert Utf8From([0x61], 1);
    case List(elem) => DefaultSendable(elem);
    case Option(elem) => DefaultSendable(elem);
    case _ =>
  }

  /** `r` is not how a reader of `t` should see `v`. */
  ghost predicate Misreads(r: Res<Value>, t: Ty, v: Value) {
    r.Err? || r.value != Reconcile(t, v)
  }

  /** No header with another count decodes to what `One` is to the reader. */
  lemma OtherCount(w: Ty, r: Ty, header: DataHeader, st: St)
    requires WellFormed(w) && WellFormed(r) && Evolved(w, r) && !IsBlob(r) && header.count != 1
    ensures Misreads(DecodeData(r, header, st), r, One(w))
  {
    match r
    case List(elem) => assert |ReconcileItems(elem, One(w).items)| == 1;
    case Unspecified => OtherCountDyn(header, st);
    case _ =>
  }

  lemma OtherCountDyn(header: DataHeader, st: St)
    requires header.count != 1
    ensures var r := Dynamic.DecodeDyn(header, st); r.Ok? ==> !r.value.Number?
  {}

  /** A field read where a zero byte comes next. */
  lemma MisreadAtZero(w: Ty, r: Ty, st: St)
    requires WellFormed(w) && WellFormed(r) && Evolved(w, r) && !IsBlob(r)
    requires st.limits.Unlimited? && st.pos < |st.input.bytes| && st.input.bytes[st.pos] == 0
    ensures Misreads(ReadData(r, st), r, One(w))
  {
    var st' := EnterScope(st).st;
    var header := ReadHeader(st');
    if header.Ok? {
      ZeroFirstByte(st.input.bytes[st.pos..st.pos + HEADER_SIZE]);
      OtherCount(w, r, header.value, header.st);
    }
  }

  ghost predicate AllZero(b: seq<byte>) {
    forall k :: 0 <= k < |b| ==> b[k] == 0
  }

  /** Default fixed-size fields are all zero bytes. */
  lemma {:induction false} ZeroBody(t: Ty)
    requires IsBlob(t) && WellFormed(t)
    ensures Fits(t, Default(t)) && AllZero(Body(t, Default(t)))
    decreases t, 1
  {
    DefaultSendable(t);
    match t
    case Scalar(kind) =>
      ZeroIsZeros(Width(kind));
      assert Body(t, VNumber(0)) == Zeros(Width(kind));
    case Array(n, elem) =>
      DefaultSendable(elem);
      ZeroItems(elem, Default(t).items);
      assert Body(t, Default(t)) == Items(elem, Default(t).items);
  }

  lemma {:induction false} ZeroItems(t: Ty, vs: seq<Value>)
    requires IsBlob(t) && WellFormed(t) && AllFit(t, vs) && forall i :: 0 <= i < |vs| ==> vs[i] == Default(t)
    ensures AllZero(Items(t, vs))
    decreases t, 2, vs
  {
    if vs != [] {
      ZeroBody(t);
      ZeroItems(t, vs[1..]);
      assert Item(t, vs[0]) == Body(t, Default(t));
      assert Items(t, vs) == Item(t, vs[0]) + Items(t, vs[1..]);
    }
  }

  lemma {:induction false} ZeroWrites(ts: seq<Ty>)
    requires AreBlobs(ts)
    ensures EachFits(ts, Defaults(ts)) && AllZero(Writes(ts, Defaults(ts)))
  {
    if ts != [] {
      ZeroBody(ts[0]);
      ZeroWrites(ts[1..]);
      assert Defaults(ts)[1..] == Defaults(ts[1..]);
      assert Writes(ts, Defaults(ts)) == Write(ts[0], Default(ts[0])) + Writes(ts[1..], Defaults(ts[1..]));
    }
  }

  // The misread value.

  /** The fields before `i` are `Default`s, field `i` is `v`. */
  function FieldsWith(ts: seq<Ty>, i: nat, v: Value): (r: seq<Value>)
    requires i < |ts|
    ensures |r| == |ts|
  {
    Defaults(ts)[i := v]
  }

  predicate LeavesBlob(w: Ty, r: Ty) {
    w.Struct? && r.Struct? && TotalSize(w.blobs) > TotalSize(r.blobs) && w.datas != [] && r.datas != []
  }

  /** The first nested field whose versions are not safe. */
  function FirstUnsafe(ws: seq<Ty>, rs: seq<Ty>, i: nat): (k: nat)
    requires forall i :: 0 <= i < |ws| ==> WellFormed(ws[i])
    requires forall i :: 0 <= i < |rs| ==> WellFormed(rs[i])
    requires forall i :: 0 <= i < Min(|ws|, |rs|) ==> Evolved(ws[i], rs[i])
    requires i <= Min(|ws|, |rs|) && exists k :: i <= k < Min(|ws|, |rs|) && !Safe(ws[k], rs[k])
    ensures i <= k < Min(|ws|, |rs|) && !Safe(ws[k], rs[k])
    ensures forall j :: i <= j < k ==> Safe(ws[j], rs[j])
    decreases |ws| - i
  {
    if !Safe(ws[i], rs[i]) then i else FirstUnsafe(ws, rs, i + 1)
  }

  /** A value of `w` that a reader of `r` misreads. */
  function Bad(w: Ty, r: Ty): Value
    requires WellFormed(w) && WellFormed(r) && Evolved(w, r) && !Safe(w, r)
    decreases r
  {
    match r
    case Struct(_, _, datas) =>
      if LeavesBlob(w, r) then VStruct(Defaults(w.blobs), FieldsWith(w.datas, 0, One(w.datas[0])))
      else
        var i := FirstUnsafe(w.datas, datas, 0);
        VStruct(Defaults(w.blobs), FieldsWith(w.datas, i, Bad(w.datas[i], datas[i])))
    case List(elem) => VList([Bad(w.elem, elem)])
    case Option(elem) => VSome(Bad(w.elem, elem))
    case Map(key, value) => VMap([Default(key)], [Bad(w.value, value)])
  }

  lemma FieldsSendable(w: Ty, i: nat, v: Value)
    requires WellFormed(w) && w.Struct? && i < |w.datas| && Sendable(w.datas[i], v)
    ensures Sendable(w, VStruct(Defaults(w.blobs), FieldsWith(w.datas, i, v)))
  {
    forall k | 0 <= k < |w.blobs|
      ensures Sendable(w.blobs[k], Default(w.blobs[k]))
    {
      DefaultSendable(w.blobs[k]);
    }
    forall k | 0 <= k < |w.datas|
      ensures Sendable(w.datas[k], FieldsWith(w.datas, i, v)[k])
    {
      DefaultSendable(w.datas[k]);
    }
  }

  lemma {:induction false} BadSendable(w: Ty, r: Ty)
    requires WellFormed(w) && WellFormed(r) && Evolved(w, r) && !Safe(w, r)
    ensures Sendable(w, Bad(w, r))
    decreases r
  {
    match r
    case Struct(_, _, datas) =>
      if LeavesBlob(w, r) {
        OneSendable(w.datas[0]);
        FieldsSendable(w, 0, One(w.datas[0]));
      } else {
        var i := FirstUnsafe(w.datas, datas, 0);
        BadSendable(w.datas[i], datas[i]);
        FieldsSendable(w, i, Bad(w.datas[i], datas[i]));
      }
    case List(elem) => BadSendable(w.elem, elem);
    case Option(elem) => BadSendable(w.elem, elem);
    case Map(key, value) =>
      DefaultSendable(key);
      BadSendable(w.value, value);
  }

  /** The result of reading structured fields is not the reconciled ones. */
  ghost predicate DatasMisread(rs: seq<Ty>, n: nat, st: St, vs: seq<Value>)
    requires forall i :: 0 <= i < |rs| ==> WellFormed(rs[i])
  {
    var read := ReadDatas(rs, n, st);
    read.Err? || read.value != ReconcileDatas(rs, vs)
  }

  lemma MisreadNow(rs: seq<Ty>, n: nat, st: St, vs: seq<Value>)
    requires n > 0 && rs != [] && vs != [] && forall i :: 0 <= i < |rs| ==> WellFormed(rs[i])
    requires Misreads(ReadData(rs[0], st), rs[0], vs[0])
    ensures DatasMisread(rs, n, st, vs)
  {
    var read := ReadDatas(rs, n, st);
    if read.Ok? {
      assert read.value[0] == ReadData(rs[0], st).value;
      assert ReconcileDatas(rs, vs)[0] == Reconcile(rs[0], vs[0]);
    }
  }

  lemma MisreadLater(rs: seq<Ty>, n: nat, st: St, mid: St, vs: seq<Value>)
    requires n > 0 && rs != [] && vs != [] && forall i :: 0 <= i < |rs| ==> WellFormed(rs[i])
    requires ReadData(rs[0], st) == Ok(Reconcile(rs[0], vs[0]), mid) && DatasMisread(rs[1..], n - 1, mid, vs[1..])
    ensures DatasMisread(rs, n, st, vs)
  {
    var later := ReadDatas(rs[1..], n - 1, mid);
    if later.Ok? {
      assert ReadDatas(rs, n, st).value == [Reconcile(rs[0], vs[0])] + later.value;
      assert ([Reconcile(rs[0], vs[0])] + later.value)[1..] == later.value;
      assert ReconcileDatas(rs, vs)[1..] == ReconcileDatas(rs[1..], vs[1..]);
    }
  }

  lemma StructMisread(r: Ty, format: DataFormat, st: St, mid: St, v: Value)
    requires r.Struct? && WellFormed(r) && v.VStruct?
    requires ReadBlobs(r.blobs, format.blobSize, st).Ok? && ReadBlobs(r.blobs, format.blobSize, st).st == mid
    requires DatasMisread(r.datas, format.dataFields, mid, v.datas)
    ensures Misreads(DecodeFields(r, format, st), r, v)
  {}

  lemma ZeroBytesAhead(ts: seq<Ty>, rest: seq<byte>, st: St, p: nat)
    requires AreBlobs(ts) && EachFits(ts, Defaults(ts)) && At(st, Writes(ts, Defaults(ts)) + rest)
    requires st.pos <= p < st.pos + |Writes(ts, Defaults(ts))|
    ensures p < |st.input.bytes| && st.input.bytes[p] == 0
  {
    ZeroWrites(ts);
    var k := p - st.pos;
    var whole := Writes(ts, Defaults(ts)) + rest;
    assert ByteAt(st.input, st.pos, k) == whole[k];
  }

  /** Blob bytes the reader leaves unread are taken for the header of its first structured field. */
  lemma LeftoverMisread(w: Ty, r: Ty, datas: seq<Value>, st: St)
    requires WellFormed(w) && WellFormed(r) && Evolved(w, r) && LeavesBlob(w, r)
    requires Fits(w, VStruct(Defaults(w.blobs), datas)) && datas != [] && datas[0] == One(w.datas[0])
    requires At(st, Body(w, VStruct(Defaults(w.blobs), datas))) && st.limits.Unlimited?
    ensures Misreads(DecodeFields(r, FormatOf(w).AsDataFormat(), st), r, VStruct(Defaults(w.blobs), datas))
  {
    var rest := Writes(w.datas, datas);
    var left, mid := StructBlobsAt(w.blobs, r.blobs, Defaults(w.blobs), rest, st);
    ZeroBytesAhead(w.blobs, rest, st, mid.pos);
    MisreadAtZero(w.datas[0], r.datas[0], mid);
    MisreadNow(r.datas, |w.datas|, mid, datas);
    StructMisread(r, FormatOf(w).AsDataFormat(), st, mid, VStruct(Defaults(w.blobs), datas));
  }

  // Every way to an unsafe type misreads the value made for it.

  lemma {:induction false} BadRead(w: Ty, r: Ty, st: St)
    requires WellFormed(w) && WellFormed(r) && Evolved(w, r) && !Safe(w, r)
    requires Sendable(w, Bad(w, r)) && At(st, Write(w, Bad(w, r))) && st.limits.Unlimited?
    ensures Misreads(ReadData(r, st), r, Bad(w, r))
    decreases r, 2
  {
    var v := Bad(w, r);
    AtConcat(st, HeaderBytes(HeaderFor(w, v)), Body(w, v));
    HeaderAt(HeaderFor(w, v), EnterScope(st).st);
    BadData(w, r, Inside(st));
  }

  lemma {:induction false} BadData(w: Ty, r: Ty, st: St)
    requires WellFormed(w) && WellFormed(r) && Evolved(w, r) && !Safe(w, r)
    requires Sendable(w, Bad(w, r)) && At(st, Body(w, Bad(w, r))) && st.limits.Unlimited?
    ensures Misreads(DecodeData(r, HeaderFor(w, Bad(w, r)), st), r, Bad(w, r))
    decreases r, 1
  {
    var v := Bad(w, r);
    HeaderAccepted(w, r, v);
    match r
    case Struct(_, _, _) => BadStruct(w, r, st);
    case List(elem) =>
      BadSendable(w.elem, elem);
      BadMany(w.elem, elem, st);
    case Option(elem) =>
      BadSendable(w.elem, elem);
      BadNext(w.elem, elem, st);
    case Map(key, value) =>
      BadSendable(w.value, value);
      DefaultSendable(key);
      BadMap(r, w.value, Default(key), st);
  }

  lemma {:induction false} BadStruct(w: Ty, r: Ty, st: St)
    requires WellFormed(w) && WellFormed(r) && Evolved(w, r) && !Safe(w, r) && r.Struct?
    requires Sendable(w, Bad(w, r)) && At(st, Body(w, Bad(w, r))) && st.limits.Unlimited?
    ensures Misreads(DecodeFields(r, FormatOf(w).AsDataFormat(), st), r, Bad(w, r))
    decreases r, 0
  {
    var v := Bad(w, r);
    if LeavesBlob(w, r) {
      LeftoverMisread(w, r, v.datas, st);
    } else {
      var i := FirstUnsafe(w.datas, r.datas, 0);
      BadFields(w, r, i);
      NestedMisread(w.blobs, w.datas, r, v.datas, i, st);
    }
  }

  /** Field `i` is the first unsafe one, and holds a value made to be misread. */
  ghost predicate BadAt(ws: seq<Ty>, rs: seq<Ty>, vs: seq<Value>, i: nat) {
    && EachSendable(ws, vs) && (forall k :: 0 <= k < |rs| ==> WellFormed(rs[k])) && i < Min(|ws|, |rs|)
    && (forall k :: 0 <= k < i ==> Compatible(ws[k], rs[k]))
    && Evolved(ws[i], rs[i]) && !Safe(ws[i], rs[i]) && vs[i] == Bad(ws[i], rs[i])
  }

  lemma BadFields(w: Ty, r: Ty, i: nat)
    requires WellFormed(w) && WellFormed(r) && Evolved(w, r) && !Safe(w, r) && r.Struct? && !LeavesBlob(w, r)
    requires i == FirstUnsafe(w.datas, r.datas, 0) && Sendable(w, Bad(w, r))
    ensures TotalSize(w.blobs) <= TotalSize(r.blobs) && BadAt(w.datas, r.datas, Bad(w, r).datas, i)
  {}

  lemma BadAtTail(ws: seq<Ty>, rs: seq<Ty>, vs: seq<Value>, i: nat)
    requires BadAt(ws, rs, vs, i) && i > 0
    ensures BadAt(ws[1..], rs[1..], vs[1..], i - 1)
  {
    assert forall k :: 0 <= k < i - 1 ==> Compatible(ws[1..][k], rs[1..][k]);
  }

  lemma {:induction false} NestedMisread(wb: seq<Ty>, ws: seq<Ty>, r: Ty, vs: seq<Value>, i: nat, st: St)
    requires r.Struct? && WellFormed(r) && SameStart(wb, r.blobs) && |ws| < 0x100
    requires AreBlobs(wb) && EachFits(wb, Defaults(wb)) && TotalSize(wb) <= TotalSize(r.blobs)
    requires BadAt(ws, r.datas, vs, i)
    requires At(st, Writes(wb, Defaults(wb)) + Writes(ws, vs)) && st.limits.Unlimited?
    ensures Misreads(DecodeFields(r, DataFormat(TotalSize(wb), |ws|, r.ordinal), st), r, VStruct(Defaults(wb), vs))
    decreases r.datas, 1
  {
    hide Holds;
    hide Body;
    hide Write;
    hide Evolved;
    hide Safe;
    hide Fits;
    hide Faithful;
    var left, mid := StructBlobsAt(wb, r.blobs, Defaults(wb), Writes(ws, vs), st);
    BadDatas(ws, r.datas, vs, i, mid);
    StructMisread(r, DataFormat(TotalSize(wb), |ws|, r.ordinal), st, mid, VStruct(Defaults(wb), vs));
  }

  /** Fields before the first unsafe one are read as they should be. */
  lemma {:induction false} BadDatas(ws: seq<Ty>, rs: seq<Ty>, vs: seq<Value>, i: nat, st: St)
    requires BadAt(ws, rs, vs, i) && At(st, Writes(ws, vs)) && st.limits.Unlimited?
    ensures DatasMisread(rs, |ws|, st, vs)
    decreases rs, 0
  {
    hide Holds;
    hide Write;
    hide Bad;
    hide Compatible;
    hide Body;
    hide Evolved;
    hide Safe;
    hide WellFormed;
    hide Fits;
    hide Faithful;
    if i == 0 {
      AtConcat(st, Write(ws[0], vs[0]), Writes(ws[1..], vs[1..]));
      BadRead(ws[0], rs[0], st);
      MisreadNow(rs, |ws|, st, vs);
    } else {
      var mid := FirstDataAt(ws, rs, vs, st);
      BadAtTail(ws, rs, vs, i);
      BadDatas(ws[1..], rs[1..], vs[1..], i - 1, mid);
      MisreadLater(rs, |ws|, st, mid, vs);
    }
  }

  lemma {:induction false} BadNext(w: Ty, r: Ty, st: St)
    requires WellFormed(w) && WellFormed(r) && Evolved(w, r) && !Safe(w, r)
    requires Sendable(w, Bad(w, r)) && At(st, Item(w, Bad(w, r))) && st.limits.Unlimited?
    ensures Misreads(ReadNext(r, ItemFormat(w), st), r, Bad(w, r))
    decreases r, 3
  {
    EvolvedFormat(w, r);
    if FormatOf(w).Data? {
      assert HeaderFor(w, Bad(w, r)) == DataHeader(1, ItemFormat(w));
      BadData(w, r, st);
    } else {
      BadRead(w, r, st);
    }
  }

  lemma {:induction false} BadMany(w: Ty, r: Ty, st: St)
    requires WellFormed(w) && WellFormed(r) && Evolved(w, r) && !Safe(w, r)
    requires Sendable(w, Bad(w, r)) && At(st, Items(w, [Bad(w, r)])) && st.limits.Unlimited?
    ensures var many := ReadMany(r, ItemFormat(w), 1, st);
            many.Ok? ==> |many.value| == 1 && many.value[0] != Reconcile(r, Bad(w, r))
    ensures ReconcileItems(r, [Bad(w, r)]) == [Reconcile(r, Bad(w, r))]
    decreases r, 4
  {
    assert Items(w, [Bad(w, r)]) == Item(w, Bad(w, r)) + Items(w, []);
    BadNext(w, r, st);
  }

  lemma {:induction false} BadMap(r: Ty, wv: Ty, key: Value, st: St)
    requires r.Map? && WellFormed(r) && Sendable(r.key, key)
    requires WellFormed(wv) && Evolved(wv, r.value) && !Safe(wv, r.value) && Sendable(wv, Bad(wv, r.value))
    requires At(st, WriteList(r.key, [key]) + WriteList(wv, [Bad(wv, r.value)])) && st.limits.Unlimited?
    ensures Misreads(DecodeData(r, DataHeader(1, MAP_FORMAT), st), r, VMap([key], [Bad(wv, r.value)]))
    decreases r, 0
  {
    hide Holds;
    hide Body;
    hide Write;
    hide Items;
    hide Evolved;
    hide Safe;
    hide Fits;
    hide Faithful;
    hide ReadList;
    hide DecodeData;
    AtConcat(st, WriteList(r.key, [key]), WriteList(wv, [Bad(wv, r.value)]));
    KeysAt(r.key, [key], st);
    var mid := ReadList(r.key, st).st;
    BadList(wv, r.value, mid);
    MapMisread(r, key, Bad(wv, r.value), st, mid);
  }

  lemma {:induction false} BadList(w: Ty, r: Ty, st: St)
    requires WellFormed(w) && WellFormed(r) && Evolved(w, r) && !Safe(w, r)
    requires Sendable(w, Bad(w, r)) && At(st, WriteList(w, [Bad(w, r)])) && st.limits.Unlimited?
    ensures var list := ReadList(r, st);
            list.Ok? ==> |list.value| == 1 && list.value[0] != Reconcile(r, Bad(w, r))
    decreases r, 5
  {
    var vs := [Bad(w, r)];
    var h := DataHeader(|vs|, ItemFormat(w));
    AtConcat(st, HeaderBytes(h), Items(w, vs));
    HeaderAt(h, EnterScope(st).st);
    EvolvedFormat(w, r);
    BadMany(w, r, Inside(st));
  }

  lemma MapMisread(r: Ty, key: Value, bad: Value, st: St, mid: St)
    requires r.Map? && WellFormed(r) && ReadList(r.key, st) == Ok([key], mid)
    requires var list := ReadList(r.value, mid); list.Ok? ==> |list.value| == 1 && list.value[0] != Reconcile(r.value, bad)
    ensures Misreads(DecodeData(r, DataHeader(1, MAP_FORMAT), st), r, VMap([key], [bad]))
  {
    var list := ReadList(r.value, mid);
    if list.Ok? {
      MakesSameMap([key], list.value, list.st);
      assert ReconcileItems(r.value, [bad])[0] == Reconcile(r.value, bad);
    }
  }

  lemma UnsafeMisreads(w: Ty, r: Ty) returns (v: Value, st: St)
    requires WellFormed(w) && WellFormed(r) && Evolved(w, r) && !Safe(w, r)
    ensures Sendable(w, v) && At(st, Write(w, v)) && st.limits.Unlimited? && Misreads(ReadData(r, st), r, v)
  {
    v := Bad(w, r);
    BadSendable(w, r);
    st := Start(Write(w, v));
    BadRead(w, r, st);
  }

  /** Every encoding of every value of `w` reads as the reconciled value, from exactly the encoding. */
  ghost predicate AlwaysReconciles(w: Ty, r: Ty)
    requires WellFormed(w) && WellFormed(r)
  {
    forall v: Value, st: St :: Sendable(w, v) && At(st, Write(w, v)) && st.limits.Unlimited? ==>
      Decodes(ReadData(r, st), Reconcile(r, v), st, |Write(w, v)|)
  }

  /** Evolution, exactly: a reader of one version always makes the reconciled value of what a
      writer of another wrote if and only if the versions are safe. */
  lemma SafeIffReconciles(w: Ty, r: Ty)
    requires WellFormed(w) && WellFormed(r) && Evolved(w, r)
    ensures Safe(w, r) <==> AlwaysReconciles(w, r)
  {
    if Safe(w, r) {
      forall v: Value, st: St | Sendable(w, v) && At(st, Write(w, v)) && st.limits.Unlimited?
        ensures Decodes(ReadData(r, st), Reconcile(r, v), st, |Write(w, v)|)
      {
        ReadAt(w, r, v, st);
      }
    } else {
      var v, st := UnsafeMisreads(w, r);
      assert !Decodes(ReadData(r, st), Reconcile(r, v), st, |Write(w, v)|);
    }
  }
}
