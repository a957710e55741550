/** Between safe versions of a type, decoding what was encoded yields the reconciled value
    from exactly the encoding, wherever it stands. */
module Compatibility {
  import opened Bytes
  import opened Wire
  import opened Reader
  import opened Extent
  import opened Scalars
  import opened Wrappers
  import opened SortedMap
  import opened DynamicTrip
  import opened Framing
  import Dynamic
  import opened Codec
  import opened Evolution

  // Fixed-size fields.

  lemma {:induction false} BlobAt(t: Ty, v: Value, st: St)
    requires IsBlob(t) && WellFormed(t) && Fits(t, v) && At(st, Body(t, v)) && st.limits.Unlimited?
    ensures Decodes(DecodeBlob(t, st), v, st, BlobSize(t))
    decreases v, 1
  {
    match t
    case Scalar(kind) => ScalarAt(kind, v.n, st);
    case Array(_, elem) =>
      BlobsAt(elem, v.items, st);
      BlobItemsSize(elem, v.items);
  }

  lemma {:induction false} BlobsAt(t: Ty, vs: seq<Value>, st: St)
    requires IsBlob(t) && WellFormed(t) && AllFit(t, vs) && At(st, Items(t, vs)) && st.limits.Unlimited?
    ensures Decodes(DecodeBlobs(t, |vs|, st), vs, st, |Items(t, vs)|)
    decreases vs, 0
  {
    if vs != [] {
      AtConcat(st, Item(t, vs[0]), Items(t, vs[1..]));
      BlobAt(t, vs[0], st);
      BlobBodySize(t, vs[0]);
      BlobsAt(t, vs[1..], DecodeBlob(t, st).st);
      assert [vs[0]] + vs[1..] == vs;
    }
  }

  /** A type of no bytes has one value. */
  lemma {:induction false} EmptyBlob(t: Ty, st: St)
    requires IsBlob(t) && WellFormed(t) && BlobSize(t) == 0 && st.limits.Unlimited? && st.pos <= |st.input.bytes|
    ensures Decodes(DecodeBlob(t, st), Default(t), st, 0)
    decreases t, 0
  {
    EmptyBlobs(t.elem, t.n, st);
    assert DecodeBlobs(t.elem, t.n, st).value == seq(t.n, _ => Default(t.elem));
  }

  lemma {:induction false} EmptyBlobs(t: Ty, n: nat, st: St)
    requires IsBlob(t) && WellFormed(t) && n * BlobSize(t) == 0 && st.limits.Unlimited? && st.pos <= |st.input.bytes|
    ensures DecodeBlobs(t, n, st).Ok? && DecodeBlobs(t, n, st).st.pos == st.pos
    ensures forall i :: 0 <= i < n ==> DecodeBlobs(t, n, st).value[i] == Default(t)
    decreases t, n + 1
  {
    if n > 0 {
      OneMore(n, n - 1, BlobSize(t));
      EmptyBlob(t, st);
      EmptyBlobs(t, n - 1, DecodeBlob(t, st).st);
    }
  }

  /** Fields beyond the writer's blob get their defaults. */
  lemma {:induction false} MissingBlobs(ts: seq<Ty>, st: St)
    requires forall i :: 0 <= i < |ts| ==> IsBlob(ts[i]) && WellFormed(ts[i])
    requires st.limits.Unlimited? && st.pos <= |st.input.bytes|
    ensures Decodes(ReadBlobs(ts, 0, st), Defaults(ts), st, 0) && LeftBlob(ts, 0) == 0
  {
    if ts != [] {
      if BlobSize(ts[0]) == 0 {
        EmptyBlob(ts[0], st);
        MissingBlobs(ts[1..], DecodeBlob(ts[0], st).st);
      } else {
        MissingBlobs(ts[1..], st);
      }
    }
  }

  /** The reader's fixed-size fields, read from the writer's. */
  lemma {:induction false} BlobFieldsAt(ws: seq<Ty>, rs: seq<Ty>, vs: seq<Value>, st: St)
    requires SameStart(ws, rs)
    requires forall i :: 0 <= i < |ws| ==> IsBlob(ws[i]) && WellFormed(ws[i])
    requires forall i :: 0 <= i < |rs| ==> IsBlob(rs[i]) && WellFormed(rs[i])
    requires EachFits(ws, vs) && At(st, Writes(ws, vs)) && st.limits.Unlimited?
    ensures Decodes(ReadBlobs(rs, TotalSize(ws), st), ReconcileBlobs(rs, vs), st, Min(TotalSize(ws), TotalSize(rs)))
    ensures LeftBlob(rs, TotalSize(ws)) == TotalSize(ws) - Min(TotalSize(ws), TotalSize(rs))
  {
    if rs == [] {
    } else if ws == [] {
      MissingBlobs(rs, st);
    } else {
      assert ws[0] == rs[0];
      AtConcat(st, Write(ws[0], vs[0]), Writes(ws[1..], vs[1..]));
      BlobAt(ws[0], vs[0], st);
      BlobBodySize(ws[0], vs[0]);
      BlobFieldsAt(ws[1..], rs[1..], vs[1..], DecodeBlob(ws[0], st).st);
    }
  }

  // Structured data.

  lemma {:induction false} EvolvedFormat(w: Ty, r: Ty)
    requires WellFormed(w) && WellFormed(r) && Evolved(w, r)
    ensures IsBlob(w) <==> IsBlob(r)
    ensures FormatOf(w).Data? <==> FormatOf(r).Data?
    ensures FormatOf(w).IsPacked() <==> FormatOf(r).IsPacked()
    ensures forall n: u32 :: EnsureHeader(FormatOf(r).AsSequence(), DataHeader(n, ItemFormat(w))) == None
    decreases r
  {
    if r.List? || r.Option? {
      EvolvedFormat(w.elem, r.elem);
    }
  }

  lemma HeaderAccepted(w: Ty, r: Ty, v: Value)
    requires WellFormed(w) && WellFormed(r) && Evolved(w, r) && !IsBlob(w) && Fits(w, v)
    ensures EnsureHeader(FormatOf(r), HeaderFor(w, v)) == None
  {
    EvolvedFormat(w, r);
    if r.List? || r.Option? {
      EvolvedFormat(w.elem, r.elem);
      assert HeaderFor(w, v) == DataHeader(HeaderFor(w, v).count, ItemFormat(w.elem));
    }
  }

  ghost predicate Compatible(w: Ty, r: Ty) {
    WellFormed(w) && WellFormed(r) && Evolved(w, r) && Safe(w, r)
  }

  /** `read_data_into`, as a field or at the top. */
  lemma {:induction false} ReadAt(w: Ty, r: Ty, v: Value, st: St)
    requires Compatible(w, r) && Sendable(w, v) && At(st, Write(w, v)) && st.limits.Unlimited?
    ensures Decodes(ReadData(r, st), Reconcile(r, v), st, |Write(w, v)|)
    decreases v, 3
  {
    EvolvedFormat(w, r);
    if IsBlob(w) {
      BlobAt(w, v, st);
      BlobBodySize(w, v);
    } else {
      AtConcat(st, HeaderBytes(HeaderFor(w, v)), Body(w, v));
      HeaderAt(HeaderFor(w, v), EnterScope(st).st);
      DataAt(w, r, v, Inside(st));
    }
  }

  /** `decode`, given the header that was written. */
  lemma {:induction false} DataAt(w: Ty, r: Ty, v: Value, st: St)
    requires Compatible(w, r) && Sendable(w, v) && !IsBlob(w) && At(st, Body(w, v)) && st.limits.Unlimited?
    ensures !IsBlob(r) && Decodes(DecodeData(r, HeaderFor(w, v), st), Reconcile(r, v), st, |Body(w, v)|)
    decreases v, 2
  {
    EvolvedFormat(w, r);
    HeaderAccepted(w, r, v);
    match r
    case Text => TextAt(v.bytes, st);
    case Struct(_, _, _) => StructAt(w, r, v, st);
    case List(elem) => ManyAt(w.elem, elem, v.items, st);
    case Option(elem) =>
      if v.VSome? {
        NextAt(w.elem, elem, v.value, st);
      }
    case Map(_, _) => MapAt(w, r, v, st);
    case Unspecified => PayloadDecodes(v.u, st);
  }

  lemma {:induction false} StructAt(w: Ty, r: Ty, v: Value, st: St)
    requires Compatible(w, r) && Sendable(w, v) && w.Struct? && At(st, Body(w, v)) && st.limits.Unlimited?
    ensures r.Struct?
    ensures Decodes(DecodeFields(r, FormatOf(w).AsDataFormat(), st), Reconcile(r, v), st, |Body(w, v)|)
    decreases v, 1
  {
    hide Holds;
    hide Write;
    hide ReadBlobs;
    hide ReadDatas;
    hide DecodeFields;
    hide Finish;
    var left, mid := StructBlobsAt(w.blobs, r.blobs, v.blobs, Writes(w.datas, v.datas), st);
    StructDatasAt(w.datas, r.datas, v.datas, left, mid);
    FieldsDecode(r, FormatOf(w).AsDataFormat(), st, mid, ReadDatas(r.datas, |w.datas|, mid).st);
  }

  ghost predicate AreBlobs(ts: seq<Ty>) {
    forall i :: 0 <= i < |ts| ==> IsBlob(ts[i]) && WellFormed(ts[i])
  }

  /** The blob of a struct; `left` bytes of it are unknown to the reader. */
  lemma StructBlobsAt(ws: seq<Ty>, rs: seq<Ty>, vs: seq<Value>, rest: seq<byte>, st: St) returns (left: nat, mid: St)
    requires SameStart(ws, rs) && AreBlobs(ws) && AreBlobs(rs) && EachFits(ws, vs)
    requires At(st, Writes(ws, vs) + rest) && st.limits.Unlimited?
    ensures left == LeftBlob(rs, TotalSize(ws)) && (left > 0 <==> TotalSize(ws) > TotalSize(rs))
    ensures ReadBlobs(rs, TotalSize(ws), st) == Ok(ReconcileBlobs(rs, vs), mid)
    ensures mid.limits.Unlimited? && mid.pos + left == st.pos + |Writes(ws, vs)| <= |mid.input.bytes|
    ensures At(Moved(mid, left), rest)
  {
    AtConcat(st, Writes(ws, vs), rest);
    BlobsSize(ws, vs);
    BlobFieldsAt(ws, rs, vs, st);
    mid := ReadBlobs(rs, TotalSize(ws), st).st;
    left := LeftBlob(rs, TotalSize(ws));
  }

  ghost predicate EachCompatible(ws: seq<Ty>, rs: seq<Ty>) {
    && (forall i :: 0 <= i < |ws| ==> !IsBlob(ws[i]))
    && (forall i :: 0 <= i < |rs| ==> WellFormed(rs[i]))
    && (forall i :: 0 <= i < Min(|ws|, |rs|) ==> Compatible(ws[i], rs[i]))
  }

  /** The structured fields of a struct, `left` bytes of blob before them. */
  lemma {:induction false} StructDatasAt(ws: seq<Ty>, rs: seq<Ty>, vs: seq<Value>, left: nat, st: St)
    requires EachSendable(ws, vs) && EachCompatible(ws, rs)
    requires left == 0 || rs == [] || ws == []
    requires st.pos + left <= |st.input.bytes| && At(Moved(st, left), Writes(ws, vs)) && st.limits.Unlimited?
    ensures var read := ReadDatas(rs, |ws|, st);
            && read.Ok? && read.value == ReconcileDatas(rs, vs)
            && var rest := Finish(left, LeftFields(rs, |ws|), read.st);
               rest.Ok? && rest.st.pos == st.pos + left + |Writes(ws, vs)|
    decreases vs, 2
  {
    if rs == [] || ws == [] {
      SkipsWrites(ws, vs, Moved(st, left));
    } else {
      DatasAt(ws, rs, vs, st);
    }
  }

  /** Each part of a struct where the one before it ended. */
  lemma FieldsDecode(r: Ty, format: DataFormat, st: St, mid: St, end: St)
    requires r.Struct? && WellFormed(r)
    requires ReadBlobs(r.blobs, format.blobSize, st).Ok? && ReadBlobs(r.blobs, format.blobSize, st).st == mid
    requires ReadDatas(r.datas, format.dataFields, mid).Ok? && ReadDatas(r.datas, format.dataFields, mid).st == end
    requires Finish(LeftBlob(r.blobs, format.blobSize), LeftFields(r.datas, format.dataFields), end).Ok?
    ensures var whole := DecodeFields(r, format, st);
            && whole.Ok?
            && whole.value == VStruct(ReadBlobs(r.blobs, format.blobSize, st).value,
                                      ReadDatas(r.datas, format.dataFields, mid).value)
            && whole.st == Finish(LeftBlob(r.blobs, format.blobSize), LeftFields(r.datas, format.dataFields), end).st
  {}

  /** Reading fields of types `rs` out of `n` yields `vs`, and skipping the others ends at `end`. */
  ghost predicate EndsAt(rs: seq<Ty>, n: nat, st: St, vs: seq<Value>, end: nat)
    requires forall i :: 0 <= i < |rs| ==> WellFormed(rs[i])
  {
    var read := ReadDatas(rs, n, st);
    && read.Ok? && read.value == vs
    && var rest := SkipFields(LeftFields(rs, n), read.st);
       rest.Ok? && rest.st.pos == end
  }

  /** The reader's structured fields, and the skipping of those only the writer has. */
  lemma {:induction false} DatasAt(ws: seq<Ty>, rs: seq<Ty>, vs: seq<Value>, st: St)
    requires EachSendable(ws, vs) && EachCompatible(ws, rs)
    requires At(st, Writes(ws, vs)) && st.limits.Unlimited?
    ensures EndsAt(rs, |ws|, st, ReconcileDatas(rs, vs), st.pos + |Writes(ws, vs)|)
    decreases vs, 1
  {
    hide Holds;
    hide Body;
    hide Write;
    hide Evolved;
    hide Safe;
    hide WellFormed;
    hide Fits;
    hide Faithful;
    if rs == [] || ws == [] {
      NoDatasAt(ws, rs, vs, st);
    } else {
      var mid := FirstDataAt(ws, rs, vs, st);
      TailsCompatible(ws, rs, vs);
      DatasAt(ws[1..], rs[1..], vs[1..], mid);
      FirstThenRest(rs, |ws|, Reconcile(rs[0], vs[0]), ReconcileDatas(rs[1..], vs[1..]), st, mid,
                    st.pos + |Writes(ws, vs)|);
    }
  }

  lemma NoDatasAt(ws: seq<Ty>, rs: seq<Ty>, vs: seq<Value>, st: St)
    requires EachSendable(ws, vs) && EachCompatible(ws, rs) && (rs == [] || ws == [])
    requires At(st, Writes(ws, vs)) && st.limits.Unlimited?
    ensures EndsAt(rs, |ws|, st, ReconcileDatas(rs, vs), st.pos + |Writes(ws, vs)|)
  {
    SkipsWrites(ws, vs, st);
  }

  lemma TailsCompatible(ws: seq<Ty>, rs: seq<Ty>, vs: seq<Value>)
    requires ws != [] && rs != [] && EachSendable(ws, vs) && EachCompatible(ws, rs)
    ensures EachSendable(ws[1..], vs[1..]) && EachCompatible(ws[1..], rs[1..])
  {}

  lemma {:induction false} FirstDataAt(ws: seq<Ty>, rs: seq<Ty>, vs: seq<Value>, st: St) returns (mid: St)
    requires ws != [] && rs != [] && EachSendable(ws, vs) && WellFormed(rs[0]) && Compatible(ws[0], rs[0])
    requires At(st, Writes(ws, vs)) && st.limits.Unlimited?
    ensures ReadData(rs[0], st) == Ok(Reconcile(rs[0], vs[0]), mid)
    ensures mid.limits.Unlimited? && At(mid, Writes(ws[1..], vs[1..]))
    ensures st.pos + |Writes(ws, vs)| == mid.pos + |Writes(ws[1..], vs[1..])|
    decreases vs, 0
  {
    hide Body;
    hide Fits;
    hide Faithful;
    hide Compatible;
    hide ReadData;
    AtConcat(st, Write(ws[0], vs[0]), Writes(ws[1..], vs[1..]));
    ReadAt(ws[0], rs[0], vs[0], st);
    mid := ReadData(rs[0], st).st;
  }

  lemma FirstThenRest(rs: seq<Ty>, n: nat, v: Value, vs: seq<Value>, st: St, mid: St, end: nat)
    requires rs != [] && n > 0 && forall i :: 0 <= i < |rs| ==> WellFormed(rs[i])
    requires ReadData(rs[0], st) == Ok(v, mid) && EndsAt(rs[1..], n - 1, mid, vs, end)
    ensures EndsAt(rs, n, st, [v] + vs, end)
  {}

  /** `read_next_data_into`: one item of a sequence. */
  lemma {:induction false} NextAt(w: Ty, r: Ty, v: Value, st: St)
    requires Compatible(w, r) && Sendable(w, v) && At(st, Item(w, v)) && st.limits.Unlimited?
    ensures Decodes(ReadNext(r, ItemFormat(w), st), Reconcile(r, v), st, |Item(w, v)|)
    decreases v, 4
  {
    EvolvedFormat(w, r);
    if IsBlob(w) {
      BlobAt(w, v, st);
      BlobBodySize(w, v);
    } else if FormatOf(w).Data? {
      assert HeaderFor(w, v) == DataHeader(1, ItemFormat(w));
      DataAt(w, r, v, st);
    } else {
      ReadAt(w, r, v, st);
    }
  }

  lemma {:induction false} ManyAt(w: Ty, r: Ty, vs: seq<Value>, st: St)
    requires Compatible(w, r) && AllSendable(w, vs) && At(st, Items(w, vs)) && st.limits.Unlimited?
    ensures Decodes(ReadMany(r, ItemFormat(w), |vs|, st), ReconcileItems(r, vs), st, |Items(w, vs)|)
    decreases vs, 0
  {
    hide Holds;
    hide Body;
    hide Write;
    hide Evolved;
    hide Safe;
    hide WellFormed;
    hide Fits;
    hide Faithful;
    hide ReadNext;
    hide Reconcile;
    if vs != [] {
      AtConcat(st, Item(w, vs[0]), Items(w, vs[1..]));
      NextAt(w, r, vs[0], st);
      ManyAt(w, r, vs[1..], ReadNext(r, ItemFormat(w), st).st);
    }
  }

  lemma {:induction false} ListAt(w: Ty, r: Ty, vs: seq<Value>, st: St)
    requires Compatible(w, r) && AllSendable(w, vs) && |vs| <= Dynamic.MAX_COUNT
    requires At(st, WriteList(w, vs)) && st.limits.Unlimited?
    ensures Decodes(ReadList(r, st), ReconcileItems(r, vs), st, |WriteList(w, vs)|)
    decreases vs, 1
  {
    var h := DataHeader(|vs|, ItemFormat(w));
    AtConcat(st, HeaderBytes(h), Items(w, vs));
    HeaderAt(h, EnterScope(st).st);
    EvolvedFormat(w, r);
    ManyAt(w, r, vs, Inside(st));
  }

  lemma {:induction false} MapAt(w: Ty, r: Ty, v: Value, st: St)
    requires Compatible(w, r) && Sendable(w, v) && w.Map? && At(st, Body(w, v)) && st.limits.Unlimited?
    ensures r.Map? && Decodes(DecodeData(r, DataHeader(1, MAP_FORMAT), st), Reconcile(r, v), st, |Body(w, v)|)
    decreases v, 1
  {
    hide Holds;
    hide Items;
    hide Write;
    AtConcat(st, WriteList(w.key, v.keys), WriteList(w.value, v.values));
    KeysAt(w.key, v.keys, st);
    var mid := ReadList(r.key, st).st;
    ListAt(w.value, r.value, v.values, mid);
    DecodesAsMap(r, v.keys, ReconcileItems(r.value, v.values), st, mid, ReadList(r.value, mid).st);
  }

  lemma {:induction false} KeysAt(key: Ty, keys: seq<Value>, st: St)
    requires AllSendable(key, keys) && |keys| <= Dynamic.MAX_COUNT
    requires At(st, WriteList(key, keys)) && st.limits.Unlimited?
    ensures Decodes(ReadList(key, st), keys, st, |WriteList(key, keys)|)
    decreases keys, 2
  {
    EvolvedSelf(key);
    ListAt(key, key, keys, st);
    ReconcileSelfItems(key, keys);
  }

  lemma DecodesAsMap(r: Ty, keys: seq<Value>, values: seq<Value>, st: St, mid: St, end: St)
    requires r.Map? && WellFormed(r) && |keys| == |values| && Ascending(KeyLess, keys)
    requires ReadList(r.key, st) == Ok(keys, mid) && ReadList(r.value, mid) == Ok(values, end)
    ensures DecodeData(r, DataHeader(1, MAP_FORMAT), st) == Ok(VMap(keys, values), end)
  {
    MakesSameMap(keys, values, end);
  }

  lemma MakesSameMap(keys: seq<Value>, values: seq<Value>, st: St)
    requires |keys| == |values| && Ascending(KeyLess, keys)
    ensures MakeMap(keys, values, st) == Ok(VMap(keys, values), st)
  {
    forall a, b | KeyLess(a, b)
      ensures a != b && !KeyLess(b, a)
    {
      if a.VText? {
        LexIsStrict(a.bytes, b.bytes);
      }
    }
    assert [] + keys == keys && [] + values == values;
    InsertAllAscending(KeyLess, [], [], keys, values);
  }
}
