/** Everything the encoders write is framed: a skip passes over it exactly. */
module Framing {
  import opened Bytes
  import opened Wire
  import opened Reader
  import opened Extent
  import opened Scalars
  import opened Wrappers
  import opened DynamicTrip
  import Dynamic
  import opened Codec

  ghost predicate Skips(r: Res<nat>, n: nat) {
    r.Ok? && r.value == n
  }

  lemma OneMore(n: nat, rest: nat, size: nat)
    requires n == rest + 1
    ensures n * size == size + rest * size && rest * size >= 0
  {}

  /** Data without structured fields are nothing but their blobs. */
  lemma {:induction false} SkipsBlobs(format: DataFormat, count: nat, st: St)
    requires format.dataFields == 0 && st.limits.Unlimited?
    requires st.pos + count * format.blobSize <= |st.input.bytes|
    ensures Skips(SkipEntries(format, count, st), count * format.blobSize)
    decreases count
  {
    if count > 0 {
      OneMore(count, count - 1, format.blobSize);
      assert SkipEntry(format, st) == Ok(format.blobSize, Moved(st, format.blobSize));
      SkipsBlobs(format, count - 1, Moved(st, format.blobSize));
    }
  }

  lemma SkipsOne(format: DataFormat, st: St, n: nat)
    requires Skips(SkipEntry(format, st), n)
    ensures Skips(SkipEntries(format, 1, st), n)
  {
    assert SkipEntries(format, 0, SkipEntry(format, st).st).Ok?;
  }

  /** Data with no blob and one structured field are that field. */
  lemma SkipsField(format: DataFormat, st: St, n: nat)
    requires format.blobSize == 0 && format.dataFields == 1 && Skips(SkipData(st), n)
    ensures Skips(SkipEntry(format, st), n)
  {
    assert SkipFields(0, SkipData(st).st).Ok?;
    assert SkipFields(1, st).Ok?;
  }

  lemma SkipsBoth(format: DataFormat, st: St, n: nat, m: nat)
    requires format.blobSize == 0 && format.dataFields == 2
    requires Skips(SkipData(st), n) && Skips(SkipData(SkipData(st).st), m)
    ensures Skips(SkipEntry(format, st), n + m)
  {
    var st' := SkipData(st).st;
    assert SkipFields(0, SkipData(st').st).Ok?;
    assert SkipFields(1, st').Ok?;
    assert SkipFields(2, st).Ok?;
  }

  function Inside(st: St): St
    requires st.limits.Unlimited?
  {
    Moved(EnterScope(st).st, HEADER_SIZE)
  }

  /** A header, then what it describes. */
  lemma SkipsFramed(header: DataHeader, body: seq<byte>, st: St)
    requires At(st, HeaderBytes(header) + body) && st.limits.Unlimited?
    requires Skips(SkipEntries(header.format, header.count, Inside(st)), |body|)
    ensures Skips(SkipData(st), |HeaderBytes(header) + body|)
  {
    AtConcat(st, HeaderBytes(header), body);
    HeaderAt(header, EnterScope(st).st);
  }

  // Dynamic values.

  lemma {:induction false} SkipsPayload(u: Dynamic.Dyn, st: St)
    requires Encodable(u) && At(st, Dynamic.Payload(u)) && st.limits.Unlimited?
    ensures var h := Dynamic.HeaderOf(u); Skips(SkipEntries(h.format, h.count, st), |Dynamic.Payload(u)|)
    decreases u, 0
  {
    var h := Dynamic.HeaderOf(u);
    match u
    case Default =>
    case Number(_, _) => SkipsBlobs(h.format, 1, st);
    case Text(bytes) => SkipsBlobs(h.format, |bytes|, st);
    case List(items) =>
      SkipsInner(items, st);
      SkipsField(h.format, st, |Dynamic.Inner(items)|);
      SkipsOne(h.format, st, |Dynamic.Inner(items)|);
    case Map(keys, values) =>
      AtConcat(st, Dynamic.Inner(keys), Dynamic.Inner(values));
      SkipsInner(keys, st);
      SkipsInner(values, SkipData(st).st);
      SkipsBoth(h.format, st, |Dynamic.Inner(keys)|, |Dynamic.Inner(values)|);
      SkipsOne(h.format, st, |Dynamic.Payload(u)|);
    case Data(header, raw) =>
      CaptureIffFramed(header, raw, st);
      CaptureIsSkipEntries(header.format, header.count, st);
  }

  lemma {:induction false} SkipsWhole(u: Dynamic.Dyn, st: St)
    requires Encodable(u) && At(st, Dynamic.Whole(u)) && st.limits.Unlimited?
    ensures Skips(SkipData(st), |Dynamic.Whole(u)|)
    decreases u, 1
  {
    var h := Dynamic.HeaderOf(u);
    AtConcat(st, HeaderBytes(h), Dynamic.Payload(u));
    SkipsPayload(u, Inside(st));
    SkipsFramed(h, Dynamic.Payload(u), st);
  }

  lemma {:induction false} SkipsInner(items: seq<Dynamic.Dyn>, st: St)
    requires AllEncodable(items) && At(st, Dynamic.Inner(items)) && st.limits.Unlimited?
    ensures Skips(SkipData(st), |Dynamic.Inner(items)|)
    decreases items, 1
  {
    var h := DataHeader(|items|, Dynamic.InnerFormat(items));
    var rest := if h.format.dataFields == 0 then Dynamic.Payloads(items) else Dynamic.Wholes(items);
    AtConcat(st, HeaderBytes(h), rest);
    if h.format.dataFields == 0 {
      PayloadsSize(h.format.blobSize, items);
      SkipsBlobs(h.format, |items|, Inside(st));
    } else {
      SkipsWholes(h.format, items, Inside(st));
    }
    SkipsFramed(h, rest, st);
  }

  lemma {:induction false} PayloadsSize(size: nat, items: seq<Dynamic.Dyn>)
    requires AllEncodable(items)
    requires forall i :: 0 <= i < |items| ==> Dynamic.ScalarBlobSize(Dynamic.TypeOrdinal(items[i])) == size > 0
    ensures |Dynamic.Payloads(items)| == |items| * size
  {
    if items != [] {
      assert items[0].Number?;
      KindOfOrdinal(items[0].kind);
      OneMore(|items|, |items[1..]|, size);
      PayloadsSize(size, items[1..]);
    }
  }

  lemma {:induction false} SkipsWholes(format: DataFormat, items: seq<Dynamic.Dyn>, st: St)
    requires format.blobSize == 0 && format.dataFields == 1
    requires forall i :: 0 <= i < |items| ==> Dynamic.CanEncode(items[i]) && Encodable(items[i])
    requires At(st, Dynamic.Wholes(items)) && st.limits.Unlimited?
    ensures Skips(SkipEntries(format, |items|, st), |Dynamic.Wholes(items)|)
    decreases items, 0
  {
    if items != [] {
      AtConcat(st, Dynamic.Whole(items[0]), Dynamic.Wholes(items[1..]));
      SkipsWhole(items[0], st);
      SkipsField(format, st, |Dynamic.Whole(items[0])|);
      SkipsWholes(format, items[1..], SkipEntry(format, st).st);
    }
  }

  // Statically typed values.

  /** Any `Unspecified` inside is relayable. */
  ghost predicate Faithful(v: Value) {
    match v
    case VStruct(_, datas) => forall i :: 0 <= i < |datas| ==> Faithful(datas[i])
    case VList(items) => forall i :: 0 <= i < |items| ==> Faithful(items[i])
    case VSome(value) => Faithful(value)
    case VMap(keys, values) =>
      && (forall i :: 0 <= i < |keys| ==> Faithful(keys[i]))
      && (forall i :: 0 <= i < |values| ==> Faithful(values[i]))
    case VDyn(u) => Relayable(u)
    case _ => true
  }

  /** What can be sent: a well-formed type and a value of it that the decoders can read back. */
  ghost predicate Sendable(t: Ty, v: Value) {
    WellFormed(t) && Fits(t, v) && Faithful(v)
  }

  ghost predicate AllSendable(t: Ty, vs: seq<Value>) {
    WellFormed(t) && AllFit(t, vs) && forall i :: 0 <= i < |vs| ==> Faithful(vs[i])
  }

  ghost predicate EachSendable(ts: seq<Ty>, vs: seq<Value>) {
    && EachFits(ts, vs)
    && forall i :: 0 <= i < |ts| ==> WellFormed(ts[i]) && Faithful(vs[i])
  }

  lemma {:induction false} BlobBodySize(t: Ty, v: Value)
    requires IsBlob(t) && WellFormed(t) && Fits(t, v)
    ensures |Body(t, v)| == BlobSize(t)
    decreases v, 1
  {
    if t.Array? {
      BlobItemsSize(t.elem, v.items);
    }
  }

  lemma {:induction false} BlobItemsSize(t: Ty, vs: seq<Value>)
    requires IsBlob(t) && WellFormed(t) && AllFit(t, vs)
    ensures |Items(t, vs)| == |vs| * BlobSize(t)
    decreases vs, 0
  {
    if vs != [] {
      OneMore(|vs|, |vs[1..]|, BlobSize(t));
      BlobBodySize(t, vs[0]);
      BlobItemsSize(t, vs[1..]);
    }
  }

  lemma {:induction false} BlobsSize(ts: seq<Ty>, vs: seq<Value>)
    requires EachFits(ts, vs) && forall i :: 0 <= i < |ts| ==> IsBlob(ts[i]) && WellFormed(ts[i])
    ensures |Writes(ts, vs)| == TotalSize(ts)
  {
    if ts != [] {
      BlobBodySize(ts[0], vs[0]);
      BlobsSize(ts[1..], vs[1..]);
    }
  }

  lemma {:induction false} SkipsWrite(t: Ty, v: Value, st: St)
    requires Sendable(t, v) && !IsBlob(t) && At(st, Write(t, v)) && st.limits.Unlimited?
    ensures Skips(SkipData(st), |Write(t, v)|)
    decreases v, 3
  {
    AtConcat(st, HeaderBytes(HeaderFor(t, v)), Body(t, v));
    SkipsBody(t, v, Inside(st));
    SkipsFramed(HeaderFor(t, v), Body(t, v), st);
  }

  lemma {:induction false} SkipsBody(t: Ty, v: Value, st: St)
    requires Sendable(t, v) && !IsBlob(t) && At(st, Body(t, v)) && st.limits.Unlimited?
    ensures var h := HeaderFor(t, v); Skips(SkipEntries(h.format, h.count, st), |Body(t, v)|)
    decreases v, 2
  {
    var h := HeaderFor(t, v);
    match t
    case Text => SkipsBlobs(h.format, |v.bytes|, st);
    case Struct(_, _, _) =>
      SkipsStruct(t, v, st);
      SkipsOne(h.format, st, |Body(t, v)|);
    case Map(_, _) =>
      SkipsMap(t, v, st);
      SkipsOne(h.format, st, |Body(t, v)|);
    case List(elem) => SkipsItems(elem, v.items, st);
    case Option(elem) =>
      if v.VSome? {
        SkipsItem(elem, v.value, st);
        SkipsOne(h.format, st, |Body(t, v)|);
      }
    case Unspecified => SkipsPayload(v.u, st);
  }

  /** One struct is as many blob bytes and self-describing fields as its format says. */
  lemma {:induction false} SkipsStruct(t: Ty, v: Value, st: St)
    requires Sendable(t, v) && t.Struct? && At(st, Body(t, v)) && st.limits.Unlimited?
    ensures Skips(SkipEntry(FormatOf(t).AsDataFormat(), st), |Body(t, v)|)
    decreases v, 1
  {
    AtConcat(st, Writes(t.blobs, v.blobs), Writes(t.datas, v.datas));
    BlobsSize(t.blobs, v.blobs);
    SkipsWrites(t.datas, v.datas, Moved(st, TotalSize(t.blobs)));
  }

  lemma {:induction false} SkipsMap(t: Ty, v: Value, st: St)
    requires Sendable(t, v) && t.Map? && At(st, Body(t, v)) && st.limits.Unlimited?
    ensures Skips(SkipEntry(MAP_FORMAT, st), |Body(t, v)|)
    decreases v, 1
  {
    AtConcat(st, WriteList(t.key, v.keys), WriteList(t.value, v.values));
    SkipsList(t.key, v.keys, st);
    SkipsList(t.value, v.values, SkipData(st).st);
    SkipsBoth(MAP_FORMAT, st, |WriteList(t.key, v.keys)|, |WriteList(t.value, v.values)|);
  }

  lemma {:induction false} SkipsList(elem: Ty, items: seq<Value>, st: St)
    requires AllSendable(elem, items) && |items| <= Dynamic.MAX_COUNT
    requires At(st, WriteList(elem, items)) && st.limits.Unlimited?
    ensures Skips(SkipData(st), |WriteList(elem, items)|)
    decreases items, 1
  {
    var h := DataHeader(|items|, ItemFormat(elem));
    AtConcat(st, HeaderBytes(h), Items(elem, items));
    SkipsItems(elem, items, Inside(st));
    SkipsFramed(h, Items(elem, items), st);
  }

  lemma {:induction false} SkipsItem(t: Ty, v: Value, st: St)
    requires Sendable(t, v) && At(st, Item(t, v)) && st.limits.Unlimited?
    ensures Skips(SkipEntry(ItemFormat(t), st), |Item(t, v)|)
    decreases v, 4
  {
    if IsBlob(t) {
      BlobBodySize(t, v);
    } else if t.Struct? {
      SkipsStruct(t, v, st);
    } else if t.Map? {
      SkipsMap(t, v, st);
    } else {
      SkipsWrite(t, v, st);
      SkipsField(ItemFormat(t), st, |Write(t, v)|);
    }
  }

  lemma {:induction false} SkipsItems(t: Ty, vs: seq<Value>, st: St)
    requires AllSendable(t, vs) && At(st, Items(t, vs)) && st.limits.Unlimited?
    ensures Skips(SkipEntries(ItemFormat(t), |vs|, st), |Items(t, vs)|)
    decreases vs, 0
  {
    hide Holds;
    hide Body;
    hide Write;
    hide Fits;
    hide Faithful;
    hide WellFormed;
    hide SkipEntry;
    if vs != [] {
      AtConcat(st, Item(t, vs[0]), Items(t, vs[1..]));
      SkipsItem(t, vs[0], st);
      SkipsItems(t, vs[1..], SkipEntry(ItemFormat(t), st).st);
    }
  }

  lemma {:induction false} SkipsWrites(ts: seq<Ty>, vs: seq<Value>, st: St)
    requires EachSendable(ts, vs) && forall i :: 0 <= i < |ts| ==> !IsBlob(ts[i])
    requires At(st, Writes(ts, vs)) && st.limits.Unlimited?
    ensures Skips(SkipFields(|ts|, st), |Writes(ts, vs)|)
    decreases vs, 0
  {
    hide Holds;
    hide Body;
    hide Fits;
    hide Faithful;
    hide WellFormed;
    if ts != [] {
      AtConcat(st, Write(ts[0], vs[0]), Writes(ts[1..], vs[1..]));
      SkipsWrite(ts[0], vs[0], st);
      SkipsWrites(ts[1..], vs[1..], SkipData(st).st);
    }
  }
}
