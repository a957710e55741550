/** The encoders as they run: every one appends to a byte vector, or fails on a count that
    does not fit the wire. */
module EncodeCode {
  import opened Bytes
  import opened Wire
  import opened Reader
  import opened ReaderCode
  import opened Scalars
  import opened Wrappers
  import D = Dynamic
  import opened Codec

  /** `try_count`. */
  method TryCount(length: nat) returns (r: Result<u32>)
    ensures r == if length <= D.MAX_COUNT then Success(length) else Failure(CountOverflow(length))
  {
    if length > D.MAX_COUNT {
      return Failure(CountOverflow(length));
    }
    r := Success(length);
  }

  // Dynamic values.

  /** Why a value cannot be encoded. */
  ghost predicate EncodeError(e: Error) {
    e.CountOverflow? || e == UnsupportedDataFormat(UNSPECIFIED_ORDINAL)
  }

  /** `write_data` of an `Unspecified`. */
  method WriteDyn(u: D.Dyn, writer: ByteVec) returns (r: Result<()>)
    modifies writer
    ensures r.Success? <==> D.CanEncode(u)
    ensures r.Success? ==> writer.bytes == old(writer.bytes) + D.Whole(u)
    ensures r.Failure? ==> EncodeError(r.error)
    decreases u, 2
  {
    ghost var before := writer.bytes;
    var _ :- WriteDynHeader(u, writer);
    var _ :- EncodeDyn(u, writer);
    assert before + HeaderBytes(D.HeaderOf(u)) + D.Payload(u) == before + D.Whole(u);
    r := Success(());
  }

  /** `encode_header` of an `Unspecified`; only a text's length can fail to fit. */
  method WriteDynHeader(u: D.Dyn, writer: ByteVec) returns (r: Result<()>)
    modifies writer
    ensures r.Failure? <==> u.Text? && |u.bytes| > D.MAX_COUNT
    ensures r.Success? && D.CanEncode(u) ==> writer.bytes == old(writer.bytes) + HeaderBytes(D.HeaderOf(u))
    ensures r.Failure? ==> r.error.CountOverflow?
  {
    var header;
    match u {
      case Default => header := DataHeader(0, DataFormat(0, 0, 0));
      case Number(kind, _) => header := DataHeader(1, DataFormat(D.ScalarBlobSize(D.TypeOrdinal(u)), 0, D.TypeOrdinal(u)));
      case Text(bytes) =>
        var count :- TryCount(|bytes|);
        header := DataHeader(count, DataFormat(1, 0, D.TypeOrdinal(u)));
      case List(_) => header := DataHeader(1, DataFormat(0, 1, D.TypeOrdinal(u)));
      case Map(_, _) => header := DataHeader(1, DataFormat(0, 2, D.TypeOrdinal(u)));
      case Data(original, _) => header := original;
    }
    if u.Number? {
      KindOfOrdinal(u.kind);
    }
    writer.WriteAll(HeaderBytes(header));
    r := Success(());
  }

  /** `encode` of an `Unspecified`, after its header. */
  method EncodeDyn(u: D.Dyn, writer: ByteVec) returns (r: Result<()>)
    modifies writer
    ensures r.Success? <==> D.CanEncode(u) || u.Text?
    ensures r.Success? && D.CanEncode(u) ==> writer.bytes == old(writer.bytes) + D.Payload(u)
    ensures r.Failure? ==> EncodeError(r.error)
    decreases u, 1
  {
    ghost var before := writer.bytes;
    match u {
      case Default => assert before + [] == before;
      case Number(kind, n) => writer.WriteAll(ScalarBytes(kind, n));
      case Text(bytes) => writer.WriteAll(bytes);
      case List(items) => var _ :- EncodeItems(items, writer);
      case Map(keys, values) =>
        var _ :- EncodeItems(keys, writer);
        var _ :- EncodeItems(values, writer);
        assert before + D.Inner(keys) + D.Inner(values) == before + (D.Inner(keys) + D.Inner(values));
      case Data(_, raw) => writer.WriteAll(raw);
    }
    r := Success(());
  }

  /** The single pass of `encode_unspecified_list`: no item may be `Default`, and all may be of one type. */
  method Scan(items: seq<D.Dyn>) returns (r: Result<bool>)
    ensures r.Success? <==> forall i :: 0 <= i < |items| ==> !items[i].Default?
    ensures r.Success? ==> r.value == D.Homogeneous(items)
    ensures r.Failure? ==> r.error == UnsupportedDataFormat(UNSPECIFIED_ORDINAL)
  {
    if items == [] {
      return Success(false);
    }
    var homogeneous := true;
    var i := 0;
    while i < |items|
      invariant i <= |items| && forall k :: 0 <= k < i ==> !items[k].Default?
      invariant homogeneous <==> forall k :: 0 <= k < i ==> D.TypeOrdinal(items[k]) == D.TypeOrdinal(items[0])
    {
      if items[i].Default? {
        return Failure(UnsupportedDataFormat(UNSPECIFIED_ORDINAL));
      }
      if homogeneous && D.TypeOrdinal(items[i]) != D.TypeOrdinal(items[0]) {
        homogeneous := false;
      }
      i := i + 1;
    }
    r := Success(homogeneous);
  }

  /** `encode_unspecified_list`. */
  method EncodeItems(items: seq<D.Dyn>, writer: ByteVec) returns (r: Result<()>)
    modifies writer
    ensures r.Success? <==> D.CanEncodeItems(items)
    ensures r.Success? ==> writer.bytes == old(writer.bytes) + D.Inner(items)
    ensures r.Failure? ==> EncodeError(r.error)
    decreases items, 3
  {
    ghost var before := writer.bytes;
    var count :- TryCount(|items|);
    var homogeneous :- Scan(items);
    var format := PREFIXED;
    if homogeneous {
      var ordinal := D.TypeOrdinal(items[0]);
      var size := D.ScalarBlobSize(ordinal);
      format := if size > 0 then DataFormat(size, 0, ordinal) else DataFormat(0, 1, ordinal);
    }
    var header := HeaderBytes(DataHeader(count, format));
    writer.WriteAll(header);
    if format.dataFields == 0 {
      r := EncodePayloads(items, writer);
      if r.Success? {
        assert before + header + D.Payloads(items) == before + (header + D.Payloads(items));
      }
    } else {
      r := EncodeWholes(items, writer);
      if r.Success? {
        assert before + header + D.Wholes(items) == before + (header + D.Wholes(items));
      }
    }
  }

  lemma {:induction false} PayloadsSnoc(done: seq<D.Dyn>, u: D.Dyn)
    requires (forall i :: 0 <= i < |done| ==> D.CanEncode(done[i])) && D.CanEncode(u)
    ensures D.Payloads(done + [u]) == D.Payloads(done) + D.Payload(u)
  {
    hide D.Payload;
    if done == [] {
      assert [] + [u] == [u] && [u][1..] == [];
    } else {
      assert (done + [u])[1..] == done[1..] + [u];
      PayloadsSnoc(done[1..], u);
    }
  }

  lemma {:induction false} WholesSnoc(done: seq<D.Dyn>, u: D.Dyn)
    requires (forall i :: 0 <= i < |done| ==> D.CanEncode(done[i])) && D.CanEncode(u)
    ensures D.Wholes(done + [u]) == D.Wholes(done) + D.Whole(u)
  {
    hide D.Whole;
    if done == [] {
      assert [] + [u] == [u] && [u][1..] == [];
    } else {
      assert (done + [u])[1..] == done[1..] + [u];
      WholesSnoc(done[1..], u);
    }
  }

  /** Packed items: payloads only. */
  method EncodePayloads(items: seq<D.Dyn>, writer: ByteVec) returns (r: Result<()>)
    requires forall i :: 0 <= i < |items| ==> !items[i].Text?
    modifies writer
    ensures r.Success? <==> forall i :: 0 <= i < |items| ==> D.CanEncode(items[i])
    ensures r.Success? ==> writer.bytes == old(writer.bytes) + D.Payloads(items)
    ensures r.Failure? ==> EncodeError(r.error)
    decreases items, 2
  {
    hide D.CanEncode;
    hide D.Payload;
    ghost var before, done := writer.bytes, [];
    var i := 0;
    while i < |items|
      invariant i == |done| <= |items|
      invariant forall k :: 0 <= k < i ==> done[k] == items[k] && D.CanEncode(items[k])
      invariant writer.bytes == before + D.Payloads(done)
    {
      var _ :- EncodeDyn(items[i], writer);
      PayloadsSnoc(done, items[i]);
      assert before + D.Payloads(done) + D.Payload(items[i]) == before + (D.Payloads(done) + D.Payload(items[i]));
      done := done + [items[i]];
      i := i + 1;
    }
    assert done == items;
    r := Success(());
  }

  /** Prefixed items: each with its own header. */
  method EncodeWholes(items: seq<D.Dyn>, writer: ByteVec) returns (r: Result<()>)
    modifies writer
    ensures r.Success? <==> forall i :: 0 <= i < |items| ==> D.CanEncode(items[i])
    ensures r.Success? ==> writer.bytes == old(writer.bytes) + D.Wholes(items)
    ensures r.Failure? ==> EncodeError(r.error)
    decreases items, 2
  {
    hide D.CanEncode;
    hide D.Whole;
    ghost var before, done := writer.bytes, [];
    var i := 0;
    while i < |items|
      invariant i == |done| <= |items|
      invariant forall k :: 0 <= k < i ==> done[k] == items[k] && D.CanEncode(items[k])
      invariant writer.bytes == before + D.Wholes(done)
    {
      var _ :- WriteDyn(items[i], writer);
      WholesSnoc(done, items[i]);
      assert before + D.Wholes(done) + D.Whole(items[i]) == before + (D.Wholes(done) + D.Whole(items[i]));
      done := done + [items[i]];
      i := i + 1;
    }
    assert done == items;
    r := Success(());
  }

  // Statically typed values.

  /** `write_data`. */
  method WriteData(t: Ty, v: Value, writer: ByteVec) returns (r: Result<()>)
    requires WellFormed(t) && Typed(t, v)
    modifies writer
    ensures r.Success? <==> Fits(t, v)
    ensures r.Success? ==> writer.bytes == old(writer.bytes) + Write(t, v)
    ensures r.Failure? ==> EncodeError(r.error)
    decreases v, 3
  {
    ghost var before := writer.bytes;
    var _ :- EncodeHeader(t, v, writer);
    var _ :- Encode(t, v, writer);
    if !IsBlob(t) {
      assert before + HeaderBytes(HeaderFor(t, v)) + Body(t, v) == before + Write(t, v);
    }
    r := Success(());
  }

  /** The count in a value's header. */
  predicate HeaderFits(t: Ty, v: Value) {
    (v.VText? && t.Text? ==> |v.bytes| <= D.MAX_COUNT)
    && (v.VList? && t.List? ==> |v.items| <= D.MAX_COUNT)
    && (v.VDyn? && v.u.Text? && t.Unspecified? ==> |v.u.bytes| <= D.MAX_COUNT)
  }

  /** `encode_header`. */
  method EncodeHeader(t: Ty, v: Value, writer: ByteVec) returns (r: Result<()>)
    requires WellFormed(t) && Typed(t, v)
    modifies writer
    ensures r.Success? <==> HeaderFits(t, v)
    ensures r.Success? && IsBlob(t) ==> writer.bytes == old(writer.bytes)
    ensures r.Success? && !IsBlob(t) && Fits(t, v) ==> writer.bytes == old(writer.bytes) + HeaderBytes(HeaderFor(t, v))
    ensures r.Failure? ==> r.error.CountOverflow?
  {
    match t {
      case Text =>
        var count :- TryCount(|v.bytes|);
        writer.WriteAll(HeaderBytes(DataHeader(count, TEXT_FORMAT)));
      case List(elem) =>
        var count :- TryCount(|v.items|);
        writer.WriteAll(HeaderBytes(DataHeader(count, ItemFormat(elem))));
      case Option(elem) => writer.WriteAll(HeaderBytes(DataHeader(if v.VSome? then 1 else 0, ItemFormat(elem))));
      case Unspecified => var _ :- WriteDynHeader(v.u, writer);
      case Struct(_, _, _) => writer.WriteAll(HeaderBytes(DataHeader(1, FormatOf(t).AsDataFormat())));
      case Map(_, _) => writer.WriteAll(HeaderBytes(DataHeader(1, MAP_FORMAT)));
      case Scalar(_) =>
      case Array(_, _) =>
    }
    r := Success(());
  }

  /** `encode`. */
  method Encode(t: Ty, v: Value, writer: ByteVec) returns (r: Result<()>)
    requires WellFormed(t) && Typed(t, v) && HeaderFits(t, v)
    modifies writer
    ensures r.Success? <==> Fits(t, v)
    ensures r.Success? ==> writer.bytes == old(writer.bytes) + Body(t, v)
    ensures r.Failure? ==> EncodeError(r.error)
    decreases v, 2
  {
    ghost var before := writer.bytes;
    match t {
      case Scalar(kind) => writer.WriteAll(ScalarBytes(kind, v.n));
      case Array(_, elem) => var _ :- EncodeAll(elem, v.items, writer);
      case Text => writer.WriteAll(v.bytes);
      case Struct(_, blobs, datas) =>
        var _ :- WriteFields(blobs, v.blobs, writer);
        var _ :- WriteFields(datas, v.datas, writer);
        assert before + Writes(blobs, v.blobs) + Writes(datas, v.datas) == before + (Writes(blobs, v.blobs) + Writes(datas, v.datas));
      case List(elem) => var _ :- EncodeAll(elem, v.items, writer);
      case Option(elem) =>
        if v.VSome? {
          var _ :- WriteSequenceData(elem, v.value, writer);
        } else {
          assert before + [] == before;
        }
      case Map(key, value) =>
        var _ :- WriteVec(key, v.keys, writer);
        var _ :- WriteVec(value, v.values, writer);
        assert before + WriteList(key, v.keys) + WriteList(value, v.values) == before + (WriteList(key, v.keys) + WriteList(value, v.values));
      case Unspecified => var _ :- EncodeDyn(v.u, writer);
    }
    r := Success(());
  }

  /** `write_sequence_data`. */
  method WriteSequenceData(t: Ty, v: Value, writer: ByteVec) returns (r: Result<()>)
    requires WellFormed(t) && Typed(t, v)
    modifies writer
    ensures r.Success? <==> Fits(t, v)
    ensures r.Success? ==> writer.bytes == old(writer.bytes) + Item(t, v)
    ensures r.Failure? ==> EncodeError(r.error)
    decreases v, 4
  {
    if FormatOf(t).IsPacked() {
      r := Encode(t, v, writer);
    } else {
      r := WriteData(t, v, writer);
    }
  }

  lemma {:induction false} ItemsSnoc(t: Ty, done: seq<Value>, v: Value)
    requires WellFormed(t) && AllFit(t, done) && Fits(t, v)
    ensures AllFit(t, done + [v]) && Items(t, done + [v]) == Items(t, done) + Item(t, v)
  {
    hide Item;
    hide Fits;
    if done == [] {
      assert [] + [v] == [v] && [v][1..] == [];
    } else {
      assert (done + [v])[1..] == done[1..] + [v];
      ItemsSnoc(t, done[1..], v);
    }
  }

  /** `write_sequence_data` of every item. */
  method EncodeAll(t: Ty, items: seq<Value>, writer: ByteVec) returns (r: Result<()>)
    requires WellFormed(t) && forall i :: 0 <= i < |items| ==> Typed(t, items[i])
    modifies writer
    ensures r.Success? <==> AllFit(t, items)
    ensures r.Success? ==> writer.bytes == old(writer.bytes) + Items(t, items)
    ensures r.Failure? ==> EncodeError(r.error)
    decreases items, 5
  {
    hide Fits;
    hide Typed;
    hide Item;
    hide WellFormed;
    ghost var before, done := writer.bytes, [];
    var i := 0;
    while i < |items|
      invariant i == |done| <= |items|
      invariant forall k :: 0 <= k < i ==> done[k] == items[k] && Fits(t, items[k])
      invariant writer.bytes == before + Items(t, done)
    {
      var _ :- WriteSequenceData(t, items[i], writer);
      ItemsSnoc(t, done, items[i]);
      assert before + Items(t, done) + Item(t, items[i]) == before + (Items(t, done) + Item(t, items[i]));
      done := done + [items[i]];
      i := i + 1;
    }
    assert done == items;
    r := Success(());
  }

  /** `write_data` of a `Vec`. */
  method WriteVec(elem: Ty, items: seq<Value>, writer: ByteVec) returns (r: Result<()>)
    requires WellFormed(elem) && forall i :: 0 <= i < |items| ==> Typed(elem, items[i])
    modifies writer
    ensures r.Success? <==> AllFit(elem, items) && |items| <= D.MAX_COUNT
    ensures r.Success? ==> writer.bytes == old(writer.bytes) + WriteList(elem, items)
    ensures r.Failure? ==> EncodeError(r.error)
    decreases items, 6
  {
    ghost var before := writer.bytes;
    var count :- TryCount(|items|);
    var header := HeaderBytes(DataHeader(count, ItemFormat(elem)));
    writer.WriteAll(header);
    var _ :- EncodeAll(elem, items, writer);
    assert before + header + Items(elem, items) == before + (header + Items(elem, items));
    r := Success(());
  }

  /** `writer.write_data(&self.field)?` of one field after another. */
  method WriteFields(ts: seq<Ty>, vs: seq<Value>, writer: ByteVec) returns (r: Result<()>)
    requires |ts| == |vs| && forall i :: 0 <= i < |ts| ==> WellFormed(ts[i]) && Typed(ts[i], vs[i])
    modifies writer
    ensures r.Success? <==> EachFits(ts, vs)
    ensures r.Success? ==> writer.bytes == old(writer.bytes) + Writes(ts, vs)
    ensures r.Failure? ==> EncodeError(r.error)
    decreases vs, 4
  {
    hide Fits;
    hide Typed;
    hide Write;
    hide WellFormed;
    ghost var before := writer.bytes;
    if ts == [] {
      assert before + [] == before;
      return Success(());
    }
    var _ :- WriteData(ts[0], vs[0], writer);
    var _ :- WriteFields(ts[1..], vs[1..], writer);
    assert EachFits(ts, vs) by {
      forall i | 0 <= i < |ts|
        ensures Fits(ts[i], vs[i])
      {
        if i > 0 {
          assert Fits(ts[1..][i - 1], vs[1..][i - 1]);
        }
      }
    }
    assert before + Write(ts[0], vs[0]) + Writes(ts[1..], vs[1..]) == before + (Write(ts[0], vs[0]) + Writes(ts[1..], vs[1..]));
    r := Success(());
  }
}
