/** Schema descriptions are framed like any other data: a reader that knows nothing of schemas
    passes over each of them exactly. */
module SchemaExtent {
  import opened Bytes
  import opened Wire
  import opened Reader
  import opened Extent
  import opened Scalars
  import opened Wrappers
  import opened DynamicTrip
  import opened Framing
  import C = Codec
  import opened Schema
  import opened SchemaTrip

  lemma NextField(k: nat, part: seq<byte>, rest: seq<byte>, st: St)
    requires k > 0 && Skips(SkipData(st), |part|) && Skips(SkipFields(k - 1, SkipData(st).st), |rest|)
    ensures Skips(SkipFields(k, st), |part + rest|)
  {}

  lemma LastField(part: seq<byte>, st: St)
    requires Skips(SkipData(st), |part|)
    ensures Skips(SkipFields(1, st), |part|)
  {
    assert SkipFields(0, SkipData(st).st).Ok?;
  }

  lemma BlobAndFields(format: DataFormat, blob: seq<byte>, fields: seq<byte>, st: St)
    requires |blob| == format.blobSize && At(st, blob + fields) && st.limits.Unlimited?
    requires Skips(SkipFields(format.dataFields, Moved(st, |blob|)), |fields|)
    ensures Skips(SkipEntry(format, st), |blob + fields|)
  {
    AtConcat(st, blob, fields);
  }

  lemma SkipsText(s: seq<byte>, rest: seq<byte>, st: St) returns (mid: St)
    requires TextFits(s) && At(st, WriteText(s) + rest) && st.limits.Unlimited?
    ensures Skips(SkipData(st), |WriteText(s)|) && mid == SkipData(st).st && At(mid, rest) && mid.limits.Unlimited?
  {
    AtConcat(st, WriteText(s), rest);
    SkipsWrite(C.Text, C.VText(s), st);
    mid := SkipData(st).st;
  }

  lemma SkipsDocs(docs: Option<seq<byte>>, rest: seq<byte>, st: St) returns (mid: St)
    requires DocsFit(docs) && At(st, WriteDocs(docs) + rest) && st.limits.Unlimited?
    ensures Skips(SkipData(st), |WriteDocs(docs)|) && mid == SkipData(st).st && At(mid, rest) && mid.limits.Unlimited?
  {
    hide C.Write;
    AtConcat(st, WriteDocs(docs), rest);
    SkipsWrite(C.Option(C.Text), DocsValue(docs), st);
    mid := SkipData(st).st;
  }

  /** Formats. */
  lemma SkipsFormat(f: Format, st: St)
    requires At(st, WriteFormat(f)) && st.limits.Unlimited?
    ensures Skips(SkipData(st), |WriteFormat(f)|)
  {
    match f
    case Blob(size) => SkipsBlobData(DataHeader(1, DataFormat(2, 0, 1)), ScalarBytes(U16, size), st);
    case Data(format) => SkipsBlobData(DataHeader(1, DataFormat(4, 0, 2)), FormatBytes(format), st);
    case Sequence(format) => SkipsBlobData(DataHeader(1, DataFormat(4, 0, 3)), FormatBytes(format), st);
    case Fluid => SkipsBlobData(DataHeader(1, DataFormat(0, 0, 4)), [], st);
  }

  lemma SkipsBlobData(header: DataHeader, body: seq<byte>, st: St)
    requires header.count == 1 && header.format.dataFields == 0 && |body| == header.format.blobSize
    requires At(st, HeaderBytes(header) + body) && st.limits.Unlimited?
    ensures Skips(SkipData(st), |HeaderBytes(header) + body|)
  {
    AtConcat(st, HeaderBytes(header), body);
    SkipsBlobs(header.format, 1, Inside(st));
    SkipsFramed(header, body, st);
  }

  lemma SkipsOneData(header: DataHeader, body: seq<byte>, st: St)
    requires header.count == 1 && At(st, HeaderBytes(header) + body) && st.limits.Unlimited?
    requires Skips(SkipEntry(header.format, Inside(st)), |body|)
    ensures Skips(SkipData(st), |HeaderBytes(header) + body|)
  {
    SkipsOne(header.format, Inside(st), |body|);
    SkipsFramed(header, body, st);
  }

  /** Types, with whatever they nest. */
  lemma {:induction false} SkipsType(t: Type, st: St)
    requires TypeFits(t) && At(st, WriteType(t)) && st.limits.Unlimited?
    ensures Skips(SkipData(st), |WriteType(t)|)
    decreases t, 3
  {
    AtConcat(st, HeaderBytes(TypeHeader(t)), TypeBody(t));
    SkipsTypeBody(t, Inside(st));
    SkipsOneData(TypeHeader(t), TypeBody(t), st);
  }

  lemma {:induction false} SkipsTypeBody(t: Type, st: St)
    requires TypeFits(t) && At(st, TypeBody(t)) && st.limits.Unlimited?
    ensures Skips(SkipEntry(TypeHeader(t).format, st), |TypeBody(t)|)
    decreases t, 2
  {
    hide Holds;
    hide SkipData;
    var format := TypeHeader(t).format;
    match t
    case Array(count, elem) =>
      AtConcat(st, ScalarBytes(U16, count), WriteType(elem));
      SkipsType(elem, Moved(st, 2));
      LastField(WriteType(elem), Moved(st, 2));
      BlobAndFields(format, ScalarBytes(U16, count), WriteType(elem), st);
    case Data(data) =>
      SkipsDataType(data, st);
      SkipsField(format, st, |WriteDataType(data)|);
    case List(elem) =>
      SkipsType(elem, st);
      SkipsField(format, st, |WriteType(elem)|);
    case Map(key, value) =>
      AtConcat(st, WriteType(key), WriteType(value));
      SkipsType(key, st);
      SkipsType(value, SkipData(st).st);
      SkipsBoth(format, st, |WriteType(key)|, |WriteType(value)|);
    case _ => NoBody(format, st);
  }

  lemma NoBody(format: DataFormat, st: St)
    requires format.blobSize == 0 && format.dataFields == 0
    ensures Skips(SkipEntry(format, st), 0)
  {}

  /** Data types. */
  lemma {:induction false} SkipsDataType(d: DataType, st: St)
    requires DataTypeFits(d) && At(st, WriteDataType(d)) && st.limits.Unlimited?
    ensures Skips(SkipData(st), |WriteDataType(d)|)
    decreases d, 4
  {
    var header := DataHeader(1, DATA_TYPE_FORMAT);
    AtConcat(st, HeaderBytes(header), DataTypeBody(d));
    SkipsDataTypeBody(d, Inside(st));
    SkipsOneData(header, DataTypeBody(d), st);
  }

  lemma {:induction false} SkipsDataTypeBody(d: DataType, st: St)
    requires DataTypeFits(d) && At(st, DataTypeBody(d)) && st.limits.Unlimited?
    ensures Skips(SkipEntry(DATA_TYPE_FORMAT, st), |DataTypeBody(d)|)
    decreases d, 3
  {
    hide Holds;
    hide SkipData;
    hide WriteText;
    hide WriteDocs;
    hide WriteFormat;
    var afterBlobs := WriteFields(d.dataFields) + WriteFormat(d.format);
    var afterDocs := WriteFields(d.blobFields) + afterBlobs;
    var afterName := WriteDocs(d.docs) + afterDocs;
    var st1 := SkipsText(d.name, afterName, st);
    var st2 := SkipsDocs(d.docs, afterDocs, st1);
    AtConcat(st2, WriteFields(d.blobFields), afterBlobs);
    SkipsFieldList(d.blobFields, st2);
    var st3 := SkipData(st2).st;
    AtConcat(st3, WriteFields(d.dataFields), WriteFormat(d.format));
    SkipsFieldList(d.dataFields, st3);
    var st4 := SkipData(st3).st;
    SkipsFormat(d.format, st4);
    LastField(WriteFormat(d.format), st4);
    NextField(2, WriteFields(d.dataFields), WriteFormat(d.format), st3);
    NextField(3, WriteFields(d.blobFields), afterBlobs, st2);
    NextField(4, WriteDocs(d.docs), afterDocs, st1);
    NextField(5, WriteText(d.name), afterName, st);
  }

  lemma {:induction false} SkipsFieldList(fs: seq<DataField>, st: St)
    requires FieldsFit(fs) && At(st, WriteFields(fs)) && st.limits.Unlimited?
    ensures Skips(SkipData(st), |WriteFields(fs)|)
    decreases fs, 1
  {
    hide FieldBodies;
    hide FieldFits;
    var header := DataHeader(|fs|, FIELD_FORMAT);
    AtConcat(st, HeaderBytes(header), FieldBodies(fs));
    SkipsFieldBodies(fs, Inside(st));
    SkipsFramed(header, FieldBodies(fs), st);
  }

  lemma {:induction false} SkipsFieldBodies(fs: seq<DataField>, st: St)
    requires forall i :: 0 <= i < |fs| ==> FieldFits(fs[i])
    requires At(st, FieldBodies(fs)) && st.limits.Unlimited?
    ensures Skips(SkipEntries(FIELD_FORMAT, |fs|, st), |FieldBodies(fs)|)
    decreases fs, 0
  {
    hide Holds;
    hide SkipEntry;
    hide FieldBody;
    hide FieldFits;
    if fs != [] {
      AtConcat(st, FieldBody(fs[0]), FieldBodies(fs[1..]));
      SkipsFieldBody(fs[0], st);
      SkipsFieldBodies(fs[1..], SkipEntry(FIELD_FORMAT, st).st);
    }
  }

  lemma {:induction false} SkipsFieldBody(f: DataField, st: St)
    requires FieldFits(f) && At(st, FieldBody(f)) && st.limits.Unlimited?
    ensures Skips(SkipEntry(FIELD_FORMAT, st), |FieldBody(f)|)
    decreases f, 4
  {
    hide Holds;
    hide SkipData;
    hide WriteText;
    hide WriteDocs;
    hide WriteType;
    FlagsFit(f.optional, f.flattened);
    BlobsSize(FLAGS, Flags(f.optional, f.flattened));
    assert C.TotalSize(FLAGS) == 2 by {
      assert FLAGS[1..] == [C.Scalar(Bool)];
    }
    var flags := WriteFlags(f.optional, f.flattened);
    hide WriteFlags;
    var afterName := WriteDocs(f.docs) + WriteType(f.typing);
    var fields := WriteText(f.name) + afterName;
    AtConcat(st, flags, fields);
    var st1 := SkipsText(f.name, afterName, Moved(st, 2));
    var st2 := SkipsDocs(f.docs, WriteType(f.typing), st1);
    SkipsType(f.typing, st2);
    LastField(WriteType(f.typing), st2);
    NextField(2, WriteDocs(f.docs), WriteType(f.typing), st1);
    NextField(3, WriteText(f.name), afterName, Moved(st, 2));
    BlobAndFields(FIELD_FORMAT, flags, fields, st);
  }

  lemma {:induction false} SkipsDataTypeBodies(ds: seq<DataType>, st: St)
    requires forall i :: 0 <= i < |ds| ==> DataTypeFits(ds[i])
    requires At(st, DataTypeBodies(ds)) && st.limits.Unlimited?
    ensures Skips(SkipEntries(DATA_TYPE_FORMAT, |ds|, st), |DataTypeBodies(ds)|)
    decreases ds
  {
    hide Holds;
    hide SkipEntry;
    hide DataTypeBody;
    hide DataTypeFits;
    if ds != [] {
      AtConcat(st, DataTypeBody(ds[0]), DataTypeBodies(ds[1..]));
      SkipsDataTypeBody(ds[0], st);
      SkipsDataTypeBodies(ds[1..], SkipEntry(DATA_TYPE_FORMAT, st).st);
    }
  }

  /** Whole codas. */
  lemma SkipsCoda(c: Coda, st: St)
    requires CodaFits(c) && At(st, WriteCoda(c)) && st.limits.Unlimited?
    ensures Skips(SkipData(st), |WriteCoda(c)|)
  {
    AtConcat(st, HeaderBytes(DataHeader(1, CODA_FORMAT)), CodaBody(c));
    SkipsCodaBody(c, Inside(st));
    SkipsOneData(DataHeader(1, CODA_FORMAT), CodaBody(c), st);
  }

  lemma SkipsCodaBody(c: Coda, st: St)
    requires CodaFits(c) && At(st, CodaBody(c)) && st.limits.Unlimited?
    ensures Skips(SkipEntry(CODA_FORMAT, st), |CodaBody(c)|)
  {
    hide Holds;
    hide SkipData;
    hide WriteText;
    hide WriteDocs;
    hide DataTypeBodies;
    var header := DataHeader(|c.data|, DATA_TYPE_FORMAT);
    var data := HeaderBytes(header) + DataTypeBodies(c.data);
    var afterLocal := WriteDocs(c.docs) + data;
    var afterGlobal := WriteText(c.localName) + afterLocal;
    var st1 := SkipsText(c.globalName, afterGlobal, st);
    var st2 := SkipsText(c.localName, afterLocal, st1);
    var st3 := SkipsDocs(c.docs, data, st2);
    AtConcat(st3, HeaderBytes(header), DataTypeBodies(c.data));
    SkipsDataTypeBodies(c.data, Inside(st3));
    SkipsFramed(header, DataTypeBodies(c.data), st3);
    LastField(data, st3);
    NextField(2, WriteDocs(c.docs), data, st2);
    NextField(3, WriteText(c.localName), afterLocal, st1);
    NextField(4, WriteText(c.globalName), afterGlobal, st);
  }
}
