/** Schema descriptions survive a round trip exactly when every data type nested in them has
    an ordinal of its own. */
module SchemaTrip {
  import opened Bytes
  import opened Wire
  import opened Reader
  import opened Extent
  import opened Scalars
  import opened Wrappers
  import opened DynamicTrip
  import opened Framing
  import C = Codec
  import Compatibility
  import Guarantees
  import Evolution
  import opened Schema

  /** Every nested data type has an ordinal that is not a built-in type's. */
  predicate Describable(t: Type) {
    match t
    case Array(_, elem) => Describable(elem)
    case Data(data) => !BuiltIn(Ordinal(t)) && DescribableFields(data.blobFields) && DescribableFields(data.dataFields)
    case List(elem) => Describable(elem)
    case Map(key, value) => Describable(key) && Describable(value)
    case _ => true
  }

  predicate DescribableFields(fs: seq<DataField>) {
    forall i :: 0 <= i < |fs| ==> Describable(fs[i].typing)
  }

  predicate DescribableData(d: DataType) {
    DescribableFields(d.blobFields) && DescribableFields(d.dataFields)
  }

  /** Decoding gives `v` from the next `n` bytes if `ok`, and an error if not. */
  predicate Trips<T(==)>(r: Res<T>, v: T, st: St, n: nat, ok: bool) {
    (ok ==> Decodes(r, v, st, n)) && (!ok ==> r.Err?)
  }

  lemma EnterAt(header: DataHeader, body: seq<byte>, st: St)
    requires At(st, HeaderBytes(header) + body) && st.limits.Unlimited?
    ensures EnterScope(st).Ok? && ReadHeader(EnterScope(st).st) == Ok(header, Inside(st))
    ensures At(Inside(st), body) && Inside(st).pos == st.pos + HEADER_SIZE && Inside(st).limits.Unlimited?
  {
    AtConcat(st, HeaderBytes(header), body);
    HeaderAt(header, EnterScope(st).st);
  }

  // The parts of the static codec.

  lemma TextFieldAt(s: seq<byte>, rest: seq<byte>, n: nat, st: St) returns (mid: St)
    requires TextFits(s) && n > 0 && At(st, WriteText(s) + rest) && st.limits.Unlimited?
    ensures ReadTextField(n, st) == Ok(s, mid)
    ensures mid.limits.Unlimited? && mid.pos == st.pos + |WriteText(s)| && At(mid, rest)
  {
    AtConcat(st, WriteText(s), rest);
    Guarantees.RoundTrip(C.Text, C.VText(s), st);
    mid := C.ReadData(C.Text, st).st;
  }

  lemma DocsFieldAt(docs: Option<seq<byte>>, rest: seq<byte>, n: nat, st: St) returns (mid: St)
    requires DocsFit(docs) && n > 0 && At(st, WriteDocs(docs) + rest) && st.limits.Unlimited?
    ensures ReadDocsField(n, st) == Ok(docs, mid)
    ensures mid.limits.Unlimited? && mid.pos == st.pos + |WriteDocs(docs)| && At(mid, rest)
  {
    hide C.ReadData;
    hide C.Write;
    AtConcat(st, WriteDocs(docs), rest);
    Guarantees.RoundTrip(C.Option(C.Text), DocsValue(docs), st);
    mid := C.ReadData(C.Option(C.Text), st).st;
  }

  lemma FlagsAt(optional: bool, flattened: bool, rest: seq<byte>, st: St) returns (mid: St)
    requires At(st, WriteFlags(optional, flattened) + rest) && st.limits.Unlimited?
    ensures C.ReadBlobs(FLAGS, 2, st) == Ok(Flags(optional, flattened), mid) && C.LeftBlob(FLAGS, 2) == 0
    ensures mid.limits.Unlimited? && mid.pos == st.pos + |WriteFlags(optional, flattened)| && At(mid, rest)
  {
    AtConcat(st, WriteFlags(optional, flattened), rest);
    FlagsFit(optional, flattened);
    Evolution.SameStartSelf(FLAGS);
    Evolution.ReconcileSelfBlobs(FLAGS, Flags(optional, flattened));
    assert C.TotalSize(FLAGS) == 2 by {
      assert FLAGS[1..] == [C.Scalar(Bool)];
    }
    BlobsSize(FLAGS, Flags(optional, flattened));
    Compatibility.BlobFieldsAt(FLAGS, FLAGS, Flags(optional, flattened), st);
    mid := C.ReadBlobs(FLAGS, 2, st).st;
  }

  lemma FormatAt(f: Format, st: St)
    requires At(st, WriteFormat(f)) && st.limits.Unlimited?
    ensures Decodes(ReadFormat(st), f, st, |WriteFormat(f)|)
  {
    match f
    case Blob(size) =>
      EnterAt(DataHeader(1, DataFormat(2, 0, 1)), ScalarBytes(U16, size), st);
      ScalarAt(U16, size, Inside(st));
    case Data(format) =>
      EnterAt(DataHeader(1, DataFormat(4, 0, 2)), FormatBytes(format), st);
      FormatBytesAt(format, Inside(st));
    case Sequence(format) =>
      EnterAt(DataHeader(1, DataFormat(4, 0, 3)), FormatBytes(format), st);
      FormatBytesAt(format, Inside(st));
    case Fluid => EnterAt(DataHeader(1, DataFormat(0, 0, 4)), [], st);
  }

  lemma FormatBytesAt(format: DataFormat, st: St)
    requires At(st, FormatBytes(format)) && st.limits.Unlimited?
    ensures DecodeFormat(2, st) == Ok(Format.Data(format), Moved(st, 4))
    ensures DecodeFormat(3, st) == Ok(Sequence(format), Moved(st, 4))
  {
    var rest := ScalarBytes(U8, format.dataFields) + ScalarBytes(U8, format.ordinal);
    AtConcat(st, ScalarBytes(U16, format.blobSize), rest);
    AtConcat(Moved(st, 2), ScalarBytes(U8, format.dataFields), ScalarBytes(U8, format.ordinal));
    ScalarAt(U16, format.blobSize, st);
    ScalarAt(U8, format.dataFields, Moved(st, 2));
    ScalarAt(U8, format.ordinal, Moved(st, 3));
  }

  // The mutually recursive types.

  lemma {:induction false} TypeTrips(t: Type, st: St)
    requires TypeFits(t) && At(st, WriteType(t)) && st.limits.Unlimited?
    ensures Trips(ReadType(st), t, st, |WriteType(t)|, Describable(t))
    decreases t, 3
  {
    EnterAt(TypeHeader(t), TypeBody(t), st);
    BodyTrips(t, Inside(st));
  }

  lemma {:induction false} BodyTrips(t: Type, st: St)
    requires TypeFits(t) && At(st, TypeBody(t)) && st.limits.Unlimited?
    ensures Trips(DecodeType(TypeHeader(t), st), t, st, |TypeBody(t)|, Describable(t))
    decreases t, 2
  {
    hide Holds;
    hide ReadType;
    hide ReadDataType;
    match t
    case Array(count, elem) =>
      AtConcat(st, ScalarBytes(U16, count), WriteType(elem));
      ScalarAt(U16, count, st);
      TypeTrips(elem, Moved(st, 2));
    case Data(data) => DataTrips(t, st);
    case List(elem) => TypeTrips(elem, st);
    case Map(key, value) =>
      AtConcat(st, WriteType(key), WriteType(value));
      TypeTrips(key, st);
      if Describable(key) {
        TypeTrips(value, ReadType(st).st);
      }
    case Number(kind) => KindOfOrdinal(kind);
    case _ =>
  }

  /** A nested data type is recognised by its ordinal, or not at all. */
  lemma {:induction false} DataTrips(t: Type, st: St)
    requires t.Data? && TypeFits(t) && At(st, TypeBody(t)) && st.limits.Unlimited?
    ensures Trips(DecodeType(TypeHeader(t), st), t, st, |TypeBody(t)|, Describable(t))
    decreases t, 1
  {
    if BuiltIn(Ordinal(t)) {
      DataIsNotType(t.data, st);
    } else {
      DataTypeTrips(t.data, st);
    }
  }

  lemma DataIsNotType(d: DataType, st: St)
    requires DataTypeFits(d) && At(st, WriteDataType(d)) && st.limits.Unlimited?
    ensures ReadType(st).Err?
  {
    EnterAt(DataHeader(1, DATA_TYPE_FORMAT), DataTypeBody(d), st);
  }

  lemma {:induction false} DataTypeTrips(d: DataType, st: St)
    requires DataTypeFits(d) && At(st, WriteDataType(d)) && st.limits.Unlimited?
    ensures Trips(ReadDataType(st), d, st, |WriteDataType(d)|, DescribableData(d))
    decreases d, 4
  {
    EnterAt(DataHeader(1, DATA_TYPE_FORMAT), DataTypeBody(d), st);
    DataTypeBodyTrips(d, Inside(st));
  }

  lemma {:induction false} DataTypeBodyTrips(d: DataType, st: St)
    requires DataTypeFits(d) && At(st, DataTypeBody(d)) && st.limits.Unlimited?
    ensures Trips(DecodeDataType(DATA_TYPE_FORMAT, st), d, st, |DataTypeBody(d)|, DescribableData(d))
    decreases d, 3
  {
    hide Holds;
    hide ReadFields;
    hide ReadFormat;
    hide ReadTextField;
    hide ReadDocsField;
    var afterBlobs := WriteFields(d.dataFields) + WriteFormat(d.format);
    var afterDocs := WriteFields(d.blobFields) + afterBlobs;
    var st0 := TextFieldAt(d.name, WriteDocs(d.docs) + afterDocs, 5, st);
    var st1 := DocsFieldAt(d.docs, afterDocs, 4, st0);
    AtConcat(st1, WriteFields(d.blobFields), afterBlobs);
    FieldsTrip(d.blobFields, st1);
    if DescribableFields(d.blobFields) {
      var st2 := ReadFields(st1).st;
      AtConcat(st2, WriteFields(d.dataFields), WriteFormat(d.format));
      FieldsTrip(d.dataFields, st2);
      if DescribableFields(d.dataFields) {
        FormatAt(d.format, ReadFields(st2).st);
      }
    }
  }

  lemma {:induction false} FieldsTrip(fs: seq<DataField>, st: St)
    requires FieldsFit(fs) && At(st, WriteFields(fs)) && st.limits.Unlimited?
    ensures Trips(ReadFields(st), fs, st, |WriteFields(fs)|, DescribableFields(fs))
    decreases fs, 1
  {
    EnterAt(DataHeader(|fs|, FIELD_FORMAT), FieldBodies(fs), st);
    FieldBodiesTrip(fs, Inside(st));
  }

  lemma {:induction false} FieldBodiesTrip(fs: seq<DataField>, st: St)
    requires forall i :: 0 <= i < |fs| ==> FieldFits(fs[i])
    requires At(st, FieldBodies(fs)) && st.limits.Unlimited?
    ensures Trips(DecodeFields(FIELD_FORMAT, |fs|, st), fs, st, |FieldBodies(fs)|, DescribableFields(fs))
    decreases fs, 0
  {
    hide Holds;
    hide DecodeField;
    hide FieldBody;
    hide FieldFits;
    if fs != [] {
      AtConcat(st, FieldBody(fs[0]), FieldBodies(fs[1..]));
      FieldTrips(fs[0], st);
      if Describable(fs[0].typing) {
        FieldBodiesTrip(fs[1..], DecodeField(FIELD_FORMAT, st).st);
        assert [fs[0]] + fs[1..] == fs;
        assert DescribableFields(fs) <==> DescribableFields(fs[1..]) by {
          forall i | 1 <= i < |fs|
            ensures fs[i] == fs[1..][i - 1]
          {}
        }
      }
    }
  }

  lemma {:induction false} FieldTrips(f: DataField, st: St)
    requires FieldFits(f) && At(st, FieldBody(f)) && st.limits.Unlimited?
    ensures Trips(DecodeField(FIELD_FORMAT, st), f, st, |FieldBody(f)|, Describable(f.typing))
    decreases f, 4
  {
    hide Holds;
    hide ReadType;
    hide WriteType;
    hide ReadTextField;
    hide ReadDocsField;
    hide C.ReadBlobs;
    hide C.LeftBlob;
    var afterName := WriteDocs(f.docs) + WriteType(f.typing);
    var st1 := FlagsAt(f.optional, f.flattened, WriteText(f.name) + afterName, st);
    var st0 := TextFieldAt(f.name, afterName, 3, st1);
    var st2 := DocsFieldAt(f.docs, WriteType(f.typing), 2, st0);
    TypeTrips(f.typing, st2);
  }

  /** Descriptions round-trip, exactly: of the types that encode, those that decode back to
      themselves are the describable ones, and the others are rejected. */
  lemma TypeRoundTripsIffDescribable(t: Type, st: St)
    requires TypeFits(t) && At(st, WriteType(t)) && st.limits.Unlimited?
    ensures Describable(t) <==> ReadType(st).Ok?
    ensures Describable(t) ==> Decodes(ReadType(st), t, st, |WriteType(t)|)
  {
    TypeTrips(t, st);
  }

  // Whole codas. Their data types may have any ordinal; only types nested in fields need one of their own.

  ghost predicate CodaFits(c: Coda) {
    && TextFits(c.globalName) && TextFits(c.localName) && DocsFit(c.docs) && |c.data| <= 0xFFFF_FFFF
    && forall i :: 0 <= i < |c.data| ==> DataTypeFits(c.data[i])
  }

  ghost function DataTypeBodies(ds: seq<DataType>): seq<byte>
    requires forall i :: 0 <= i < |ds| ==> DataTypeFits(ds[i])
  {
    if ds == [] then [] else DataTypeBody(ds[0]) + DataTypeBodies(ds[1..])
  }

  /** `encode` of a `Coda`, after its header. */
  ghost function CodaBody(c: Coda): seq<byte>
    requires CodaFits(c)
  {
    WriteText(c.globalName) + (WriteText(c.localName) + (WriteDocs(c.docs)
    + (HeaderBytes(DataHeader(|c.data|, DATA_TYPE_FORMAT)) + DataTypeBodies(c.data))))
  }

  ghost function WriteCoda(c: Coda): seq<byte>
    requires CodaFits(c)
  {
    HeaderBytes(DataHeader(1, CODA_FORMAT)) + CodaBody(c)
  }

  function DecodeDataTypes(format: DataFormat, count: nat, st: St): (r: Res<seq<DataType>>)
    ensures r.Ok? ==> Ahead(st, r.st)
  {
    if count == 0 then Ok([], st)
    else
      match DecodeDataType(format, st)
      case Err(e) => Err(e)
      case Ok(d, st') =>
      match DecodeDataTypes(format, count - 1, st')
      case Err(e) => Err(e)
      case Ok(rest, st'') => Ok([d] + rest, st'')
  }

  /** `read_data_into` of a `Vec<DataType>`. */
  function ReadDataTypes(st: St): (r: Res<seq<DataType>>)
    ensures r.Ok? ==> Ahead(st, r.st)
  {
    match EnterScope(st)
    case Err(e) => Err(e)
    case Ok(_, st1) =>
    match ReadHeader(st1)
    case Err(e) => Err(e)
    case Ok(header, st2) =>
      var bad := C.EnsureHeader(Format.Sequence(DATA_TYPE_FORMAT), header);
      if bad.Some? then Err(bad.value)
      else
        match DecodeDataTypes(header.format, header.count, st2)
        case Err(e) => Err(e)
        case Ok(ds, st3) => Ok(ds, ExitScope(st3))
  }

  function ReadDataTypesField(remaining: nat, st: St): (r: Res<seq<DataType>>)
    ensures r.Ok? ==> Ahead(st, r.st)
  {
    if remaining > 0 then ReadDataTypes(st) else Ok([], st)
  }

  /** `Coda::decode`. */
  function DecodeCoda(format: DataFormat, st: St): (r: Res<Coda>)
    ensures r.Ok? ==> Ahead(st, r.st)
  {
    var n := format.dataFields;
    match ReadTextField(n, st)
    case Err(e) => Err(e)
    case Ok(globalName, st1) =>
    match ReadTextField(Minus(n, 1), st1)
    case Err(e) => Err(e)
    case Ok(localName, st2) =>
    match ReadDocsField(Minus(n, 2), st2)
    case Err(e) => Err(e)
    case Ok(docs, st3) =>
    match ReadDataTypesField(Minus(n, 3), st3)
    case Err(e) => Err(e)
    case Ok(data, st4) =>
    match C.Finish(format.blobSize, Minus(n, 4), st4)
    case Err(e) => Err(e)
    case Ok(_, st5) => Ok(Coda(globalName, localName, docs, data), st5)
  }

  function ReadCoda(st: St): (r: Res<Coda>)
    ensures r.Ok? ==> Ahead(st, r.st)
  {
    match EnterScope(st)
    case Err(e) => Err(e)
    case Ok(_, st1) =>
    match ReadHeader(st1)
    case Err(e) => Err(e)
    case Ok(header, st2) =>
      var bad := C.EnsureHeader(Format.Data(CODA_FORMAT), header);
      if bad.Some? then Err(bad.value)
      else
        match DecodeCoda(header.format, st2)
        case Err(e) => Err(e)
        case Ok(c, st3) => Ok(c, ExitScope(st3))
  }

  predicate AllDescribable(ds: seq<DataType>) {
    forall i :: 0 <= i < |ds| ==> DescribableData(ds[i])
  }

  lemma {:induction false} DataTypesTrip(ds: seq<DataType>, st: St)
    requires forall i :: 0 <= i < |ds| ==> DataTypeFits(ds[i])
    requires At(st, DataTypeBodies(ds)) && st.limits.Unlimited?
    ensures Trips(DecodeDataTypes(DATA_TYPE_FORMAT, |ds|, st), ds, st, |DataTypeBodies(ds)|, AllDescribable(ds))
    decreases ds
  {
    hide Holds;
    hide DecodeDataType;
    hide DataTypeBody;
    hide DataTypeFits;
    hide DescribableData;
    if ds != [] {
      AtConcat(st, DataTypeBody(ds[0]), DataTypeBodies(ds[1..]));
      DataTypeBodyTrips(ds[0], st);
      if DescribableData(ds[0]) {
        DataTypesTrip(ds[1..], DecodeDataType(DATA_TYPE_FORMAT, st).st);
        assert [ds[0]] + ds[1..] == ds;
        assert AllDescribable(ds) <==> AllDescribable(ds[1..]) by {
          forall i | 1 <= i < |ds|
            ensures ds[i] == ds[1..][i - 1]
          {}
        }
      }
    }
  }

  lemma ReadDataTypesAt(ds: seq<DataType>, st: St)
    requires |ds| <= 0xFFFF_FFFF && forall i :: 0 <= i < |ds| ==> DataTypeFits(ds[i])
    requires At(st, HeaderBytes(DataHeader(|ds|, DATA_TYPE_FORMAT)) + DataTypeBodies(ds)) && st.limits.Unlimited?
    ensures Trips(ReadDataTypes(st), ds, st, HEADER_SIZE + |DataTypeBodies(ds)|, AllDescribable(ds))
  {
    EnterAt(DataHeader(|ds|, DATA_TYPE_FORMAT), DataTypeBodies(ds), st);
    DataTypesTrip(ds, Inside(st));
  }

  lemma CodaBodyTrips(c: Coda, st: St)
    requires CodaFits(c) && At(st, CodaBody(c)) && st.limits.Unlimited?
    ensures Trips(DecodeCoda(CODA_FORMAT, st), c, st, |CodaBody(c)|, AllDescribable(c.data))
  {
    hide Holds;
    hide ReadTextField;
    hide ReadDocsField;
    hide ReadDataTypes;
    hide DataTypeBodies;
    hide DescribableData;
    var last := HeaderBytes(DataHeader(|c.data|, DATA_TYPE_FORMAT)) + DataTypeBodies(c.data);
    var st1 := TextFieldAt(c.globalName, WriteText(c.localName) + (WriteDocs(c.docs) + last), 4, st);
    var st2 := TextFieldAt(c.localName, WriteDocs(c.docs) + last, 3, st1);
    var st3 := DocsFieldAt(c.docs, last, 2, st2);
    ReadDataTypesAt(c.data, st3);
  }

  /** A coda's description decodes to the coda iff its data types are describable, and is
      rejected otherwise. */
  lemma CodaRoundTripsIffDescribable(c: Coda, st: St)
    requires CodaFits(c) && At(st, WriteCoda(c)) && st.limits.Unlimited?
    ensures AllDescribable(c.data) <==> ReadCoda(st).Ok?
    ensures AllDescribable(c.data) ==> Decodes(ReadCoda(st), c, st, |WriteCoda(c)|)
  {
    EnterAt(DataHeader(1, CODA_FORMAT), CodaBody(c), st);
    CodaBodyTrips(c, Inside(st));
  }

  // Headers of descriptions.

  /** A description is accepted only under the header its type is written with; that of a data
      type may have any ordinal that is not built in. */
  lemma TypeChecksHeader(h: DataHeader, st: St)
    requires DecodeType(h, st).Ok?
    ensures var t := DecodeType(h, st).value;
            && h.count == 1
            && h.format.blobSize == TypeHeader(t).format.blobSize && h.format.dataFields == TypeHeader(t).format.dataFields
            && (if t.Data? then !BuiltIn(h.format.ordinal) else h.format.ordinal == Ordinal(t))
  {
    hide ReadType;
    hide ReadDataType;
  }

  // Where the parts of a description are.

  /** A format is described by the bytes that state it in a header. */
  lemma FormatBytesAreHeaders(format: DataFormat, count: u32)
    ensures FormatBytes(format) == HeaderBytes(DataHeader(count, format))[4..]
  {
    assert ToLittleEndian(format.dataFields, 1) == [format.dataFields] + ToLittleEndian(0, 0);
    assert ToLittleEndian(format.ordinal, 1) == [format.ordinal] + ToLittleEndian(0, 0);
  }

  /** A field: a byte for optional, a byte for flattened, its name, its docs, its type. */
  lemma FieldLayout(f: DataField, st: St) returns (afterName: St, afterDocs: St)
    requires FieldFits(f) && At(st, FieldBody(f)) && st.limits.Unlimited?
    ensures st.pos + 2 <= |st.input.bytes|
    ensures st.input.bytes[st.pos] == (if f.optional then 1 else 0)
    ensures st.input.bytes[st.pos + 1] == (if f.flattened then 1 else 0)
    ensures ReadTextField(1, Moved(st, 2)) == Ok(f.name, afterName)
    ensures ReadDocsField(1, afterName) == Ok(f.docs, afterDocs)
    ensures At(afterDocs, WriteType(f.typing)) && afterDocs.pos + |WriteType(f.typing)| == st.pos + |FieldBody(f)|
  {
    FlagBytes(f.optional, f.flattened);
    hide C.Writes;
    hide WriteType;
    hide WriteText;
    hide WriteDocs;
    hide ReadTextField;
    hide ReadDocsField;
    var flags := WriteFlags(f.optional, f.flattened);
    var rest := WriteText(f.name) + (WriteDocs(f.docs) + WriteType(f.typing));
    AtConcat(st, flags, rest);
    AtIsSlice(st, flags);
    assert st.input.bytes[st.pos..st.pos + 2] == flags;
    afterName := TextFieldAt(f.name, WriteDocs(f.docs) + WriteType(f.typing), 1, Moved(st, 2));
    afterDocs := DocsFieldAt(f.docs, WriteType(f.typing), 1, afterName);
  }

  lemma FlagBytes(optional: bool, flattened: bool)
    ensures WriteFlags(optional, flattened) == [if optional then 1 else 0, if flattened then 1 else 0]
  {
    FlagsFit(optional, flattened);
    var vs := Flags(optional, flattened);
    assert FLAGS[1..] == [C.Scalar(Bool)] && vs[1..] == [vs[1]];
    assert C.Writes(FLAGS, vs) == C.Write(FLAGS[0], vs[0]) + C.Writes(FLAGS[1..], vs[1..]);
    assert C.Writes(FLAGS[1..], vs[1..]) == C.Write(FLAGS[1], vs[1]) + C.Writes([], []);
    OneByte(vs[0].n);
    OneByte(vs[1].n);
  }

  lemma OneByte(n: byte)
    ensures ScalarBytes(Bool, n) == [n]
  {
    assert ToLittleEndian(n, 1) == [n % 256] + ToLittleEndian(n / 256, 0);
  }

  /** A data type: its name, its docs, its fixed-size fields, its structured ones, its format. */
  lemma DataTypeLayout(d: DataType, st: St) returns (afterName: St, afterDocs: St)
    requires DataTypeFits(d) && At(st, DataTypeBody(d)) && st.limits.Unlimited?
    ensures ReadTextField(1, st) == Ok(d.name, afterName)
    ensures ReadDocsField(1, afterName) == Ok(d.docs, afterDocs)
    ensures At(afterDocs, WriteFields(d.blobFields))
    ensures At(Moved(afterDocs, |WriteFields(d.blobFields)|), WriteFields(d.dataFields))
    ensures At(Moved(afterDocs, |WriteFields(d.blobFields)| + |WriteFields(d.dataFields)|), WriteFormat(d.format))
  {
    hide WriteText;
    hide WriteDocs;
    hide WriteFields;
    hide WriteFormat;
    hide ReadTextField;
    hide ReadDocsField;
    var afterBlobs := WriteFields(d.dataFields) + WriteFormat(d.format);
    var fields := WriteFields(d.blobFields) + afterBlobs;
    afterName := TextFieldAt(d.name, WriteDocs(d.docs) + fields, 1, st);
    afterDocs := DocsFieldAt(d.docs, fields, 1, afterName);
    AtConcat(afterDocs, WriteFields(d.blobFields), afterBlobs);
    AtConcat(Moved(afterDocs, |WriteFields(d.blobFields)|), WriteFields(d.dataFields), WriteFormat(d.format));
  }

  /** A coda: its global name, its local name, its docs, its data types in order. */
  lemma CodaLayout(c: Coda, st: St) returns (afterGlobal: St, afterLocal: St, afterDocs: St)
    requires CodaFits(c) && At(st, CodaBody(c)) && st.limits.Unlimited?
    ensures ReadTextField(1, st) == Ok(c.globalName, afterGlobal)
    ensures ReadTextField(1, afterGlobal) == Ok(c.localName, afterLocal)
    ensures ReadDocsField(1, afterLocal) == Ok(c.docs, afterDocs)
    ensures At(afterDocs, HeaderBytes(DataHeader(|c.data|, DATA_TYPE_FORMAT)) + DataTypeBodies(c.data))
  {
    hide WriteText;
    hide WriteDocs;
    hide DataTypeBodies;
    hide ReadTextField;
    hide ReadDocsField;
    var data := HeaderBytes(DataHeader(|c.data|, DATA_TYPE_FORMAT)) + DataTypeBodies(c.data);
    afterGlobal := TextFieldAt(c.globalName, WriteText(c.localName) + (WriteDocs(c.docs) + data), 1, st);
    afterLocal := TextFieldAt(c.localName, WriteDocs(c.docs) + data, 1, afterGlobal);
    afterDocs := DocsFieldAt(c.docs, data, 1, afterLocal);
  }
}
