/** Codas described as data: the codecs of `Type`, `DataType`, `DataField`, `Format` and
    `Coda`, which contain each other. */
module Schema {
  import opened Bytes
  import opened Wire
  import opened Reader
  import opened Extent
  import opened Scalars
  import opened Wrappers
  import opened DynamicTrip
  import opened Framing
  import C = Codec
  import Guarantees
  import Dynamic

  datatype Type =
    | Unspecified
    | Number(kind: Kind)
    | Text
    | Array(count: u16, elem: Type)
    | Data(data: DataType)
    | List(elem: Type)
    | Map(key: Type, value: Type)

  datatype DataType = DataType(
    name: seq<byte>, docs: Option<seq<byte>>, blobFields: seq<DataField>, dataFields: seq<DataField>, format: Format)

  datatype DataField = DataField(
    name: seq<byte>, docs: Option<seq<byte>>, typing: Type, optional: bool, flattened: bool)

  datatype Coda = Coda(globalName: seq<byte>, localName: seq<byte>, docs: Option<seq<byte>>, data: seq<DataType>)

  /** `Type::ordinal`. */
  function Ordinal(t: Type): byte {
    match t
    case Unspecified => UNSPECIFIED_ORDINAL
    case Number(kind) => OrdinalOf(kind)
    case Text => TEXT_ORDINAL
    case Array(_, _) => ARRAY_ORDINAL
    case Data(data) => data.format.AsDataFormat().ordinal
    case List(_) => LIST_ORDINAL
    case Map(_, _) => MAP_ORDINAL
  }

  /** Ordinals of types that describe themselves by their ordinal alone, or by their shape. */
  predicate BuiltIn(ordinal: byte) {
    ordinal in {UNSPECIFIED_ORDINAL, TEXT_ORDINAL, ARRAY_ORDINAL, LIST_ORDINAL, MAP_ORDINAL} || KindOf(ordinal).Some?
  }

  // What fits the wire.

  ghost predicate TextFits(s: seq<byte>) {
    Utf8(s) && |s| <= Dynamic.MAX_COUNT
  }

  ghost predicate DocsFit(docs: Option<seq<byte>>) {
    docs.Some? ==> TextFits(docs.value)
  }

  ghost predicate TypeFits(t: Type) {
    match t
    case Array(_, elem) => TypeFits(elem)
    case Data(data) => DataTypeFits(data)
    case List(elem) => TypeFits(elem)
    case Map(key, value) => TypeFits(key) && TypeFits(value)
    case _ => true
  }

  ghost predicate DataTypeFits(d: DataType) {
    TextFits(d.name) && DocsFit(d.docs) && FieldsFit(d.blobFields) && FieldsFit(d.dataFields)
  }

  ghost predicate FieldsFit(fs: seq<DataField>) {
    |fs| <= Dynamic.MAX_COUNT && forall i :: 0 <= i < |fs| ==> FieldFits(fs[i])
  }

  ghost predicate FieldFits(f: DataField) {
    TextFits(f.name) && DocsFit(f.docs) && TypeFits(f.typing)
  }

  // Encoding.

  const DATA_TYPE_FORMAT := DataFormat(0, 5, 2)
  const FIELD_FORMAT := DataFormat(2, 3, 3)
  const CODA_FORMAT := DataFormat(0, 4, 1)

  function DocsValue(docs: Option<seq<byte>>): C.Value {
    match docs
    case None => C.VNone
    case Some(text) => C.VSome(C.VText(text))
  }

  const FLAGS := [C.Scalar(Bool), C.Scalar(Bool)]

  function Flags(optional: bool, flattened: bool): seq<C.Value> {
    [C.VNumber(if optional then 1 else 0), C.VNumber(if flattened then 1 else 0)]
  }

  function TypeHeader(t: Type): DataHeader {
    match t
    case Array(_, _) => DataHeader(1, DataFormat(2, 1, Ordinal(t)))
    case Data(_) => DataHeader(1, DataFormat(0, 1, Ordinal(t)))
    case List(_) => DataHeader(1, DataFormat(0, 1, Ordinal(t)))
    case Map(_, _) => DataHeader(1, DataFormat(0, 2, Ordinal(t)))
    case _ => DataHeader(1, DataFormat(0, 0, Ordinal(t)))
  }

  lemma FlagsFit(optional: bool, flattened: bool)
    ensures C.EachFits(FLAGS, Flags(optional, flattened))
    ensures forall i :: 0 <= i < |FLAGS| ==> C.IsBlob(FLAGS[i]) && C.WellFormed(FLAGS[i])
  {}

  ghost function WriteText(s: seq<byte>): seq<byte>
    requires TextFits(s)
  {
    C.Write(C.Text, C.VText(s))
  }

  ghost function WriteDocs(docs: Option<seq<byte>>): seq<byte>
    requires DocsFit(docs)
  {
    C.Write(C.Option(C.Text), DocsValue(docs))
  }

  ghost function WriteFlags(optional: bool, flattened: bool): seq<byte> {
    FlagsFit(optional, flattened);
    C.Writes(FLAGS, Flags(optional, flattened))
  }

  /** `write_data` of a `Type`. */
  ghost function WriteType(t: Type): seq<byte>
    requires TypeFits(t)
    decreases t, 1
  {
    HeaderBytes(TypeHeader(t)) + TypeBody(t)
  }

  ghost function TypeBody(t: Type): seq<byte>
    requires TypeFits(t)
    decreases t, 0
  {
    match t
    case Array(count, elem) => ScalarBytes(U16, count) + WriteType(elem)
    case Data(data) => WriteDataType(data)
    case List(elem) => WriteType(elem)
    case Map(key, value) => WriteType(key) + WriteType(value)
    case _ => []
  }

  ghost function WriteDataType(d: DataType): seq<byte>
    requires DataTypeFits(d)
    decreases d, 1
  {
    HeaderBytes(DataHeader(1, DATA_TYPE_FORMAT)) + DataTypeBody(d)
  }

  ghost function DataTypeBody(d: DataType): seq<byte>
    requires DataTypeFits(d)
    decreases d, 0
  {
    WriteText(d.name) + (WriteDocs(d.docs)
    + (WriteFields(d.blobFields) + (WriteFields(d.dataFields) + WriteFormat(d.format))))
  }

  /** `write_data` of a `Vec<DataField>`, whose items are packed. */
  ghost function WriteFields(fs: seq<DataField>): seq<byte>
    requires FieldsFit(fs)
    decreases fs, 1
  {
    HeaderBytes(DataHeader(|fs|, FIELD_FORMAT)) + FieldBodies(fs)
  }

  ghost function FieldBodies(fs: seq<DataField>): seq<byte>
    requires forall i :: 0 <= i < |fs| ==> FieldFits(fs[i])
    decreases fs, 0
  {
    if fs == [] then [] else FieldBody(fs[0]) + FieldBodies(fs[1..])
  }

  ghost function FieldBody(f: DataField): seq<byte>
    requires FieldFits(f)
    decreases f
  {
    WriteFlags(f.optional, f.flattened) + (WriteText(f.name) + (WriteDocs(f.docs) + WriteType(f.typing)))
  }

  function FormatBytes(format: DataFormat): seq<byte> {
    ScalarBytes(U16, format.blobSize) + (ScalarBytes(U8, format.dataFields) + ScalarBytes(U8, format.ordinal))
  }

  /** `write_data` of a `Format`. */
  function WriteFormat(f: Format): seq<byte> {
    match f
    case Blob(size) => HeaderBytes(DataHeader(1, DataFormat(2, 0, 1))) + ScalarBytes(U16, size)
    case Data(format) => HeaderBytes(DataHeader(1, DataFormat(4, 0, 2))) + FormatBytes(format)
    case Sequence(format) => HeaderBytes(DataHeader(1, DataFormat(4, 0, 3))) + FormatBytes(format)
    case Fluid => HeaderBytes(DataHeader(1, DataFormat(0, 0, 4))) + []
  }

  // Decoding.

  /** `read_data_into` of a `Type`. */
  function ReadType(st: St): (r: Res<Type>)
    ensures r.Ok? ==> Ahead(st, r.st)
    decreases Left(st), 0, 0
  {
    match EnterScope(st)
    case Err(e) => Err(e)
    case Ok(_, st1) =>
    match ReadHeader(st1)
    case Err(e) => Err(e)
    case Ok(header, st2) =>
    match DecodeType(header, st2)
    case Err(e) => Err(e)
    case Ok(t, st3) => Ok(t, ExitScope(st3))
  }

  /** `Type::decode`. */
  function DecodeType(header: DataHeader, st: St): (r: Res<Type>)
    ensures r.Ok? ==> Ahead(st, r.st)
    decreases Left(st), 9, 0
  {
    var ordinal := header.format.ordinal;
    var blob, fields := header.format.blobSize, header.format.dataFields;
    if header.count != 1 then Err(UnexpectedDataFormat)
    else if ordinal == ARRAY_ORDINAL then
      if blob != 2 || fields != 1 then Err(UnexpectedDataFormat)
      else
        match DecodeScalar(U16, st)
        case Err(e) => Err(e)
        case Ok(count, st') =>
        match ReadType(st')
        case Err(e) => Err(e)
        case Ok(elem, st'') => Ok(Array(count, elem), st'')
    else if ordinal == LIST_ORDINAL then
      if blob != 0 || fields != 1 then Err(UnexpectedDataFormat)
      else
        match ReadType(st)
        case Err(e) => Err(e)
        case Ok(elem, st') => Ok(List(elem), st')
    else if ordinal == MAP_ORDINAL then
      if blob != 0 || fields != 2 then Err(UnexpectedDataFormat)
      else
        match ReadType(st)
        case Err(e) => Err(e)
        case Ok(key, st') =>
        match ReadType(st')
        case Err(e) => Err(e)
        case Ok(value, st'') => Ok(Map(key, value), st'')
    else if BuiltIn(ordinal) then
      if blob != 0 || fields != 0 then Err(UnexpectedDataFormat)
      else Ok(if ordinal == UNSPECIFIED_ORDINAL then Unspecified
              else if ordinal == TEXT_ORDINAL then Text else Number(KindOf(ordinal).value), st)
    else if blob != 0 || fields != 1 then Err(UnexpectedDataFormat)
    else
      match ReadDataType(st)
      case Err(e) => Err(e)
      case Ok(data, st') => Ok(Type.Data(data), st')
  }

  /** `read_data_into` of a `DataType`. */
  function ReadDataType(st: St): (r: Res<DataType>)
    ensures r.Ok? ==> Ahead(st, r.st)
    decreases Left(st), 1, 0
  {
    match EnterScope(st)
    case Err(e) => Err(e)
    case Ok(_, st1) =>
    match ReadHeader(st1)
    case Err(e) => Err(e)
    case Ok(header, st2) =>
      var bad := C.EnsureHeader(Format.Data(DATA_TYPE_FORMAT), header);
      if bad.Some? then Err(bad.value)
      else
        match DecodeDataType(header.format, st2)
        case Err(e) => Err(e)
        case Ok(d, st3) => Ok(d, ExitScope(st3))
  }

  /** `FieldReader::read` of a text. */
  function ReadTextField(remaining: nat, st: St): (r: Res<seq<byte>>)
    ensures r.Ok? ==> Ahead(st, r.st)
  {
    if remaining == 0 then Ok([], st)
    else
      match C.ReadData(C.Text, st)
      case Err(e) => Err(e)
      case Ok(v, st') => Ok(if v.VText? then v.bytes else [], st')
  }

  /** `FieldReader::read` of an optional text. */
  function ReadDocsField(remaining: nat, st: St): (r: Res<Option<seq<byte>>>)
    ensures r.Ok? ==> Ahead(st, r.st)
  {
    if remaining == 0 then Ok(None, st)
    else
      match C.ReadData(C.Option(C.Text), st)
      case Err(e) => Err(e)
      case Ok(v, st') => Ok(if v.VSome? && v.value.VText? then Some(v.value.bytes) else None, st')
  }

  function Minus(a: nat, b: nat): nat {
    if a > b then a - b else 0
  }

  /** `DataType::decode`: five fields, those missing from the header left at their defaults. */
  function DecodeDataType(format: DataFormat, st: St): (r: Res<DataType>)
    ensures r.Ok? ==> Ahead(st, r.st)
    decreases Left(st), 8, 0
  {
    var n := format.dataFields;
    match ReadTextField(n, st)
    case Err(e) => Err(e)
    case Ok(name, st0) =>
    match ReadDocsField(Minus(n, 1), st0)
    case Err(e) => Err(e)
    case Ok(docs, st1) =>
    match ReadFieldsField(Minus(n, 2), st1)
    case Err(e) => Err(e)
    case Ok(blobFields, st2) =>
    match ReadFieldsField(Minus(n, 3), st2)
    case Err(e) => Err(e)
    case Ok(dataFields, st3) =>
    match ReadFormatField(Minus(n, 4), st3)
    case Err(e) => Err(e)
    case Ok(f, st4) =>
    match C.Finish(format.blobSize, Minus(n, 5), st4)
    case Err(e) => Err(e)
    case Ok(_, st5) => Ok(DataType(name, docs, blobFields, dataFields, f), st5)
  }

  function ReadFieldsField(remaining: nat, st: St): (r: Res<seq<DataField>>)
    ensures r.Ok? ==> Ahead(st, r.st)
    decreases Left(st), 3, 0
  {
    if remaining > 0 then ReadFields(st) else Ok([], st)
  }

  /** `read_data_into` of a `Vec<DataField>`. */
  function ReadFields(st: St): (r: Res<seq<DataField>>)
    ensures r.Ok? ==> Ahead(st, r.st)
    decreases Left(st), 2, 0
  {
    match EnterScope(st)
    case Err(e) => Err(e)
    case Ok(_, st1) =>
    match ReadHeader(st1)
    case Err(e) => Err(e)
    case Ok(header, st2) =>
      var bad := C.EnsureHeader(Format.Sequence(FIELD_FORMAT), header);
      if bad.Some? then Err(bad.value)
      else
        match DecodeFields(header.format, header.count, st2)
        case Err(e) => Err(e)
        case Ok(fs, st3) => Ok(fs, ExitScope(st3))
  }

  function DecodeFields(format: DataFormat, count: nat, st: St): (r: Res<seq<DataField>>)
    ensures r.Ok? ==> Ahead(st, r.st)
    decreases Left(st), 7, count
  {
    if count == 0 then Ok([], st)
    else
      match DecodeField(format, st)
      case Err(e) => Err(e)
      case Ok(f, st') =>
      match DecodeFields(format, count - 1, st')
      case Err(e) => Err(e)
      case Ok(rest, st'') => Ok([f] + rest, st'')
  }

  /** `DataField::decode`, given the format in its header. */
  function DecodeField(format: DataFormat, st: St): (r: Res<DataField>)
    ensures r.Ok? ==> Ahead(st, r.st)
    decreases Left(st), 6, 0
  {
    var n := format.dataFields;
    match C.ReadBlobs(FLAGS, format.blobSize, st)
    case Err(e) => Err(e)
    case Ok(flags, st1) =>
    match ReadTextField(n, st1)
    case Err(e) => Err(e)
    case Ok(name, st0) =>
    match ReadDocsField(Minus(n, 1), st0)
    case Err(e) => Err(e)
    case Ok(docs, st2) =>
    match ReadTypeField(Minus(n, 2), st2)
    case Err(e) => Err(e)
    case Ok(typing, st3) =>
    match C.Finish(C.LeftBlob(FLAGS, format.blobSize), Minus(n, 3), st3)
    case Err(e) => Err(e)
    case Ok(_, st4) =>
      Ok(DataField(name, docs, typing, flags[0] == C.VNumber(1), flags[1] == C.VNumber(1)), st4)
  }

  function ReadTypeField(remaining: nat, st: St): (r: Res<Type>)
    ensures r.Ok? ==> Ahead(st, r.st)
    decreases Left(st), 1, 0
  {
    if remaining > 0 then ReadType(st) else Ok(Unspecified, st)
  }

  function ReadFormatField(remaining: nat, st: St): (r: Res<Format>)
    ensures r.Ok? ==> Ahead(st, r.st)
  {
    if remaining > 0 then ReadFormat(st) else Ok(Fluid, st)
  }

  /** `read_data_into` of a `Format`. */
  function ReadFormat(st: St): (r: Res<Format>)
    ensures r.Ok? ==> Ahead(st, r.st)
  {
    match EnterScope(st)
    case Err(e) => Err(e)
    case Ok(_, st1) =>
    match ReadHeader(st1)
    case Err(e) => Err(e)
    case Ok(header, st2) =>
    match DecodeFormat(header.format.ordinal, st2)
    case Err(e) => Err(e)
    case Ok(f, st3) => Ok(f, ExitScope(st3))
  }

  /** `Format::decode`, which goes by the header's ordinal alone. */
  function DecodeFormat(ordinal: byte, st: St): (r: Res<Format>)
    ensures r.Ok? ==> Ahead(st, r.st)
  {
    if ordinal == 1 then
      match DecodeScalar(U16, st)
      case Err(e) => Err(e)
      case Ok(size, st') => Ok(Blob(size), st')
    else if ordinal == 2 || ordinal == 3 then
      match DecodeScalar(U16, st)
      case Err(e) => Err(e)
      case Ok(blobSize, st1) =>
      match DecodeScalar(U8, st1)
      case Err(e) => Err(e)
      case Ok(dataFields, st2) =>
      match DecodeScalar(U8, st2)
      case Err(e) => Err(e)
      case Ok(o, st3) =>
        var format := DataFormat(blobSize, dataFields, o);
        Ok(if ordinal == 2 then Format.Data(format) else Sequence(format), st3)
    else if ordinal == 4 then Ok(Fluid, st)
    else Err(UnsupportedDataFormat(ordinal))
  }
}
