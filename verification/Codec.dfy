/** The statically typed codec: a universe of types, their formats, encoding and decoding. */
module Codec {
  import opened Bytes
  import opened Wire
  import opened Reader
  import opened Scalars
  import opened Wrappers
  import opened SortedMap
  import Dynamic

  /** A `Struct` is a generated data type: its fixed-size fields come before its structured ones. */
  datatype Ty =
    | Scalar(kind: Kind)
    | Array(n: nat, elem: Ty)
    | Text
    | Struct(ordinal: byte, blobs: seq<Ty>, datas: seq<Ty>)
    | List(elem: Ty)
    | Option(elem: Ty)
    | Map(key: Ty, value: Ty)
    | Unspecified

  /** A map has its keys in ascending order. */
  datatype Value =
    | VNumber(n: int)
    | VArray(items: seq<Value>)
    | VText(bytes: seq<byte>)
    | VStruct(blobs: seq<Value>, datas: seq<Value>)
    | VList(items: seq<Value>)
    | VNone
    | VSome(value: Value)
    | VMap(keys: seq<Value>, values: seq<Value>)
    | VDyn(u: Dynamic.Dyn)

  predicate IsBlob(t: Ty) {
    t.Scalar? || t.Array?
  }

  function BlobSize(t: Ty): nat {
    match t
    case Scalar(kind) => Width(kind)
    case Array(n, elem) => n * BlobSize(elem)
    case _ => 0
  }

  function TotalSize(ts: seq<Ty>): nat {
    if ts == [] then 0 else BlobSize(ts[0]) + TotalSize(ts[1..])
  }

  predicate IsKey(t: Ty) {
    t.Text? || (t.Scalar? && !t.kind.F32? && !t.kind.F64?)
  }

  /** The types whose `FORMAT` constants compile. */
  predicate WellFormed(t: Ty) {
    match t
    case Array(n, elem) => IsBlob(elem) && WellFormed(elem) && n * BlobSize(elem) < 0x1_0000
    case Struct(_, blobs, datas) =>
      && (forall i :: 0 <= i < |blobs| ==> IsBlob(blobs[i]) && WellFormed(blobs[i]))
      && (forall i :: 0 <= i < |datas| ==> !IsBlob(datas[i]) && WellFormed(datas[i]))
      && TotalSize(blobs) < 0x1_0000 && |datas| < 0x100
    case List(elem) => WellFormed(elem)
    case Option(elem) => WellFormed(elem)
    case Map(key, value) => IsKey(key) && WellFormed(value)
    case _ => true
  }

  const TEXT_FORMAT := DataFormat(1, 0, 0)
  const MAP_FORMAT := DataFormat(0, 2, 0)

  /** `Encodable::FORMAT`. */
  function FormatOf(t: Ty): (f: Format)
    requires WellFormed(t)
    ensures f.Blob? <==> IsBlob(t)
  {
    match t
    case Scalar(kind) => Blob(Width(kind))
    case Array(n, elem) => Blob(n * BlobSize(elem))
    case Text => Sequence(TEXT_FORMAT)
    case Struct(ordinal, blobs, datas) => Format.Data(DataFormat(TotalSize(blobs), |datas|, ordinal))
    case List(elem) => FormatOf(elem).AsSequence()
    case Option(elem) => FormatOf(elem).AsSequence()
    case Map(_, _) => Format.Data(MAP_FORMAT)
    case Unspecified => Fluid
  }

  function ItemFormat(elem: Ty): DataFormat
    requires WellFormed(elem)
  {
    FormatOf(elem).AsSequence().AsDataFormat()
  }

  function Default(t: Ty): Value {
    match t
    case Scalar(_) => VNumber(0)
    case Array(n, elem) => VArray(seq(n, _ => Default(elem)))
    case Text => VText([])
    case Struct(_, blobs, datas) => VStruct(Defaults(blobs), Defaults(datas))
    case List(_) => VList([])
    case Option(_) => VNone
    case Map(_, _) => VMap([], [])
    case Unspecified => VDyn(Dynamic.Default)
  }

  function Defaults(ts: seq<Ty>): (r: seq<Value>)
    ensures |r| == |ts|
    ensures forall i :: 0 <= i < |ts| ==> r[i] == Default(ts[i])
  {
    if ts == [] then [] else [Default(ts[0])] + Defaults(ts[1..])
  }

  predicate KeyLess(a: Value, b: Value) {
    (a.VNumber? && b.VNumber? && a.n < b.n) || (a.VText? && b.VText? && Lex(a.bytes, b.bytes))
  }

  /** The values of a type whose counts fit the wire. */
  ghost predicate Fits(t: Ty, v: Value) {
    match t
    case Scalar(kind) => v.VNumber? && InRange(kind, v.n)
    case Array(n, elem) => v.VArray? && |v.items| == n && AllFit(elem, v.items)
    case Text => v.VText? && Utf8(v.bytes) && |v.bytes| <= Dynamic.MAX_COUNT
    case Struct(_, blobs, datas) => v.VStruct? && EachFits(blobs, v.blobs) && EachFits(datas, v.datas)
    case List(elem) => v.VList? && |v.items| <= Dynamic.MAX_COUNT && AllFit(elem, v.items)
    case Option(elem) => v.VNone? || (v.VSome? && Fits(elem, v.value))
    case Map(key, value) =>
      && v.VMap? && |v.keys| == |v.values| <= Dynamic.MAX_COUNT && Ascending(KeyLess, v.keys)
      && AllFit(key, v.keys) && AllFit(value, v.values)
    case Unspecified => v.VDyn? && Dynamic.IsValue(v.u) && Dynamic.CanEncode(v.u)
  }

  /** What the Rust types guarantee of a value, whatever its counts. */
  ghost predicate Typed(t: Ty, v: Value) {
    match t
    case Scalar(kind) => v.VNumber? && InRange(kind, v.n)
    case Array(n, elem) => v.VArray? && |v.items| == n && forall i :: 0 <= i < n ==> Typed(elem, v.items[i])
    case Text => v.VText? && Utf8(v.bytes)
    case Struct(_, blobs, datas) =>
      && v.VStruct? && |v.blobs| == |blobs| && |v.datas| == |datas|
      && (forall i :: 0 <= i < |blobs| ==> Typed(blobs[i], v.blobs[i]))
      && (forall i :: 0 <= i < |datas| ==> Typed(datas[i], v.datas[i]))
    case List(elem) => v.VList? && forall i :: 0 <= i < |v.items| ==> Typed(elem, v.items[i])
    case Option(elem) => v.VNone? || (v.VSome? && Typed(elem, v.value))
    case Map(key, value) =>
      && v.VMap? && |v.keys| == |v.values| && Ascending(KeyLess, v.keys)
      && (forall i :: 0 <= i < |v.keys| ==> Typed(key, v.keys[i]) && Typed(value, v.values[i]))
    case Unspecified => v.VDyn? && Dynamic.IsValue(v.u)
  }

  ghost predicate AllFit(t: Ty, vs: seq<Value>) {
    forall i :: 0 <= i < |vs| ==> Fits(t, vs[i])
  }

  ghost predicate EachFits(ts: seq<Ty>, vs: seq<Value>) {
    |ts| == |vs| && forall i :: 0 <= i < |ts| ==> Fits(ts[i], vs[i])
  }

  // Encoding.

  /** `encode_header`, for a structured type. */
  ghost function HeaderFor(t: Ty, v: Value): DataHeader
    requires WellFormed(t) && !IsBlob(t) && Fits(t, v)
  {
    match t
    case Text => DataHeader(|v.bytes|, TEXT_FORMAT)
    case List(elem) => DataHeader(|v.items|, ItemFormat(elem))
    case Option(elem) => DataHeader(if v.VSome? then 1 else 0, ItemFormat(elem))
    case Unspecified => Dynamic.HeaderOf(v.u)
    case _ => DataHeader(1, FormatOf(t).AsDataFormat())
  }

  /** `encode`. */
  ghost function Body(t: Ty, v: Value): seq<byte>
    requires WellFormed(t) && Fits(t, v)
    decreases v, 0
  {
    match t
    case Scalar(kind) => ScalarBytes(kind, v.n)
    case Array(_, elem) => Items(elem, v.items)
    case Text => v.bytes
    case Struct(_, blobs, datas) => Writes(blobs, v.blobs) + Writes(datas, v.datas)
    case List(elem) => Items(elem, v.items)
    case Option(elem) => if v.VNone? then [] else Item(elem, v.value)
    case Map(key, value) => WriteList(key, v.keys) + WriteList(value, v.values)
    case Unspecified => Dynamic.Payload(v.u)
  }

  /** `write_data`: header, if structured, and body. */
  ghost function Write(t: Ty, v: Value): seq<byte>
    requires WellFormed(t) && Fits(t, v)
    decreases v, 1
  {
    if IsBlob(t) then Body(t, v) else HeaderBytes(HeaderFor(t, v)) + Body(t, v)
  }

  /** `write_data` of one field after another. */
  ghost function Writes(ts: seq<Ty>, vs: seq<Value>): seq<byte>
    requires EachFits(ts, vs) && forall i :: 0 <= i < |ts| ==> WellFormed(ts[i])
    decreases vs, 0
  {
    if ts == [] then [] else Write(ts[0], vs[0]) + Writes(ts[1..], vs[1..])
  }

  /** `write_sequence_data`: packed, or with its header. */
  ghost function Item(t: Ty, v: Value): seq<byte>
    requires WellFormed(t) && Fits(t, v)
    decreases v, 2
  {
    if FormatOf(t).IsPacked() then Body(t, v) else Write(t, v)
  }

  ghost function Items(t: Ty, vs: seq<Value>): seq<byte>
    requires WellFormed(t) && AllFit(t, vs)
    decreases vs, 0
  {
    if vs == [] then [] else Item(t, vs[0]) + Items(t, vs[1..])
  }

  /** `write_data` of a `Vec`. */
  ghost function WriteList(elem: Ty, items: seq<Value>): seq<byte>
    requires WellFormed(elem) && AllFit(elem, items) && |items| <= Dynamic.MAX_COUNT
    decreases items, 1
  {
    HeaderBytes(DataHeader(|items|, ItemFormat(elem))) + Items(elem, items)
  }

  // Decoding.

  /** `Decodable::ensure_header`: what the header must be, given the format. */
  function EnsureHeader(expected: Format, header: DataHeader): Option<Error> {
    if (expected.Data? || expected.Sequence?)
       && (if expected.format.ordinal != 0 then header.format.ordinal != expected.format.ordinal
           else header.format != expected.format)
    then Some(UnexpectedDataFormat)
    else if expected.Data? && header.count != 1 then Some(UnsupportedCount(header.count))
    else None
  }

  /** `read_data_into`. */
  function ReadData(t: Ty, st: St): (r: Res<Value>)
    requires WellFormed(t)
    ensures r.Ok? ==> Ahead(st, r.st)
    decreases t, 1, 0
  {
    if IsBlob(t) then DecodeBlob(t, st)
    else
      match EnterScope(st)
      case Err(e) => Err(e)
      case Ok(_, st1) =>
      match ReadHeader(st1)
      case Err(e) => Err(e)
      case Ok(header, st2) =>
      match DecodeData(t, header, st2)
      case Err(e) => Err(e)
      case Ok(v, st3) => Ok(v, ExitScope(st3))
  }

  /** `decode` of a fixed-size type. */
  function DecodeBlob(t: Ty, st: St): (r: Res<Value>)
    requires IsBlob(t) && WellFormed(t)
    ensures r.Ok? ==> Ahead(st, r.st)
    decreases t, 0, 0
  {
    match t
    case Scalar(kind) =>
      (match DecodeScalar(kind, st)
       case Err(e) => Err(e)
       case Ok(n, st') => Ok(VNumber(n), st'))
    case Array(n, elem) =>
      match DecodeBlobs(elem, n, st)
      case Err(e) => Err(e)
      case Ok(vs, st') => Ok(VArray(vs), st')
  }

  function DecodeBlobs(t: Ty, n: nat, st: St): (r: Res<seq<Value>>)
    requires IsBlob(t) && WellFormed(t)
    ensures r.Ok? ==> Ahead(st, r.st) && |r.value| == n
    decreases t, 2, n
  {
    if n == 0 then Ok([], st)
    else
      match DecodeBlob(t, st)
      case Err(e) => Err(e)
      case Ok(v, st') =>
      match DecodeBlobs(t, n - 1, st')
      case Err(e) => Err(e)
      case Ok(rest, st'') => Ok([v] + rest, st'')
  }

  /** `decode` of a structured type, under `header`. */
  function DecodeData(t: Ty, header: DataHeader, st: St): (r: Res<Value>)
    requires WellFormed(t) && !IsBlob(t)
    ensures r.Ok? ==> Ahead(st, r.st)
    decreases t, 0, 0
  {
    var bad := EnsureHeader(FormatOf(t), header);
    if bad.Some? then Err(bad.value)
    else
      match t
      case Text =>
        (match DecodeText(header.count, st)
         case Err(e) => Err(e)
         case Ok(bytes, st') => Ok(VText(bytes), st'))
      case Struct(_, _, _) => DecodeFields(t, header.format, st)
      case List(elem) =>
        (match ReadMany(elem, header.format, header.count, st)
         case Err(e) => Err(e)
         case Ok(vs, st') => Ok(VList(vs), st'))
      case Option(elem) =>
        if header.count == 0 then Ok(VNone, st)
        else if header.count == 1 then
          match ReadNext(elem, header.format, st)
          case Err(e) => Err(e)
          case Ok(v, st') => Ok(VSome(v), st')
        else Err(UnsupportedCount(header.count))
      case Map(key, value) =>
        (match ReadList(key, st)
         case Err(e) => Err(e)
         case Ok(keys, st') =>
         match ReadList(value, st')
         case Err(e) => Err(e)
         case Ok(values, st'') => MakeMap(keys, values, st''))
      case Unspecified =>
        (match Dynamic.DecodeDyn(header, st)
         case Err(e) => Err(e)
         case Ok(u, st') => Ok(VDyn(u), st'))
  }

  function MakeMap(keys: seq<Value>, values: seq<Value>, st: St): (r: Res<Value>)
    ensures r.Ok? ==> r.st == st
  {
    if |keys| != |values| then Err(UnexpectedDataFormat)
    else
      var (ks, vs) := InsertAll(KeyLess, [], [], keys, values);
      Ok(VMap(ks, vs), st)
  }

  /** `read_data_into` of a `Vec`. */
  function ReadList(elem: Ty, st: St): (r: Res<seq<Value>>)
    requires WellFormed(elem)
    ensures r.Ok? ==> Ahead(st, r.st)
    decreases elem, 4, 0
  {
    match EnterScope(st)
    case Err(e) => Err(e)
    case Ok(_, st1) =>
    match ReadHeader(st1)
    case Err(e) => Err(e)
    case Ok(header, st2) =>
      var bad := EnsureHeader(FormatOf(elem).AsSequence(), header);
      if bad.Some? then Err(bad.value)
      else
        match ReadMany(elem, header.format, header.count, st2)
        case Err(e) => Err(e)
        case Ok(vs, st3) => Ok(vs, ExitScope(st3))
  }

  /** `read_next_data_into`: one item of a sequence whose header has `format`. */
  function ReadNext(t: Ty, format: DataFormat, st: St): (r: Res<Value>)
    requires WellFormed(t)
    ensures r.Ok? ==> Ahead(st, r.st)
    decreases t, 2, 0
  {
    if IsBlob(t) then DecodeBlob(t, st)
    else if FormatOf(t).Data? then DecodeData(t, DataHeader(1, format), st)
    else ReadData(t, st)
  }

  function ReadMany(t: Ty, format: DataFormat, count: nat, st: St): (r: Res<seq<Value>>)
    requires WellFormed(t)
    ensures r.Ok? ==> Ahead(st, r.st) && |r.value| == count
    decreases t, 3, count
  {
    if count == 0 then Ok([], st)
    else
      match ReadNext(t, format, st)
      case Err(e) => Err(e)
      case Ok(v, st') =>
      match ReadMany(t, format, count - 1, st')
      case Err(e) => Err(e)
      case Ok(rest, st'') => Ok([v] + rest, st'')
  }

  // `FieldReader`, over all fields of a struct.

  /** What is left of `remaining` blob bytes once fields of types `ts` have been read. */
  function LeftBlob(ts: seq<Ty>, remaining: nat): nat {
    if ts == [] then remaining
    else LeftBlob(ts[1..], if remaining >= BlobSize(ts[0]) then remaining - BlobSize(ts[0]) else 0)
  }

  function LeftFields(ts: seq<Ty>, remaining: nat): nat {
    if remaining > |ts| then remaining - |ts| else 0
  }

  /** Every field of a struct, reconciled with the header's format. */
  function DecodeFields(t: Ty, format: DataFormat, st: St): (r: Res<Value>)
    requires t.Struct? && WellFormed(t)
    ensures r.Ok? ==> Ahead(st, r.st) && r.value.VStruct?
    decreases t, -1, 0
  {
    match ReadBlobs(t.blobs, format.blobSize, st)
    case Err(e) => Err(e)
    case Ok(bs, st') =>
    match ReadDatas(t.datas, format.dataFields, st')
    case Err(e) => Err(e)
    case Ok(ds, st'') =>
    match Finish(LeftBlob(t.blobs, format.blobSize), LeftFields(t.datas, format.dataFields), st'')
    case Err(e) => Err(e)
    case Ok(_, st3) => Ok(VStruct(bs, ds), st3)
  }

  function ReadBlobs(ts: seq<Ty>, remaining: nat, st: St): (r: Res<seq<Value>>)
    requires forall i :: 0 <= i < |ts| ==> IsBlob(ts[i]) && WellFormed(ts[i])
    ensures r.Ok? ==> Ahead(st, r.st) && |r.value| == |ts|
    decreases ts, 0, 0
  {
    if ts == [] then Ok([], st)
    else
      var size := BlobSize(ts[0]);
      if remaining >= size then
        match DecodeBlob(ts[0], st)
        case Err(e) => Err(e)
        case Ok(v, st') =>
        match ReadBlobs(ts[1..], remaining - size, st')
        case Err(e) => Err(e)
        case Ok(rest, st'') => Ok([v] + rest, st'')
      else if remaining == 0 then
        match ReadBlobs(ts[1..], 0, st)
        case Err(e) => Err(e)
        case Ok(rest, st') => Ok([Default(ts[0])] + rest, st')
      else Err(MissingBlobLength(size - remaining))
  }

  function ReadDatas(ts: seq<Ty>, remaining: nat, st: St): (r: Res<seq<Value>>)
    requires forall i :: 0 <= i < |ts| ==> WellFormed(ts[i])
    ensures r.Ok? ==> Ahead(st, r.st) && |r.value| == |ts|
    decreases ts, 0, 0
  {
    if ts == [] then Ok([], st)
    else if remaining > 0 then
      match ReadData(ts[0], st)
      case Err(e) => Err(e)
      case Ok(v, st') =>
      match ReadDatas(ts[1..], remaining - 1, st')
      case Err(e) => Err(e)
      case Ok(rest, st'') => Ok([v] + rest, st'')
    else Ok(Defaults(ts), st)
  }

  /** `FieldReader::finish`. */
  function Finish(blob: nat, fields: nat, st: St): (r: Res<()>)
    ensures r.Ok? ==> Ahead(st, r.st)
  {
    match SkipBlob(blob, st)
    case Err(e) => Err(e)
    case Ok(_, st') =>
    match SkipFields(fields, st')
    case Err(e) => Err(e)
    case Ok(_, st'') => Ok((), st'')
  }
}
