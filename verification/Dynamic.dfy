/** `Unspecified`: values whose type is only known from their own header. */
module Dynamic {
  import opened Bytes
  import opened Wire
  import opened Reader
  import opened Scalars
  import opened Wrappers
  import opened SortedMap

  /** A `Text` is its bytes; a `Map`'s keys are `Text`s in ascending order. */
  datatype Dyn =
    | Default
    | Number(kind: Kind, n: int)
    | Text(bytes: seq<byte>)
    | List(items: seq<Dyn>)
    | Map(keys: seq<Dyn>, values: seq<Dyn>)
    | Data(header: DataHeader, raw: seq<byte>)

  const MAX_COUNT := 0xFFFF_FFFF

  predicate KeyLess(a: Dyn, b: Dyn) {
    a.Text? && b.Text? && Lex(a.bytes, b.bytes)
  }

  /** What the Rust types guarantee of every value. */
  ghost predicate IsValue(u: Dyn) {
    match u
    case Number(kind, n) => InRange(kind, n)
    case Text(bytes) => Utf8(bytes)
    case List(items) => forall i :: 0 <= i < |items| ==> IsValue(items[i])
    case Map(keys, values) =>
      && |keys| == |values| && Ascending(KeyLess, keys)
      && (forall i :: 0 <= i < |keys| ==> keys[i].Text? && IsValue(keys[i]))
      && (forall i :: 0 <= i < |values| ==> IsValue(values[i]))
    case _ => true
  }

  function TypeOrdinal(u: Dyn): byte {
    match u
    case Default => UNSPECIFIED_ORDINAL
    case Number(kind, _) => OrdinalOf(kind)
    case Text(_) => TEXT_ORDINAL
    case List(_) => LIST_ORDINAL
    case Map(_, _) => MAP_ORDINAL
    case Data(header, _) => header.format.ordinal
  }

  /** `expected_scalar_blob_size`, 0 for an ordinal that is not a scalar's. */
  function ScalarBlobSize(ordinal: byte): u16 {
    match KindOf(ordinal)
    case Some(kind) => Width(kind)
    case None => 0
  }

  // Encoding.

  predicate Homogeneous(items: seq<Dyn>) {
    items != [] && forall i :: 0 <= i < |items| ==> TypeOrdinal(items[i]) == TypeOrdinal(items[0])
  }

  /** The inner header's format: scalars of one kind are packed, anything else is prefixed. */
  function InnerFormat(items: seq<Dyn>): DataFormat {
    if Homogeneous(items) then
      var ordinal := TypeOrdinal(items[0]);
      if ScalarBlobSize(ordinal) > 0 then DataFormat(ScalarBlobSize(ordinal), 0, ordinal)
      else DataFormat(0, 1, ordinal)
    else PREFIXED
  }

  /** Encoding fails on a `Default` inside a list or map, and on counts over `u32::MAX`. */
  predicate CanEncode(u: Dyn) {
    match u
    case Text(bytes) => |bytes| <= MAX_COUNT
    case List(items) => CanEncodeItems(items)
    case Map(keys, values) => CanEncodeItems(keys) && CanEncodeItems(values)
    case _ => true
  }

  predicate CanEncodeItems(items: seq<Dyn>) {
    |items| <= MAX_COUNT && forall i :: 0 <= i < |items| ==> !items[i].Default? && CanEncode(items[i])
  }

  function HeaderOf(u: Dyn): DataHeader
    requires CanEncode(u)
  {
    match u
    case Default => DataHeader(0, DataFormat(0, 0, 0))
    case Number(kind, _) => DataHeader(1, DataFormat(Width(kind), 0, OrdinalOf(kind)))
    case Text(bytes) => DataHeader(|bytes|, DataFormat(1, 0, TEXT_ORDINAL))
    case List(_) => DataHeader(1, DataFormat(0, 1, LIST_ORDINAL))
    case Map(_, _) => DataHeader(1, DataFormat(0, 2, MAP_ORDINAL))
    case Data(header, _) => header
  }

  function Payload(u: Dyn): seq<byte>
    requires CanEncode(u)
    decreases u, 0
  {
    match u
    case Default => []
    case Number(kind, n) => ScalarBytes(kind, n)
    case Text(bytes) => bytes
    case List(items) => Inner(items)
    case Map(keys, values) => Inner(keys) + Inner(values)
    case Data(_, raw) => raw
  }

  /** `write_data`: header and payload. */
  function Whole(u: Dyn): seq<byte>
    requires CanEncode(u)
    decreases u, 1
  {
    HeaderBytes(HeaderOf(u)) + Payload(u)
  }

  /** `encode_unspecified_list`. */
  function Inner(items: seq<Dyn>): seq<byte>
    requires CanEncodeItems(items)
    decreases items, 1
  {
    HeaderBytes(DataHeader(|items|, InnerFormat(items)))
    + (if InnerFormat(items).dataFields == 0 then Payloads(items) else Wholes(items))
  }

  function Payloads(items: seq<Dyn>): seq<byte>
    requires forall i :: 0 <= i < |items| ==> CanEncode(items[i])
    decreases items, 0
  {
    if items == [] then [] else Payload(items[0]) + Payloads(items[1..])
  }

  function Wholes(items: seq<Dyn>): seq<byte>
    requires forall i :: 0 <= i < |items| ==> CanEncode(items[i])
    decreases items, 0
  {
    if items == [] then [] else Whole(items[0]) + Wholes(items[1..])
  }

  // Decoding.

  /** `read_data_into` of an `Unspecified`. */
  function ReadDyn(st: St): (r: Res<Dyn>)
    ensures r.Ok? ==> Ahead(st, r.st) && Left(r.st) < Left(st)
    decreases Left(st), 0, 0
  {
    match EnterScope(st)
    case Err(e) => Err(e)
    case Ok(_, st1) =>
    match ReadHeader(st1)
    case Err(e) => Err(e)
    case Ok(header, st2) =>
    match DecodeDyn(header, st2)
    case Err(e) => Err(e)
    case Ok(u, st3) => Ok(u, ExitScope(st3))
  }

  /** `Unspecified::decode`. */
  function DecodeDyn(header: DataHeader, st: St): (r: Res<Dyn>)
    ensures r.Ok? ==> Ahead(st, r.st)
    decreases Left(st), 3, 0
  {
    var format := header.format;
    if format.ordinal == UNSPECIFIED_ORDINAL then
      match SkipEntries(format, header.count, st)
      case Err(e) => Err(e)
      case Ok(_, st') => Ok(Default, st')
    else if KindOf(format.ordinal).Some? then DecodeScalarOrList(KindOf(format.ordinal).value, header, st)
    else if format.ordinal == TEXT_ORDINAL then
      if format.blobSize != 1 || format.dataFields != 0 then Err(UnexpectedDataFormat)
      else
        match DecodeText(header.count, st)
        case Err(e) => Err(e)
        case Ok(bytes, st') => Ok(Text(bytes), st')
    else if format.ordinal == LIST_ORDINAL then
      if header != DataHeader(1, DataFormat(0, 1, LIST_ORDINAL)) then Err(UnexpectedDataFormat)
      else
        match DecodeInner(st)
        case Err(e) => Err(e)
        case Ok(items, st') => Ok(List(items), st')
    else if format.ordinal == MAP_ORDINAL then
      if header != DataHeader(1, DataFormat(0, 2, MAP_ORDINAL)) then Err(UnexpectedDataFormat)
      else
        match DecodeInner(st)
        case Err(e) => Err(e)
        case Ok(keys, st') =>
        match DecodeInner(st')
        case Err(e) => Err(e)
        case Ok(values, st'') => MakeMap(keys, values, st'')
    else
      match CaptureEntries(format, header.count, st)
      case Err(e) => Err(e)
      case Ok(raw, st') => Ok(Dyn.Data(header, raw), st')
  }

  /** The first key that is not a `Text`. */
  function BadKey(keys: seq<Dyn>): (k: Option<Dyn>)
    ensures k.None? <==> forall i :: 0 <= i < |keys| ==> keys[i].Text?
  {
    if keys == [] then None else if keys[0].Text? then BadKey(keys[1..]) else Some(keys[0])
  }

  function MakeMap(keys: seq<Dyn>, values: seq<Dyn>, st: St): (r: Res<Dyn>)
    ensures r.Ok? ==> r.st == st
  {
    if |keys| != |values| then Err(UnspecifiedMapLengthMismatch(|keys|, |values|))
    else if BadKey(keys).Some? then Err(UnsupportedUnspecifiedMapKey(TypeOrdinal(BadKey(keys).value)))
    else
      var (ks, vs) := InsertAll(KeyLess, [], [], keys, values);
      Ok(Map(ks, vs), st)
  }

  /** `validate_scalar_format` accepts the format. */
  predicate ScalarFormatOk(format: DataFormat) {
    match KindOf(format.ordinal)
    case Some(kind) => format.dataFields == 0 && format.blobSize == Width(kind)
    case None => true
  }

  /** `decode_scalar_or_list`. */
  function DecodeScalarOrList(kind: Kind, header: DataHeader, st: St): (r: Res<Dyn>)
    requires OrdinalOf(kind) == header.format.ordinal
    ensures r.Ok? ==> Ahead(st, r.st)
  {
    if !ScalarFormatOk(header.format) then Err(UnexpectedDataFormat)
    else if header.count == 0 then Ok(Default, st)
    else if header.count == 1 then
      match DecodeScalar(kind, st)
      case Err(e) => Err(e)
      case Ok(n, st') => Ok(Number(kind, n), st')
    else
      match DecodeNumbers(kind, header.count, st)
      case Err(e) => Err(e)
      case Ok(items, st') => Ok(List(items), st')
  }

  /** `decode_scalars_into`. */
  function DecodeNumbers(kind: Kind, count: nat, st: St): (r: Res<seq<Dyn>>)
    ensures r.Ok? ==> Ahead(st, r.st) && |r.value| == count
  {
    if count == 0 then Ok([], st)
    else
      match DecodeScalar(kind, st)
      case Err(e) => Err(e)
      case Ok(n, st') =>
      match DecodeNumbers(kind, count - 1, st')
      case Err(e) => Err(e)
      case Ok(rest, st'') => Ok([Number(kind, n)] + rest, st'')
  }

  /** `decode_unspecified_list`. */
  function DecodeInner(st: St): (r: Res<seq<Dyn>>)
    ensures r.Ok? ==> Ahead(st, r.st) && Left(r.st) < Left(st)
    decreases Left(st), 2, 0
  {
    match ReadHeader(st)
    case Err(e) => Err(e)
    case Ok(inner, st') => DecodeItems(inner, st')
  }

  function DecodeItems(inner: DataHeader, st: St): (r: Res<seq<Dyn>>)
    ensures r.Ok? ==> Ahead(st, r.st) && |r.value| == inner.count
    decreases Left(st), 2, 1
  {
    var ordinal := inner.format.ordinal;
    if !ScalarFormatOk(inner.format) then Err(UnexpectedDataFormat)
    else if KindOf(ordinal).Some? then DecodeNumbers(KindOf(ordinal).value, inner.count, st)
    else if inner.format.dataFields == 0 && inner.count > 0
            && ordinal in {UNSPECIFIED_ORDINAL, TEXT_ORDINAL, LIST_ORDINAL, MAP_ORDINAL} then
      Err(UnsupportedDataFormat(ordinal))
    else ReadDyns(inner.count, st)
  }

  function ReadDyns(count: nat, st: St): (r: Res<seq<Dyn>>)
    ensures r.Ok? ==> Ahead(st, r.st) && |r.value| == count
    decreases Left(st), 1, count
  {
    if count == 0 then Ok([], st)
    else
      match ReadDyn(st)
      case Err(e) => Err(e)
      case Ok(u, st') =>
      match ReadDyns(count - 1, st')
      case Err(e) => Err(e)
      case Ok(rest, st'') => Ok([u] + rest, st'')
  }
}
