/** What reading does, as functions of a reader's state: `ReadsDecodable` over a
    `LimitedReader`, whose wrapped stream is a byte slice. */
module Reader {
  import opened Bytes
  import opened Wire

  datatype Error =
    | UnexpectedDataFormat
    | UnsupportedDataFormat(ordinal: byte)
    | UnsupportedCount(count: u32)
    | InvalidUtf8
    | MissingBlobLength(length: nat)
    | UnsupportedUnspecifiedMapKey(ordinal: byte)
    | UnspecifiedMapLengthMismatch(keys: nat, values: nat)
    | CountOverflow(length: nat)
    | UnexpectedEof
    | ByteLimitExceeded
    | DepthLimitExceeded
    | Stream

  datatype Limits = Unlimited | Limits(maxBytes: nat, maxDepth: nat)
  {
    predicate AllowsBytes(n: nat) {
      Unlimited? || n <= maxBytes
    }

    predicate AllowsDepth(n: nat) {
      Unlimited? || n <= maxDepth
    }
  }

  /** `pos` is both the place in the input and `bytes_read`. `peak` is history:
      the deepest nesting so far. */
  datatype Source = Source(bytes: seq<byte>)

  datatype St = St(input: Source, pos: nat, depth: nat, peak: nat, limits: Limits)

  datatype Res<+T> = Ok(value: T, st: St) | Err(error: Error)

  function Left(st: St): nat {
    if st.pos <= |st.input.bytes| then |st.input.bytes| - st.pos else 0
  }

  function Moved(st: St, n: nat): St {
    st.(pos := st.pos + n)
  }

  /** Reading only moves forward, and leaves every scope it entered. */
  predicate Ahead(st: St, st': St) {
    && st'.input == st.input && st'.limits == st.limits && st'.depth == st.depth
    && st.pos <= st'.pos && st.peak <= st'.peak
    && (st.pos <= |st.input.bytes| ==> st'.pos <= |st.input.bytes|)
  }

  function ReadExact(n: nat, st: St): (r: Res<seq<byte>>)
    ensures r.Ok? ==> Ahead(st, r.st) && |r.value| == n && r.st.pos == st.pos + n <= |st.input.bytes|
  {
    if !st.limits.AllowsBytes(st.pos + n) then Err(ByteLimitExceeded)
    else if st.pos + n > |st.input.bytes| then Err(Stream)
    else Ok(st.input.bytes[st.pos..st.pos + n], Moved(st, n))
  }

  /** `skip_blob`, which reads on until the input or the byte limit runs out. */
  function SkipBlob(n: nat, st: St): (r: Res<()>)
    ensures r.Ok? ==> Ahead(st, r.st) && r.st.pos == st.pos + n
  {
    if n == 0 then Ok((), st)
    else if st.pos + n <= |st.input.bytes| && st.limits.AllowsBytes(st.pos + n) then Ok((), Moved(st, n))
    else if st.limits.AllowsBytes(|st.input.bytes| + 1) then Err(UnexpectedEof)
    else Err(ByteLimitExceeded)
  }

  function ReadHeader(st: St): (r: Res<DataHeader>)
    ensures r.Ok? ==> Ahead(st, r.st) && r.st.pos == st.pos + HEADER_SIZE <= |st.input.bytes|
  {
    match ReadExact(HEADER_SIZE, st)
    case Err(e) => Err(e)
    case Ok(bytes, st') => Ok(ParseHeader(bytes), st')
  }

  function EnterScope(st: St): (r: Res<()>)
    ensures r.Ok? ==> st.peak <= r.st.peak && r.st == st.(depth := st.depth + 1, peak := r.st.peak)
  {
    if !st.limits.AllowsDepth(st.depth + 1) then Err(DepthLimitExceeded)
    else Ok((), st.(depth := st.depth + 1, peak := if st.peak > st.depth then st.peak else st.depth + 1))
  }

  function ExitScope(st: St): St {
    st.(depth := if st.depth > 0 then st.depth - 1 else 0)
  }

  /** `skip_data`: the next header and everything it describes. */
  function SkipData(st: St): (r: Res<nat>)
    ensures r.Ok? ==> Ahead(st, r.st) && r.st.pos == st.pos + r.value && Left(r.st) < Left(st)
    decreases Left(st), 0, 0
  {
    match EnterScope(st)
    case Err(e) => Err(e)
    case Ok(_, st1) =>
    match ReadHeader(st1)
    case Err(e) => Err(e)
    case Ok(header, st2) =>
    match SkipEntries(header.format, header.count, st2)
    case Err(e) => Err(e)
    case Ok(n, st3) => Ok(HEADER_SIZE + n, ExitScope(st3))
  }

  /** `count` data of one format, back to back. */
  function SkipEntries(format: DataFormat, count: nat, st: St): (r: Res<nat>)
    ensures r.Ok? ==> Ahead(st, r.st) && r.st.pos == st.pos + r.value
    decreases Left(st), 3, count
  {
    if count == 0 then Ok(0, st)
    else
      match SkipEntry(format, st)
      case Err(e) => Err(e)
      case Ok(n, st') =>
      match SkipEntries(format, count - 1, st')
      case Err(e) => Err(e)
      case Ok(rest, st'') => Ok(n + rest, st'')
  }

  /** `skip_data_with_format`. */
  function SkipEntry(format: DataFormat, st: St): (r: Res<nat>)
    ensures r.Ok? ==> Ahead(st, r.st) && r.st.pos == st.pos + r.value
    decreases Left(st), 2, 0
  {
    match SkipBlob(format.blobSize, st)
    case Err(e) => Err(e)
    case Ok(_, st') =>
    match SkipFields(format.dataFields, st')
    case Err(e) => Err(e)
    case Ok(n, st'') => Ok(format.blobSize + n, st'')
  }

  function SkipFields(fields: nat, st: St): (r: Res<nat>)
    ensures r.Ok? ==> Ahead(st, r.st) && r.st.pos == st.pos + r.value
    decreases Left(st), 1, fields
  {
    if fields == 0 then Ok(0, st)
    else
      match SkipData(st)
      case Err(e) => Err(e)
      case Ok(n, st') =>
      match SkipFields(fields - 1, st')
      case Err(e) => Err(e)
      case Ok(rest, st'') => Ok(n + rest, st'')
  }

  /** The same walk, keeping the bytes: `capture_data` and `capture_data_with_format`.
      Headers are parsed and encoded again. */
  function Capture(st: St): (r: Res<seq<byte>>)
    ensures r.Ok? ==> Ahead(st, r.st) && r.st.pos == st.pos + |r.value| && Left(r.st) < Left(st)
    decreases Left(st), 0, 0
  {
    match EnterScope(st)
    case Err(e) => Err(e)
    case Ok(_, st1) =>
    match ReadHeader(st1)
    case Err(e) => Err(e)
    case Ok(header, st2) =>
    match CaptureEntries(header.format, header.count, st2)
    case Err(e) => Err(e)
    case Ok(bytes, st3) => Ok(HeaderBytes(header) + bytes, ExitScope(st3))
  }

  function CaptureEntries(format: DataFormat, count: nat, st: St): (r: Res<seq<byte>>)
    ensures r.Ok? ==> Ahead(st, r.st) && r.st.pos == st.pos + |r.value|
    decreases Left(st), 3, count
  {
    if count == 0 then Ok([], st)
    else
      match CaptureEntry(format, st)
      case Err(e) => Err(e)
      case Ok(bytes, st') =>
      match CaptureEntries(format, count - 1, st')
      case Err(e) => Err(e)
      case Ok(rest, st'') => Ok(bytes + rest, st'')
  }

  function CaptureEntry(format: DataFormat, st: St): (r: Res<seq<byte>>)
    ensures r.Ok? ==> Ahead(st, r.st) && r.st.pos == st.pos + |r.value|
    decreases Left(st), 2, 0
  {
    if format.blobSize == 0 then CaptureFields(format.dataFields, st)
    else
      match ReadExact(format.blobSize, st)
      case Err(e) => Err(e)
      case Ok(blob, st') =>
      match CaptureFields(format.dataFields, st')
      case Err(e) => Err(e)
      case Ok(bytes, st'') => Ok(blob + bytes, st'')
  }

  function CaptureFields(fields: nat, st: St): (r: Res<seq<byte>>)
    ensures r.Ok? ==> Ahead(st, r.st) && r.st.pos == st.pos + |r.value|
    decreases Left(st), 1, fields
  {
    if fields == 0 then Ok([], st)
    else
      match Capture(st)
      case Err(e) => Err(e)
      case Ok(bytes, st') =>
      match CaptureFields(fields - 1, st')
      case Err(e) => Err(e)
      case Ok(rest, st'') => Ok(bytes + rest, st'')
  }
}
