/** `LimitedReader`: a reader over a slice, with limits on bytes and nesting. */
module ReaderCode {
  import opened Bytes
  import opened Wrappers
  import opened Wire
  import opened Reader
  import opened Extent

  datatype Result<+T> = Success(value: T) | Failure(error: Error)
  {
    predicate IsFailure() {
      Failure?
    }

    function PropagateFailure<U>(): Result<U>
      requires Failure?
    {
      Failure(error)
    }

    function Extract(): T
      requires Success?
    {
      value
    }
  }

  const TEMP_BUFFER_SIZE := 1024

  /** `whole` goes as `rest` goes, `done` bytes later. */
  ghost predicate Continues(whole: Res<nat>, done: nat, rest: Res<nat>) {
    match rest
    case Ok(n, st) => whole == Res<nat>.Ok(done + n, st)
    case Err(e) => whole == Res<nat>.Err(e)
  }

  /** As `Continues`, for the items collected by `whole`. */
  ghost predicate Extends<T>(whole: Res<seq<T>>, done: seq<T>, rest: Res<seq<T>>) {
    match rest
    case Ok(items, st) => whole == Res<seq<T>>.Ok(done + items, st)
    case Err(e) => whole == Res<seq<T>>.Err(e)
  }

  lemma ExtendsSelf<T>(whole: Res<seq<T>>)
    ensures Extends(whole, [], whole)
  {
    if whole.Ok? {
      assert [] + whole.value == whole.value;
    }
  }

  lemma ExtendsMore<T>(whole: Res<seq<T>>, done: seq<T>, more: seq<T>, tail: Res<seq<T>>, rest: Res<seq<T>>)
    requires Extends(whole, done, tail) && Extends(tail, more, rest)
    ensures Extends(whole, done + more, rest)
  {
    if rest.Ok? {
      assert done + (more + rest.value) == done + more + rest.value;
    }
  }

  /** A growing byte vector (`Vec<u8>`). */
  class ByteVec {
    var bytes: seq<byte>

    constructor ()
      ensures bytes == []
    {
      bytes := [];
    }

    method WriteAll(buf: seq<byte>)
      modifies this
      ensures bytes == old(bytes) + buf
    {
      bytes := bytes + buf;
    }
  }

  class LimitedReader {
    // The input, and how much of it is behind the reader.
    ghost const whole: seq<byte>
    ghost var past: seq<byte>
    // What is left of the wrapped slice.
    var reader: seq<byte>
    var bytesRead: nat
    const maxBytes: nat
    var depth: nat
    const maxDepth: nat
    ghost var peak: nat

    ghost predicate Valid()
      reads this
    {
      whole == past + reader && |past| == bytesRead <= maxBytes
    }

    ghost function State(): St
      reads this
    {
      St(Source(whole), bytesRead, depth, peak, Limits.Limits(maxBytes, maxDepth))
    }

    /** The method that started in `was` and returned `r` did what `spec` says. Every error but
        one leaves all scopes; the depth limit is checked after the depth has been raised. */
    ghost predicate Did<T>(was: St, spec: Res<T>, r: Result<T>)
      reads this
    {
      && Valid()
      && match spec
         case Ok(v, st) => r == Success(v) && State() == st
         case Err(e) => r == Failure(e) && depth == was.depth + (if e.DepthLimitExceeded? then 1 else 0)
    }

    constructor (input: seq<byte>, maxBytes: nat, maxDepth: nat)
      ensures Valid() && State() == StartWith(input, Limits.Limits(maxBytes, maxDepth))
    {
      whole, past, reader := input, [], input;
      bytesRead, depth, peak := 0, 0, 0;
      this.maxBytes, this.maxDepth := maxBytes, maxDepth;
    }

    /** Moves `n` bytes on. */
    method Advance(n: nat)
      requires Valid() && n <= |reader| && bytesRead + n <= maxBytes
      modifies this`past, this`reader, this`bytesRead
      ensures Valid() && State() == Moved(old(State()), n)
    {
      past := past + reader[..n];
      reader := reader[n..];
      bytesRead := bytesRead + n;
    }

    /** `read` into a buffer of `size` bytes, whose contents do not matter here. */
    method ReadOver(size: nat) returns (r: Result<nat>)
      requires Valid()
      modifies this`past, this`reader, this`bytesRead
      ensures Valid()
      ensures r.Success? ==> r.value <= size && State() == Moved(old(State()), r.value)
      ensures r.Success? && r.value < size ==> bytesRead == |whole| || bytesRead == maxBytes
      ensures r.Success? && r.value == 0 && size > 0 ==> bytesRead == |whole| < maxBytes
      ensures r.Failure? ==> r == Failure(ByteLimitExceeded) && State() == old(State()) && bytesRead == maxBytes
    {
      var remaining := maxBytes - bytesRead;
      if remaining == 0 && size > 0 {
        return Failure(ByteLimitExceeded);
      }
      var n := Min(Min(size, remaining), |reader|);
      Advance(n);
      r := Success(n);
    }

    /** `read_exact` into `buf[from..]`. */
    method ReadExact(buf: array<byte>, from: nat) returns (r: Result<()>)
      requires Valid() && from <= buf.Length
      modifies this`past, this`reader, this`bytesRead, buf
      ensures Valid() && buf[..from] == old(buf[..from])
      ensures match Reader.ReadExact(buf.Length - from, old(State()))
              case Ok(bytes, st) => r == Success(()) && State() == st && buf[from..] == bytes
              case Err(e) => r == Failure(e) && State() == old(State())
    {
      var n := buf.Length - from;
      if bytesRead + n > maxBytes {
        return Failure(ByteLimitExceeded);
      }
      if n > |reader| {
        return Failure(Stream);
      }
      ghost var bytes := whole[bytesRead..bytesRead + n];
      assert forall k :: 0 <= k < n ==> bytes[k] == reader[k];
      var i := 0;
      while i < n
        invariant i <= n
        invariant forall k :: 0 <= k < i ==> buf[from + k] == bytes[k]
        invariant forall k :: 0 <= k < from ==> buf[k] == old(buf[k])
        modifies buf
      {
        buf[from + i] := reader[i];
        i := i + 1;
      }
      assert buf[from..] == bytes;
      Advance(n);
      r := Success(());
    }

    method EnterScope() returns (r: Result<()>)
      requires Valid()
      modifies this`depth, this`peak
      ensures Did(old(State()), Reader.EnterScope(old(State())), r)
    {
      depth := depth + 1;
      if depth > maxDepth {
        return Failure(DepthLimitExceeded);
      }
      peak := if peak > depth then peak else depth;
      r := Success(());
    }

    method ExitScope()
      requires Valid()
      modifies this`depth
      ensures Valid() && State() == Reader.ExitScope(old(State()))
    {
      depth := if depth > 0 then depth - 1 else 0;
    }

    method ReadHeader() returns (r: Result<DataHeader>)
      requires Valid()
      modifies this`past, this`reader, this`bytesRead
      ensures Did(old(State()), Reader.ReadHeader(old(State())), r)
    {
      var buf := new byte[8](_ => 0);
      var read := ReadExact(buf, 0);
      if read.Failure? {
        return Failure(read.error);
      }
      assert buf[0..] == buf[..];
      r := Success(ParseHeader(buf[..]));
    }

    method SkipBlob(length: nat) returns (r: Result<()>)
      requires Valid()
      modifies this`past, this`reader, this`bytesRead
      ensures Did(old(State()), Reader.SkipBlob(length, old(State())), r)
    {
      ghost var was := State();
      var skipped := 0;
      while skipped < length
        invariant skipped <= length && Valid() && State() == Moved(was, skipped)
      {
        var n := ReadOver(Min(length - skipped, TEMP_BUFFER_SIZE));
        if n.Failure? {
          return Failure(n.error);
        }
        if n.value == 0 {
          return Failure(UnexpectedEof);
        }
        skipped := skipped + n.value;
      }
      r := Success(());
    }

    /** `skip_data`. The scope's guard leaves it however the rest ends. */
    method SkipData() returns (r: Result<nat>)
      requires Valid()
      modifies this
      ensures Did(old(State()), Reader.SkipData(old(State())), r)
      decreases Left(State()), 1
    {
      var _ :- EnterScope();
      r := SkipInScope();
      ExitScope();
    }

    method SkipInScope() returns (r: Result<nat>)
      requires Valid()
      modifies this
      ensures Did(old(State()), SkipPrefixed(old(State())), r)
      decreases Left(State()), 0
    {
      hide SkipEntries;
      var header :- ReadHeader();
      var n :- SkipManyEntries(header.format, header.count);
      r := Success(HEADER_SIZE + n);
    }

    /** The loops of `skip_data` and `Unspecified::decode` over `count` data. */
    method SkipManyEntries(format: DataFormat, count: nat) returns (r: Result<nat>)
      requires Valid()
      modifies this
      ensures Did(old(State()), SkipEntries(format, count, old(State())), r)
      decreases Left(State()), 5
    {
      hide SkipEntry;
      ghost var start := State();
      var read := 0;
      var i := 0;
      while i < count
        invariant i <= count && Valid() && Ahead(start, State())
        invariant Continues(SkipEntries(format, count, start), read, SkipEntries(format, count - i, State()))
      {
        var n :- SkipDataWithFormat(format);
        read := read + n;
        i := i + 1;
      }
      r := Success(read);
    }

    /** `skip_data_with_format`. */
    method SkipDataWithFormat(format: DataFormat) returns (r: Result<nat>)
      requires Valid()
      modifies this
      ensures Did(old(State()), SkipEntry(format, old(State())), r)
      decreases Left(State()), 3
    {
      var _ :- SkipBlob(format.blobSize);
      var fields :- SkipManyData(format.dataFields);
      r := Success(format.blobSize + fields);
    }

    /** Skips that many data, one after another. */
    method SkipManyData(fields: nat) returns (r: Result<nat>)
      requires Valid()
      modifies this
      ensures Did(old(State()), SkipFields(fields, old(State())), r)
      decreases Left(State()), 2
    {
      hide Reader.SkipData;
      ghost var start := State();
      var read := 0;
      var i := 0;
      while i < fields
        invariant i <= fields && Valid() && Ahead(start, State())
        invariant Continues(SkipFields(fields, start), read, SkipFields(fields - i, State()))
      {
        var n :- SkipData();
        read := read + n;
        i := i + 1;
      }
      r := Success(read);
    }

    /** `capture_data`, appending to `buf`. */
    method CaptureData(buf: ByteVec) returns (r: Result<()>)
      requires Valid()
      modifies this, buf
      ensures Captured(old(State()), Capture(old(State())), old(buf.bytes), buf.bytes, r)
      decreases Left(State()), 1
    {
      var _ :- EnterScope();
      r := CaptureInScope(buf);
      ExitScope();
    }

    /** As `Did`, for methods that append what they captured to a vector. */
    ghost predicate Captured(was: St, spec: Res<seq<byte>>, before: seq<byte>, after: seq<byte>, r: Result<()>)
      reads this
    {
      && Valid()
      && match spec
         case Ok(bytes, st) => r == Success(()) && State() == st && after == before + bytes
         case Err(e) => r == Failure(e) && depth == was.depth + (if e.DepthLimitExceeded? then 1 else 0)
    }

    method CaptureInScope(buf: ByteVec) returns (r: Result<()>)
      requires Valid()
      modifies this, buf
      ensures Captured(old(State()), CapturePrefixed(old(State())), old(buf.bytes), buf.bytes, r)
      decreases Left(State()), 0
    {
      hide CaptureEntry;
      ghost var before := buf.bytes;
      var header :- ReadHeader();
      buf.WriteAll(HeaderBytes(header));
      var _ :- CaptureMany(buf, header.format, header.count);
      assert forall bytes :: before + HeaderBytes(header) + bytes == before + (HeaderBytes(header) + bytes);
      r := Success(());
    }

    /** `count` data of one format, as `decode` and `capture_data` capture them. */
    method CaptureMany(buf: ByteVec, format: DataFormat, count: nat) returns (r: Result<()>)
      requires Valid()
      modifies this, buf
      ensures Captured(old(State()), CaptureEntries(format, count, old(State())), old(buf.bytes), buf.bytes, r)
      decreases Left(State()), 5
    {
      hide CaptureEntry;
      ghost var start, before, done := State(), buf.bytes, [];
      var i := 0;
      ExtendsSelf(CaptureEntries(format, count, start));
      while i < count
        invariant i <= count && Valid() && Ahead(start, State()) && buf.bytes == before + done
        invariant Extends(CaptureEntries(format, count, start), done, CaptureEntries(format, count - i, State()))
      {
        ghost var st := State();
        ghost var tail := CaptureEntries(format, count - i, st);
        var _ :- CaptureDataWithFormat(buf, format);
        ghost var more := CaptureEntry(format, st).value;
        ExtendsMore(CaptureEntries(format, count, start), done, more, tail, CaptureEntries(format, count - i - 1, State()));
        assert before + done + more == before + (done + more);
        done := done + more;
        i := i + 1;
      }
      assert done + [] == done;
      r := Success(());
    }

    /** `capture_data_with_format`. */
    method CaptureDataWithFormat(buf: ByteVec, format: DataFormat) returns (r: Result<()>)
      requires Valid()
      modifies this, buf
      ensures Captured(old(State()), CaptureEntry(format, old(State())), old(buf.bytes), buf.bytes, r)
      decreases Left(State()), 3
    {
      hide CaptureFields;
      ghost var before := buf.bytes;
      if format.blobSize > 0 {
        var blob := new byte[format.blobSize](_ => 0);
        var _ :- ReadExact(blob, 0);
        assert blob[0..] == blob[..];
        buf.WriteAll(blob[..]);
        assert forall bytes :: before + blob[..] + bytes == before + (blob[..] + bytes);
      }
      r := CaptureManyFields(buf, format.dataFields);
    }

    method CaptureManyFields(buf: ByteVec, fields: nat) returns (r: Result<()>)
      requires Valid()
      modifies this, buf
      ensures Captured(old(State()), CaptureFields(fields, old(State())), old(buf.bytes), buf.bytes, r)
      decreases Left(State()), 2
    {
      hide Capture;
      ghost var start, before, done := State(), buf.bytes, [];
      var i := 0;
      ExtendsSelf(CaptureFields(fields, start));
      while i < fields
        invariant i <= fields && Valid() && Ahead(start, State()) && buf.bytes == before + done
        invariant Extends(CaptureFields(fields, start), done, CaptureFields(fields - i, State()))
      {
        ghost var st := State();
        ghost var tail := CaptureFields(fields - i, st);
        var _ :- CaptureData(buf);
        ghost var more := Capture(st).value;
        ExtendsMore(CaptureFields(fields, start), done, more, tail, CaptureFields(fields - i - 1, State()));
        assert before + done + more == before + (done + more);
        done := done + more;
        i := i + 1;
      }
      assert done + [] == done;
      r := Success(());
    }
  }

  /** What `skip_data` does inside its scope. */
  function SkipPrefixed(st: St): Res<nat> {
    match Reader.ReadHeader(st)
    case Err(e) => Err(e)
    case Ok(header, st') =>
      match SkipEntries(header.format, header.count, st')
      case Err(e) => Err(e)
      case Ok(n, st'') => Ok(HEADER_SIZE + n, st'')
  }

  function CapturePrefixed(st: St): Res<seq<byte>> {
    match Reader.ReadHeader(st)
    case Err(e) => Err(e)
    case Ok(header, st') =>
      match CaptureEntries(header.format, header.count, st')
      case Err(e) => Err(e)
      case Ok(bytes, st'') => Ok(HeaderBytes(header) + bytes, st'')
  }
}
