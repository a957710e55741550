/** The `Unspecified` codec as it runs: loops over a reader and a writer. */
module DynamicCode {
  import opened Bytes
  import opened Wire
  import opened Reader
  import opened ReaderCode
  import opened Scalars
  import opened Wrappers
  import opened SortedMap
  import opened Dynamic

  /** `decode` of a number: its bytes go through a buffer of its size. */
  method DecodeNumber(reader: LimitedReader, kind: Kind) returns (r: Result<int>)
    requires reader.Valid()
    modifies reader
    ensures reader.Did(old(reader.State()), DecodeScalar(kind, old(reader.State())), r)
  {
    var bytes := new byte[Width(kind)](_ => 0);
    var _ :- reader.ReadExact(bytes, 0);
    assert bytes[0..] == bytes[..];
    r := Success(ScalarValue(kind, bytes[..]));
  }

  /** `try_decode_string` into a string's old buffer, which is empty if anything fails. */
  method TryDecodeString(reader: LimitedReader, count: nat, stale: seq<byte>) returns (r: Result<()>, text: seq<byte>)
    requires reader.Valid() && count > 0
    modifies reader
    ensures match Scalars.DecodeText(count, old(reader.State()))
            case Ok(bytes, st) => r == Success(()) && text == bytes
            case Err(e) => r == Failure(e) && text == []
    ensures reader.Valid() && (r.Success? ==> reader.State() == Scalars.DecodeText(count, old(reader.State())).st)
    ensures r.Failure? ==> reader.depth == old(reader.depth)
  {
    var bytes := new byte[count](i => if 0 <= i < |stale| then stale[i] else 0);
    r := reader.ReadExact(bytes, 0);
    if r.Failure? {
      return r, [];
    }
    assert bytes[0..] == bytes[..];
    text := bytes[..];
    if !Utf8(text) {
      return Failure(InvalidUtf8), [];
    }
  }

  /** `Text::decode` under a checked header, over a text that held `stale`. */
  method DecodeString(reader: LimitedReader, count: nat, stale: seq<byte>) returns (r: Result<seq<byte>>)
    requires reader.Valid()
    modifies reader
    ensures reader.Did(old(reader.State()), Scalars.DecodeText(count, old(reader.State())), r)
  {
    if count == 0 {
      return Success([]);
    }
    var decoded, bytes := TryDecodeString(reader, count, stale);
    if decoded.Failure? {
      return Failure(decoded.error);
    }
    r := Success(bytes);
  }

  /** `decode_scalars_into`. */
  method DecodeScalarsInto(reader: LimitedReader, kind: Kind, count: nat) returns (r: Result<seq<Dyn>>)
    requires reader.Valid()
    modifies reader
    ensures reader.Did(old(reader.State()), DecodeNumbers(kind, count, old(reader.State())), r)
  {
    hide DecodeScalar;
    ghost var start := reader.State();
    var items := [];
    var i := 0;
    ExtendsSelf(DecodeNumbers(kind, count, start));
    while i < count
      invariant i <= count && reader.Valid() && Ahead(start, reader.State())
      invariant Extends(DecodeNumbers(kind, count, start), items, DecodeNumbers(kind, count - i, reader.State()))
    {
      ghost var tail := DecodeNumbers(kind, count - i, reader.State());
      var n :- DecodeNumber(reader, kind);
      ExtendsMore(DecodeNumbers(kind, count, start), items, [Number(kind, n)], tail,
                  DecodeNumbers(kind, count - i - 1, reader.State()));
      items := items + [Number(kind, n)];
      i := i + 1;
    }
    assert items + [] == items;
    r := Success(items);
  }

  /** `Unspecified::decode`. */
  method Decode(reader: LimitedReader, header: DataHeader) returns (r: Result<Dyn>)
    requires reader.Valid()
    modifies reader
    ensures reader.Did(old(reader.State()), DecodeDyn(header, old(reader.State())), r)
    decreases Left(reader.State()), 4
  {
    hide DecodeInner;
    hide SkipEntries;
    hide CaptureEntries;
    hide DecodeNumbers;
    var format := header.format;
    var kind := KindOf(format.ordinal);
    if format.ordinal == UNSPECIFIED_ORDINAL {
      var _ :- reader.SkipManyEntries(format, header.count);
      r := Success(Default);
    } else if kind.Some? {
      r := DecodeOneOrMore(reader, kind.value, header);
    } else if format.ordinal == TEXT_ORDINAL {
      if format.blobSize != 1 || format.dataFields != 0 {
        return Failure(UnexpectedDataFormat);
      }
      var bytes :- DecodeString(reader, header.count, []);
      r := Success(Text(bytes));
    } else if format.ordinal == LIST_ORDINAL {
      if header.count != 1 || format.blobSize != 0 || format.dataFields != 1 {
        return Failure(UnexpectedDataFormat);
      }
      var items :- DecodeList(reader);
      r := Success(List(items));
    } else if format.ordinal == MAP_ORDINAL {
      if header.count != 1 || format.blobSize != 0 || format.dataFields != 2 {
        return Failure(UnexpectedDataFormat);
      }
      var keys :- DecodeList(reader);
      var values :- DecodeList(reader);
      r := BuildMap(reader, keys, values);
    } else {
      var raw := new ByteVec();
      ghost var captured := CaptureEntries(format, header.count, reader.State());
      var _ :- reader.CaptureMany(raw, format, header.count);
      assert [] + captured.value == captured.value;
      r := Success(Dyn.Data(header, raw.bytes));
    }
  }

  /** `decode_scalar_or_list`. */
  method DecodeOneOrMore(reader: LimitedReader, kind: Kind, header: DataHeader) returns (r: Result<Dyn>)
    requires reader.Valid() && OrdinalOf(kind) == header.format.ordinal
    modifies reader
    ensures reader.Did(old(reader.State()), DecodeScalarOrList(kind, header, old(reader.State())), r)
  {
    hide DecodeNumbers;
    if !ScalarFormatOk(header.format) {
      return Failure(UnexpectedDataFormat);
    }
    if header.count == 0 {
      r := Success(Default);
    } else if header.count == 1 {
      var n :- DecodeNumber(reader, kind);
      r := Success(Number(kind, n));
    } else {
      var items :- DecodeScalarsInto(reader, kind, header.count);
      r := Success(List(items));
    }
  }

  /** Builds the map, rejecting keys that are not text. */
  method BuildMap(reader: LimitedReader, keys: seq<Dyn>, values: seq<Dyn>) returns (r: Result<Dyn>)
    requires reader.Valid()
    ensures reader.Did(reader.State(), MakeMap(keys, values, reader.State()), r)
  {
    if |keys| != |values| {
      return Failure(UnspecifiedMapLengthMismatch(|keys|, |values|));
    }
    var ks, vs := [], [];
    var nextKeys, nextValues := keys, values;
    while nextKeys != []
      invariant |nextKeys| == |nextValues| && |ks| == |vs| && BadKey(keys) == BadKey(nextKeys)
      invariant InsertAll(KeyLess, ks, vs, nextKeys, nextValues) == InsertAll(KeyLess, [], [], keys, values)
    {
      if !nextKeys[0].Text? {
        return Failure(UnsupportedUnspecifiedMapKey(TypeOrdinal(nextKeys[0])));
      }
      var inserted := Insert(KeyLess, ks, vs, nextKeys[0], nextValues[0]);
      ks, vs := inserted.0, inserted.1;
      nextKeys, nextValues := nextKeys[1..], nextValues[1..];
    }
    r := Success(Map(ks, vs));
  }

  /** `decode_unspecified_list`. */
  method DecodeList(reader: LimitedReader) returns (r: Result<seq<Dyn>>)
    requires reader.Valid()
    modifies reader
    ensures reader.Did(old(reader.State()), DecodeInner(old(reader.State())), r)
    decreases Left(reader.State()), 3
  {
    hide DecodeNumbers;
    hide ReadDyns;
    var inner :- reader.ReadHeader();
    var format, count := inner.format, inner.count;
    var kind := KindOf(format.ordinal);
    if !ScalarFormatOk(format) {
      return Failure(UnexpectedDataFormat);
    }
    if kind.Some? {
      r := DecodeScalarsInto(reader, kind.value, count);
    } else if format.dataFields == 0 && count > 0
              && format.ordinal in {UNSPECIFIED_ORDINAL, TEXT_ORDINAL, LIST_ORDINAL, MAP_ORDINAL} {
      r := Failure(UnsupportedDataFormat(format.ordinal));
    } else {
      r := ReadItems(reader, count);
    }
  }

  /** Items that carry their own headers. */
  method ReadItems(reader: LimitedReader, count: nat) returns (r: Result<seq<Dyn>>)
    requires reader.Valid()
    modifies reader
    ensures reader.Did(old(reader.State()), ReadDyns(count, old(reader.State())), r)
    decreases Left(reader.State()), 2
  {
    hide ReadDyn;
    ghost var start := reader.State();
    var items := [];
    var i := 0;
    ExtendsSelf(ReadDyns(count, start));
    while i < count
      invariant i <= count && reader.Valid() && Ahead(start, reader.State())
      invariant Extends(ReadDyns(count, start), items, ReadDyns(count - i, reader.State()))
    {
      ghost var tail := ReadDyns(count - i, reader.State());
      var u :- Read(reader);
      ExtendsMore(ReadDyns(count, start), items, [u], tail, ReadDyns(count - i - 1, reader.State()));
      items := items + [u];
      i := i + 1;
    }
    assert items + [] == items;
    r := Success(items);
  }

  /** `read_data_into` of an `Unspecified`. */
  method Read(reader: LimitedReader) returns (r: Result<Dyn>)
    requires reader.Valid()
    modifies reader
    ensures reader.Did(old(reader.State()), ReadDyn(old(reader.State())), r)
    decreases Left(reader.State()), 1
  {
    var _ :- reader.EnterScope();
    r := ReadInScope(reader);
    reader.ExitScope();
  }

  method ReadInScope(reader: LimitedReader) returns (r: Result<Dyn>)
    requires reader.Valid()
    modifies reader
    ensures reader.Did(old(reader.State()), ReadPrefixed(old(reader.State())), r)
    decreases Left(reader.State()), 0
  {
    hide DecodeDyn;
    var header :- reader.ReadHeader();
    r := Decode(reader, header);
  }

  function ReadPrefixed(st: St): Res<Dyn> {
    match Reader.ReadHeader(st)
    case Err(e) => Err(e)
    case Ok(header, st') => DecodeDyn(header, st')
  }
}
