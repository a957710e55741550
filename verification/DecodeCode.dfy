/** The statically typed decoders as they run: into a destination that already holds a
    value, whose parts they reuse. What they leave there depends on the input alone. */
module DecodeCode {
  import opened Bytes
  import opened Wire
  import opened Reader
  import opened ReaderCode
  import Extent
  import opened Absence
  import opened Scalars
  import opened Wrappers
  import opened SortedMap
  import Dynamic
  import DynamicCode
  import opened Codec

  /** `read_data_into`. */
  method ReadInto(reader: LimitedReader, t: Ty, dest: Value) returns (r: Result<Value>)
    requires reader.Valid() && WellFormed(t) && Typed(t, dest)
    modifies reader
    ensures reader.Did(old(reader.State()), ReadData(t, old(reader.State())), r)
    decreases t, 2, 0
  {
    if IsBlob(t) {
      r := DecodeBlobInto(reader, t, dest);
    } else {
      var _ :- reader.EnterScope();
      r := ReadInScope(reader, t, dest);
      reader.ExitScope();
    }
  }

  method ReadInScope(reader: LimitedReader, t: Ty, dest: Value) returns (r: Result<Value>)
    requires reader.Valid() && WellFormed(t) && !IsBlob(t) && Typed(t, dest)
    modifies reader
    ensures reader.Did(old(reader.State()), ReadPrefixed(t, old(reader.State())), r)
    decreases t, 1, 0
  {
    hide DecodeData;
    var header :- reader.ReadHeader();
    r := DecodeInto(reader, t, header, dest);
  }

  function ReadPrefixed(t: Ty, st: St): Res<Value>
    requires WellFormed(t) && !IsBlob(t)
  {
    match Reader.ReadHeader(st)
    case Err(e) => Err(e)
    case Ok(header, st') => DecodeData(t, header, st')
  }

  /** `decode` of a fixed-size type. */
  method DecodeBlobInto(reader: LimitedReader, t: Ty, dest: Value) returns (r: Result<Value>)
    requires reader.Valid() && IsBlob(t) && WellFormed(t) && Typed(t, dest)
    modifies reader
    ensures reader.Did(old(reader.State()), DecodeBlob(t, old(reader.State())), r)
    decreases t, 0, 0
  {
    match t
    case Scalar(kind) =>
      var n :- DynamicCode.DecodeNumber(reader, kind);
      r := Success(VNumber(n));
    case Array(_, elem) =>
      var items :- DecodeElements(reader, elem, dest.items);
      r := Success(VArray(items));
  }

  /** Decodes every element of an array in place. */
  method DecodeElements(reader: LimitedReader, elem: Ty, dest: seq<Value>) returns (r: Result<seq<Value>>)
    requires reader.Valid() && IsBlob(elem) && WellFormed(elem)
    requires forall i :: 0 <= i < |dest| ==> Typed(elem, dest[i])
    modifies reader
    ensures reader.Did(old(reader.State()), DecodeBlobs(elem, |dest|, old(reader.State())), r)
    decreases elem, 3, 0
  {
    hide DecodeBlob;
    hide WellFormed;
    ghost var start, done := reader.State(), [];
    var items := dest;
    var i := 0;
    ExtendsSelf(DecodeBlobs(elem, |dest|, start));
    while i < |items|
      invariant i == |done| <= |items| == |dest| && reader.Valid() && Ahead(start, reader.State())
      invariant forall k :: 0 <= k < i ==> items[k] == done[k]
      invariant forall k :: i <= k < |items| ==> items[k] == dest[k]
      invariant Extends(DecodeBlobs(elem, |dest|, start), done, DecodeBlobs(elem, |dest| - i, reader.State()))
    {
      ghost var tail := DecodeBlobs(elem, |dest| - i, reader.State());
      var v :- DecodeBlobInto(reader, elem, items[i]);
      ExtendsMore(DecodeBlobs(elem, |dest|, start), done, [v], tail, DecodeBlobs(elem, |dest| - i - 1, reader.State()));
      items := items[i := v];
      done := done + [v];
      i := i + 1;
    }
    assert items == done && done + [] == done;
    r := Success(items);
  }

  /** `decode` of a structured type, under `header`. */
  method DecodeInto(reader: LimitedReader, t: Ty, header: DataHeader, dest: Value) returns (r: Result<Value>)
    requires reader.Valid() && WellFormed(t) && !IsBlob(t) && Typed(t, dest)
    modifies reader
    ensures reader.Did(old(reader.State()), DecodeData(t, header, old(reader.State())), r)
    decreases t, 0, 0
  {
    hide ReadMany;
    hide ReadNext;
    hide ReadList;
    hide DecodeFields;
    hide Dynamic.DecodeDyn;
    var bad := EnsureHeader(FormatOf(t), header);
    if bad.Some? {
      return Failure(bad.value);
    }
    match t
    case Text =>
      var bytes :- DynamicCode.DecodeString(reader, header.count, dest.bytes);
      r := Success(VText(bytes));
    case Struct(_, _, _) => r := DecodeStruct(reader, t, header, dest);
    case List(elem) =>
      var items :- DecodeVec(reader, elem, header, dest.items);
      r := Success(VList(items));
    case Option(elem) =>
      if header.count == 0 {
        r := Success(VNone);
      } else if header.count == 1 {
        DefaultTyped(elem);
        var slot := if dest.VSome? then dest.value else Codec.Default(elem);
        var v :- ReadNextInto(reader, elem, header.format, slot);
        r := Success(VSome(v));
      } else {
        r := Failure(UnsupportedCount(header.count));
      }
    case Map(_, _) => r := DecodeMap(reader, t, header);
    case Unspecified =>
      var u :- DynamicCode.Decode(reader, header);
      r := Success(VDyn(u));
  }

  lemma {:induction false} DefaultTyped(t: Ty)
    requires WellFormed(t)
    ensures Typed(t, Codec.Default(t))
    decreases t
  {
    match t
    case Array(_, elem) => DefaultTyped(elem);
    case Struct(_, blobs, datas) =>
      forall i | 0 <= i < |blobs|
        ensures Typed(blobs[i], Codec.Default(blobs[i]))
      {
        DefaultTyped(blobs[i]);
      }
      forall i | 0 <= i < |datas|
        ensures Typed(datas[i], Codec.Default(datas[i]))
      {
        DefaultTyped(datas[i]);
      }
    case _ =>
  }

  /** `read_next_data_into`. */
  method ReadNextInto(reader: LimitedReader, t: Ty, format: DataFormat, dest: Value) returns (r: Result<Value>)
    requires reader.Valid() && WellFormed(t) && Typed(t, dest)
    modifies reader
    ensures reader.Did(old(reader.State()), ReadNext(t, format, old(reader.State())), r)
    decreases t, 3, 0
  {
    if IsBlob(t) {
      r := DecodeBlobInto(reader, t, dest);
    } else if FormatOf(t).Data? {
      r := DecodeInto(reader, t, DataHeader(1, format), dest);
    } else {
      r := ReadInto(reader, t, dest);
    }
  }

  /** `Vec::decode`: elements already there are decoded into, missing ones are pushed, and
      the rest are cut off. */
  method DecodeVec(reader: LimitedReader, elem: Ty, header: DataHeader, dest: seq<Value>) returns (r: Result<seq<Value>>)
    requires reader.Valid() && WellFormed(elem) && forall i :: 0 <= i < |dest| ==> Typed(elem, dest[i])
    modifies reader
    ensures reader.Did(old(reader.State()), ReadMany(elem, header.format, header.count, old(reader.State())), r)
    decreases elem, 4, 0
  {
    hide ReadNext;
    hide WellFormed;
    hide Typed;
    hide Codec.Default;
    var format, count := header.format, header.count;
    ghost var start, done := reader.State(), [];
    var items := dest;
    var i := 0;
    ExtendsSelf(ReadMany(elem, format, count, start));
    while i < count
      invariant i == |done| <= count && i <= |items| && reader.Valid() && Ahead(start, reader.State())
      invariant forall k :: 0 <= k < i ==> items[k] == done[k]
      invariant forall k :: i <= k < |items| ==> Typed(elem, items[k])
      invariant Extends(ReadMany(elem, format, count, start), done, ReadMany(elem, format, count - i, reader.State()))
    {
      if i == |items| {
        DefaultTyped(elem);
        items := items + [Codec.Default(elem)];
      }
      ghost var tail := ReadMany(elem, format, count - i, reader.State());
      var v :- ReadNextInto(reader, elem, format, items[i]);
      ExtendsMore(ReadMany(elem, format, count, start), done, [v], tail, ReadMany(elem, format, count - i - 1, reader.State()));
      items := items[i := v];
      done := done + [v];
      i := i + 1;
    }
    items := items[..count];
    assert items == done && done + [] == done;
    r := Success(items);
  }

  /** `read_data_into` of a new `Vec`. */
  method ReadVec(reader: LimitedReader, elem: Ty) returns (r: Result<seq<Value>>)
    requires reader.Valid() && WellFormed(elem)
    modifies reader
    ensures reader.Did(old(reader.State()), ReadList(elem, old(reader.State())), r)
    decreases elem, 6, 0
  {
    var _ :- reader.EnterScope();
    r := ReadVecInScope(reader, elem);
    reader.ExitScope();
  }

  method ReadVecInScope(reader: LimitedReader, elem: Ty) returns (r: Result<seq<Value>>)
    requires reader.Valid() && WellFormed(elem)
    modifies reader
    ensures reader.Did(old(reader.State()), ReadListPrefixed(elem, old(reader.State())), r)
    decreases elem, 5, 0
  {
    hide ReadMany;
    var header :- reader.ReadHeader();
    var bad := EnsureHeader(FormatOf(elem).AsSequence(), header);
    if bad.Some? {
      return Failure(bad.value);
    }
    r := DecodeVec(reader, elem, header, []);
  }

  function ReadListPrefixed(elem: Ty, st: St): Res<seq<Value>>
    requires WellFormed(elem)
  {
    match Reader.ReadHeader(st)
    case Err(e) => Err(e)
    case Ok(header, st') =>
      var bad := EnsureHeader(FormatOf(elem).AsSequence(), header);
      if bad.Some? then Err(bad.value) else ReadMany(elem, header.format, header.count, st')
  }

  /** Reads the fields of one data, reconciling those the decoder knows with those in the header. */
  class FieldReader {
    const reader: LimitedReader
    var blobRemaining: nat
    var dataRemaining: nat
    var readingData: bool

    constructor (reader: LimitedReader, header: DataHeader)
      ensures this.reader == reader && !readingData
      ensures blobRemaining == header.format.blobSize && dataRemaining == header.format.dataFields
    {
      this.reader := reader;
      blobRemaining, dataRemaining := header.format.blobSize, header.format.dataFields;
      readingData := false;
    }

    /** `read`: fixed-size fields come first, and a field the header has no more of is reset. */
    method Read(t: Ty, field: Value) returns (r: Result<Value>)
      requires reader.Valid() && WellFormed(t) && Typed(t, field)
      requires IsBlob(t) ==> !readingData
      modifies this, reader
      ensures reader.Did(old(reader.State()), ReadField(t, old(blobRemaining), old(dataRemaining), old(reader.State())), r)
      // A field the header does not have is absent, whatever was in its place.
      ensures Lacks(t, old(blobRemaining), old(dataRemaining)) ==> r.Success? && Absent(t, r.value)
      ensures readingData == (old(readingData) || !IsBlob(t))
      ensures r.Success? && IsBlob(t) ==>
                dataRemaining == old(dataRemaining)
                && blobRemaining == (if old(blobRemaining) >= BlobSize(t) then old(blobRemaining) - BlobSize(t) else 0)
      ensures r.Success? && !IsBlob(t) ==>
                blobRemaining == old(blobRemaining)
                && dataRemaining == (if old(dataRemaining) > 0 then old(dataRemaining) - 1 else 0)
      decreases t, 7, 0
    {
      hide Absent;
      hide ReadData;
      hide DecodeBlob;
      hide Codec.Default;
      hide Fits;
      hide FormatOf;
      if IsBlob(t) {
        var size := BlobSize(t);
        if blobRemaining >= size {
          var v :- DecodeBlobInto(reader, t, field);
          blobRemaining := blobRemaining - size;
          r := Success(v);
        } else if blobRemaining == 0 {
          AbsentIffDefault(t, Codec.Default(t));
          r := Success(Codec.Default(t));
        } else {
          r := Failure(MissingBlobLength(size - blobRemaining));
        }
      } else {
        readingData := true;
        if dataRemaining > 0 {
          var v :- ReadInto(reader, t, field);
          dataRemaining := dataRemaining - 1;
          r := Success(v);
        } else {
          AbsentIffDefault(t, Codec.Default(t));
          r := Success(Codec.Default(t));
        }
      }
    }

    /** `read` of a new `Vec`. */
    method ReadVecField(elem: Ty) returns (r: Result<seq<Value>>)
      requires reader.Valid() && WellFormed(elem)
      modifies this, reader
      ensures reader.Valid() && readingData && blobRemaining == old(blobRemaining)
      ensures old(dataRemaining) > 0 ==> reader.Did(old(reader.State()), ReadList(elem, old(reader.State())), r)
      ensures old(dataRemaining) == 0 ==> r == Success([]) && reader.State() == old(reader.State())
      ensures r.Success? ==> dataRemaining == (if old(dataRemaining) > 0 then old(dataRemaining) - 1 else 0)
      decreases elem, 8, 0
    {
      readingData := true;
      if dataRemaining > 0 {
        var items :- ReadVec(reader, elem);
        dataRemaining := dataRemaining - 1;
        r := Success(items);
      } else {
        r := Success([]);
      }
    }

    /** `finish`: skips whatever was not read. */
    method Finish() returns (r: Result<()>)
      requires reader.Valid()
      modifies reader
      ensures reader.Did(old(reader.State()), Codec.Finish(blobRemaining, dataRemaining, old(reader.State())), r)
    {
      hide SkipFields;
      if blobRemaining > 0 {
        var _ :- reader.SkipBlob(blobRemaining);
      }
      var _ :- reader.SkipManyData(dataRemaining);
      r := Success(());
    }
  }

  /** The header has nothing left for a field of type `t`. */
  predicate Lacks(t: Ty, blobRemaining: nat, dataRemaining: nat) {
    if IsBlob(t) then blobRemaining == 0 < BlobSize(t) else dataRemaining == 0
  }

  /** One field, given what the header has left of either kind. */
  function ReadField(t: Ty, blobRemaining: nat, dataRemaining: nat, st: St): Res<Value>
    requires WellFormed(t)
  {
    if IsBlob(t) then
      if blobRemaining >= BlobSize(t) then DecodeBlob(t, st)
      else if blobRemaining == 0 then Ok(Codec.Default(t), st)
      else Err(MissingBlobLength(BlobSize(t) - blobRemaining))
    else if dataRemaining > 0 then ReadData(t, st)
    else Ok(Codec.Default(t), st)
  }

  /** The shape of every generated `decode`: check the header, read the fields in order, finish. */
  method DecodeStruct(reader: LimitedReader, t: Ty, header: DataHeader, dest: Value) returns (r: Result<Value>)
    requires reader.Valid() && t.Struct? && WellFormed(t) && Typed(t, dest)
    modifies reader
    ensures reader.Did(old(reader.State()), DecodeFields(t, header.format, old(reader.State())), r)
    decreases t, -1, 0
  {
    hide ReadBlobs;
    hide ReadDatas;
    hide Codec.Finish;
    var fields := new FieldReader(reader, header);
    var blobs :- ReadBlobFields(fields, t.blobs, dest.blobs);
    var datas :- ReadDataFields(fields, t.datas, dest.datas);
    var _ :- fields.Finish();
    r := Success(VStruct(blobs, datas));
  }

  /** `fields.read` of one fixed-size field after another. */
  method ReadBlobFields(fields: FieldReader, ts: seq<Ty>, dest: seq<Value>) returns (r: Result<seq<Value>>)
    requires fields.reader.Valid() && |dest| == |ts| && !fields.readingData
    requires forall i :: 0 <= i < |ts| ==> IsBlob(ts[i]) && WellFormed(ts[i]) && Typed(ts[i], dest[i])
    modifies fields, fields.reader
    ensures fields.reader.Did(old(fields.reader.State()), ReadBlobs(ts, old(fields.blobRemaining), old(fields.reader.State())), r)
    ensures fields.dataRemaining == old(fields.dataRemaining) || r.Failure?
    ensures r.Success? ==> fields.blobRemaining == LeftBlob(ts, old(fields.blobRemaining))
    decreases ts, 9, 0
  {
    hide DecodeBlob;
    if ts == [] {
      return Success([]);
    }
    var v :- fields.Read(ts[0], dest[0]);
    var rest :- ReadBlobFields(fields, ts[1..], dest[1..]);
    r := Success([v] + rest);
  }

  /** `fields.read` of one structured field after another. */
  method ReadDataFields(fields: FieldReader, ts: seq<Ty>, dest: seq<Value>) returns (r: Result<seq<Value>>)
    requires fields.reader.Valid() && |dest| == |ts|
    requires forall i :: 0 <= i < |ts| ==> !IsBlob(ts[i]) && WellFormed(ts[i]) && Typed(ts[i], dest[i])
    modifies fields, fields.reader
    ensures fields.reader.Did(old(fields.reader.State()), ReadDatas(ts, old(fields.dataRemaining), old(fields.reader.State())), r)
    ensures fields.blobRemaining == old(fields.blobRemaining) || r.Failure?
    ensures r.Success? ==> fields.dataRemaining == LeftFields(ts, old(fields.dataRemaining))
    decreases ts, 9, 0
  {
    hide ReadData;
    if ts == [] {
      return Success([]);
    }
    var v :- fields.Read(ts[0], dest[0]);
    var rest :- ReadDataFields(fields, ts[1..], dest[1..]);
    assert Defaults(ts) == [Codec.Default(ts[0])] + Defaults(ts[1..]);
    r := Success([v] + rest);
  }

  /** `BTreeMap::decode`, which clears the map it decodes into first. */
  method DecodeMap(reader: LimitedReader, t: Ty, header: DataHeader) returns (r: Result<Value>)
    requires reader.Valid() && t.Map? && WellFormed(t) && EnsureHeader(FormatOf(t), header) == None
    modifies reader
    ensures reader.Did(old(reader.State()), DecodeData(t, header, old(reader.State())), r)
    decreases t, -1, 0
  {
    hide ReadList;
    assert WellFormed(t.key);
    var fields := new FieldReader(reader, header);
    var keys :- fields.ReadVecField(t.key);
    var values :- fields.ReadVecField(t.value);
    // A map's format has no other fields, so there is nothing left to skip.
    var _ := fields.Finish();
    r := BuildMap(reader, keys, values);
  }

  method BuildMap(reader: LimitedReader, keys: seq<Value>, values: seq<Value>) returns (r: Result<Value>)
    requires reader.Valid()
    ensures reader.Did(reader.State(), MakeMap(keys, values, reader.State()), r)
  {
    if |keys| != |values| {
      return Failure(UnexpectedDataFormat);
    }
    var ks, vs := [], [];
    var nextKeys, nextValues := keys, values;
    while nextKeys != []
      invariant |nextKeys| == |nextValues| && |ks| == |vs|
      invariant InsertAll(KeyLess, ks, vs, nextKeys, nextValues) == InsertAll(KeyLess, [], [], keys, values)
    {
      var inserted := Insert(KeyLess, ks, vs, nextKeys[0], nextValues[0]);
      ks, vs := inserted.0, inserted.1;
      nextKeys, nextValues := nextKeys[1..], nextValues[1..];
    }
    r := Success(VMap(ks, vs));
  }

  const DEFAULT_MAX_BYTES := 64 * 1024 * 1024
  const DEFAULT_MAX_DEPTH := 64

  /** `read_data_into` on a slice, which wraps every top-level decode in the default limits. */
  method ReadSlice(input: seq<byte>, t: Ty, dest: Value) returns (r: Result<Value>, consumed: nat)
    requires WellFormed(t) && Typed(t, dest)
    ensures match ReadData(t, Extent.StartWith(input, Limits.Limits(DEFAULT_MAX_BYTES, DEFAULT_MAX_DEPTH)))
            case Ok(v, st) => r == Success(v) && consumed == st.pos
            case Err(e) => r == Failure(e) && consumed <= DEFAULT_MAX_BYTES
  {
    var reader := new LimitedReader(input, DEFAULT_MAX_BYTES, DEFAULT_MAX_DEPTH);
    r := ReadInto(reader, t, dest);
    consumed := reader.bytesRead;
  }
}
