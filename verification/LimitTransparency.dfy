/** A limited reader succeeds exactly where an unlimited one does within the limits, with the
    same value. */
module LimitTransparency {
  import opened Bytes
  import opened Wire
  import opened Reader
  import opened Extent
  import opened Scalars
  import opened Wrappers
  import opened Dynamic
  import C = Codec

  function Free(st: St): St {
    st.(limits := Unlimited)
  }

  /** The bytes read and the nesting reached so far are within the limits. */
  predicate Within(st: St, limits: Limits) {
    limits.AllowsBytes(st.pos) && limits.AllowsDepth(st.peak)
  }

  /** `limited` is what the limits of `st` leave of `free`. */
  ghost predicate Transparent<T>(st: St, limited: Res<T>, free: Res<T>) {
    && (limited.Ok? <==> free.Ok? && Within(free.st, st.limits))
    && (limited.Ok? ==> limited.value == free.value && limited.st == free.st.(limits := st.limits))
  }

  lemma SkipBlobTransparent(n: nat, st: St)
    requires Within(st, st.limits)
    ensures Transparent(st, SkipBlob(n, st), SkipBlob(n, Free(st)))
  {}

  lemma ReadHeaderTransparent(st: St)
    requires Within(st, st.limits)
    ensures Transparent(st, ReadHeader(st), ReadHeader(Free(st)))
  {}

  lemma EnterScopeTransparent(st: St)
    requires Within(st, st.limits)
    ensures Transparent(st, EnterScope(st), EnterScope(Free(st)))
  {}

  lemma {:induction false} SkipDataTransparent(st: St)
    requires Within(st, st.limits)
    ensures Transparent(st, SkipData(st), SkipData(Free(st)))
    decreases Left(st), 0, 0
  {
    EnterScopeTransparent(st);
    var entered := EnterScope(st);
    if entered.Ok? {
      ReadHeaderTransparent(entered.st);
      var header := ReadHeader(entered.st);
      if header.Ok? {
        SkipEntriesTransparent(header.value.format, header.value.count, header.st);
      }
    }
  }

  lemma {:induction false} SkipEntriesTransparent(format: DataFormat, count: nat, st: St)
    requires Within(st, st.limits)
    ensures Transparent(st, SkipEntries(format, count, st), SkipEntries(format, count, Free(st)))
    decreases Left(st), 3, count
  {
    if count > 0 {
      SkipEntryTransparent(format, st);
      var one := SkipEntry(format, st);
      if one.Ok? {
        SkipEntriesTransparent(format, count - 1, one.st);
      }
    }
  }

  lemma {:induction false} SkipEntryTransparent(format: DataFormat, st: St)
    requires Within(st, st.limits)
    ensures Transparent(st, SkipEntry(format, st), SkipEntry(format, Free(st)))
    decreases Left(st), 2, 0
  {
    SkipBlobTransparent(format.blobSize, st);
    var blob := SkipBlob(format.blobSize, st);
    if blob.Ok? {
      SkipFieldsTransparent(format.dataFields, blob.st);
    }
  }

  lemma {:induction false} SkipFieldsTransparent(fields: nat, st: St)
    requires Within(st, st.limits)
    ensures Transparent(st, SkipFields(fields, st), SkipFields(fields, Free(st)))
    decreases Left(st), 1, fields
  {
    if fields > 0 {
      SkipDataTransparent(st);
      var one := SkipData(st);
      if one.Ok? {
        SkipFieldsTransparent(fields - 1, one.st);
      }
    }
  }

  lemma CaptureTransparent(format: DataFormat, count: nat, st: St)
    requires Within(st, st.limits) && st.pos <= |st.input.bytes|
    ensures Transparent(st, CaptureEntries(format, count, st), CaptureEntries(format, count, Free(st)))
  {
    CaptureIsSkipEntries(format, count, st);
    CaptureIsSkipEntries(format, count, Free(st));
    SkipEntriesTransparent(format, count, st);
  }

  lemma DecodeScalarTransparent(kind: Kind, st: St)
    requires Within(st, st.limits)
    ensures Transparent(st, DecodeScalar(kind, st), DecodeScalar(kind, Free(st)))
  {}

  lemma DecodeTextTransparent(count: nat, st: St)
    requires Within(st, st.limits)
    ensures Transparent(st, DecodeText(count, st), DecodeText(count, Free(st)))
  {}

  // Dynamic values.

  lemma {:induction false} ReadDynTransparent(st: St)
    requires Within(st, st.limits) && st.pos <= |st.input.bytes|
    ensures Transparent(st, ReadDyn(st), ReadDyn(Free(st)))
    decreases Left(st), 0, 0
  {
    EnterScopeTransparent(st);
    var entered := EnterScope(st);
    if entered.Ok? {
      ReadHeaderTransparent(entered.st);
      var header := ReadHeader(entered.st);
      if header.Ok? {
        DecodeDynTransparent(header.value, header.st);
      }
    }
  }

  lemma {:induction false} DecodeDynTransparent(header: DataHeader, st: St)
    requires Within(st, st.limits) && st.pos <= |st.input.bytes|
    ensures Transparent(st, DecodeDyn(header, st), DecodeDyn(header, Free(st)))
    decreases Left(st), 3, 0
  {
    var ordinal := header.format.ordinal;
    if ordinal == UNSPECIFIED_ORDINAL {
      SkipEntriesTransparent(header.format, header.count, st);
    } else if KindOf(ordinal).Some? {
      DecodeScalarOrListTransparent(KindOf(ordinal).value, header, st);
    } else if ordinal == TEXT_ORDINAL {
      DecodeTextTransparent(header.count, st);
    } else if ordinal == LIST_ORDINAL {
      DecodeInnerTransparent(st);
    } else if ordinal == MAP_ORDINAL {
      DecodeInnerTransparent(st);
      var keys := DecodeInner(st);
      if keys.Ok? {
        DecodeInnerTransparent(keys.st);
      }
    } else {
      CaptureTransparent(header.format, header.count, st);
    }
  }

  lemma DecodeScalarOrListTransparent(kind: Kind, header: DataHeader, st: St)
    requires Within(st, st.limits) && OrdinalOf(kind) == header.format.ordinal
    ensures Transparent(st, DecodeScalarOrList(kind, header, st), DecodeScalarOrList(kind, header, Free(st)))
  {
    DecodeScalarTransparent(kind, st);
    DecodeNumbersTransparent(kind, header.count, st);
  }

  lemma {:induction false} DecodeNumbersTransparent(kind: Kind, count: nat, st: St)
    requires Within(st, st.limits)
    ensures Transparent(st, DecodeNumbers(kind, count, st), DecodeNumbers(kind, count, Free(st)))
    decreases count
  {
    if count > 0 {
      DecodeScalarTransparent(kind, st);
      var one := DecodeScalar(kind, st);
      if one.Ok? {
        DecodeNumbersTransparent(kind, count - 1, one.st);
      }
    }
  }

  lemma {:induction false} DecodeInnerTransparent(st: St)
    requires Within(st, st.limits) && st.pos <= |st.input.bytes|
    ensures Transparent(st, DecodeInner(st), DecodeInner(Free(st)))
    decreases Left(st), 2, 0
  {
    ReadHeaderTransparent(st);
    var inner := ReadHeader(st);
    if inner.Ok? {
      var kind := KindOf(inner.value.format.ordinal);
      if kind.Some? {
        DecodeNumbersTransparent(kind.value, inner.value.count, inner.st);
      } else {
        ReadDynsTransparent(inner.value.count, inner.st);
      }
    }
  }

  lemma {:induction false} ReadDynsTransparent(count: nat, st: St)
    requires Within(st, st.limits) && st.pos <= |st.input.bytes|
    ensures Transparent(st, ReadDyns(count, st), ReadDyns(count, Free(st)))
    decreases Left(st), 1, count
  {
    if count > 0 {
      ReadDynTransparent(st);
      var one := ReadDyn(st);
      if one.Ok? {
        ReadDynsTransparent(count - 1, one.st);
      }
    }
  }

  // Statically typed values.

  lemma {:induction false} ReadDataTransparent(t: C.Ty, st: St)
    requires C.WellFormed(t) && Within(st, st.limits) && st.pos <= |st.input.bytes|
    ensures Transparent(st, C.ReadData(t, st), C.ReadData(t, Free(st)))
    decreases t, 1, 0
  {
    hide C.DecodeData;
    hide C.DecodeBlob;
    hide C.FormatOf;
    hide C.WellFormed;
    hide C.BlobSize;
    hide ReadHeader;
    hide ReadExact;
    if C.IsBlob(t) {
      DecodeBlobTransparent(t, st);
    } else {
      EnterScopeTransparent(st);
      var entered := EnterScope(st);
      if entered.Ok? {
        ReadHeaderTransparent(entered.st);
        var header := ReadHeader(entered.st);
        if header.Ok? {
          DecodeDataTransparent(t, header.value, header.st);
        }
      }
    }
  }

  lemma {:induction false} DecodeBlobTransparent(t: C.Ty, st: St)
    requires C.IsBlob(t) && C.WellFormed(t) && Within(st, st.limits)
    ensures Transparent(st, C.DecodeBlob(t, st), C.DecodeBlob(t, Free(st)))
    decreases t, 0, 0
  {
    match t
    case Scalar(kind) => DecodeScalarTransparent(kind, st);
    case Array(n, elem) => DecodeBlobsTransparent(elem, n, st);
  }

  lemma {:induction false} DecodeBlobsTransparent(t: C.Ty, n: nat, st: St)
    requires C.IsBlob(t) && C.WellFormed(t) && Within(st, st.limits)
    ensures Transparent(st, C.DecodeBlobs(t, n, st), C.DecodeBlobs(t, n, Free(st)))
    decreases t, 2, n
  {
    if n > 0 {
      DecodeBlobTransparent(t, st);
      var one := C.DecodeBlob(t, st);
      if one.Ok? {
        DecodeBlobsTransparent(t, n - 1, one.st);
      }
    }
  }

  lemma {:induction false} DecodeDataTransparent(t: C.Ty, header: DataHeader, st: St)
    requires C.WellFormed(t) && !C.IsBlob(t) && Within(st, st.limits) && st.pos <= |st.input.bytes|
    ensures Transparent(st, C.DecodeData(t, header, st), C.DecodeData(t, header, Free(st)))
    decreases t, 0, 0
  {
    match t
    case Text => DecodeTextTransparent(header.count, st);
    case Struct(_, _, _) => DecodeFieldsTransparent(t, header.format, st);
    case List(elem) => ReadManyTransparent(elem, header.format, header.count, st);
    case Option(elem) => ReadNextTransparent(elem, header.format, st);
    case Map(key, value) =>
      ReadListTransparent(key, st);
      var keys := C.ReadList(key, st);
      if keys.Ok? {
        ReadListTransparent(value, keys.st);
      }
    case Unspecified => DecodeDynTransparent(header, st);
  }

  lemma {:induction false} ReadListTransparent(elem: C.Ty, st: St)
    requires C.WellFormed(elem) && Within(st, st.limits) && st.pos <= |st.input.bytes|
    ensures Transparent(st, C.ReadList(elem, st), C.ReadList(elem, Free(st)))
    decreases elem, 4, 0
  {
    hide C.ReadMany;
    hide C.FormatOf;
    hide C.WellFormed;
    hide ReadHeader;
    EnterScopeTransparent(st);
    var entered := EnterScope(st);
    if entered.Ok? {
      ReadHeaderTransparent(entered.st);
      var header := ReadHeader(entered.st);
      if header.Ok? {
        ReadManyTransparent(elem, header.value.format, header.value.count, header.st);
      }
    }
  }

  lemma {:induction false} ReadNextTransparent(t: C.Ty, format: DataFormat, st: St)
    requires C.WellFormed(t) && Within(st, st.limits) && st.pos <= |st.input.bytes|
    ensures Transparent(st, C.ReadNext(t, format, st), C.ReadNext(t, format, Free(st)))
    decreases t, 2, 0
  {
    if C.IsBlob(t) {
      DecodeBlobTransparent(t, st);
    } else if C.FormatOf(t).Data? {
      DecodeDataTransparent(t, DataHeader(1, format), st);
    } else {
      ReadDataTransparent(t, st);
    }
  }

  lemma {:induction false} ReadManyTransparent(t: C.Ty, format: DataFormat, count: nat, st: St)
    requires C.WellFormed(t) && Within(st, st.limits) && st.pos <= |st.input.bytes|
    ensures Transparent(st, C.ReadMany(t, format, count, st), C.ReadMany(t, format, count, Free(st)))
    decreases t, 3, count
  {
    if count > 0 {
      ReadNextTransparent(t, format, st);
      var one := C.ReadNext(t, format, st);
      if one.Ok? {
        ReadManyTransparent(t, format, count - 1, one.st);
      }
    }
  }

  lemma {:induction false} DecodeFieldsTransparent(t: C.Ty, format: DataFormat, st: St)
    requires t.Struct? && C.WellFormed(t) && Within(st, st.limits) && st.pos <= |st.input.bytes|
    ensures Transparent(st, C.DecodeFields(t, format, st), C.DecodeFields(t, format, Free(st)))
    decreases t, -1, 0
  {
    ReadBlobsTransparent(t.blobs, format.blobSize, st);
    var blobs := C.ReadBlobs(t.blobs, format.blobSize, st);
    if blobs.Ok? {
      ReadDatasTransparent(t.datas, format.dataFields, blobs.st);
      var datas := C.ReadDatas(t.datas, format.dataFields, blobs.st);
      if datas.Ok? {
        FinishTransparent(C.LeftBlob(t.blobs, format.blobSize), C.LeftFields(t.datas, format.dataFields), datas.st);
      }
    }
  }

  lemma {:induction false} ReadBlobsTransparent(ts: seq<C.Ty>, remaining: nat, st: St)
    requires forall i :: 0 <= i < |ts| ==> C.IsBlob(ts[i]) && C.WellFormed(ts[i])
    requires Within(st, st.limits)
    ensures Transparent(st, C.ReadBlobs(ts, remaining, st), C.ReadBlobs(ts, remaining, Free(st)))
    decreases ts, 0, 0
  {
    if ts != [] {
      var size := C.BlobSize(ts[0]);
      if remaining >= size {
        DecodeBlobTransparent(ts[0], st);
        var one := C.DecodeBlob(ts[0], st);
        if one.Ok? {
          ReadBlobsTransparent(ts[1..], remaining - size, one.st);
        }
      } else if remaining == 0 {
        ReadBlobsTransparent(ts[1..], 0, st);
      }
    }
  }

  lemma {:induction false} ReadDatasTransparent(ts: seq<C.Ty>, remaining: nat, st: St)
    requires forall i :: 0 <= i < |ts| ==> C.WellFormed(ts[i])
    requires Within(st, st.limits) && st.pos <= |st.input.bytes|
    ensures Transparent(st, C.ReadDatas(ts, remaining, st), C.ReadDatas(ts, remaining, Free(st)))
    decreases ts, 0, 0
  {
    if ts != [] && remaining > 0 {
      ReadDataTransparent(ts[0], st);
      var one := C.ReadData(ts[0], st);
      if one.Ok? {
        ReadDatasTransparent(ts[1..], remaining - 1, one.st);
      }
    }
  }

  lemma FinishTransparent(blob: nat, fields: nat, st: St)
    requires Within(st, st.limits)
    ensures Transparent(st, C.Finish(blob, fields, st), C.Finish(blob, fields, Free(st)))
  {
    SkipBlobTransparent(blob, st);
    var skipped := SkipBlob(blob, st);
    if skipped.Ok? {
      SkipFieldsTransparent(fields, skipped.st);
    }
  }

  /** Decoding anything through a `LimitedReader` succeeds iff decoding it without limits
      succeeds, reads at most `maxBytes` bytes and nests at most `maxDepth` deep; then the
      value is the same, the bytes counted are the bytes consumed, and no scope is left open. */
  lemma LimitsOnlyLimit(t: C.Ty, input: seq<byte>, maxBytes: nat, maxDepth: nat)
    requires C.WellFormed(t)
    ensures var limited := C.ReadData(t, StartWith(input, Limits.Limits(maxBytes, maxDepth)));
            var free := C.ReadData(t, Start(input));
            && (limited.Ok? <==> free.Ok? && free.st.pos <= maxBytes && free.st.peak <= maxDepth)
            && (limited.Ok? ==>
                  && limited.value == free.value && limited.st.pos == free.st.pos
                  && limited.st.pos <= maxBytes && limited.st.depth == 0)
  {
    ReadDataTransparent(t, StartWith(input, Limits.Limits(maxBytes, maxDepth)));
  }
}
