/** The format a schema states is the format of the code generated from it. */
module SchemaFormats {
  import opened Bytes
  import opened Wire
  import opened Wrappers
  import opened Scalars
  import opened Schema
  import opened Parse
  import opened Reader
  import opened Extent
  import opened Framing
  import C = Codec

  /** The generated Rust type. A name that was never resolved stands for data of any kind. */
  function TyOf(t: Type): C.Ty {
    match t
    case Unspecified => C.Unspecified
    case Number(kind) => C.Scalar(kind)
    case Text => C.Text
    case Array(count, elem) => C.Array(count, TyOf(elem))
    case Data(data) => DataTyOf(data)
    case List(elem) => C.List(TyOf(elem))
    case Map(key, value) => C.Map(TyOf(key), TyOf(value))
  }

  function DataTyOf(d: DataType): C.Ty {
    if d.format.Data? then C.Struct(d.format.format.ordinal, FieldTys(d.blobFields), FieldTys(d.dataFields))
    else C.Unspecified
  }

  function FieldTys(fs: seq<DataField>): (ts: seq<C.Ty>)
    ensures |ts| == |fs|
    ensures forall i :: 0 <= i < |fs| ==> ts[i] == FieldTy(fs[i])
  {
    if fs == [] then [] else [FieldTy(fs[0])] + FieldTys(fs[1..])
  }

  function FieldTy(f: DataField): C.Ty {
    if f.optional then C.Option(TyOf(f.typing)) else TyOf(f.typing)
  }

  /** Map keys are types that can be ordered, which the generated code requires. */
  predicate KeysOk(t: Type) {
    match t
    case Array(_, elem) => KeysOk(elem)
    case Data(data) => FieldsKeysOk(data.blobFields) && FieldsKeysOk(data.dataFields)
    case List(elem) => KeysOk(elem)
    case Map(key, value) => C.IsKey(TyOf(key)) && KeysOk(value)
    case _ => true
  }

  predicate FieldsKeysOk(fs: seq<DataField>) {
    forall i :: 0 <= i < |fs| ==> KeysOk(fs[i].typing)
  }

  /** The generated code compiles to the format the schema states. */
  lemma {:induction false} FormatsAgree(t: Type)
    requires Sound(t) && KeysOk(t)
    ensures C.WellFormed(TyOf(t)) && C.FormatOf(TyOf(t)) == TypeFormat(t).value
    decreases t, 1
  {
    match t
    case Array(count, elem) => FormatsAgree(elem);
    case Data(data) =>
      if data.format.Data? {
        DataFormatsAgree(data, data.format.format.ordinal);
      }
    case List(elem) => FormatsAgree(elem);
    case Map(_, value) => FormatsAgree(value);
    case _ =>
  }

  lemma {:induction false} FieldFormatsAgree(f: DataField)
    requires FieldFormat(f).Some? && Sound(f.typing) && KeysOk(f.typing)
    ensures C.WellFormed(FieldTy(f)) && C.FormatOf(FieldTy(f)) == FieldFormat(f).value
    ensures C.IsBlob(FieldTy(f)) <==> IsFixed(f)
    ensures C.BlobSize(FieldTy(f)) == FixedSize(f)
    decreases f, 2
  {
    FormatsAgree(f.typing);
    BlobFormat(FieldTy(f));
  }

  lemma BlobFormat(t: C.Ty)
    requires C.WellFormed(t)
    ensures C.IsBlob(t) ==> C.FormatOf(t) == Blob(C.BlobSize(t))
    ensures !C.IsBlob(t) ==> C.BlobSize(t) == 0
  {}

  lemma {:induction false} DataFormatsAgree(d: DataType, ordinal: byte)
    requires Accounted(d, ordinal) && FieldsKeysOk(d.blobFields) && FieldsKeysOk(d.dataFields)
    ensures C.WellFormed(DataTyOf(d)) && C.FormatOf(DataTyOf(d)) == d.format
    decreases d, 0
  {
    forall i | 0 <= i < |d.blobFields|
      ensures C.WellFormed(FieldTy(d.blobFields[i])) && C.IsBlob(FieldTy(d.blobFields[i]))
      ensures C.BlobSize(FieldTy(d.blobFields[i])) == FixedSize(d.blobFields[i])
    {
      FieldFormatsAgree(d.blobFields[i]);
    }
    forall i | 0 <= i < |d.dataFields|
      ensures C.WellFormed(FieldTy(d.dataFields[i])) && !C.IsBlob(FieldTy(d.dataFields[i]))
    {
      FieldFormatsAgree(d.dataFields[i]);
    }
    TotalsAgree(d.blobFields);
  }

  lemma {:induction false} TotalsAgree(fs: seq<DataField>)
    requires forall i :: 0 <= i < |fs| ==> C.BlobSize(FieldTy(fs[i])) == FixedSize(fs[i])
    ensures C.TotalSize(FieldTys(fs)) == TotalFixed(fs)
  {
    hide C.BlobSize;
    hide FixedSize;
    hide FieldTy;
    if fs != [] {
      var front, last := fs[..|fs| - 1], fs[|fs| - 1];
      TotalsAgree(front);
      assert FieldTys(fs) == FieldTys(front) + [FieldTy(last)];
      TotalSnoc(FieldTys(front), FieldTy(last));
    }
  }

  lemma {:induction false} TotalSnoc(ts: seq<C.Ty>, t: C.Ty)
    ensures C.TotalSize(ts + [t]) == C.TotalSize(ts) + C.BlobSize(t)
  {
    if ts == [] {
      assert [] + [t] == [t] && [t][1..] == [];
    } else {
      assert (ts + [t])[1..] == ts[1..] + [t];
      TotalSnoc(ts[1..], t);
    }
  }

  /** An encoded body is exactly the blob bytes its format states and then that many
      self-describing fields. */
  lemma BodyMatchesFormat(d: DataType, ordinal: byte, v: C.Value, st: St)
    requires Accounted(d, ordinal) && FieldsKeysOk(d.blobFields) && FieldsKeysOk(d.dataFields)
    requires Sendable(DataTyOf(d), v) && At(st, C.Body(DataTyOf(d), v)) && st.limits.Unlimited?
    ensures C.WellFormed(DataTyOf(d))
    ensures |C.Writes(FieldTys(d.blobFields), v.blobs)| == d.format.format.blobSize
    ensures var fields := SkipFields(d.format.format.dataFields, Moved(st, d.format.format.blobSize));
            fields.Ok? && fields.st.pos == st.pos + |C.Body(DataTyOf(d), v)|
  {
    DataFormatsAgree(d, ordinal);
    var t := DataTyOf(d);
    BlobsSize(t.blobs, v.blobs);
    SkipsStruct(t, v, st);
  }

  // `DataType::new` goes by the fields' types and forgets that they may be optional.

  /** The format `DataType::new` arrives at, a field at a time. */
  function NewFormat(format: Format, fs: seq<DataField>): Option<Format>
    decreases fs
  {
    if fs == [] then Some(format)
    else
      var own := TypeFormat(fs[0].typing);
      if own.None? || With(format, own.value).None? then None
      else NewFormat(With(format, own.value).value, fs[1..])
  }

  predicate TypedStructured(fs: seq<DataField>) {
    forall i :: 0 <= i < |fs| ==> TypeFormat(fs[i].typing).Some? && !TypeFormat(fs[i].typing).value.Blob?
  }

  lemma {:induction false} NewDatas(format: DataFormat, fs: seq<DataField>)
    requires forall i :: 0 <= i < |fs| ==> TypeFormat(fs[i].typing).Some?
    requires format.dataFields + |fs| <= 0xFF
    ensures var f := NewFormat(Format.Data(format), fs);
            if TypedStructured(fs) then f == Some(Format.Data(format.(dataFields := format.dataFields + |fs|)))
            else f.Some? ==> f.value.Data? && f.value.format.dataFields < format.dataFields + |fs|
    decreases fs
  {
    if fs != [] {
      var own := TypeFormat(fs[0].typing).value;
      var next := With(Format.Data(format), own);
      if next.Some? {
        NewDatas(next.value.format, fs[1..]);
        assert TypedStructured(fs) <==> !own.Blob? && TypedStructured(fs[1..]) by {
          forall i | 1 <= i < |fs|
            ensures fs[i] == fs[1..][i - 1]
          {}
        }
      }
    }
  }

  lemma {:induction false} NewBlobs(format: DataFormat, fs: seq<DataField>)
    requires forall i :: 0 <= i < |fs| ==> !fs[i].optional && IsFixed(fs[i])
    requires format.blobSize + TotalFixed(fs) <= 0xFFFF
    ensures NewFormat(Format.Data(format), fs) == Some(Format.Data(format.(blobSize := format.blobSize + TotalFixed(fs))))
    decreases fs
  {
    if fs != [] {
      TotalCons(fs);
      NewBlobs(format.(blobSize := format.blobSize + FixedSize(fs[0])), fs[1..]);
    }
  }

  lemma {:induction false} TotalCons(fs: seq<DataField>)
    requires fs != []
    ensures TotalFixed(fs) == FixedSize(fs[0]) + TotalFixed(fs[1..])
  {
    if |fs| > 1 {
      assert fs[..|fs| - 1][1..] == fs[1..][..|fs| - 2];
      TotalCons(fs[..|fs| - 1]);
    }
  }

  /** The two ways to build a data type give it the same format exactly when no structured
      field is structured only because it is optional. */
  lemma NewAgreesWithAdding(d: DataType, ordinal: byte)
    requires Accounted(d, ordinal)
    ensures var blobs := NewFormat(Format.Data(DataFormat(0, 0, ordinal)), d.blobFields);
            && blobs.Some?
            && (NewFormat(blobs.value, d.dataFields) == Some(d.format) <==> TypedStructured(d.dataFields))
  {
    NewBlobs(DataFormat(0, 0, ordinal), d.blobFields);
    NewDatas(DataFormat(TotalFixed(d.blobFields), 0, ordinal), d.dataFields);
  }

  /** One optional number is enough for them to differ: `with` counts a structured field,
      `new` a byte. */
  lemma OptionalIsForgotten() returns (d: DataType)
    ensures Accounted(d, 1) && d.format == Format.Data(DataFormat(0, 1, 1))
    ensures d.blobFields == [] && NewFormat(Format.Data(DataFormat(0, 0, 1)), d.dataFields) == Some(Format.Data(DataFormat(1, 0, 1)))
  {
    var f := DataField([], None, Number(U8), true, false);
    d := DataType([], None, [], [f], Format.Data(DataFormat(0, 1, 1)));
    assert d.dataFields[1..] == [];
  }
}
