/** From parsed fields to data types: every accepted data type has exactly the format of its
    fields, and no assertion about formats fires on the way. */
module Parse {
  import opened Bytes
  import opened Wire
  import opened Wrappers
  import opened Scalars
  import opened Schema

  /** What the Markdown parser hands over. */
  datatype ParsedType =
    | Named(name: seq<byte>)
    | ListOf(dimensions: nat, inner: ParsedType)
    | MapOf(key: seq<byte>, value: seq<byte>)
    | ArrayOf(count: nat, elem: ParsedType)

  datatype ParsedField = ParsedField(
    name: seq<byte>, docs: Option<seq<byte>>, typing: ParsedType, optional: bool, flattened: bool)

  datatype ParsedData = ParsedData(name: seq<byte>, docs: Option<seq<byte>>, fields: seq<ParsedField>)

  datatype ParseError =
    | TooManyDataTypes
    | BlobSectionOverflow(data: seq<byte>)
    | InvalidArraySize(count: nat)
    | ArrayTooLarge(bytes: nat)
    | ArrayElementNotFixedSize

  /** `Panicked` is a failed assertion. */
  datatype Outcome<+T> = Parsed(value: T) | Rejected(error: ParseError) | Panicked
  {
    predicate IsFailure() {
      !Parsed?
    }

    function PropagateFailure<U>(): Outcome<U>
      requires !Parsed?
    {
      if Rejected? then Rejected(error) else Panicked
    }

    function Extract(): T
      requires Parsed?
    {
      value
    }
  }

  const MAX_USER_ORDINAL := 240

  /** `Format::with`; `None` is one of its assertions failing. */
  function With(f: Format, other: Format): Option<Format> {
    match f
    case Blob(size) =>
      if other.Blob? then (if size + other.size <= 0xFFFF then Some(Blob(size + other.size)) else None)
      else Some(Format.Data(DataFormat(size, 1, 0)))
    case Data(format) =>
      if other.Blob? then
        if format.blobSize + other.size <= 0xFFFF then
          Some(Format.Data(format.(blobSize := format.blobSize + other.size)))
        else None
      else if format.dataFields < 0xFF then Some(Format.Data(format.(dataFields := format.dataFields + 1)))
      else None
    case Sequence(_) => None
    case Fluid => Some(Fluid)
  }

  /** `Type::format`; `None` is one of its assertions failing. */
  function TypeFormat(t: Type): Option<Format> {
    match t
    case Unspecified => Some(Fluid)
    case Number(kind) => Some(Blob(Width(kind)))
    case Text => Some(Sequence(DataFormat(1, 0, 0)))
    case Array(count, elem) =>
      var f := TypeFormat(elem);
      if f.Some? && f.value.Blob? && count * f.value.size <= 0xFFFF then
        assert count * f.value.size >= 0;
        Some(Blob(count * f.value.size))
      else None
    case Data(data) => Some(data.format)
    case List(elem) =>
      var f := TypeFormat(elem);
      if f.Some? then Some(f.value.AsSequence()) else None
    case Map(_, _) => Some(Format.Data(DataFormat(0, 2, 0)))
  }

  /** `DataField::format`. */
  function FieldFormat(f: DataField): Option<Format> {
    var format := TypeFormat(f.typing);
    if f.optional && format.Some? then Some(format.value.AsSequence()) else format
  }

  predicate IsFixed(f: DataField) {
    FieldFormat(f).Some? && FieldFormat(f).value.Blob?
  }

  function FixedSize(f: DataField): nat {
    if IsFixed(f) then FieldFormat(f).value.size else 0
  }

  function TotalFixed(fs: seq<DataField>): nat {
    if fs == [] then 0 else TotalFixed(fs[..|fs| - 1]) + FixedSize(fs[|fs| - 1])
  }

  /** The format is the sum of the blob sizes, the count of the structured fields and the ordinal. */
  predicate Accounted(d: DataType, ordinal: byte) {
    && TotalFixed(d.blobFields) <= 0xFFFF && |d.dataFields| <= 0xFF
    && d.format == Format.Data(DataFormat(TotalFixed(d.blobFields), |d.dataFields|, ordinal))
    && (forall i :: 0 <= i < |d.blobFields| ==> IsFixed(d.blobFields[i]) && Sound(d.blobFields[i].typing))
    && (forall i :: 0 <= i < |d.dataFields| ==>
          FieldFormat(d.dataFields[i]).Some? && !IsFixed(d.dataFields[i]) && Sound(d.dataFields[i].typing))
  }

  /** No assertion fires on the type's format, and nested data types are accounted for. */
  predicate Sound(t: Type) {
    && TypeFormat(t).Some?
    && match t
       case Array(_, elem) => Sound(elem)
       case Data(data) =>
         (data.format.Fluid? && data.blobFields == [] && data.dataFields == [])
         || (data.format.Data? && Accounted(data, data.format.format.ordinal))
       case List(elem) => Sound(elem)
       case Map(key, value) => Sound(key) && Sound(value)
       case _ => true
  }

  /** `eq_ignore_ascii_case`. */
  function Lower(c: byte): byte {
    if 'A' as int <= c <= 'Z' as int then c + 32 else c
  }

  predicate SameName(a: seq<byte>, b: seq<byte>) {
    |a| == |b| && forall i :: 0 <= i < |a| ==> Lower(a[i]) == Lower(b[i])
  }

  function Ascii(s: string): seq<byte> {
    seq(|s|, i requires 0 <= i < |s| => s[i] as int % 256)
  }

  /** `Type::from_name`. */
  function FromName(name: seq<byte>): Option<Type> {
    if name == Ascii("unspecified") then Some(Unspecified)
    else if name == Ascii("u8") then Some(Number(U8))
    else if name == Ascii("u16") then Some(Number(U16))
    else if name == Ascii("u32") then Some(Number(U32))
    else if name == Ascii("u64") then Some(Number(U64))
    else if name == Ascii("i8") then Some(Number(I8))
    else if name == Ascii("i16") then Some(Number(I16))
    else if name == Ascii("i32") then Some(Number(I32))
    else if name == Ascii("i64") then Some(Number(I64))
    else if name == Ascii("f32") then Some(Number(F32))
    else if name == Ascii("f64") then Some(Number(F64))
    else if name == Ascii("bool") then Some(Number(Bool))
    else if name == Ascii("text") then Some(Text)
    else None
  }

  ghost predicate AllAccounted(ds: seq<DataType>) {
    |ds| <= MAX_USER_ORDINAL && forall k :: 0 <= k < |ds| ==> Accounted(ds[k], k + 1)
  }

  // What the parser makes of names and types.

  /** The first of the data types with this name, in any case. */
  function Known(data: seq<DataType>, name: seq<byte>): Option<DataType> {
    if data == [] then None
    else if SameName(data[0].name, name) then Some(data[0])
    else Known(data[1..], name)
  }

  /** Data types come before built-in ones; an unknown name stands for a fluid data type. */
  function TypeNamed(data: seq<DataType>, name: seq<byte>): Type {
    var d := Known(data, name);
    if d.Some? then Type.Data(d.value)
    else
      var builtIn := FromName(name);
      if builtIn.Some? then builtIn.value else Type.Data(DataType(name, None, [], [], Fluid))
  }

  function Lists(n: nat, t: Type): Type {
    if n == 0 then t else List(Lists(n - 1, t))
  }

  function Resolved(data: seq<DataType>, typing: ParsedType): Outcome<Type> {
    match typing
    case Named(name) => Parsed(TypeNamed(data, name))
    case ListOf(dimensions, inner) =>
      var t := Resolved(data, inner);
      if t.Parsed? then Parsed(Lists(dimensions, t.value)) else t
    case MapOf(key, value) => Parsed(Map(TypeNamed(data, key), TypeNamed(data, value)))
    case ArrayOf(count, inner) =>
      if count == 0 || count > 0xFFFF then Rejected(InvalidArraySize(count))
      else
        var elem := Resolved(data, inner);
        if !elem.Parsed? then elem
        else if TypeFormat(elem.value).None? then Panicked
        else if !TypeFormat(elem.value).value.Blob? then Rejected(ArrayElementNotFixedSize)
        else ArrayOrTooLarge(count, elem.value, count * TypeFormat(elem.value).value.size)
  }

  function ArrayOrTooLarge(count: nat, elem: Type, bytes: int): Outcome<Type>
    requires count <= 0xFFFF
  {
    if bytes > 0xFFFF then Rejected(ArrayTooLarge(bytes)) else Parsed(Array(count, elem))
  }

  /** `Known` is the first match. */
  lemma {:induction false} KnownIsFirst(data: seq<DataType>, name: seq<byte>, i: nat)
    requires i < |data| && SameName(data[i].name, name)
    requires forall k :: 0 <= k < i ==> !SameName(data[k].name, name)
    ensures Known(data, name) == Some(data[i])
  {
    if i > 0 {
      KnownIsFirst(data[1..], name, i - 1);
    }
  }

  lemma {:induction false} NotKnown(data: seq<DataType>, name: seq<byte>)
    requires forall k :: 0 <= k < |data| ==> !SameName(data[k].name, name)
    ensures Known(data, name).None?
  {
    if data != [] {
      NotKnown(data[1..], name);
    }
  }

  /** The name of a type that has one of its own. */
  function NameOf(t: Type): Option<seq<byte>> {
    match t
    case Unspecified => Some(Ascii("unspecified"))
    case Number(U8) => Some(Ascii("u8"))
    case Number(U16) => Some(Ascii("u16"))
    case Number(U32) => Some(Ascii("u32"))
    case Number(U64) => Some(Ascii("u64"))
    case Number(I8) => Some(Ascii("i8"))
    case Number(I16) => Some(Ascii("i16"))
    case Number(I32) => Some(Ascii("i32"))
    case Number(I64) => Some(Ascii("i64"))
    case Number(F32) => Some(Ascii("f32"))
    case Number(F64) => Some(Ascii("f64"))
    case Number(Bool) => Some(Ascii("bool"))
    case Text => Some(Ascii("text"))
    case _ => None
  }

  lemma Spelled()
    ensures Ascii("unspecified") == [117, 110, 115, 112, 101, 99, 105, 102, 105, 101, 100]
    ensures Ascii("u8") == [117, 56]
    ensures Ascii("u16") == [117, 49, 54]
    ensures Ascii("u32") == [117, 51, 50]
    ensures Ascii("u64") == [117, 54, 52]
    ensures Ascii("i8") == [105, 56]
    ensures Ascii("i16") == [105, 49, 54]
    ensures Ascii("i32") == [105, 51, 50]
    ensures Ascii("i64") == [105, 54, 52]
    ensures Ascii("f32") == [102, 51, 50]
    ensures Ascii("f64") == [102, 54, 52]
    ensures Ascii("bool") == [98, 111, 111, 108]
    ensures Ascii("text") == [116, 101, 120, 116]
  {}

  /** `from_name` recognises exactly the names of the built-in types, in lower case. */
  lemma FromNameIff(name: seq<byte>, t: Type)
    ensures FromName(name) == Some(t) <==> NameOf(t) == Some(name)
  {
    Spelled();
    hide Ascii;
  }

  /** `t` is what a name stands for: the first data type with the name in any case; if there is
      none, the built-in type of exactly that name; if that is not one, a fluid data type. */
  predicate NameMeans(data: seq<DataType>, name: seq<byte>, t: Type) {
    if exists i :: 0 <= i < |data| && SameName(data[i].name, name) then
      exists i :: 0 <= i < |data| && SameName(data[i].name, name) && t == Type.Data(data[i])
                  && forall k :: 0 <= k < i ==> !SameName(data[k].name, name)
    else
      NameOf(t) == Some(name) || (FromName(name).None? && t == Type.Data(DataType(name, None, [], [], Fluid)))
  }

  /** `t` is what a parsed type describes. */
  predicate Means(data: seq<DataType>, typing: ParsedType, t: Type)
    decreases typing, 0
  {
    match typing
    case Named(name) => NameMeans(data, name, t)
    case ListOf(dimensions, inner) => MeansLists(data, dimensions, inner, t)
    case MapOf(key, value) => t.Map? && NameMeans(data, key, t.key) && NameMeans(data, value, t.value)
    case ArrayOf(count, inner) =>
      && t.Array? && 1 <= count == t.count && Means(data, inner, t.elem)
      && TypeFormat(t.elem).Some? && TypeFormat(t.elem).value.Blob? && count * TypeFormat(t.elem).value.size <= 0xFFFF
  }

  predicate MeansLists(data: seq<DataType>, dimensions: nat, inner: ParsedType, t: Type)
    decreases inner, 1, dimensions
  {
    if dimensions == 0 then Means(data, inner, t)
    else t.List? && MeansLists(data, dimensions - 1, inner, t.elem)
  }

  lemma {:induction false} KnownIff(data: seq<DataType>, name: seq<byte>)
    ensures Known(data, name).Some? <==> exists i :: 0 <= i < |data| && SameName(data[i].name, name)
    ensures Known(data, name).Some? ==>
              exists i :: 0 <= i < |data| && SameName(data[i].name, name) && data[i] == Known(data, name).value
                          && forall k :: 0 <= k < i ==> !SameName(data[k].name, name)
  {
    if data != [] && !SameName(data[0].name, name) {
      KnownIff(data[1..], name);
      if Known(data[1..], name).Some? {
        var i :| 0 <= i < |data[1..]| && SameName(data[1..][i].name, name) && data[1..][i] == Known(data[1..], name).value
                 && forall k :: 0 <= k < i ==> !SameName(data[1..][k].name, name);
        assert data[i + 1] == data[1..][i];
        assert forall k :: 1 <= k < i + 1 ==> data[k] == data[1..][k - 1];
      } else {
        assert forall k :: 1 <= k < |data| ==> data[k] == data[1..][k - 1];
      }
    }
  }

  lemma NamedIffMeans(data: seq<DataType>, name: seq<byte>, t: Type)
    ensures TypeNamed(data, name) == t <==> NameMeans(data, name, t)
  {
    hide SameName;
    hide FromName;
    hide NameOf;
    KnownIff(data, name);
    FromNameIff(name, t);
    if Known(data, name).Some? {
      var i :| 0 <= i < |data| && SameName(data[i].name, name) && data[i] == Known(data, name).value
               && forall k :: 0 <= k < i ==> !SameName(data[k].name, name);
      if NameMeans(data, name, t) {
        var j :| 0 <= j < |data| && SameName(data[j].name, name) && t == Type.Data(data[j])
                 && forall k :: 0 <= k < j ==> !SameName(data[k].name, name);
        assert i == j;
      }
    }
  }

  /** A parsed type resolves to a type exactly when it describes it. */
  lemma {:induction false} ResolvedIffMeans(data: seq<DataType>, typing: ParsedType, t: Type)
    ensures Resolved(data, typing) == Parsed(t) <==> Means(data, typing, t)
    decreases typing, 0
  {
    hide TypeNamed;
    hide NameMeans;
    match typing
    case Named(name) => NamedIffMeans(data, name, t);
    case ListOf(dimensions, inner) => ListsMeans(data, dimensions, inner, t);
    case MapOf(key, value) =>
      if t.Map? {
        NamedIffMeans(data, key, t.key);
        NamedIffMeans(data, value, t.value);
      }
    case ArrayOf(count, inner) =>
      if t.Array? {
        ResolvedIffMeans(data, inner, t.elem);
      }
  }

  lemma {:induction false} ListsMeans(data: seq<DataType>, dimensions: nat, inner: ParsedType, t: Type)
    ensures Resolved(data, ListOf(dimensions, inner)) == Parsed(t) <==> MeansLists(data, dimensions, inner, t)
    decreases inner, 1, dimensions
  {
    if dimensions == 0 {
      ResolvedIffMeans(data, inner, t);
    } else if t.List? {
      ListsMeans(data, dimensions - 1, inner, t.elem);
    }
  }

  /** What is wrong with a parsed type: of nested types the innermost that is wrong, except
      that the size of an array is looked at first and its elements' format last. */
  predicate Faulty(data: seq<DataType>, typing: ParsedType, e: ParseError)
    decreases typing
  {
    match typing
    case Named(_) => false
    case MapOf(_, _) => false
    case ListOf(_, inner) => Faulty(data, inner, e)
    case ArrayOf(count, inner) =>
      if 1 <= count <= 0xFFFF then
        Faulty(data, inner, e) || (Resolved(data, inner).Parsed? && FaultyElement(count, Resolved(data, inner).value, e))
      else e == InvalidArraySize(count)
  }

  /** An array of `count` such elements has no fixed size, or one over 65535 bytes. */
  predicate FaultyElement(count: nat, elem: Type, e: ParseError) {
    match TypeFormat(elem)
    case Some(Blob(size)) => count * size > 0xFFFF && e == ArrayTooLarge(count * size)
    case Some(_) => e == ArrayElementNotFixedSize
    case None => false
  }

  lemma {:induction false} RejectedIffFaulty(data: seq<DataType>, typing: ParsedType, e: ParseError)
    requires AllAccounted(data)
    ensures Resolved(data, typing) == Rejected(e) <==> Faulty(data, typing, e)
    decreases typing
  {
    match typing
    case Named(_) =>
    case MapOf(_, _) =>
    case ListOf(_, inner) => RejectedIffFaulty(data, inner, e);
    case ArrayOf(_, inner) => RejectedIffFaulty(data, inner, e);
  }

  /** Names that differ in nothing but case are the same data type if there is one, and never
      the same built-in or unknown type. */
  lemma CaseOfNames(data: seq<DataType>, a: seq<byte>, b: seq<byte>)
    requires SameName(a, b)
    ensures Known(data, a) == Known(data, b)
    ensures TypeNamed(data, a) == TypeNamed(data, b) <==> Known(data, a).Some? || a == b
  {
    KnownInAnyCase(data, a, b);
    var t := TypeNamed(data, a);
    FromNameIff(a, t);
    FromNameIff(b, t);
    BuiltInsAreNotData(a);
    BuiltInsAreNotData(b);
    hide SameName;
    hide FromName;
    hide NameOf;
  }

  lemma BuiltInsAreNotData(name: seq<byte>)
    ensures FromName(name).Some? ==> !FromName(name).value.Data?
  {
    hide Ascii;
  }

  lemma {:induction false} KnownInAnyCase(data: seq<DataType>, a: seq<byte>, b: seq<byte>)
    requires SameName(a, b)
    ensures Known(data, a) == Known(data, b)
  {
    if data != [] {
      assert SameName(data[0].name, a) <==> SameName(data[0].name, b);
      KnownInAnyCase(data[1..], a, b);
    }
  }

  /** `type_from_name`, with the fluid data type of `resolve_field_type` for unknown names. */
  method ResolveName(data: seq<DataType>, name: seq<byte>) returns (t: Type)
    requires AllAccounted(data)
    ensures Sound(t) && t == TypeNamed(data, name)
  {
    hide Ascii;
    var i := 0;
    while i < |data|
      invariant i <= |data| && forall k :: 0 <= k < i ==> !SameName(data[k].name, name)
    {
      if SameName(data[i].name, name) {
        KnownIsFirst(data, name, i);
        return Type.Data(data[i]);
      }
      i := i + 1;
    }
    NotKnown(data, name);
    var builtIn := FromName(name);
    t := if builtIn.Some? then builtIn.value else Type.Data(DataType(name, None, [], [], Fluid));
  }

  /** `resolve_field_type`. The product of an array's sizes fits in 32 bits. */
  method Resolve(data: seq<DataType>, typing: ParsedType) returns (r: Outcome<Type>)
    requires AllAccounted(data)
    ensures r == Resolved(data, typing)
    ensures r.Parsed? ==> Sound(r.value)
    ensures !r.Panicked?
    decreases typing
  {
    match typing
    case Named(name) =>
      var t := ResolveName(data, name);
      r := Parsed(t);
    case ListOf(dimensions, inner) =>
      var t :- Resolve(data, inner);
      ghost var start := t;
      var i := 0;
      while i < dimensions
        invariant i <= dimensions && t == Lists(i, start) && Sound(t)
      {
        t := List(t);
        i := i + 1;
      }
      r := Parsed(t);
    case MapOf(keyName, valueName) =>
      var key := ResolveName(data, keyName);
      var value := ResolveName(data, valueName);
      r := Parsed(Map(key, value));
    case ArrayOf(count, inner) =>
      if count == 0 || count > 0xFFFF {
        return Rejected(InvalidArraySize(count));
      }
      var elem :- Resolve(data, inner);
      var format := TypeFormat(elem).value;
      if !format.Blob? {
        return Rejected(ArrayElementNotFixedSize);
      }
      ProductFits(count, format.size);
      var bytes: u32 := count * format.size;
      if bytes > 0xFFFF {
        return Rejected(ArrayTooLarge(bytes));
      }
      r := Parsed(Array(count, elem));
  }

  lemma ProductFits(a: nat, b: nat)
    requires a <= 0xFFFF && b <= 0xFFFF
    ensures 0 <= a * b < 0x1_0000_0000
  {
    assert a * b <= 0xFFFF * b;
  }

  /** `DataType::with`, behind the guard of `parse`. The one assertion that can fire is on a
      256th structured field. */
  method AddField(d: DataType, f: DataField, ordinal: byte) returns (r: Outcome<DataType>)
    requires Accounted(d, ordinal) && Sound(f.typing)
    ensures r.Panicked? <==> !IsFixed(f) && |d.dataFields| == 0xFF
    ensures r.Rejected? <==> IsFixed(f) && TotalFixed(d.blobFields) + FixedSize(f) > 0xFFFF
    ensures r.Rejected? ==> r.error == BlobSectionOverflow(d.name)
    ensures r.Parsed? ==> Accounted(r.value, ordinal) && r.value.name == d.name && r.value.docs == d.docs
    ensures r.Parsed? ==> r.value.blobFields == d.blobFields + (if IsFixed(f) then [f] else [])
    ensures r.Parsed? ==> r.value.dataFields == d.dataFields + (if IsFixed(f) then [] else [f])
  {
    if !f.optional {
      var own := TypeFormat(f.typing).value;
      if own.Blob? && d.format.AsDataFormat().blobSize + own.size > 0xFFFF {
        return Rejected(BlobSectionOverflow(d.name));
      }
    }
    var format := FieldFormat(f).value;
    var whole := With(d.format, format);
    if whole.None? {
      return Panicked;
    }
    if format.Blob? {
      assert (d.blobFields + [f])[..|d.blobFields|] == d.blobFields;
      r := Parsed(d.(blobFields := d.blobFields + [f], format := whole.value));
    } else {
      r := Parsed(d.(dataFields := d.dataFields + [f], format := whole.value));
    }
    assert d.blobFields + [] == d.blobFields && d.dataFields + [] == d.dataFields;
  }

  /** The fixed-size fields among `fs`, in order, and the others. */
  function FixedAmong(fs: seq<DataField>, fixed: bool): seq<DataField> {
    if fs == [] then []
    else FixedAmong(fs[..|fs| - 1], fixed) + (if IsFixed(fs[|fs| - 1]) == fixed then [fs[|fs| - 1]] else [])
  }

  // What the parser makes of a data type.

  /** How many of `fs` are not of fixed size. */
  function Structured(fs: seq<DataField>): nat {
    |FixedAmong(fs, false)|
  }

  function FieldOf(data: seq<DataType>, p: ParsedField): Outcome<DataField> {
    var typing := Resolved(data, p.typing);
    if typing.Parsed? then Parsed(DataField(p.name, p.docs, typing.value, p.optional, p.flattened))
    else typing.PropagateFailure()
  }

  /** Fields are added in order, up to the first that cannot be. */
  function FieldsOf(data: seq<DataType>, fields: seq<ParsedField>, name: seq<byte>): (r: Outcome<seq<DataField>>)
    ensures r.Parsed? ==> InFormat(r.value)
  {
    if fields == [] then Parsed([])
    else
      var before := FieldsOf(data, fields[..|fields| - 1], name);
      if !before.Parsed? then before
      else
        var f := FieldOf(data, fields[|fields| - 1]);
        if !f.Parsed? then f.PropagateFailure()
        else Added(before.value, f.value, name)
  }

  /** The fields can be counted in a format. */
  predicate InFormat(fs: seq<DataField>) {
    TotalFixed(fs) <= 0xFFFF && Structured(fs) <= 0xFF
  }

  function Added(fs: seq<DataField>, f: DataField, name: seq<byte>): (r: Outcome<seq<DataField>>)
    requires InFormat(fs)
    ensures r.Parsed? ==> InFormat(r.value)
  {
    assert (fs + [f])[..|fs|] == fs;
    if IsFixed(f) && TotalFixed(fs) + FixedSize(f) > 0xFFFF then Rejected(BlobSectionOverflow(name))
    else if !IsFixed(f) && Structured(fs) == 0xFF then Panicked
    else Parsed(fs + [f])
  }

  function DataOf(data: seq<DataType>, parsed: ParsedData, ordinal: byte): Outcome<DataType> {
    var fs := FieldsOf(data, parsed.fields, parsed.name);
    if !fs.Parsed? then fs.PropagateFailure()
    else
      var format := DataFormat(TotalFixed(fs.value), Structured(fs.value), ordinal);
      Parsed(DataType(parsed.name, parsed.docs, FixedAmong(fs.value, true), FixedAmong(fs.value, false), Format.Data(format)))
  }

  function CodaOf(parsed: seq<ParsedData>): (r: Outcome<seq<DataType>>)
    ensures r.Parsed? ==> |r.value| == |parsed|
  {
    if parsed == [] then Parsed([])
    else
      var before := CodaOf(parsed[..|parsed| - 1]);
      if !before.Parsed? then before
      else if |parsed| > MAX_USER_ORDINAL then Rejected(TooManyDataTypes)
      else
        var d := DataOf(before.value, parsed[|parsed| - 1], |parsed|);
        if d.Parsed? then Parsed(before.value + [d.value]) else d.PropagateFailure()
  }

  // The same without order: which data types are accepted, and what stops the others.

  /** Every field has a type. */
  predicate Resolvable(data: seq<DataType>, fields: seq<ParsedField>) {
    forall k :: 0 <= k < |fields| ==> FieldOf(data, fields[k]).Parsed?
  }

  function Meant(data: seq<DataType>, fields: seq<ParsedField>): (fs: seq<DataField>)
    requires Resolvable(data, fields)
    ensures |fs| == |fields| && forall k :: 0 <= k < |fs| ==> fs[k] == FieldOf(data, fields[k]).value
  {
    if fields == [] then []
    else Meant(data, fields[..|fields| - 1]) + [FieldOf(data, fields[|fields| - 1]).value]
  }

  /** All fields resolve, and together they can be counted in a format. */
  predicate Fits(data: seq<DataType>, fields: seq<ParsedField>) {
    Resolvable(data, fields) && InFormat(Meant(data, fields))
  }

  /** Field `k` is a 256th structured field, and nothing before it stops the parser. */
  predicate PanicsAt(data: seq<DataType>, fields: seq<ParsedField>, k: nat)
    requires k < |fields|
  {
    && Fits(data, fields[..k]) && FieldOf(data, fields[k]).Parsed?
    && !IsFixed(FieldOf(data, fields[k]).value) && Structured(Meant(data, fields[..k])) == 0xFF
  }

  /** Field `k` has no type, or its bytes do not fit, and nothing before it stops the parser. */
  predicate RejectsAt(data: seq<DataType>, fields: seq<ParsedField>, name: seq<byte>, k: nat, e: ParseError)
    requires k < |fields|
  {
    && Fits(data, fields[..k])
    && match FieldOf(data, fields[k])
       case Rejected(e') => e == e'
       case Parsed(f) =>
         IsFixed(f) && TotalFixed(Meant(data, fields[..k])) + FixedSize(f) > 0xFFFF && e == BlobSectionOverflow(name)
       case Panicked => false
  }

  lemma {:induction false} ResolvedIsSound(data: seq<DataType>, typing: ParsedType)
    requires AllAccounted(data)
    ensures !Resolved(data, typing).Panicked?
    ensures Resolved(data, typing).Parsed? ==> Sound(Resolved(data, typing).value)
  {
    hide Ascii;
    match typing
    case Named(name) => NamedIsSound(data, name);
    case ListOf(dimensions, inner) =>
      ResolvedIsSound(data, inner);
      if Resolved(data, inner).Parsed? {
        ListsAreSound(dimensions, Resolved(data, inner).value);
      }
    case MapOf(key, value) =>
      NamedIsSound(data, key);
      NamedIsSound(data, value);
    case ArrayOf(_, inner) => ResolvedIsSound(data, inner);
  }

  lemma {:induction false} ListsAreSound(n: nat, t: Type)
    requires Sound(t)
    ensures Sound(Lists(n, t))
  {
    if n > 0 {
      ListsAreSound(n - 1, t);
    }
  }

  lemma NamedIsSound(data: seq<DataType>, name: seq<byte>)
    requires AllAccounted(data)
    ensures Sound(TypeNamed(data, name))
  {
    hide Ascii;
    KnownIsAmong(data, name);
  }

  lemma {:induction false} KnownIsAmong(data: seq<DataType>, name: seq<byte>)
    ensures Known(data, name).Some? ==> exists k :: 0 <= k < |data| && data[k] == Known(data, name).value
  {
    if data != [] && !SameName(data[0].name, name) {
      KnownIsAmong(data[1..], name);
    }
  }

  lemma MeantFront(data: seq<DataType>, fields: seq<ParsedField>)
    requires fields != [] && Resolvable(data, fields)
    ensures var n := |fields| - 1;
            && Resolvable(data, fields[..n])
            && Meant(data, fields) == Meant(data, fields[..n]) + [FieldOf(data, fields[n]).value]
            && TotalFixed(Meant(data, fields))
               == TotalFixed(Meant(data, fields[..n])) + FixedSize(FieldOf(data, fields[n]).value)
            && Structured(Meant(data, fields))
               == Structured(Meant(data, fields[..n])) + (if IsFixed(FieldOf(data, fields[n]).value) then 0 else 1)
  {
    var n := |fields| - 1;
    assert Meant(data, fields)[..n] == Meant(data, fields[..n]);
  }

  /** One more field fits exactly when it can be added. */
  lemma FitsSnoc(data: seq<DataType>, fields: seq<ParsedField>, name: seq<byte>)
    requires AllAccounted(data) && fields != []
    ensures var n := |fields| - 1;
            var f := FieldOf(data, fields[n]);
            && (Fits(data, fields) <==>
                Fits(data, fields[..n]) && f.Parsed? && Added(Meant(data, fields[..n]), f.value, name).Parsed?)
            && (Fits(data, fields) ==>
                Added(Meant(data, fields[..n]), f.value, name) == Parsed(Meant(data, fields)))
  {
    hide FieldOf;
    hide IsFixed;
    hide FixedSize;
    hide TotalFixed;
    hide FixedAmong;
    hide Meant;
    var n := |fields| - 1;
    assert Resolvable(data, fields) <==> Resolvable(data, fields[..n]) && FieldOf(data, fields[n]).Parsed?;
    if Resolvable(data, fields) {
      MeantFront(data, fields);
      NotFixedIsNothing(FieldOf(data, fields[n]).value);
    }
  }

  /** A data type is accepted exactly when its fields resolve and fit, in whatever order. */
  lemma {:induction false} AcceptsIff(data: seq<DataType>, fields: seq<ParsedField>, name: seq<byte>)
    requires AllAccounted(data)
    ensures FieldsOf(data, fields, name).Parsed? <==> Fits(data, fields)
    ensures Fits(data, fields) ==> FieldsOf(data, fields, name) == Parsed(Meant(data, fields))
    decreases |fields|
  {
    if fields != [] {
      hide FieldOf;
      hide Fits;
      hide Added;
      hide Meant;
      AcceptsIff(data, fields[..|fields| - 1], name);
      FitsSnoc(data, fields, name);
    }
  }

  predicate PanicsSomewhere(data: seq<DataType>, fields: seq<ParsedField>) {
    exists k :: 0 <= k < |fields| && PanicsAt(data, fields, k)
  }

  predicate RejectsSomewhere(data: seq<DataType>, fields: seq<ParsedField>, name: seq<byte>, e: ParseError) {
    exists k :: 0 <= k < |fields| && RejectsAt(data, fields, name, k, e)
  }

  lemma StopsBefore(data: seq<DataType>, fields: seq<ParsedField>, name: seq<byte>, e: ParseError, n: nat, k: nat)
    requires k < n <= |fields|
    ensures PanicsAt(data, fields[..n], k) <==> PanicsAt(data, fields, k)
    ensures RejectsAt(data, fields[..n], name, k, e) <==> RejectsAt(data, fields, name, k, e)
  {
    assert fields[..n][..k] == fields[..k];
  }

  lemma StopsBeforeOrLast(data: seq<DataType>, fields: seq<ParsedField>, name: seq<byte>, e: ParseError)
    requires fields != []
    ensures var n := |fields| - 1;
            && (PanicsSomewhere(data, fields) <==> PanicsSomewhere(data, fields[..n]) || PanicsAt(data, fields, n))
            && (RejectsSomewhere(data, fields, name, e) <==>
                RejectsSomewhere(data, fields[..n], name, e) || RejectsAt(data, fields, name, n, e))
  {
    hide PanicsAt;
    hide RejectsAt;
    var n := |fields| - 1;
    forall k: nat | k < n
      ensures PanicsAt(data, fields[..n], k) <==> PanicsAt(data, fields, k)
      ensures RejectsAt(data, fields[..n], name, k, e) <==> RejectsAt(data, fields, name, k, e)
    {
      StopsBefore(data, fields, name, e, n, k);
    }
  }

  lemma StopsLast(data: seq<DataType>, fields: seq<ParsedField>, name: seq<byte>, e: ParseError)
    requires AllAccounted(data) && fields != []
    ensures var n := |fields| - 1;
            var before, r := FieldsOf(data, fields[..n], name), FieldsOf(data, fields, name);
            if before.Parsed? then
              (r.Panicked? <==> PanicsAt(data, fields, n)) && (r == Rejected(e) <==> RejectsAt(data, fields, name, n, e))
            else
              r == before && !PanicsAt(data, fields, n) && !RejectsAt(data, fields, name, n, e)
  {
    var n := |fields| - 1;
    AcceptsIff(data, fields[..n], name);
    ResolvedIsSound(data, fields[n].typing);
  }

  /** Adding fields panics exactly when one of them is a 256th structured field and nothing
      before it stops the parser. It is rejected exactly for the first reason met. */
  lemma {:induction false} StopsIff(data: seq<DataType>, fields: seq<ParsedField>, name: seq<byte>, e: ParseError)
    requires AllAccounted(data)
    ensures FieldsOf(data, fields, name).Panicked? <==> PanicsSomewhere(data, fields)
    ensures FieldsOf(data, fields, name) == Rejected(e) <==> RejectsSomewhere(data, fields, name, e)
    decreases |fields|
  {
    if fields != [] {
      hide FieldsOf;
      hide PanicsAt;
      hide RejectsAt;
      hide PanicsSomewhere;
      hide RejectsSomewhere;
      var n := |fields| - 1;
      StopsIff(data, fields[..n], name, e);
      StopsLast(data, fields, name, e);
      StopsBeforeOrLast(data, fields, name, e);
      if FieldsOf(data, fields[..n], name).Parsed? {
        assert !PanicsSomewhere(data, fields[..n]) && !RejectsSomewhere(data, fields[..n], name, e);
      }
    }
  }

  /** The structured fields among those that resolve. */
  function StructuredAmong(data: seq<DataType>, fields: seq<ParsedField>): nat {
    if fields == [] then 0
    else
      var f := FieldOf(data, fields[|fields| - 1]);
      StructuredAmong(data, fields[..|fields| - 1]) + (if f.Parsed? && !IsFixed(f.value) then 1 else 0)
  }

  lemma {:induction false} StructuredAmongMeant(data: seq<DataType>, fields: seq<ParsedField>)
    requires Resolvable(data, fields)
    ensures Structured(Meant(data, fields)) == StructuredAmong(data, fields)
    decreases |fields|
  {
    if fields != [] {
      MeantFront(data, fields);
      StructuredAmongMeant(data, fields[..|fields| - 1]);
    }
  }

  lemma {:induction false} StructuredAmongPrefix(data: seq<DataType>, fields: seq<ParsedField>, k: nat)
    requires k <= |fields|
    ensures StructuredAmong(data, fields[..k]) <= StructuredAmong(data, fields)
    decreases |fields|
  {
    if k < |fields| {
      assert fields[..|fields| - 1][..k] == fields[..k];
      StructuredAmongPrefix(data, fields[..|fields| - 1], k);
    } else {
      assert fields[..k] == fields;
    }
  }

  /** No assertion fires on a data type with at most 255 structured fields. */
  lemma FewStructuredNeverPanic(data: seq<DataType>, fields: seq<ParsedField>)
    requires StructuredAmong(data, fields) <= 0xFF
    ensures !PanicsSomewhere(data, fields)
  {
    forall k | 0 <= k < |fields|
      ensures !PanicsAt(data, fields, k)
    {
      if PanicsAt(data, fields, k) {
        StructuredAmongMeant(data, fields[..k]);
        assert fields[..k + 1][..k] == fields[..k];
        StructuredAmongPrefix(data, fields, k + 1);
      }
    }
  }

  lemma {:induction false} FixedAmongFacts(fs: seq<DataField>, fixed: bool)
    ensures forall k :: 0 <= k < |FixedAmong(fs, fixed)| ==>
              IsFixed(FixedAmong(fs, fixed)[k]) == fixed && FixedAmong(fs, fixed)[k] in fs
    ensures fixed ==> TotalFixed(FixedAmong(fs, fixed)) == TotalFixed(fs)
  {
    hide IsFixed;
    hide FixedSize;
    if fs != [] {
      var n := |fs| - 1;
      FixedAmongFacts(fs[..n], fixed);
      if IsFixed(fs[n]) == fixed {
        assert (FixedAmong(fs[..n], fixed) + [fs[n]])[..|FixedAmong(fs[..n], fixed)|] == FixedAmong(fs[..n], fixed);
      } else {
        NotFixedIsNothing(fs[n]);
        assert FixedAmong(fs[..n], fixed) + [] == FixedAmong(fs[..n], fixed);
      }
    }
  }

  lemma NotFixedIsNothing(f: DataField)
    ensures !IsFixed(f) ==> FixedSize(f) == 0
  {}

  lemma DataIsAccounted(data: seq<DataType>, parsed: ParsedData, ordinal: byte)
    requires AllAccounted(data) && DataOf(data, parsed, ordinal).Parsed?
    ensures Accounted(DataOf(data, parsed, ordinal).value, ordinal)
  {
    AcceptsIff(data, parsed.fields, parsed.name);
    var fs := Meant(data, parsed.fields);
    FixedAmongFacts(fs, true);
    FixedAmongFacts(fs, false);
    forall k | 0 <= k < |fs|
      ensures Sound(fs[k].typing)
    {
      ResolvedIsSound(data, parsed.fields[k].typing);
    }
  }

  lemma {:induction false} CodaIsAccounted(parsed: seq<ParsedData>)
    ensures CodaOf(parsed).Parsed? ==> AllAccounted(CodaOf(parsed).value)
    decreases |parsed|
  {
    if parsed != [] && CodaOf(parsed).Parsed? {
      hide DataOf;
      hide Accounted;
      hide AllAccounted;
      var n := |parsed| - 1;
      CodaIsAccounted(parsed[..n]);
      var data := CodaOf(parsed[..n]).value;
      DataIsAccounted(data, parsed[n], n + 1);
      AccountedSnoc(data, DataOf(data, parsed[n], n + 1).value);
    } else {
      assert AllAccounted([]);
    }
  }

  lemma CodaSnoc(front: seq<ParsedData>, last: ParsedData)
    requires CodaOf(front + [last]).Parsed?
    ensures CodaOf(front).Parsed? && |front| < MAX_USER_ORDINAL
    ensures var d := DataOf(CodaOf(front).value, last, |front| + 1);
            d.Parsed? && CodaOf(front + [last]).value == CodaOf(front).value + [d.value]
  {
    hide DataOf;
    assert (front + [last])[..|front|] == front;
  }

  lemma {:induction false} CodaNames(parsed: seq<ParsedData>, k: nat)
    requires k < |parsed| && CodaOf(parsed).Parsed?
    ensures CodaOf(parsed).value[k].name == parsed[k].name
    decreases |parsed|
  {
    hide CodaOf;
    hide DataOf;
    var front, last := parsed[..|parsed| - 1], parsed[|parsed| - 1];
    assert parsed == front + [last];
    CodaSnoc(front, last);
    if k < |front| {
      CodaNames(front, k);
    } else {
      DataName(CodaOf(front).value, last, |parsed|);
    }
  }

  lemma DataName(data: seq<DataType>, parsed: ParsedData, ordinal: byte)
    ensures DataOf(data, parsed, ordinal).Parsed? ==> DataOf(data, parsed, ordinal).value.name == parsed.name
  {}

  lemma AccountedSnoc(ds: seq<DataType>, d: DataType)
    requires AllAccounted(ds) && |ds| < MAX_USER_ORDINAL && Accounted(d, |ds| + 1)
    ensures AllAccounted(ds + [d])
  {
    hide Accounted;
  }

  // The first data type that stops the parser decides.

  predicate CodaPanicsAt(parsed: seq<ParsedData>, k: nat)
    requires k < |parsed|
  {
    && CodaOf(parsed[..k]).Parsed? && k < MAX_USER_ORDINAL
    && PanicsSomewhere(CodaOf(parsed[..k]).value, parsed[k].fields)
  }

  predicate CodaRejectsAt(parsed: seq<ParsedData>, k: nat, e: ParseError)
    requires k < |parsed|
  {
    && CodaOf(parsed[..k]).Parsed?
    && if k < MAX_USER_ORDINAL then RejectsSomewhere(CodaOf(parsed[..k]).value, parsed[k].fields, parsed[k].name, e)
       else e == TooManyDataTypes
  }

  predicate CodaPanics(parsed: seq<ParsedData>) {
    exists k :: 0 <= k < |parsed| && CodaPanicsAt(parsed, k)
  }

  predicate CodaRejects(parsed: seq<ParsedData>, e: ParseError) {
    exists k :: 0 <= k < |parsed| && CodaRejectsAt(parsed, k, e)
  }

  lemma CodaStopsLast(parsed: seq<ParsedData>, e: ParseError)
    requires parsed != []
    ensures var n := |parsed| - 1;
            var before, r := CodaOf(parsed[..n]), CodaOf(parsed);
            if before.Parsed? then
              (r.Panicked? <==> CodaPanicsAt(parsed, n)) && (r == Rejected(e) <==> CodaRejectsAt(parsed, n, e))
            else
              r == before && !CodaPanicsAt(parsed, n) && !CodaRejectsAt(parsed, n, e)
  {
    hide PanicsSomewhere;
    hide RejectsSomewhere;
    hide FieldsOf;
    var n := |parsed| - 1;
    if CodaOf(parsed[..n]).Parsed? {
      CodaIsAccounted(parsed[..n]);
      StopsIff(CodaOf(parsed[..n]).value, parsed[n].fields, parsed[n].name, e);
    }
  }

  lemma CodaStopsBeforeOrLast(parsed: seq<ParsedData>, e: ParseError)
    requires parsed != []
    ensures var n := |parsed| - 1;
            && (CodaPanics(parsed) <==> CodaPanics(parsed[..n]) || CodaPanicsAt(parsed, n))
            && (CodaRejects(parsed, e) <==> CodaRejects(parsed[..n], e) || CodaRejectsAt(parsed, n, e))
  {
    hide CodaPanicsAt;
    hide CodaRejectsAt;
    var n := |parsed| - 1;
    forall k: nat | k < n
      ensures CodaPanicsAt(parsed[..n], k) <==> CodaPanicsAt(parsed, k)
      ensures CodaRejectsAt(parsed[..n], k, e) <==> CodaRejectsAt(parsed, k, e)
    {
      CodaStopsBefore(parsed, e, n, k);
    }
  }

  lemma CodaStopsBefore(parsed: seq<ParsedData>, e: ParseError, n: nat, k: nat)
    requires k < n <= |parsed|
    ensures CodaPanicsAt(parsed[..n], k) <==> CodaPanicsAt(parsed, k)
    ensures CodaRejectsAt(parsed[..n], k, e) <==> CodaRejectsAt(parsed, k, e)
  {
    hide CodaOf;
    hide PanicsSomewhere;
    hide RejectsSomewhere;
    assert parsed[..n][..k] == parsed[..k];
  }

  /** An assertion fires exactly when the first data type that stops the parser has a 256th
      structured field before anything else is wrong with it; an error is reported exactly
      when that data type is one too many, or has a field that is rejected first. */
  lemma {:induction false} CodaStopsIff(parsed: seq<ParsedData>, e: ParseError)
    ensures CodaOf(parsed).Panicked? <==> CodaPanics(parsed)
    ensures CodaOf(parsed) == Rejected(e) <==> CodaRejects(parsed, e)
    decreases |parsed|
  {
    if parsed != [] {
      hide CodaOf;
      hide CodaPanics;
      hide CodaRejects;
      hide CodaPanicsAt;
      hide CodaRejectsAt;
      var n := |parsed| - 1;
      CodaStopsIff(parsed[..n], e);
      CodaStopsLast(parsed, e);
      CodaStopsBeforeOrLast(parsed, e);
      if CodaOf(parsed[..n]).Parsed? {
        assert !CodaPanics(parsed[..n]) && !CodaRejects(parsed[..n], e);
      }
    }
  }

  /** With at most 255 structured fields in every data type that the parser comes to, no
      assertion fires. */
  lemma FewStructuredNeverPanicCoda(parsed: seq<ParsedData>)
    requires forall k :: 0 <= k < |parsed| && CodaOf(parsed[..k]).Parsed? ==>
               StructuredAmong(CodaOf(parsed[..k]).value, parsed[k].fields) <= 0xFF
    ensures !CodaOf(parsed).Panicked?
  {
    hide PanicsSomewhere;
    CodaStopsIff(parsed, TooManyDataTypes);
    forall k | 0 <= k < |parsed|
      ensures !CodaPanicsAt(parsed, k)
    {
      if CodaOf(parsed[..k]).Parsed? {
        FewStructuredNeverPanic(CodaOf(parsed[..k]).value, parsed[k].fields);
      }
    }
  }

  // The code.

  lemma {:induction false} FieldFailureStays(data: seq<DataType>, fields: seq<ParsedField>, name: seq<byte>, k: nat)
    requires k <= |fields| && !FieldsOf(data, fields[..k], name).Parsed?
    ensures FieldsOf(data, fields, name) == FieldsOf(data, fields[..k], name)
    decreases |fields|
  {
    if k == |fields| {
      assert fields[..k] == fields;
    } else {
      assert fields[..|fields| - 1][..k] == fields[..k];
      FieldFailureStays(data, fields[..|fields| - 1], name, k);
    }
  }

  /** A data type under construction, with the fields `fs` so far. */
  predicate Under(d: DataType, parsed: ParsedData, ordinal: byte, fs: seq<DataField>) {
    && Accounted(d, ordinal) && d.name == parsed.name && d.docs == parsed.docs
    && d.blobFields == FixedAmong(fs, true) && d.dataFields == FixedAmong(fs, false)
  }

  /** One turn of the inner loop of `parse`. */
  method ParseField(data: seq<DataType>, parsed: ParsedData, ordinal: byte, i: nat, d: DataType, ghost fs: seq<DataField>)
      returns (r: Outcome<DataType>)
    requires AllAccounted(data) && i < |parsed.fields| && Under(d, parsed, ordinal, fs)
    requires FieldsOf(data, parsed.fields[..i], parsed.name) == Parsed(fs)
    ensures var after := FieldsOf(data, parsed.fields[..i + 1], parsed.name);
            match r
            case Parsed(d') => after.Parsed? && Under(d', parsed, ordinal, after.value)
            case Rejected(e) => after == Rejected(e)
            case Panicked => after.Panicked?
  {
    hide FieldsOf;
    hide IsFixed;
    hide FixedSize;
    hide Sound;
    var p := parsed.fields[i];
    OneMoreField(data, parsed.fields, parsed.name, i, fs);
    var typing := Resolve(data, p.typing);
    if typing.Rejected? {
      return Rejected(typing.error);
    }
    var f := DataField(p.name, p.docs, typing.value, p.optional, p.flattened);
    FixedAmongFacts(fs, true);
    assert (fs + [f])[..|fs|] == fs;
    r := AddField(d, f, ordinal);
  }

  /** Every field keeps what was parsed of it, and has the type that was described. */
  predicate FieldsKept(data: seq<DataType>, fields: seq<ParsedField>, fs: seq<DataField>) {
    |fs| == |fields|
    && forall k :: 0 <= k < |fs| ==>
         && fs[k].name == fields[k].name && fs[k].docs == fields[k].docs
         && fs[k].optional == fields[k].optional && fs[k].flattened == fields[k].flattened
         && Means(data, fields[k].typing, fs[k].typing)
  }

  lemma MeantIsKept(data: seq<DataType>, fields: seq<ParsedField>)
    ensures Resolvable(data, fields) ==> FieldsKept(data, fields, Meant(data, fields))
  {
    hide Resolved;
    hide Means;
    if Resolvable(data, fields) {
      forall k | 0 <= k < |fields|
        ensures Means(data, fields[k].typing, Meant(data, fields)[k].typing)
      {
        ResolvedIffMeans(data, fields[k].typing, Meant(data, fields)[k].typing);
      }
    }
  }

  lemma DataOutcome(data: seq<DataType>, parsed: ParsedData, ordinal: byte)
    requires AllAccounted(data)
    ensures var r := DataOf(data, parsed, ordinal);
            && (r.Panicked? <==> PanicsSomewhere(data, parsed.fields))
            && (r.Parsed? <==> Fits(data, parsed.fields))
            && (r.Parsed? ==>
                  && Accounted(r.value, ordinal) && r.value.name == parsed.name && r.value.docs == parsed.docs
                  && FieldsKept(data, parsed.fields, Meant(data, parsed.fields))
                  && FieldsOf(data, parsed.fields, parsed.name) == Parsed(Meant(data, parsed.fields))
                  && r.value.blobFields == FixedAmong(Meant(data, parsed.fields), true)
                  && r.value.dataFields == FixedAmong(Meant(data, parsed.fields), false))
  {
    StopsIff(data, parsed.fields, parsed.name, TooManyDataTypes);
    AcceptsIff(data, parsed.fields, parsed.name);
    MeantIsKept(data, parsed.fields);
    if DataOf(data, parsed, ordinal).Parsed? {
      DataIsAccounted(data, parsed, ordinal);
    }
    hide FieldsOf;
    hide PanicsSomewhere;
    hide FieldsKept;
    hide Accounted;
    hide FieldOf;
    hide Meant;
  }

  lemma UnderIsWhole(d: DataType, parsed: ParsedData, ordinal: byte, fs: seq<DataField>)
    requires Under(d, parsed, ordinal, fs) && InFormat(fs)
    ensures d.format == Format.Data(DataFormat(TotalFixed(fs), Structured(fs), ordinal))
  {
    FixedAmongFacts(fs, true);
  }

  lemma UnderNone(parsed: ParsedData, ordinal: byte)
    ensures Under(DataType(parsed.name, parsed.docs, [], [], Format.Data(DataFormat(0, 0, ordinal))), parsed, ordinal, [])
  {}

  /** One data type of `parse`: its fields are split by kind and otherwise keep their order. */
  method ParseData(data: seq<DataType>, parsed: ParsedData, ordinal: byte)
      returns (r: Outcome<DataType>, ghost fs: seq<DataField>)
    requires AllAccounted(data)
    ensures r == DataOf(data, parsed, ordinal)
    ensures r.Panicked? <==> PanicsSomewhere(data, parsed.fields)
    ensures r.Parsed? <==> Fits(data, parsed.fields)
    ensures r.Parsed? ==> Accounted(r.value, ordinal) && r.value.name == parsed.name && r.value.docs == parsed.docs
    ensures r.Parsed? ==> FieldsKept(data, parsed.fields, fs)
    ensures r.Parsed? ==> fs == Meant(data, parsed.fields)
                          && r.value.blobFields == FixedAmong(fs, true) && r.value.dataFields == FixedAmong(fs, false)
  {
    DataOutcome(data, parsed, ordinal);
    UnderNone(parsed, ordinal);
    NoFields(data, parsed.name);
    hide FieldsOf;
    hide Fits;
    hide PanicsSomewhere;
    hide FieldsKept;
    hide Accounted;
    hide FixedAmong;
    hide TotalFixed;
    assert parsed.fields[..0] == [];
    fs := [];
    var d := DataType(parsed.name, parsed.docs, [], [], Format.Data(DataFormat(0, 0, ordinal)));
    var i := 0;
    while i < |parsed.fields|
      invariant i <= |parsed.fields| && Under(d, parsed, ordinal, fs)
      invariant FieldsOf(data, parsed.fields[..i], parsed.name) == Parsed(fs)
    {
      r := ParseField(data, parsed, ordinal, i, d, fs);
      if !r.Parsed? {
        FieldFailureStays(data, parsed.fields, parsed.name, i + 1);
        return;
      }
      fs := FieldsOf(data, parsed.fields[..i + 1], parsed.name).value;
      d := r.value;
      i := i + 1;
    }
    assert parsed.fields[..i] == parsed.fields;
    UnderIsWhole(d, parsed, ordinal, fs);
    r := Parsed(d);
  }

  lemma NoFields(data: seq<DataType>, name: seq<byte>)
    ensures FieldsOf(data, [], name) == Parsed([])
  {}

  lemma OneMoreField(data: seq<DataType>, fields: seq<ParsedField>, name: seq<byte>, i: nat, fs: seq<DataField>)
    requires i < |fields| && FieldsOf(data, fields[..i], name) == Parsed(fs)
    ensures InFormat(fs)
    ensures FieldsOf(data, fields[..i + 1], name)
         == if FieldOf(data, fields[i]).Parsed? then Added(fs, FieldOf(data, fields[i]).value, name)
            else FieldOf(data, fields[i]).PropagateFailure()
  {
    assert fields[..i + 1][..i] == fields[..i];
  }

  lemma {:induction false} CodaFailureStays(parsed: seq<ParsedData>, k: nat)
    requires k <= |parsed| && !CodaOf(parsed[..k]).Parsed?
    ensures CodaOf(parsed) == CodaOf(parsed[..k])
    decreases |parsed|
  {
    if k == |parsed| {
      assert parsed[..k] == parsed;
    } else {
      assert parsed[..|parsed| - 1][..k] == parsed[..k];
      CodaFailureStays(parsed[..|parsed| - 1], k);
    }
  }

  lemma OneMoreData(parsed: seq<ParsedData>, i: nat, data: seq<DataType>)
    requires i < |parsed| && CodaOf(parsed[..i]) == Parsed(data)
    ensures CodaOf(parsed[..i + 1])
         == if i + 1 > MAX_USER_ORDINAL then Rejected(TooManyDataTypes)
            else
              var d := DataOf(data, parsed[i], i + 1);
              if d.Parsed? then Parsed(data + [d.value]) else d.PropagateFailure()
  {
    assert parsed[..i + 1][..i] == parsed[..i];
  }

  lemma CodaOutcome(parsed: seq<ParsedData>)
    ensures CodaOf(parsed).Panicked? <==> CodaPanics(parsed)
    ensures CodaOf(parsed).Rejected? ==> CodaRejects(parsed, CodaOf(parsed).error)
    ensures CodaOf(parsed).Parsed? ==> AllAccounted(CodaOf(parsed).value)
    ensures CodaOf(parsed).Parsed? ==> forall k :: 0 <= k < |parsed| ==> CodaOf(parsed).value[k].name == parsed[k].name
  {
    CodaIsAccounted(parsed);
    forall k | 0 <= k < |parsed| && CodaOf(parsed).Parsed?
      ensures CodaOf(parsed).value[k].name == parsed[k].name
    {
      CodaNames(parsed, k);
    }
    CodaStopsIff(parsed, if CodaOf(parsed).Rejected? then CodaOf(parsed).error else TooManyDataTypes);
  }

  /** One turn of the loop of `parse`. */
  method ParseNext(parsed: seq<ParsedData>, i: nat, data: seq<DataType>) returns (r: Outcome<seq<DataType>>)
    requires i < |parsed| && CodaOf(parsed[..i]) == Parsed(data)
    ensures r == CodaOf(parsed[..i + 1])
  {
    hide DataOf;
    hide CodaOf;
    hide PanicsSomewhere;
    hide Fits;
    hide Accounted;
    OneMoreData(parsed, i, data);
    CodaIsAccounted(parsed[..i]);
    if i + 1 > MAX_USER_ORDINAL {
      return Rejected(TooManyDataTypes);
    }
    var d, fs := ParseData(data, parsed[i], i + 1);
    match d
    case Parsed(value) => r := Parsed(data + [value]);
    case Rejected(e) => r := Rejected(e);
    case Panicked => r := Panicked;
  }

  /** `parse`, from parsed fields on. */
  method ParseCoda(parsed: seq<ParsedData>) returns (r: Outcome<seq<DataType>>)
    ensures r == CodaOf(parsed)
    ensures r.Panicked? <==> CodaPanics(parsed)
    ensures r.Rejected? ==> CodaRejects(parsed, r.error)
    ensures r.Parsed? ==> |r.value| == |parsed| <= MAX_USER_ORDINAL && AllAccounted(r.value)
    ensures r.Parsed? ==> forall k :: 0 <= k < |parsed| ==> r.value[k].name == parsed[k].name
  {
    hide CodaOf;
    hide CodaPanics;
    hide CodaRejects;
    hide Accounted;
    CodaOutcome(parsed);
    var data := [];
    var i := 0;
    NoData();
    assert parsed[..0] == [];
    while i < |parsed|
      invariant i <= |parsed| && CodaOf(parsed[..i]) == Parsed(data)
    {
      r := ParseNext(parsed, i, data);
      if !r.Parsed? {
        CodaFailureStays(parsed, i + 1);
        return;
      }
      data := r.value;
      i := i + 1;
    }
    assert parsed[..i] == parsed;
    r := Parsed(data);
  }

  lemma NoData()
    ensures CodaOf([]) == Parsed([])
  {}

  // More structured fields than a format can count.

  lemma {:induction false} ManyStructured(data: seq<DataType>, p: ParsedField, n: nat)
    requires FieldOf(data, p).Parsed? && !IsFixed(FieldOf(data, p).value)
    ensures var fields := seq(n, _ => p);
            && Resolvable(data, fields)
            && Structured(Meant(data, fields)) == n && TotalFixed(Meant(data, fields)) == 0
    decreases n
  {
    if n > 0 {
      var fields := seq(n, _ => p);
      assert fields[..n - 1] == seq(n - 1, _ => p);
      ManyStructured(data, p, n - 1);
      MeantFront(data, fields);
      NotFixedIsNothing(FieldOf(data, p).value);
    }
  }

  /** A data type of 256 maps, and nothing else, trips the assertion in `Format::with`. */
  lemma TooManyStructuredPanics(name: seq<byte>) returns (parsed: ParsedData)
    ensures |parsed.fields| == 256 && CodaOf([parsed]).Panicked?
  {
    hide TypeNamed;
    var p := ParsedField(name, None, MapOf(name, name), false, false);
    parsed := ParsedData(name, None, seq(256, _ => p));
    assert parsed.fields[..255] == seq(255, _ => p);
    ManyStructured([], p, 255);
    assert PanicsAt([], parsed.fields, 255);
    assert [parsed][..0] == [];
    assert CodaPanicsAt([parsed], 0);
    CodaStopsIff([parsed], TooManyDataTypes);
  }
}
