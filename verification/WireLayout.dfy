/** Where the bytes are: headers, dynamic lists, and the types whose encodings coincide. */
module WireLayout {
  import opened Bytes
  import opened Wire
  import opened Reader
  import opened Extent
  import opened Scalars
  import opened Wrappers
  import opened Framing
  import opened DynamicTrip
  import opened Codec
  import Dynamic
  import Bits
  import BitStrings

  /** Byte `i` of a number has the weight 256 to the power of `i`. */
  lemma {:induction false} LittleEndianByte(n: nat, width: nat, i: nat)
    requires i < width
    ensures ToLittleEndian(n, width)[i] == n / Power256(i) % 256
    decreases i
  {
    if i > 0 {
      LittleEndianByte(n / 256, width - 1, i - 1);
      DivideTwice(n, 256, Power256(i - 1));
    }
  }

  lemma DivideTwice(n: nat, a: nat, b: nat)
    requires a > 0 && b > 0
    ensures a * b > 0 && n / a / b == n / (a * b)
  {
    Bits.MulMonotone(a, 1, b);
    var q, r := n / a, n % a;
    var p, s := q / b, q % b;
    Bits.QuotientEquation(n, a);
    Bits.QuotientEquation(q, b);
    Bits.MulMonotone(a, s + 1, b);
    Bits.MulSuccessor(a, s);
    assert n == (a * b) * p + (a * s + r) by {
      assert a * (b * p + s) == a * (b * p) + a * s;
      assert a * (b * p) == (a * b) * p;
    }
    BitStrings.QuotientUnique(n, a * b, p, a * s + r);
  }

  /** A header: the count, the blob size, the number of structured fields, the ordinal. */
  lemma HeaderLayout(h: DataHeader)
    ensures forall i {:trigger HeaderBytes(h)[i]} :: 0 <= i < 4 ==> HeaderBytes(h)[i] == h.count / Power256(i) % 256
    ensures HeaderBytes(h)[4] == h.format.blobSize % 256 && HeaderBytes(h)[5] == h.format.blobSize / 256
    ensures HeaderBytes(h)[6] == h.format.dataFields && HeaderBytes(h)[7] == h.format.ordinal
  {
    forall i | 0 <= i < 4
      ensures HeaderBytes(h)[i] == h.count / Power256(i) % 256
    {
      LittleEndianByte(h.count, 4, i);
    }
    LittleEndianByte(h.format.blobSize, 2, 0);
    LittleEndianByte(h.format.blobSize, 2, 1);
  }

  // Dynamic lists.

  predicate AreNumbers(items: seq<Dynamic.Dyn>, kind: Kind) {
    items != [] && forall i :: 0 <= i < |items| ==> items[i].Number? && items[i].kind == kind
  }

  /** The items share the ordinal in their headers, which is not a number's. */
  predicate ShareOrdinal(items: seq<Dynamic.Dyn>, ordinal: byte)
    requires Dynamic.CanEncodeItems(items)
  {
    items != [] && KindOf(ordinal).None?
    && forall i :: 0 <= i < |items| ==> Dynamic.HeaderOf(items[i]).format.ordinal == ordinal
  }

  predicate Differ(items: seq<Dynamic.Dyn>)
    requires Dynamic.CanEncodeItems(items)
  {
    items == []
    || exists i :: 0 <= i < |items|
                   && Dynamic.HeaderOf(items[i]).format.ordinal != Dynamic.HeaderOf(items[0]).format.ordinal
  }

  lemma HeaderOrdinal(u: Dynamic.Dyn)
    requires Dynamic.CanEncode(u)
    ensures Dynamic.HeaderOf(u).format.ordinal == Dynamic.TypeOrdinal(u)
  {}

  /** Item `i` of items of `width` bytes each. */
  predicate StandsAt(whole: seq<byte>, i: nat, width: nat, bytes: seq<byte>) {
    0 <= i * width <= (i + 1) * width <= |whole| && whole[i * width..(i + 1) * width] == bytes
  }

  /** Numbers of one kind are packed, under their kind: eight bytes of header and as many
      bytes for each as its kind is wide. */
  lemma NumbersLayout(items: seq<Dynamic.Dyn>, kind: Kind)
    requires Dynamic.CanEncodeItems(items) && AreNumbers(items, kind)
    ensures var header := DataHeader(|items|, DataFormat(Width(kind), 0, OrdinalOf(kind)));
            Dynamic.Inner(items) == HeaderBytes(header) + Dynamic.Payloads(items)
    ensures |Dynamic.Inner(items)| == 8 + |items| * Width(kind)
    ensures forall i :: 0 <= i < |items| ==>
              StandsAt(Dynamic.Payloads(items), i, Width(kind), ScalarBytes(kind, items[i].n))
  {
    KindOfOrdinal(kind);
    hide StandsAt;
    forall i | 0 <= i < |items|
      ensures StandsAt(Dynamic.Payloads(items), i, Width(kind), ScalarBytes(kind, items[i].n))
    {
      PayloadAt(items, kind, i);
    }
    NumbersSize(items, kind);
  }

  lemma {:induction false} NumbersSize(items: seq<Dynamic.Dyn>, kind: Kind)
    requires Dynamic.CanEncodeItems(items) && (items == [] || AreNumbers(items, kind))
    ensures |Dynamic.Payloads(items)| == |items| * Width(kind)
  {
    if items != [] {
      NumbersSize(items[1..], kind);
      OneMore(|items|, |items[1..]|, Width(kind));
    }
  }

  lemma {:induction false} PayloadAt(items: seq<Dynamic.Dyn>, kind: Kind, i: nat)
    requires Dynamic.CanEncodeItems(items) && AreNumbers(items, kind) && i < |items|
    ensures StandsAt(Dynamic.Payloads(items), i, Width(kind), ScalarBytes(kind, items[i].n))
  {
    var first, rest := ScalarBytes(kind, items[0].n), Dynamic.Payloads(items[1..]);
    assert Dynamic.Payloads(items) == first + rest;
    hide Dynamic.Payloads;
    if i > 0 {
      PayloadAt(items[1..], kind, i - 1);
      assert items[1..][i - 1] == items[i];
      StandsAfter(first, rest, i, Width(kind), ScalarBytes(kind, items[i].n));
    }
  }

  lemma StandsAfter(first: seq<byte>, rest: seq<byte>, i: nat, width: nat, bytes: seq<byte>)
    requires i > 0 && |first| == width && StandsAt(rest, i - 1, width, bytes)
    ensures StandsAt(first + rest, i, width, bytes)
  {
    OneMore(i, i - 1, width);
    OneMore(i + 1, i, width);
    var at, end := i * width, (i + 1) * width;
    assert at == width + (i - 1) * width && end == width + at;
    assert (first + rest)[at..end] == rest[at - width..end - width];
  }

  /** Other items that share an ordinal are written whole, each as one field, under it. */
  lemma SharedLayout(items: seq<Dynamic.Dyn>, ordinal: byte)
    requires Dynamic.CanEncodeItems(items) && ShareOrdinal(items, ordinal)
    ensures Dynamic.Inner(items) == HeaderBytes(DataHeader(|items|, DataFormat(0, 1, ordinal))) + Dynamic.Wholes(items)
  {
    forall i | 0 <= i < |items|
      ensures Dynamic.TypeOrdinal(items[i]) == ordinal
    {
      HeaderOrdinal(items[i]);
    }
  }

  /** Items that differ, or none at all, under ordinal zero. */
  lemma MixedLayout(items: seq<Dynamic.Dyn>)
    requires Dynamic.CanEncodeItems(items) && Differ(items)
    ensures Dynamic.Inner(items) == HeaderBytes(DataHeader(|items|, DataFormat(0, 1, 0))) + Dynamic.Wholes(items)
  {
    forall i | 0 <= i < |items|
      ensures Dynamic.HeaderOf(items[i]).format.ordinal == Dynamic.TypeOrdinal(items[i])
    {
      HeaderOrdinal(items[i]);
    }
  }

  /** Every list is one of the three, if the opaque data in it are relayable. */
  lemma EveryListHasALayout(items: seq<Dynamic.Dyn>)
    requires AllEncodable(items)
    ensures Differ(items) || (exists kind :: AreNumbers(items, kind)) || (exists ordinal :: ShareOrdinal(items, ordinal))
  {
    if !Differ(items) {
      var ordinal := Dynamic.HeaderOf(items[0]).format.ordinal;
      forall i | 0 <= i < |items|
        ensures Dynamic.TypeOrdinal(items[i]) == ordinal
      {
        HeaderOrdinal(items[i]);
      }
      match KindOf(ordinal)
      case None => assert ShareOrdinal(items, ordinal);
      case Some(kind) =>
        forall i | 0 <= i < |items|
          ensures items[i].Number? && items[i].kind == kind
        {
          if items[i].Number? {
            KindOfOrdinal(items[i].kind);
          }
        }
        assert AreNumbers(items, kind);
    }
  }

  /** A map is the list of its keys and then the list of its values. */
  lemma DynamicMapIsTwoLists(keys: seq<Dynamic.Dyn>, values: seq<Dynamic.Dyn>)
    requires Dynamic.CanEncode(Dynamic.Map(keys, values))
    ensures Dynamic.Payload(Dynamic.Map(keys, values))
         == Dynamic.Payload(Dynamic.List(keys)) + Dynamic.Payload(Dynamic.List(values))
  {}

  // Static types.

  /** The format in the header of a type, by the type alone. */
  function HeaderFormat(t: Ty): DataFormat
    requires WellFormed(t) && !IsBlob(t)
    decreases t, 0
  {
    match t
    case Text => DataFormat(1, 0, 0)
    case Struct(ordinal, blobs, datas) => DataFormat(TotalSize(blobs), |datas|, ordinal)
    case Map(_, _) => DataFormat(0, 2, 0)
    case List(elem) => SequenceFormat(elem)
    case Option(elem) => SequenceFormat(elem)
    case Unspecified => DataFormat(0, 1, 0)
  }

  /** Fixed-size items, structs and maps are packed; others carry their own header. */
  function SequenceFormat(elem: Ty): DataFormat
    requires WellFormed(elem)
    decreases elem, 1
  {
    if IsBlob(elem) then DataFormat(BlobSize(elem), 0, 0)
    else if elem.Struct? || elem.Map? then HeaderFormat(elem)
    else DataFormat(0, 1, 0)
  }

  lemma FormatIs(t: Ty)
    requires WellFormed(t) && !IsBlob(t)
    ensures FormatOf(t).AsDataFormat() == HeaderFormat(t)
    ensures FormatOf(t).Data? <==> t.Struct? || t.Map?
    ensures FormatOf(t).Fluid? <==> t.Unspecified?
  {
    match t
    case List(elem) => BlobFormatIs(elem);
    case Option(elem) => BlobFormatIs(elem);
    case _ =>
  }

  lemma BlobFormatIs(t: Ty)
    requires WellFormed(t)
    ensures IsBlob(t) ==> FormatOf(t) == Blob(BlobSize(t))
  {}

  /** The header of a value counts its bytes, its items, whether there is one, or one. */
  lemma HeaderIs(t: Ty, v: Value)
    requires WellFormed(t) && !IsBlob(t) && !t.Unspecified? && Fits(t, v)
    ensures HeaderFor(t, v).format == HeaderFormat(t)
    ensures HeaderFor(t, v).count == match v
                                     case VText(bytes) => |bytes|
                                     case VList(items) => |items|
                                     case VNone => 0
                                     case _ => 1
  {
    FormatIs(t);
  }

  /** The headers a type takes. */
  predicate Accepts(t: Ty, h: DataHeader)
    requires WellFormed(t) && !IsBlob(t)
  {
    t.Unspecified? || (AcceptsFormat(t, h.format) && (t.Struct? || t.Map? ==> h.count == 1))
  }

  /** Its own ordinal if it has one, else exactly its own format. */
  predicate AcceptsFormat(t: Ty, f: DataFormat)
    requires WellFormed(t) && !IsBlob(t)
  {
    if HeaderFormat(t).ordinal != 0 then f.ordinal == HeaderFormat(t).ordinal else f == HeaderFormat(t)
  }

  /** Decoding goes no further than a header that the type does not take. */
  lemma ChecksHeader(t: Ty, h: DataHeader, st: St)
    requires WellFormed(t) && !IsBlob(t)
    ensures DecodeData(t, h, st).Ok? ==> Accepts(t, h)
    ensures !t.Unspecified? && !AcceptsFormat(t, h.format) ==> DecodeData(t, h, st) == Err(UnexpectedDataFormat)
    ensures !Accepts(t, h) && AcceptsFormat(t, h.format) ==> DecodeData(t, h, st) == Err(UnsupportedCount(h.count))
    ensures Accepts(t, h) ==> EnsureHeader(FormatOf(t), h).None?
  {
    FormatIs(t);
  }

  /** No struct is ever taken for one of another ordinal. */
  lemma OtherStructIsRejected(w: Ty, r: Ty, v: Value, st: St)
    requires WellFormed(w) && WellFormed(r) && Fits(w, v) && w.Struct? && r.Struct?
    requires r.ordinal != 0 && w.ordinal != r.ordinal
    requires At(st, Write(w, v)) && st.limits.Unlimited?
    ensures ReadData(r, st) == Err(UnexpectedDataFormat)
  {
    AtConcat(st, HeaderBytes(HeaderFor(w, v)), Body(w, v));
    HeaderAt(HeaderFor(w, v), EnterScope(st).st);
    HeaderIs(w, v);
    ChecksHeader(r, HeaderFor(w, v), ReadHeader(EnterScope(st).st).st);
  }

  // Encodings that coincide.

  /** An option is a list of one item or none. */
  lemma OptionIsShortList(elem: Ty, v: Value)
    requires WellFormed(elem) && Fits(elem, v)
    ensures Write(Option(elem), VSome(v)) == Write(List(elem), VList([v]))
    ensures Write(Option(elem), VNone) == Write(List(elem), VList([]))
  {
    assert Items(elem, [v]) == Item(elem, v) + Items(elem, []);
  }

  /** A map is the list of its keys and then the list of its values, under its own header. */
  lemma MapIsTwoLists(t: Ty, v: Value)
    requires WellFormed(t) && t.Map? && Fits(t, v)
    ensures Write(t, v) == HeaderBytes(DataHeader(1, DataFormat(0, 2, 0)))
                           + (Write(List(t.key), VList(v.keys)) + Write(List(t.value), VList(v.values)))
  {
    assert Write(List(t.key), VList(v.keys)) == WriteList(t.key, v.keys);
    assert Write(List(t.value), VList(v.values)) == WriteList(t.value, v.values);
  }

  function Numbers(bytes: seq<byte>): (vs: seq<Value>)
    ensures |vs| == |bytes| && forall i :: 0 <= i < |bytes| ==> vs[i] == VNumber(bytes[i])
  {
    seq(|bytes|, i requires 0 <= i < |bytes| => VNumber(bytes[i]))
  }

  /** A text is the list of its bytes. */
  lemma TextIsBytes(bytes: seq<byte>)
    requires Utf8(bytes) && |bytes| <= Dynamic.MAX_COUNT
    ensures Write(Text, VText(bytes)) == Write(List(Scalar(U8)), VList(Numbers(bytes)))
  {
    BytesItems(bytes);
  }

  lemma {:induction false} BytesItems(bytes: seq<byte>)
    ensures AllFit(Scalar(U8), Numbers(bytes)) && Items(Scalar(U8), Numbers(bytes)) == bytes
  {
    if bytes != [] {
      BytesItems(bytes[1..]);
      assert Numbers(bytes)[1..] == Numbers(bytes[1..]);
      assert ToLittleEndian(bytes[0], 1) == [bytes[0]] + ToLittleEndian(0, 0);
      assert Item(Scalar(U8), VNumber(bytes[0])) == [bytes[0]];
      assert [bytes[0]] + bytes[1..] == bytes;
    }
  }

  // Fixed-size fields.

  /** The fixed-size fields of a struct end where the header says, at the end of one of them
      or beyond the last: a header that ends in the middle of a field is malformed. */
  lemma {:induction false} BlobsEndBetweenFields(ts: seq<Ty>, remaining: nat, st: St)
    requires forall i :: 0 <= i < |ts| ==> IsBlob(ts[i]) && WellFormed(ts[i])
    requires ReadBlobs(ts, remaining, st).Ok?
    ensures remaining >= TotalSize(ts) || exists k :: 0 <= k <= |ts| && remaining == TotalSize(ts[..k])
    decreases ts
  {
    if ts != [] {
      if remaining >= BlobSize(ts[0]) {
        BlobsEndBetweenFields(ts[1..], remaining - BlobSize(ts[0]), DecodeBlob(ts[0], st).st);
        if remaining < TotalSize(ts) {
          var k :| 0 <= k <= |ts[1..]| && remaining - BlobSize(ts[0]) == TotalSize(ts[1..][..k]);
          assert ts[..k + 1][1..] == ts[1..][..k];
        }
      } else {
        assert ts[..0] == [];
      }
    }
  }
}
