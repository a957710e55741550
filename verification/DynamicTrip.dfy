/** Which `Unspecified` values survive a round trip, exactly, and the lossless relay of opaque data. */
module DynamicTrip {
  import opened Bytes
  import opened Wire
  import opened Reader
  import opened Extent
  import opened Scalars
  import opened Wrappers
  import opened SortedMap
  import opened Dynamic

  /** Ordinals the decoder interprets itself, and so never keeps as opaque data. */
  predicate Interpreted(ordinal: byte) {
    ordinal in {UNSPECIFIED_ORDINAL, TEXT_ORDINAL, LIST_ORDINAL, MAP_ORDINAL} || KindOf(ordinal).Some?
  }

  /** Every opaque datum inside has an ordinal the decoder leaves alone, and exactly the
      payload its header describes. */
  ghost predicate Relayable(u: Dyn) {
    match u
    case Data(header, raw) => !Interpreted(header.format.ordinal) && Framed(header, raw)
    case List(items) => forall i :: 0 <= i < |items| ==> Relayable(items[i])
    case Map(_, values) => forall i :: 0 <= i < |values| ==> Relayable(values[i])
    case _ => true
  }

  /** A result that is `v`, from exactly the next `n` bytes. */
  predicate Decodes<T(==)>(r: Res<T>, v: T, st: St, n: nat) {
    r.Ok? && r.value == v && r.st.pos == st.pos + n
  }

  lemma HeaderAt(h: DataHeader, st: St)
    requires At(st, HeaderBytes(h)) && st.limits.Unlimited?
    ensures ReadHeader(st) == Ok(h, Moved(st, HEADER_SIZE))
  {
    AtIsSlice(st, HeaderBytes(h));
    HeaderRoundTrip(h);
  }

  lemma ScalarAt(kind: Kind, n: int, st: St)
    requires InRange(kind, n) && At(st, ScalarBytes(kind, n)) && st.limits.Unlimited?
    ensures DecodeScalar(kind, st) == Ok(n, Moved(st, Width(kind)))
  {
    AtIsSlice(st, ScalarBytes(kind, n));
    ScalarRoundTrip(kind, n);
  }

  lemma TextAt(bytes: seq<byte>, st: St)
    requires Utf8(bytes) && At(st, bytes) && st.limits.Unlimited?
    ensures Decodes(DecodeText(|bytes|, st), bytes, st, |bytes|)
  {
    AtIsSlice(st, bytes);
  }

  lemma KeyLessIsStrict()
    ensures Strict(KeyLess)
  {
    forall a, b | KeyLess(a, b)
      ensures a != b && !KeyLess(b, a)
    {
      LexIsStrict(a.bytes, b.bytes);
    }
  }

  lemma MakesSame(keys: seq<Dyn>, values: seq<Dyn>, st: St)
    requires |keys| == |values| && Ascending(KeyLess, keys) && forall i :: 0 <= i < |keys| ==> keys[i].Text?
    ensures MakeMap(keys, values, st) == Ok(Map(keys, values), st)
  {
    KeyLessIsStrict();
    assert [] + keys == keys && [] + values == values;
    InsertAllAscending(KeyLess, [], [], keys, values);
  }

  ghost predicate Encodable(u: Dyn) {
    IsValue(u) && CanEncode(u) && Relayable(u)
  }

  ghost predicate AllEncodable(items: seq<Dyn>) {
    CanEncodeItems(items) && forall i :: 0 <= i < |items| ==> IsValue(items[i]) && Relayable(items[i])
  }

  /** The payload of a value, under its header, decodes to the value. */
  lemma {:induction false} PayloadDecodes(u: Dyn, st: St)
    requires Encodable(u) && At(st, Payload(u)) && st.limits.Unlimited?
    ensures Decodes(DecodeDyn(HeaderOf(u), st), u, st, |Payload(u)|)
    decreases u, 1
  {
    match u
    case Default =>
    case Number(kind, n) =>
      KindOfOrdinal(kind);
      ScalarAt(kind, n, st);
    case Text(bytes) => TextAt(bytes, st);
    case List(items) => ListDecodes(items, st);
    case Map(keys, values) => MapDecodes(keys, values, st);
    case Data(header, raw) => CaptureIffFramed(header, raw, st);
  }

  lemma {:induction false} ListDecodes(items: seq<Dyn>, st: St)
    requires AllEncodable(items) && At(st, Inner(items)) && st.limits.Unlimited?
    ensures Decodes(DecodeDyn(DataHeader(1, DataFormat(0, 1, LIST_ORDINAL)), st), List(items), st, |Inner(items)|)
    decreases items, 2
  {
    InnerDecodes(items, st);
  }

  lemma {:induction false} MapDecodes(keys: seq<Dyn>, values: seq<Dyn>, st: St)
    requires AllEncodable(keys) && AllEncodable(values) && IsValue(Map(keys, values))
    requires At(st, Inner(keys) + Inner(values)) && st.limits.Unlimited?
    ensures Decodes(DecodeDyn(DataHeader(1, DataFormat(0, 2, MAP_ORDINAL)), st), Map(keys, values), st,
                    |Inner(keys) + Inner(values)|)
    decreases Map(keys, values), 0
  {
    AtConcat(st, Inner(keys), Inner(values));
    InnerDecodes(keys, st);
    var st' := DecodeInner(st).st;
    InnerDecodes(values, st');
    DecodesAsMap(keys, values, st, st', DecodeInner(st').st);
  }

  lemma DecodesAsMap(keys: seq<Dyn>, values: seq<Dyn>, st: St, st': St, st'': St)
    requires IsValue(Map(keys, values))
    requires DecodeInner(st) == Ok(keys, st') && DecodeInner(st') == Ok(values, st'')
    ensures DecodeDyn(DataHeader(1, DataFormat(0, 2, MAP_ORDINAL)), st) == Ok(Map(keys, values), st'')
  {
    MakesSame(keys, values, st'');
  }

  /** A value decodes from its whole encoding, wherever that stands, to itself. */
  lemma {:induction false} WholeDecodes(u: Dyn, st: St)
    requires Encodable(u) && At(st, Whole(u)) && st.limits.Unlimited?
    ensures Decodes(ReadDyn(st), u, st, |Whole(u)|)
    decreases u, 2
  {
    AtConcat(st, HeaderBytes(HeaderOf(u)), Payload(u));
    HeaderAt(HeaderOf(u), EnterScope(st).st);
    PayloadDecodes(u, ReadHeader(EnterScope(st).st).st);
  }

  lemma {:induction false} InnerDecodes(items: seq<Dyn>, st: St)
    requires AllEncodable(items) && At(st, Inner(items)) && st.limits.Unlimited?
    ensures Decodes(DecodeInner(st), items, st, |Inner(items)|)
    decreases items, 1
  {
    hide Holds;
    hide Whole;
    var header := DataHeader(|items|, InnerFormat(items));
    var rest := if InnerFormat(items).dataFields == 0 then Payloads(items) else Wholes(items);
    AtConcat(st, HeaderBytes(header), rest);
    HeaderAt(header, st);
    var st' := Moved(st, HEADER_SIZE);
    if header.format.dataFields == 0 {
      var kind := KindOf(header.format.ordinal).value;
      forall i | 0 <= i < |items|
        ensures items[i].Number? && items[i].kind == kind
      {
        if items[i].Number? {
          KindOfOrdinal(items[i].kind);
        }
      }
      NumbersDecode(kind, items, st');
    } else {
      WholesDecode(items, st');
    }
  }

  lemma {:induction false} NumbersDecode(kind: Kind, items: seq<Dyn>, st: St)
    requires forall i :: 0 <= i < |items| ==> items[i].Number? && items[i].kind == kind && IsValue(items[i])
    requires At(st, Payloads(items)) && st.limits.Unlimited?
    ensures Decodes(DecodeNumbers(kind, |items|, st), items, st, |Payloads(items)|)
  {
    if items != [] {
      AtConcat(st, Payload(items[0]), Payloads(items[1..]));
      ScalarAt(kind, items[0].n, st);
      NumbersDecode(kind, items[1..], Moved(st, Width(kind)));
      assert [items[0]] + items[1..] == items;
    }
  }

  lemma {:induction false} WholesDecode(items: seq<Dyn>, st: St)
    requires forall i :: 0 <= i < |items| ==> CanEncode(items[i]) && IsValue(items[i]) && Relayable(items[i])
    requires At(st, Wholes(items)) && st.limits.Unlimited?
    ensures Decodes(ReadDyns(|items|, st), items, st, |Wholes(items)|)
    decreases items, 0
  {
    hide Holds;
    hide Payload;
    hide Relayable;
    hide IsValue;
    hide CanEncode;
    if items != [] {
      AtConcat(st, Whole(items[0]), Wholes(items[1..]));
      WholeDecodes(items[0], st);
      var st' := ReadDyn(st).st;
      WholesDecode(items[1..], st');
      ReadsFirst(|items|, st, items[0], st', items[1..], ReadDyns(|items| - 1, st').st);
      assert [items[0]] + items[1..] == items;
    }
  }

  lemma ReadsFirst(count: nat, st: St, u: Dyn, st': St, rest: seq<Dyn>, st'': St)
    requires count > 0 && ReadDyn(st) == Ok(u, st') && ReadDyns(count - 1, st') == Ok(rest, st'')
    ensures ReadDyns(count, st) == Ok([u] + rest, st'')
  {}

  // The converse: a decoded value is always relayable.

  lemma {:induction false} ReadIsRelayable(st: St)
    requires st.pos <= |st.input.bytes| && ReadDyn(st).Ok?
    ensures Relayable(ReadDyn(st).value)
    decreases Left(st), 0, 0
  {
    var header := ReadHeader(EnterScope(st).st);
    DecodedIsRelayable(header.value, header.st);
  }

  lemma {:induction false} DecodedIsRelayable(header: DataHeader, st: St)
    requires st.pos <= |st.input.bytes| && DecodeDyn(header, st).Ok?
    ensures Relayable(DecodeDyn(header, st).value)
    decreases Left(st), 3, 0
  {
    var ordinal := header.format.ordinal;
    if KindOf(ordinal).Some? {
      if header.count > 1 {
        NumbersAreRelayable(KindOf(ordinal).value, header.count, st);
      }
    } else if ordinal == LIST_ORDINAL {
      InnerIsRelayable(st);
    } else if ordinal == MAP_ORDINAL {
      var keys := DecodeInner(st);
      var values := DecodeInner(keys.st);
      InnerIsRelayable(keys.st);
      MapIsRelayable(keys.value, values.value, values.st);
    } else if !Interpreted(ordinal) {
      CapturedIsFramed(header, st);
    }
  }

  lemma NumbersAreRelayable(kind: Kind, count: nat, st: St)
    requires DecodeNumbers(kind, count, st).Ok?
    ensures forall i :: 0 <= i < count ==> Relayable(DecodeNumbers(kind, count, st).value[i])
  {}

  lemma MapIsRelayable(keys: seq<Dyn>, values: seq<Dyn>, st: St)
    requires MakeMap(keys, values, st).Ok?
    requires forall i :: 0 <= i < |values| ==> Relayable(values[i])
    ensures Relayable(MakeMap(keys, values, st).value)
  {
    var inserted := InsertAll(KeyLess, [], [], keys, values).1;
    forall i | 0 <= i < |inserted|
      ensures Relayable(inserted[i])
    {
      InsertedValues(KeyLess, [], [], keys, values, inserted[i]);
    }
  }

  lemma {:induction false} InnerIsRelayable(st: St)
    requires st.pos <= |st.input.bytes| && DecodeInner(st).Ok?
    ensures forall i :: 0 <= i < |DecodeInner(st).value| ==> Relayable(DecodeInner(st).value[i])
    decreases Left(st), 2, 0
  {
    var inner := ReadHeader(st);
    var kind := KindOf(inner.value.format.ordinal);
    if kind.Some? {
      NumbersAreRelayable(kind.value, inner.value.count, inner.st);
    } else {
      DynsAreRelayable(inner.value.count, inner.st);
    }
  }

  lemma {:induction false} DynsAreRelayable(count: nat, st: St)
    requires st.pos <= |st.input.bytes| && ReadDyns(count, st).Ok?
    ensures forall i :: 0 <= i < count ==> Relayable(ReadDyns(count, st).value[i])
    decreases Left(st), 1, count
  {
    if count > 0 {
      ReadIsRelayable(st);
      DynsAreRelayable(count - 1, ReadDyn(st).st);
    }
  }

  /** The dynamic round trip, exactly: of the values that encode at all, those that decode
      back to themselves are the relayable ones. They also leave whatever follows untouched. */
  lemma RoundTripsIffRelayable(u: Dyn, st: St)
    requires IsValue(u) && CanEncode(u) && At(st, Whole(u)) && st.limits.Unlimited?
    ensures Relayable(u) <==> Decodes(ReadDyn(st), u, st, |Whole(u)|)
    ensures Relayable(u) <==> ReadDyn(st).Ok? && ReadDyn(st).value == u
  {
    if Relayable(u) {
      WholeDecodes(u, st);
    } else if ReadDyn(st).Ok? {
      ReadIsRelayable(st);
    }
  }

  lemma DecodesOpaque(header: DataHeader, st: St)
    requires !Interpreted(header.format.ordinal)
    ensures DecodeDyn(header, st) == match CaptureEntries(header.format, header.count, st)
                                     case Err(e) => Err(e)
                                     case Ok(raw, st') => Ok(Dyn.Data(header, raw), st')
  {}

  /** Relaying data of a type the relay does not know is lossless: a stream under any ordinal
      the decoder does not interpret, with any count, is accepted iff it can be skipped, and
      encoding what was decoded gives back the bytes that were read. */
  lemma RelayIsLossless(st: St)
    requires st.pos <= |st.input.bytes| && EnterScope(st).Ok? && ReadHeader(EnterScope(st).st).Ok?
    requires !Interpreted(ReadHeader(EnterScope(st).st).value.format.ordinal)
    ensures ReadDyn(st).Ok? <==> SkipData(st).Ok?
    ensures ReadDyn(st).Ok? ==>
              var u := ReadDyn(st).value;
              && u.Data? && u.header == ReadHeader(EnterScope(st).st).value
              && ReadDyn(st).st == SkipData(st).st && Whole(u) == Consumed(st, ReadDyn(st).st)
  {
    var entered := EnterScope(st).st;
    var header := ReadHeader(entered);
    DecodesOpaque(header.value, header.st);
    hide DecodeDyn;
    hide SkipEntries;
    hide CaptureEntries;
    hide ReadHeader;
    CaptureIsSkip(st);
  }
}
