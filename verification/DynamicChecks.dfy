/** What `Unspecified` makes of a header: which it takes, and what it skips or counts. */
module DynamicChecks {
  import opened Bytes
  import opened Wire
  import opened Reader
  import opened Extent
  import opened Scalars
  import opened Wrappers
  import opened DynamicTrip
  import opened Dynamic

  /** A built-in ordinal comes with the format of its type. */
  predicate TakesHeader(h: DataHeader) {
    match KindOf(h.format.ordinal)
    case Some(kind) => h.format.blobSize == Width(kind) && h.format.dataFields == 0
    case None =>
      && (h.format.ordinal == 244 ==> h.format.blobSize == 1 && h.format.dataFields == 0)
      && (h.format.ordinal == 242 ==> h == DataHeader(1, DataFormat(0, 1, 242)))
      && (h.format.ordinal == 241 ==> h == DataHeader(1, DataFormat(0, 2, 241)))
  }

  lemma DynChecksHeader(h: DataHeader, st: St)
    ensures DecodeDyn(h, st).Ok? ==> TakesHeader(h)
    ensures !TakesHeader(h) ==> DecodeDyn(h, st) == Err(UnexpectedDataFormat)
  {}

  /** Data under ordinal zero, of any count and format, are passed over exactly as a skip
      passes over them, with the same outcome. */
  lemma OrdinalZeroIsSkipped(st: St)
    requires EnterScope(st).Ok? && ReadHeader(EnterScope(st).st).Ok?
    requires ReadHeader(EnterScope(st).st).value.format.ordinal == 0
    ensures match SkipData(st)
            case Ok(_, st') => ReadDyn(st) == Ok(Default, st')
            case Err(e) => ReadDyn(st) == Err(e)
  {}

  /** A number's ordinal with any count: none, one, or several numbers. */
  lemma NumbersByCount(kind: Kind, items: seq<Dyn>, st: St)
    requires |items| <= MAX_COUNT
    requires forall i :: 0 <= i < |items| ==> items[i].Number? && items[i].kind == kind && IsValue(items[i])
    requires At(st, Payloads(items)) && st.limits.Unlimited?
    ensures var h := DataHeader(|items|, DataFormat(Width(kind), 0, OrdinalOf(kind)));
            Decodes(DecodeDyn(h, st), if |items| == 0 then Default else if |items| == 1 then items[0] else List(items),
                    st, |Payloads(items)|)
  {
    KindOfOrdinal(kind);
    if |items| == 1 {
      AtConcat(st, Payload(items[0]), Payloads(items[1..]));
      ScalarAt(kind, items[0].n, st);
    } else {
      NumbersDecode(kind, items, st);
    }
  }

  /** The inner header of a list: packed numbers in the format of their kind; no other
      built-in type is packed. */
  predicate TakesInner(h: DataHeader) {
    match KindOf(h.format.ordinal)
    case Some(kind) => h.format.blobSize == Width(kind) && h.format.dataFields == 0
    case None => h.format.ordinal in {0, 241, 242, 244} && h.count > 0 ==> h.format.dataFields > 0
  }

  lemma InnerChecksHeader(h: DataHeader, st: St)
    ensures DecodeItems(h, st).Ok? ==> TakesInner(h)
    ensures !TakesInner(h) ==> DecodeItems(h, st).Err?
  {}
}
