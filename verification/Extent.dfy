/** How far a self-describing value reaches: skipping and capturing agree on every stream,
    and depend on nothing but the bytes they consume. */
module Extent {
  import opened Bytes
  import opened Wire
  import opened Reader

  /** The bytes between two states of a reader. */
  function Consumed(st: St, st': St): seq<byte>
    requires st.pos <= st'.pos <= |st.input.bytes|
  {
    st.input.bytes[st.pos..st'.pos]
  }

  /** Two results that stop at the same place, one of which holds what was consumed. */
  ghost predicate Captures(st: St, captured: Res<seq<byte>>, skipped: Res<nat>) {
    && (captured.Ok? <==> skipped.Ok?)
    && (captured.Ok? ==>
          && captured.st == skipped.st && Ahead(st, captured.st) && captured.st.pos <= |st.input.bytes|
          && captured.value == Consumed(st, captured.st))
  }

  lemma Consecutive(st: St, mid: St, end: St)
    requires Ahead(st, mid) && Ahead(mid, end) && end.pos <= |st.input.bytes|
    ensures Consumed(st, mid) + Consumed(mid, end) == Consumed(st, end)
  {}

  /** `capture_data` succeeds exactly where `skip_data` does, stops where it stops, and
      appends exactly the bytes in between. */
  lemma {:induction false} CaptureIsSkip(st: St)
    ensures Captures(st, Capture(st), SkipData(st))
    decreases Left(st), 0, 0
  {
    var entered := EnterScope(st);
    if entered.Ok? {
      var header := ReadHeader(entered.st);
      if header.Ok? {
        CaptureIsSkipEntries(header.value.format, header.value.count, header.st);
        HeaderBytesRoundTrip(Consumed(entered.st, header.st));
        var end := SkipEntries(header.value.format, header.value.count, header.st);
        if end.Ok? {
          Consecutive(entered.st, header.st, end.st);
        }
      }
    }
  }

  lemma {:induction false} CaptureIsSkipEntries(format: DataFormat, count: nat, st: St)
    requires st.pos <= |st.input.bytes|
    ensures Captures(st, CaptureEntries(format, count, st), SkipEntries(format, count, st))
    decreases Left(st), 3, count
  {
    if count > 0 {
      CaptureIsSkipEntry(format, st);
      var one := SkipEntry(format, st);
      if one.Ok? {
        CaptureIsSkipEntries(format, count - 1, one.st);
        var rest := SkipEntries(format, count - 1, one.st);
        if rest.Ok? {
          Consecutive(st, one.st, rest.st);
        }
      }
    }
  }

  lemma {:induction false} CaptureIsSkipEntry(format: DataFormat, st: St)
    requires st.pos <= |st.input.bytes|
    ensures Captures(st, CaptureEntry(format, st), SkipEntry(format, st))
    decreases Left(st), 2, 0
  {
    var blob := SkipBlob(format.blobSize, st);
    if blob.Ok? {
      CaptureIsSkipFields(format.dataFields, blob.st);
      var fields := SkipFields(format.dataFields, blob.st);
      if fields.Ok? {
        Consecutive(st, blob.st, fields.st);
      }
    }
  }

  lemma {:induction false} CaptureIsSkipFields(fields: nat, st: St)
    requires st.pos <= |st.input.bytes|
    ensures Captures(st, CaptureFields(fields, st), SkipFields(fields, st))
    decreases Left(st), 1, fields
  {
    if fields > 0 {
      CaptureIsSkip(st);
      var one := SkipData(st);
      if one.Ok? {
        CaptureIsSkipFields(fields - 1, one.st);
        var rest := SkipFields(fields - 1, one.st);
        if rest.Ok? {
          Consecutive(st, one.st, rest.st);
        }
      }
    }
  }

  function ByteAt(input: Source, pos: nat, i: nat): byte {
    if pos + i < |input.bytes| then input.bytes[pos + i] else 0
  }

  /** `at` is a reader without limits over a stream that holds the `n` bytes `st` is about to read. */
  ghost predicate Mirrors(st: St, at: St, n: nat) {
    && at.limits.Unlimited? && st.pos + n <= |st.input.bytes| && at.pos + n <= |at.input.bytes|
    && forall i: nat {:trigger ByteAt(at.input, at.pos, i)} ::
         i < n ==> ByteAt(at.input, at.pos, i) == ByteAt(st.input, st.pos, i)
  }

  /** Mirroring `n` bytes is mirroring `k` of them and then the rest. */
  lemma MirrorsPart(st: St, at: St, n: nat, k: nat)
    requires Mirrors(st, at, n) && k <= n
    ensures Mirrors(st, at, k) && Mirrors(Moved(st, k), Moved(at, k), n - k)
  {
    var here, there := st.pos + k, at.pos + k;
    forall i: nat | i < n - k
      ensures ByteAt(at.input, there, i) == ByteAt(st.input, here, i)
    {
      assert ByteAt(at.input, at.pos, k + i) == ByteAt(st.input, st.pos, k + i);
    }
  }

  lemma MirroredSlice(st: St, at: St, n: nat)
    requires Mirrors(st, at, n)
    ensures st.input.bytes[st.pos..st.pos + n] == at.input.bytes[at.pos..at.pos + n]
  {
    var here, there := st.input.bytes[st.pos..st.pos + n], at.input.bytes[at.pos..at.pos + n];
    forall i: nat | i < n
      ensures here[i] == there[i]
    {
      assert ByteAt(at.input, at.pos, i) == ByteAt(st.input, st.pos, i);
    }
  }

  /** A skip depends only on the bytes it skips. */
  lemma {:induction false} SkipIsLocal(st: St, at: St)
    requires SkipData(st).Ok? && Mirrors(st, at, SkipData(st).value)
    ensures SkipData(at).Ok? && SkipData(at).value == SkipData(st).value
    decreases Left(st), 0, 0
  {
    var n := SkipData(st).value;
    var entered, entered' := EnterScope(st).st, EnterScope(at).st;
    var header := ReadHeader(entered);
    MirrorsPart(entered, entered', n, HEADER_SIZE);
    MirroredSlice(entered, entered', HEADER_SIZE);
    SkipEntriesIsLocal(header.value.format, header.value.count, header.st, ReadHeader(entered').st);
  }

  lemma {:induction false} SkipEntriesIsLocal(format: DataFormat, count: nat, st: St, at: St)
    requires SkipEntries(format, count, st).Ok? && Mirrors(st, at, SkipEntries(format, count, st).value)
    ensures SkipEntries(format, count, at).Ok?
    ensures SkipEntries(format, count, at).value == SkipEntries(format, count, st).value
    decreases Left(st), 3, count
  {
    if count > 0 {
      var one := SkipEntry(format, st);
      MirrorsPart(st, at, SkipEntries(format, count, st).value, one.value);
      SkipEntryIsLocal(format, st, at);
      SkipEntriesIsLocal(format, count - 1, one.st, SkipEntry(format, at).st);
    }
  }

  lemma {:induction false} SkipEntryIsLocal(format: DataFormat, st: St, at: St)
    requires SkipEntry(format, st).Ok? && Mirrors(st, at, SkipEntry(format, st).value)
    ensures SkipEntry(format, at).Ok? && SkipEntry(format, at).value == SkipEntry(format, st).value
    decreases Left(st), 2, 0
  {
    MirrorsPart(st, at, SkipEntry(format, st).value, format.blobSize);
    SkipFieldsIsLocal(format.dataFields, SkipBlob(format.blobSize, st).st, SkipBlob(format.blobSize, at).st);
  }

  lemma {:induction false} SkipFieldsIsLocal(fields: nat, st: St, at: St)
    requires SkipFields(fields, st).Ok? && Mirrors(st, at, SkipFields(fields, st).value)
    ensures SkipFields(fields, at).Ok? && SkipFields(fields, at).value == SkipFields(fields, st).value
    decreases Left(st), 1, fields
  {
    if fields > 0 {
      var one := SkipData(st);
      SkipFirstIsLocal(st, at, SkipFields(fields, st).value);
      SkipFieldsIsLocal(fields - 1, one.st, SkipData(at).st);
    }
  }

  lemma {:induction false} SkipFirstIsLocal(st: St, at: St, n: nat)
    requires SkipData(st).Ok? && SkipData(st).value <= n && Mirrors(st, at, n)
    ensures SkipData(at).Ok? && SkipData(at).value == SkipData(st).value
    ensures Mirrors(SkipData(st).st, SkipData(at).st, n - SkipData(st).value)
    decreases Left(st), 1, 0
  {
    MirrorsPart(st, at, n, SkipData(st).value);
    SkipIsLocal(st, at);
  }

  /** A new reader of `input`. */
  function StartWith(input: seq<byte>, limits: Limits): St {
    St(Source(input), 0, 0, 0, limits)
  }

  function Start(input: seq<byte>): St {
    StartWith(input, Unlimited)
  }

  /** `bytes` are exactly the payload `header` describes. */
  predicate Framed(header: DataHeader, bytes: seq<byte>) {
    var skipped := SkipEntries(header.format, header.count, Start(bytes));
    skipped.Ok? && skipped.value == |bytes|
  }

  /** `bytes` stand at `pos`. */
  ghost predicate Holds(input: Source, pos: nat, bytes: seq<byte>) {
    && pos + |bytes| <= |input.bytes|
    && forall i: nat {:trigger ByteAt(input, pos, i)} :: i < |bytes| ==> ByteAt(input, pos, i) == bytes[i]
  }

  /** `st` is about to read `bytes`. */
  ghost predicate At(st: St, bytes: seq<byte>) {
    Holds(st.input, st.pos, bytes)
  }

  lemma AtConcat(st: St, a: seq<byte>, b: seq<byte>)
    requires At(st, a + b)
    ensures At(st, a) && At(Moved(st, |a|), b)
  {
    forall i: nat | i < |b|
      ensures ByteAt(st.input, st.pos + |a|, i) == b[i]
    {
      assert ByteAt(st.input, st.pos, |a| + i) == (a + b)[|a| + i];
    }
  }

  lemma AtIsSlice(st: St, bytes: seq<byte>)
    requires st.pos + |bytes| <= |st.input.bytes|
    ensures At(st, bytes) <==> st.input.bytes[st.pos..st.pos + |bytes|] == bytes
  {
    var slice := st.input.bytes[st.pos..st.pos + |bytes|];
    if At(st, bytes) {
      forall i: nat | i < |bytes|
        ensures slice[i] == bytes[i]
      {
        assert ByteAt(st.input, st.pos, i) == bytes[i];
      }
    }
  }

  lemma AtIsMirror(st: St, bytes: seq<byte>)
    requires At(st, bytes)
    ensures Mirrors(st, Start(bytes), |bytes|)
    ensures st.limits.Unlimited? ==> Mirrors(Start(bytes), st, |bytes|)
  {
    forall i: nat | i < |bytes|
      ensures ByteAt(st.input, st.pos, i) == bytes[i] == ByteAt(Source(bytes), 0, i)
    {}
  }

  /** Reading opaque data captures `raw` wherever it stands, iff `raw` is framed. */
  lemma CaptureIffFramed(header: DataHeader, raw: seq<byte>, st: St)
    requires At(st, raw) && st.limits.Unlimited?
    ensures Framed(header, raw) <==> var captured := CaptureEntries(header.format, header.count, st);
                                     captured.Ok? && captured.value == raw
  {
    AtIsMirror(st, raw);
    AtIsSlice(st, raw);
    CaptureIsSkipEntries(header.format, header.count, st);
    var captured := CaptureEntries(header.format, header.count, st);
    if Framed(header, raw) {
      SkipEntriesIsLocal(header.format, header.count, Start(raw), st);
    } else if captured.Ok? && captured.value == raw {
      SkipEntriesIsLocal(header.format, header.count, st, Start(raw));
    }
  }

  /** What a capture returns is framed by the header it was captured under. */
  lemma CapturedIsFramed(header: DataHeader, st: St)
    requires st.pos <= |st.input.bytes| && CaptureEntries(header.format, header.count, st).Ok?
    ensures Framed(header, CaptureEntries(header.format, header.count, st).value)
  {
    var captured := CaptureEntries(header.format, header.count, st);
    var raw := captured.value;
    CaptureIsSkipEntries(header.format, header.count, st);
    AtIsSlice(st, raw);
    AtIsMirror(st, raw);
    SkipEntriesIsLocal(header.format, header.count, st, Start(raw));
  }
}
