/** What the codec promises its users, assembled: round trips, evolution in both directions,
    the extent of a value, and relaying through a party that does not know the type. */
module Guarantees {
  import opened Bytes
  import opened Wire
  import opened Reader
  import opened Extent
  import opened DynamicTrip
  import opened Framing
  import Dynamic
  import Scalars
  import opened Codec
  import opened Evolution
  import opened Compatibility
  import opened Unsafe
  import opened Absence

  /** Decoding what was encoded gives back the value and leaves exactly what follows it. */
  lemma RoundTrip(t: Ty, v: Value, st: St)
    requires Sendable(t, v) && At(st, Write(t, v)) && st.limits.Unlimited?
    ensures Decodes(ReadData(t, st), v, st, |Write(t, v)|)
  {
    EvolvedSelf(t);
    ReconcileSelf(t, v);
    ReadAt(t, t, v, st);
  }

  /** Two values with the same encoding are the same value, even when more bytes follow. */
  lemma EncodingIsPrefixFree(t: Ty, v: Value, v': Value)
    requires Sendable(t, v) && Sendable(t, v') && Write(t, v) <= Write(t, v')
    ensures v == v'
  {
    var st := Start(Write(t, v'));
    assert At(st, Write(t, v)) by {
      forall i: nat | i < |Write(t, v)|
        ensures ByteAt(st.input, st.pos, i) == Write(t, v)[i]
      {}
    }
    RoundTrip(t, v, st);
    RoundTrip(t, v', st);
  }

  /** Skipping, capturing and decoding an encoded value all cover exactly its encoding. */
  lemma ExtentsAgree(w: Ty, r: Ty, v: Value, st: St)
    requires Compatible(w, r) && Sendable(w, v) && !IsBlob(w) && At(st, Write(w, v)) && st.limits.Unlimited?
    ensures SkipData(st).Ok? && SkipData(st).value == |Write(w, v)|
    ensures Capture(st).Ok? && Capture(st).value == Write(w, v) && Capture(st).st == SkipData(st).st
    ensures ReadData(r, st).Ok? && ReadData(r, st).st.pos == SkipData(st).st.pos
  {
    SkipsWrite(w, v, st);
    CaptureIsSkip(st);
    AtIsSlice(st, Write(w, v));
    ReadAt(w, r, v, st);
  }

  /** A struct passed on by a party that only knows `Unspecified` reaches its reader unchanged. */
  lemma RelayedStruct(w: Ty, r: Ty, v: Value, st: St, onward: St)
    requires Compatible(w, r) && Sendable(w, v) && w.Struct? && !Interpreted(w.ordinal)
    requires At(st, Write(w, v)) && st.limits.Unlimited? && onward.limits.Unlimited?
    ensures var u := Dynamic.ReadDyn(st);
            && u.Ok? && Dynamic.CanEncode(u.value) && Dynamic.Whole(u.value) == Write(w, v)
            && (At(onward, Dynamic.Whole(u.value)) ==>
                  Decodes(ReadData(r, onward), Reconcile(r, v), onward, |Write(w, v)|))
  {
    AtConcat(st, HeaderBytes(HeaderFor(w, v)), Body(w, v));
    HeaderAt(HeaderFor(w, v), EnterScope(st).st);
    SkipsWrite(w, v, st);
    RelayIsLossless(st);
    AtIsSlice(st, Write(w, v));
    if At(onward, Write(w, v)) {
      ReadAt(w, r, v, onward);
    }
  }

  /** `new` is `old` with fields appended, recursively. */
  predicate Appends(before: Ty, after: Ty)
    requires WellFormed(before) && WellFormed(after)
  {
    match after
    case Struct(ordinal, blobs, datas) =>
      && before.Struct? && before.ordinal == ordinal && |before.blobs| <= |blobs| && SameStart(before.blobs, blobs)
      && (ordinal == 0 ==> FormatOf(before) == FormatOf(after))
      && |before.datas| <= |datas| && forall i :: 0 <= i < |before.datas| ==> Appends(before.datas[i], datas[i])
    case List(elem) => before.List? && Appends(before.elem, elem)
    case Option(elem) => before.Option? && Appends(before.elem, elem)
    case Map(key, value) => before.Map? && before.key == key && Appends(before.value, value)
    case _ => before == after
  }

  lemma {:induction false} AppendsSelf(t: Ty)
    requires WellFormed(t)
    ensures Appends(t, t)
    decreases t
  {
    match t
    case Struct(_, blobs, datas) =>
      SameStartSelf(blobs);
      forall i | 0 <= i < |datas|
        ensures Appends(datas[i], datas[i])
      {
        AppendsSelf(datas[i]);
      }
    case List(elem) => AppendsSelf(elem);
    case Option(elem) => AppendsSelf(elem);
    case Map(_, value) => AppendsSelf(value);
    case _ =>
  }

  lemma {:induction false} SameStartAppend(ts: seq<Ty>, more: seq<Ty>)
    ensures SameStart(ts, ts + more)
  {
    if ts != [] {
      SameStartAppend(ts[1..], more);
      assert (ts + more)[1..] == ts[1..] + more;
    }
  }

  /** Every way of appending counts: any fields after those of either kind, and any nested
      type that has itself been appended to, one field at a time. */
  lemma AppendingCounts(ordinal: byte, blobs: seq<Ty>, datas: seq<Ty>, moreBlobs: seq<Ty>, moreDatas: seq<Ty>)
    requires WellFormed(Struct(ordinal, blobs, datas)) && ordinal != 0
    requires WellFormed(Struct(ordinal, blobs + moreBlobs, datas + moreDatas))
    ensures Appends(Struct(ordinal, blobs, datas), Struct(ordinal, blobs + moreBlobs, datas + moreDatas))
    ensures forall i, t :: 0 <= i < |datas| && WellFormed(t) && !IsBlob(t) && Appends(datas[i], t) ==>
              WellFormed(Struct(ordinal, blobs, datas[i := t]))
              && Appends(Struct(ordinal, blobs, datas), Struct(ordinal, blobs, datas[i := t]))
  {
    SameStartSelf(blobs);
    SameStartAppend(blobs, moreBlobs);
    forall i | 0 <= i < |datas|
      ensures Appends(datas[i], datas[i])
    {
      AppendsSelf(datas[i]);
    }
    forall i, t | 0 <= i < |datas| && WellFormed(t) && !IsBlob(t) && Appends(datas[i], t)
      ensures WellFormed(Struct(ordinal, blobs, datas[i := t]))
      ensures Appends(Struct(ordinal, blobs, datas), Struct(ordinal, blobs, datas[i := t]))
    {
      assert forall k :: 0 <= k < |datas| ==> datas[i := t][k] == if k == i then t else datas[k];
    }
  }

  lemma {:induction false} MoreBlobs(a: seq<Ty>, b: seq<Ty>)
    requires SameStart(a, b) && |a| <= |b|
    ensures TotalSize(a) <= TotalSize(b) && SameStart(b, a)
  {
    if a != [] {
      MoreBlobs(a[1..], b[1..]);
    }
  }

  /** Backward evolution needs no care: old data always read as new, appended fields by default. */
  lemma {:induction false} BackwardIsSafe(before: Ty, after: Ty)
    requires WellFormed(before) && WellFormed(after) && Appends(before, after)
    ensures Compatible(before, after)
    decreases after
  {
    match after
    case Struct(_, blobs, datas) =>
      MoreBlobs(before.blobs, blobs);
      forall i | 0 <= i < |before.datas|
        ensures Compatible(before.datas[i], datas[i])
      {
        BackwardIsSafe(before.datas[i], datas[i]);
      }
    case List(elem) => BackwardIsSafe(before.elem, elem);
    case Option(elem) => BackwardIsSafe(before.elem, elem);
    case Map(_, value) => BackwardIsSafe(before.value, value);
    case _ =>
  }

  /** Old data of any kind reads as the newer type, from exactly its encoding. */
  lemma BackwardReconciles(before: Ty, after: Ty)
    requires WellFormed(before) && WellFormed(after) && Appends(before, after)
    ensures AlwaysReconciles(before, after)
  {
    BackwardIsSafe(before, after);
    SafeIffReconciles(before, after);
  }

  /** What a reconciled struct is: the fields both sides know, reconciled one by one; the
      reader's further fields, which are absent; and nothing of the writer's further fields. */
  lemma ReconciledFields(r: Ty, v: Value)
    requires r.Struct? && v.VStruct?
    ensures var seen := Reconcile(r, v);
            && seen.VStruct? && |seen.blobs| == |r.blobs| && |seen.datas| == |r.datas|
            && (forall i :: 0 <= i < |r.blobs| ==>
                  seen.blobs[i] == if i < |v.blobs| then v.blobs[i] else Default(r.blobs[i]))
            && (forall i :: 0 <= i < |r.datas| ==>
                  seen.datas[i] == if i < |v.datas| then Reconcile(r.datas[i], v.datas[i]) else Default(r.datas[i]))
            && (WellFormed(r) ==>
                  && (forall i :: |v.blobs| <= i < |r.blobs| ==> Absent(r.blobs[i], seen.blobs[i]))
                  && (forall i :: |v.datas| <= i < |r.datas| ==> Absent(r.datas[i], seen.datas[i])))
  {
    forall i | 0 <= i < |r.blobs|
      ensures ReconcileBlobs(r.blobs, v.blobs)[i] == if i < |v.blobs| then v.blobs[i] else Default(r.blobs[i])
    {
      ReconciledBlob(r.blobs, v.blobs, i);
    }
    forall i | 0 <= i < |r.datas|
      ensures ReconcileDatas(r.datas, v.datas)[i]
           == if i < |v.datas| then Reconcile(r.datas[i], v.datas[i]) else Default(r.datas[i])
    {
      ReconciledData(r.datas, v.datas, i);
    }
    if WellFormed(r) {
      forall i | |v.blobs| <= i < |r.blobs|
        ensures Absent(r.blobs[i], Default(r.blobs[i]))
      {
        AbsentIffDefault(r.blobs[i], Default(r.blobs[i]));
      }
      forall i | |v.datas| <= i < |r.datas|
        ensures Absent(r.datas[i], Default(r.datas[i]))
      {
        AbsentIffDefault(r.datas[i], Default(r.datas[i]));
      }
    }
  }

  lemma {:induction false} ReconciledBlob(ts: seq<Ty>, vs: seq<Value>, i: nat)
    requires i < |ts|
    ensures ReconcileBlobs(ts, vs)[i] == if i < |vs| then vs[i] else Default(ts[i])
  {
    if vs != [] && i > 0 {
      ReconciledBlob(ts[1..], vs[1..], i - 1);
    }
  }

  lemma {:induction false} ReconciledData(ts: seq<Ty>, vs: seq<Value>, i: nat)
    requires i < |ts|
    ensures ReconcileDatas(ts, vs)[i] == if i < |vs| then Reconcile(ts[i], vs[i]) else Default(ts[i])
  {
    if vs != [] && i > 0 {
      ReconciledData(ts[1..], vs[1..], i - 1);
    }
  }

  /** Every type that old readers know either kept its blob size or has no structured fields. */
  predicate ForwardReady(before: Ty, after: Ty)
    requires WellFormed(before) && WellFormed(after) && Appends(before, after)
  {
    match after
    case Struct(_, blobs, datas) =>
      && (TotalSize(before.blobs) == TotalSize(blobs) || before.datas == [])
      && forall i :: 0 <= i < |before.datas| ==> ForwardReady(before.datas[i], datas[i])
    case List(elem) => ForwardReady(before.elem, elem)
    case Option(elem) => ForwardReady(before.elem, elem)
    case Map(_, value) => ForwardReady(before.value, value)
    case _ => true
  }

  lemma {:induction false} ForwardSafety(before: Ty, after: Ty)
    requires WellFormed(before) && WellFormed(after) && Appends(before, after)
    ensures Evolved(after, before) && (Safe(after, before) <==> ForwardReady(before, after))
    decreases after
  {
    match after
    case Struct(_, blobs, datas) =>
      MoreBlobs(before.blobs, blobs);
      forall i | 0 <= i < |before.datas|
        ensures Evolved(datas[i], before.datas[i])
        ensures Safe(datas[i], before.datas[i]) <==> ForwardReady(before.datas[i], datas[i])
      {
        ForwardSafety(before.datas[i], datas[i]);
      }
    case List(elem) => ForwardSafety(before.elem, elem);
    case Option(elem) => ForwardSafety(before.elem, elem);
    case Map(_, value) => ForwardSafety(before.value, value);
    case _ =>
  }

  /** Forward evolution, exactly: old readers always ignore what was appended, and nothing
      else, if and only if the appended fields are forward ready. */
  lemma ForwardIffReady(before: Ty, after: Ty)
    requires WellFormed(before) && WellFormed(after) && Appends(before, after)
    ensures ForwardReady(before, after) <==> AlwaysReconciles(after, before)
  {
    ForwardSafety(before, after);
    SafeIffReconciles(after, before);
  }

  /** Appending a fixed-size field to a type with a structured one breaks old readers,
      although the field was appended. */
  lemma AppendingIsNotEnough()
    ensures var before := Struct(1, [Scalar(Scalars.U8)], [Ty.Text]);
            var after := Struct(1, [Scalar(Scalars.U8), Scalar(Scalars.U8)], [Ty.Text]);
            WellFormed(before) && WellFormed(after) && Appends(before, after) && !AlwaysReconciles(after, before)
  {
    var before := Struct(1, [Scalar(Scalars.U8)], [Ty.Text]);
    var after := Struct(1, [Scalar(Scalars.U8), Scalar(Scalars.U8)], [Ty.Text]);
    assert TotalSize([Scalar(Scalars.U8)]) == 1 && TotalSize([Scalar(Scalars.U8), Scalar(Scalars.U8)]) == 2;
    ForwardIffReady(before, after);
  }
}
