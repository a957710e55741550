/** A value sent by one version of a program and received by another, through the code itself. */
module EndToEnd {
  import opened Bytes
  import opened Reader
  import opened ReaderCode
  import opened Extent
  import opened Framing
  import opened Codec
  import opened Evolution
  import opened Compatibility
  import LimitTransparency
  import EncodeCode
  import DecodeCode

  /** Encodes `v` into a vector and decodes that, under the default limits, into a destination
      that holds anything. A value received is the reconciled one, whatever the destination
      held; and one that encodes is received unless its encoding is over a limit. */
  method SendAndReceive(w: Ty, r: Ty, v: Value, dest: Value) returns (received: Result<Value>)
    requires Compatible(w, r) && Typed(w, v) && Faithful(v) && Typed(r, dest)
    ensures received.Success? ==> Fits(w, v) && received.value == Reconcile(r, v)
    ensures Fits(w, v) ==>
              && ReadData(r, Start(Write(w, v))).Ok?
              && (received.Success? <==>
                    && |Write(w, v)| <= DecodeCode.DEFAULT_MAX_BYTES
                    && ReadData(r, Start(Write(w, v))).st.peak <= DecodeCode.DEFAULT_MAX_DEPTH)
  {
    hide Write;
    hide ReadData;
    hide Fits;
    hide Typed;
    hide Faithful;
    hide Reconcile;
    var writer := new ByteVec();
    var sent := EncodeCode.WriteData(w, v, writer);
    if sent.Failure? {
      return Failure(sent.error);
    }
    var bytes := writer.bytes;
    assert bytes == Write(w, v) by {
      assert [] + Write(w, v) == Write(w, v);
    }
    ReadAt(w, r, v, Start(bytes));
    LimitTransparency.LimitsOnlyLimit(r, bytes, DecodeCode.DEFAULT_MAX_BYTES, DecodeCode.DEFAULT_MAX_DEPTH);
    var consumed;
    received, consumed := DecodeCode.ReadSlice(bytes, r, dest);
  }
}
