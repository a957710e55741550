/** Formats and data headers: the self-describing part of the wire encoding. */
module Wire {
  import opened Bytes

  type u16 = x: int | 0 <= x < 0x1_0000
  type u32 = x: int | 0 <= x < 0x1_0000_0000

  /** Fields in the order they have on the wire. */
  datatype DataFormat = DataFormat(blobSize: u16, dataFields: byte, ordinal: byte)

  datatype Format =
    | Blob(size: u16)
    | Data(format: DataFormat)
    | Sequence(format: DataFormat)
    | Fluid
  {
    predicate IsPacked() {
      Blob? || Data?
    }

    /** The format of a sequence of data with this format: packed, or each with a header. */
    function AsSequence(): Format {
      match this
      case Blob(size) => Sequence(DataFormat(size, 0, 0))
      case Data(format) => Sequence(format)
      case Sequence(_) => Sequence(PREFIXED)
      case Fluid => Sequence(PREFIXED)
    }

    function AsDataFormat(): DataFormat {
      match this
      case Blob(size) => DataFormat(size, 0, 0)
      case Data(format) => format
      case Sequence(format) => format
      case Fluid => PREFIXED
    }
  }

  /** What the data of a prefixed sequence look like: each is one field with its own header. */
  const PREFIXED := DataFormat(0, 1, 0)

  datatype DataHeader = DataHeader(count: u32, format: DataFormat)

  const HEADER_SIZE := 8

  function HeaderBytes(h: DataHeader): (r: seq<byte>)
    ensures |r| == HEADER_SIZE
  {
    ToLittleEndian(h.count, 4) + ToLittleEndian(h.format.blobSize, 2) + [h.format.dataFields, h.format.ordinal]
  }

  lemma WidthBounds()
    ensures Power256(1) == 0x100 && Power256(2) == 0x1_0000 && Power256(4) == 0x1_0000_0000
    ensures Power256(8) == 0x1_0000_0000_0000_0000
  {}

  function ParseHeader(b: seq<byte>): DataHeader
    requires |b| == HEADER_SIZE
  {
    assert FromLittleEndian(b[0..4]) < 0x1_0000_0000 && FromLittleEndian(b[4..6]) < 0x1_0000 by {
      WidthBounds();
      FromLittleEndianBound(b[0..4]);
      FromLittleEndianBound(b[4..6]);
    }
    DataHeader(FromLittleEndian(b[0..4]), DataFormat(FromLittleEndian(b[4..6]), b[6], b[7]))
  }

  lemma HeaderRoundTrip(h: DataHeader)
    ensures ParseHeader(HeaderBytes(h)) == h
  {
    var b := HeaderBytes(h);
    WidthBounds();
    NumberRoundTrip(h.count, 4);
    NumberRoundTrip(h.format.blobSize, 2);
    assert b[0..4] == ToLittleEndian(h.count, 4);
    assert b[4..6] == ToLittleEndian(h.format.blobSize, 2);
  }

  lemma HeaderBytesRoundTrip(b: seq<byte>)
    requires |b| == HEADER_SIZE
    ensures HeaderBytes(ParseHeader(b)) == b
  {
    BytesRoundTrip(b[0..4]);
    BytesRoundTrip(b[4..6]);
    assert b[0..4] + b[4..6] + [b[6], b[7]] == b;
  }

  /** A header whose first byte is zero does not have a count of one. */
  lemma ZeroFirstByte(b: seq<byte>)
    requires |b| == HEADER_SIZE && b[0] == 0
    ensures ParseHeader(b).count != 1
  {
    Peel(b[0], FromLittleEndian(b[0..4][1..]));
  }
}
