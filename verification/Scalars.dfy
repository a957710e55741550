/** Fixed-size numbers (and `bool`), the wire ordinals of the built-in types, and text. */
module Scalars {
  import opened Wrappers
  import opened Bytes
  import opened Wire
  import opened Reader

  /** Floating point numbers are their bit patterns; a `bool` is 0 or 1. */
  datatype Kind = U8 | U16 | U32 | U64 | I8 | I16 | I32 | I64 | F32 | F64 | Bool

  function Width(k: Kind): u16 {
    match k
    case U8 => 1 case I8 => 1 case Bool => 1
    case U16 => 2 case I16 => 2
    case U32 => 4 case I32 => 4 case F32 => 4
    case U64 => 8 case I64 => 8 case F64 => 8
  }

  /** The number of values of that width. */
  function Modulus(k: Kind): nat {
    match Width(k)
    case 1 => 0x100
    case 2 => 0x1_0000
    case 4 => 0x1_0000_0000
    case _ => 0x1_0000_0000_0000_0000
  }

  lemma ModulusIsPower(k: Kind)
    ensures Modulus(k) == Power256(Width(k))
  {
    WidthBounds();
  }

  predicate IsSigned(k: Kind) {
    k.I8? || k.I16? || k.I32? || k.I64?
  }

  predicate InRange(k: Kind, n: int) {
    if k.Bool? then 0 <= n <= 1
    else if IsSigned(k) then 0 <= n + Modulus(k) / 2 < Modulus(k)
    else 0 <= n < Modulus(k)
  }

  /** `to_le_bytes`: two's complement, least significant byte first. */
  function ScalarBytes(k: Kind, n: int): (r: seq<byte>)
    ensures |r| == Width(k)
  {
    ToLittleEndian(if n >= 0 then n else if n + Modulus(k) >= 0 then n + Modulus(k) else 0, Width(k))
  }

  /** `from_le_bytes`; a `bool` is true only for the byte 1. */
  function ScalarValue(k: Kind, bytes: seq<byte>): (n: int)
    requires |bytes| == Width(k)
    ensures InRange(k, n)
  {
    var n := FromLittleEndian(bytes);
    assert n < Modulus(k) by {
      FromLittleEndianBound(bytes);
      ModulusIsPower(k);
    }
    if k.Bool? then (if n == 1 then 1 else 0)
    else if IsSigned(k) && n >= Modulus(k) / 2 then n - Modulus(k)
    else n
  }

  lemma ScalarRoundTrip(k: Kind, n: int)
    requires InRange(k, n)
    ensures ScalarValue(k, ScalarBytes(k, n)) == n
  {
    ModulusIsPower(k);
    NumberRoundTrip(if n >= 0 then n else n + Modulus(k), Width(k));
  }

  /** Of all bytes only 1 is true. */
  lemma OnlyOneIsTrue(b: byte)
    ensures ScalarValue(Bool, [b]) == 1 <==> b == 1
    ensures ScalarValue(Bool, [b]) == 0 <==> b != 1
  {
    assert FromLittleEndian([b]) == b + 256 * FromLittleEndian([]);
  }

  function DecodeScalar(k: Kind, st: St): (r: Res<int>)
    ensures r.Ok? ==> Ahead(st, r.st) && InRange(k, r.value)
  {
    match ReadExact(Width(k), st)
    case Err(e) => Err(e)
    case Ok(bytes, st') => Ok(ScalarValue(k, bytes), st')
  }

  // The ordinals of the built-in types count down from 255.
  const UNSPECIFIED_ORDINAL: byte := 0
  const TEXT_ORDINAL: byte := 244
  const ARRAY_ORDINAL: byte := 243
  const LIST_ORDINAL: byte := 242
  const MAP_ORDINAL: byte := 241

  function OrdinalOf(k: Kind): byte {
    match k
    case U8 => 255 case U16 => 254 case U32 => 253 case U64 => 252
    case I8 => 251 case I16 => 250 case I32 => 249 case I64 => 248
    case F32 => 247 case F64 => 246 case Bool => 245
  }

  function KindOf(ordinal: byte): (k: Option<Kind>)
    ensures k.Some? ==> OrdinalOf(k.value) == ordinal
    ensures k.None? ==> forall kind :: OrdinalOf(kind) != ordinal
  {
    match ordinal
    case 255 => Some(U8) case 254 => Some(U16) case 253 => Some(U32) case 252 => Some(U64)
    case 251 => Some(I8) case 250 => Some(I16) case 249 => Some(I32) case 248 => Some(I64)
    case 247 => Some(F32) case 246 => Some(F64) case 245 => Some(Bool)
    case _ => None
  }

  lemma KindOfOrdinal(k: Kind)
    ensures KindOf(OrdinalOf(k)) == Some(k)
  {}

  /** The length of the UTF-8 encoded character at `b[i]`, 0 if it is malformed. */
  function CharLength(b: seq<byte>, i: nat): (n: nat)
    requires i < |b|
    ensures i + n <= |b|
  {
    var left := |b| - i;
    if b[i] < 0x80 then 1
    else if 0xC2 <= b[i] <= 0xDF then (if left >= 2 && Continues(b[i + 1]) then 2 else 0)
    else if 0xE0 <= b[i] <= 0xEF then
      (if && left >= 3 && Continues(b[i + 1]) && Continues(b[i + 2])
          && (b[i] == 0xE0 ==> b[i + 1] >= 0xA0) && (b[i] == 0xED ==> b[i + 1] <= 0x9F)
       then 3 else 0)
    else if 0xF0 <= b[i] <= 0xF4 then
      (if && left >= 4 && Continues(b[i + 1]) && Continues(b[i + 2]) && Continues(b[i + 3])
          && (b[i] == 0xF0 ==> b[i + 1] >= 0x90) && (b[i] == 0xF4 ==> b[i + 1] <= 0x8F)
       then 4 else 0)
    else 0
  }

  predicate Continues(b: byte) {
    0x80 <= b <= 0xBF
  }

  predicate Utf8From(b: seq<byte>, i: nat)
    requires i <= |b|
    decreases |b| - i
  {
    i == |b| || (CharLength(b, i) > 0 && Utf8From(b, i + CharLength(b, i)))
  }

  /** `str::from_utf8` accepts `b`. */
  predicate Utf8(b: seq<byte>) {
    Utf8From(b, 0)
  }

  /** `Text::decode` once the header has been checked: `count` bytes of UTF-8. */
  function DecodeText(count: nat, st: St): (r: Res<seq<byte>>)
    ensures r.Ok? ==> Ahead(st, r.st) && Utf8(r.value) && |r.value| == count
  {
    if count == 0 then Ok([], st)
    else
      match ReadExact(count, st)
      case Err(e) => Err(e)
      case Ok(bytes, st') => if Utf8(bytes) then Ok(bytes, st') else Err(InvalidUtf8)
  }
}
