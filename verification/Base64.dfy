/** Base64 text: the URL-safe alphabet of section 5 of RFC 4648, without padding. Text is
    its ASCII bytes. */
module Base64 {
  import opened Bits
  import opened Bytes
  import opened BitStrings
  import opened Radix
  import opened Alphabet
  import opened Wrappers

  const BITS_PER_CHAR := 6

  /** `BASE64_LUT`: A-Z, a-z, 0-9, `-` and `_`. */
  function Char(d: nat): byte
    requires d < 64
  {
    if d < 26 then 'A' as int + d
    else if d < 52 then 'a' as int + (d - 26)
    else if d < 62 then '0' as int + (d - 52)
    else if d == 62 then '-' as int
    else '_' as int
  }

  const UPPER := "ABCDEFGHIJKLMNOPQRSTUVWXYZ"
  const LOWER := "abcdefghijklmnopqrstuvwxyz"
  const REST := "0123456789-_"

  /** The alphabet, written out. */
  lemma AlphabetIs(d: nat)
    requires d < 64
    ensures |UPPER + LOWER + REST| == 64 && Char(d) == (UPPER + LOWER + REST)[d] as int
  {
    if d < 26 {
      assert (UPPER + LOWER + REST)[d] == UPPER[d];
    } else if d < 52 {
      assert (UPPER + LOWER + REST)[d] == LOWER[d - 26];
    } else {
      assert (UPPER + LOWER + REST)[d] == REST[d - 52];
    }
  }

  /** `base64_char_index`. */
  function CharIndex(c: byte): (d: Option<nat>)
    ensures d.Some? ==> d.value < 64 && Char(d.value) == c
    ensures d.None? ==> forall k: nat {:trigger Char(k)} :: k < 64 ==> Char(k) != c
  {
    if 'A' as int <= c <= 'Z' as int then Some(c - 'A' as int)
    else if 'a' as int <= c <= 'z' as int then Some(c - 'a' as int + 26)
    else if '0' as int <= c <= '9' as int then Some(c - '0' as int + 52)
    else if c == '-' as int then Some(62)
    else if c == '_' as int then Some(63)
    else None
  }

  /** What `bytes` look like in Base64. */
  function Text(bytes: seq<byte>): seq<byte> {
    UndigitsInvertsDigits(bytes, BITS_PER_CHAR);
    assert Pow2(6) == 64;
    Chars(Char, Digits(bytes, BITS_PER_CHAR))
  }

  datatype BinaryError = UnevenBase64(actual: nat) | UnexpectedCharacter(character: byte)

  datatype Result = Success(bytes: seq<byte>) | Failure(error: BinaryError)

  lemma SixBits()
    ensures Pow2(6) == 64 && Pow2(8) == 256
  {
    assert Pow2(4) == 16;
  }

  /** `condensed << 8` plus the bytes of a chunk, zeros standing in for missing ones. */
  method Condense(chunk: seq<byte>) returns (condensed: nat, ghost full: seq<byte>)
    requires 0 < |chunk| <= 3
    ensures full == chunk + seq(3 - |chunk|, _ => 0) && condensed == Number(Stream(full, 8))
  {
    full := chunk + seq(3 - |chunk|, _ => 0);
    SixBits();
    condensed := 0;
    ghost var done: seq<byte> := [];
    var i := 0;
    while i < 3
      invariant i == |done| <= 3 && forall k :: 0 <= k < i ==> done[k] == full[k]
      invariant condensed == Number(Stream(done, 8))
    {
      var b: byte := if i < |chunk| then chunk[i] else 0;
      Accumulate(done, b, 8);
      condensed := condensed * 256 + b;
      done := done + [b];
      i := i + 1;
    }
    assert done == full;
  }

  /** A chunk of `n` bytes is `n + 1` characters. */
  lemma ChunkDigits(chunk: seq<byte>, full: seq<byte>)
    requires 0 < |chunk| <= 3 && full == chunk + seq(3 - |chunk|, _ => 0)
    ensures |Stream(full, 8)| == Times(4, 6)
    ensures |Digits(chunk, 6)| == |chunk| + 1 && Digits(chunk, 6) <= Groups(Stream(full, 8), 6)
  {
    var bits := Stream(chunk, 8);
    StreamLength(chunk, 8);
    StreamAppend(chunk, seq(3 - |chunk|, _ => 0), 8);
    StreamOfZeros(3 - |chunk|, 8);
    TimesIsProduct(|chunk|, 8);
    TimesIsProduct(3 - |chunk|, 8);
    TimesIsProduct(4, 6);
    TimesIsProduct(|chunk| + 1, 6);
    var gap := Gap(|bits|, 6);
    var rest := Falses(8 * (3 - |chunk|) - gap);
    assert Stream(full, 8) == Padded(bits, 6) + rest;
    GroupCount(Padded(bits, 6), 6, |chunk| + 1);
    GroupsPrefix(Padded(bits, 6), rest, 6);
  }

  lemma CharAt(chunk: seq<byte>, full: seq<byte>, condensed: nat, i: nat)
    requires 0 < |chunk| <= 3 && full == chunk + seq(3 - |chunk|, _ => 0) && condensed == Number(Stream(full, 8))
    requires 3 - |chunk| <= i < 4
    ensures |Text(chunk)| == |chunk| + 1
    ensures var d := And(ShiftRight(condensed, 6 * i), 0x3F); d < 64 && Char(d) == Text(chunk)[3 - i]
  {
    hide Stream;
    hide Number;
    hide Groups;
    hide And;
    hide ShiftRight;
    hide Pow2;
    ChunkDigits(chunk, full);
    SixBits();
    UndigitsInvertsDigits(chunk, BITS_PER_CHAR);
    TimesIsProduct(i, 6);
    ExtractDigit(Stream(full, 8), 6, 4, i);
    assert Digits(chunk, 6)[3 - i] == Groups(Stream(full, 8), 6)[3 - i];
  }

  /** One turn of the loop of `base64_from_bytes`. */
  method EncodeChunk(chunk: seq<byte>) returns (chars: seq<byte>)
    requires 0 < |chunk| <= 3
    ensures chars == Text(chunk)
  {
    hide Text;
    hide Stream;
    hide Number;
    var condensed, full := Condense(chunk);
    CharAt(chunk, full, condensed, 3);
    chars := [];
    var i := 4;
    while i > 3 - |chunk|
      invariant 3 - |chunk| <= i <= 4 && |chars| == 4 - i
      invariant forall k :: 0 <= k < |chars| ==> chars[k] == Text(chunk)[k]
    {
      i := i - 1;
      CharAt(chunk, full, condensed, i);
      chars := chars + [Char(And(ShiftRight(condensed, BITS_PER_CHAR * i), 0x3F))];
    }
    assert chars == Text(chunk);
  }

  lemma TextAppend(chunk: seq<byte>, rest: seq<byte>)
    requires |chunk| == 3
    ensures Text(chunk + rest) == Text(chunk) + Text(rest)
  {
    TimesIsProduct(3, 8);
    TimesIsProduct(4, 6);
    DigitsAppend(chunk, rest, 6, 4);
  }

  lemma SplitText(chunk: seq<byte>, rest: seq<byte>, base64: seq<byte>)
    requires |chunk| == 3 || rest == []
    ensures base64 + Text(chunk + rest) == base64 + Text(chunk) + Text(rest)
  {
    hide Text;
    if |chunk| == 3 {
      TextAppend(chunk, rest);
    } else {
      NoText();
      assert chunk + rest == chunk && Text(chunk) + [] == Text(chunk);
    }
    assert base64 + (Text(chunk) + Text(rest)) == base64 + Text(chunk) + Text(rest);
  }

  lemma NoText()
    ensures Text([]) == []
  {}

  /** `base64_from_bytes`. */
  method FromBytes(bytes: seq<byte>) returns (base64: seq<byte>)
    ensures base64 == Text(bytes)
  {
    hide Text;
    NoText();
    base64 := [];
    var todo := bytes;
    assert [] + Text(todo) == Text(todo);
    while todo != []
      invariant Text(bytes) == base64 + Text(todo)
      decreases |todo|
    {
      var chunk, rest := NextChunk(todo, 3);
      var chars := EncodeChunk(chunk);
      SplitText(chunk, rest, base64);
      base64, todo := base64 + chars, rest;
    }
    assert base64 + [] == base64;
  }

  // Decoding.

  /** The bytes text stands for. */
  function Decoded(text: seq<byte>): seq<nat> {
    Undigits(Indexes(CharIndex, text), BITS_PER_CHAR)
  }

  /** The characters of a chunk as one number, `A` standing in for missing ones. */
  method CondenseChars(chunk: seq<byte>) returns (bad: Option<byte>, condensed: nat, ghost full: seq<nat>)
    requires 0 < |chunk| <= 4
    ensures bad == BadChar(CharIndex, chunk)
    ensures bad.None? ==> full == Indexes(CharIndex, chunk) + seq(4 - |chunk|, _ => 0)
    ensures bad.None? ==> condensed == Number(Stream(full, 6))
  {
    hide Stream;
    hide Number;
    hide BadChar;
    NoNumber(6);
    full := [];
    SixBits();
    condensed := 0;
    var i := 0;
    while i < 4
      invariant i == |full| <= 4 && condensed == Number(Stream(full, 6))
      invariant forall k :: 0 <= k < i && k < |chunk| ==>
                  InAlphabet(CharIndex, chunk[k]) && full[k] == Index(CharIndex, chunk[k])
      invariant forall k :: |chunk| <= k < i ==> full[k] == 0
    {
      var c: byte := if i < |chunk| then chunk[i] else 'A' as int;
      var index := CharIndex(c);
      if index.None? {
        FirstBad(CharIndex, chunk, i);
        return Some(c), 0, [];
      }
      Accumulate(full, index.value, 6);
      condensed := condensed * 64 + index.value;
      full := full + [index.value];
      i := i + 1;
    }
    bad := None;
    NoBadChar(CharIndex, chunk);
    assert full == Indexes(CharIndex, chunk) + seq(4 - |chunk|, _ => 0);
  }

  /** A chunk of `n` characters is `n - 1` bytes. */
  lemma ChunkBytes(ds: seq<nat>, full: seq<nat>)
    requires 2 <= |ds| <= 4 && full == ds + seq(4 - |ds|, _ => 0)
    ensures |Stream(full, 6)| == Times(3, 8)
    ensures |Undigits(ds, 6)| == |ds| - 1 && Undigits(ds, 6) <= Groups(Stream(full, 6), 8)
  {
    var bits := Stream(ds, 6);
    StreamLength(ds, 6);
    StreamAppend(ds, seq(4 - |ds|, _ => 0), 6);
    StreamOfZeros(4 - |ds|, 6);
    TimesIsProduct(|ds|, 6);
    TimesIsProduct(4 - |ds|, 6);
    TimesIsProduct(3, 8);
    TimesIsProduct(|ds| - 1, 8);
    assert Stream(full, 6) == bits + Falses(6 * (4 - |ds|));
    GroupCount(bits, 8, |ds| - 1);
    GroupsPrefix(bits, Falses(6 * (4 - |ds|)), 8);
  }

  /** One turn of the loop of `base64_to_bytes`. */
  method DecodeChunk(chunk: seq<byte>) returns (bad: Option<byte>, bytes: seq<byte>)
    requires 2 <= |chunk| <= 4
    ensures bad == BadChar(CharIndex, chunk) && (bad.None? ==> bytes == Decoded(chunk))
  {
    bytes := [];
    var condensed;
    ghost var full;
    bad, condensed, full := CondenseChars(chunk);
    if bad.Some? {
      return;
    }
    ghost var bits, decoded := Stream(full, 6), Decoded(chunk);
    ChunkBytes(Indexes(CharIndex, chunk), full);
    SixBits();
    hide Stream;
    hide Groups;
    hide Number;
    hide And;
    hide ShiftRight;
    hide Decoded;
    var i := 3;
    while i > 4 - |chunk|
      invariant 4 - |chunk| <= i <= 3 && |bytes| == 3 - i
      invariant forall k :: 0 <= k < |bytes| ==> bytes[k] == decoded[k]
    {
      i := i - 1;
      TimesIsProduct(i, 8);
      ExtractDigit(bits, 8, 3, i);
      MaskIsRemainder(ShiftRight(condensed, 8 * i), 8);
      bytes := bytes + [And(ShiftRight(condensed, 8 * i), 0xFF)];
    }
    assert bytes == decoded;
  }

  lemma DecodedAppend(chunk: seq<byte>, rest: seq<byte>)
    requires |chunk| == 4 && BadChar(CharIndex, chunk).None? && BadChar(CharIndex, rest).None?
    ensures BadChar(CharIndex, chunk + rest).None? && Decoded(chunk + rest) == Decoded(chunk) + Decoded(rest)
  {
    BadCharAppend(CharIndex, chunk, rest);
    TimesIsProduct(4, 6);
    TimesIsProduct(3, 8);
    assert Indexes(CharIndex, chunk + rest) == Indexes(CharIndex, chunk) + Indexes(CharIndex, rest);
    UndigitsAppend(Indexes(CharIndex, chunk), Indexes(CharIndex, rest), 6, 3);
  }

  lemma NothingDecoded()
    ensures Decoded([]) == [] && BadChar(CharIndex, []) == None
  {}

  /** A character by itself would be left for the last chunk. */
  predicate Uneven(length: nat) {
    length % 4 == 1
  }

  lemma NextIsNotUneven(length: nat)
    requires !Uneven(length)
    ensures 0 < length < 4 ==> length >= 2
    ensures length >= 4 ==> !Uneven(length - 4)
    ensures !Uneven(0)
  {}

  /** `base64_to_bytes`: text is rejected iff a lone character trails or one is not of the alphabet. */
  method ToBytes(base64: seq<byte>) returns (r: Result)
    ensures |base64| % 4 == 1 ==> r == Failure(UnevenBase64(|base64|))
    ensures |base64| % 4 != 1 && BadChar(CharIndex, base64).Some? ==>
              r == Failure(UnexpectedCharacter(BadChar(CharIndex, base64).value))
    ensures |base64| % 4 != 1 && BadChar(CharIndex, base64).None? ==> r.Success? && r.bytes == Decoded(base64)
  {
    if |base64| % 4 == 1 {
      return Failure(UnevenBase64(|base64|));
    }
    hide Decoded;
    hide BadChar;
    assert !Uneven(|base64|);
    hide Uneven;
    NothingDecoded();
    var bytes: seq<byte> := [];
    var todo := base64;
    assert [] + Decoded(todo) == Decoded(todo);
    while todo != []
      invariant !Uneven(|todo|) && BadChar(CharIndex, base64) == BadChar(CharIndex, todo)
      invariant BadChar(CharIndex, todo).None? ==> Decoded(base64) == bytes + Decoded(todo)
      decreases |todo|
    {
      NextIsNotUneven(|todo|);
      var chunk, rest := NextChunk(todo, 4);
      var bad, decoded := DecodeChunk(chunk);
      SplitChunk(chunk, rest, bytes);
      if bad.Some? {
        return Failure(UnexpectedCharacter(bad.value));
      }
      bytes, todo := bytes + decoded, rest;
    }
    assert bytes + [] == bytes;
    r := Success(bytes);
  }

  lemma SplitChunk(chunk: seq<byte>, rest: seq<byte>, bytes: seq<nat>)
    requires |chunk| == 4 || rest == []
    ensures BadChar(CharIndex, chunk + rest)
         == if BadChar(CharIndex, chunk).Some? then BadChar(CharIndex, chunk) else BadChar(CharIndex, rest)
    ensures BadChar(CharIndex, chunk + rest).None? ==>
              bytes + Decoded(chunk + rest) == bytes + Decoded(chunk) + Decoded(rest)
  {
    hide Decoded;
    BadCharAppend(CharIndex, chunk, rest);
    if BadChar(CharIndex, chunk + rest).None? {
      if |chunk| == 4 {
        DecodedAppend(chunk, rest);
      } else {
        NothingDecoded();
        assert chunk + rest == chunk && Decoded(chunk) + [] == Decoded(chunk);
      }
      assert bytes + (Decoded(chunk) + Decoded(rest)) == bytes + Decoded(chunk) + Decoded(rest);
    }
  }

  /** Decoding inverts encoding: encoded text is accepted and stands for the bytes it was made from. */
  lemma DecodedInvertsText(bytes: seq<byte>)
    ensures |Text(bytes)| % 4 != 1 && BadChar(CharIndex, Text(bytes)).None? && Decoded(Text(bytes)) == bytes
    ensures 3 * |Text(bytes)| == 4 * |bytes| + (if |bytes| % 3 == 0 then 0 else if |bytes| % 3 == 1 then 2 else 1)
  {
    UndigitsInvertsDigits(bytes, BITS_PER_CHAR);
    SixBits();
    IndexesOfChars(Char, CharIndex, Digits(bytes, BITS_PER_CHAR));
    NoBadChar(CharIndex, Text(bytes));
    TextLength(bytes);
  }

  /** The exact length: four characters for every three bytes, rounded up. */
  lemma TextLength(bytes: seq<byte>)
    ensures 3 * |Text(bytes)| == 4 * |bytes| + (if |bytes| % 3 == 0 then 0 else if |bytes| % 3 == 1 then 2 else 1)
  {
    var bits := Stream(bytes, 8);
    StreamLength(bytes, 8);
    TimesIsProduct(|bytes|, 8);
    var n := PaddedFills(bits, 6);
    TimesIsProduct(n, 6);
    hide Stream;
    hide Groups;
    hide Times;
    hide Gap;
    GroupCount(Padded(bits, 6), 6, n);
    FourForThree(n, |bytes|);
  }

  lemma FourForThree(n: nat, length: nat)
    requires 8 * length <= 6 * n < 8 * length + 6
    ensures 3 * n == 4 * length + (if length % 3 == 0 then 0 else if length % 3 == 1 then 2 else 1)
  {}

  /** Through the code: every byte sequence survives being written as Base64 and read back. */
  method RoundTrip(bytes: seq<byte>) returns (r: Result)
    ensures r == Success(bytes)
  {
    var text := FromBytes(bytes);
    DecodedInvertsText(bytes);
    r := ToBytes(text);
  }
}
