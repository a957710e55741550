/** Base32 text in Crockford's alphabet. Text is its ASCII bytes. */
module Base32 {
  import opened Bits
  import opened Bytes
  import opened BitStrings
  import opened Radix
  import opened Alphabet
  import opened Wrappers

  const BITS_PER_CHAR := 5

  /** `BASE32_LUT`: the digits, then the letters without I, L, O and U. */
  function Char(d: nat): byte
    requires d < 32
  {
    if d < 10 then '0' as int + d
    else if d < 18 then 'A' as int + (d - 10)
    else if d < 20 then 'J' as int + (d - 18)
    else if d < 22 then 'M' as int + (d - 20)
    else if d < 27 then 'P' as int + (d - 22)
    else 'V' as int + (d - 27)
  }

  /** The alphabet, written out. */
  lemma AlphabetIs(d: nat)
    requires d < 32
    ensures Char(d) == "0123456789ABCDEFGHJKMNPQRSTVWXYZ"[d] as int
  {}

  /** `base32_char_index`, which takes letters of either case. */
  function CharIndex(c: byte): (d: Option<nat>)
    ensures d.Some? ==> d.value < 32
  {
    if '0' as int <= c <= '9' as int then Some(c - '0' as int)
    else if 'A' as int <= c <= 'H' as int then Some(c - 'A' as int + 10)
    else if 'J' as int <= c <= 'K' as int then Some(c - 'J' as int + 18)
    else if 'M' as int <= c <= 'N' as int then Some(c - 'M' as int + 20)
    else if 'P' as int <= c <= 'T' as int then Some(c - 'P' as int + 22)
    else if 'V' as int <= c <= 'Z' as int then Some(c - 'V' as int + 27)
    else if 'a' as int <= c <= 'h' as int then Some(c - 'a' as int + 10)
    else if 'j' as int <= c <= 'k' as int then Some(c - 'j' as int + 18)
    else if 'm' as int <= c <= 'n' as int then Some(c - 'm' as int + 20)
    else if 'p' as int <= c <= 't' as int then Some(c - 'p' as int + 22)
    else if 'v' as int <= c <= 'z' as int then Some(c - 'v' as int + 27)
    else None
  }

  function Upper(c: byte): byte {
    if 'a' as int <= c <= 'z' as int then c - 32 else c
  }

  /** A character is taken exactly when it is in the alphabet, in either case, and then for
      its place there. */
  lemma CharIndexIff(c: byte, d: nat)
    ensures CharIndex(c) == Some(d) <==> d < 32 && Char(d) == Upper(c)
  {}

  /** What `bytes` look like in Base32. */
  function Text(bytes: seq<byte>): seq<byte> {
    UndigitsInvertsDigits(bytes, BITS_PER_CHAR);
    assert Pow2(5) == 32;
    Chars(Char, Digits(bytes, BITS_PER_CHAR))
  }

  lemma FiveBits()
    ensures Pow2(5) == 32 && Pow2(8) == 256
  {
    assert Pow2(4) == 16;
  }

  /** `xs` with zeros up to a whole chunk of `size`. */
  function Filled(xs: seq<nat>, size: nat): (r: seq<nat>)
    requires size > 0
    ensures |r| >= |xs| && r == xs + seq(|r| - |xs|, _ => 0)
  {
    xs + seq(Gap(|xs|, size), _ => 0)
  }

  lemma FilledAppend(head: seq<nat>, rest: seq<nat>, size: nat)
    requires size > 0 && |head| == size
    ensures Filled(head + rest, size) == head + Filled(rest, size)
  {
    SameGap(size, |rest|, 1, size);
  }

  lemma FilledStream(xs: seq<nat>, size: nat, w: nat)
    requires size > 0
    ensures Stream(Filled(xs, size), w) == Stream(xs, w) + Falses(Times(Gap(|xs|, size), w))
  {
    StreamAppend(xs, seq(Gap(|xs|, size), _ => 0), w);
    StreamOfZeros(Gap(|xs|, size), w);
  }

  // Encoding.

  /** The text before it is trimmed: eight characters for every chunk of five bytes. */
  function Untrimmed(bytes: seq<byte>): seq<byte> {
    assert forall i :: 0 <= i < |Groups(Stream(Filled(bytes, 5), 8), 5)| ==> Groups(Stream(Filled(bytes, 5), 8), 5)[i] < 32 by {
      UntrimmedDigits(bytes);
    }
    Chars(Char, Groups(Stream(Filled(bytes, 5), 8), 5))
  }

  lemma UntrimmedDigits(bytes: seq<byte>)
    ensures exists n: nat :: |Stream(Filled(bytes, 5), 8)| == Times(n, 5) && 5 * n == 8 * |Filled(bytes, 5)|
    ensures forall i :: 0 <= i < |Groups(Stream(Filled(bytes, 5), 8), 5)| ==> Groups(Stream(Filled(bytes, 5), 8), 5)[i] < 32
  {
    var bits := Stream(Filled(bytes, 5), 8);
    StreamLength(Filled(bytes, 5), 8);
    TimesIsProduct(|Filled(bytes, 5)|, 8);
    var n := 8 * (|Filled(bytes, 5)| / 5);
    FilledIsWhole(|bytes|, 5);
    TimesIsProduct(n, 5);
    StreamOfGroups(bits, 5, n);
    FiveBits();
  }

  lemma FilledIsWhole(n: nat, size: nat)
    requires size == 5 || size == 8
    ensures (n + Gap(n, size)) % size == 0
  {}

  method Condense(chunk: seq<byte>) returns (condensed: nat, ghost full: seq<byte>)
    requires 0 < |chunk| <= 5
    ensures full == Filled(chunk, 5) && |full| == 5 && condensed == Number(Stream(full, 8))
  {
    full := Filled(chunk, 5);
    assert |full| == 5;
    FiveBits();
    condensed := 0;
    ghost var done: seq<byte> := [];
    var i := 0;
    while i < 5
      invariant i == |done| <= 5 && forall k :: 0 <= k < i ==> done[k] == full[k]
      invariant condensed == Number(Stream(done, 8))
    {
      var b: byte := if i < |chunk| then chunk[i] else 0;
      Accumulate(done, b, 8);
      condensed := condensed * 256 + b;
      done := done + [b];
      i := i + 1;
    }
    assert done == full;
  }

  lemma CharAt(chunk: seq<byte>, full: seq<byte>, condensed: nat, i: nat)
    requires 0 < |chunk| <= 5 && full == Filled(chunk, 5) && |full| == 5 && condensed == Number(Stream(full, 8)) && i < 8
    ensures |Untrimmed(chunk)| == 8
    ensures var d := And(ShiftRight(condensed, 5 * i), 0x1F); d < 32 && Char(d) == Untrimmed(chunk)[7 - i]
  {
    hide Number;
    hide And;
    hide ShiftRight;
    hide Pow2;
    StreamLength(full, 8);
    TimesIsProduct(5, 8);
    TimesIsProduct(8, 5);
    UntrimmedDigits(chunk);
    FiveBits();
    hide Stream;
    hide Groups;
    TimesIsProduct(i, 5);
    ExtractDigit(Stream(full, 8), 5, 8, i);
  }

  /** One turn of the loop of `base32_from_bytes`. */
  method EncodeChunk(chunk: seq<byte>) returns (chars: seq<byte>)
    requires 0 < |chunk| <= 5
    ensures chars == Untrimmed(chunk)
  {
    hide Untrimmed;
    hide Stream;
    hide Number;
    var condensed, full := Condense(chunk);
    CharAt(chunk, full, condensed, 0);
    chars := [];
    var i := 8;
    while i > 0
      invariant i <= 8 && |chars| == 8 - i
      invariant forall k :: 0 <= k < |chars| ==> chars[k] == Untrimmed(chunk)[k]
    {
      i := i - 1;
      CharAt(chunk, full, condensed, i);
      chars := chars + [Char(And(ShiftRight(condensed, BITS_PER_CHAR * i), 0x1F))];
    }
    assert chars == Untrimmed(chunk);
  }

  lemma UntrimmedAppend(chunk: seq<byte>, rest: seq<byte>)
    requires |chunk| == 5
    ensures Untrimmed(chunk + rest) == Untrimmed(chunk) + Untrimmed(rest)
  {
    FilledAppend(chunk, rest, 5);
    StreamAppend(chunk, Filled(rest, 5), 8);
    StreamLength(chunk, 8);
    TimesIsProduct(5, 8);
    TimesIsProduct(8, 5);
    GroupCount(Stream(chunk, 8), 5, 8);
    GroupsAppend(Stream(chunk, 8), Stream(Filled(rest, 5), 8), 5, 8);
    assert Filled(chunk, 5) == chunk;
  }

  lemma SplitText(chunk: seq<byte>, rest: seq<byte>, base32: seq<byte>)
    requires |chunk| == 5 || rest == []
    ensures base32 + Untrimmed(chunk + rest) == base32 + Untrimmed(chunk) + Untrimmed(rest)
  {
    hide Untrimmed;
    if |chunk| == 5 {
      UntrimmedAppend(chunk, rest);
    } else {
      NoText();
      assert chunk + rest == chunk && Untrimmed(chunk) + [] == Untrimmed(chunk);
    }
    assert base32 + (Untrimmed(chunk) + Untrimmed(rest)) == base32 + Untrimmed(chunk) + Untrimmed(rest);
  }

  lemma NoText()
    ensures Untrimmed([]) == []
  {
    assert Filled([], 5) == [];
  }

  /** Trimming leaves the text: as many characters as its bits need. */
  lemma Trimmed(bytes: seq<byte>)
    ensures Text(bytes) <= Untrimmed(bytes)
    ensures 5 * |Untrimmed(bytes)| == 8 * (|bytes| + Gap(|bytes|, 5))
    ensures 8 * |bytes| <= 5 * |Text(bytes)| < 8 * |bytes| + 5
  {
    hide Number;
    hide ToBits;
    var bits := Stream(bytes, 8);
    StreamLength(bytes, 8);
    TimesIsProduct(|bytes|, 8);
    FilledStream(bytes, 5, 8);
    var zeros := Times(Gap(|bytes|, 5), 8);
    TimesIsProduct(Gap(|bytes|, 5), 8);
    var n := PaddedFills(bits, 5);
    TimesIsProduct(n, 5);
    GroupCount(Padded(bits, 5), 5, n);
    EnoughZeros(|bytes|, zeros);
    var rest := Falses(zeros - Gap(|bits|, 5));
    assert Stream(Filled(bytes, 5), 8) == Padded(bits, 5) + rest;
    GroupsPrefix(Padded(bits, 5), rest, 5);
    UntrimmedDigits(bytes);
    var m: nat :| |Stream(Filled(bytes, 5), 8)| == Times(m, 5) && 5 * m == 8 * |Filled(bytes, 5)|;
    TimesIsProduct(m, 5);
    GroupCount(Stream(Filled(bytes, 5), 8), 5, m);
  }

  lemma EnoughZeros(length: nat, zeros: nat)
    requires zeros == 8 * Gap(length, 5)
    ensures Gap(8 * length, 5) <= zeros
  {
    if length % 5 == 0 {
      RemainderUnique(8 * length, 5, 8 * (length / 5), 0);
    } else {
      assert Gap(length, 5) >= 1 && Gap(8 * length, 5) < 5;
    }
  }

  /** The number of characters `base32_from_bytes` cuts off. */
  lemma ExtraChars(length: nat, untrimmed: nat, text: nat)
    requires 5 * untrimmed == 8 * (length + Gap(length, 5)) && 8 * length <= 5 * text < 8 * length + 5
    ensures length % 5 == 0 ==> text == untrimmed
    ensures length % 5 != 0 ==> text == untrimmed - (8 - (length % 5 * 8 + 4) / 5)
  {}

  /** `base32_from_bytes`. */
  method FromBytes(bytes: seq<byte>) returns (base32: seq<byte>)
    ensures base32 == Text(bytes)
  {
    hide Untrimmed;
    hide Text;
    NoText();
    base32 := [];
    var todo := bytes;
    assert [] + Untrimmed(todo) == Untrimmed(todo);
    while todo != []
      invariant Untrimmed(bytes) == base32 + Untrimmed(todo)
      decreases |todo|
    {
      var chunk, rest := NextChunk(todo, 5);
      var chars := EncodeChunk(chunk);
      SplitText(chunk, rest, base32);
      base32, todo := base32 + chars, rest;
    }
    assert base32 + [] == base32;
    Trimmed(bytes);
    ExtraChars(|bytes|, |Untrimmed(bytes)|, |Text(bytes)|);
    if |bytes| % BITS_PER_CHAR != 0 {
      var extra := 8 - (|bytes| % BITS_PER_CHAR * 8 + 4) / BITS_PER_CHAR;
      base32 := base32[..|base32| - extra];
    }
  }

  // Decoding.

  /** The bytes text stands for. */
  function Decoded(text: seq<byte>): seq<nat> {
    Undigits(Indexes(CharIndex, text), BITS_PER_CHAR)
  }

  /** The bytes before they are trimmed: five for every chunk of eight characters. */
  function UntrimmedBytes(ds: seq<nat>): seq<nat> {
    Groups(Stream(Filled(ds, 8), 5), 8)
  }

  /** The characters of a chunk as one number, `0` standing in for missing ones. */
  method CondenseChars(chunk: seq<byte>) returns (bad: Option<byte>, condensed: nat, ghost full: seq<nat>)
    requires 0 < |chunk| <= 8
    ensures bad == BadChar(CharIndex, chunk)
    ensures bad.None? ==> full == Filled(Indexes(CharIndex, chunk), 8) && |full| == 8 && condensed == Number(Stream(full, 5))
  {
    hide Stream;
    hide Number;
    hide BadChar;
    NoNumber(5);
    full := [];
    FiveBits();
    condensed := 0;
    var i := 0;
    while i < 8
      invariant i == |full| <= 8 && condensed == Number(Stream(full, 5))
      invariant forall k :: 0 <= k < i && k < |chunk| ==>
                  InAlphabet(CharIndex, chunk[k]) && full[k] == Index(CharIndex, chunk[k])
      invariant forall k :: |chunk| <= k < i ==> full[k] == 0
    {
      var c: byte := if i < |chunk| then chunk[i] else '0' as int;
      var index := CharIndex(c);
      if index.None? {
        FirstBad(CharIndex, chunk, i);
        return Some(c), 0, [];
      }
      Accumulate(full, index.value, 5);
      condensed := condensed * 32 + index.value;
      full := full + [index.value];
      i := i + 1;
    }
    bad := None;
    NoBadChar(CharIndex, chunk);
    assert full == Filled(Indexes(CharIndex, chunk), 8);
  }

  lemma ByteAt(full: seq<nat>, condensed: nat, i: nat)
    requires |full| == 8 && condensed == Number(Stream(full, 5)) && i < 5
    ensures |Groups(Stream(full, 5), 8)| == 5
    ensures var b := And(ShiftRight(condensed, 8 * i), 0xFF); b < 256 && b == Groups(Stream(full, 5), 8)[4 - i]
  {
    hide Number;
    hide And;
    hide ShiftRight;
    hide Pow2;
    StreamLength(full, 5);
    TimesIsProduct(8, 5);
    TimesIsProduct(5, 8);
    FiveBits();
    hide Stream;
    hide Groups;
    TimesIsProduct(i, 8);
    ExtractDigit(Stream(full, 5), 8, 5, i);
    MaskIsRemainder(ShiftRight(condensed, 8 * i), 8);
  }

  /** One turn of the loop of `base32_to_bytes`. */
  method DecodeChunk(chunk: seq<byte>) returns (bad: Option<byte>, bytes: seq<byte>)
    requires 0 < |chunk| <= 8
    ensures bad == BadChar(CharIndex, chunk) && (bad.None? ==> bytes == UntrimmedBytes(Indexes(CharIndex, chunk)))
  {
    hide Stream;
    hide Number;
    bytes := [];
    var condensed;
    ghost var full;
    bad, condensed, full := CondenseChars(chunk);
    if bad.Some? {
      return;
    }
    ghost var decoded := UntrimmedBytes(Indexes(CharIndex, chunk));
    ByteAt(full, condensed, 0);
    var i := 5;
    while i > 0
      invariant i <= 5 && |bytes| == 5 - i
      invariant forall k :: 0 <= k < |bytes| ==> bytes[k] == decoded[k]
    {
      i := i - 1;
      ByteAt(full, condensed, i);
      bytes := bytes + [And(ShiftRight(condensed, 8 * i), 0xFF)];
    }
    assert bytes == decoded;
  }

  lemma UntrimmedBytesAppend(chunk: seq<nat>, rest: seq<nat>)
    requires |chunk| == 8
    ensures UntrimmedBytes(chunk + rest) == UntrimmedBytes(chunk) + UntrimmedBytes(rest)
  {
    FilledAppend(chunk, rest, 8);
    StreamAppend(chunk, Filled(rest, 8), 5);
    StreamLength(chunk, 5);
    TimesIsProduct(8, 5);
    TimesIsProduct(5, 8);
    GroupCount(Stream(chunk, 5), 8, 5);
    GroupsAppend(Stream(chunk, 5), Stream(Filled(rest, 8), 5), 8, 5);
    assert Filled(chunk, 8) == chunk;
  }

  lemma NoBytes()
    ensures UntrimmedBytes(Indexes(CharIndex, [])) == [] && BadChar(CharIndex, []) == None
  {
    assert Filled([], 8) == [];
  }

  lemma SplitChunk(chunk: seq<byte>, rest: seq<byte>, bytes: seq<nat>)
    requires |chunk| == 8 || rest == []
    ensures BadChar(CharIndex, chunk + rest)
         == if BadChar(CharIndex, chunk).Some? then BadChar(CharIndex, chunk) else BadChar(CharIndex, rest)
    ensures bytes + UntrimmedBytes(Indexes(CharIndex, chunk + rest))
         == bytes + UntrimmedBytes(Indexes(CharIndex, chunk)) + UntrimmedBytes(Indexes(CharIndex, rest))
  {
    hide UntrimmedBytes;
    BadCharAppend(CharIndex, chunk, rest);
    assert Indexes(CharIndex, chunk + rest) == Indexes(CharIndex, chunk) + Indexes(CharIndex, rest);
    if |chunk| == 8 {
      UntrimmedBytesAppend(Indexes(CharIndex, chunk), Indexes(CharIndex, rest));
    } else {
      NoBytes();
      assert chunk + rest == chunk;
      assert UntrimmedBytes(Indexes(CharIndex, chunk)) + [] == UntrimmedBytes(Indexes(CharIndex, chunk));
    }
    var a, b := UntrimmedBytes(Indexes(CharIndex, chunk)), UntrimmedBytes(Indexes(CharIndex, rest));
    assert bytes + (a + b) == bytes + a + b;
  }

  /** Trimming leaves the whole bytes among the bits of the characters. */
  lemma TrimmedBytes(text: seq<byte>)
    ensures Decoded(text) <= UntrimmedBytes(Indexes(CharIndex, text)) && |Decoded(text)| == |text| * 5 / 8
  {
    hide Number;
    hide ToBits;
    var ds := Indexes(CharIndex, text);
    StreamLength(ds, 5);
    TimesIsProduct(|ds|, 5);
    FilledStream(ds, 8, 5);
    GroupsPrefix(Stream(ds, 5), Falses(Times(Gap(|ds|, 8), 5)), 8);
    var n := |text| * 5 / 8;
    TimesIsProduct(n, 8);
    GroupCount(Stream(ds, 5), 8, n);
  }

  datatype Result = Success(bytes: seq<byte>) | Failure(character: byte)

  /** `base32_to_bytes`: text is rejected iff it has a character outside the alphabet. */
  method ToBytes(base32: seq<byte>) returns (r: Result)
    ensures BadChar(CharIndex, base32).Some? ==> r == Failure(BadChar(CharIndex, base32).value)
    ensures BadChar(CharIndex, base32).None? ==> r.Success? && r.bytes == Decoded(base32)
  {
    hide UntrimmedBytes;
    hide BadChar;
    hide Decoded;
    NoBytes();
    var bytes: seq<byte> := [];
    var todo := base32;
    assert [] + UntrimmedBytes(Indexes(CharIndex, todo)) == UntrimmedBytes(Indexes(CharIndex, todo));
    while todo != []
      invariant BadChar(CharIndex, base32) == BadChar(CharIndex, todo)
      invariant UntrimmedBytes(Indexes(CharIndex, base32)) == bytes + UntrimmedBytes(Indexes(CharIndex, todo))
      decreases |todo|
    {
      var chunk, rest := NextChunk(todo, 8);
      var bad, decoded := DecodeChunk(chunk);
      SplitChunk(chunk, rest, bytes);
      if bad.Some? {
        return Failure(bad.value);
      }
      bytes, todo := bytes + decoded, rest;
    }
    TrimmedBytes(base32);
    assert bytes + [] == bytes;
    bytes := bytes[..|base32| * BITS_PER_CHAR / 8];
    r := Success(bytes);
  }

  /** Decoding inverts encoding, and the text has exactly the characters its bits need. */
  lemma DecodedInvertsText(bytes: seq<byte>)
    ensures BadChar(CharIndex, Text(bytes)).None? && Decoded(Text(bytes)) == bytes
    ensures 8 * |bytes| <= 5 * |Text(bytes)| < 8 * |bytes| + 5
  {
    UndigitsInvertsDigits(bytes, BITS_PER_CHAR);
    FiveBits();
    IndexesOfChars(Char, CharIndex, Digits(bytes, BITS_PER_CHAR));
    NoBadChar(CharIndex, Text(bytes));
    Trimmed(bytes);
  }

  /** ASCII lower case. */
  function Lower(c: byte): byte {
    if 'A' as int <= c <= 'Z' as int then c + 32 else c
  }

  predicate SameButCase(a: seq<byte>, b: seq<byte>) {
    |a| == |b| && forall i :: 0 <= i < |a| ==> Lower(a[i]) == Lower(b[i])
  }

  /** Decoding ignores ASCII case: texts that differ in nothing else stand for the same bytes,
      and are rejected together. */
  lemma {:induction false} CaseDoesNotMatter(a: seq<byte>, b: seq<byte>)
    requires SameButCase(a, b)
    ensures Indexes(CharIndex, a) == Indexes(CharIndex, b) && Decoded(a) == Decoded(b)
    ensures BadChar(CharIndex, a).None? <==> BadChar(CharIndex, b).None?
  {
    forall i | 0 <= i < |a|
      ensures CharIndex(a[i]) == CharIndex(b[i])
    {}
    NoBadChar(CharIndex, a);
    NoBadChar(CharIndex, b);
  }

  /** Through the code: every byte sequence survives being written as Base32, in whatever
      case it is copied, and read back. */
  method RoundTrip(bytes: seq<byte>, copy: seq<byte>) returns (r: Result)
    requires SameButCase(copy, Text(bytes))
    ensures r == Success(bytes)
  {
    var text := FromBytes(bytes);
    DecodedInvertsText(bytes);
    CaseDoesNotMatter(copy, text);
    r := ToBytes(copy);
  }
}
