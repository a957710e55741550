/** What UTF-8 is, from the side of the characters: the text that `Text` accepts is exactly
    the text made of encoded characters. */
module Unicode {
  import opened Bytes
  import opened Scalars

  /** A Unicode scalar value: a code point that is not a surrogate. */
  type Char = c: int | 0 <= c <= 0x10FFFF && !(0xD800 <= c <= 0xDFFF)

  /** Six bits of `c`, after a shift to the right, in a continuation byte. */
  function Six(c: int): byte {
    0x80 + c % 64
  }

  function Low(b: byte): int {
    b - 0x80
  }

  function EncodeChar(c: Char): (b: seq<byte>)
    ensures 1 <= |b| <= 4
  {
    if c < 0x80 then [c]
    else if c < 0x800 then [0xC0 + c / 64, Six(c)]
    else if c < 0x1_0000 then [0xE0 + c / 4096, Six(c / 64), Six(c)]
    else [0xF0 + c / 262144, Six(c / 4096), Six(c / 64), Six(c)]
  }

  function EncodeChars(cs: seq<Char>): seq<byte> {
    if cs == [] then [] else EncodeChar(cs[0]) + EncodeChars(cs[1..])
  }

  lemma LeadBounds(c: Char)
    ensures forall x: int :: Continues(Six(x))
    ensures 0x80 <= c < 0x800 ==> 2 <= c / 64 <= 0x1F
    ensures 0x800 <= c < 0x1_0000 ==>
              && c / 4096 <= 0x0F && (c / 4096 == 0 ==> Six(c / 64) >= 0xA0) && (c / 4096 == 0x0D ==> Six(c / 64) <= 0x9F)
    ensures 0x1_0000 <= c ==>
              && c / 262144 <= 4
              && (c / 262144 == 0 ==> Six(c / 4096) >= 0x90) && (c / 262144 == 4 ==> Six(c / 4096) <= 0x8F)
  {}

  lemma CharHere(b: seq<byte>, i: nat, c: Char)
    requires i + |EncodeChar(c)| <= |b| && b[i..i + |EncodeChar(c)|] == EncodeChar(c)
    ensures CharLength(b, i) == |EncodeChar(c)|
  {
    LeadBounds(c);
    hide Six;
    hide Continues;
    var e := EncodeChar(c);
    var here := b[i..i + |e|];
    assert b[i] == here[0];
    if c >= 0x80 {
      assert b[i + 1] == here[1];
    }
    if c >= 0x800 {
      assert b[i + 2] == here[2];
    }
    if c >= 0x1_0000 {
      assert b[i + 3] == here[3];
    }
  }

  /** An encoded character is recognised, whatever is around it. */
  lemma CharIsRecognised(before: seq<byte>, c: Char, after: seq<byte>)
    ensures var b := before + EncodeChar(c) + after;
            CharLength(b, |before|) == |EncodeChar(c)|
  {
    hide EncodeChar;
    hide CharLength;
    CharHere(before + EncodeChar(c) + after, |before|, c);
  }

  lemma Sixes(c: int)
    requires c >= 0
    ensures c / 4096 == c / 64 / 64 && c / 262144 == c / 64 / 64 / 64
  {}

  lemma AddSix(q: int, r: int)
    requires 0 <= r < 64
    ensures (q * 64 + r) / 64 == q && (q * 64 + r) % 64 == r
  {}

  /** The bits of a lead byte and of its continuation bytes, put together. */
  lemma Compose(lead: int, b1: byte, b2: byte, b3: byte)
    requires 0 <= lead <= 0x1F && Continues(b1) && Continues(b2) && Continues(b3)
    ensures var c := lead * 64 + Low(b1); c / 64 == lead && Six(c) == b1
    ensures var c := (lead * 64 + Low(b1)) * 64 + Low(b2);
            c / 4096 == lead && Six(c / 64) == b1 && Six(c) == b2
    ensures var c := ((lead * 64 + Low(b1)) * 64 + Low(b2)) * 64 + Low(b3);
            c / 262144 == lead && Six(c / 4096) == b1 && Six(c / 64) == b2 && Six(c) == b3
  {
    var c1 := lead * 64 + Low(b1);
    var c2 := c1 * 64 + Low(b2);
    var c3 := c2 * 64 + Low(b3);
    AddSix(lead, Low(b1));
    AddSix(c1, Low(b2));
    AddSix(c2, Low(b3));
    Sixes(c2);
    Sixes(c3);
  }

  lemma RecognisedThree(b: seq<byte>, i: nat) returns (c: Char)
    requires i < |b| && CharLength(b, i) == 3
    ensures EncodeChar(c) == b[i..i + 3]
  {
    var lead: int := b[i];
    Compose(lead - 0xE0, b[i + 1], b[i + 2], 0x80);
    hide Six;
    c := ((lead - 0xE0) * 64 + Low(b[i + 1])) * 64 + Low(b[i + 2]);
    assert EncodeChar(c) == [b[i], b[i + 1], b[i + 2]];
  }

  lemma RecognisedFour(b: seq<byte>, i: nat) returns (c: Char)
    requires i < |b| && CharLength(b, i) == 4
    ensures EncodeChar(c) == b[i..i + 4]
  {
    var lead: int := b[i];
    Compose(lead - 0xF0, b[i + 1], b[i + 2], b[i + 3]);
    hide Six;
    c := (((lead - 0xF0) * 64 + Low(b[i + 1])) * 64 + Low(b[i + 2])) * 64 + Low(b[i + 3]);
    assert EncodeChar(c) == [b[i], b[i + 1], b[i + 2], b[i + 3]];
  }

  /** Whatever is recognised is an encoded character. */
  lemma RecognisedIsChar(b: seq<byte>, i: nat) returns (c: Char)
    requires i < |b| && CharLength(b, i) > 0
    ensures EncodeChar(c) == b[i..i + CharLength(b, i)]
  {
    var n := CharLength(b, i);
    var lead: int := b[i];
    if n == 1 {
      c := lead;
    } else if n == 2 {
      Compose(lead - 0xC0, b[i + 1], 0x80, 0x80);
      c := (lead - 0xC0) * 64 + Low(b[i + 1]);
    } else if n == 3 {
      c := RecognisedThree(b, i);
    } else {
      c := RecognisedFour(b, i);
    }
  }

  lemma {:induction false} EncodedFrom(before: seq<byte>, cs: seq<Char>)
    ensures Utf8From(before + EncodeChars(cs), |before|)
    decreases cs
  {
    if cs == [] {
      assert before + [] == before;
    } else {
      var one, rest := EncodeChar(cs[0]), EncodeChars(cs[1..]);
      CharIsRecognised(before, cs[0], rest);
      EncodedFrom(before + one, cs[1..]);
      assert before + (one + rest) == before + one + rest;
    }
  }

  lemma {:induction false} CharsFrom(b: seq<byte>, i: nat) returns (cs: seq<Char>)
    requires i <= |b| && Utf8From(b, i)
    ensures EncodeChars(cs) == b[i..]
    decreases |b| - i
  {
    if i == |b| {
      cs := [];
    } else {
      var n := CharLength(b, i);
      var c := RecognisedIsChar(b, i);
      var rest := CharsFrom(b, i + n);
      cs := [c] + rest;
      assert cs[1..] == rest;
      assert b[i..] == b[i..i + n] + b[i + n..];
    }
  }

  /** The bytes of a `Text` are exactly the encodings of sequences of characters. */
  lemma Utf8Iff(b: seq<byte>)
    ensures Utf8(b) <==> exists cs: seq<Char> :: EncodeChars(cs) == b
  {
    if Utf8(b) {
      var cs := CharsFrom(b, 0);
      assert b[0..] == b;
    }
    if exists cs: seq<Char> :: EncodeChars(cs) == b {
      var cs: seq<Char> :| EncodeChars(cs) == b;
      EncodedFrom([], cs);
      assert [] + b == b;
    }
  }

}
