/** Bytes as digits of `w` bits and back: the meaning of the text encodings. */
module Radix {
  import opened Bits
  import opened Bytes
  import opened BitStrings

  /** Bits missing from the last digit. */
  function Gap(n: nat, w: nat): (g: nat)
    requires w > 0
    ensures g < w
  {
    (w - n % w) % w
  }

  function Padded(bits: seq<bool>, w: nat): seq<bool>
    requires w > 0
  {
    bits + Falses(Gap(|bits|, w))
  }

  /** The bits of the bytes in groups of `w`, the last one filled up with zeros. */
  function Digits(bytes: seq<byte>, w: nat): seq<nat>
    requires w > 0
  {
    Groups(Padded(Stream(bytes, 8), w), w)
  }

  /** The whole bytes in the bits of the digits. */
  function Undigits(digits: seq<nat>, w: nat): seq<nat> {
    Groups(Stream(digits, w), 8)
  }

  lemma {:induction false} StreamLength(xs: seq<nat>, w: nat)
    ensures |Stream(xs, w)| == Times(|xs|, w)
  {
    if xs != [] {
      StreamLength(xs[1..], w);
    }
  }

  lemma {:induction false} TimesIsProduct(n: nat, w: nat)
    ensures Times(n, w) == n * w
    decreases n
  {
    if n > 0 {
      TimesIsProduct(n - 1, w);
      assert n * w == w + (n - 1) * w;
    }
  }

  /** Padding fills the last digit. */
  lemma PaddedFills(bits: seq<bool>, w: nat) returns (n: nat)
    requires w > 0
    ensures |Padded(bits, w)| == Times(n, w) && Times(n, w) < |bits| + w
  {
    var q, r := |bits| / w, |bits| % w;
    QuotientEquation(|bits|, w);
    n := if r == 0 then q else q + 1;
    TimesIsProduct(n, w);
    MulSuccessor(w, q);
    assert n * w == w * n;
    if r == 0 {
      RemainderUnique(w, w, 1, 0);
    } else {
      RemainderUnique(w - r, w, 0, w - r);
    }
  }

  /** Decoding inverts encoding, for digits of at most eight bits. */
  lemma UndigitsInvertsDigits(bytes: seq<byte>, w: nat)
    requires 0 < w <= 8
    ensures Undigits(Digits(bytes, w), w) == bytes
    ensures forall i :: 0 <= i < |Digits(bytes, w)| ==> Digits(bytes, w)[i] < Pow2(w)
  {
    var bits := Stream(bytes, 8);
    var n := PaddedFills(bits, w);
    StreamOfGroups(Padded(bits, w), w, n);
    assert Pow2(8) == 256 by {
      assert Pow2(4) == 16;
    }
    GroupsOfStream(bytes, Falses(Gap(|bits|, w)), 8);
  }

  /** The digits of whole chunks stand for themselves. */
  lemma DigitsAppend(head: seq<byte>, rest: seq<byte>, w: nat, n: nat)
    requires w > 0 && Times(|head|, 8) == Times(n, w)
    ensures Digits(head + rest, w) == Digits(head, w) + Digits(rest, w)
  {
    hide Number;
    hide ToBits;
    hide Gap;
    var a, b := Stream(head, 8), Stream(rest, 8);
    StreamAppend(head, rest, 8);
    StreamLength(head, 8);
    GroupCount(a, w, n);
    TimesIsProduct(n, w);
    NoGap(n, w);
    assert Padded(a, w) == a;
    SameGap(|a|, |b|, n, w);
    assert Padded(a + b, w) == a + Padded(b, w);
    GroupsAppend(a, Padded(b, w), w, n);
  }

  lemma NoGap(n: nat, w: nat)
    requires w > 0
    ensures Gap(n * w, w) == 0
  {
    assert n * w == w * n;
    RemainderUnique(n * w, w, n, 0);
    RemainderUnique(w, w, 1, 0);
  }

  lemma SameGap(a: nat, b: nat, n: nat, w: nat)
    requires w > 0 && a == n * w
    ensures Gap(a + b, w) == Gap(b, w)
  {
    QuotientEquation(b, w);
    Distribute(w, n, b / w);
    assert n * w == w * n;
    RemainderUnique(a + b, w, n + b / w, b % w);
  }

  lemma UndigitsAppend(head: seq<nat>, rest: seq<nat>, w: nat, n: nat)
    requires w > 0 && Times(|head|, w) == Times(n, 8)
    ensures Undigits(head + rest, w) == Undigits(head, w) + Undigits(rest, w)
  {
    StreamAppend(head, rest, w);
    StreamLength(head, w);
    GroupCount(Stream(head, w), 8, n);
    GroupsAppend(Stream(head, w), Stream(rest, w), 8, n);
  }

  lemma NoNumber(w: nat)
    ensures Number(Stream([], w)) == 0
  {}

  /** Shifting in one more digit. */
  lemma Accumulate(xs: seq<nat>, x: nat, w: nat)
    requires x < Pow2(w)
    ensures Number(Stream(xs + [x], w)) == Number(Stream(xs, w)) * Pow2(w) + x
  {
    StreamAppend(xs, [x], w);
    assert Stream([x], w) == ToBits(x, w) + [] == ToBits(x, w);
    NumberAppend(Stream(xs, w), ToBits(x, w));
    NumberOfBits(x, w);
  }

  lemma {:induction false} ShiftRightDivides(n: nat, k: nat)
    ensures ShiftRight(n, k) == n / Pow2(k)
    decreases k
  {
    if k > 0 {
      ShiftRightDivides(n / 2, k - 1);
      HalveThenDivide(n, Pow2(k - 1));
    }
  }

  lemma HalveThenDivide(n: nat, m: nat)
    requires m > 0
    ensures n / 2 / m == n / (2 * m)
  {
    var q, r := n / 2 / m, n / 2 % m;
    QuotientEquation(n / 2, m);
    DoubleTimes(q, m, r);
    QuotientUnique(n, 2 * m, q, 2 * r + n % 2);
  }

  /** `(condensed >> (w * i)) & (2^w - 1)` is digit `n - 1 - i` of `n`. */
  lemma ExtractDigit(bits: seq<bool>, w: nat, n: nat, i: nat)
    requires w > 0 && |bits| == Times(n, w) && i < n
    ensures |Groups(bits, w)| == n
    ensures And(ShiftRight(Number(bits), Times(i, w)), Pow2(w) - 1) == Groups(bits, w)[n - 1 - i]
  {
    ShiftRightDivides(Number(bits), Times(i, w));
    MaskIsRemainder(Number(bits) / Pow2(Times(i, w)), w);
    DigitOfNumber(bits, w, n, n - 1 - i);
  }

  lemma {:induction false} StreamOfZeros(n: nat, w: nat)
    ensures Stream(seq(n, _ => 0), w) == Falses(Times(n, w))
    decreases n
  {
    if n > 0 {
      assert seq(n, _ => 0)[1..] == seq(n - 1, _ => 0);
      StreamOfZeros(n - 1, w);
      ZeroBits(w);
    }
  }

  lemma {:induction false} ZeroBits(w: nat)
    ensures ToBits(0, w) == Falses(w)
    decreases w
  {
    if w > 0 {
      ZeroBits(w - 1);
    }
  }

  /** `chunks`: the next `size` bytes, or what is left if there are fewer. */
  method NextChunk(todo: seq<byte>, size: nat) returns (chunk: seq<byte>, rest: seq<byte>)
    requires todo != [] && size > 0
    ensures todo == chunk + rest
    ensures |chunk| == (if |todo| < size then |todo| else size) && |rest| == |todo| - |chunk|
  {
    if |todo| < size {
      chunk, rest := todo, [];
    } else {
      chunk, rest := todo[..size], todo[size..];
    }
  }
}
