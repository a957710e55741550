/** Regrouping a stream of bits: what Base32 and Base64 do, whatever the width of a digit. */
module BitStrings {
  import opened Bits

  /** The number a bit string denotes, most significant bit first. */
  function Number(bits: seq<bool>): nat {
    if bits == [] then 0
    else 2 * Number(bits[..|bits| - 1]) + (if bits[|bits| - 1] then 1 else 0)
  }

  /** The `w` low bits of `n`. */
  function ToBits(n: nat, w: nat): (r: seq<bool>)
    ensures |r| == w
    decreases w, n
  {
    if w == 0 then [] else ToBits(n / 2, w - 1) + [n % 2 == 1]
  }

  lemma {:induction false} NumberOfBits(n: nat, w: nat)
    requires n < Pow2(w)
    ensures Number(ToBits(n, w)) == n
    decreases w
  {
    if w > 0 {
      NumberOfBits(n / 2, w - 1);
      assert ToBits(n, w)[..w - 1] == ToBits(n / 2, w - 1);
    }
  }

  lemma {:induction false} BitsOfNumber(bits: seq<bool>)
    ensures Number(bits) < Pow2(|bits|) && ToBits(Number(bits), |bits|) == bits
  {
    if bits != [] {
      BitsOfNumber(bits[..|bits| - 1]);
      assert bits[..|bits| - 1] + [bits[|bits| - 1]] == bits;
    }
  }

  lemma DoubleTimes(a: nat, m: nat, b: nat)
    ensures 2 * (a * m + b) == a * (2 * m) + 2 * b
  {}

  lemma {:induction false} NumberAppend(a: seq<bool>, b: seq<bool>)
    ensures Number(a + b) == Number(a) * Pow2(|b|) + Number(b)
  {
    if b == [] {
      assert a + b == a;
    } else {
      var front := b[..|b| - 1];
      assert (a + b)[..|a + b| - 1] == a + front;
      NumberAppend(a, front);
      DoubleTimes(Number(a), Pow2(|front|), Number(front));
    }
  }

  /** `w` bits of each digit, one digit after another. */
  function Stream(xs: seq<nat>, w: nat): seq<bool> {
    if xs == [] then [] else ToBits(xs[0], w) + Stream(xs[1..], w)
  }

  /** The digits of `w` bits in a bit string; bits that do not fill a digit are dropped. */
  function Groups(bits: seq<bool>, w: nat): seq<nat>
    requires w > 0
  {
    if |bits| < w then [] else [Number(bits[..w])] + Groups(bits[w..], w)
  }

  function Falses(n: nat): (r: seq<bool>)
    ensures |r| == n
  {
    seq(n, _ => false)
  }

  lemma {:induction false} StreamAppend(xs: seq<nat>, ys: seq<nat>, w: nat)
    ensures Stream(xs + ys, w) == Stream(xs, w) + Stream(ys, w)
  {
    if xs == [] {
      assert xs + ys == ys;
    } else {
      assert (xs + ys)[1..] == xs[1..] + ys;
      StreamAppend(xs[1..], ys, w);
    }
  }

  /** More bits at the end only add digits. */
  lemma {:induction false} GroupsPrefix(a: seq<bool>, b: seq<bool>, w: nat)
    requires w > 0
    ensures Groups(a, w) <= Groups(a + b, w)
    decreases |a|
  {
    if |a| >= w {
      SplitAppend(a, b, w);
      GroupsPrefix(a[w..], b, w);
    }
  }

  /** Whole digits can be split off. */
  lemma {:induction false} GroupsAppend(a: seq<bool>, b: seq<bool>, w: nat, n: nat)
    requires w > 0 && |Groups(a, w)| == n && |a| == Times(n, w)
    ensures Groups(a + b, w) == Groups(a, w) + Groups(b, w)
    decreases n
  {
    hide Number;
    if n == 0 {
      assert a + b == b && Groups(a, w) + Groups(b, w) == Groups(b, w);
    } else {
      SplitAppend(a, b, w);
      GroupsAppend(a[w..], b, w, n - 1);
      FirstOfThree(Number(a[..w]), Groups(a[w..], w), Groups(b, w));
    }
  }

  lemma SplitAppend(a: seq<bool>, b: seq<bool>, w: nat)
    requires w <= |a|
    ensures (a + b)[..w] == a[..w] && (a + b)[w..] == a[w..] + b
  {}

  lemma FirstOfThree(x: nat, a: seq<nat>, b: seq<nat>)
    ensures [x] + (a + b) == [x] + a + b
  {}

  /** `n * w`, by repeated addition. */
  function Times(n: nat, w: nat): nat
    decreases n, w
  {
    if n == 0 then 0 else w + Times(n - 1, w)
  }

  /** A string of `n` digits and fewer bits than one more has `n` groups. */
  lemma {:induction false} GroupCount(bits: seq<bool>, w: nat, n: nat)
    requires w > 0 && Times(n, w) <= |bits| < Times(n, w) + w
    ensures |Groups(bits, w)| == n
    decreases n
  {
    if n > 0 {
      GroupCount(bits[w..], w, n - 1);
    }
  }

  /** Reading back the digits gives them, and ignores an incomplete one. */
  lemma {:induction false} GroupsOfStream(xs: seq<nat>, tail: seq<bool>, w: nat)
    requires w > 0 && |tail| < w && forall i :: 0 <= i < |xs| ==> xs[i] < Pow2(w)
    ensures Groups(Stream(xs, w) + tail, w) == xs
  {
    hide Number;
    hide ToBits;
    hide Pow2;
    if xs == [] {
      assert [] + tail == tail;
    } else {
      var bits := Stream(xs, w) + tail;
      assert bits[..w] == ToBits(xs[0], w) && bits[w..] == Stream(xs[1..], w) + tail;
      NumberOfBits(xs[0], w);
      GroupsOfStream(xs[1..], tail, w);
      assert [xs[0]] + xs[1..] == xs;
    }
  }

  /** Nothing is lost when the digits fill the string. */
  lemma {:induction false} StreamOfGroups(bits: seq<bool>, w: nat, n: nat)
    requires w > 0 && |bits| == Times(n, w)
    ensures Stream(Groups(bits, w), w) == bits
    ensures forall i :: 0 <= i < |Groups(bits, w)| ==> Groups(bits, w)[i] < Pow2(w)
    decreases n
  {
    if n > 0 {
      BitsOfNumber(bits[..w]);
      StreamOfGroups(bits[w..], w, n - 1);
      assert bits[..w] + bits[w..] == bits;
    }
  }

  /** Digit `k` of a number of `n` digits is what shifting and masking extract. */
  lemma {:induction false} DigitOfNumber(bits: seq<bool>, w: nat, n: nat, k: nat)
    requires w > 0 && |bits| == Times(n, w) && k < n
    ensures |Groups(bits, w)| == n
    ensures Groups(bits, w)[k] == Number(bits) / Pow2(Times(n - 1 - k, w)) % Pow2(w)
    decreases n
  {
    hide Number;
    hide Pow2;
    var head, tail := SplitFirst(bits, w, n);
    if k == 0 {
      HighDigit(Number(head), Number(tail), Pow2(Times(n - 1, w)), Pow2(w));
    } else {
      DigitOfNumber(tail, w, n - 1, k - 1);
      assert n - 1 - k == n - 1 - 1 - (k - 1);
      LaterDigit(Number(head), Number(tail), w, n, k);
    }
  }

  lemma SplitFirst(bits: seq<bool>, w: nat, n: nat) returns (head: seq<bool>, tail: seq<bool>)
    requires w > 0 && n > 0 && |bits| == Times(n, w)
    ensures |tail| == Times(n - 1, w) && Groups(bits, w) == [Number(head)] + Groups(tail, w)
    ensures Number(bits) == Number(head) * Pow2(Times(n - 1, w)) + Number(tail)
    ensures Number(head) < Pow2(w) && Number(tail) < Pow2(Times(n - 1, w))
    ensures |Groups(bits, w)| == n
  {
    GroupCount(bits, w, n);
    head, tail := bits[..w], bits[w..];
    assert head + tail == bits;
    NumberAppend(head, tail);
    BitsOfNumber(head);
    BitsOfNumber(tail);
  }

  lemma LaterDigit(high: nat, low: nat, w: nat, n: nat, k: nat)
    requires 0 < k < n
    ensures (high * Pow2(Times(n - 1, w)) + low) / Pow2(Times(n - 1 - k, w)) % Pow2(w)
         == low / Pow2(Times(n - 1 - k, w)) % Pow2(w)
  {
    TimesAdds(n - 1 - k, k, w);
    PowerAdds(Times(n - 1 - k, w), Times(k, w));
    PowerAdds(w, Times(k - 1, w));
    hide Pow2;
    LowDigit(high, low, Pow2(Times(n - 1 - k, w)), Pow2(Times(k - 1, w)), Pow2(w));
  }

  lemma {:induction false} TimesAdds(a: nat, b: nat, w: nat)
    ensures Times(a + b, w) == Times(a, w) + Times(b, w)
    decreases a
  {
    if a > 0 {
      TimesAdds(a - 1, b, w);
    }
  }

  lemma {:induction false} PowerAdds(a: nat, b: nat)
    ensures Pow2(a + b) == Pow2(a) * Pow2(b)
    decreases a
  {
    if a > 0 {
      PowerAdds(a - 1, b);
      DoubleTimes(Pow2(a - 1), Pow2(b), 0);
    }
  }

  lemma QuotientUnique(s: nat, m: nat, q: nat, r: nat)
    requires m > 0 && r < m && s == m * q + r
    ensures s / m == q && s % m == r
  {
    RemainderUnique(s, m, q, r);
    QuotientEquation(s, m);
    if s / m < q {
      MulMonotone(m, s / m + 1, q);
      MulSuccessor(m, s / m);
    } else if s / m > q {
      MulMonotone(m, q + 1, s / m);
      MulSuccessor(m, q);
    }
  }

  lemma HighDigit(high: nat, low: nat, m: nat, d: nat)
    requires low < m && high < d
    ensures (high * m + low) / m % d == high
  {
    assert m * high == high * m;
    QuotientUnique(high * m + low, m, high, low);
    QuotientUnique(high, d, 0, high);
  }

  /** A digit of the low part is not changed by a high part that is a multiple of `d * e * m`. */
  lemma LowDigit(high: nat, low: nat, m: nat, e: nat, d: nat)
    requires m > 0 && d > 0
    ensures (high * (m * (d * e)) + low) / m % d == low / m % d
  {
    var q, r := low / m, low % m;
    QuotientEquation(low, m);
    assert high * (m * (d * e)) == m * (d * (e * high)) by {
      Reorder(high, m, d, e);
    }
    Distribute(m, d * (e * high), q);
    QuotientUnique(high * (m * (d * e)) + low, m, d * (e * high) + q, r);
    var q2, r2 := q / d, q % d;
    QuotientEquation(q, d);
    Distribute(d, e * high, q2);
    QuotientUnique(d * (e * high) + q, d, e * high + q2, r2);
  }

  lemma Reorder(h: nat, m: nat, d: nat, e: nat)
    ensures h * (m * (d * e)) == m * (d * (e * h))
  {
    assert h * (m * (d * e)) == m * (h * (d * e));
    assert h * (d * e) == d * (h * e);
    assert h * e == e * h;
  }

  lemma Distribute(m: nat, a: nat, b: nat)
    ensures m * (a + b) == m * a + m * b
  {}
}
