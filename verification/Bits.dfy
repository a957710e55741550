/** Bitwise AND on unbounded naturals, and the two uses the flow makes of it:
    testing a capacity for being a power of two, and masking a sequence number
    down to a buffer index. */
module Bits {

  function And(a: nat, b: nat): nat
  {
    if a == 0 || b == 0 then 0
    else 2 * And(a / 2, b / 2) + (if a % 2 == 1 && b % 2 == 1 then 1 else 0)
  }

  function Or(a: nat, b: nat): nat
  {
    if a == 0 then b else if b == 0 then a
    else 2 * Or(a / 2, b / 2) + (if a % 2 == 1 || b % 2 == 1 then 1 else 0)
  }

  function Pow2(k: nat): (r: nat)
    ensures r >= 1
  {
    if k == 0 then 1 else 2 * Pow2(k - 1)
  }

  ghost predicate IsPowerOfTwo(n: nat) {
    exists k: nat :: n == Pow2(k)
  }

  /** Masking with one less than a power of two is the remainder. */
  lemma {:induction false} MaskIsRemainder(s: nat, k: nat)
    ensures And(s, Pow2(k) - 1) == s % Pow2(k)
  {
    if k == 0 {
    } else if s == 0 {
    } else {
      var m := Pow2(k - 1);
      MaskIsRemainder(s / 2, k - 1);
      HalfOdd(m);
      DoubleRemainder(s, m);
    }
  }

  lemma HalfOdd(m: nat)
    requires m > 0
    ensures (2 * m - 1) / 2 == m - 1 && (2 * m - 1) % 2 == 1
  {}

  lemma DoubleRemainder(s: nat, m: nat)
    requires m > 0
    ensures s % (2 * m) == 2 * (s / 2 % m) + s % 2
  {
    var q, r := s / 2 / m, s / 2 % m;
    QuotientEquation(s / 2, m);
    DoubleProduct(m, q);
    RemainderUnique(s, 2 * m, q, 2 * r + s % 2);
  }

  lemma DoubleProduct(m: nat, q: int)
    ensures (2 * m) * q == 2 * (m * q)
  {}

  lemma MulMonotone(m: nat, x: int, y: int)
    requires x <= y
    ensures m * x <= m * y
  {
    assert m * y - m * x == m * (y - x);
  }

  lemma MulSuccessor(m: nat, x: int)
    ensures m * (x + 1) == m * x + m
  {}

  /** The quotient and remainder of a division are determined by their defining equation. */
  lemma RemainderUnique(s: nat, m: nat, q: int, r: nat)
    requires m > 0 && r < m && s == m * q + r
    ensures s % m == r
  {
    var q' := s / m;
    QuotientEquation(s, m);
    if q < q' {
      MulMonotone(m, q + 1, q');
      MulSuccessor(m, q);
    } else if q' < q {
      MulMonotone(m, q' + 1, q);
      MulSuccessor(m, q');
    }
  }

  lemma QuotientEquation(s: nat, m: nat)
    requires m > 0
    ensures s == m * (s / m) + s % m
  {}

  lemma AndSelf(a: nat)
    ensures And(a, a) == a
  {}

  lemma OddIsNotPower(c: nat)
    requires c > 1 && c % 2 == 1
    ensures !IsPowerOfTwo(c)
  {
    forall k: nat
      ensures c != Pow2(k)
    {}
  }

  /** `c & (c - 1) == 0` accepts exactly the powers of two. */
  lemma {:induction false} PowerOfTwoTest(c: nat)
    requires c >= 1
    ensures And(c, c - 1) == 0 <==> IsPowerOfTwo(c)
  {
    if c == 1 {
      assert 1 == Pow2(0);
    } else if c % 2 == 0 {
      var m := c / 2;
      PowerOfTwoTest(m);
      assert (c - 1) / 2 == m - 1 && (c - 1) % 2 == 1;
      if IsPowerOfTwo(m) {
        var k: nat :| m == Pow2(k);
        assert c == Pow2(k + 1);
      }
      if IsPowerOfTwo(c) {
        var k: nat :| c == Pow2(k);
        assert m == Pow2(k - 1);
      }
    } else {
      var m := c / 2;
      assert (c - 1) / 2 == m;
      AndSelf(m);
      OddIsNotPower(c);
    }
  }

  /** Two sequence numbers less than a whole lap apart never share an index. */
  lemma DistinctWithinLap(a: nat, b: nat, cap: nat)
    requires cap > 0 && a < b < a + cap
    ensures a % cap != b % cap
  {
    if a % cap == b % cap {
      var qa, qb := a / cap, b / cap;
      QuotientEquation(a, cap);
      QuotientEquation(b, cap);
      if qb <= qa {
        MulMonotone(cap, qb, qa);
      } else {
        MulMonotone(cap, qa + 1, qb);
        MulSuccessor(cap, qa);
      }
    }
  }

  /** Setting a bit above every bit of `t` adds it. */
  lemma {:induction false} OrHighBit(t: nat, i: nat)
    requires t < Pow2(i)
    ensures Or(t, Pow2(i)) == t + Pow2(i)
  {
    if i > 0 && t > 0 {
      assert Pow2(i) / 2 == Pow2(i - 1) && Pow2(i) % 2 == 0;
      OrHighBit(t / 2, i - 1);
    }
  }

  /** `t >> i`. */
  function ShiftRight(t: nat, i: nat): nat
  {
    if i == 0 then t else ShiftRight(t / 2, i - 1)
  }

  lemma {:induction false} ShiftRightMore(t: nat, i: nat)
    ensures ShiftRight(t, i + 1) == ShiftRight(t, i) / 2
  {
    if i > 0 {
      ShiftRightMore(t / 2, i - 1);
    }
  }

  /** Masking with `1 << i` tests the `i`th binary digit. */
  lemma {:induction false} AndTestsBit(t: nat, i: nat)
    ensures And(t, Pow2(i)) != 0 <==> ShiftRight(t, i) % 2 == 1
  {
    if i == 0 {
    } else if t == 0 {
      AndTestsBit(0, i - 1);
    } else {
      assert Pow2(i) / 2 == Pow2(i - 1) && Pow2(i) % 2 == 0;
      AndTestsBit(t / 2, i - 1);
    }
  }
}
