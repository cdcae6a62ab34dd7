/** The bits of a number. */
module Bits {
  import opened Bytes

  function Pow2(k: nat): nat { if k == 0 then 1 else 2 * Pow2(k - 1) }

  lemma {:induction false} Pow2IsPositive(k: nat)
    ensures Pow2(k) > 0
  {
    if k > 0 {
      Pow2IsPositive(k - 1);
    }
  }

  /** Bit `j` of `x`, 0 or 1 */
  function Bit(x: nat, j: nat): nat {
    Pow2IsPositive(j);
    x / Pow2(j) % 2
  }

  lemma LowestBit(x: nat)
    ensures Bit(x, 0) == x % 2
  {
  }

  lemma BitOfHalf(x: nat, j: nat)
    requires j > 0
    ensures Bit(x, j) == Bit(x / 2, j - 1)
  {
    Pow2IsPositive(j - 1);
    HalfAndRest(x, Pow2(j - 1));
  }

  lemma HalfAndRest(x: nat, d: nat)
    requires d > 0
    ensures x / (2 * d) == x / 2 / d
  {
    var q, r := x / (2 * d), x % (2 * d);
    Division(x, 2 * d);
    DoubleProduct(d, q);
    HalfOfSum(x, d * q, r, d);
    QuotientIs(x / 2, d, q, r / 2);
  }

  lemma DoubleProduct(d: nat, q: nat)
    ensures 2 * d * q == 2 * (d * q)
  {
  }

  lemma HalfOfSum(x: nat, m: nat, r: nat, d: nat)
    requires x == 2 * m + r && r < 2 * d
    ensures x / 2 == m + r / 2 && r / 2 < d
  {
  }

  lemma Division(x: nat, d: nat)
    requires d > 0
    ensures x == d * (x / d) + x % d && 0 <= x % d < d && x / d >= 0
  {
  }

  /** Its bits determine a number. */
  lemma {:induction false} SameBits(x: nat, y: nat, k: nat)
    requires x < Pow2(k) && y < Pow2(k) && forall j: nat :: j < k ==> Bit(x, j) == Bit(y, j)
    ensures x == y
  {
    hide Bit;
    if k > 0 {
      forall j: nat | j < k - 1 ensures Bit(x / 2, j) == Bit(y / 2, j) {
        BitOfHalf(x, j + 1);
        BitOfHalf(y, j + 1);
      }
      SameBits(x / 2, y / 2, k - 1);
      LowestBit(x);
      LowestBit(y);
    }
  }

  // ------------------------------------------------------------- bit by bit

  function Digit(b: bool): nat { if b then 1 else 0 }

  /** An operation on the low `k` bits of two numbers, bit by bit */
  function Bitwise(op: (bool, bool) -> bool, x: nat, y: nat, k: nat): (z: nat)
    ensures z < Pow2(k)
  {
    if k == 0 then 0 else Digit(op(x % 2 == 1, y % 2 == 1)) + 2 * Bitwise(op, x / 2, y / 2, k - 1)
  }

  lemma DigitAndRest(low: nat, high: nat)
    requires low < 2
    ensures (low + 2 * high) % 2 == low && (low + 2 * high) / 2 == high
  {
  }

  lemma {:induction false} BitwiseAt(op: (bool, bool) -> bool, x: nat, y: nat, k: nat, j: nat)
    requires j < k
    ensures Bit(Bitwise(op, x, y, k), j) == Digit(op(Bit(x, j) == 1, Bit(y, j) == 1))
  {
    hide Bit;
    var low, high := Digit(op(x % 2 == 1, y % 2 == 1)), Bitwise(op, x / 2, y / 2, k - 1);
    DigitAndRest(low, high);
    assert Bitwise(op, x, y, k) == low + 2 * high;
    if j > 0 {
      BitOfHalf(x, j);
      BitOfHalf(y, j);
      BitOfHalf(low + 2 * high, j);
      BitwiseAt(op, x / 2, y / 2, k - 1, j - 1);
    } else {
      LowestBit(x);
      LowestBit(y);
      LowestBit(low + 2 * high);
    }
  }

  /** Subtracting from all ones flips every bit. */
  lemma {:induction false} ComplementAt(x: nat, k: nat, j: nat)
    requires x < Pow2(k) && j < k
    ensures Bit(Pow2(k) - 1 - x, j) == 1 - Bit(x, j)
  {
    hide Bit;
    var y := Pow2(k) - 1 - x;
    assert y == 2 * (Pow2(k - 1) - 1 - x / 2) + 1 - x % 2;
    if j > 0 {
      BitOfHalf(x, j);
      BitOfHalf(y, j);
      ComplementAt(x / 2, k - 1, j - 1);
    } else {
      LowestBit(x);
      LowestBit(y);
    }
  }

  lemma {:induction false} Pow2OfSum(a: nat, b: nat)
    ensures Pow2(a + b) == Pow2(a) * Pow2(b)
  {
    if a > 0 {
      Pow2OfSum(a - 1, b);
      DoubleProduct(Pow2(a - 1), Pow2(b));
    }
  }

  lemma ModOfProduct(x: nat, p: nat, r: nat)
    requires p > 0 && r > 0
    ensures p * r > 0 && x * p % (p * r) == p * (x % r)
  {
    var q, m := x / r, x % r;
    assert x * p == p * r * q + p * m by {
      assert (r * q + m) * p == p * r * q + p * m;
    }
    assert p * m < p * r;
    QuotientIs(x * p, p * r, q, p * m);
  }

  lemma {:induction false} MulMono(a: nat, b: nat, c: nat)
    requires a <= b
    ensures a * c <= b * c
  {
    if c > 0 {
      MulMono(a, b, c - 1);
      assert a * c == a * (c - 1) + a && b * c == b * (c - 1) + b;
    }
  }

  lemma QuotientBound(x: nat, d: nat)
    requires d > 0
    ensures 0 <= x / d <= x
  {
    var q := x / d;
    MulMono(1, d, q);
    Division(x, d);
  }

  lemma DivBound(x: nat, r: nat, p: nat)
    requires r > 0 && x < p * r
    ensures x / r < p
  {
    Division(x, r);
    if x / r >= p {
      MulMono(p, x / r, r);
      assert false;
    }
  }

  lemma SumBound(m: nat, r: nat, b: nat, p: nat)
    requires m < r && b < p
    ensures p * m + b < p * r
  {
    MulMono(m + 1, r, p);
    assert (m + 1) * p == p * m + p;
  }

  lemma {:induction false} OrNothing(x: nat, k: nat)
    requires x < Pow2(k)
    ensures Bitwise((a, b) => a || b, x, 0, k) == x
  {
    if k > 0 {
      OrNothing(x / 2, k - 1);
    }
  }

  /** Where two numbers have no bits in common, one above the other, their or is their sum. */
  lemma {:induction false} OrOfParts(high: nat, s: nat, low: nat, k: nat)
    requires low < Pow2(s) && Pow2(s) * high + low < Pow2(k)
    ensures Bitwise((a, b) => a || b, Pow2(s) * high, low, k) == Pow2(s) * high + low
  {
    if s == 0 {
      OrNothing(high, k);
    } else if k > 0 {
      var h := Pow2(s - 1) * high;
      assert Pow2(s) * high == 2 * h;
      OrOfParts(high, s - 1, low / 2, k - 1);
    }
  }
}
