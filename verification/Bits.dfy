/** Bitwise operations on natural numbers, digit by digit. */
module Bits {
  function And(a: nat, b: nat): nat {
    if a == 0 || b == 0 then 0 else 2 * And(a / 2, b / 2) + a % 2 * (b % 2)
  }

  function Pow2(n: nat): (r: nat)
    ensures r >= 1
  {
    if n == 0 then 1 else 2 * Pow2(n - 1)
  }

  lemma {:induction false} Pow2Adds(a: nat, b: nat)
    ensures Pow2(a + b) == Pow2(a) * Pow2(b)
  {
    if a > 0 {
      Pow2Adds(a - 1, b);
    }
  }

  lemma {:induction false} Pow2Monotone(a: nat, b: nat)
    requires a <= b
    ensures Pow2(a) <= Pow2(b)
  {
    if a < b {
      Pow2Monotone(a, b - 1);
    }
  }

  /** The least k with n <= 2^k. */
  function CeilLog2(n: nat): (k: nat)
    requires n >= 1
    ensures n <= Pow2(k) && (k > 0 ==> Pow2(k - 1) < n)
  {
    if n == 1 then 0 else CeilLog2((n + 1) / 2) + 1
  }

  /** A mask of ones keeps the low digits. */
  lemma {:induction false} AndMask(x: nat, n: nat)
    ensures And(x, Pow2(n) - 1) == x % Pow2(n)
  {
    if n == 0 {
      assert x % 1 == 0;
    } else if x == 0 {
      DivMod(0, Pow2(n), 0, 0);
    } else {
      AndMask(x / 2, n - 1);
      DivTwice(x, Pow2(n - 1));
      MaskDigits(Pow2(n - 1));
    }
  }

  lemma {:induction false} MaskDigits(p: nat)
    requires p > 0
    ensures (2 * p - 1) / 2 == p - 1 && (2 * p - 1) % 2 == 1
  {
  }

  /** The test of one digit. */
  lemma {:induction false} AndBit(x: nat, n: nat)
    ensures And(x, Pow2(n)) != 0 <==> x / Pow2(n) % 2 == 1
  {
    if n > 0 && x > 0 {
      AndBit(x / 2, n - 1);
      DivTwice(x, Pow2(n - 1));
    } else if x == 0 {
      DivMod(0, Pow2(n), 0, 0);
    }
  }

  lemma {:induction false} DivTwice(x: nat, p: nat)
    requires p > 0
    ensures x / (2 * p) == x / 2 / p && x % (2 * p) == 2 * (x / 2 % p) + x % 2
  {
    var h := x / 2;
    assert h == h / p * p + h % p;
    assert h / p * (2 * p) == 2 * (h / p * p);
    DivMod(x, 2 * p, h / p, 2 * (h % p) + x % 2);
  }

  // ----- Disjunction -----------------------------------------------------------------

  function Or(a: nat, b: nat): nat {
    if a == 0 then b else if b == 0 then a
    else 2 * Or(a / 2, b / 2) + if a % 2 + b % 2 > 0 then 1 else 0
  }

  /** Numbers without common digits are combined by adding them. */
  lemma {:induction false} OrAdds(low: nat, high: nat, n: nat)
    requires low < Pow2(n) && high % Pow2(n) == 0
    ensures Or(low, high) == low + high
  {
    if low != 0 && high != 0 {
      assert n > 0;
      var p := Pow2(n - 1);
      assert high == high / Pow2(n) * (2 * p);
      var q := high / Pow2(n);
      HalfOfMultiple(q, p);
      assert low / 2 < p;
      MultipleMod(q, p);
      OrAdds(low / 2, high / 2, n - 1);
    }
  }

  /** Setting a digit that is not set adds it. */
  lemma {:induction false} OrBit(x: nat, n: nat)
    requires x / Pow2(n) % 2 == 0
    ensures Or(x, Pow2(n)) == x + Pow2(n)
  {
    if n > 0 && x > 0 {
      DivTwice(x, Pow2(n - 1));
      OrBit(x / 2, n - 1);
    }
  }

  lemma {:induction false} OrCommutes(a: nat, b: nat)
    ensures Or(a, b) == Or(b, a)
  {
    if a != 0 && b != 0 {
      OrCommutes(a / 2, b / 2);
    }
  }

  /** The test of the highest digit. */
  lemma {:induction false} AndTop(x: nat, n: nat)
    requires x < Pow2(n + 1)
    ensures And(x, Pow2(n)) != 0 <==> x >= Pow2(n)
  {
    if n > 0 && x > 0 {
      AndTop(x / 2, n - 1);
    }
  }

  lemma {:induction false} HalfOfMultiple(q: nat, p: nat)
    ensures q * (2 * p) / 2 == q * p && q * (2 * p) % 2 == 0
  {
    assert q * (2 * p) == 2 * (q * p);
  }

  lemma {:induction false} MultipleMod(q: nat, p: nat)
    requires p > 0
    ensures q * p % p == 0 && q * p / p == q
  {
    DivMod(q * p, p, q, 0);
  }

  // ----- Division ----------------------------------------------------------------------

  function Quotient(a: nat, d: nat): nat
    requires d > 0
  {
    a / d
  }

  lemma {:induction false} SmallMultiple(x: int, d: int)
    requires -d < x * d < d && d > 0
    ensures x == 0
  {
    if x >= 1 {
      MulMonotone(1, x, d);
    } else if x <= -1 {
      MulMonotone(x, -1, d);
    }
  }

  /** Quotient and remainder are the only numbers that fit. */
  lemma {:induction false} DivMod(a: int, d: int, q: int, r: int)
    requires d > 0 && a == q * d + r && 0 <= r < d
    ensures a / d == q && a % d == r
  {
    var x := a / d - q;
    assert a / d * d + a % d == a;
    assert x * d == a / d * d - q * d;
    SmallMultiple(x, d);
  }

  lemma {:induction false} MulMonotone(a: int, b: int, c: int)
    requires a <= b && c >= 0
    ensures a * c <= b * c
  {
    assert b * c - a * c == (b - a) * c;
  }
}
