/** The approximate n-th root of a 256-bit number: a binary search in 64 bits on the
    leading digits. */
module NthRoot {
  import opened Integers
  import opened Bits
  import opened Limbs
  import opened ArithSteps
  import opened Arith256

  // ----- Powers ---------------------------------------------------------------------

  function Power(b: nat, n: nat): nat {
    if n == 0 then 1 else b * Power(b, n - 1)
  }

  lemma {:induction false} MulBoth(a: nat, b: nat, c: nat, d: nat)
    requires a <= b && c <= d
    ensures a * c <= b * d
  {
    MulMonotone(a, b, c);
    MulMonotone(c, d, b);
  }

  lemma {:induction false} PowerMonotone(a: nat, b: nat, n: nat)
    requires a <= b
    ensures Power(a, n) <= Power(b, n)
  {
    if n > 0 {
      PowerMonotone(a, b, n - 1);
      MulBoth(a, b, Power(a, n - 1), Power(b, n - 1));
    }
  }

  lemma {:induction false} PowerPositive(b: nat, n: nat)
    requires b > 0
    ensures Power(b, n) > 0
  {
    if n > 0 {
      PowerPositive(b, n - 1);
      MulBoth(1, b, 1, Power(b, n - 1));
    }
  }

  lemma {:induction false} PowerStrict(a: nat, b: nat, n: nat)
    requires a < b && n > 0
    ensures Power(a, n) < Power(b, n)
  {
    PowerMonotone(a, b, n - 1);
    PowerPositive(b, n - 1);
    MulMonotone(Power(a, n - 1), Power(b, n - 1), a);
    MulMonotone(a + 1, b, Power(b, n - 1));
    MulAdd(a, 1, Power(b, n - 1));
  }

  /** Longer powers are larger. */
  lemma {:induction false} PowerLonger(b: nat, m: nat, n: nat)
    requires b > 0 && m <= n
    ensures Power(b, m) <= Power(b, n)
  {
    if m < n {
      PowerLonger(b, m, n - 1);
      MulMonotone(1, b, Power(b, n - 1));
    }
  }

  lemma {:induction false} PowerOfProduct(a: nat, b: nat, n: nat)
    ensures Power(a * b, n) == Power(a, n) * Power(b, n)
  {
    if n > 0 {
      PowerOfProduct(a, b, n - 1);
      var p, q := Power(a, n - 1), Power(b, n - 1);
      Interchange(a, b, p, q);
    }
  }

  lemma {:induction false} Interchange(a: int, b: int, p: int, q: int)
    ensures a * b * (p * q) == a * p * (b * q)
  {
    assert a * b * (p * q) == a * (b * p) * q;
    assert a * p * (b * q) == a * (p * b) * q;
  }

  lemma {:induction false} PowerOfPow2(k: nat, n: nat)
    ensures Power(Pow2(k), n) == Pow2(n * k)
  {
    if n > 0 {
      PowerOfPow2(k, n - 1);
      assert n * k == k + (n - 1) * k;
      Pow2Adds(k, (n - 1) * k);
    }
  }

  // ----- The search ---------------------------------------------------------------------

  /** The root so far, and a bound that is i binary digits away. */
  predicate Bracketed(head: nat, n: nat, c: nat, root: nat, i: nat) {
    && root % Pow2(i) == 0 && root + Pow2(i) <= Pow2(c)
    && Power(root, n) <= head < Power(root + Pow2(i), n)
  }

  lemma {:induction false} SearchStart(head: nat, n: nat, c: nat)
    requires head < Pow2(n * c) && n > 0
    ensures Bracketed(head, n, c, 0, c)
  {
    PowerOfPow2(c, n);
    ZeroMultiple(Pow2(c));
    assert Power(0, n) == 0;
  }

  lemma {:induction false} SearchStep(head: nat, n: nat, c: nat, root: nat, i: nat)
    requires Bracketed(head, n, c, root, i + 1)
    ensures Or(root, Pow2(i)) == root + Pow2(i) < Pow2(c)
    ensures Bracketed(head, n, c, if Power(root + Pow2(i), n) <= head then root + Pow2(i) else root, i)
  {
    hide Pow2, Or, Power;
    Pow2Next(i);
    OrAdds(Pow2(i), root, i + 1);
    OrCommutes(root, Pow2(i));
    HalfMultiple(root, Pow2(i));
    ModOfSmaller(root, i + 1, i);
    assert root + Pow2(i) + Pow2(i) == root + Pow2(i + 1);
  }

  /** Within the search no power leaves 64 bits. */
  lemma {:induction false} PowerFits(x: nat, j: nat, n: nat, c: nat)
    requires x < Pow2(c) && j <= n && n * c <= 64 && x > 0 && n > 0
    ensures Power(x, j) < Pow2(64)
  {
    hide Pow2, Power;
    PowerLonger(x, j, n);
    PowerStrict(x, Pow2(c), n);
    PowerOfPow2(c, n);
    Pow2Monotone(n * c, 64);
  }

  method PowerOf(next: nat, n: nat, ghost c: nat) returns (power: nat)
    requires 1 < n < 64 && 0 < next < Pow2(c) && n * c <= 64
    ensures power == Power(next, n)
  {
    hide Pow2, Power;
    power := next;
    PowerOne(next);
    for j := 1 to n
      invariant power == Power(next, j)
    {
      PowerMore(next, j);
      PowerFits(next, j + 1, n, c);
      SmallMod(power * next, Pow2(64));
      power := power * next % Pow2(64);
    }
  }

  lemma {:induction false} PowerOne(b: nat)
    ensures Power(b, 1) == b
  {
    assert Power(b, 0) == 1;
  }

  lemma {:induction false} PowerMore(b: nat, n: nat)
    ensures Power(b, n + 1) == Power(b, n) * b
  {
  }

  method SearchRoot(head: nat, n: nat) returns (root: nat)
    requires 1 < n < 64 && head < Pow2(n * (64 / n))
    ensures Power(root, n) <= head < Power(root + 1, n) && root < Pow2(64 / n)
  {
    hide Pow2, Power, Or;
    var c := 64 / n;
    DigitsFit(n);
    root := 0;
    SearchStart(head, n, c);
    var i := c;
    while i > 0
      invariant 0 <= i <= c && Bracketed(head, n, c, root, i)
    {
      i := i - 1;
      SearchStep(head, n, c, root, i);
      var next := Or(root, Pow2(i));
      var power := PowerOf(next, n, c);
      if power <= head {
        root := next;
      }
    }
    FirstPowers();
  }

  lemma {:induction false} DigitsFit(n: nat)
    requires 1 < n < 64
    ensures 1 <= 64 / n && n * (64 / n) <= 64
  {
    assert 64 == 64 / n * n + 64 % n;
  }

  // ----- The root -------------------------------------------------------------------------

  /** Integer division that truncates towards zero. */
  function Truncated(a: int, d: int): int
    requires d > 0
  {
    if a >= 0 then a / d else -(-a / d)
  }

  /** How many digits of the root are given up for a number of the given length. */
  function Shifts(length: nat, n: nat): (r: nat)
    requires 1 < n < 64
  {
    Max(0, Truncated(length - 1, n) + 1 - 64 / n)
  }

  /** The digits that are left fit the search. */
  lemma {:induction false} ShiftsSuffice(length: nat, n: nat)
    requires 1 < n < 64
    ensures length <= n * Shifts(length, n) + n * (64 / n)
  {
    hide Shifts;
    var c := 64 / n;
    if length > 0 {
      var q, r := ShiftsAtLeast(length, n, c);
      DivisionBound(length - 1, n, q, r, Shifts(length, n), c);
    } else {
      MulMonotone(0, Shifts(length, n), n);
      MulMonotone(0, c, n);
    }
  }

  lemma {:induction false} ShiftsAtLeast(length: nat, n: nat, c: nat) returns (q: nat, r: nat)
    requires 1 < n < 64 && length > 0 && c == 64 / n
    ensures length - 1 == q * n + r && r < n && q + 1 <= Shifts(length, n) + c
  {
    q, r := (length - 1) / n, (length - 1) % n;
  }

  lemma {:induction false} DivisionBound(l: nat, n: nat, q: nat, r: nat, s: nat, c: nat)
    requires l == q * n + r && r < n && q + 1 <= s + c
    ensures l + 1 <= n * s + n * c
  {
    MulMonotone(q + 1, s + c, n);
    MulAdd(q, 1, n);
    MulAdd(s, c, n);
  }

  lemma {:induction false} HeadFits(v: nat, length: nat, n: nat)
    requires 1 < n < 64 && HasLength(v, length)
    ensures v / Pow2(n * Shifts(length, n)) < Pow2(n * (64 / n)) <= Pow2(64)
  {
    hide Pow2, Shifts;
    DigitsFit(n);
    ShiftsSuffice(length, n);
    var k, m := n * Shifts(length, n), n * (64 / n);
    assert v < Pow2(length) by {
      assert v == 0 ==> Pow2(length) >= 1;
    }
    Pow2Monotone(length, k + m);
    Pow2Adds(m, k);
    Pow2Monotone(m, 64);
    Below(v, Pow2(k), Pow2(m));
  }

  lemma {:induction false} Below(v: nat, d: nat, m: nat)
    requires d > 0 && v < m * d
    ensures v / d < m
  {
    var q := v / d;
    assert v == q * d + v % d;
    if q >= m {
      MulMonotone(m, q, d);
    }
  }

  /** From the root of the leading digits to a bracket of the whole number. */
  lemma {:induction false} RootBracket(v: nat, root: nat, n: nat, k: nat)
    requires n > 0 && Power(root, n) <= v / Pow2(n * k) < Power(root + 1, n)
    ensures Power(root * Pow2(k), n) <= v < Power(root * Pow2(k) + Pow2(k), n)
  {
    hide Pow2, Power;
    var d := Pow2(n * k);
    var head := v / d;
    assert v == head * d + v % d;
    PowerOfPow2(k, n);
    PowerOfProduct(root, Pow2(k), n);
    PowerOfProduct(root + 1, Pow2(k), n);
    MulMonotone(Power(root, n), head, d);
    MulMonotone(head + 1, Power(root + 1, n), d);
    MulAdd(head, 1, d);
    MulAdd(root, 1, Pow2(k));
  }

  /** A root of a 256-bit number is not shifted out. */
  lemma {:induction false} RootFits(r: nat, v: nat, n: nat)
    requires n > 1 && Power(r, n) <= v < Modulus()
    ensures r < Modulus()
  {
    hide Pow2;
    if r > 0 {
      PowerLonger(r, 1, n);
      PowerOne(r);
    }
  }

  method ApproxNthRoot(x: BaseUint, n: nat) returns (r: BaseUint, ghost shifts: nat)
    requires x.Valid() && 1 < n < 64
    ensures r.Valid() && fresh(r) && fresh(r.pn)
    ensures Power(r.Int(), n) <= x.Int() < Power(r.Int() + Pow2(shifts), n)
    ensures r.Int() % Pow2(shifts) == 0
    ensures exists length :: HasLength(x.Int(), length) && shifts == Shifts(length, n)
  {
    hide Value, Base, Pow2, Power, HasLength, Shifts;
    ghost var v := x.Int();
    var length := x.Length();
    var s: nat := Shifts(length, n);
    shifts := s;
    var shifted := new BaseUint.Copy(x);
    shifted.ShiftRight(n * s);
    HeadFits(v, length, n);
    SixtyFour();
    SmallMod(shifted.Int(), B * B);
    var head := shifted.GetLow64();
    var root := SearchRoot(head, n);
    RootBracket(v, root, n, s);
    ValueBound(x.pn[..]);
    RootFits(root * Pow2(s), v, n);
    SmallMod(root * Pow2(s), Modulus());
    DigitsFit(n);
    RootWord(root, n);
    r := new BaseUint(root);
    r.ShiftLeft(s);
    DivMod(root * Pow2(s), Pow2(s), root, 0);
    assert HasLength(v, length) && shifts == Shifts(length, n);
  }

  /** An approximate root: exact but for the digits that were given up, which are 0. */
  ghost predicate IsRoot(r: nat, v: nat, n: nat)
    requires 1 < n < 64
  {
    exists length ::
      && HasLength(v, length) && Power(r, n) <= v < Power(r + Pow2(Shifts(length, n)), n) && r % Pow2(Shifts(length, n)) == 0
  }

  /** A number has only one. */
  lemma {:induction false} RootDetermined(a: nat, b: nat, v: nat, n: nat)
    requires 1 < n < 64 && IsRoot(a, v, n) && IsRoot(b, v, n)
    ensures a == b
  {
    hide Power, Pow2, Shifts, HasLength;
    var i: nat :| HasLength(v, i) && Power(a, n) <= v < Power(a + Pow2(Shifts(i, n)), n) && a % Pow2(Shifts(i, n)) == 0;
    var j: nat :| HasLength(v, j) && Power(b, n) <= v < Power(b + Pow2(Shifts(j, n)), n) && b % Pow2(Shifts(j, n)) == 0;
    LengthUnique(v, i, j);
    var d := Pow2(Shifts(i, n));
    if a < b {
      Apart(a, b, d);
      PowerMonotone(a + d, b, n);
    } else if b < a {
      Apart(b, a, d);
      PowerMonotone(b + d, a, n);
    }
  }

  lemma {:induction false} LengthUnique(v: nat, i: nat, j: nat)
    requires HasLength(v, i) && HasLength(v, j)
    ensures i == j
  {
    hide Pow2;
    if i < j {
      Pow2Monotone(i, j - 1);
    } else if j < i {
      Pow2Monotone(j, i - 1);
    }
  }

  /** Different multiples of a number are that far apart. */
  lemma {:induction false} Apart(a: nat, b: nat, d: nat)
    requires d > 0 && a % d == 0 && b % d == 0 && a < b
    ensures a + d <= b
  {
    var p, q := a / d, b / d;
    assert a == p * d && b == q * d;
    if q <= p {
      MulMonotone(q, p, d);
    }
    MulMonotone(p + 1, q, d);
    MulAdd(p, 1, d);
  }

  lemma {:induction false} SixtyFour()
    ensures Pow2(64) == B * B
  {
    hide Pow2;
    Pow2Word();
    Pow2Adds(32, 32);
  }

  lemma {:induction false} RootWord(root: nat, n: nat)
    requires 1 < n < 64 && root < Pow2(64 / n)
    ensures root < B * B
  {
    hide Pow2;
    DigitsFit(n);
    assert 64 / n <= 64;
    Pow2Monotone(64 / n, 64);
    SixtyFour();
  }
}
