/** Compressed amounts: the legacy code that saves trailing zeros, and the codes that
    extend it to the amounts whose legacy code does not fit in 64 bits. */
module AmountCompression {
  import opened Bits
  import opened Wrappers

  const U64: nat := 0x1_0000_0000_0000_0000
  const MAX_MONEY: nat := 2_100_000_000_000_000_000
  const CODE_BASE: nat := 1_890_000_000_000_000_002
  const EXTENDED_COUNT: nat := 45_325_592_629_044_838

  // ----- The legacy code ---------------------------------------------------------------

  function Pow10(n: nat): (r: nat)
    ensures r >= 1
  {
    if n == 0 then 1 else 10 * Pow10(n - 1)
  }

  /** Strip trailing zeros, at most nine in all. */
  function Strip(n: nat, e: nat): (nat, nat)
    decreases n
  {
    if n > 0 && n % 10 == 0 && e < 9 then Strip(n / 10, e + 1) else (n, e)
  }

  function Assemble(m: nat, e: nat): nat
    requires m > 0 && (e < 9 ==> m % 10 != 0)
  {
    if e < 9 then 1 + (m / 10 * 9 + m % 10 - 1) * 10 + e else 1 + (m - 1) * 10 + 9
  }

  lemma {:induction false} StripFacts(n: nat, e: nat)
    requires n > 0 && e <= 9
    ensures var (m, f) := Strip(n, e);
            m > 0 && e <= f <= 9 && (f < 9 ==> m % 10 != 0) && n == m * Pow10(f - e)
  {
    if n % 10 == 0 && e < 9 {
      StripFacts(n / 10, e + 1);
      var (m, f) := Strip(n / 10, e + 1);
      TenTimes(m, Pow10(f - e - 1));
    }
  }

  lemma {:induction false} TenTimes(m: nat, p: nat)
    ensures m * (10 * p) == 10 * (m * p)
  {
  }

  /** Stripping finds the zeros that were put there. */
  lemma {:induction false} StripInverse(m: nat, k: nat, e: nat)
    requires m > 0 && e + k <= 9 && (e + k < 9 ==> m % 10 != 0)
    ensures Strip(m * Pow10(k), e) == (m, e + k)
  {
    if k > 0 {
      TenTimes(m, Pow10(k - 1));
      Positive(m, Pow10(k - 1));
      StripInverse(m, k - 1, e + 1);
    }
  }

  lemma {:induction false} Positive(a: nat, b: nat)
    requires a > 0 && b > 0
    ensures a * b > 0
  {
    MulMonotone(1, a, b);
  }

  /** The legacy code of an amount, of any size. */
  function Code(n: nat): nat {
    if n == 0 then 0
    else
      StripFacts(n, 0);
      var (m, e) := Strip(n, 0);
      Assemble(m, e)
  }

  /** The digits that a legacy code names before the zeros. */
  function Significant(x: nat): nat
    requires x > 0
  {
    var e, y := (x - 1) % 10, (x - 1) / 10;
    if e < 9 then y / 9 * 10 + y % 9 + 1 else y + 1
  }

  /** What a legacy code stands for, of any size. */
  function Decode(x: nat): nat {
    if x == 0 then 0 else Significant(x) * Pow10((x - 1) % 10)
  }

  lemma {:induction false} AssembleParts(m: nat, e: nat)
    requires m > 0 && e <= 9 && (e < 9 ==> m % 10 != 0)
    ensures var x := Assemble(m, e); x > 0 && (x - 1) % 10 == e
    ensures var y := (Assemble(m, e) - 1) / 10; m == if e < 9 then y / 9 * 10 + y % 9 + 1 else y + 1
  {
  }

  /** Every amount is the value of its code. */
  lemma {:induction false} CodeRoundTrip(n: nat)
    ensures Decode(Code(n)) == n
  {
    if n > 0 {
      StripFacts(n, 0);
      var (m, e) := Strip(n, 0);
      AssembleParts(m, e);
    }
  }

  /** Every number is the code of its value. */
  lemma {:induction false} DecodeRoundTrip(x: nat)
    ensures Code(Decode(x)) == x
  {
    hide Strip, Assemble, Pow10;
    if x > 0 {
      var e := (x - 1) % 10;
      var m := Significant(x);
      PartsAssemble(x);
      StripInverse(m, e, 0);
      Positive(m, Pow10(e));
    }
  }

  lemma {:induction false} PartsAssemble(x: nat)
    requires x > 0
    ensures var m, e := Significant(x), (x - 1) % 10;
            m > 0 && (e < 9 ==> m % 10 != 0) && Assemble(m, e) == x
  {
    var e, y := (x - 1) % 10, (x - 1) / 10;
    if e < 9 {
      LastDigit(y / 9, y % 9 + 1);
    }
  }

  lemma {:induction false} LastDigit(q: nat, d: nat)
    requires 1 <= d <= 9
    ensures (q * 10 + d) % 10 == d && (q * 10 + d) / 10 == q
  {
  }

  // ----- Amounts without a legacy code -------------------------------------------------

  function MinFor(digit: nat): nat
    requires 1 <= digit <= 9
  {
    ((U64 - 1 - 10 * digit + 9) / 90 + 1) * 10 + digit
  }

  function CountFor(digit: nat): nat
    requires 1 <= digit <= 9
  {
    if MinFor(digit) <= MAX_MONEY then (MAX_MONEY - MinFor(digit)) / 10 + 1 else 0
  }

  function CountBefore(digit: nat): nat
    requires 1 <= digit <= 10
  {
    if digit == 1 then 0 else CountBefore(digit - 1) + CountFor(digit - 1)
  }

  lemma {:induction false} CountValue(digit: nat)
    requires 1 <= digit <= 9
    ensures CountFor(digit) == if digit <= 2 then 5036176958782759 else 5036176958782760
  {
  }

  /** The number of extended codes. */
  lemma {:induction false} CountTotal()
    ensures CountBefore(10) == EXTENDED_COUNT
  {
    hide CountFor;
    CountsUpTo(10);
  }

  lemma {:induction false} CountsUpTo(digit: nat)
    requires 1 <= digit <= 10
    ensures CountBefore(digit) == if digit <= 3 then (digit - 1) * 5036176958782759 else 2 * 5036176958782759 + (digit - 3) * 5036176958782760
  {
    hide CountFor;
    if digit > 1 {
      CountsUpTo(digit - 1);
      CountValue(digit - 1);
    }
  }

  /** An amount in money range whose legacy code does not fit. */
  predicate Uncompressible(n: nat) {
    n <= MAX_MONEY && Code(n) >= U64
  }

  /** Those amounts are, for each last digit but zero, the ones from a minimum on. */
  lemma {:induction false} UncompressibleExact(n: nat)
    ensures Uncompressible(n) <==> n <= MAX_MONEY && n % 10 != 0 && n >= MinFor(n % 10)
  {
    if n > 0 && n <= MAX_MONEY {
      if n % 10 != 0 {
        assert Strip(n, 0) == (n, 0);
        assert Code(n) == 1 + (n / 10 * 9 + n % 10 - 1) * 10;
        MinExact(n / 10, n % 10);
      } else {
        ShortCode(n);
      }
    }
  }

  lemma {:induction false} MinExact(q: nat, d: nat)
    requires 1 <= d <= 9
    ensures 1 + (q * 9 + d - 1) * 10 >= U64 <==> q * 10 + d >= MinFor(d)
  {
  }

  lemma {:induction false} ShortCode(n: nat)
    requires 0 < n <= MAX_MONEY && n % 10 == 0
    ensures Code(n) < U64 && Code(n) % 10 == 2 ==> Code(n) < CODE_BASE
    ensures Code(n) < U64
  {
    StripFacts(n, 0);
    var (m, e) := Strip(n, 0);
    assert e >= 1 by {
      assert Strip(n, 0) == Strip(n / 10, 1);
      StripFacts(n / 10, 1);
    }
    TenTimes(m, Pow10(e - 1));
    MulMonotone(1, Pow10(e - 1), m);
    assert 10 * m <= n;
    AssembleParts(m, e);
  }

  /** No legacy code of an amount in money range is an extended code. */
  lemma {:induction false} CodesDisjoint(n: nat)
    requires n <= MAX_MONEY
    ensures !(Code(n) >= CODE_BASE && (Code(n) - CODE_BASE) % 10 == 0 && Code(n) < U64)
  {
    if n > 0 {
      if n % 10 == 0 {
        ShortCode(n);
      } else {
        assert Strip(n, 0) == (n, 0);
        assert Code(n) == 1 + (n / 10 * 9 + n % 10 - 1) * 10;
      }
    }
  }

  // ----- Ranks ---------------------------------------------------------------------------

  function RankOf(amount: nat): nat
    requires amount % 10 != 0 && amount >= MinFor(amount % 10)
  {
    CountBefore(amount % 10) + (amount - MinFor(amount % 10)) / 10
  }

  function ForRank(rank: nat, digit: nat): nat
    requires 1 <= digit <= 9
    decreases 10 - digit
  {
    if rank < CountFor(digit) then MinFor(digit) + rank * 10
    else if digit < 9 then ForRank(rank - CountFor(digit), digit + 1)
    else 0
  }

  lemma {:induction false} MinDigit(digit: nat)
    requires 1 <= digit <= 9
    ensures MinFor(digit) % 10 == digit && MinFor(digit) <= MAX_MONEY && CountFor(digit) > 0
  {
  }

  /** The amount for the rank of an amount. */
  lemma {:induction false} RankInverse(amount: nat, digit: nat)
    requires amount % 10 != 0 && MinFor(amount % 10) <= amount <= MAX_MONEY && 1 <= digit <= amount % 10
    ensures RankOf(amount) >= CountBefore(digit) && ForRank(RankOf(amount) - CountBefore(digit), digit) == amount
    decreases 10 - digit
  {
    hide MinFor, CountFor, CountBefore, RankOf;
    var d := amount % 10;
    RankParts(amount);
    if digit < d {
      CountsGrow(digit, d);
      NextCount(digit);
      RankInverse(amount, digit + 1);
    }
  }

  lemma {:induction false} NextCount(digit: nat)
    requires 1 <= digit <= 9
    ensures CountBefore(digit + 1) == CountBefore(digit) + CountFor(digit)
  {
    hide CountFor;
  }

  lemma {:induction false} RankParts(amount: nat)
    requires amount % 10 != 0 && MinFor(amount % 10) <= amount <= MAX_MONEY
    ensures RankOf(amount) >= CountBefore(amount % 10)
    ensures var k := RankOf(amount) - CountBefore(amount % 10);
            k < CountFor(amount % 10) && MinFor(amount % 10) + k * 10 == amount
  {
    hide MinFor, CountFor, CountBefore;
    WithinCount(amount);
    DigitStep(amount);
  }

  lemma {:induction false} CountsGrow(a: nat, b: nat)
    requires 1 <= a <= b <= 10
    ensures CountBefore(a) <= CountBefore(b) && (a < b ==> CountBefore(a) + CountFor(a) <= CountBefore(b))
  {
    hide MinFor, CountFor;
    if a < b {
      CountsGrow(a, b - 1);
    }
  }

  lemma {:induction false} WithinCount(amount: nat)
    requires amount % 10 != 0 && MinFor(amount % 10) <= amount <= MAX_MONEY
    ensures 0 <= (amount - MinFor(amount % 10)) / 10 < CountFor(amount % 10)
  {
    hide MinFor;
  }

  lemma {:induction false} DigitStep(amount: nat)
    requires amount % 10 != 0 && MinFor(amount % 10) <= amount
    ensures MinFor(amount % 10) + (amount - MinFor(amount % 10)) / 10 * 10 == amount
  {
    hide MinFor;
    MinDigit(amount % 10);
  }

  /** The rank of the amount for a rank. */
  lemma {:induction false} ForRankInverse(rank: nat, digit: nat)
    requires 1 <= digit <= 9 && rank + CountBefore(digit) < EXTENDED_COUNT
    ensures var n := ForRank(rank, digit);
            && n <= MAX_MONEY && n % 10 != 0 && n >= MinFor(n % 10) && RankOf(n) == rank + CountBefore(digit)
    decreases 10 - digit
  {
    hide MinFor, CountFor;
    if digit == 9 {
      CountTotal();
    }
    if rank < CountFor(digit) {
      InCount(rank, digit);
    } else if digit < 9 {
      ForRankInverse(rank - CountFor(digit), digit + 1);
    }
  }

  lemma {:induction false} InCount(rank: nat, digit: nat)
    requires 1 <= digit <= 9 && rank < CountFor(digit)
    ensures var n := MinFor(digit) + rank * 10;
            n <= MAX_MONEY && n % 10 == digit && (n - MinFor(digit)) / 10 == rank
  {
    hide MinFor;
    MinDigit(digit);
  }

  // ----- Compression ------------------------------------------------------------------------

  predicate IsExtended(x: nat) {
    x >= CODE_BASE && (x - CODE_BASE) % 10 == 0 && (x - CODE_BASE) / 10 < EXTENDED_COUNT
  }

  function Compressed(n: nat): nat {
    if Code(n) < U64 then Code(n)
    else if n <= MAX_MONEY then
      UncompressibleExact(n);
      CODE_BASE + RankOf(n) * 10
    else Code(n) % U64
  }

  /** What a code stands for before any wrap-around. */
  function Unwrapped(x: nat): nat {
    if IsExtended(x) then ForRank((x - CODE_BASE) / 10, 1) else Decode(x)
  }

  function Decompressed(x: nat): nat {
    Unwrapped(x) % U64
  }

  lemma {:induction false} RankBelow(n: nat)
    requires n % 10 != 0 && MinFor(n % 10) <= n <= MAX_MONEY
    ensures RankOf(n) < EXTENDED_COUNT && ForRank(RankOf(n), 1) == n
  {
    hide MinFor, CountFor, ForRank;
    CountTotal();
    RankInverse(n, 1);
    WithinCount(n);
    CountsGrow(n % 10, 10);
  }

  /** Every amount in money range survives compression. */
  lemma {:induction false} AmountRoundTrip(n: nat)
    requires n <= MAX_MONEY
    ensures Compressed(n) < U64 && Decompressed(Compressed(n)) == n
  {
    hide Code, Decode, ForRank, RankOf, MinFor;
    CodeRoundTrip(n);
    UncompressibleExact(n);
    if Code(n) < U64 {
      CodesDisjoint(n);
    } else {
      RankBelow(n);
    }
  }

  /** Every code whose value is in money range is the code of that value. */
  lemma {:induction false} CodeIsCanonical(x: nat)
    requires x < U64 && Unwrapped(x) <= MAX_MONEY
    ensures Compressed(Unwrapped(x)) == x
  {
    hide Code, Decode, ForRank, RankOf, MinFor;
    if IsExtended(x) {
      var rank := (x - CODE_BASE) / 10;
      ForRankInverse(rank, 1);
      UncompressibleExact(Unwrapped(x));
    } else {
      DecodeRoundTrip(x);
    }
  }

  /** Amounts in money range have different codes. */
  lemma {:induction false} CompressedInjective(a: nat, b: nat)
    requires a <= MAX_MONEY && b <= MAX_MONEY && Compressed(a) == Compressed(b)
    ensures a == b
  {
    hide Compressed, Decompressed;
    AmountRoundTrip(a);
    AmountRoundTrip(b);
  }

  // ----- The loops ----------------------------------------------------------------------------

  method StripZeros(amount: nat) returns (n: nat, e: nat)
    requires amount > 0
    ensures (n, e) == Strip(amount, 0) && n > 0 && e <= 9 && (e < 9 ==> n % 10 != 0)
  {
    n, e := amount, 0;
    while n % 10 == 0 && e < 9
      invariant n > 0 && e <= 9 && Strip(n, e) == Strip(amount, 0)
      decreases 9 - e
    {
      n := n / 10;
      e := e + 1;
    }
  }

  /** The legacy code, unless it needs more than 64 bits. */
  method LegacyCompressAmount(amount: nat) returns (compressed: Option<nat>)
    requires amount < U64
    ensures compressed == if Code(amount) < U64 then Some(Code(amount)) else None
  {
    if amount == 0 {
      return Some(0);
    }
    StripFacts(amount, 0);
    var n, e := StripZeros(amount);
    var result;
    if e < 9 {
      var d := n % 10;
      assert 1 <= d <= 9;
      result := 1 + (n / 10 * 9 + d - 1) * 10 + e;
    } else {
      result := 1 + (n - 1) * 10 + 9;
    }
    if result >= U64 {
      return None;
    }
    compressed := Some(result);
  }

  method LegacyDecompressAmount(code: nat) returns (n: nat)
    requires code < U64
    ensures n == Decode(code) % U64
  {
    if code == 0 {
      return 0;
    }
    var x := code - 1;
    var e := x % 10;
    x := x / 10;
    if e < 9 {
      var d := x % 9 + 1;
      x := x / 9;
      n := x * 10 + d;
    } else {
      n := x + 1;
    }
    n := AppendZeros(n, e);
  }

  method AppendZeros(m: nat, e: nat) returns (n: nat)
    requires m < U64
    ensures n == m * Pow10(e) % U64
  {
    n := m;
    DivMod(n, U64, 0, n);
    var k := e;
    ghost var done := 0;
    while k > 0
      invariant 0 <= k <= e && done == e - k && n == m * Pow10(done) % U64
    {
      TenTimes(m, Pow10(done));
      WrapTwice(m * Pow10(done));
      n := n * 10 % U64;
      k := k - 1;
      done := done + 1;
    }
  }

  lemma {:induction false} WrapTwice(a: nat)
    ensures a % U64 * 10 % U64 == 10 * a % U64
  {
  }

  method CountBeforeDigit(digit: nat) returns (count: nat)
    requires 1 <= digit <= 10
    ensures count == CountBefore(digit)
  {
    hide CountFor;
    count := 0;
    var d := 1;
    while d < digit
      invariant 1 <= d <= digit && count == CountBefore(d)
    {
      count := count + CountFor(d);
      d := d + 1;
    }
  }

  method GetUncompressibleAmountRank(amount: nat) returns (rank: nat)
    requires Uncompressible(amount)
    ensures amount % 10 != 0 && amount >= MinFor(amount % 10) && rank == RankOf(amount)
  {
    hide MinFor, CountFor, Code;
    UncompressibleExact(amount);
    var digit := amount % 10;
    assert 1 <= digit <= 9;
    var min := MinFor(digit);
    assert amount >= min;
    var before := CountBeforeDigit(digit);
    rank := before + (amount - min) / 10;
  }

  method GetUncompressibleAmountForRank(rank: nat) returns (amount: nat)
    requires rank < EXTENDED_COUNT
    ensures amount == ForRank(rank, 1)
  {
    hide MinFor, CountFor;
    CountTotal();
    var r := rank;
    var digit := 1;
    while digit <= 9
      invariant 1 <= digit <= 10 && r >= 0 && r + CountBefore(digit) == rank
      invariant digit <= 9 ==> ForRank(r, digit) == ForRank(rank, 1)
    {
      var count := CountFor(digit);
      if r < count {
        return MinFor(digit) + r * 10;
      }
      r := r - count;
      digit := digit + 1;
    }
    assert false;
  }

  method CompressAmount(n: nat) returns (code: nat)
    requires n < U64
    ensures code == Compressed(n)
  {
    hide Code, Decode, RankOf, MinFor;
    var legacy := LegacyCompressAmount(n);
    if legacy.Some? {
      return legacy.value;
    }
    if n <= MAX_MONEY {
      var rank := GetUncompressibleAmountRank(n);
      return CODE_BASE + rank * 10;
    }
    code := LegacyCompressAmountUnchecked(n);
  }

  /** Outside the money range the legacy code wraps around. */
  method LegacyCompressAmountUnchecked(amount: nat) returns (code: nat)
    requires amount < U64
    ensures code == Code(amount) % U64
  {
    if amount == 0 {
      return 0;
    }
    StripFacts(amount, 0);
    var n, e := StripZeros(amount);
    if e < 9 {
      code := (1 + (n / 10 * 9 + n % 10 - 1) * 10 + e) % U64;
    } else {
      code := (1 + (n - 1) * 10 + 9) % U64;
    }
  }

  method DecompressAmount(x: nat) returns (n: nat)
    requires x < U64
    ensures n == Decompressed(x)
  {
    hide Decode, ForRank, MinFor, CountFor;
    if x >= CODE_BASE && (x - CODE_BASE) % 10 == 0 && (x - CODE_BASE) / 10 < EXTENDED_COUNT {
      n := GetUncompressibleAmountForRank((x - CODE_BASE) / 10);
      ForRankInverse((x - CODE_BASE) / 10, 1);
      return;
    }
    n := LegacyDecompressAmount(x);
  }
}
