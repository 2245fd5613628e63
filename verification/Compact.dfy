/** The compact form of targets: a base-256 exponent, a sign bit and 23 bits of
    mantissa. */
module Compact {
  import opened Bits
  import opened Limbs
  import opened ArithSteps
  import opened Arith256

  function Pow256(n: nat): (r: nat)
    ensures r >= 1
  {
    Pow2(8 * n)
  }

  function SizeOf(c: Word): nat {
    c / 0x100_0000
  }

  function MantissaOf(c: Word): nat {
    c % 0x80_0000
  }

  predicate SignOf(c: Word) {
    c / 0x80_0000 % 2 == 1
  }

  /** The magnitude that a compact number denotes, however large. */
  function Denoted(c: Word): nat {
    if SizeOf(c) <= 3 then Quotient(MantissaOf(c), Pow256(3 - SizeOf(c)))
    else MantissaOf(c) * Pow256(SizeOf(c) - 3)
  }

  lemma {:induction false} MaskFacts(c: Word)
    ensures And(c, 0x7f_ffff) == MantissaOf(c) && (And(c, 0x80_0000) != 0 <==> SignOf(c)) && SizeOf(c) < 256
  {
    hide And;
    SmallPowers();
    AndMask(c, 23);
    AndBit(c, 23);
  }

  lemma {:induction false} SmallPowers()
    ensures Pow2(7) == 0x80 && Pow2(8) == 0x100 && Pow2(16) == 0x1_0000 && Pow2(23) == 0x80_0000 && Pow2(24) == 0x100_0000
  {
    assert Pow2(8) == 2 * Pow2(7);
    assert Pow2(7) == 128;
    Pow2Adds(8, 8);
    Pow2Adds(7, 16);
    Pow2Adds(8, 16);
  }

  /** The flag is set exactly when the denoted number does not fit. */
  lemma {:induction false} OverflowExact(size: nat, word: nat)
    requires size > 3 && word < 0x80_0000
    ensures word * Pow256(size - 3) >= Modulus() <==>
            word != 0 && (size > 34 || (word > 0xff && size > 33) || (word > 0xffff && size > 32))
  {
    hide Pow2;
    SmallPowers();
    FirstPowers();
    assert Modulus() == Pow2(256);
    if size <= 35 {
      FitsBelow(word, 8 * (size - 3));
      if size <= 32 {
        Pow2Monotone(24, 256 - 8 * (size - 3));
      }
    } else {
      Pow2Monotone(256, 8 * (size - 3));
      NonZeroProduct(word, Pow256(size - 3));
      if word > 0 {
        MulMonotone(1, word, Pow256(size - 3));
      }
    }
  }

  lemma {:induction false} FitsBelow(word: nat, e: nat)
    requires e <= 256
    ensures word * Pow2(e) >= Pow2(256) <==> word >= Pow2(256 - e)
  {
    hide Pow2;
    Pow2Adds(256 - e, e);
    Threshold(word, Pow2(256 - e), Pow2(e));
  }

  lemma {:induction false} Threshold(word: nat, limit: nat, unit: nat)
    requires unit > 0
    ensures word * unit >= limit * unit <==> word >= limit
  {
    if word >= limit {
      MulMonotone(limit, word, unit);
    } else {
      MulMonotone(word + 1, limit, unit);
      MulAdd(word, 1, unit);
    }
  }

  method SetCompact(x: BaseUint, c: Word) returns (negative: bool, overflow: bool)
    requires x.Valid()
    modifies x.pn
    ensures x.Int() == Denoted(c) % Modulus()
    ensures overflow <==> Denoted(c) >= Modulus()
    ensures negative <==> Denoted(c) != 0 && SignOf(c)
  {
    hide Value, Base, Pow2, And;
    MaskFacts(c);
    var size := c / 0x100_0000;
    var word := And(c, 0x7f_ffff);
    if size <= 3 {
      ShiftedWord(word, 3 - size);
      word := Quotient(word, Pow2(8 * (3 - size)));
      x.SetLow(word);
      SmallMod(word, Modulus());
    } else {
      x.SetLow(word);
      x.ShiftLeft(8 * (size - 3));
      OverflowExact(size, word);
      NonZeroProduct(word, Pow256(size - 3));
    }
    negative := word != 0 && And(c, 0x80_0000) != 0;
    overflow := word != 0 && (size > 34 || (word > 0xff && size > 33) || (word > 0xffff && size > 32));
  }

  lemma {:induction false} ShiftedWord(word: nat, n: nat)
    requires word < 0x80_0000 && n <= 3
    ensures Quotient(word, Pow256(n)) <= word < Modulus() && word < B * B
  {
    hide Pow2;
    SmallPowers();
    Pow2Monotone(23, 256);
    QuotientSmaller(word, Pow256(n));
  }

  lemma {:induction false} QuotientSmaller(a: nat, d: nat)
    requires d > 0
    ensures a / d <= a
  {
    assert a == a / d * d + a % d;
    MulMonotone(1, d, a / d);
  }

  lemma {:induction false} NonZeroProduct(a: nat, b: nat)
    requires b > 0
    ensures a * b != 0 <==> a != 0
  {
    if a > 0 {
      MulMonotone(1, a, b);
    }
  }

  // ----- Encoding ---------------------------------------------------------------------

  /** The least number of bytes. */
  predicate HasBytes(v: nat, k: nat) {
    v < Pow256(k) && (k > 0 ==> Pow256(k - 1) <= v)
  }

  lemma {:induction false} BytesFromLength(v: nat, n: nat)
    requires HasLength(v, n)
    ensures HasBytes(v, (n + 7) / 8)
  {
    hide Pow2;
    var k := (n + 7) / 8;
    if v == 0 {
      assert Pow2(0) >= 1;
    } else {
      Pow2Monotone(n, 8 * k);
      Pow2Monotone(8 * (k - 1), n - 1);
    }
  }

  /** The three leading bytes. */
  function Leading(v: nat, k: nat): nat {
    if k <= 3 then v * Pow256(3 - k) else Quotient(v, Pow256(k - 3))
  }

  lemma {:induction false} LeadingBound(v: nat, k: nat)
    requires HasBytes(v, k)
    ensures Leading(v, k) < 0x100_0000 && (v > 0 ==> Leading(v, k) >= 0x1_0000)
  {
    hide Pow2;
    SmallPowers();
    if k <= 3 {
      Pow2Adds(8 * k, 8 * (3 - k));
      Threshold(v, Pow256(k), Pow256(3 - k));
      if k > 0 {
        Pow2Adds(8 * (k - 1), 8 * (3 - k));
        Threshold(v, Pow256(k - 1), Pow256(3 - k));
      }
    } else {
      Pow2Adds(24, 8 * (k - 3));
      Pow2Adds(16, 8 * (k - 3));
      QuotientRange(v, Pow256(k - 3), 0x1_0000, 0x100_0000);
    }
  }

  lemma {:induction false} QuotientRange(v: nat, d: nat, low: nat, high: nat)
    requires d > 0 && low * d <= v < high * d
    ensures low <= v / d < high
  {
    var q := v / d;
    assert v == q * d + v % d;
    if q < low {
      MulMonotone(q + 1, low, d);
      MulAdd(q, 1, d);
    }
    if q >= high {
      MulMonotone(high, q, d);
    }
  }

  /** The exponent and the mantissa of a number of k bytes: a mantissa that would
      reach the sign bit gives up its last byte. */
  function Exponent(v: nat, k: nat): nat {
    if Leading(v, k) >= 0x80_0000 then k + 1 else k
  }

  function Mantissa(v: nat, k: nat): nat {
    if Leading(v, k) >= 0x80_0000 then Leading(v, k) / 0x100 else Leading(v, k)
  }

  /** What the last digit of the mantissa stands for. */
  function Unit(c: Word): (r: nat)
    ensures r >= 1
  {
    if SizeOf(c) <= 3 then 1 else Pow256(SizeOf(c) - 3)
  }

  /** The compact form keeps the number rounded down to whole units of its exponent. */
  lemma {:induction false} CompactKeeps(v: nat, k: nat, c: Word)
    requires HasBytes(v, k) && SizeOf(c) == Exponent(v, k) && MantissaOf(c) == Mantissa(v, k)
    ensures Denoted(c) == v / Unit(c) * Unit(c)
    ensures if v == 0 then SizeOf(c) == 0 && MantissaOf(c) == 0 else MantissaOf(c) >= 0x8000
  {
    hide Pow2;
    LeadingBound(v, k);
    SmallPowers();
    if k <= 2 {
      if Leading(v, k) >= 0x80_0000 {
        Pow2Adds(8 * (2 - k), 8);
        Associate(v, Pow256(2 - k), 0x100);
        MultipleMod(v * Pow256(2 - k), 0x100);
        MultipleMod(v, Pow256(2 - k));
      } else {
        MultipleMod(v, Pow256(3 - k));
      }
    } else if k == 3 {
      assert v * Pow256(0) == v by {
        FirstPowers();
      }
      if Leading(v, k) < 0x80_0000 {
        FirstPowers();
      }
    } else if Leading(v, k) >= 0x80_0000 {
      Pow2Adds(8 * (k - 3), 8);
      NestedQuotient(v, Pow256(k - 3), 0x100);
    }
  }

  lemma {:induction false} NestedQuotient(v: nat, a: nat, b: nat)
    requires a > 0 && b > 0
    ensures a * b > 0 && v / a / b == v / (a * b)
  {
    var q, r := v / a, v % a;
    var h, l := q / b, q % b;
    MixedRadix(v, a, b, q, r, h, l);
    DivMod(v, a * b, h, l * a + r);
  }

  lemma {:induction false} MixedRadix(v: int, a: int, b: int, q: int, r: int, h: int, l: int)
    requires v == q * a + r && 0 <= r < a && q == h * b + l && 0 <= l < b
    ensures v == h * (a * b) + (l * a + r) && 0 <= l * a + r < a * b
  {
    assert q * a == h * b * a + l * a;
    assert h * b * a == h * (a * b);
    MulMonotone(0, l, a);
    MulMonotone(l + 1, b, a);
    MulAdd(l, 1, a);
  }

  // ----- Round trip ----------------------------------------------------------------------

  /** A positive number in normal form: a mantissa that fills its bytes and loses no
      digit. */
  predicate Canonical(c: Word) {
    !SignOf(c) && MantissaOf(c) >= 0x8000 && Denoted(c) * Pow256(3) == MantissaOf(c) * Pow256(SizeOf(c))
  }

  lemma {:induction false} BytesUnique(v: nat, j: nat, k: nat)
    requires HasBytes(v, j) && HasBytes(v, k) && v > 0
    ensures j == k
  {
    hide Pow2;
    if j < k {
      Pow2Monotone(8 * j, 8 * (k - 1));
    } else if k < j {
      Pow2Monotone(8 * k, 8 * (j - 1));
    }
  }

  lemma {:induction false} CancelFactor(a: nat, b: nat, m: nat)
    requires m > 0 && a * m == b * m
    ensures a == b
  {
    if a < b {
      MulMonotone(a + 1, b, m);
      MulAdd(a, 1, m);
    } else if b < a {
      MulMonotone(b + 1, a, m);
      MulAdd(b, 1, m);
    }
  }

  /** v * 256^3 lies between two bounds times 256^3. */
  lemma {:induction false} BytesOf(v: nat, mantissa: nat, size: nat, k: nat)
    requires v * Pow256(3) == mantissa * Pow256(size) && k + 3 >= size + 1
    requires Pow2(8 * (k + 3 - size) - 8) <= mantissa < Pow2(8 * (k + 3 - size)) && k >= 1
    ensures HasBytes(v, k)
  {
    hide Pow2;
    var e := 8 * (k + 3 - size);
    Pow2Adds(e, 8 * size);
    Pow2Adds(8 * k, 24);
    Pow2Adds(e - 8, 8 * size);
    Pow2Adds(8 * (k - 1), 24);
    Threshold(mantissa, Pow2(e), Pow256(size));
    Threshold(v, Pow256(k), Pow256(3));
    MulMonotone(Pow2(e - 8), mantissa, Pow256(size));
    Threshold(v, Pow256(k - 1), Pow256(3));
  }

  /** The leading bytes of v, where v * 256^3 == m * 256^k. */
  lemma {:induction false} LeadingOf(v: nat, m: nat, k: nat)
    requires v * Pow256(3) == m * Pow256(k)
    ensures Leading(v, k) == m
  {
    hide Pow2;
    if k <= 3 {
      Pow2Adds(8 * (3 - k), 8 * k);
      Associate(v, Pow256(3 - k), Pow256(k));
      CancelFactor(v * Pow256(3 - k), m, Pow256(k));
    } else {
      Pow2Adds(8 * (k - 3), 24);
      Associate(m, Pow256(k - 3), Pow256(3));
      CancelFactor(v, m * Pow256(k - 3), Pow256(3));
      MultipleMod(m, Pow256(k - 3));
    }
  }

  lemma {:induction false} SizeAtLeast(v: nat, m: nat, size: nat)
    requires v * Pow256(3) == m * Pow256(size) && 0x8000 <= m < 0x80_0000
    ensures v > 0 && size >= 1 && (m < 0x1_0000 ==> size >= 2)
  {
    hide Pow2;
    SmallPowers();
    FirstPowers();
    MulMonotone(1, m, Pow256(size));
    assert Pow256(size) >= 1;
    assert Pow256(0) == 1 && Pow256(1) == 0x100;
  }

  lemma {:induction false} CompactInverse(c: Word, k: nat)
    requires Canonical(c) && HasBytes(Denoted(c), k)
    ensures Exponent(Denoted(c), k) == SizeOf(c) && Mantissa(Denoted(c), k) == MantissaOf(c)
  {
    hide Pow2, Denoted, Leading;
    var v, m, size := Denoted(c), MantissaOf(c), SizeOf(c);
    SmallPowers();
    SizeAtLeast(v, m, size);
    if m >= 0x1_0000 {
      BytesOf(v, m, size, size);
      BytesUnique(v, size, k);
      LeadingOf(v, m, size);
    } else {
      BytesOf(v, m, size, size - 1);
      BytesUnique(v, size - 1, k);
      Pow2Adds(8, 8 * (size - 1));
      Associate(m, 0x100, Pow256(size - 1));
      LeadingOf(v, m * 0x100, size - 1);
    }
  }

  /** And no other form is: the round trip gives back a positive form exactly if it is
      canonical. */
  lemma {:induction false} CompactExactly(c: Word, k: nat)
    requires Denoted(c) > 0 && !SignOf(c) && HasBytes(Denoted(c), k)
    ensures Exponent(Denoted(c), k) == SizeOf(c) && Mantissa(Denoted(c), k) == MantissaOf(c) <==> Canonical(c)
  {
    hide Pow2;
    var v, m, size := Denoted(c), MantissaOf(c), SizeOf(c);
    if Canonical(c) {
      CompactInverse(c, k);
    } else if Exponent(v, k) == size && Mantissa(v, k) == m {
      CompactKeeps(v, k, c);
      if size <= 3 {
        WholeMantissa(v, k);
      } else {
        Pow2Adds(8 * (size - 3), 24);
        Associate(m, Pow256(size - 3), Pow256(3));
      }
    }
  }

  lemma {:induction false} WholeMantissa(v: nat, k: nat)
    requires HasBytes(v, k) && Exponent(v, k) <= 3
    ensures v * Pow256(3) == Mantissa(v, k) * Pow256(Exponent(v, k))
  {
    hide Pow2;
    LeadingBound(v, k);
    if Leading(v, k) >= 0x80_0000 {
      SmallPowers();
      Pow2Adds(8 * (2 - k), 8);
      Associate(v, Pow256(2 - k), 0x100);
      MultipleMod(v * Pow256(2 - k), 0x100);
      Pow2Adds(8 * (2 - k), 8 * (k + 1));
      Associate(v, Pow256(2 - k), Pow256(k + 1));
    } else {
      Pow2Adds(8 * (3 - k), 8 * k);
      Associate(v, Pow256(3 - k), Pow256(k));
    }
  }

  method GetCompact(x: BaseUint, isNegative: bool) returns (c: Word)
    requires x.Valid()
    ensures Denoted(c) == x.Int() / Unit(c) * Unit(c)
    ensures if x.Int() == 0 then c == 0 else MantissaOf(c) >= 0x8000
    ensures SignOf(c) <==> isNegative && x.Int() != 0
    ensures forall d: Word :: Canonical(d) && Denoted(d) == x.Int() && !isNegative ==> c == d
  {
    hide Value, Base, Pow2, And, Or, Leading, Denoted, Unit, Canonical;
    ghost var v := x.Int();
    var bits := x.Length();
    var size := (bits + 7) / 8;
    BytesFromLength(v, bits);
    LeadingBound(v, size);
    ghost var k: nat := size;
    var compact: nat;
    var low;
    if size <= 3 {
      low := x.GetLow64();
      SmallLow(v, size);
      compact := low * Pow2(8 * (3 - size)) % B;
    } else {
      var y := new BaseUint.Copy(x);
      y.ShiftRight(8 * (size - 3));
      low := y.GetLow64();
      LeadingLow(v, size);
      compact := low % B;
    }
    assert compact == Leading(v, k);
    LeadingSign(compact);
    if And(compact, 0x80_0000) != 0 {
      compact := compact / 0x100;
      size := size + 1;
    }
    assert compact < 0x80_0000;
    assert size < 256;
    c := Compose(compact, size, isNegative);
    CompactKeeps(v, k, c);
    forall d: Word | Canonical(d) && Denoted(d) == v && !isNegative
      ensures c == d
    {
      CompactInverse(d, k);
      NoSign(d);
      SameParts(c, d);
    }
  }

  lemma {:induction false} NoSign(c: Word)
    requires Canonical(c)
    ensures !SignOf(c)
  {
    hide Denoted, Pow256;
  }

  lemma {:induction false} SameParts(c: Word, d: Word)
    requires SizeOf(c) == SizeOf(d) && MantissaOf(c) == MantissaOf(d) && !SignOf(c) && !SignOf(d)
    ensures c == d
  {
    hide SizeOf, MantissaOf, SignOf;
    Parts(c);
    Parts(d);
  }

  lemma {:induction false} Parts(c: Word)
    ensures c == SizeOf(c) * 0x100_0000 + (if SignOf(c) then 0x80_0000 else 0) + MantissaOf(c)
  {
  }

  /** Put the exponent and the sign beside the mantissa. */
  method Compose(mantissa: nat, size: nat, isNegative: bool) returns (c: Word)
    requires mantissa < 0x80_0000 && size < 256
    ensures SizeOf(c) == size && MantissaOf(c) == mantissa && (SignOf(c) <==> isNegative && mantissa != 0)
  {
    hide Pow2, And, Or, SizeOf, MantissaOf, SignOf;
    SmallPowers();
    MultipleMod(size, Pow2(24));
    OrAdds(mantissa, size * 0x100_0000, 24);
    ComposedParts(mantissa, size, false);
    ComposedParts(mantissa, size, true);
    c := Or(mantissa, size * 0x100_0000);
    MaskFacts(c);
    if isNegative && And(c, 0x7f_ffff) != 0 {
      SignFits(mantissa, size);
      c := Or(c, 0x80_0000);
    }
  }

  lemma {:induction false} ComposedParts(mantissa: nat, size: nat, sign: bool)
    requires mantissa < 0x80_0000 && size < 256
    ensures var c := mantissa + (if sign then 0x80_0000 else 0) + size * 0x100_0000;
            c < 0x1_0000_0000 && SizeOf(c) == size && MantissaOf(c) == mantissa && SignOf(c) == sign
  {
    var low := mantissa + if sign then 0x80_0000 else 0;
    var c := low + size * 0x100_0000;
    DivMod(c, 0x100_0000, size, low);
    DivMod(c, 0x80_0000, 2 * size + if sign then 1 else 0, mantissa);
  }

  lemma {:induction false} SignFits(mantissa: nat, size: nat)
    requires mantissa < 0x80_0000 && size < 256
    ensures Or(mantissa + size * 0x100_0000, 0x80_0000) == mantissa + 0x80_0000 + size * 0x100_0000
  {
    hide Pow2, Or;
    SmallPowers();
    OrBit(mantissa + size * 0x100_0000, 23);
  }

  lemma {:induction false} SmallLow(v: nat, k: nat)
    requires HasBytes(v, k) && k <= 3
    ensures v % (B * B) == v && v * Pow256(3 - k) % B == Leading(v, k)
  {
    hide Pow2;
    LeadingBound(v, k);
    MulMonotone(1, Pow256(3 - k), v);
    SmallMod(v, B * B);
    SmallMod(v * Pow256(3 - k), B);
  }

  lemma {:induction false} LeadingLow(v: nat, k: nat)
    requires HasBytes(v, k) && k > 3
    ensures v / Pow256(k - 3) % (B * B) % B == Leading(v, k)
  {
    hide Pow2;
    LeadingBound(v, k);
    var q := Leading(v, k);
    SmallMod(q, B * B);
    SmallMod(q, B);
  }

  lemma {:induction false} LeadingSign(x: nat)
    requires x < 0x100_0000
    ensures And(x, 0x80_0000) != 0 <==> x >= 0x80_0000
  {
    hide Pow2, And;
    SmallPowers();
    AndTop(x, 23);
  }
}
