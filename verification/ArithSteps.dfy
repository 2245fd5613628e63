/** The arithmetic behind the loops over the words of a 256-bit number. */
module ArithSteps {
  import opened Bits
  import opened Limbs

  const WIDTH: nat := 8

  /** 2^256 */
  function Modulus(): (m: nat)
    ensures m >= 1
  {
    Base(WIDTH)
  }

  lemma {:induction false} CarryStep(n: nat, w: nat)
    ensures n % B * w + n / B * (B * w) == n * w
  {
    var q, r := n / B, n % B;
    assert n == q * B + r;
    assert n * w == q * B * w + r * w;
    assert q * B * w == q * (B * w);
  }

  lemma {:induction false} ModularResult(s: seq<Word>, q: int, a: int)
    requires |s| == WIDTH && a == Value(s) + q * Modulus()
    ensures Value(s) == a % Modulus()
  {
    ValueBound(s);
    DivMod(a, Modulus(), q, Value(s));
  }

  lemma {:induction false} NoWords(s: seq<Word>)
    ensures Value(s[..0]) == 0 && Base(0) == 1
  {
  }

  lemma {:induction false} AddStep(p: seq<Word>, x: seq<Word>, y: seq<Word>, i: nat, carry: nat, n: nat)
    requires |p| == |x| == |y| == WIDTH && i < WIDTH && n == carry + x[i] + y[i]
    requires Value(p[..i]) + carry * Base(i) == Value(x[..i]) + Value(y[..i])
    ensures Value(p[i := n % B][..i + 1]) + n / B * Base(i + 1) == Value(x[..i + 1]) + Value(y[..i + 1])
  {
    hide Value, Base;
    var after := p[i := n % B];
    assert after[..i] == p[..i];
    ValuePrefix(after, i);
    ValuePrefix(x, i);
    ValuePrefix(y, i);
    CarryStep(n, Base(i));
    BaseNext(i);
    assert n * Base(i) == carry * Base(i) + x[i] * Base(i) + y[i] * Base(i);
  }

  lemma {:induction false} Complements(s: seq<Word>, t: seq<Word>)
    requires |s| == |t| && forall i :: 0 <= i < |s| ==> t[i] == B - 1 - s[i]
    ensures Value(s) + Value(t) == Base(|s|) - 1
  {
    hide Base;
    if s == [] {
      NoWords(s);
    } else {
      var n := |s| - 1;
      Complements(s[..n], t[..n]);
      BaseNext(n);
      ComplementTerm(s[n], Base(n));
    }
  }

  lemma {:induction false} ComplementTerm(x: Word, w: nat)
    ensures x * w + (B - 1 - x) * w == B * w - w
  {
    assert (x + (B - 1 - x)) * w == x * w + (B - 1 - x) * w;
  }

  lemma {:induction false} IncrementStep(p: seq<Word>, i: nat)
    requires |p| == WIDTH && i < WIDTH
    ensures var after := p[i := (p[i] + 1) % B];
            Value(after) + (if after[i] == 0 then Base(i + 1) else 0) == Value(p) + Base(i)
  {
    hide Value, Base;
    var after := p[i := (p[i] + 1) % B];
    ValueUpdate(p, i, after[i]);
    BaseNext(i);
    if after[i] == 0 {
      assert (0 - p[i]) * Base(i) + B * Base(i) == (B - p[i]) * Base(i);
    }
  }

  lemma {:induction false} SubtractByAdding(x: int, y: int, m: nat)
    requires m > 0
    ensures (x + (m - y) % m) % m == (x - y) % m
  {
    var z := m - y;
    assert z == z / m * m + z % m;
    assert x - y == (x - y) / m * m + (x - y) % m;
    var q := (x - y) / m - z / m + 1;
    assert q * m == (x - y) / m * m - z / m * m + m;
    DivMod(x + z % m, m, q, (x - y) % m);
  }

  /** The accumulated product of two words fits in 64 bits. */
  lemma {:induction false} WordProduct(a: Word, b: Word, carry: nat, more: nat)
    requires carry < B && more < B
    ensures 0 <= a * b && carry + more + a * b < B * B
  {
    ProductBelow(a, b, B);
  }

  lemma {:induction false} ProductBelow(a: nat, b: nat, m: nat)
    requires a < m && b < m
    ensures 0 <= a * b <= m * m - 2 * m + 1
  {
    MulMonotone(a, m - 1, b);
    MulMonotone(b, m - 1, m - 1);
    assert (m - 1) * (m - 1) == m * m - 2 * m + 1;
  }

  lemma {:induction false} MulWordStep(p: seq<Word>, x: seq<Word>, w: Word, i: nat, carry: nat, n: nat)
    requires |p| == |x| == WIDTH && i < WIDTH && n == carry + w * x[i]
    requires Value(p[..i]) + carry * Base(i) == Value(x[..i]) * w
    ensures Value(p[i := n % B][..i + 1]) + n / B * Base(i + 1) == Value(x[..i + 1]) * w
  {
    hide Value, Base;
    var after := p[i := n % B];
    assert after[..i] == p[..i];
    ValuePrefix(after, i);
    ValuePrefix(x, i);
    CarryStep(n, Base(i));
    BaseNext(i);
    var v, c := Value(x[..i]), x[i];
    assert n * Base(i) == carry * Base(i) + w * c * Base(i);
    assert (v + c * Base(i)) * w == v * w + w * c * Base(i);
  }

  lemma {:induction false} MulStep(p: seq<Word>, y: seq<Word>, w: Word, i: nat, j: nat, carry: nat, n: nat)
    requires |p| == |y| == WIDTH && i + j < WIDTH && n == carry + p[i + j] + w * y[i]
    ensures Value(p[i + j := n % B]) + n / B * Base(i + j + 1) - w * Base(j) * Value(y[..i + 1]) ==
            Value(p) + carry * Base(i + j) - w * Base(j) * Value(y[..i])
  {
    hide Value, Base;
    var d := p[i + j];
    ValueUpdate(p, i + j, n % B);
    ValuePrefix(y, i);
    CarryStep(n, Base(i + j));
    BaseNext(i + j);
    BaseAdds(j, i);
    RowTerm(w, Base(j), Value(y[..i]), y[i], Base(i));
    MulTerm(n, n % B, d, carry, w * y[i], Base(i + j));
  }

  lemma {:induction false} MulTerm(n: int, r: int, d: int, carry: int, t: int, w: int)
    requires n == carry + d + t
    ensures (r - d) * w == r * w - d * w && n * w == carry * w + d * w + t * w
  {
  }

  lemma {:induction false} RowTerm(w: int, bj: int, v: int, c: int, bi: int)
    ensures w * bj * (v + c * bi) == w * bj * v + w * c * (bj * bi)
  {
    assert w * bj * (c * bi) == w * c * (bj * bi);
  }

  lemma {:induction false} MulRowEnd(y: seq<Word>, w: Word, j: nat, carry: nat)
    requires |y| == WIDTH && j < WIDTH
    ensures w * Base(j) * Value(y) == w * Base(j) * Value(y[..WIDTH - j]) + w * Value(y[WIDTH - j..]) * Modulus()
    ensures (carry + w * Value(y[WIDTH - j..])) * Modulus() == carry * Modulus() + w * Value(y[WIDTH - j..]) * Modulus()
  {
    hide Value, Base;
    ValueSplit(y, WIDTH - j);
    BaseAdds(j, WIDTH - j);
    var low, high := Value(y[..WIDTH - j]), Value(y[WIDTH - j..]);
    RowSplit(w, Base(j), low, Base(WIDTH - j), high);
  }

  lemma {:induction false} RowSplit(w: int, bj: int, low: int, bk: int, high: int)
    ensures w * bj * (low + bk * high) == w * bj * low + w * high * (bj * bk)
  {
    assert w * bj * (bk * high) == w * high * (bj * bk);
  }

  lemma {:induction false} MulRows(x: seq<Word>, y: nat, j: nat, before: nat, after: nat, q: nat, more: nat)
    requires |x| == WIDTH && j < WIDTH && before + q * Modulus() == Value(x[..j]) * y
    requires after + more * Modulus() == before + x[j] * Base(j) * y
    ensures after + (q + more) * Modulus() == Value(x[..j + 1]) * y
  {
    hide Value, Base;
    ValuePrefix(x, j);
    assert (q + more) * Modulus() == q * Modulus() + more * Modulus();
    var v, t := Value(x[..j]), x[j] * Base(j);
    assert (v + t) * y == v * y + t * y;
  }

  // ----- Shifts ---------------------------------------------------------------------

  /** The bits that leave a word shifted left. */
  function HighBits(w: Word, s: nat): nat
    requires s <= 32
  {
    Quotient(w, Pow2(32 - s))
  }

  /** The word that stays. */
  function LowBits(w: Word, s: nat): nat {
    w * Pow2(s) % B
  }

  lemma {:induction false} WordShift(w: Word, s: nat)
    requires s <= 32
    ensures w * Pow2(s) == HighBits(w, s) * B + LowBits(w, s)
    ensures HighBits(w, s) < Pow2(s) <= B
    ensures LowBits(w, s) == w % Pow2(32 - s) * Pow2(s)
    ensures LowBits(w, s) % Pow2(s) == 0 && LowBits(w, s) + Pow2(s) <= B
  {
    hide Pow2;
    var p, d := Pow2(s), Pow2(32 - s);
    Pow2Word();
    Pow2Adds(s, 32 - s);
    var hi, lo := w / d, w % d;
    assert w == hi * d + lo;
    WordParts(hi, lo, d, p, w);
    DivMod(w * p, B, hi, lo * p);
    MultipleMod(lo, p);
  }

  lemma {:induction false} WordParts(hi: nat, lo: nat, d: nat, p: nat, w: nat)
    requires w == hi * d + lo && lo < d && d * p == B && w < B && p >= 1
    ensures w * p == hi * B + lo * p && 0 <= lo * p && lo * p + p <= B && hi < p
  {
    assert w * p == hi * d * p + lo * p;
    assert hi * d * p == hi * (d * p);
    MulMonotone(lo + 1, d, p);
    if hi >= p {
      MulMonotone(p, hi, d);
    }
  }

  /** What the left shift has done after i words: the shifted value of these words,
      but for multiples of 2^256. */
  ghost predicate LeftDone(p: seq<Word>, x: seq<Word>, k: nat, s: nat, i: nat, q: int) {
    && |p| == |x| == WIDTH && i <= WIDTH && s < 32
    && Value(p) + q * Modulus() == Value(x[..i]) * (Pow2(s) * Base(k))
    && LeftShape(p, k, s, i)
  }

  predicate LeftShape(p: seq<Word>, k: nat, s: nat, i: nat)
    requires |p| == WIDTH
  {
    && (forall j :: i + k < j < WIDTH ==> p[j] == 0)
    && (i + k < WIDTH ==> p[i + k] < Pow2(s))
  }

  /** The or-combinations of the left shift add, since their bits are disjoint. */
  lemma {:induction false} LeftOrs(p: seq<Word>, w: Word, k: nat, s: nat, i: nat)
    requires |p| == WIDTH && i < WIDTH && s < 32 && LeftShape(p, k, s, i)
    ensures i + k + 1 < WIDTH ==> Or(p[i + k + 1], HighBits(w, s)) == HighBits(w, s) < B
    ensures i + k + 1 < WIDTH && s == 0 ==> HighBits(w, s) == p[i + k + 1]
    ensures i + k < WIDTH ==> Or(p[i + k], LowBits(w, s)) == p[i + k] + LowBits(w, s) < B
  {
    hide HighBits, LowBits, Base;
    WordShift(w, s);
    if i + k < WIDTH {
      OrAdds(p[i + k], LowBits(w, s), s);
    }
  }

  /** The words after one more word has been shifted in. */
  function LeftNext(p: seq<Word>, w: Word, k: nat, s: nat, i: nat): (r: seq<Word>)
    requires |p| == WIDTH && i < WIDTH && s < 32 && LeftShape(p, k, s, i)
    ensures |r| == WIDTH
  {
    LeftOrs(p, w, k, s, i);
    var r := if i + k + 1 < WIDTH then p[i + k + 1 := HighBits(w, s)] else p;
    if i + k < WIDTH then r[i + k := p[i + k] + LowBits(w, s)] else r
  }

  /** What is lost beyond word seven. */
  function LeftLost(w: Word, k: nat, s: nat, i: nat): int
    requires i < WIDTH && s < 32
  {
    if i + k + 1 < WIDTH then 0
    else if i + k + 1 == WIDTH then HighBits(w, s)
    else w * Pow2(s) * Base(i + k - WIDTH)
  }

  /** One more word adds its shifted value. */
  lemma {:induction false} LeftValue(p: seq<Word>, w: Word, k: nat, s: nat, i: nat)
    requires |p| == WIDTH && i < WIDTH && s < 32 && LeftShape(p, k, s, i)
    ensures Value(LeftNext(p, w, k, s, i)) + LeftLost(w, k, s, i) * Modulus() == Value(p) + w * Pow2(s) * Base(i + k)
    ensures LeftShape(LeftNext(p, w, k, s, i), k, s, i + 1)
  {
    hide Value, Base, Or, Pow2, HighBits, LowBits;
    WordShift(w, s);
    LeftOrs(p, w, k, s, i);
    var hi, lo := HighBits(w, s), LowBits(w, s);
    if i + k + 1 < WIDTH {
      var r := p[i + k + 1 := hi];
      ValueUpdate(p, i + k + 1, hi);
      ValueUpdate(r, i + k, p[i + k] + lo);
      BaseNext(i + k);
      HighLow(w * Pow2(s), hi, lo, Base(i + k));
    } else if i + k + 1 == WIDTH {
      ValueUpdate(p, i + k, p[i + k] + lo);
      BaseNext(i + k);
      HighLow(w * Pow2(s), hi, lo, Base(i + k));
    } else {
      BaseAdds(i + k - WIDTH, WIDTH);
      Associate(w * Pow2(s), Base(i + k - WIDTH), Base(WIDTH));
    }
  }

  lemma {:induction false} Associate(a: int, b: int, c: int)
    ensures a * b * c == a * (b * c)
  {
  }

  lemma {:induction false} HighLow(t: int, hi: int, lo: int, w: int)
    requires t == hi * B + lo
    ensures t * w == hi * (B * w) + lo * w
  {
    assert t * w == hi * B * w + lo * w;
    assert hi * B * w == hi * (B * w);
  }

  lemma {:induction false} LeftStep(p: seq<Word>, x: seq<Word>, k: nat, s: nat, i: nat, q: int)
    requires LeftDone(p, x, k, s, i, q) && i < WIDTH
    ensures LeftDone(LeftNext(p, x[i], k, s, i), x, k, s, i + 1, q + LeftLost(x[i], k, s, i))
  {
    hide Value, Base, Pow2, LeftNext, LeftLost, LeftShape;
    LeftValue(p, x[i], k, s, i);
    ValuePrefix(x, i);
    BaseAdds(i, k);
    LeftTerm(Value(x[..i]), x[i], Base(i), Pow2(s), Base(k));
    MulAdd(q, LeftLost(x[i], k, s, i), Modulus());
  }

  lemma {:induction false} MulAdd(a: int, b: int, m: int)
    ensures (a + b) * m == a * m + b * m
  {
  }

  lemma {:induction false} LeftTerm(v: int, c: int, bi: int, ps: int, bk: int)
    ensures (v + c * bi) * (ps * bk) == v * (ps * bk) + c * ps * (bi * bk)
  {
    assert c * bi * (ps * bk) == c * ps * (bi * bk);
  }

  // ----- Right shifts ---------------------------------------------------------------

  predicate RightShape(p: seq<Word>, k: nat, s: nat, i: nat)
    requires |p| == WIDTH && s < 32
  {
    && (forall j :: 0 <= j < WIDTH && j >= i - k ==> p[j] == 0)
    && (i > k && i - k - 1 < WIDTH ==> p[i - k - 1] < Pow2(32 - s))
  }

  lemma {:induction false} RightOrs(p: seq<Word>, w: Word, k: nat, s: nat, i: nat)
    requires |p| == WIDTH && i < WIDTH && s < 32 && RightShape(p, k, s, i)
    ensures i > k ==> Or(p[i - k - 1], LowBits(w, 32 - s)) == p[i - k - 1] + LowBits(w, 32 - s) < B
    ensures i > k && s == 0 ==> LowBits(w, 32 - s) == 0
    ensures i >= k ==> Or(p[i - k], HighBits(w, 32 - s)) == HighBits(w, 32 - s) < B
  {
    hide HighBits, LowBits, Base;
    WordShift(w, 32 - s);
    if i > k {
      OrAdds(p[i - k - 1], LowBits(w, 32 - s), 32 - s);
    }
    if s == 0 {
      assert LowBits(w, 32) == w % Pow2(0) * Pow2(32);
      assert w % Pow2(0) == 0;
    }
  }

  function RightNext(p: seq<Word>, w: Word, k: nat, s: nat, i: nat): (r: seq<Word>)
    requires |p| == WIDTH && i < WIDTH && s < 32 && RightShape(p, k, s, i)
    ensures |r| == WIDTH
  {
    RightOrs(p, w, k, s, i);
    var r := if i > k then p[i - k - 1 := p[i - k - 1] + LowBits(w, 32 - s)] else p;
    if i >= k then r[i - k := HighBits(w, 32 - s)] else r
  }

  /** The part of a word that is shifted out for good. */
  function RightLost(w: Word, k: nat, s: nat, i: nat): nat
    requires s < 32
  {
    if i < k then w * Base(i) else if i == k then w % Pow2(s) * Base(i) else 0
  }

  /** After i words: what has been shifted in, and what has been shifted out. */
  ghost predicate RightDone(p: seq<Word>, x: seq<Word>, k: nat, s: nat, i: nat, r: nat) {
    && |p| == |x| == WIDTH && i <= WIDTH && s < 32
    && Value(p) * (Pow2(s) * Base(k)) + r == Value(x[..i])
    && r < Pow2(s) * Base(k) && (i <= k ==> r == Value(x[..i]))
    && RightShape(p, k, s, i)
  }

  /** A word shifted right: w == high * 2^s + rest, and what moves to the word below. */
  lemma {:induction false} WordRight(w: Word, s: nat)
    requires s < 32
    ensures w == HighBits(w, 32 - s) * Pow2(s) + w % Pow2(s)
    ensures LowBits(w, 32 - s) * Pow2(s) == w % Pow2(s) * B && w % Pow2(s) < Pow2(s)
  {
    hide Pow2;
    WordShift(w, 32 - s);
    Pow2Word();
    Pow2Adds(32 - s, s);
    assert 32 - (32 - s) == s;
    Associate(w % Pow2(s), Pow2(32 - s), Pow2(s));
  }

  lemma {:induction false} RightValue(p: seq<Word>, w: Word, k: nat, s: nat, i: nat)
    requires |p| == WIDTH && i < WIDTH && s < 32 && RightShape(p, k, s, i)
    ensures var d := Pow2(s) * Base(k);
            Value(RightNext(p, w, k, s, i)) * d + RightLost(w, k, s, i) == Value(p) * d + w * Base(i)
    ensures RightShape(RightNext(p, w, k, s, i), k, s, i + 1)
  {
    hide Value, Base, Or, Pow2, HighBits, LowBits;
    WordShift(w, 32 - s);
    WordRight(w, s);
    RightOrs(p, w, k, s, i);
    var hi, lo, rest := HighBits(w, 32 - s), LowBits(w, 32 - s), w % Pow2(s);
    if i == k {
      ValueUpdate(p, 0, hi);
      BaseNext(0);
      RightFirst(Value(p), hi, Pow2(s), Base(k), rest, w);
    } else if i > k {
      var r := p[i - k - 1 := p[i - k - 1] + lo];
      ValueUpdate(p, i - k - 1, p[i - k - 1] + lo);
      ValueUpdate(r, i - k, hi);
      BaseNext(i - k - 1);
      BaseAdds(i - k, k);
      RightLater(Value(p), hi, lo, Base(i - k - 1), Pow2(s), Base(k), rest, w);
    }
  }

  lemma {:induction false} RightFirst(v: int, hi: int, ps: int, bk: int, rest: int, w: int)
    requires w == hi * ps + rest
    ensures (v + hi) * (ps * bk) + rest * bk == v * (ps * bk) + w * bk
  {
    assert hi * (ps * bk) == hi * ps * bk;
    assert w * bk == hi * ps * bk + rest * bk;
  }

  lemma {:induction false} RightLater(v: int, hi: int, lo: int, b1: int, ps: int, bk: int, rest: int, w: int)
    requires w == hi * ps + rest && lo * ps == rest * B
    ensures (v + lo * b1 + hi * (B * b1)) * (ps * bk) == v * (ps * bk) + w * (B * b1 * bk)
  {
    var u := b1 * bk;
    assert lo * b1 * (ps * bk) == lo * ps * u;
    assert hi * (B * b1) * (ps * bk) == hi * ps * B * u;
    assert w * (B * b1 * bk) == w * B * u;
    assert w * B * u == hi * ps * B * u + rest * B * u;
    assert (v + lo * b1 + hi * (B * b1)) * (ps * bk) == v * (ps * bk) + lo * b1 * (ps * bk) + hi * (B * b1) * (ps * bk);
  }

  lemma {:induction false} RightStep(p: seq<Word>, x: seq<Word>, k: nat, s: nat, i: nat, r: nat)
    requires RightDone(p, x, k, s, i, r) && i < WIDTH
    ensures RightDone(RightNext(p, x[i], k, s, i), x, k, s, i + 1, r + RightLost(x[i], k, s, i))
  {
    hide Value, Base, Pow2, RightNext, RightShape;
    RightValue(p, x[i], k, s, i);
    ValuePrefix(x, i);
    RightLostBound(x, k, s, i, r);
  }

  lemma {:induction false} RightLostBound(x: seq<Word>, k: nat, s: nat, i: nat, r: nat)
    requires |x| == WIDTH && i < WIDTH && s < 32 && r < Pow2(s) * Base(k) && (i <= k ==> r == Value(x[..i]))
    ensures r + RightLost(x[i], k, s, i) < Pow2(s) * Base(k)
    ensures i + 1 <= k ==> r + RightLost(x[i], k, s, i) == Value(x[..i + 1])
  {
    hide Value, Base, Pow2;
    ValuePrefix(x, i);
    if i < k {
      ValueBound(x[..i + 1]);
      BaseMonotone(i + 1, k);
      MulMonotone(1, Pow2(s), Base(k));
    } else if i == k {
      ValueBound(x[..i]);
      MulMonotone(x[i] % Pow2(s) + 1, Pow2(s), Base(k));
      MulAdd(x[i] % Pow2(s), 1, Base(k));
    }
  }

  lemma {:induction false} BaseMonotone(m: nat, n: nat)
    requires m <= n
    ensures Base(m) <= Base(n)
  {
    Pow2Monotone(32 * m, 32 * n);
  }

  // ----- Where the shifts start and end -------------------------------------------------

  lemma {:induction false} LeftStart(p: seq<Word>, x: seq<Word>, k: nat, s: nat)
    requires |p| == |x| == WIDTH && s < 32 && forall i :: 0 <= i < WIDTH ==> p[i] == 0
    ensures LeftDone(p, x, k, s, 0, 0)
  {
    ValueZero(p);
    NoWords(x);
  }

  lemma {:induction false} LeftFacts(p: seq<Word>, x: seq<Word>, k: nat, s: nat, i: nat, q: int)
    requires LeftDone(p, x, k, s, i, q)
    ensures |p| == |x| == WIDTH && LeftShape(p, k, s, i)
  {
  }

  lemma {:induction false} ShiftSplit(shift: nat)
    ensures Pow2(shift) == Pow2(shift % 32) * Base(shift / 32)
  {
    Pow2Adds(shift % 32, 32 * (shift / 32));
  }

  lemma {:induction false} LeftEnd(p: seq<Word>, x: seq<Word>, k: nat, s: nat, q: int, shift: nat)
    requires LeftDone(p, x, k, s, WIDTH, q) && k == shift / 32 && s == shift % 32
    ensures Value(p) == Value(x) * Pow2(shift) % Modulus()
  {
    hide Value, Base, Pow2;
    assert x[..WIDTH] == x;
    ShiftSplit(shift);
    ModularResult(p, q, Value(x) * Pow2(shift));
  }

  lemma {:induction false} RightStart(p: seq<Word>, x: seq<Word>, k: nat, s: nat)
    requires |p| == |x| == WIDTH && s < 32 && forall i :: 0 <= i < WIDTH ==> p[i] == 0
    ensures RightDone(p, x, k, s, 0, 0)
  {
    hide Base, Pow2;
    ValueZero(p);
    NoWords(x);
    MulMonotone(1, Pow2(s), Base(k));
  }

  lemma {:induction false} RightFacts(p: seq<Word>, x: seq<Word>, k: nat, s: nat, i: nat, r: nat)
    requires RightDone(p, x, k, s, i, r)
    ensures |p| == |x| == WIDTH && RightShape(p, k, s, i)
  {
  }

  lemma {:induction false} RightEnd(p: seq<Word>, x: seq<Word>, k: nat, s: nat, r: nat, shift: nat)
    requires RightDone(p, x, k, s, WIDTH, r) && k == shift / 32 && s == shift % 32
    ensures Value(p) == Value(x) / Pow2(shift)
  {
    hide Value, Base, Pow2;
    assert x[..WIDTH] == x;
    ShiftSplit(shift);
    DivMod(Value(x), Pow2(shift), Value(p), r);
  }

  // ----- Comparison and length ---------------------------------------------------------

  lemma {:induction false} HighestDecides(x: seq<Word>, y: seq<Word>, i: nat)
    requires |x| == |y| && i < |x| && x[i + 1..] == y[i + 1..] && x[i] < y[i]
    ensures Value(x) < Value(y)
  {
    hide Value, Base;
    ValueSplit(x, i + 1);
    ValueSplit(y, i + 1);
    ValuePrefix(x, i);
    ValuePrefix(y, i);
    ValueBound(x[..i]);
    MulMonotone(x[i] + 1, y[i], Base(i));
    MulAdd(x[i], 1, Base(i));
  }

  /** Words above `pos` are zero: the word at `pos` gives the length. */
  lemma {:induction false} LengthFrom(x: seq<Word>, pos: nat, m: nat)
    requires pos < |x| && (forall i :: pos < i < |x| ==> x[i] == 0) && Pow2(m) <= x[pos] < Pow2(m + 1)
    ensures Pow2(32 * pos + m) <= Value(x) < Pow2(32 * pos + m + 1)
  {
    hide Value, Pow2;
    ValueSplit(x, pos + 1);
    ValueZero(x[pos + 1..]);
    ValuePrefix(x, pos);
    ValueBound(x[..pos]);
    Pow2Adds(m, 32 * pos);
    Pow2Adds(m + 1, 32 * pos);
    var w: int := x[pos];
    MulMonotone(Pow2(m), w, Base(pos));
    MulMonotone(w + 1, Pow2(m + 1), Base(pos));
    MulAdd(w, 1, Base(pos));
    assert Base(pos) == Pow2(32 * pos);
    assert Base(pos + 1) * Value(x[pos + 1..]) == 0;
  }

  // ----- Division ------------------------------------------------------------------------

  lemma {:induction false} DivWordStep(x: seq<Word>, p: seq<Word>, b: Word, i: nat, rem: nat)
    requires |x| == |p| == WIDTH && i < WIDTH && b > 0 && rem < b
    requires Value(x[i + 1..]) == Value(p[i + 1..]) * b + rem
    ensures var t := rem * B + x[i];
            && 0 <= t / b < B && 0 <= t % b < b
            && Value(x[i..]) == Value(p[i := t / b][i..]) * b + t % b
  {
    hide Value;
    var t := rem * B + x[i];
    var q := t / b;
    assert t == q * b + t % b;
    QuotientFits(rem, x[i], b);
    var after := p[i := q];
    ValueHead(x[i..]);
    ValueHead(after[i..]);
    assert x[i..][1..] == x[i + 1..] && after[i..][1..] == p[i + 1..];
    var v := Value(p[i + 1..]);
    LongDivision(Value(x[i + 1..]), v, b, rem, x[i], q, t % b);
  }

  lemma {:induction false} QuotientFits(rem: nat, w: Word, b: Word)
    requires rem < b
    ensures 0 <= (rem * B + w) / b < B
  {
    var t := rem * B + w;
    var q := t / b;
    assert t == q * b + t % b;
    if q >= B {
      MulMonotone(B, q, b);
      MulMonotone(rem + 1, b, B);
    }
    if q < 0 {
      MulMonotone(q, -1, b);
    }
  }

  lemma {:induction false} LongDivision(high: int, v: int, b: int, rem: int, w: int, q: int, rest: int)
    requires high == v * b + rem && rem * B + w == q * b + rest
    ensures w + B * high == (q + B * v) * b + rest
  {
    assert B * (v * b) == B * v * b;
    assert (q + B * v) * b == q * b + B * v * b;
  }

  /** A number divisible by 2^(32 j + t) has t zero bits at the end of word j. */
  lemma {:induction false} WordMultiple(p: seq<Word>, j: nat, t: nat)
    requires j < |p| && t <= 32 && Value(p) % Pow2(32 * j + t) == 0
    ensures p[j] % Pow2(t) == 0
  {
    hide Value, Pow2;
    var base, pt := Pow2(32 * j), Pow2(t);
    var low, high, rest := Value(p[..j]), Value(p[j..]), Value(p[j..][1..]);
    var m := Value(p) / Pow2(32 * j + t);
    Pow2Adds(32 * j, t);
    Pow2Adds(t, 32 - t);
    Pow2Word();
    ValueSplit(p, j);
    ValueBound(p[..j]);
    assert base == Base(j);
    assert Value(p) == m * (base * pt);
    Rearrange(m, base, pt);
    DivMod(Value(p), base, high, low);
    DivMod(Value(p), base, m * pt, 0);
    ValueHead(p[j..]);
    MultipleOf(p[j], B, rest, Pow2(32 - t), pt, m);
  }

  lemma {:induction false} MultipleOf(w: nat, b: nat, rest: nat, e: nat, pt: nat, m: nat)
    requires w + b * rest == m * pt && b == pt * e && pt > 0
    ensures w % pt == 0
  {
    assert b * rest == rest * e * pt;
    var k := m - rest * e;
    assert k * pt == m * pt - rest * e * pt;
    DivMod(w, pt, k, 0);
  }

  lemma {:induction false} Rearrange(m: int, a: int, b: int)
    ensures m * (a * b) == m * b * a == a * m * b
  {
  }

  /** Setting a bit below all set bits adds it. */
  lemma {:induction false} SetBit(p: seq<Word>, shift: nat)
    requires |p| == WIDTH && shift < 32 * WIDTH && Value(p) % Pow2(shift + 1) == 0
    ensures var j, s := shift / 32, shift % 32;
            && Or(p[j], Pow2(s)) == p[j] + Pow2(s) < B
            && Value(p[j := p[j] + Pow2(s)]) == Value(p) + Pow2(shift)
            && Value(p[j := p[j] + Pow2(s)]) % Pow2(shift) == 0
  {
    hide Value, Pow2, Or;
    var j, s := shift / 32, shift % 32;
    assert 32 * j + (s + 1) == shift + 1;
    WordMultiple(p, j, s + 1);
    Pow2Next(s);
    Pow2Next(shift);
    OrAdds(Pow2(s), p[j], s + 1);
    OrCommutes(Pow2(s), p[j]);
    BitFits(p[j], s);
    ValueUpdate(p, j, p[j] + Pow2(s));
    Pow2Adds(s, 32 * j);
    assert Base(j) == Pow2(32 * j);
    HalfMultiple(Value(p), Pow2(shift));
  }

  lemma {:induction false} HalfMultiple(v: nat, bit: nat)
    requires bit > 0 && v % (2 * bit) == 0
    ensures (v + bit) % bit == 0
  {
    var m := v / (2 * bit);
    assert v == m * (2 * bit);
    assert v + bit == (2 * m + 1) * bit;
    DivMod(v + bit, bit, 2 * m + 1, 0);
  }

  lemma {:induction false} Pow2Next(n: nat)
    ensures Pow2(n + 1) == 2 * Pow2(n)
  {
  }

  /** A word that is a multiple of 2^(s+1) has room for 2^s. */
  lemma {:induction false} BitFits(w: Word, s: nat)
    requires s < 32 && w % Pow2(s + 1) == 0
    ensures w + Pow2(s) < B
  {
    hide Pow2;
    Pow2Next(s);
    Pow2Adds(s + 1, 31 - s);
    Pow2Word();
    var d, e := Pow2(s + 1), Pow2(31 - s);
    var m := w / d;
    assert w == m * d && e * d == B;
    if m >= e {
      MulMonotone(e, m, d);
    }
    MulMonotone(m + 1, e, d);
    MulAdd(m, 1, d);
  }

  /** A length n: the number has exactly n binary digits. */
  predicate HasLength(v: nat, n: nat) {
    if v == 0 then n == 0 else n > 0 && Pow2(n - 1) <= v < Pow2(n)
  }

  /** The aligned divisor is not shifted out, and less than twice of it is left. */
  lemma {:induction false} Aligned(num: nat, numBits: nat, div: nat, divBits: nat)
    requires HasLength(num, numBits) && HasLength(div, divBits) && 0 < divBits <= numBits <= 32 * WIDTH
    ensures var shift := numBits - divBits;
            div * Pow2(shift) < Modulus() && num < div * Pow2(shift + 1)
  {
    hide Pow2;
    var shift := numBits - divBits;
    assert div != 0 && num != 0;
    Pow2Adds(divBits, shift);
    Pow2Adds(divBits - 1, shift + 1);
    Pow2Monotone(numBits, 32 * WIDTH);
    MulMonotone(div + 1, Pow2(divBits), Pow2(shift));
    MulAdd(div, 1, Pow2(shift));
    MulMonotone(Pow2(divBits - 1), div, Pow2(shift + 1));
  }

  lemma {:induction false} HalveDivisor(div: nat, shift: nat)
    requires shift > 0
    ensures div * Pow2(shift) / 2 == div * Pow2(shift - 1)
  {
    assert div * (2 * Pow2(shift - 1)) == 2 * (div * Pow2(shift - 1));
  }

  lemma {:induction false} TwiceDivisor(div: nat, shift: nat)
    ensures div * Pow2(shift + 1) == 2 * (div * Pow2(shift)) && div * Pow2(0) == div
  {
  }

  lemma {:induction false} ModOfSmaller(v: nat, a: nat, b: nat)
    requires v % Pow2(a) == 0 && b <= a
    ensures v % Pow2(b) == 0
  {
    hide Pow2;
    Pow2Adds(a - b, b);
    var m := v / Pow2(a);
    assert v == m * (Pow2(a - b) * Pow2(b));
    Associate(m, Pow2(a - b), Pow2(b));
    DivMod(v, Pow2(b), m * Pow2(a - b), 0);
  }

  lemma {:induction false} FirstPowers()
    ensures Pow2(0) == 1 && Pow2(1) == 2
  {
  }

  lemma {:induction false} LowWords(s: seq<Word>, b: nat)
    requires |s| == WIDTH && b < B * B && Value(s) == b
    ensures s[0] == b % B && s[1] == b / B && forall i :: 2 <= i < WIDTH ==> s[i] == 0
  {
    hide Value;
    var t: seq<Word> := [b % B, b / B, 0, 0, 0, 0, 0, 0];
    ValueHead(t);
    ValueHead(t[1..]);
    ValueZero(t[1..][1..]);
    ValueInjective(s, t);
  }

  lemma {:induction false} LengthZero(v: nat, n: nat)
    requires HasLength(v, n)
    ensures v == 0 <==> n == 0
  {
  }

  lemma {:induction false} Shorter(num: nat, numBits: nat, div: nat, divBits: nat)
    requires HasLength(num, numBits) && HasLength(div, divBits) && numBits < divBits
    ensures num / div == 0
  {
    Pow2Monotone(numBits, divBits - 1);
    assert num < div;
    DivMod(num, div, 0, num);
  }

  lemma {:induction false} SmallMod(a: nat, m: nat)
    requires a < m
    ensures a % m == a
  {
    DivMod(a, m, 0, a);
  }

  lemma {:induction false} ZeroMultiple(m: nat)
    requires m > 0
    ensures 0 % m == 0
  {
    DivMod(0, m, 0, 0);
  }

  lemma {:induction false} QuotientGrows(q: nat, bit: nat, d: nat)
    ensures (q + bit) * d == q * d + d * bit
  {
  }

  lemma {:induction false} LowValue(s: seq<Word>)
    requires |s| == WIDTH
    ensures Or(s[0], s[1] * B) == s[0] + s[1] * B == Value(s) % (B * B)
  {
    hide Value, Or, Pow2;
    Pow2Word();
    MultipleMod(s[1], B);
    OrAdds(s[0], s[1] * B, 32);
    ValueHead(s);
    ValueHead(s[1..]);
    var rest := Value(s[1..][1..]);
    DivMod(Value(s), B * B, rest, s[0] + s[1] * B);
  }
}
