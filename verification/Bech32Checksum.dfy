/** The checksum of Bech32 and Bech32m: the remainder of a polynomial over GF(32),
    packed into 30 bits. */
module Bech32Checksum {
  /** A 5-bit value, or a packed remainder. */
  type Bits = bv32

  predicate Fives(v: seq<Bits>) {
    forall i :: 0 <= i < |v| ==> v[i] < 32
  }

  /** Addition of polynomials. */
  function Plus(a: Bits, b: Bits): Bits {
    a ^ b
  }

  /** All but the leading coefficient, times x. */
  function Shifted(c: Bits): Bits {
    (c & 0x1ffffff) << 5
  }

  function Lead(c: Bits): Bits {
    c >> 25
  }

  predicate Has(c0: Bits, bit: Bits) {
    c0 & bit != 0
  }

  function Choose(b: bool, k: Bits): Bits {
    if b then k else 0
  }

  function Pick(c0: Bits, bit: Bits, k: Bits): Bits {
    Choose(Has(c0, bit), k)
  }

  /** One more coefficient: multiply by x, add v, and add the multiple of the generator
      that the leading coefficient asks for. */
  function Step(c: Bits, v: Bits): Bits {
    var c0 := Lead(c);
    var r1 := Plus(Plus(Shifted(c), v), Pick(c0, 1, 0x3b6a57b2));
    var r2 := Plus(r1, Pick(c0, 2, 0x26508e6d));
    var r3 := Plus(r2, Pick(c0, 4, 0x1ea119fa));
    var r4 := Plus(r3, Pick(c0, 8, 0x3d4233dd));
    Plus(r4, Pick(c0, 16, 0x2a1462b3))
  }

  function PolyModFrom(c: Bits, v: seq<Bits>): Bits {
    if v == [] then c else Step(PolyModFrom(c, v[..|v| - 1]), v[|v| - 1])
  }

  function PolyModOf(v: seq<Bits>): Bits {
    PolyModFrom(1, v)
  }

  /** The original's loop. */
  method PolyMod(v: seq<Bits>) returns (c: Bits)
    ensures c == PolyModOf(v)
  {
    hide Step;
    c := 1;
    for i := 0 to |v|
      invariant c == PolyModFrom(1, v[..i])
    {
      assert v[..i + 1][..i] == v[..i];
      c := Advance(c, v[i]);
    }
    assert v[..|v|] == v;
  }

  method Advance(c: Bits, v: Bits) returns (r: Bits)
    ensures r == Step(c, v)
  {
    hide Plus, Shifted, Lead, Pick;
    var c0 := Lead(c);
    r := Plus(Shifted(c), v);
    r := AddIf(r, c0, 1, 0x3b6a57b2);
    r := AddIf(r, c0, 2, 0x26508e6d);
    r := AddIf(r, c0, 4, 0x1ea119fa);
    r := AddIf(r, c0, 8, 0x3d4233dd);
    r := AddIf(r, c0, 16, 0x2a1462b3);
  }

  method AddIf(r: Bits, c0: Bits, bit: Bits, k: Bits) returns (sum: Bits)
    ensures sum == Plus(r, Pick(c0, bit, k))
  {
    hide Plus, Pick, Has;
    Picked(r, c0, bit, k);
    sum := r;
    if Has(c0, bit) {
      sum := Plus(r, k);
    }
  }

  lemma {:induction false} Picked(r: Bits, c0: Bits, bit: Bits, k: Bits)
    ensures Plus(r, Pick(c0, bit, k)) == if Has(c0, bit) then Plus(r, k) else r
  {
    hide Plus, Has;
    if Has(c0, bit) {
      assert Pick(c0, bit, k) == k;
    } else {
      PlusZero(r);
    }
  }

  // ----- Linearity ------------------------------------------------------------------------

  lemma {:induction false} PlusCommutes(a: Bits, b: Bits)
    ensures Plus(a, b) == Plus(b, a)
  {
  }

  lemma {:induction false} PlusAssociates(a: Bits, b: Bits, c: Bits)
    ensures Plus(Plus(a, b), c) == Plus(a, Plus(b, c))
  {
  }

  lemma {:induction false} PlusSwap(a: Bits, b: Bits, x: Bits, y: Bits)
    ensures Plus(Plus(a, b), Plus(x, y)) == Plus(Plus(a, x), Plus(b, y))
  {
    hide Plus;
    PlusAssociates(a, b, Plus(x, y));
    PlusAssociates(b, x, y);
    PlusCommutes(b, x);
    PlusAssociates(x, b, y);
    PlusAssociates(a, x, Plus(b, y));
  }

  lemma {:induction false} PlusZero(a: Bits)
    ensures Plus(a, 0) == a && Plus(0, a) == a && Plus(a, a) == 0
  {
  }

  lemma {:induction false} ShiftedLinear(a: Bits, b: Bits)
    ensures Shifted(Plus(a, b)) == Plus(Shifted(a), Shifted(b)) && Lead(Plus(a, b)) == Plus(Lead(a), Lead(b))
  {
  }

  predicate IsBit(bit: Bits) {
    bit == 1 || bit == 2 || bit == 4 || bit == 8 || bit == 16
  }

  lemma {:induction false} HasLinear(a: Bits, b: Bits, bit: Bits)
    requires IsBit(bit)
    ensures Has(Plus(a, b), bit) <==> Has(a, bit) != Has(b, bit)
  {
    if bit == 1 {
    } else if bit == 2 {
    } else if bit == 4 {
    } else if bit == 8 {
    } else {
      assert bit == 16;
    }
  }

  lemma {:induction false} ChooseLinear(a: bool, b: bool, k: Bits)
    ensures Choose(a != b, k) == Plus(Choose(a, k), Choose(b, k))
  {
    hide Plus;
    PlusZero(0);
    PlusZero(k);
    if a {
      assert Choose(a, k) == k;
    } else {
      assert Choose(a, k) == 0;
    }
  }

  lemma {:induction false} PickLinear(a: Bits, b: Bits, bit: Bits, k: Bits)
    requires IsBit(bit)
    ensures Pick(Plus(a, b), bit, k) == Plus(Pick(a, bit, k), Pick(b, bit, k))
  {
    hide Plus, Has, Choose;
    HasLinear(a, b, bit);
    ChooseLinear(Has(a, bit), Has(b, bit), k);
  }

  /** Adding one picked multiple to a sum. */
  lemma {:induction false} PickAdds(r: Bits, s: Bits, a: Bits, b: Bits, bit: Bits, k: Bits)
    requires IsBit(bit)
    ensures Plus(Plus(r, s), Pick(Plus(a, b), bit, k)) == Plus(Plus(r, Pick(a, bit, k)), Plus(s, Pick(b, bit, k)))
  {
    hide Plus, Pick;
    PickLinear(a, b, bit, k);
    PlusSwap(r, s, Pick(a, bit, k), Pick(b, bit, k));
  }

  lemma {:induction false} StepLinear(a: Bits, b: Bits, u: Bits, v: Bits)
    ensures Step(Plus(a, b), Plus(u, v)) == Plus(Step(a, u), Step(b, v))
  {
    hide Plus, Pick, Shifted, Lead;
    ShiftedLinear(a, b);
    PlusSwap(Shifted(a), Shifted(b), u, v);
    var c, d := Lead(a), Lead(b);
    var p0, q0 := Plus(Shifted(a), u), Plus(Shifted(b), v);
    PickAdds(p0, q0, c, d, 1, 0x3b6a57b2);
    var p1, q1 := Plus(p0, Pick(c, 1, 0x3b6a57b2)), Plus(q0, Pick(d, 1, 0x3b6a57b2));
    PickAdds(p1, q1, c, d, 2, 0x26508e6d);
    var p2, q2 := Plus(p1, Pick(c, 2, 0x26508e6d)), Plus(q1, Pick(d, 2, 0x26508e6d));
    PickAdds(p2, q2, c, d, 4, 0x1ea119fa);
    var p3, q3 := Plus(p2, Pick(c, 4, 0x1ea119fa)), Plus(q2, Pick(d, 4, 0x1ea119fa));
    PickAdds(p3, q3, c, d, 8, 0x3d4233dd);
    var p4, q4 := Plus(p3, Pick(c, 8, 0x3d4233dd)), Plus(q3, Pick(d, 8, 0x3d4233dd));
    PickAdds(p4, q4, c, d, 16, 0x2a1462b3);
  }

  function Xor(u: seq<Bits>, v: seq<Bits>): (w: seq<Bits>)
    requires |u| == |v|
    ensures |w| == |u|
  {
    seq(|u|, i requires 0 <= i < |u| => Plus(u[i], v[i]))
  }

  /** The remainder of a sum is the sum of the remainders. */
  lemma {:induction false} PolyModLinear(a: Bits, b: Bits, u: seq<Bits>, v: seq<Bits>)
    requires |u| == |v|
    ensures PolyModFrom(Plus(a, b), Xor(u, v)) == Plus(PolyModFrom(a, u), PolyModFrom(b, v))
  {
    hide Step, Plus;
    if u != [] {
      var n := |u| - 1;
      PolyModLinear(a, b, u[..n], v[..n]);
      assert Xor(u, v)[..n] == Xor(u[..n], v[..n]);
      StepLinear(PolyModFrom(a, u[..n]), PolyModFrom(b, v[..n]), u[n], v[n]);
    }
  }

  lemma {:induction false} PolyModConcat(c: Bits, u: seq<Bits>, v: seq<Bits>)
    ensures PolyModFrom(c, u + v) == PolyModFrom(PolyModFrom(c, u), v)
  {
    hide Step;
    if v == [] {
      assert u + v == u;
    } else {
      var n := |v| - 1;
      assert (u + v)[..|u| + n] == u + v[..n];
      PolyModConcat(c, u, v[..n]);
    }
  }

  // ----- A single change ---------------------------------------------------------------------

  lemma {:induction false} StepRange(c: Bits, v: Bits)
    requires v < 32
    ensures Step(c, v) < 0x4000_0000
  {
  }

  /** Multiplying by x loses nothing: the constant term of the generator is not zero. */
  lemma {:induction false} StepNonZero(c: Bits)
    requires c != 0 && c < 0x4000_0000
    ensures Step(c, 0) != 0 && Step(c, 0) < 0x4000_0000
  {
  }

  function Zeros(n: nat): (z: seq<Bits>)
    ensures |z| == n
  {
    seq(n, _ => 0)
  }

  lemma {:induction false} NonZeroStays(c: Bits, n: nat)
    requires c != 0 && c < 0x4000_0000
    ensures PolyModFrom(c, Zeros(n)) != 0 && PolyModFrom(c, Zeros(n)) < 0x4000_0000
  {
    hide Step;
    if n > 0 {
      assert Zeros(n)[..n - 1] == Zeros(n - 1);
      NonZeroStays(c, n - 1);
      StepNonZero(PolyModFrom(c, Zeros(n - 1)));
    }
  }

  lemma {:induction false} ZeroStays(n: nat)
    ensures PolyModFrom(0, Zeros(n)) == 0
  {
    hide Step;
    if n > 0 {
      assert Zeros(n)[..n - 1] == Zeros(n - 1);
      ZeroStays(n - 1);
      StepOnZero(0);
    }
  }

  lemma {:induction false} StepOnZero(d: Bits)
    ensures Step(0, d) == d
  {
    hide Plus, Pick;
    NothingPicked(1, 0x3b6a57b2);
    NothingPicked(2, 0x26508e6d);
    NothingPicked(4, 0x1ea119fa);
    NothingPicked(8, 0x3d4233dd);
    NothingPicked(16, 0x2a1462b3);
    assert Lead(0) == 0 && Shifted(0) == 0;
    PlusZero(d);
  }

  lemma {:induction false} NothingPicked(bit: Bits, k: Bits)
    ensures Pick(0, bit, k) == 0
  {
    assert 0 & bit == 0;
  }

  /** The change of one symbol as a sequence of its own. */
  function Error(n: nat, i: nat, d: Bits): (e: seq<Bits>)
    requires i < n
    ensures |e| == n
  {
    Zeros(i) + [d] + Zeros(n - i - 1)
  }

  lemma {:induction false} ErrorNonZero(n: nat, i: nat, d: Bits)
    requires i < n && d != 0 && d < 0x4000_0000
    ensures PolyModFrom(0, Error(n, i, d)) != 0
  {
    hide Step;
    PolyModConcat(0, Zeros(i) + [d], Zeros(n - i - 1));
    PolyModConcat(0, Zeros(i), [d]);
    ZeroStays(i);
    StepOnZero(d);
    assert [d][..0] == [];
    NonZeroStays(d, n - i - 1);
  }

  lemma {:induction false} ErrorChanges(v: seq<Bits>, i: nat, x: Bits)
    requires i < |v|
    ensures Xor(v, Error(|v|, i, Plus(v[i], x))) == v[i := x]
  {
    hide Plus;
    var e := Error(|v|, i, Plus(v[i], x));
    forall k | 0 <= k < |v|
      ensures Plus(v[k], e[k]) == v[i := x][k]
    {
      PlusZero(v[k]);
      PlusTwice(v[i], x);
    }
  }

  lemma {:induction false} PlusTwice(a: Bits, b: Bits)
    ensures Plus(a, Plus(a, b)) == b
  {
  }

  /** Changing one symbol of a sequence of any length changes the remainder. */
  lemma {:induction false} OneChange(c: Bits, v: seq<Bits>, i: nat, x: Bits)
    requires i < |v| && v[i] < 32 && x < 32 && x != v[i]
    ensures PolyModFrom(c, v[i := x]) != PolyModFrom(c, v)
  {
    hide PolyModFrom, Plus, Xor, Error;
    var d := Plus(v[i], x);
    var e := Error(|v|, i, d);
    Difference(v[i], x);
    ErrorChanges(v, i, x);
    ErrorNonZero(|v|, i, d);
    PolyModLinear(c, 0, v, e);
    PlusZero(c);
    Differ(PolyModFrom(c, v), PolyModFrom(0, e));
  }

  lemma {:induction false} Difference(a: Bits, b: Bits)
    requires a < 32 && b < 32 && a != b
    ensures Plus(a, b) != 0 && Plus(a, b) < 0x4000_0000
  {
  }

  lemma {:induction false} Differ(a: Bits, b: Bits)
    requires b != 0
    ensures Plus(a, b) != a
  {
  }

  // ----- The checksum itself ------------------------------------------------------------------

  function Up(x: Bits): Bits {
    x << 5
  }

  function Down(x: Bits): Bits {
    x >> 5
  }

  function Low(x: Bits): Bits {
    x & 31
  }

  /** The six 5-bit groups of a packed remainder. */
  function Groups(m: Bits): (g: seq<Bits>)
    ensures |g| == 6
  {
    var m1 := Down(m);
    var m2 := Down(m1);
    var m3 := Down(m2);
    var m4 := Down(m3);
    [Low(Down(m4)), Low(m4), Low(m3), Low(m2), Low(m1), Low(m)]
  }

  /** Without a leading coefficient a step only shifts. */
  lemma {:induction false} StepShort(x: Bits, v: Bits)
    requires x < 0x200_0000
    ensures Step(x, v) == Plus(Up(x), v)
  {
    hide Plus, Pick, Up;
    NothingPicked(1, 0x3b6a57b2);
    NothingPicked(2, 0x26508e6d);
    NothingPicked(4, 0x1ea119fa);
    NothingPicked(8, 0x3d4233dd);
    NothingPicked(16, 0x2a1462b3);
    ShortParts(x);
    PlusZero(Plus(Up(x), v));
  }

  lemma {:induction false} ShortParts(x: Bits)
    requires x < 0x200_0000
    ensures Lead(x) == 0 && Shifted(x) == Up(x)
  {
  }

  lemma {:induction false} Rejoin(x: Bits)
    ensures Plus(Up(Down(x)), Low(x)) == x
  {
  }

  lemma {:induction false} DownRange(x: Bits)
    ensures x < 0x4000_0000 ==> Down(x) < 0x200_0000
    ensures x < 0x200_0000 ==> Down(x) < 0x10_0000
    ensures x < 0x10_0000 ==> Down(x) < 0x8000
    ensures x < 0x8000 ==> Down(x) < 0x400
    ensures x < 0x400 ==> Down(x) < 0x20
  {
  }

  lemma {:induction false} RejoinStep(x: Bits)
    requires Down(x) < 0x200_0000
    ensures Step(Down(x), Low(x)) == x
  {
    hide Step, Plus, Down, Low, Up;
    StepShort(Down(x), Low(x));
    Rejoin(x);
  }

  /** Reading the groups of a remainder gives the remainder. */
  lemma {:induction false} GroupsPack(m: Bits)
    requires m < 0x4000_0000
    ensures PolyModFrom(0, Groups(m)) == m
  {
    hide Step, Down, Low, PolyModFrom;
    var m1 := Down(m);
    var m2 := Down(m1);
    var m3 := Down(m2);
    var m4 := Down(m3);
    var m5 := Down(m4);
    DownRange(m);
    DownRange(m1);
    DownRange(m2);
    DownRange(m3);
    DownRange(m4);
    SmallGroup(m5);
    StepOnZero(m5);
    RejoinStep(m4);
    RejoinStep(m3);
    RejoinStep(m2);
    RejoinStep(m1);
    RejoinStep(m);
    SixSteps(0, Groups(m));
  }

  lemma {:induction false} SixSteps(c: Bits, v: seq<Bits>)
    requires |v| == 6
    ensures PolyModFrom(c, v) == Step(Step(Step(Step(Step(Step(c, v[0]), v[1]), v[2]), v[3]), v[4]), v[5])
  {
    hide Step;
    assert v[..5][..4] == v[..4] && v[..4][..3] == v[..3] && v[..3][..2] == v[..2] && v[..2][..1] == v[..1] && v[..1][..0] == [];
    assert PolyModFrom(c, v[..0]) == c;
    assert PolyModFrom(c, v[..1]) == Step(c, v[0]);
    assert PolyModFrom(c, v[..2]) == Step(PolyModFrom(c, v[..1]), v[1]);
    assert PolyModFrom(c, v[..3]) == Step(PolyModFrom(c, v[..2]), v[2]);
    assert PolyModFrom(c, v[..4]) == Step(PolyModFrom(c, v[..3]), v[3]);
    assert PolyModFrom(c, v[..5]) == Step(PolyModFrom(c, v[..4]), v[4]);
  }

  lemma {:induction false} BackLow(x: Bits, v: Bits)
    requires v < 32
    ensures Low(Plus(Up(x), v)) == v
  {
  }

  lemma {:induction false} BackHigh(x: Bits, v: Bits)
    requires v < 32 && x < 0x200_0000
    ensures Down(Plus(Up(x), v)) == x
  {
  }

  lemma {:induction false} UpRange1(x: Bits, v: Bits)
    requires v < 32 && x < 0x20
    ensures Plus(Up(x), v) < 0x400
  {
  }

  lemma {:induction false} UpRange2(x: Bits, v: Bits)
    requires v < 32 && x < 0x400
    ensures Plus(Up(x), v) < 0x8000
  {
  }

  lemma {:induction false} UpRange3(x: Bits, v: Bits)
    requires v < 32 && x < 0x8000
    ensures Plus(Up(x), v) < 0x10_0000
  {
  }

  lemma {:induction false} UpRange4(x: Bits, v: Bits)
    requires v < 32 && x < 0x10_0000
    ensures Plus(Up(x), v) < 0x200_0000
  {
  }

  lemma {:induction false} UpRange5(x: Bits, v: Bits)
    requires v < 32 && x < 0x200_0000
    ensures Plus(Up(x), v) < 0x4000_0000
  {
  }

  /** What a shifted-in group leaves. */
  lemma {:induction false} StepBack(x: Bits, v: Bits)
    requires x < 0x200_0000 && v < 32
    ensures Low(Step(x, v)) == v && Down(Step(x, v)) == x && Step(x, v) == Plus(Up(x), v)
  {
    hide Step, Plus, Up, Down, Low;
    StepShort(x, v);
    BackLow(x, v);
    BackHigh(x, v);
  }

  /** Six groups are those of their remainder. */
  lemma {:induction false} PackGroups(v: seq<Bits>)
    requires |v| == 6 && Fives(v)
    ensures Groups(PolyModFrom(0, v)) == v && PolyModFrom(0, v) < 0x4000_0000
  {
    hide Step, Down, Low, PolyModFrom, Plus, Up;
    SixSteps(0, v);
    StepOnZero(v[0]);
    var c1 := Step(v[0], v[1]);
    var c2 := Step(c1, v[2]);
    var c3 := Step(c2, v[3]);
    var c4 := Step(c3, v[4]);
    StepBack(v[0], v[1]);
    UpRange1(v[0], v[1]);
    StepBack(c1, v[2]);
    UpRange2(c1, v[2]);
    StepBack(c2, v[3]);
    UpRange3(c2, v[3]);
    StepBack(c3, v[4]);
    UpRange4(c3, v[4]);
    StepBack(c4, v[5]);
    UpRange5(c4, v[5]);
    SmallGroup(v[0]);
    assert v == [v[0], v[1], v[2], v[3], v[4], v[5]];
  }

  lemma {:induction false} SmallGroup(v: Bits)
    requires v < 32
    ensures Low(v) == v
  {
  }

  function ChecksumOf(k: Bits, v: seq<Bits>): (g: seq<Bits>)
    ensures |g| == 6
  {
    Groups(Plus(PolyModOf(v + Zeros(6)), k))
  }

  lemma {:induction false} GroupsAreFives(m: Bits)
    ensures Fives(Groups(m))
  {
    hide Low, Down;
    var m1 := Down(m);
    var m2 := Down(m1);
    var m3 := Down(m2);
    var m4 := Down(m3);
    LowIsFive(Down(m4));
    LowIsFive(m4);
    LowIsFive(m3);
    LowIsFive(m2);
    LowIsFive(m1);
    LowIsFive(m);
  }

  lemma {:induction false} LowIsFive(x: Bits)
    ensures Low(x) < 32
  {
  }

  lemma {:induction false} RemainderRange(v: seq<Bits>)
    requires Fives(v) && v != []
    ensures PolyModOf(v) < 0x4000_0000
  {
    hide Step;
    StepRange(PolyModFrom(1, v[..|v| - 1]), v[|v| - 1]);
  }

  lemma {:induction false} PlusRange(a: Bits, b: Bits)
    requires a < 0x4000_0000 && b < 0x4000_0000
    ensures Plus(a, b) < 0x4000_0000
  {
  }

  /** The last six values add their packed remainder. */
  lemma {:induction false} LastSix(v: seq<Bits>, g: seq<Bits>)
    requires |g| == 6
    ensures PolyModOf(v + g) == Plus(PolyModOf(v + Zeros(6)), PolyModFrom(0, g))
  {
    hide Step, Plus;
    var c := PolyModFrom(1, v);
    PolyModConcat(1, v, g);
    PolyModConcat(1, v, Zeros(6));
    PlusZero(c);
    forall i | 0 <= i < 6
      ensures Plus(Zeros(6)[i], g[i]) == g[i]
    {
      PlusZero(g[i]);
    }
    assert Xor(Zeros(6), g) == g;
    PolyModLinear(c, 0, Zeros(6), g);
  }

  /** A checksum brings the remainder to the constant. */
  lemma {:induction false} ChecksumVerifies(k: Bits, v: seq<Bits>)
    requires Fives(v) && k < 0x4000_0000
    ensures PolyModOf(v + ChecksumOf(k, v)) == k && Fives(ChecksumOf(k, v))
  {
    hide PolyModFrom, Plus, Groups;
    var r := PolyModOf(v + Zeros(6));
    RemainderRange(v + Zeros(6));
    PlusRange(r, k);
    GroupsPack(Plus(r, k));
    GroupsAreFives(Plus(r, k));
    LastSix(v, ChecksumOf(k, v));
    PlusTwice(r, k);
  }

  /** No other six values do. */
  lemma {:induction false} ChecksumUnique(k: Bits, v: seq<Bits>, g: seq<Bits>)
    requires |g| == 6 && Fives(g) && PolyModOf(v + g) == k
    ensures g == ChecksumOf(k, v)
  {
    hide PolyModFrom, Plus, Groups;
    var r := PolyModOf(v + Zeros(6));
    LastSix(v, g);
    PackGroups(g);
    PlusTwice(r, PolyModFrom(0, g));
  }
}
