/** The work that a block proves: the expected number of hashes for its target, or
    for the geometric mean of the targets of all active algorithms. */
module BlockWork {
  import opened Bits
  import opened Limbs
  import opened ArithSteps
  import opened Arith256
  import opened Compact
  import opened NthRoot
  import opened HeadersWork

  // ----- One target -------------------------------------------------------------------

  /** A target that is positive and fits. */
  predicate Accepted(c: Word) {
    0 < Denoted(c) < Modulus() && !SignOf(c)
  }

  lemma {:induction false} InverseValue(t: nat, m: nat)
    requires 0 < t && t + 1 < m
    ensures (m - 1 - t) / (t + 1) + 1 == m / (t + 1) < m && t + 1 <= m
  {
    var d := t + 1;
    var q, r := (m - d) / d, (m - d) % d;
    assert m - d == q * d + r;
    MulAdd(q, 1, d);
    DivMod(m, d, q + 1, r);
    MulMonotone(2, d, q + 1);
  }

  /** 2^256 / (t + 1), computed within 256 bits. */
  method Inverse(t: BaseUint) returns (r: BaseUint)
    requires t.Valid() && 0 < t.Int() && t.Int() + 1 < Modulus()
    ensures r.Valid() && fresh(r) && fresh(r.pn) && r.Int() == Modulus() / (t.Int() + 1)
  {
    hide Value, Base;
    var v := t.Int();
    InverseValue(v, Modulus());
    r := t.Complement();
    var d := new BaseUint.Copy(t);
    var one := new BaseUint(1);
    d.AddAssign(one);
    SmallMod(v + 1, Modulus());
    var ok := r.DivAssign(d);
    SmallMod(Modulus() / (v + 1), Modulus());
    r.AddAssign(one);
  }

  lemma {:induction false} DenotedGap(c: Word)
    requires Denoted(c) < Modulus()
    ensures Denoted(c) + 256 <= Modulus() && Modulus() > 256
  {
    hide Pow2;
    SmallPowers();
    Pow2Adds(8, 248);
    Pow2Monotone(24, 248);
    if SizeOf(c) <= 3 {
      ShiftedWord(MantissaOf(c), 3 - SizeOf(c));
    } else {
      Pow2Adds(8, 8 * (SizeOf(c) - 4));
      Multiples(MantissaOf(c), Pow256(SizeOf(c) - 4), Pow2(248));
    }
  }

  lemma {:induction false} Multiples(m: nat, a: nat, b: nat)
    requires m * (256 * a) < 256 * b
    ensures m * (256 * a) + 256 <= 256 * b
  {
    assert m * (256 * a) == 256 * (m * a);
  }

  method GetBlockProofBase(nBits: Word) returns (r: BaseUint)
    ensures r.Valid() && fresh(r) && fresh(r.pn)
    ensures r.Int() == if Accepted(nBits) then Modulus() / (Denoted(nBits) + 1) else 0
  {
    hide Value, Base, Denoted;
    var target := new BaseUint(0);
    var negative, overflow := SetCompact(target, nBits);
    if !overflow {
      SmallMod(Denoted(nBits), Modulus());
      DenotedGap(nBits);
    }
    var zero := target.EqualTo(0);
    if negative || overflow || zero {
      r := new BaseUint(0);
      return;
    }
    r := Inverse(target);
  }

  // ----- The mean of several targets -----------------------------------------------------

  function Product(s: seq<nat>): nat {
    if s == [] then 1 else Product(s[..|s| - 1]) * s[|s| - 1]
  }

  /** The n-th powers bound the product: at most n roots of numbers up to `top`
      multiply to at most `top`. */
  lemma {:induction false} ProductBound(roots: seq<nat>, n: nat, top: nat)
    requires |roots| <= n && n > 0 && top > 0 && forall r <- roots :: Power(r, n) <= top
    ensures Product(roots) <= top
  {
    hide Power;
    ProductPower(roots, n, top);
    PowerLonger(top, |roots|, n);
    if Product(roots) > top {
      PowerStrict(top, Product(roots), n);
    }
  }

  lemma {:induction false} ProductPower(roots: seq<nat>, n: nat, top: nat)
    requires forall r <- roots :: Power(r, n) <= top
    ensures Power(Product(roots), n) <= Power(top, |roots|)
  {
    hide Power;
    if roots == [] {
      PowerOfOne(n);
      PowerZero(top);
    } else {
      var k := |roots| - 1;
      var rest, last := roots[..k], roots[k];
      assert last in roots;
      ProductPower(rest, n, top);
      PowerOfProduct(Product(rest), last, n);
      MulBoth(Power(Product(rest), n), Power(top, k), Power(last, n), top);
      PowerMore(top, k);
    }
  }

  lemma {:induction false} PowerOfOne(n: nat)
    ensures Power(1, n) == 1
  {
    if n > 0 {
      PowerOfOne(n - 1);
    }
  }

  lemma {:induction false} PowerZero(b: nat)
    ensures Power(b, 0) == 1
  {
  }

  lemma {:induction false} ProductPositive(roots: seq<nat>)
    requires forall i :: 0 <= i < |roots| ==> roots[i] > 0
    ensures Product(roots) > 0
  {
    if roots != [] {
      ProductPositive(roots[..|roots| - 1]);
      MulBoth(1, Product(roots[..|roots| - 1]), 1, roots[|roots| - 1]);
    }
  }

  lemma {:induction false} ProductMore(roots: seq<nat>, r: nat)
    ensures Product(roots + [r]) == Product(roots) * r
  {
    assert (roots + [r])[..|roots|] == roots;
  }

  /** The roots of the required targets of the active algorithms below i. */
  ghost predicate RootsBelow(p: Params, parentHeight: int, required: int -> Word, roots: seq<nat>, i: nat) {
    if i == 0 then roots == []
    else if !IsAlgoActive(p, parentHeight, i - 1) then RootsBelow(p, parentHeight, required, roots, i - 1)
    else
      && roots != [] && Accepted(required(i - 1)) && IsRoot(roots[|roots| - 1], Denoted(required(i - 1)), NUM_ALGOS)
      && RootsBelow(p, parentHeight, required, roots[..|roots| - 1], i - 1)
  }

  function ActiveBelow(p: Params, parentHeight: int, i: nat): nat {
    if i == 0 then 0 else ActiveBelow(p, parentHeight, i - 1) + if IsAlgoActive(p, parentHeight, i - 1) then 1 else 0
  }

  /** At no height are more than five of the eight algorithms active. */
  lemma {:induction false} ActiveAtMost(p: Params, parentHeight: int, i: nat)
    requires i <= NUM_ALGOS_IMPL
    ensures ActiveBelow(p, parentHeight, i) <= NUM_ALGOS
  {
    if i > 5 {
      ActiveAtMost(p, parentHeight, i - 1);
      assert ActiveBelow(p, parentHeight, 1) <= 1 && ActiveBelow(p, parentHeight, 2) <= 2;
      assert ActiveBelow(p, parentHeight, 3) - ActiveBelow(p, parentHeight, 2) <= 1;
      assert ActiveBelow(p, parentHeight, 4) - ActiveBelow(p, parentHeight, 3) <= 1;
      assert ActiveBelow(p, parentHeight, 5) - ActiveBelow(p, parentHeight, 4) <= 1;
      assert ActiveBelow(p, parentHeight, 6) == ActiveBelow(p, parentHeight, 5);
      assert ActiveBelow(p, parentHeight, 7) == ActiveBelow(p, parentHeight, 6);
      assert IsAlgoActive(p, parentHeight, 7) ==> !IsAlgoActive(p, parentHeight, 2);
    } else if i > 0 {
      ActiveFew(p, parentHeight, i);
    }
  }

  lemma {:induction false} ActiveFew(p: Params, parentHeight: int, i: nat)
    ensures ActiveBelow(p, parentHeight, i) <= i
  {
    if i > 0 {
      ActiveFew(p, parentHeight, i - 1);
    }
  }

  /** Roots are positive, few enough, and small enough to be multiplied. */
  lemma {:induction false} RootsFit(p: Params, parentHeight: int, required: int -> Word, roots: seq<nat>, i: nat)
    requires i <= NUM_ALGOS_IMPL && RootsBelow(p, parentHeight, required, roots, i)
    ensures |roots| <= NUM_ALGOS && Modulus() > 256 && 0 < Product(roots) <= Modulus() - 256
  {
    hide Power, Pow2, IsAlgoActive;
    RootsCount(p, parentHeight, required, roots, i);
    ActiveAtMost(p, parentHeight, i);
    ModulusLarge();
    ProductBound(roots, NUM_ALGOS, Modulus() - 256);
    assert forall i :: 0 <= i < |roots| ==> roots[i] in roots;
    ProductPositive(roots);
  }

  lemma {:induction false} ModulusLarge()
    ensures Modulus() > 256
  {
    hide Pow2;
    SmallPowers();
    Pow2Monotone(24, 256);
  }

  lemma {:induction false} RootsCount(p: Params, parentHeight: int, required: int -> Word, roots: seq<nat>, i: nat)
    requires RootsBelow(p, parentHeight, required, roots, i)
    ensures |roots| == ActiveBelow(p, parentHeight, i)
    ensures forall r <- roots :: r > 0 && Modulus() > 256 && Power(r, NUM_ALGOS) <= Modulus() - 256
  {
    hide Power, Pow2, IsAlgoActive, Denoted;
    if i > 0 {
      if IsAlgoActive(p, parentHeight, i - 1) {
        var k := |roots| - 1;
        RootsCount(p, parentHeight, required, roots[..k], i - 1);
        assert roots == roots[..k] + [roots[k]];
        RootBounds(roots[k], Denoted(required(i - 1)));
        DenotedGap(required(i - 1));
      } else {
        RootsCount(p, parentHeight, required, roots, i - 1);
      }
    }
  }

  /** The root of a positive number is positive. */
  lemma {:induction false} RootBounds(r: nat, v: nat)
    requires IsRoot(r, v, NUM_ALGOS) && v > 0
    ensures r > 0 && Power(r, NUM_ALGOS) <= v
  {
    hide Power, Pow2, Shifts;
    var length: nat :| HasLength(v, length) && Power(r, NUM_ALGOS) <= v < Power(r + Pow2(Shifts(length, NUM_ALGOS)), NUM_ALGOS);
    var k := Shifts(length, NUM_ALGOS);
    PowerOfPow2(k, NUM_ALGOS);
    FewShifts(length);
    Pow2Monotone(NUM_ALGOS * k, length - 1);
  }

  lemma {:induction false} FewShifts(length: nat)
    requires length > 0
    ensures NUM_ALGOS * Shifts(length, NUM_ALGOS) <= length - 1
  {
  }

  // ----- The work of a block ---------------------------------------------------------------

  function WorkFactor(p: Params, height: int, algo: int): Word {
    if height < p.multiAlgoHeight then 1
    else if algo == ALGO_SCRYPT then 4096
    else if algo == ALGO_GROESTL then 512
    else if algo == ALGO_SKEIN then 24
    else if algo == ALGO_QUBIT then 1024
    else 1
  }

  /** Once there are several algorithms, one hash of Scrypt counts for 4096 of SHA-256,
      one of Groestl for 512, of Skein for 24 and of Qubit for 1024. */
  lemma {:induction false} FactorsExact(p: Params, height: int, algo: int)
    ensures height >= p.multiAlgoHeight ==>
              && WorkFactor(p, height, ALGO_SHA256D) == 1 && WorkFactor(p, height, ALGO_SCRYPT) == 1024 * 4
              && WorkFactor(p, height, ALGO_GROESTL) == 64 * 8 && WorkFactor(p, height, ALGO_SKEIN) == 4 * 6
              && WorkFactor(p, height, ALGO_QUBIT) == 128 * 8 && WorkFactor(p, height, ALGO_ODO) == 1
    ensures height < p.multiAlgoHeight ==> WorkFactor(p, height, algo) == 1
  {
  }

  /** Are the required targets of all active algorithms usable? */
  predicate AllAccepted(p: Params, parentHeight: int, required: int -> Word) {
    forall a :: 0 <= a < NUM_ALGOS_IMPL && IsAlgoActive(p, parentHeight, a) ==> Accepted(required(a))
  }

  /** The product of the roots of the active targets; nothing if one is unusable. */
  method MeanTarget(p: Params, parentHeight: int, required: int -> Word) returns (ok: bool, avg: BaseUint, ghost roots: seq<nat>)
    ensures avg.Valid() && fresh(avg) && fresh(avg.pn)
    ensures ok <==> AllAccepted(p, parentHeight, required)
    ensures ok ==> RootsBelow(p, parentHeight, required, roots, NUM_ALGOS_IMPL) && avg.Int() == Product(roots)
  {
    hide Value, Base, Pow2, Power, Denoted, IsAlgoActive, Product, IsRoot, RootsBelow;
    avg := new BaseUint(1);
    roots := [];
    NoRoots(p, parentHeight, required);
    for i := 0 to NUM_ALGOS_IMPL
      invariant avg.Valid() && fresh(avg) && fresh(avg.pn)
      invariant RootsBelow(p, parentHeight, required, roots, i) && avg.Int() == Product(roots)
      invariant forall a :: 0 <= a < i && IsAlgoActive(p, parentHeight, a) ==> Accepted(required(a))
    {
      NextRoot(p, parentHeight, required, roots, i);
      if IsAlgoActive(p, parentHeight, i) {
        var target := new BaseUint(0);
        var negative, overflow := SetCompact(target, required(i));
        if !overflow {
          SmallMod(Denoted(required(i)), Modulus());
        }
        var zero := target.EqualTo(0);
        if negative || overflow || zero {
          return false, avg, roots;
        }
        var root, shifts := ApproxNthRoot(target, NUM_ALGOS);
        RootFound(root.Int(), target.Int(), shifts);
        ghost var more := roots + [root.Int()];
        assert more[..|roots|] == roots;
        RootsFit(p, parentHeight, required, more, i + 1);
        ProductMore(roots, root.Int());
        SmallMod(Product(more), Modulus());
        avg.MulAssign(root);
        roots := more;
      }
    }
    ok := true;
  }

  lemma {:induction false} NoRoots(p: Params, parentHeight: int, required: int -> Word)
    ensures RootsBelow(p, parentHeight, required, [], 0) && Product([]) == 1
  {
  }

  lemma {:induction false} RootFound(r: nat, v: nat, shifts: nat)
    requires Power(r, NUM_ALGOS) <= v < Power(r + Pow2(shifts), NUM_ALGOS)
    requires exists length :: HasLength(v, length) && shifts == Shifts(length, NUM_ALGOS)
    requires r % Pow2(shifts) == 0
    ensures IsRoot(r, v, NUM_ALGOS)
  {
  }

  lemma {:induction false} NextRoot(p: Params, parentHeight: int, required: int -> Word, roots: seq<nat>, i: nat)
    requires RootsBelow(p, parentHeight, required, roots, i)
    ensures !IsAlgoActive(p, parentHeight, i) ==> RootsBelow(p, parentHeight, required, roots, i + 1)
    ensures forall r: nat :: IsAlgoActive(p, parentHeight, i) && Accepted(required(i)) && IsRoot(r, Denoted(required(i)), NUM_ALGOS) ==>
              RootsBelow(p, parentHeight, required, roots + [r], i + 1)
  {
    hide IsRoot, Accepted, IsAlgoActive, Denoted;
    forall r: nat | IsAlgoActive(p, parentHeight, i) && Accepted(required(i)) && IsRoot(r, Denoted(required(i)), NUM_ALGOS)
      ensures RootsBelow(p, parentHeight, required, roots + [r], i + 1)
    {
      assert (roots + [r])[..|roots|] == roots;
    }
  }

  /** The roots, and with them the mean and the work of a block, are determined by the
      required targets. */
  lemma {:induction false} WorkDetermined(p: Params, parentHeight: int, required: int -> Word, a: seq<nat>, b: seq<nat>, i: nat)
    requires RootsBelow(p, parentHeight, required, a, i) && RootsBelow(p, parentHeight, required, b, i)
    ensures a == b
  {
    hide IsRoot, Accepted, IsAlgoActive, Denoted;
    if i > 0 {
      if IsAlgoActive(p, parentHeight, i - 1) {
        var j, k := |a| - 1, |b| - 1;
        WorkDetermined(p, parentHeight, required, a[..j], b[..k], i - 1);
        RootDetermined(a[j], b[k], Denoted(required(i - 1)), NUM_ALGOS);
        assert a == a[..j] + [a[j]] && b == b[..k] + [b[k]];
      } else {
        WorkDetermined(p, parentHeight, required, a, b, i - 1);
      }
    }
  }

  /** The scaling by 2^7 loses bits exactly when the mean target is below 128. */
  lemma {:induction false} ScaleExact(avg: nat)
    requires 0 < avg && avg + 1 < Modulus()
    ensures Modulus() / (avg + 1) * 128 % Modulus() == Modulus() / (avg + 1) * 128 <==> avg >= 128
  {
    hide Pow2;
    var m, d := Modulus(), avg + 1;
    InverseValue(avg, m);
    Scaled(m);
    ScaleBound(m, d, m / d, m % d);
    if avg >= 128 {
      SmallMod(m / d * 128, m);
    }
  }

  lemma {:induction false} ScaleBound(m: nat, d: nat, q: nat, r: nat)
    requires m == q * d + r && r < d < m && m % 128 == 0
    ensures q * 128 < m <==> d > 128
  {
    if d > 128 {
      assert q >= 1;
      MulMonotone(129, d, q);
    } else {
      MulMonotone(d, 128, q + 1);
      MulAdd(q, 1, d);
      var k := m / 128;
      assert m == k * 128;
    }
  }

  lemma {:induction false} Scaled(m: nat)
    requires m == Modulus()
    ensures m % 128 == 0
  {
    hide Pow2;
    SmallPowers();
    Pow2Adds(7, 249);
  }

  // ----- When the scaling loses bits -----------------------------------------------------

  /** The largest number up to `top` whose fifth power is at most v. */
  function FifthRoot(v: nat, top: nat): nat {
    if top == 0 || Power(top, NUM_ALGOS) <= v then top else FifthRoot(v, top - 1)
  }

  /** The exact fifth roots of the required targets of the active algorithms below i. */
  function ExactRoots(p: Params, parentHeight: int, required: int -> Word, i: nat): seq<nat> {
    if i == 0 then []
    else if !IsAlgoActive(p, parentHeight, i - 1) then ExactRoots(p, parentHeight, required, i - 1)
    else
      ExactRoots(p, parentHeight, required, i - 1) + [FifthRoot(Denoted(required(i - 1)), Denoted(required(i - 1)))]
  }

  lemma {:induction false} FifthRootIs(v: nat, top: nat)
    requires v < Power(top + 1, NUM_ALGOS)
    ensures var r := FifthRoot(v, top); Power(r, NUM_ALGOS) <= v < Power(r + 1, NUM_ALGOS)
  {
    hide Power;
    if top == 0 {
      PowerOfNone();
    } else if Power(top, NUM_ALGOS) > v {
      FifthRootIs(v, top - 1);
    }
  }

  lemma {:induction false} PowerOfNone()
    ensures Power(0, NUM_ALGOS) == 0
  {
  }

  lemma {:induction false} RootUnique(a: nat, b: nat, v: nat)
    requires Power(a, NUM_ALGOS) <= v < Power(a + 1, NUM_ALGOS) && Power(b, NUM_ALGOS) <= v < Power(b + 1, NUM_ALGOS)
    ensures a == b
  {
    hide Power;
    if a < b {
      PowerMonotone(a + 1, b, NUM_ALGOS);
    } else if b < a {
      PowerMonotone(b + 1, a, NUM_ALGOS);
    }
  }

  /** Digits are given up only for roots above 128. */
  lemma {:induction false} SmallRoot(r: nat, v: nat, length: nat)
    requires v > 0 && HasLength(v, length) && v < Power(r + Pow2(Shifts(length, NUM_ALGOS)), NUM_ALGOS)
    requires r < 128 || v < Power(128, NUM_ALGOS)
    ensures Shifts(length, NUM_ALGOS) == 0
  {
    hide Power, Pow2, Shifts;
    var k := Shifts(length, NUM_ALGOS);
    if k > 0 {
      ShiftsMean(length);
      var q := k + 11;
      Pow2Monotone(NUM_ALGOS * q, length - 1);
      PowerOfPow2(q, NUM_ALGOS);
      assert Power(Pow2(q), NUM_ALGOS) <= v;
      ElevenMore(k);
      if r < 128 {
        PowerMonotone(r + Pow2(k), Pow2(q), NUM_ALGOS);
      } else {
        PowerMonotone(128, Pow2(q), NUM_ALGOS);
      }
    }
  }

  lemma {:induction false} ShiftsMean(length: nat)
    requires length > 0 && Shifts(length, NUM_ALGOS) > 0
    ensures NUM_ALGOS * (Shifts(length, NUM_ALGOS) + 11) <= length - 1
  {
  }

  lemma {:induction false} ElevenMore(k: nat)
    ensures Pow2(k + 11) >= 128 + Pow2(k)
  {
    hide Pow2;
    Seven();
    Pow2Monotone(0, k);
    Pow2Monotone(7, 11);
    Pow2Adds(k, 11);
    Pow2Adds(7, 4);
    FirstPowers();
    Four();
    MulMonotone(1, Pow2(k), 2048);
  }

  lemma {:induction false} Four()
    ensures Pow2(4) == 16
  {
  }

  lemma {:induction false} RootExact(r: nat, v: nat)
    requires v > 0 && IsRoot(r, v, NUM_ALGOS)
    ensures r < 128 || FifthRoot(v, v) < 128 ==> r == FifthRoot(v, v)
  {
    hide Power, Pow2, Shifts, FifthRoot;
    PowerAtLeast(v + 1);
    FifthRootIs(v, v);
    var exact := FifthRoot(v, v);
    if r < 128 || exact < 128 {
      if exact < 128 {
        PowerMonotone(exact + 1, 128, NUM_ALGOS);
      }
      var length: nat :| HasLength(v, length) && Power(r, NUM_ALGOS) <= v < Power(r + Pow2(Shifts(length, NUM_ALGOS)), NUM_ALGOS);
      SmallRoot(r, v, length);
      FirstPowers();
      RootUnique(r, exact, v);
    }
  }

  lemma {:induction false} PowerAtLeast(b: nat)
    requires b > 0
    ensures b <= Power(b, NUM_ALGOS)
  {
    hide Power;
    PowerOne(b);
    PowerLonger(b, 1, NUM_ALGOS);
  }

  lemma {:induction false} ExactMatch(p: Params, parentHeight: int, required: int -> Word, roots: seq<nat>, i: nat)
    requires RootsBelow(p, parentHeight, required, roots, i)
    ensures var exact := ExactRoots(p, parentHeight, required, i);
            (forall r <- roots :: r < 128) || (forall r <- exact :: r < 128) ==> roots == exact
  {
    hide Power, Pow2, IsAlgoActive, Denoted, FifthRoot, IsRoot;
    if i > 0 {
      if IsAlgoActive(p, parentHeight, i - 1) {
        var k := |roots| - 1;
        var v := Denoted(required(i - 1));
        var exact := ExactRoots(p, parentHeight, required, i - 1);
        assert roots == roots[..k] + [roots[k]];
        ExactMatch(p, parentHeight, required, roots[..k], i - 1);
        RootExact(roots[k], v);
        SplitBelow(roots[..k], roots[k]);
        SplitBelow(exact, FifthRoot(v, v));
      } else {
        ExactMatch(p, parentHeight, required, roots, i - 1);
      }
    }
  }

  lemma {:induction false} SplitBelow(s: seq<nat>, x: nat)
    ensures (forall r <- s + [x] :: r < 128) <==> (forall r <- s :: r < 128) && x < 128
  {
    assert x in s + [x] && forall r <- s :: r in s + [x];
  }

  /** No factor of a product of positive numbers is larger than the product. */
  lemma {:induction false} FactorsBelow(roots: seq<nat>, bound: nat)
    requires (forall r <- roots :: r > 0) && Product(roots) < bound
    ensures forall r <- roots :: r < bound
  {
    if roots != [] {
      var k := |roots| - 1;
      var rest, last := roots[..k], roots[k];
      assert roots == rest + [last];
      assert forall r <- rest :: r in roots;
      assert last in roots && forall i :: 0 <= i < k ==> rest[i] in roots;
      ProductPositive(rest);
      MulBoth(1, Product(rest), last, last);
      MulBoth(Product(rest), Product(rest), 1, last);
      FactorsBelow(rest, bound);
    }
  }

  lemma {:induction false} ExactPositive(p: Params, parentHeight: int, required: int -> Word, roots: seq<nat>, i: nat)
    requires RootsBelow(p, parentHeight, required, roots, i)
    ensures forall r <- ExactRoots(p, parentHeight, required, i) :: r > 0
  {
    hide Power, Pow2, IsAlgoActive, Denoted, FifthRoot, IsRoot;
    if i > 0 {
      if IsAlgoActive(p, parentHeight, i - 1) {
        var v := Denoted(required(i - 1));
        ExactPositive(p, parentHeight, required, roots[..|roots| - 1], i - 1);
        PositiveRoot(v);
        var rest := ExactRoots(p, parentHeight, required, i - 1);
        assert ExactRoots(p, parentHeight, required, i) == rest + [FifthRoot(v, v)];
      } else {
        ExactPositive(p, parentHeight, required, roots, i - 1);
      }
    }
  }

  lemma {:induction false} PositiveRoot(v: nat)
    requires v > 0
    ensures FifthRoot(v, v) > 0
  {
    hide Power, FifthRoot;
    PowerAtLeast(v + 1);
    FifthRootIs(v, v);
    PowerOfOne(NUM_ALGOS);
  }

  /** The mean is small exactly if the product of the exact roots is: a condition on the
      required targets alone. */
  lemma {:induction false} MeanSmall(p: Params, parentHeight: int, required: int -> Word, roots: seq<nat>)
    requires RootsBelow(p, parentHeight, required, roots, NUM_ALGOS_IMPL)
    ensures Product(roots) < 128 <==> Product(ExactRoots(p, parentHeight, required, NUM_ALGOS_IMPL)) < 128
  {
    hide Product, RootsBelow, ExactRoots;
    var exact := ExactRoots(p, parentHeight, required, NUM_ALGOS_IMPL);
    RootsCount(p, parentHeight, required, roots, NUM_ALGOS_IMPL);
    ExactPositive(p, parentHeight, required, roots, NUM_ALGOS_IMPL);
    ExactMatch(p, parentHeight, required, roots, NUM_ALGOS_IMPL);
    if Product(roots) < 128 {
      FactorsBelow(roots, 128);
    }
    if Product(exact) < 128 {
      FactorsBelow(exact, 128);
    }
  }

  /** For instance required targets of 1: every one is accepted, every root is 1, and
      all bits of the work are lost. */
  lemma {:induction false} WorkLost(p: Params, parentHeight: int, required: int -> Word, roots: seq<nat>)
    requires forall a :: required(a) == 0x0101_0000
    requires RootsBelow(p, parentHeight, required, roots, NUM_ALGOS_IMPL)
    ensures AllAccepted(p, parentHeight, required)
    ensures Product(roots) == 1 && Modulus() / (Product(roots) + 1) * 128 % Modulus() == 0
  {
    hide Pow2, Power, RootsBelow, IsAlgoActive, Denoted;
    TargetOfOne();
    OneRoots(p, parentHeight, required, roots, NUM_ALGOS_IMPL);
    HalfLost();
  }

  lemma {:induction false} TargetOfOne()
    ensures Denoted(0x0101_0000) == 1 && Accepted(0x0101_0000)
  {
    hide Pow2;
    SmallPowers();
    ModulusLarge();
  }

  lemma {:induction false} HalfLost()
    ensures Modulus() / 2 * 128 % Modulus() == 0
  {
    hide Pow2;
    FirstPowers();
    Pow2Adds(1, 255);
    var h := Pow2(255);
    assert Modulus() == 2 * h;
    DivMod(64 * (2 * h), 2 * h, 64, 0);
  }

  lemma {:induction false} OneRoots(p: Params, parentHeight: int, required: int -> Word, roots: seq<nat>, i: nat)
    requires RootsBelow(p, parentHeight, required, roots, i) && forall a :: Denoted(required(a)) == 1
    ensures Product(roots) == 1
  {
    hide Power, Pow2, IsAlgoActive, Denoted, IsRoot;
    if i > 0 {
      if IsAlgoActive(p, parentHeight, i - 1) {
        var k := |roots| - 1;
        OneRoots(p, parentHeight, required, roots[..k], i - 1);
        RootOfOne(roots[k]);
      } else {
        OneRoots(p, parentHeight, required, roots, i - 1);
      }
    }
  }

  lemma {:induction false} RootOfOne(r: nat)
    requires IsRoot(r, 1, NUM_ALGOS)
    ensures r == 1
  {
    hide Power, IsRoot;
    RootBounds(r, 1);
    if r > 1 {
      PowerAtLeast(r);
    }
  }

  method GetBlockProof(p: Params, height: int, version: int, nBits: Word, required: int -> Word)
    returns (r: BaseUint, ghost roots: seq<nat>)
    ensures r.Valid()
    ensures height < p.workChangeHeight ==>
              r.Int() == (if Accepted(nBits) then Modulus() / (Denoted(nBits) + 1) else 0)
                         * WorkFactor(p, height, AlgoOf(version)) % Modulus()
    ensures height >= p.workChangeHeight && !AllAccepted(p, height - 1, required) ==> r.Int() == 0
    ensures height >= p.workChangeHeight && AllAccepted(p, height - 1, required) ==>
              && RootsBelow(p, height - 1, required, roots, NUM_ALGOS_IMPL)
              && r.Int() == Modulus() / (Product(roots) + 1) * 128 % Modulus()
              && (r.Int() == Modulus() / (Product(roots) + 1) * 128 <==>
                  Product(ExactRoots(p, height - 1, required, NUM_ALGOS_IMPL)) >= 128)
  {
    hide Value, Base, Pow2, Power, Denoted, AllAccepted, Product, RootsBelow, ExactRoots;
    roots := [];
    if height < p.workChangeHeight {
      r := GetBlockProofBase(nBits);
      r.MulWord(WorkFactor(p, height, AlgoOf(version)));
      return;
    }
    var ok, avg;
    ok, avg, roots := MeanTarget(p, height - 1, required);
    if !ok {
      r := new BaseUint(0);
      return;
    }
    RootsFit(p, height - 1, required, roots, NUM_ALGOS_IMPL);
    MeanSmall(p, height - 1, required, roots);
    ScaleExact(avg.Int());
    r := Inverse(avg);
    Seven();
    r.ShiftLeft(7);
  }

  lemma {:induction false} Seven()
    ensures Pow2(7) == 128
  {
    SmallPowers();
  }
}
