/** The heights that skip links lead to, and how long a walk over them is: at most
    quadratic in the number of binary digits of the height, and no less. */
module SkipWalk {
  import opened Integers
  import opened Bits

  // ----- Skip heights --------------------------------------------------------------

  /** Turn the lowest '1' bit into '0'. */
  function InvertLowestOne(n: nat): nat {
    if n == 0 then 0 else And(n, n - 1)
  }

  lemma {:induction false} InvertLower(n: nat)
    requires n > 0
    ensures InvertLowestOne(n) < n
  {
    if n % 2 == 1 {
      AndSelf(n / 2);
    } else {
      assert (n - 1) / 2 == n / 2 - 1;
      InvertLower(n / 2);
    }
  }

  lemma {:induction false} AndSelf(n: nat)
    ensures And(n, n) == n
  {
    if n > 0 {
      AndSelf(n / 2);
      DigitSquare(n % 2);
    }
  }

  lemma {:induction false} DigitSquare(d: nat)
    requires d < 2
    ensures d * d == d
  {
    if d == 0 {
      assert 0 * 0 == 0;
    } else {
      assert 1 * 1 == 1;
    }
  }

  function SkipHeight(height: int): nat {
    if height < 2 then 0
    else if height % 2 == 1 then InvertLowestOne(InvertLowestOne(height - 1)) + 1
    else InvertLowestOne(height)
  }

  /** A skip goes back. */
  lemma {:induction false} SkipLower(height: nat)
    requires height > 0
    ensures SkipHeight(height) < height
  {
    if height >= 2 {
      if height % 2 == 1 {
        InvertLower(height - 1);
        if InvertLowestOne(height - 1) > 0 {
          InvertLower(InvertLowestOne(height - 1));
        }
      } else {
        InvertLower(height);
      }
    }
  }

  // ----- Clearing the lowest one -------------------------------------------------------

  lemma {:induction false} InvertOdd(n: nat)
    ensures InvertLowestOne(2 * n + 1) == 2 * n
  {
    AndSelf(n);
    assert (2 * n + 1) / 2 == n && 2 * n / 2 == n;
  }

  lemma {:induction false} InvertEven(n: nat)
    ensures InvertLowestOne(2 * n) == 2 * InvertLowestOne(n)
  {
    if n > 0 {
      assert 2 * n / 2 == n && (2 * n - 1) / 2 == n - 1;
    }
  }

  lemma {:induction false} InvertAtMost(n: nat)
    ensures InvertLowestOne(n) <= n && (n > 0 ==> InvertLowestOne(n) < n)
  {
    if n > 0 {
      InvertLower(n);
    }
  }

  /** The number of ones in the binary representation. */
  function Ones(n: nat): nat {
    if n == 0 then 0 else Ones(n / 2) + n % 2
  }

  lemma {:induction false} OnesOfHalf(n: nat)
    ensures Ones(2 * n) == Ones(n) && Ones(2 * n + 1) == Ones(n) + 1
  {
    assert 2 * n / 2 == n && (2 * n + 1) / 2 == n;
  }

  lemma {:induction false} OnesInvert(n: nat)
    requires n > 0
    ensures Ones(n) > 0 && Ones(InvertLowestOne(n)) == Ones(n) - 1
  {
    hide InvertLowestOne;
    var m := n / 2;
    OnesOfHalf(m);
    if n % 2 == 1 {
      InvertOdd(m);
    } else {
      InvertEven(m);
      OnesInvert(m);
      OnesOfHalf(InvertLowestOne(m));
    }
  }

  lemma {:induction false} NoOnes(n: nat)
    requires Ones(n) == 0
    ensures n == 0
  {
    if n > 0 {
      OnesInvert(n);
    }
  }

  lemma {:induction false} OnesAtMost(x: nat, b: nat)
    requires x < Pow2(b)
    ensures Ones(x) <= b
  {
    if b > 0 {
      OnesAtMost(x / 2, b - 1);
    }
  }

  /** Where the numbers above and below do not overlap, only the lower one changes. */
  lemma {:induction false} InvertAdd(m: nat, x: nat, k: nat)
    requires 0 < x < Pow2(k)
    ensures InvertLowestOne(m * Pow2(k) + x) == m * Pow2(k) + InvertLowestOne(x)
  {
    hide InvertLowestOne;
    var c, y := m * Pow2(k - 1), x / 2;
    assert m * Pow2(k) == 2 * c;
    if x % 2 == 1 {
      InvertOdd(c + y);
      InvertOdd(y);
    } else {
      InvertAdd(m, y, k - 1);
      InvertEven(c + y);
      InvertEven(y);
    }
  }

  lemma {:induction false} InvertShifted(m: nat, k: nat)
    ensures InvertLowestOne(m * Pow2(k)) == InvertLowestOne(m) * Pow2(k)
  {
    hide InvertLowestOne;
    if k > 0 {
      InvertShifted(m, k - 1);
      InvertEven(m * Pow2(k - 1));
      assert m * Pow2(k) == 2 * (m * Pow2(k - 1));
      assert InvertLowestOne(m) * Pow2(k) == 2 * (InvertLowestOne(m) * Pow2(k - 1));
    }
  }

  // ----- The walk ------------------------------------------------------------------------

  /** Where a walk to height t goes from height h. */
  function Next(h: nat, t: nat): (n: nat)
    requires t < h
    ensures t <= n < h
  {
    SkipLower(h);
    var skip, skipPrev := SkipHeight(h), SkipHeight(h - 1);
    if skip == t || (skip > t && !(skipPrev < skip - 2 && skipPrev >= t)) then skip else h - 1
  }

  /** How many links a walk follows. */
  function Steps(h: nat, t: nat): nat
    decreases h
  {
    if h <= t then 0 else 1 + Steps(Next(h, t), t)
  }

  lemma {:induction false} OneStep(t: nat)
    ensures Steps(t + 1, t) == 1
  {
    assert Next(t + 1, t) == t;
  }

  lemma {:induction false} OneMore(h: nat, t: nat)
    requires t < h
    ensures Steps(h, t) == 1 + Steps(Next(h, t), t)
  {
  }

  /** From an odd height the skip link is taken whenever it does not go too far. */
  lemma {:induction false} OddNext(h: nat, t: nat)
    requires t < h && h % 2 == 1
    ensures Next(h, t) == if SkipHeight(h) >= t then SkipHeight(h) else h - 1
  {
    hide InvertLowestOne;
    if h > 1 {
      InvertAtMost(InvertLowestOne(h - 1));
    }
  }

  /** From an even height it may be better to take the one of the parent. */
  lemma {:induction false} EvenSteps(h: nat, t: nat)
    requires h % 2 == 0 && t < InvertLowestOne(h)
    ensures h >= 2 && InvertLowestOne(h) < h
    ensures var skip, better := InvertLowestOne(h), SkipHeight(h - 1);
            Steps(h, t) == if better < skip - 2 && better >= t then 2 + Steps(better, t) else 1 + Steps(skip, t)
  {
    hide InvertLowestOne, Steps;
    InvertAtMost(h);
    OneMore(h, t);
    var better := SkipHeight(h - 1);
    if better < InvertLowestOne(h) - 2 && better >= t {
      OddNext(h - 1, t);
      OneMore(h - 1, t);
    }
  }

  // ----- Between two milestones ------------------------------------------------------------

  /** The heights m * 2^(b + 1) and, halfway to the next multiple, the milestone. */
  function Base(m: nat, b: nat): nat {
    2 * m * Pow2(b)
  }

  function Milestone(m: nat, b: nat): nat {
    Base(m, b) + Pow2(b)
  }

  lemma {:induction false} InvertAbove(m: nat, b: nat, x: nat)
    requires 0 < x < Pow2(b)
    ensures InvertLowestOne(Milestone(m, b) + x) == Milestone(m, b) + InvertLowestOne(x)
  {
    hide InvertLowestOne;
    assert Milestone(m, b) == (2 * m + 1) * Pow2(b);
    InvertAdd(2 * m + 1, x, b);
  }

  lemma {:induction false} InvertMilestone(m: nat, b: nat)
    ensures InvertLowestOne(Milestone(m, b)) == Base(m, b)
  {
    hide InvertLowestOne;
    assert Milestone(m, b) == (2 * m + 1) * Pow2(b);
    InvertShifted(2 * m + 1, b);
    InvertOdd(m);
  }

  /** Two ones below the base: 0 at the bottom, else below the base itself. */
  lemma {:induction false} InvertBase(m: nat, b: nat)
    ensures if m == 0 then Base(m, b) == 0 && InvertLowestOne(Base(m, b)) == 0
            else InvertLowestOne(Base(m, b)) + 1 < Base(m, b)
  {
    hide InvertLowestOne;
    InvertShifted(2 * m, b);
    InvertEven(m);
    InvertAtMost(m);
    if m == 0 {
      assert 2 * m * Pow2(b) == 0;
      InvertEven(0);
      InvertZero();
    } else {
      var i := InvertLowestOne(m);
      assert 2 * m * Pow2(b) - 2 * i * Pow2(b) == (2 * m - 2 * i) * Pow2(b);
      MulMonotone(2, 2 * m - 2 * i, Pow2(b));
      Pow2Positive(b);
    }
  }

  lemma {:induction false} InvertZero()
    ensures InvertLowestOne(0) == 0
  {
  }

  lemma {:induction false} Pow2Positive(b: nat)
    ensures Pow2(b) >= 1 && (b > 0 ==> Pow2(b) == 2 * Pow2(b - 1) >= 2)
  {
    Pow2Monotone(0, b);
  }

  lemma {:induction false} TopAbove(m: nat, b: nat)
    ensures Milestone(m, b) == Base(m, b) + Pow2(b) > Base(m, b)
    ensures b > 0 ==> Milestone(m, b) >= 2 && Milestone(m, b) % 2 == 0
    ensures b == 0 ==> Milestone(m, b) == Base(m, b) + 1
  {
    hide Pow2;
    Pow2Positive(b);
    if b > 0 {
      var k := (2 * m + 1) * Pow2(b - 1);
      assert Milestone(m, b) == 2 * k;
    } else {
      FirstPower();
    }
  }

  lemma {:induction false} FirstPower()
    ensures Pow2(0) == 1
  {
  }

  lemma {:induction false} SkipOfOdd(h: nat)
    requires h % 2 == 0 && h > 0
    ensures SkipHeight(h + 1) == InvertLowestOne(InvertLowestOne(h)) + 1
  {
    hide InvertLowestOne;
  }

  lemma {:induction false} Parity(h: nat, k: nat)
    requires h % 2 == 0
    ensures (h + 2 * k) % 2 == 0 && (h + 2 * k + 1) % 2 == 1
  {
  }

  /** Near the base the walk is over in a step. */
  lemma {:induction false} NearBase(c: nat, t: nat)
    requires c <= t <= c + 1
    ensures Steps(c + 1, t) <= 1
  {
    if t == c {
      OneStep(c);
    }
  }

  /** Below the base a skip link leads too far, except from the lowest milestones to 1. */
  lemma {:induction false} FarBelow(m: nat, b: nat, t: nat)
    requires Base(m, b) <= t
    ensures var s := InvertLowestOne(Base(m, b)) + 1; s >= t ==> Steps(s, t) <= 1
  {
    hide InvertLowestOne, Base, Steps;
    InvertBase(m, b);
    if m == 0 && t <= 1 {
      NearBase(0, t);
    }
  }

  lemma {:induction false} ZeroCase(m: nat, b: nat, t: nat)
    requires Base(m, b) <= t < Milestone(m, b)
    ensures Steps(Milestone(m, b), t) == 1
            || (b > 0 && Steps(Milestone(m, b), t) == 1 + Steps(Milestone(m, b) - 1, t))
  {
    hide InvertLowestOne, Base, Milestone, Steps;
    TopAbove(m, b);
    InvertMilestone(m, b);
    var h := Milestone(m, b);
    if b == 0 {
      OneStep(t);
    } else {
      OneMore(h, t);
      AtTarget(t);
    }
  }

  lemma {:induction false} AtTarget(t: nat)
    ensures Steps(t, t) == 0
  {
  }

  lemma {:induction false} OddCase(m: nat, b: nat, k: nat, t: nat)
    requires Base(m, b) <= t < Milestone(m, b) && 2 * k + 1 < Pow2(b)
    ensures var h, i := Milestone(m, b), InvertLowestOne(k);
            if i == 0 then Steps(h + 2 * k + 1, t) <= 2 || Steps(h + 2 * k + 1, t) == 1 + Steps(h + 2 * k, t)
            else Steps(h + 2 * k + 1, t) == 1 + Steps(h + 2 * InvertLowestOne(i) + 1, t)
  {
    hide InvertLowestOne, Base, Milestone, Steps, Next, Pow2, SkipHeight;
    TopAbove(m, b);
    if b == 0 {
      FirstPower();
    }
    InvertMilestone(m, b);
    var h, i := Milestone(m, b), InvertLowestOne(k);
    Parity(h, k);
    SkipOfOdd(h + 2 * k);
    OddNext(h + 2 * k + 1, t);
    OneMore(h + 2 * k + 1, t);
    InvertEven(k);
    if k == 0 {
      FarBelow(m, b, t);
      InvertZero();
    } else {
      InvertAtMost(k);
      InvertAbove(m, b, 2 * k);
      if i == 0 {
        if t <= Base(m, b) + 1 {
          NearBase(Base(m, b), t);
        }
      } else {
        InvertEven(i);
        InvertAbove(m, b, 2 * i);
      }
    }
  }

  lemma {:induction false} InvertTwo(q: nat)
    ensures InvertLowestOne(4 * q + 2) == 4 * q
  {
    hide InvertLowestOne;
    InvertEven(2 * q + 1);
    InvertOdd(q);
  }

  lemma {:induction false} InvertFour(q: nat)
    ensures InvertLowestOne(8 * q + 4) == 8 * q
  {
    hide InvertLowestOne;
    InvertEven(4 * q + 2);
    InvertTwo(q);
  }

  lemma {:induction false} InvertQuarter(q: nat)
    ensures InvertLowestOne(4 * q) == 4 * InvertLowestOne(q)
  {
    hide InvertLowestOne;
    InvertEven(2 * q);
    InvertEven(q);
  }

  lemma {:induction false} TwoCase(m: nat, b: nat, q: nat, t: nat)
    requires Base(m, b) <= t < Milestone(m, b) && 4 * q + 2 < Pow2(b)
    ensures var h, i := Milestone(m, b), InvertLowestOne(q);
            if i == 0 then Steps(h + 4 * q + 2, t) <= 3 || Steps(h + 4 * q + 2, t) == 1 + Steps(h + 4 * q, t)
            else Steps(h + 4 * q + 2, t) == 2 + Steps(h + 4 * InvertLowestOne(i) + 1, t)
  {
    hide InvertLowestOne, Base, Milestone, Steps, Next, Pow2, SkipHeight;
    TopAbove(m, b);
    if b == 0 {
      FirstPower();
    }
    InvertMilestone(m, b);
    var h, i := Milestone(m, b), InvertLowestOne(q);
    Parity(h, 2 * q);
    Parity(h, 2 * q + 1);
    SkipOfOdd(h + 4 * q);
    InvertTwo(q);
    InvertAbove(m, b, 4 * q + 2);
    EvenSteps(h + 4 * q + 2, t);
    InvertQuarter(q);
    if q == 0 {
      FarBelow(m, b, t);
      InvertZero();
    } else {
      InvertAtMost(q);
      InvertAbove(m, b, 4 * q);
      if i == 0 {
        if t <= Base(m, b) + 1 {
          NearBase(Base(m, b), t);
        }
      } else {
        InvertQuarter(i);
        InvertAtMost(i);
        InvertAbove(m, b, 4 * i);
      }
    }
  }

  lemma {:induction false} FourCase(m: nat, b: nat, q: nat, t: nat)
    requires Base(m, b) <= t < Milestone(m, b) && 8 * q + 4 < Pow2(b)
    ensures var h := Milestone(m, b);
            if q == 0 then Steps(h + 4, t) <= 3 || Steps(h + 4, t) == 1 + Steps(h, t)
            else Steps(h + 8 * q + 4, t) == 2 + Steps(h + 8 * InvertLowestOne(q) + 1, t)
  {
    hide InvertLowestOne, Base, Milestone, Steps, Next, Pow2, SkipHeight;
    TopAbove(m, b);
    if b == 0 {
      FirstPower();
    }
    InvertMilestone(m, b);
    var h := Milestone(m, b);
    Parity(h, 4 * q + 1);
    Parity(h, 4 * q + 2);
    SkipOfOdd(h + 8 * q + 2);
    InvertTwo(2 * q);
    InvertAbove(m, b, 8 * q + 2);
    InvertFour(q);
    InvertAbove(m, b, 8 * q + 4);
    EvenSteps(h + 8 * q + 4, t);
    if q == 0 {
      if t <= Base(m, b) + 1 {
        NearBase(Base(m, b), t);
      }
    } else {
      InvertEven(4 * q);
      InvertQuarter(q);
      InvertAtMost(q);
      InvertAbove(m, b, 8 * q);
    }
  }

  lemma {:induction false} EightCase(m: nat, b: nat, q: nat, t: nat)
    requires Base(m, b) <= t < Milestone(m, b) && 8 * q < Pow2(b) && q > 0
    ensures Steps(Milestone(m, b) + 8 * q, t) == 1 + Steps(Milestone(m, b) + 8 * InvertLowestOne(q), t)
  {
    hide InvertLowestOne, Base, Milestone, Steps, Next, Pow2, SkipHeight;
    TopAbove(m, b);
    if b == 0 {
      FirstPower();
    }
    var h := Milestone(m, b);
    Parity(h, 4 * q - 1);
    Parity(h, 4 * q);
    SkipOfOdd(h + 8 * q - 2);
    InvertTwo(2 * q - 1);
    InvertAbove(m, b, 8 * q - 2);
    InvertFour(q - 1);
    InvertAbove(m, b, 8 * q - 4);
    InvertEven(4 * q);
    InvertQuarter(q);
    InvertAtMost(q);
    InvertAbove(m, b, 8 * q);
    EvenSteps(h + 8 * q, t);
  }

  // ----- The bound -----------------------------------------------------------------------------

  /** Steps down to a milestone, by the digits above it. */
  function Credit(x: nat): nat {
    if x % 2 == 1 then (Ones(x / 2) + 5) / 2
    else if x % 4 == 2 then if x / 4 == 0 then 2 else (Ones(x / 4) + 7) / 2
    else if x % 8 == 4 then if x / 8 == 0 then 2 else (Ones(x / 8) + 8) / 2
    else Ones(x / 8) + 1
  }

  lemma {:induction false} Remainder(q: nat, d: nat, r: nat)
    requires r < d
    ensures (d * q + r) / d == q && (d * q + r) % d == r
  {
    DivMod(d * q + r, d, q, r);
  }

  lemma {:induction false} CreditOdd(k: nat)
    ensures Credit(2 * k + 1) == (Ones(k) + 5) / 2
  {
    hide Ones;
    assert (2 * k + 1) % 2 == 1 && (2 * k + 1) / 2 == k;
  }

  lemma {:induction false} CreditTwo(q: nat)
    ensures Credit(4 * q + 2) == if q == 0 then 2 else (Ones(q) + 7) / 2
  {
    hide Ones;
    Remainder(q, 4, 2);
    assert (4 * q + 2) % 2 == 0;
  }

  lemma {:induction false} CreditFour(q: nat)
    ensures Credit(8 * q + 4) == if q == 0 then 2 else (Ones(q) + 8) / 2
  {
    hide Ones;
    Remainder(q, 8, 4);
    Remainder(2 * q + 1, 4, 0);
    assert (8 * q + 4) % 2 == 0;
  }

  lemma {:induction false} CreditEight(q: nat)
    ensures Credit(8 * q) == Ones(q) + 1
  {
    hide Ones;
    Remainder(q, 8, 0);
    Remainder(2 * q, 4, 0);
    assert 8 * q % 2 == 0;
  }

  /** A single one above a milestone costs two steps. */
  lemma {:induction false} CreditSingle(k: nat)
    requires Ones(k) == 1
    ensures Credit(2 * k) == 2
  {
    hide Credit, Ones;
    var j := k / 2;
    OnesOfHalf(j);
    if k % 2 == 1 {
      NoOnes(j);
      CreditTwo(0);
    } else {
      var i := j / 2;
      OnesOfHalf(i);
      if j % 2 == 1 {
        NoOnes(i);
        CreditFour(0);
      } else {
        CreditEight(i);
      }
    }
  }

  lemma {:induction false} CreditZero()
    ensures Credit(0) == 1
  {
  }

  /** With nothing left after clearing, there was at most a single one. */
  lemma {:induction false} SingleOrNone(k: nat)
    ensures k == 0 ==> Ones(k) == 0
    ensures k > 0 && InvertLowestOne(k) == 0 ==> Ones(k) == 1
    ensures k > 0 && InvertLowestOne(k) > 0 ==> Ones(k) >= 2 && Ones(InvertLowestOne(InvertLowestOne(k))) == Ones(k) - 2
  {
    hide InvertLowestOne;
    if k > 0 {
      OnesInvert(k);
      var i := InvertLowestOne(k);
      if i > 0 {
        OnesInvert(i);
      }
    }
  }

  /** Steps that are enough from any odd height to any height that differs in the
      lowest b digits only. */
  function LowSteps(b: nat): nat {
    if b <= 2 then b else if b == 3 then 4 else LowSteps(b - 1) + (b + 3) / 2
  }

  lemma {:induction false} LowStepsIs(b: nat)
    ensures b <= 2 ==> LowSteps(b) == b
    ensures b == 3 ==> LowSteps(b) == 4
    ensures b >= 4 ==> LowSteps(b) == LowSteps(b - 1) + (b + 3) / 2
  {
  }

  lemma {:induction false} LowStepsGrow(b: nat)
    ensures LowSteps(b) <= LowSteps(b + 1) && LowSteps(b) >= Min(b, 2)
  {
    if b > 0 {
      LowStepsGrow(b - 1);
    }
  }

  /** Down to the milestone by its credit, and then on from the height below it. */
  lemma {:induction false} Phase(m: nat, b: nat, x: nat, t: nat)
    requires Base(m, b) <= t < Milestone(m, b) && x < Pow2(b)
    ensures Steps(Milestone(m, b) + x, t) <= Credit(x) + LowSteps(b)
    decreases Milestone(m, b) + x, b, 1
  {
    hide InvertLowestOne, Base, Milestone, Steps, Next, Pow2, SkipHeight, Credit, LowSteps, Ones;
    if x % 2 == 1 {
      PhaseOdd(m, b, x / 2, t);
    } else if x % 4 == 2 {
      PhaseTwo(m, b, x / 4, t);
    } else if x % 8 == 4 {
      PhaseFour(m, b, x / 8, t);
    } else if x == 0 {
      PhaseZero(m, b, t);
    } else {
      var q := x / 8;
      assert x == 8 * q;
      EightCase(m, b, q, t);
      CreditEight(q);
      OnesInvert(q);
      InvertAtMost(q);
      CreditEight(InvertLowestOne(q));
      Phase(m, b, 8 * InvertLowestOne(q), t);
    }
  }

  lemma {:induction false} PhaseOdd(m: nat, b: nat, k: nat, t: nat)
    requires Base(m, b) <= t < Milestone(m, b) && 2 * k + 1 < Pow2(b)
    ensures Steps(Milestone(m, b) + 2 * k + 1, t) <= Credit(2 * k + 1) + LowSteps(b)
    decreases Milestone(m, b) + 2 * k + 1, b, 0
  {
    hide InvertLowestOne, Base, Milestone, Steps, Next, Pow2, SkipHeight, Credit, LowSteps, Ones;
    OddCase(m, b, k, t);
    CreditOdd(k);
    SingleOrNone(k);
    var i := InvertLowestOne(k);
    if k == 0 {
      InvertZero();
      CreditZero();
      Phase(m, b, 0, t);
    } else if i == 0 {
      CreditSingle(k);
      Phase(m, b, 2 * k, t);
    } else {
      InvertAtMost(k);
      InvertAtMost(i);
      var j := InvertLowestOne(i);
      CreditOdd(j);
      PhaseOdd(m, b, j, t);
    }
  }

  lemma {:induction false} PhaseTwo(m: nat, b: nat, q: nat, t: nat)
    requires Base(m, b) <= t < Milestone(m, b) && 4 * q + 2 < Pow2(b)
    ensures Steps(Milestone(m, b) + 4 * q + 2, t) <= Credit(4 * q + 2) + LowSteps(b)
    decreases Milestone(m, b) + 4 * q + 2, b, 0
  {
    hide InvertLowestOne, Base, Milestone, Steps, Next, Pow2, SkipHeight, Credit, LowSteps, Ones;
    TwoCase(m, b, q, t);
    CreditTwo(q);
    SingleOrNone(q);
    LargeEnough(b, 4 * q + 2);
    LowStepsGrow(b);
    var i := InvertLowestOne(q);
    if q == 0 {
      InvertZero();
      CreditZero();
      Phase(m, b, 0, t);
    } else if i == 0 {
      OnesOfHalf(q);
      CreditSingle(2 * q);
      Phase(m, b, 4 * q, t);
    } else {
      InvertAtMost(q);
      InvertAtMost(i);
      var j := InvertLowestOne(i);
      OnesOfHalf(j);
      CreditOdd(2 * j);
      PhaseOdd(m, b, 2 * j, t);
    }
  }

  lemma {:induction false} PhaseFour(m: nat, b: nat, q: nat, t: nat)
    requires Base(m, b) <= t < Milestone(m, b) && 8 * q + 4 < Pow2(b)
    ensures Steps(Milestone(m, b) + 8 * q + 4, t) <= Credit(8 * q + 4) + LowSteps(b)
    decreases Milestone(m, b) + 8 * q + 4, b, 0
  {
    hide InvertLowestOne, Base, Milestone, Steps, Next, Pow2, SkipHeight, Credit, LowSteps, Ones;
    FourCase(m, b, q, t);
    CreditFour(q);
    LargeEnough(b, 8 * q + 4);
    LowStepsGrow(b);
    if q == 0 {
      CreditZero();
      Phase(m, b, 0, t);
    } else {
      var i := InvertLowestOne(q);
      OnesInvert(q);
      InvertAtMost(q);
      OnesOfHalf(i);
      OnesOfHalf(2 * i);
      CreditOdd(4 * i);
      PhaseOdd(m, b, 4 * i, t);
    }
  }

  lemma {:induction false} LargeEnough(b: nat, x: nat)
    requires 2 <= x < Pow2(b)
    ensures b >= 2
  {
    if b < 2 {
      Pow2Monotone(b, 1);
    }
  }

  lemma {:induction false} PhaseZero(m: nat, b: nat, t: nat)
    requires Base(m, b) <= t < Milestone(m, b)
    ensures Steps(Milestone(m, b), t) <= Credit(0) + LowSteps(b)
    decreases Milestone(m, b), b, 0
  {
    hide InvertLowestOne, Steps, Next, Pow2, SkipHeight, Credit, LowSteps, Ones;
    ZeroCase(m, b, t);
    CreditZero();
    TopAbove(m, b);
    if b > 0 {
      Low(2 * m, b, Pow2(b) - 1, t - Base(m, b));
    }
  }

  /** From an odd height to a height that differs in the lowest b digits only. */
  lemma {:induction false} Low(m: nat, b: nat, z: nat, y: nat)
    requires y <= z < Pow2(b) && (z == y || (Multiple(m, b) + z) % 2 == 1)
    ensures Steps(Multiple(m, b) + z, Multiple(m, b) + y) <= LowSteps(b)
    decreases Multiple(m, b) + z, b, 1
  {
    hide InvertLowestOne, Steps, Next, SkipHeight, Credit, LowSteps, Ones, Multiple, Base, Milestone;
    if z == y {
      AtTarget(Multiple(m, b) + y);
    } else if b == 0 {
      assert false;
    } else {
      var half := Pow2(b - 1);
      LowStepsGrow(b - 1);
      Halves(m, b);
      if z < half {
        Low(2 * m, b - 1, z, y);
      } else if y >= half {
        Low(2 * m + 1, b - 1, z - half, y - half);
      } else {
        LowPhase(m, b - 1, z - half, Multiple(m, b) + y);
      }
    }
  }

  function Multiple(m: nat, b: nat): nat {
    m * Pow2(b)
  }

  lemma {:induction false} Halves(m: nat, b: nat)
    requires b > 0
    ensures Multiple(m, b) == Multiple(2 * m, b - 1) == Base(m, b - 1) && Multiple(2 * m + 1, b - 1) == Milestone(m, b - 1)
    ensures Milestone(m, b - 1) == Base(m, b - 1) + Pow2(b - 1)
    ensures Pow2(b) == 2 * Pow2(b - 1)
  {
  }

  lemma {:induction false} LowPhase(m: nat, b: nat, x: nat, t: nat)
    requires Base(m, b) <= t < Milestone(m, b) && x < Pow2(b) && (Milestone(m, b) + x) % 2 == 1
    ensures Steps(Milestone(m, b) + x, t) <= LowSteps(b + 1)
    decreases Milestone(m, b) + x, b, 2
  {
    hide InvertLowestOne, Base, Milestone, Steps, Next, Pow2, SkipHeight, Credit, Ones, LowSteps;
    TopAbove(m, b);
    LowStepsIs(b + 1);
    LowStepsIs(b);
    if b == 0 {
      FirstPower();
      OneStep(t);
    } else if b == 1 {
      SmallPhase(m, t);
    } else {
      var k := x / 2;
      Parity(Milestone(m, b), k);
      assert x == 2 * k + 1;
      if b == 2 && k == 1 {
        MiddlePhase(m, t);
      } else {
        Phase(m, b, x, t);
        CreditOdd(k);
        HalfBelow(b, k);
        OnesAtMost(k, b - 1);
        FewPowers();
        NoOnesInZero(k);
      }
    }
  }

  lemma {:induction false} FewPowers()
    ensures Pow2(1) == 2 && Pow2(2) == 4
  {
  }

  lemma {:induction false} NoOnesInZero(k: nat)
    ensures k == 0 ==> Ones(k) == 0
  {
  }

  lemma {:induction false} HalfBelow(b: nat, k: nat)
    requires b > 0 && 2 * k + 1 < Pow2(b)
    ensures k < Pow2(b - 1)
  {
  }

  /** From 3 above a multiple of 4. */
  lemma {:induction false} SmallPhase(m: nat, t: nat)
    requires Base(m, 1) <= t < Milestone(m, 1)
    ensures Pow2(1) == 2 && Steps(Milestone(m, 1) + 1, t) <= 2
  {
    hide InvertLowestOne, Base, Milestone, Steps, Next, SkipHeight;
    assert Pow2(1) == 2;
    OddCase(m, 1, 0, t);
    InvertZero();
    TopAbove(m, 1);
    ZeroCase(m, 1, t);
    if t == Base(m, 1) {
      StraightDown(m, t);
    } else {
      AtTarget(t);
    }
  }

  lemma {:induction false} StraightDown(m: nat, t: nat)
    requires t == Base(m, 1)
    ensures Steps(Milestone(m, 1), t) == 1
  {
    hide InvertLowestOne, Base, Milestone;
    TopAbove(m, 1);
    InvertMilestone(m, 1);
    AtTarget(t);
  }

  /** From 7 above a multiple of 8. */
  lemma {:induction false} MiddlePhase(m: nat, t: nat)
    requires Base(m, 2) <= t < Milestone(m, 2)
    ensures Pow2(2) == 4 && Steps(Milestone(m, 2) + 3, t) <= 4
  {
    hide InvertLowestOne, Base, Milestone, Steps, Next, SkipHeight;
    assert Pow2(1) == 2 && Pow2(2) == 4;
    TopAbove(m, 2);
    var h, c := Milestone(m, 2), Base(m, 2);
    if t <= c + 1 {
      SevenDown(m, t);
    } else {
      OddCase(m, 2, 1, t);
      TwoCase(m, 2, 0, t);
      ZeroCase(m, 2, t);
      InvertZero();
      InvertOdd(0);
      if t == c + 2 {
        OneStep(t);
      } else {
        AtTarget(t);
      }
    }
  }

  lemma {:induction false} SevenDown(m: nat, t: nat)
    requires Base(m, 2) <= t <= Base(m, 2) + 1
    ensures Steps(Milestone(m, 2) + 3, t) <= 2
  {
    hide InvertLowestOne, Base, Milestone, Steps, Next, SkipHeight;
    assert Pow2(1) == 2 && Pow2(2) == 4;
    TopAbove(m, 2);
    var h := Milestone(m, 2);
    Parity(h, 1);
    SkipOfOdd(h + 2);
    InvertTwo(0);
    InvertAbove(m, 2, 2);
    InvertMilestone(m, 2);
    OddNext(h + 3, t);
    OneMore(h + 3, t);
    NearBase(Base(m, 2), t);
  }

  /** Steps that are enough below height 2^d. */
  function MaxSteps(d: nat): nat {
    if d == 0 then 0 else LowSteps(d - 1) + Max(d - 3, (d + 4) / 2)
  }

  lemma {:induction false} MaxStepsGrow(d: nat)
    ensures MaxSteps(d) <= MaxSteps(d + 1)
  {
    hide LowSteps;
    if d > 0 {
      LowStepsGrow(d - 1);
    }
  }

  lemma {:induction false} CreditAtMost(x: nat, b: nat)
    requires x < Pow2(b)
    ensures Credit(x) <= Max(b - 2, (b + 5) / 2)
  {
    hide Ones, Pow2;
    if x % 2 == 1 {
      OnesAbove(x, b, 1);
    } else if x % 4 == 2 {
      OnesAbove(x, b, 2);
    } else {
      OnesAbove(x, b, 3);
    }
  }

  lemma {:induction false} OnesAbove(x: nat, b: nat, n: nat)
    requires 1 <= n <= 3 && x < Pow2(b)
    ensures Pow2(1) == 2 && Pow2(2) == 4 && Pow2(3) == 8
    ensures if x / Pow2(n) == 0 then Ones(x / Pow2(n)) == 0 else b > n && Ones(x / Pow2(n)) <= b - n
    ensures x > 0 ==> b > 0
  {
    hide Ones;
    assert Pow2(0) == 1 && Pow2(1) == 2 && Pow2(2) == 4 && Pow2(3) == 8;
    NoOnesInZero(x / Pow2(n));
    if x / Pow2(n) > 0 {
      LongerThan(n, b);
      Digits(x, b, n);
      OnesAtMost(x / Pow2(n), b - n);
    }
  }

  /** The digits but the lowest n. */
  lemma {:induction false} Digits(x: nat, b: nat, n: nat)
    requires 1 <= n <= 3 && x < Pow2(b) && x >= Pow2(n - 1)
    ensures b >= n && x / Pow2(n) < Pow2(b - n)
    ensures Pow2(1) == 2 && Pow2(2) == 4 && Pow2(3) == 8
  {
    assert Pow2(1) == 2 && Pow2(2) == 4 && Pow2(3) == 8;
    LongerThan(n - 1, b);
    Pow2Adds(n, b - n);
    FewerDigits(x, Pow2(n), Pow2(b - n));
  }

  lemma {:induction false} LongerThan(a: nat, b: nat)
    requires Pow2(a) < Pow2(b)
    ensures a < b
  {
    if b <= a {
      Pow2Monotone(b, a);
    }
  }

  lemma {:induction false} FewerDigits(x: nat, d: nat, p: nat)
    requires x < d * p && d > 0
    ensures x / d < p
  {
    var q := x / d;
    assert x == q * d + x % d;
    if q >= p {
      MulMonotone(p, q, d);
    }
  }

  lemma {:induction false} Anywhere(m: nat, b: nat, z: nat, y: nat)
    requires y <= z < Pow2(b)
    ensures Steps(Multiple(m, b) + z, Multiple(m, b) + y) <= MaxSteps(b)
    decreases b
  {
    hide Steps, Credit, MaxSteps, Multiple, Base, Milestone;
    if z == y {
      AtTarget(Multiple(m, b) + y);
    } else if b == 0 {
      assert false;
    } else {
      var half := Pow2(b - 1);
      Halves(m, b);
      MaxStepsGrow(b - 1);
      if z < half {
        Anywhere(2 * m, b - 1, z, y);
      } else if y >= half {
        Anywhere(2 * m + 1, b - 1, z - half, y - half);
      } else {
        Phase(m, b - 1, z - half, Multiple(m, b) + y);
        CreditAtMost(z - half, b - 1);
        MaxStepsIs(b);
      }
    }
  }

  lemma {:induction false} MaxStepsIs(d: nat)
    requires d > 0
    ensures MaxSteps(d) == LowSteps(d - 1) + Max(d - 3, (d + 4) / 2)
  {
  }

  /** No walk below height 2^d is longer. */
  lemma {:induction false} WalkBound(h: nat, t: nat, d: nat)
    requires h < Pow2(d)
    ensures Steps(h, t) <= MaxSteps(d)
  {
    hide MaxSteps, Steps, Pow2;
    if t <= h {
      Anywhere(0, d, h, t);
      assert Multiple(0, d) == 0;
    } else {
      NoSteps(h, t);
    }
  }

  lemma {:induction false} NoSteps(h: nat, t: nat)
    requires h <= t
    ensures Steps(h, t) == 0
  {
  }

  // ----- The bound is reached ----------------------------------------------------------------

  /** Ones from digit k to digit m. */
  function Run(m: nat, k: nat): int {
    2 * Pow2(m) - Pow2(k)
  }

  lemma {:induction false} RunFacts(m: nat, k: nat)
    requires k <= m
    ensures Run(m, k) >= Pow2(m) >= 1
    ensures Run(m, m) == Pow2(m)
    ensures k < m ==> Run(m, k + 1) == Run(m, k) - Pow2(k)
    ensures k > 0 ==> m > 0 && Run(m, k) == 2 * Run(m - 1, k - 1)
  {
    Pow2Monotone(k, m);
    Pow2Monotone(0, m);
  }

  lemma {:induction false} InvertRun(m: nat, k: nat)
    requires k <= m
    ensures Run(m, k) > 0 && Run(m, k + 1) >= 0 && InvertLowestOne(Run(m, k)) == Run(m, k + 1)
  {
    hide InvertLowestOne, Run;
    RunFacts(m, k);
    if k == 0 {
      FirstRun(m);
      InvertOdd(Pow2(m) - 1);
    } else {
      InvertRun(m - 1, k - 1);
      NextRun(m, k);
      InvertEven(Run(m - 1, k - 1));
    }
  }

  lemma {:induction false} FirstRun(m: nat)
    ensures Run(m, 0) == 2 * (Pow2(m) - 1) + 1 && Run(m, 1) == 2 * (Pow2(m) - 1) && Pow2(m) >= 1
  {
    Pow2Monotone(0, m);
  }

  lemma {:induction false} NextRun(m: nat, k: nat)
    requires 0 < k <= m
    ensures Run(m, k + 1) == 2 * Run(m - 1, k)
  {
  }

  lemma {:induction false} BaseZero(b: nat)
    ensures Base(0, b) == 0 && Milestone(0, b) == Pow2(b)
  {
    assert 2 * 0 * Pow2(b) == 0;
  }

  /** A power of two is left downwards, since its skip link leads to the bottom. */
  lemma {:induction false} FromPower(m: nat)
    requires m >= 2
    ensures Pow2(m) >= 4 && Steps(Pow2(m), 2) == 1 + Steps(Pow2(m) - 1, 2)
  {
    hide InvertLowestOne, Steps;
    FewPowers();
    Pow2Monotone(2, m);
    BaseZero(m);
    InvertMilestone(0, m);
    TopAbove(0, m);
    OneMore(Pow2(m), 2);
  }

  /** An odd height loses two ones with each step. */
  lemma {:induction false} OddDescent(m: nat, k: nat)
    requires 1 <= k <= m && m >= 2
    ensures Run(m, k) > 0 && Steps(Run(m, k) + 1, 2) == (m - k + 1) / 2 + 1 + Steps(Pow2(m), 2)
    decreases m - k
  {
    hide InvertLowestOne, Steps, Next, Run, SkipHeight;
    FewPowers();
    Pow2Monotone(2, m);
    RunFacts(m, k);
    var h := Run(m, k);
    RunEven(m, k);
    SkipOfOdd(h);
    OddNext(h + 1, 2);
    OneMore(h + 1, 2);
    InvertRun(m, k);
    AllCleared(m);
    if k == m {
      InvertZero();
    } else {
      InvertRun(m, k + 1);
      if k == m - 1 {
        LastTwo(m);
      } else {
        RunFacts(m, k + 2);
        OddDescent(m, k + 2);
      }
    }
  }

  lemma {:induction false} RunEven(m: nat, k: nat)
    requires 1 <= k <= m
    ensures Run(m, k) % 2 == 0
  {
    assert Pow2(k) == 2 * Pow2(k - 1);
    assert Run(m, k) == 2 * (Pow2(m) - Pow2(k - 1));
  }

  lemma {:induction false} AllCleared(m: nat)
    ensures Run(m, m + 1) == 0
  {
  }

  /** From the two highest ones to the highest. */
  lemma {:induction false} LastTwo(m: nat)
    requires m >= 2
    ensures Run(m, m - 1) > 0 && Steps(Run(m, m - 1), 2) == 1 + Steps(Pow2(m), 2)
  {
    hide InvertLowestOne, Steps, Next, SkipHeight;
    FewPowers();
    Pow2Monotone(2, m);
    RunFacts(m, m - 1);
    InvertRun(m, m - 1);
    RunEven(m, m - 1);
    var h := Run(m, m - 1);
    EvenSteps(h, 2);
    LastSkip(m);
  }

  /** There the skip link of the parent is no better: it leads to 1, or not as far. */
  lemma {:induction false} LastSkip(m: nat)
    requires m >= 2
    ensures Run(m, m - 1) > 1
    ensures SkipHeight(Run(m, m - 1) - 1) < 2 || SkipHeight(Run(m, m - 1) - 1) >= Pow2(m)
  {
    hide InvertLowestOne, SkipHeight;
    FewPowers();
    if m == 2 {
      SkipFive();
    } else if m == 3 {
      SkipEleven();
    } else {
      Pow2Adds(3, m - 4);
      var q := Pow2(m - 4);
      assert Pow2(m - 1) == 8 * q && Pow2(3) == 8;
      Pow2Monotone(0, m - 4);
      TopAbove(0, m);
      BaseZero(m);
      Parity(Pow2(m), 4 * q - 1);
      SkipOfOdd(Pow2(m) + 8 * q - 2);
      InvertTwo(2 * q - 1);
      InvertAbove(0, m, 8 * q - 2);
      InvertFour(q - 1);
      InvertAbove(0, m, 8 * q - 4);
    }
  }

  lemma {:induction false} SkipFive()
    ensures Run(2, 1) == 6 && SkipHeight(5) == 1
  {
    hide InvertLowestOne, SkipHeight;
    FewPowers();
    SkipOfOdd(4);
    InvertFour(0);
    InvertZero();
  }

  lemma {:induction false} SkipEleven()
    ensures Run(3, 2) == 12 && SkipHeight(11) == 1
  {
    hide InvertLowestOne, SkipHeight;
    FewPowers();
    assert Pow2(3) == 8;
    SkipOfOdd(10);
    InvertTwo(2);
    InvertQuarter(2);
    InvertEven(1);
    InvertOdd(0);
  }

  /** An even height loses one with each step. */
  lemma {:induction false} EvenDescent(m: nat, k: nat)
    requires 3 <= k <= m
    ensures Run(m, k) > 0 && Steps(Run(m, k), 2) == m - k + Steps(Pow2(m), 2)
    decreases m - k
  {
    hide InvertLowestOne, Steps, Next, Run, SkipHeight;
    RunFacts(m, k);
    if k < m {
      RunFacts(m, k + 1);
      EvenDescent(m, k + 1);
      var q := EightRun(m, k);
      FewPowers();
      Pow2Monotone(2, m);
      BaseZero(m);
      EightCase(0, m, q, 2);
      InvertRun(m, k);
      InvertEven(4 * q);
      InvertQuarter(q);
      InvertAbove(0, m, 8 * q);
    }
  }

  lemma {:induction false} EightRun(m: nat, k: nat) returns (q: nat)
    requires 3 <= k < m
    ensures q > 0 && 8 * q < Pow2(m) && Run(m, k) == Pow2(m) + 8 * q
  {
    Pow2Adds(3, k - 3);
    Pow2Adds(3, m - 3);
    Pow2Monotone(k - 2, m - 3);
    Pow2Monotone(0, k - 3);
    assert Pow2(3) == 8;
    q := Pow2(m - 3) - Pow2(k - 3);
  }

  lemma {:induction false} SevenToTwo()
    ensures Steps(7, 2) == 4
  {
    hide InvertLowestOne, Steps, Run;
    FewPowers();
    RunOfSix();
    OddDescent(2, 1);
    FromPower(2);
    OneStep(2);
  }

  lemma {:induction false} RunOfSix()
    ensures Run(2, 1) == 6
  {
    FewPowers();
  }

  /** From 2^b - 1 to 2 the walk takes all the steps there are. */
  lemma {:induction false} LowReached(b: nat)
    requires b >= 3
    ensures Pow2(b) >= 8 && Steps(Pow2(b) - 1, 2) == LowSteps(b)
  {
    hide Steps, Run, LowSteps;
    LowStepsIs(b);
    assert Pow2(3) == 8;
    Pow2Monotone(3, b);
    if b == 3 {
      SevenToTwo();
    } else {
      LowReached(b - 1);
      FromPower(b - 1);
      OddDescent(b - 1, 1);
      FirstRun(b - 1);
    }
  }

  /** No bound is better: below 2^d, the walk from 2^d - 8 to 2 is the longest. */
  lemma {:induction false} BoundReached(d: nat)
    requires d >= 9
    ensures Pow2(d) > 8 && Steps(Pow2(d) - 8, 2) == MaxSteps(d)
  {
    hide Steps, LowSteps, MaxSteps, Run;
    MaxStepsIs(d);
    LowReached(d - 1);
    FromPower(d - 1);
    EvenDescent(d - 1, 3);
    LastRun(d);
  }

  lemma {:induction false} LastRun(d: nat)
    requires d >= 4
    ensures Run(d - 1, 3) == Pow2(d) - 8 > 0
  {
    assert Pow2(3) == 8;
    Pow2Monotone(4, d);
  }

  /** For instance, 110 steps below height 2^18, and no less. */
  lemma {:induction false} BelowTwoTo18(h: nat, t: nat)
    requires h < 0x4_0000
    ensures Steps(h, t) <= 110 && Steps(0x3_fff8, 2) == 110
  {
    hide Steps, Pow2, MaxSteps;
    EighteenDigits();
    WalkBound(h, t, 18);
    BoundReached(18);
  }

  lemma {:induction false} EighteenDigits()
    ensures Pow2(18) == 0x4_0000 && MaxSteps(18) == 110
  {
    Pow2Adds(9, 9);
    assert Pow2(9) == 512;
    assert LowSteps(8) == 25;
    assert LowSteps(13) == 59;
    assert LowSteps(17) == 95;
  }

  /** The bound is quadratic in the number of digits, from above and from below. */
  lemma {:induction false} Quadratic(d: nat)
    ensures d * d - 2 * d <= 4 * MaxSteps(d) <= d * d + 8 * d
  {
    hide LowSteps;
    if d > 0 {
      LowQuadratic(d - 1);
      MaxStepsIs(d);
      assert (d - 1) * (d - 1) == d * d - 2 * d + 1;
      var low, most := LowSteps(d - 1), Max(d - 3, (d + 4) / 2);
      assert 0 <= 4 * most <= 4 * d + 5;
      assert 4 * MaxSteps(d) == 4 * low + 4 * most;
    } else {
      assert d * d == 0;
    }
  }

  lemma {:induction false} LowQuadratic(b: nat)
    ensures b * b <= 4 * LowSteps(b) <= b * b + 6 * b
  {
    hide LowSteps;
    LowStepsIs(b);
    if b < 3 {
      assert 0 * 0 == 0 && 1 * 1 == 1 && 2 * 2 == 4;
    } else {
      LowClosed(b, b / 2);
    }
  }

  lemma {:induction false} LowClosed(b: nat, k: nat)
    requires b >= 3 && (b == 2 * k || b == 2 * k + 1)
    ensures 4 * LowSteps(b) == b * b + 6 * b - (if b == 2 * k then 12 else 11)
  {
    hide LowSteps;
    LowStepsIs(b);
    if b == 3 {
      assert 3 * 3 == 9;
    } else {
      LowClosed(b - 1, if b == 2 * k then k - 1 else k);
      Square(b, (b - 1) * (b - 1), b * b, LowSteps(b - 1), k);
    }
  }

  lemma {:induction false} Square(b: nat, before: nat, square: nat, low: nat, k: nat)
    requires b >= 4 && (b == 2 * k || b == 2 * k + 1) && before == (b - 1) * (b - 1) && square == b * b
    requires 4 * low == before + 6 * (b - 1) - (if b == 2 * k then 11 else 12)
    ensures 4 * (low + (b + 3) / 2) == square + 6 * b - (if b == 2 * k then 12 else 11)
  {
    assert before == square - 2 * b + 1;
    Halved(b, k);
  }

  lemma {:induction false} Halved(b: nat, k: nat)
    requires b == 2 * k || b == 2 * k + 1
    ensures (b + 3) / 2 == if b == 2 * k then k + 1 else k + 2
  {
  }

  /** So no multiple of the number of digits bounds the walk. */
  lemma {:induction false} NotLogarithmic(c: nat)
    ensures var d := 4 * c + 11; Pow2(d) > 8 && Steps(Pow2(d) - 8, 2) > c * d
  {
    hide Steps, Pow2, MaxSteps;
    var d := 4 * c + 11;
    BoundReached(d);
    Quadratic(d);
    assert d * d - 2 * d == 4 * (c * d) + 9 * d;
  }
}
