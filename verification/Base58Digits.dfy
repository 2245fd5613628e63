/** Big-endian digits in any base, and one step of long multiplication on them. */
module Base58Digits {
  import opened Bits
  import opened NthRoot
  import opened ArithSteps

  predicate DigitsOf(s: seq<nat>, b: nat) {
    forall i :: 0 <= i < |s| ==> s[i] < b
  }

  predicate NoLead(s: seq<nat>) {
    s != [] ==> s[0] != 0
  }

  function Val(s: seq<nat>, b: nat): nat {
    if s == [] then 0 else s[0] * Power(b, |s| - 1) + Val(s[1..], b)
  }

  lemma {:induction false} ValAppend(s: seq<nat>, d: nat, b: nat)
    ensures Val(s + [d], b) == Val(s, b) * b + d
  {
    if s == [] {
      assert ([d])[1..] == [];
      assert Power(b, 0) == 1;
    } else {
      var t := s + [d];
      assert t[1..] == s[1..] + [d];
      ValAppend(s[1..], d, b);
      ShiftTerm(s[0], b, Power(b, |s| - 1), Val(s[1..], b), d);
    }
  }

  lemma {:induction false} ShiftTerm(x: int, b: int, p: int, v: int, d: int)
    ensures x * (b * p) + (v * b + d) == (x * p + v) * b + d
  {
    assert x * (b * p) == x * p * b;
  }

  lemma {:induction false} ValBound(s: seq<nat>, b: nat)
    requires DigitsOf(s, b) && b > 0
    ensures Val(s, b) < Power(b, |s|)
  {
    if s != [] {
      ValBound(s[1..], b);
      var p := Power(b, |s| - 1);
      MulMonotone(s[0] + 1, b, p);
      MulAdd(s[0], 1, p);
    }
  }

  lemma {:induction false} ValZero(s: seq<nat>, b: nat)
    requires forall i :: 0 <= i < |s| ==> s[i] == 0
    ensures Val(s, b) == 0
  {
    if s != [] {
      ValZero(s[1..], b);
    }
  }

  /** Leading zeros do not count. */
  lemma {:induction false} ValSkip(s: seq<nat>, k: nat, b: nat)
    requires k <= |s| && forall i :: 0 <= i < k ==> s[i] == 0
    ensures Val(s, b) == Val(s[k..], b)
  {
    if k == 0 {
      assert s[0..] == s;
    } else {
      assert s[1..][k - 1..] == s[k..];
      ValSkip(s[1..], k - 1, b);
    }
  }

  /** The digits of a number, without leading zeros. */
  function Digits(v: nat, b: nat): seq<nat>
    requires b > 1
    decreases v
  {
    if v == 0 then [] else Smaller(v, b); Digits(v / b, b) + [v % b]
  }

  lemma {:induction false} Smaller(v: nat, b: nat)
    requires v > 0 && b > 1
    ensures 0 <= v / b < v && 0 <= v % b < b
  {
    var q := v / b;
    assert v == q * b + v % b;
    if q >= v {
      MulMonotone(v, q, b);
      MulMonotone(2, b, v);
    } else if q < 0 {
      MulMonotone(q, -1, b);
    }
  }

  lemma {:induction false} DigitsVal(v: nat, b: nat)
    requires b > 1
    ensures Val(Digits(v, b), b) == v && DigitsOf(Digits(v, b), b) && NoLead(Digits(v, b))
    decreases v
  {
    hide Val, Digits;
    if v > 0 {
      var w, d := LastDigit(v, b);
      DigitsVal(w, b);
      ValAppend(Digits(w, b), d, b);
    } else {
      ZeroDigits(b);
      ValZero([], b);
    }
  }

  lemma {:induction false} ZeroDigits(b: nat)
    requires b > 1
    ensures Digits(0, b) == []
  {
  }

  lemma {:induction false} LastDigit(v: nat, b: nat) returns (w: nat, d: nat)
    requires v > 0 && b > 1
    ensures w < v && d < b && v == w * b + d && Digits(v, b) == Digits(w, b) + [d]
    ensures Digits(w, b) == [] ==> d > 0
  {
    Smaller(v, b);
    w, d := v / b, v % b;
  }

  /** They are the only digits of the number without a leading zero. */
  lemma {:induction false} DigitsUnique(s: seq<nat>, b: nat)
    requires b > 1 && DigitsOf(s, b) && NoLead(s)
    ensures Digits(Val(s, b), b) == s
  {
    if s != [] {
      var n := |s| - 1;
      var rest, d := s[..n], s[n];
      assert s == rest + [d];
      ValAppend(rest, d, b);
      DigitsUnique(rest, b);
      DivMod(Val(s, b), b, Val(rest, b), d);
      if n > 0 {
        ValPositive(rest, b);
        MulMonotone(1, Val(rest, b), b);
      } else {
        ValZero(rest, b);
      }
    }
  }

  lemma {:induction false} ValPositive(s: seq<nat>, b: nat)
    requires s != [] && NoLead(s) && b > 0
    ensures Val(s, b) > 0
  {
    PowerPositive(b, |s| - 1);
    MulMonotone(1, s[0], Power(b, |s| - 1));
  }

  // ----- One step of the conversion ----------------------------------------------------

  /** The significant digits are the last `length`, and the first of them is not zero. */
  predicate Tight(s: seq<nat>, length: nat) {
    && length <= |s| && (forall k :: 0 <= k < |s| - length ==> s[k] == 0)
    && (length > 0 ==> s[|s| - length] != 0)
  }

  /** After i digits: what has been written, and the carry. */
  ghost predicate Carried(old_: seq<nat>, s: seq<nat>, b: nat, mul: nat, digit: nat, i: nat, carry: nat) {
    && |s| == |old_| && i <= |s| && DigitsOf(s, b)
    && (forall k :: 0 <= k < |s| - i ==> s[k] == old_[k])
    && carry * Power(b, i) + Val(s[|s| - i..], b) == Val(old_[|s| - i..], b) * mul + digit
  }

  lemma {:induction false} CarriedStart(s: seq<nat>, b: nat, mul: nat, digit: nat)
    requires DigitsOf(s, b)
    ensures Carried(s, s, b, mul, digit, 0, digit)
  {
    assert s[|s|..] == [];
    assert Power(b, 0) == 1;
  }

  lemma {:induction false} CarriedStep(old_: seq<nat>, s: seq<nat>, b: nat, mul: nat, digit: nat, i: nat, carry: nat)
    requires Carried(old_, s, b, mul, digit, i, carry) && i < |s| && b > 0
    ensures var k := |s| - 1 - i; var t := carry + mul * s[k];
            0 <= t % b < b && 0 <= t / b && Carried(old_, s[k := t % b], b, mul, digit, i + 1, t / b)
  {
    hide Power;
    var k := |s| - 1 - i;
    var t := carry + mul * s[k];
    NatQuotient(t, b);
    var u := s[k := t % b];
    assert u[k..][1..] == s[k + 1..] && old_[k..][1..] == old_[k + 1..];
    assert |s| - i == k + 1;
    CarriedTerm(t, t / b, t % b, b, Power(b, i), carry, mul, s[k]);
    MulDistribute(s[k], Power(b, i), Val(old_[k + 1..], b), mul);
    PowerMore(b, i);
    MulOrder(t / b, b, Power(b, i));
  }

  lemma {:induction false} NatQuotient(t: nat, b: nat)
    requires b > 0
    ensures 0 <= t / b && 0 <= t % b < b && t == t / b * b + t % b
  {
  }

  lemma {:induction false} MulOrder(q: int, b: int, p: int)
    ensures q * (p * b) == q * b * p
  {
  }

  lemma {:induction false} CarriedTerm(t: int, q: int, r: int, b: int, p: int, carry: int, mul: int, x: int)
    requires t == q * b + r && t == carry + mul * x
    ensures q * b * p + r * p == carry * p + mul * x * p
  {
    assert t * p == q * b * p + r * p;
    assert t * p == carry * p + mul * x * p;
  }

  lemma {:induction false} MulDistribute(x: int, p: int, v: int, mul: int)
    ensures (x * p + v) * mul == mul * x * p + v * mul
  {
    assert x * p * mul == mul * x * p;
  }

  /** When the carry is gone, or would not fit, the step is complete. */
  lemma {:induction false} CarriedEnd(old_: seq<nat>, s: seq<nat>, b: nat, mul: nat, digit: nat, i: nat, carry: nat, length: nat)
    requires Carried(old_, s, b, mul, digit, i, carry) && Tight(old_, length) && b > 0
    requires i == |s| || (carry == 0 && i >= length)
    requires Val(old_, b) * mul + digit < Power(b, |s|)
    ensures carry == 0 && Val(s, b) == Val(old_, b) * mul + digit
  {
    hide Power;
    var k := |s| - i;
    if i == |s| {
      assert s[0..] == s && old_[0..] == old_;
      if carry > 0 {
        MulMonotone(1, carry, Power(b, i));
      }
    } else {
      ValSkip(s, k, b);
      ValSkip(old_, k, b);
    }
  }

  // ----- Room for the result ---------------------------------------------------------------

  lemma {:induction false} PowerAdds(b: nat, m: nat, n: nat)
    ensures Power(b, m + n) == Power(b, m) * Power(b, n)
  {
    if m > 0 {
      PowerAdds(b, m - 1, n);
      Associate(b, Power(b, m - 1), Power(b, n));
    } else {
      assert Power(b, 0) == 1;
    }
  }

  lemma {:induction false} PowerTimes(b: nat, m: nat, n: nat)
    ensures Power(Power(b, m), n) == Power(b, m * n)
  {
    if n > 0 {
      PowerTimes(b, m, n - 1);
      PowerAdds(b, m, m * (n - 1));
      assert m + m * (n - 1) == m * n;
    } else {
      assert m * n == 0;
    }
  }

  lemma {:induction false} PowerReflects(a: nat, b: nat, n: nat)
    requires n > 0 && Power(a, n) <= Power(b, n)
    ensures a <= b
  {
    if a > b {
      PowerStrict(b, a, n);
    }
  }

  /** If a^m <= b^n, then a^k needs at most k n / m digits in base b, rounded up. */
  lemma {:induction false} Room(a: nat, m: nat, b: nat, n: nat, k: nat, size: nat)
    requires m > 0 && b > 0 && Power(a, m) <= Power(b, n) && n * k <= m * size
    ensures Power(a, k) <= Power(b, size)
  {
    hide Power;
    PowerTimes(a, k, m);
    PowerTimes(a, m, k);
    PowerTimes(b, n, k);
    PowerTimes(b, size, m);
    assert k * m == m * k && size * m == m * size;
    PowerMonotone(Power(a, m), Power(b, n), k);
    PowerLonger(b, n * k, m * size);
    PowerReflects(Power(a, k), Power(b, size), m);
  }

  lemma {:induction false} BytesInBase58()
    ensures Power(256, 8) <= Power(58, 11)
  {
    assert Power(256, 4) == 256 * 256 * 256 * 256;
    PowerAdds(256, 4, 4);
    assert Power(58, 5) == 58 * 58 * 58 * 58 * 58;
    PowerAdds(58, 5, 5);
    PowerAdds(58, 1, 10);
    assert Power(58, 1) == 58;
  }

  lemma {:induction false} EncodeRoom(k: nat)
    ensures Power(256, k) <= Power(58, k * 138 / 100 + 1)
  {
    hide Power;
    BytesInBase58();
    Room(256, 8, 58, 11, k, k * 138 / 100 + 1);
  }

  lemma {:induction false} Powers58()
    ensures Power(58, 50) == 14838830640714294999983396511843381888381117770762056659674968992599706869653743415066624
    ensures Power(58, 71) == 159730386663078066345306447337161584696769904898410078913243029577507397293846405390982563136983769384625594118558891106107392
  {
    assert Power(58, 1) == 58;
    assert Power(58, 5) == 656356768;
    PowerAdds(58, 5, 5);
    assert Power(58, 10) == 430804206899405824;
    PowerAdds(58, 10, 10);
    assert Power(58, 20) == 185592264682226060569122324245118976;
    PowerAdds(58, 20, 20);
    assert Power(58, 40) == 34444488709877454747081479018851205589883534409595458615323760395288576;
    PowerAdds(58, 40, 10);
    assert Power(58, 50) == 14838830640714294999983396511843381888381117770762056659674968992599706869653743415066624;
    PowerAdds(58, 40, 20);
    assert Power(58, 60) == 6392630665487523829925705590507004456832030712891733088851577912861189652777515686114891080333114973618176;
    PowerAdds(58, 60, 10);
    assert Power(58, 70) == 2753972183846173557677697367882096287875343187903622050228328096163920642997351817085906260982478782493544726182049846657024;
    PowerAdds(58, 70, 1);
    assert Power(58, 71) == 159730386663078066345306447337161584696769904898410078913243029577507397293846405390982563136983769384625594118558891106107392;
  }

  lemma {:induction false} Powers256()
    ensures Power(256, 36) == 497323236409786642155382248146820840100456150797347717440463976893159497012533375533056
    ensures Power(256, 52) == 169230328010303641331690318856389386196071598838855992136870091590247882556495704531248437872567112920983350278405979725889536
  {
    assert Power(256, 4) == 4294967296;
    PowerAdds(256, 4, 4);
    assert Power(256, 8) == 18446744073709551616;
    PowerAdds(256, 8, 8);
    assert Power(256, 16) == 340282366920938463463374607431768211456;
    PowerAdds(256, 16, 16);
    assert Power(256, 32) == 115792089237316195423570985008687907853269984665640564039457584007913129639936;
    PowerAdds(256, 32, 4);
    assert Power(256, 36) == 497323236409786642155382248146820840100456150797347717440463976893159497012533375533056;
    PowerAdds(256, 32, 16);
    assert Power(256, 48) == 39402006196394479212279040100143613805079739270465446667948293404245721771497210611414266254884915640806627990306816;
    PowerAdds(256, 48, 4);
    assert Power(256, 52) == 169230328010303641331690318856389386196071598838855992136870091590247882556495704531248437872567112920983350278405979725889536;
  }

  lemma {:induction false} DecodeRoom(k: nat)
    ensures Power(58, k) <= Power(256, k * 733 / 1000 + 1)
  {
    hide Power;
    Powers58();
    Powers256();
    Room(58, 71, 256, 52, k, k * 733 / 1000 + 1);
  }
}
