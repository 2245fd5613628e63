/** 256-bit unsigned arithmetic on an array of eight words, updated in place. Every
    operation refines the integers modulo 2^256. */
module Arith256 {
  import opened Wrappers
  import opened Bits
  import opened Limbs
  import opened ArithSteps

  class BaseUint {
    const pn: array<Word>

    ghost predicate Valid() {
      pn.Length == WIDTH
    }

    function Int(): nat
      reads pn
    {
      Value(pn[..])
    }

    constructor (b: nat)
      requires b < B * B
      ensures Valid() && fresh(pn) && Int() == b
    {
      pn := new Word[WIDTH];
      new;
      pn[0] := b % B;
      pn[1] := b / B;
      for i := 2 to WIDTH
        invariant pn[0] == b % B && pn[1] == b / B && forall k :: 2 <= k < i ==> pn[k] == 0
      {
        pn[i] := 0;
      }
      ghost var s := pn[..];
      ValueHead(s);
      ValueHead(s[1..]);
      ValueZero(s[1..][1..]);
    }

    constructor Copy(a: BaseUint)
      requires a.Valid()
      ensures Valid() && fresh(pn) && pn[..] == a.pn[..]
    {
      pn := new Word[WIDTH];
      new;
      for i := 0 to WIDTH
        invariant pn[..i] == a.pn[..i]
      {
        pn[i] := a.pn[i];
      }
    }

    method SetLow(b: nat)
      requires Valid() && b < B * B
      modifies pn
      ensures Int() == b
    {
      pn[0] := b % B;
      pn[1] := b / B;
      for i := 2 to WIDTH
        invariant pn[0] == b % B && pn[1] == b / B && forall k :: 2 <= k < i ==> pn[k] == 0
      {
        pn[i] := 0;
      }
      ghost var s := pn[..];
      ValueHead(s);
      ValueHead(s[1..]);
      ValueZero(s[1..][1..]);
    }

    method Set(a: BaseUint)
      requires Valid() && a.Valid()
      modifies pn
      ensures pn[..] == old(a.pn[..])
    {
      for i := 0 to WIDTH
        invariant pn[..i] == old(a.pn[..i]) && a.pn[i..] == old(a.pn[i..])
      {
        pn[i] := a.pn[i];
      }
    }

    method AddAssign(b: BaseUint)
      requires Valid() && b.Valid()
      modifies pn
      ensures Int() == (old(Int()) + old(b.Int())) % Modulus()
    {
      hide Value, Base;
      ghost var x, y := pn[..], b.pn[..];
      var carry := 0;
      NoWords(pn[..]);
      NoWords(x);
      NoWords(y);
      for i := 0 to WIDTH
        invariant 0 <= carry <= 1 && (forall k :: i <= k < WIDTH ==> pn[k] == x[k] && b.pn[k] == y[k])
        invariant Value(pn[..][..i]) + carry * Base(i) == Value(x[..i]) + Value(y[..i])
      {
        var n := carry + pn[i] + b.pn[i];
        AddStep(pn[..], x, y, i, carry, n);
        ghost var after := pn[..][i := n % B];
        pn[i] := n % B;
        assert pn[..] == after;
        carry := n / B;
      }
      assert pn[..][..WIDTH] == pn[..] && x[..WIDTH] == x && y[..WIDTH] == y;
      ModularResult(pn[..], carry, Value(x) + Value(y));
    }

    method Complement() returns (r: BaseUint)
      requires Valid()
      ensures r.Valid() && fresh(r) && fresh(r.pn) && r.Int() == Modulus() - 1 - Int()
    {
      hide Value, Base;
      r := new BaseUint(0);
      for i := 0 to WIDTH
        invariant forall k :: 0 <= k < i ==> r.pn[k] == B - 1 - pn[k]
      {
        r.pn[i] := B - 1 - pn[i];
      }
      Complements(pn[..], r.pn[..]);
    }

    method Increment()
      requires Valid()
      modifies pn
      ensures Int() == (old(Int()) + 1) % Modulus()
    {
      hide Value, Base;
      ghost var x := pn[..];
      var i := 0;
      var carry := true;
      NoWords(x);
      while i < WIDTH && carry
        invariant 0 <= i <= WIDTH && Value(pn[..]) + (if carry then Base(i) else 0) == Value(x) + 1
        decreases WIDTH - i, carry
      {
        IncrementStep(pn[..], i);
        ghost var after := pn[..][i := (pn[i] + 1) % B];
        pn[i] := (pn[i] + 1) % B;
        assert pn[..] == after;
        if pn[i] == 0 {
          i := i + 1;
        } else {
          carry := false;
        }
      }
      ModularResult(pn[..], if carry then 1 else 0, Value(x) + 1);
    }

    method Negate() returns (r: BaseUint)
      requires Valid()
      ensures r.Valid() && fresh(r) && fresh(r.pn) && r.Int() == (Modulus() - Int()) % Modulus()
    {
      hide Value, Base;
      r := Complement();
      r.Increment();
    }

    method SubAssign(b: BaseUint)
      requires Valid() && b.Valid()
      modifies pn
      ensures Int() == (old(Int()) - old(b.Int())) % Modulus()
    {
      hide Value, Base;
      ghost var x, y := Int(), b.Int();
      var n := b.Negate();
      AddAssign(n);
      SubtractByAdding(x, y, Modulus());
    }

    method MulWord(b32: Word)
      requires Valid()
      modifies pn
      ensures Int() == old(Int()) * b32 % Modulus()
    {
      hide Value, Base;
      ghost var x := pn[..];
      var carry := 0;
      NoWords(pn[..]);
      NoWords(x);
      for i := 0 to WIDTH
        invariant 0 <= carry < B && (forall k :: i <= k < WIDTH ==> pn[k] == x[k])
        invariant Value(pn[..][..i]) + carry * Base(i) == Value(x[..i]) * b32
      {
        WordProduct(b32, pn[i], carry, 0);
        var n := carry + b32 * pn[i];
        MulWordStep(pn[..], x, b32, i, carry, n);
        ghost var after := pn[..][i := n % B];
        pn[i] := n % B;
        assert pn[..] == after;
        carry := n / B;
      }
      assert pn[..][..WIDTH] == pn[..] && x[..WIDTH] == x;
      ModularResult(pn[..], carry, Value(x) * b32);
    }

    /** One row of the product: add x_j times b, shifted by j words. */
    method MulRow(a: BaseUint, j: nat, w: Word) returns (ghost overflow: nat)
      requires Valid() && a.Valid() && j < WIDTH && a.pn != pn
      modifies a.pn
      ensures a.Int() + overflow * Modulus() == old(a.Int()) + w * Base(j) * Int()
    {
      hide Value, Base;
      ghost var q0, y := a.pn[..], pn[..];
      var carry := 0;
      NoWords(y);
      for i := 0 to WIDTH - j
        invariant 0 <= carry < B && pn[..] == y
        invariant Value(a.pn[..]) + carry * Base(i + j) == Value(q0) + w * Base(j) * Value(y[..i])
      {
        WordProduct(w, pn[i], carry, a.pn[i + j]);
        var n := carry + a.pn[i + j] + w * pn[i];
        MulStep(a.pn[..], y, w, i, j, carry, n);
        ghost var after := a.pn[..][i + j := n % B];
        a.pn[i + j] := n % B;
        assert a.pn[..] == after;
        carry := n / B;
      }
      overflow := carry + w * Value(y[WIDTH - j..]);
      MulRowEnd(y, w, j, carry);
    }

    method MulAssign(b: BaseUint)
      requires Valid() && b.Valid()
      modifies pn
      ensures Int() == old(Int()) * old(b.Int()) % Modulus()
    {
      hide Value, Base;
      ghost var x, y := pn[..], b.pn[..];
      var a := new BaseUint(0);
      ghost var q: nat := 0;
      NoWords(x);
      for j := 0 to WIDTH
        invariant a.Valid() && pn[..] == x && b.pn[..] == y
        invariant Value(a.pn[..]) + q * Modulus() == Value(x[..j]) * Value(y)
      {
        ghost var before := Value(a.pn[..]);
        ghost var more := b.MulRow(a, j, pn[j]);
        MulRows(x, Value(y), j, before, Value(a.pn[..]), q, more);
        q := q + more;
      }
      assert x[..WIDTH] == x;
      ModularResult(a.pn[..], q, Value(x) * Value(y));
      Set(a);
    }

    method Clear()
      requires Valid()
      modifies pn
      ensures forall i :: 0 <= i < WIDTH ==> pn[i] == 0
    {
      for i := 0 to WIDTH
        invariant forall k :: 0 <= k < i ==> pn[k] == 0
      {
        pn[i] := 0;
      }
    }

    method ShiftLeft(shift: nat)
      requires Valid()
      modifies pn
      ensures Int() == old(Int()) * Pow2(shift) % Modulus()
    {
      hide Value, Base, Pow2, HighBits, LowBits, LeftLost, LeftDone, Or;
      ghost var x := pn[..];
      var a := new BaseUint.Copy(this);
      Clear();
      var k, s := shift / 32, shift % 32;
      LeftStart(pn[..], x, k, s);
      ghost var q := 0;
      for i := 0 to WIDTH
        invariant a.Valid() && a.pn[..] == x && LeftDone(pn[..], x, k, s, i, q)
      {
        LeftStep(pn[..], x, k, s, i, q);
        LeftFacts(pn[..], x, k, s, i, q);
        LeftOrs(pn[..], x[i], k, s, i);
        ghost var after := LeftNext(pn[..], x[i], k, s, i);
        if i + k + 1 < WIDTH && s != 0 {
          pn[i + k + 1] := Or(pn[i + k + 1], HighBits(a.pn[i], s));
        }
        if i + k < WIDTH {
          pn[i + k] := Or(pn[i + k], LowBits(a.pn[i], s));
        }
        assert pn[..] == after;
        q := q + LeftLost(x[i], k, s, i);
      }
      LeftEnd(pn[..], x, k, s, q, shift);
    }

    method ShiftRight(shift: nat)
      requires Valid()
      modifies pn
      ensures Int() == old(Int()) / Pow2(shift)
    {
      hide Value, Base, Pow2, HighBits, LowBits, RightLost, RightDone, Or;
      ghost var x := pn[..];
      var a := new BaseUint.Copy(this);
      Clear();
      var k, s := shift / 32, shift % 32;
      RightStart(pn[..], x, k, s);
      ghost var r := 0;
      for i := 0 to WIDTH
        invariant r >= 0 && a.Valid() && a.pn[..] == x && RightDone(pn[..], x, k, s, i, r)
      {
        RightStep(pn[..], x, k, s, i, r);
        RightFacts(pn[..], x, k, s, i, r);
        RightOrs(pn[..], x[i], k, s, i);
        ghost var after := RightNext(pn[..], x[i], k, s, i);
        if i - k - 1 >= 0 && s != 0 {
          pn[i - k - 1] := Or(pn[i - k - 1], LowBits(a.pn[i], 32 - s));
        }
        if i - k >= 0 {
          pn[i - k] := Or(pn[i - k], HighBits(a.pn[i], 32 - s));
        }
        assert pn[..] == after;
        r := r + RightLost(x[i], k, s, i);
      }
      RightEnd(pn[..], x, k, s, r, shift);
    }

    method CompareTo(b: BaseUint) returns (r: int)
      requires Valid() && b.Valid()
      ensures r == if Int() < b.Int() then -1 else if Int() > b.Int() then 1 else 0
    {
      hide Value, Base;
      ghost var x, y := pn[..], b.pn[..];
      var i := WIDTH;
      while i > 0
        invariant 0 <= i <= WIDTH && x[i..] == y[i..]
      {
        i := i - 1;
        if pn[i] < b.pn[i] {
          HighestDecides(x, y, i);
          return -1;
        }
        if pn[i] > b.pn[i] {
          HighestDecides(y, x, i);
          return 1;
        }
      }
      assert x == x[0..] && y == y[0..];
      r := 0;
    }

    method EqualTo(b: nat) returns (r: bool)
      requires Valid() && b < B * B
      ensures r <==> Int() == b
    {
      hide Value, Base;
      var other := new BaseUint(b);
      ghost var x, y := pn[..], other.pn[..];
      LowWords(y, b);
      if x != y && Value(x) == Value(y) {
        ValueInjective(x, y);
      }
      var i := WIDTH - 1;
      while i >= 2
        invariant 1 <= i < WIDTH && forall k :: i < k < WIDTH ==> pn[k] == 0
      {
        if pn[i] != 0 {
          return false;
        }
        i := i - 1;
      }
      if pn[1] != b / B {
        return false;
      }
      if pn[0] != b % B {
        return false;
      }
      assert x == y;
      r := true;
    }

    /** The position of the highest bit set plus one, or zero. */
    method Length() returns (n: nat)
      requires Valid()
      ensures HasLength(Int(), n) && n <= 32 * WIDTH
    {
      hide Value, Base, Pow2, And;
      ghost var x := pn[..];
      var pos := WIDTH;
      while pos > 0
        invariant 0 <= pos <= WIDTH && forall k :: pos <= k < WIDTH ==> pn[k] == 0
      {
        pos := pos - 1;
        if pn[pos] != 0 {
          Pow2Word();
          var nbits := 31;
          while nbits > 0
            invariant 0 <= nbits <= 31 && pn[pos] < Pow2(nbits + 1)
          {
            AndTop(pn[pos], nbits);
            if And(pn[pos], Pow2(nbits)) != 0 {
              LengthFrom(x, pos, nbits);
              return 32 * pos + nbits + 1;
            }
            nbits := nbits - 1;
          }
          FirstPowers();
          LengthFrom(x, pos, 0);
          return 32 * pos + 1;
        }
      }
      ValueZero(x);
      n := 0;
    }

    method GetLow64() returns (r: nat)
      requires Valid()
      ensures r == Int() % (B * B)
    {
      hide Value, Base, Or, Pow2;
      r := Or(pn[0], pn[1] * B);
      LowValue(pn[..]);
    }

    method DivWord(b32: Word) returns (ok: bool)
      requires Valid()
      modifies pn
      ensures ok <==> b32 != 0
      ensures Int() == if ok then old(Int()) / b32 else old(Int())
    {
      hide Value, Base;
      if b32 == 0 {
        return false;
      }
      ghost var x := pn[..];
      var rem := 0;
      var i := WIDTH;
      NoWords(x);
      assert x[WIDTH..] == x[..0] && pn[..][WIDTH..] == x[..0];
      while i > 0
        invariant 0 <= i <= WIDTH && 0 <= rem < b32 && forall k :: 0 <= k < i ==> pn[k] == x[k]
        invariant Value(x[i..]) == Value(pn[..][i..]) * b32 + rem
      {
        i := i - 1;
        DivWordStep(x, pn[..], b32, i, rem);
        var t := rem * B + pn[i];
        ghost var after := pn[..][i := t / b32];
        pn[i] := t / b32;
        assert pn[..] == after;
        rem := t % b32;
      }
      assert x[0..] == x && pn[..][0..] == pn[..];
      DivMod(Value(x), b32, Value(pn[..]), rem);
      ok := true;
    }

    /** One bit of the quotient. */
    method SubtractAt(num: BaseUint, div: BaseUint, shift: nat, ghost d: nat)
      requires Valid() && num.Valid() && div.Valid() && div.pn != num.pn && div.pn != pn && num.pn != pn
      requires shift < 32 * WIDTH && div.Int() == d * Pow2(shift) && num.Int() < d * Pow2(shift + 1)
      requires Int() % Pow2(shift + 1) == 0
      modifies pn, num.pn
      ensures num.Int() + Int() * d == old(num.Int() + Int() * d) && num.Int() < d * Pow2(shift)
      ensures Int() % Pow2(shift) == 0
    {
      hide Value, Base, Pow2, Or;
      SetBit(pn[..], shift);
      TwiceDivisor(d, shift);
      ModOfSmaller(Int(), shift + 1, shift);
      var c := num.CompareTo(div);
      if c >= 0 {
        ghost var quotient := Int();
        ValueBound(num.pn[..]);
        SmallMod(num.Int() - div.Int(), Modulus());
        num.SubAssign(div);
        ghost var after := pn[..][shift / 32 := pn[shift / 32] + Pow2(shift % 32)];
        pn[shift / 32] := Or(pn[shift / 32], Pow2(shift % 32));
        assert pn[..] == after;
        QuotientGrows(quotient, Pow2(shift), d);
      }
    }

    /** Shift-subtract division; without a divisor the quotient is left at zero. */
    method DivAssign(b: BaseUint) returns (ok: bool)
      requires Valid() && b.Valid()
      modifies pn
      ensures ok <==> old(b.Int()) != 0
      ensures Int() == if ok then old(Int()) / old(b.Int()) else 0
    {
      hide Value, Base, Pow2, Or, HasLength;
      ghost var d, n := b.Int(), Int();
      var div := new BaseUint.Copy(b);
      var num := new BaseUint.Copy(this);
      Clear();
      ValueZero(pn[..]);
      var numBits := num.Length();
      var divBits := div.Length();
      LengthZero(d, divBits);
      if divBits == 0 {
        return false;
      }
      if divBits > numBits {
        Shorter(n, numBits, d, divBits);
        return true;
      }
      Aligned(n, numBits, d, divBits);
      var shift := numBits - divBits;
      div.ShiftLeft(shift);
      SmallMod(d * Pow2(shift), Modulus());
      ZeroMultiple(Pow2(shift + 1));
      while shift >= 0
        invariant -1 <= shift < 32 * WIDTH && div.Valid() && num.Valid() && div.pn != num.pn && div.pn != pn && num.pn != pn
        invariant fresh(div.pn) && fresh(num.pn)
        invariant num.Int() + Int() * d == n && num.Int() < d * Pow2(shift + 1) && Int() % Pow2(shift + 1) == 0
        invariant shift >= 0 ==> div.Int() == d * Pow2(shift)
        decreases shift
      {
        SubtractAt(num, div, shift, d);
        div.ShiftRight(1);
        if shift > 0 {
          HalveDivisor(d, shift);
          FirstPowers();
        }
        shift := shift - 1;
      }
      TwiceDivisor(d, 0);
      DivMod(n, d, Int(), num.Int());
      ok := true;
    }
  }
}
