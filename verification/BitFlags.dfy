/** Flags packed eight to a byte. */
module BitFlags {
  import opened Bits

  type Byte = x: int | 0 <= x < 256

  function Bit(x: nat, n: nat): bool {
    Quotient(x, Pow2(n)) % 2 == 1
  }

  lemma {:induction false} BitHalf(x: nat, n: nat)
    requires n > 0
    ensures Bit(x, n) == Bit(x / 2, n - 1)
  {
    DivTwice(x, Pow2(n - 1));
  }

  lemma {:induction false} BitZero(n: nat)
    ensures !Bit(0, n)
  {
    DivMod(0, Pow2(n), 0, 0);
  }

  lemma {:induction false} BitOfPow2(n: nat, m: nat)
    ensures Bit(Pow2(n), m) == (n == m)
  {
    if m > 0 {
      BitHalf(Pow2(n), m);
      if n > 0 {
        BitOfPow2(n - 1, m - 1);
      } else {
        BitZero(m - 1);
      }
    } else {
      assert Pow2(0) == 1;
    }
  }

  lemma {:induction false} BitFirst(x: nat)
    ensures Bit(x, 0) == (x % 2 == 1)
  {
    assert Pow2(0) == 1;
  }

  lemma {:induction false} OrDigits(a: nat, b: nat)
    ensures Or(a, b) / 2 == Or(a / 2, b / 2) && (Or(a, b) % 2 == 1 <==> a % 2 == 1 || b % 2 == 1)
  {
  }

  /** A disjunction has the digits of both. */
  lemma {:induction false} BitOr(a: nat, b: nat, m: nat)
    ensures Bit(Or(a, b), m) == (Bit(a, m) || Bit(b, m))
  {
    hide Bit, Or;
    OrDigits(a, b);
    if m == 0 {
      BitFirst(a);
      BitFirst(b);
      BitFirst(Or(a, b));
    } else {
      BitHalf(a, m);
      BitHalf(b, m);
      BitHalf(Or(a, b), m);
      BitOr(a / 2, b / 2, m - 1);
    }
  }

  /** A conjunction has the digits that both have. */
  lemma {:induction false} BitAnd(a: nat, b: nat, m: nat)
    ensures Bit(And(a, b), m) == (Bit(a, m) && Bit(b, m))
  {
    hide Bit, And;
    LastDigits(a, b);
    if m == 0 {
      BitFirst(a);
      BitFirst(b);
      BitFirst(And(a, b));
    } else {
      BitHalf(a, m);
      BitHalf(b, m);
      BitHalf(And(a, b), m);
      BitAnd(a / 2, b / 2, m - 1);
    }
  }

  lemma {:induction false} LastDigits(a: nat, b: nat)
    ensures And(a, b) / 2 == And(a / 2, b / 2) && And(a, b) % 2 == if a % 2 == 1 && b % 2 == 1 then 1 else 0
  {
    assert a % 2 * (b % 2) == if a % 2 == 1 && b % 2 == 1 then 1 else 0;
  }

  /** The complement within a byte. */
  lemma {:induction false} BitNot(n: nat, m: nat)
    requires n < 8 && m < 8
    ensures Pow2(n) < 256 && Bit(255 - Pow2(n), m) == (n != m)
  {
    assert Pow2(0) == 1 && Pow2(1) == 2 && Pow2(2) == 4 && Pow2(3) == 8;
    assert Pow2(4) == 16 && Pow2(5) == 32 && Pow2(6) == 64 && Pow2(7) == 128;
  }

  lemma {:induction false} OrFits(a: nat, b: nat, n: nat)
    requires a < Pow2(n) && b < Pow2(n)
    ensures Or(a, b) < Pow2(n)
  {
    if n > 0 && a != 0 && b != 0 {
      OrFits(a / 2, b / 2, n - 1);
    }
  }

  lemma {:induction false} AndFits(a: nat, b: nat)
    ensures And(a, b) <= a
  {
    if a != 0 && b != 0 {
      AndFits(a / 2, b / 2);
      LastDigits(a, b);
    }
  }

  /** As many flags as asked for, rounded up to whole bytes, all set at first. */
  class BitPackedFlags {
    const mem: array<Byte>

    predicate IsSet(s: nat)
      requires s < 8 * mem.Length
      reads mem
    {
      Bit(mem[s / 8], s % 8)
    }

    constructor (size: nat)
      ensures fresh(mem) && size <= 8 * mem.Length && forall s :: 0 <= s < 8 * mem.Length ==> IsSet(s)
    {
      hide Bit;
      mem := new Byte[(size + 7) / 8](_ => 0xff);
      new;
      AllOnes();
    }

    method Set(s: nat)
      requires s < 8 * mem.Length
      modifies mem
      ensures forall t :: 0 <= t < 8 * mem.Length ==> IsSet(t) == (t == s || old(IsSet(t)))
    {
      hide Bit, Or, Pow2;
      ghost var before := mem[s / 8];
      SetInByte(before, s % 8);
      mem[s / 8] := Or(mem[s / 8], Pow2(s % 8));
    }

    method Unset(s: nat)
      requires s < 8 * mem.Length
      modifies mem
      ensures forall t :: 0 <= t < 8 * mem.Length ==> IsSet(t) == (t != s && old(IsSet(t)))
    {
      hide Bit, And, Pow2;
      ghost var before := mem[s / 8];
      UnsetInByte(before, s % 8);
      mem[s / 8] := And(mem[s / 8], 255 - Pow2(s % 8));
    }
  }

  lemma {:induction false} AllOnes()
    ensures forall n: nat :: n < 8 ==> Bit(0xff, n)
  {
    assert Pow2(0) == 1 && Pow2(1) == 2 && Pow2(2) == 4 && Pow2(3) == 8;
    assert Pow2(4) == 16 && Pow2(5) == 32 && Pow2(6) == 64 && Pow2(7) == 128;
  }

  lemma {:induction false} ByteLimit()
    ensures Pow2(8) == 256
  {
  }

  lemma {:induction false} SetInByte(x: Byte, n: nat)
    requires n < 8
    ensures Or(x, Pow2(n)) < 256 && forall m: nat :: m < 8 ==> Bit(Or(x, Pow2(n)), m) == (m == n || Bit(x, m))
  {
    hide Bit, Or, Pow2;
    ByteLimit();
    BitNot(n, n);
    OrFits(x, Pow2(n), 8);
    forall m: nat | m < 8
      ensures Bit(Or(x, Pow2(n)), m) == (m == n || Bit(x, m))
    {
      BitOr(x, Pow2(n), m);
      BitOfPow2(n, m);
    }
  }

  lemma {:induction false} UnsetInByte(x: Byte, n: nat)
    requires n < 8
    ensures 0 <= 255 - Pow2(n) && And(x, 255 - Pow2(n)) < 256
    ensures forall m: nat :: m < 8 ==> Bit(And(x, 255 - Pow2(n)), m) == (m != n && Bit(x, m))
  {
    hide Bit, And, Pow2;
    BitNot(n, n);
    var mask := 255 - Pow2(n);
    AndFits(x, mask);
    forall m: nat | m < 8
      ensures Bit(And(x, mask), m) == (m != n && Bit(x, m))
    {
      BitAnd(x, mask, m);
      BitNot(n, m);
    }
  }
}
