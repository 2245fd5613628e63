/** Numbers as little-endian sequences of 32-bit words. */
module Limbs {
  import opened Bits

  const B: nat := 0x1_0000_0000

  type Word = x: int | 0 <= x < 0x1_0000_0000

  /** The weight of word n. */
  function Base(n: nat): (r: nat)
    ensures r >= 1
  {
    Pow2(32 * n)
  }

  function Value(s: seq<Word>): nat {
    if s == [] then 0 else Value(s[..|s| - 1]) + s[|s| - 1] * Base(|s| - 1)
  }

  lemma {:induction false} Pow2Word()
    ensures Pow2(32) == B
  {
    assert Pow2(8) == 256;
    Pow2Adds(8, 8);
    Pow2Adds(16, 16);
  }

  lemma {:induction false} BaseNext(n: nat)
    ensures Base(n + 1) == B * Base(n) && Base(0) == 1
  {
    Pow2Word();
    Pow2Adds(32, 32 * n);
  }

  lemma {:induction false} BaseAdds(m: nat, n: nat)
    ensures Base(m + n) == Base(m) * Base(n)
  {
    Pow2Adds(32 * m, 32 * n);
  }

  lemma {:induction false} ValueBound(s: seq<Word>)
    ensures Value(s) < Base(|s|)
  {
    if s != [] {
      var n := |s| - 1;
      ValueBound(s[..n]);
      BaseNext(n);
      MulMonotone(s[n], B - 1, Base(n));
      assert B * Base(n) == (B - 1) * Base(n) + Base(n);
    }
  }

  lemma {:induction false} ValuePrefix(s: seq<Word>, i: nat)
    requires i < |s|
    ensures Value(s[..i + 1]) == Value(s[..i]) + s[i] * Base(i)
  {
    assert s[..i + 1][..i] == s[..i];
  }

  lemma {:induction false} ValueUpdate(s: seq<Word>, j: nat, x: Word)
    requires j < |s|
    ensures Value(s[j := x]) == Value(s) + (x - s[j]) * Base(j)
  {
    var n := |s| - 1;
    if j == n {
      assert s[j := x][..n] == s[..n];
      assert (x - s[j]) * Base(j) == x * Base(j) - s[j] * Base(j);
    } else {
      assert s[j := x][..n] == s[..n][j := x];
      ValueUpdate(s[..n], j, x);
    }
  }

  lemma {:induction false} ValueSplit(s: seq<Word>, m: nat)
    requires m <= |s|
    ensures Value(s) == Value(s[..m]) + Base(m) * Value(s[m..])
  {
    if m == |s| {
      assert s[..m] == s && s[m..] == [];
    } else {
      var n := |s| - 1;
      var low := s[..n];
      ValueSplit(low, m);
      assert low[..m] == s[..m] && low[m..] == s[m..][..n - m] && s[m..][n - m] == s[n];
      BaseAdds(m, n - m);
      var rest := Value(low[m..]);
      Distribute(Base(m), rest, s[n], Base(n - m));
    }
  }

  lemma {:induction false} Distribute(a: nat, x: nat, w: nat, b: nat)
    ensures a * (x + w * b) == a * x + w * (a * b)
  {
    assert a * (w * b) == w * (a * b) by {
      assert a * (w * b) == (a * w) * b == (w * a) * b;
    }
  }

  lemma {:induction false} ValueHead(s: seq<Word>)
    requires s != []
    ensures Value(s) == s[0] + B * Value(s[1..])
  {
    ValueSplit(s, 1);
    BaseNext(0);
    assert s[..1] == [s[0]];
    assert Value([s[0]]) == s[0] by {
      assert [s[0]][..0] == [];
      assert s[0] * Base(0) == s[0];
    }
  }

  lemma {:induction false} ValueZero(s: seq<Word>)
    requires forall i :: 0 <= i < |s| ==> s[i] == 0
    ensures Value(s) == 0
  {
    if s != [] {
      ValueZero(s[..|s| - 1]);
    }
  }

  /** Different words, different numbers. */
  lemma {:induction false} ValueInjective(s: seq<Word>, t: seq<Word>)
    requires |s| == |t| && Value(s) == Value(t)
    ensures s == t
  {
    if s != [] {
      ValueHead(s);
      ValueHead(t);
      var u, v := Value(s[1..]), Value(t[1..]);
      DivMod(Value(s), B, u, s[0]);
      DivMod(Value(t), B, v, t[0]);
      ValueInjective(s[1..], t[1..]);
      assert s == [s[0]] + s[1..] && t == [t[0]] + t[1..];
    }
  }
}
