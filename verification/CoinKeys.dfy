/** The order of coins in the database: by the bytes of the serialized key. */
module CoinKeys {
  import opened Coin

  /** Lexicographic order on byte strings. */
  predicate LexLess(a: seq<byte>, b: seq<byte>) {
    if b == [] then false
    else if a == [] then true
    else if a[0] != b[0] then a[0] < b[0]
    else LexLess(a[1..], b[1..])
  }

  lemma {:induction false} LexTransitive(a: seq<byte>, b: seq<byte>, c: seq<byte>)
    requires LexLess(a, b) && LexLess(b, c)
    ensures LexLess(a, c)
  {
    if a != [] && a[0] == b[0] == c[0] {
      LexTransitive(a[1..], b[1..], c[1..]);
    }
  }

  lemma {:induction false} LexTrichotomy(a: seq<byte>, b: seq<byte>)
    ensures !(LexLess(a, b) && LexLess(b, a))
    ensures LexLess(a, b) || LexLess(b, a) <==> a != b
  {
    if a != [] && b != [] {
      LexTrichotomy(a[1..], b[1..]);
      assert a == [a[0]] + a[1..] && b == [b[0]] + b[1..];
    }
  }

  /** Strings with prefixes of one length compare by the prefixes first. */
  lemma {:induction false} LexPrefix(x: seq<byte>, y: seq<byte>, a: seq<byte>, b: seq<byte>)
    requires |x| == |y|
    ensures LexLess(x + a, y + b) <==> if x == y then LexLess(a, b) else LexLess(x, y)
  {
    if x == [] {
      assert x + a == a && y + b == b;
    } else {
      LexPrefix(x[1..], y[1..], a, b);
      assert (x + a)[1..] == x[1..] + a && (y + b)[1..] == y[1..] + b;
      assert x == [x[0]] + x[1..] && y == [y[0]] + y[1..];
    }
  }

  /** Variable-length integer: base 128, most significant digit first, the high
      bit set on all digits but the last, one subtracted from each carry. */
  function VarInt(n: nat): seq<byte> {
    if n <= 0x7f then [n] else VarIntHigh(n / 128 - 1) + [n % 128]
  }

  function VarIntHigh(n: nat): seq<byte> {
    if n <= 0x7f then [n + 128] else VarIntHigh(n / 128 - 1) + [n % 128 + 128]
  }

  lemma {:induction false} VarIntHighInjective(m: nat, n: nat)
    requires VarIntHigh(m) == VarIntHigh(n)
    ensures m == n
  {
    var a, b := VarIntHigh(m), VarIntHigh(n);
    assert a[|a| - 1] == b[|b| - 1];
    if m > 0x7f && n > 0x7f {
      assert a[..|a| - 1] == VarIntHigh(m / 128 - 1) && b[..|b| - 1] == VarIntHigh(n / 128 - 1);
      VarIntHighInjective(m / 128 - 1, n / 128 - 1);
    }
  }

  lemma {:induction false} VarIntInjective(m: nat, n: nat)
    requires VarInt(m) == VarInt(n)
    ensures m == n
  {
    var a, b := VarInt(m), VarInt(n);
    assert a[|a| - 1] == b[|b| - 1];
    if m > 0x7f && n > 0x7f {
      assert a[..|a| - 1] == VarIntHigh(m / 128 - 1) && b[..|b| - 1] == VarIntHigh(n / 128 - 1);
      VarIntHighInjective(m / 128 - 1, n / 128 - 1);
    }
  }

  /** The database key of a coin, without the constant type byte. */
  function Key(o: OutPoint): seq<byte> {
    o.hash + VarInt(o.n)
  }

  /** The comparison the cursor sorts by. */
  predicate CoinDatabaseKeyLess(a: OutPoint, b: OutPoint) {
    if a.hash != b.hash then LexLess(a.hash, b.hash)
    else a.n != b.n && LexLess(VarInt(a.n), VarInt(b.n))
  }

  /** It is the byte order of the serialized keys ... */
  lemma {:induction false} KeyOrder(a: OutPoint, b: OutPoint)
    ensures CoinDatabaseKeyLess(a, b) <==> LexLess(Key(a), Key(b))
  {
    LexPrefix(a.hash, b.hash, VarInt(a.n), VarInt(b.n));
    LexTrichotomy(VarInt(a.n), VarInt(b.n));
  }

  lemma {:induction false} KeyInjective(a: OutPoint, b: OutPoint)
    requires Key(a) == Key(b)
    ensures a == b
  {
    assert a.hash == Key(a)[..32] == Key(b)[..32] == b.hash;
    assert VarInt(a.n) == Key(a)[32..] == Key(b)[32..] == VarInt(b.n);
    VarIntInjective(a.n, b.n);
  }

  /** ... and a strict total order on outpoints, */
  lemma {:induction false} KeyLessTotal(a: OutPoint, b: OutPoint)
    ensures !(CoinDatabaseKeyLess(a, b) && CoinDatabaseKeyLess(b, a))
    ensures CoinDatabaseKeyLess(a, b) || CoinDatabaseKeyLess(b, a) <==> a != b
  {
    KeyOrder(a, b);
    KeyOrder(b, a);
    LexTrichotomy(Key(a), Key(b));
    if Key(a) == Key(b) {
      KeyInjective(a, b);
    }
  }

  lemma {:induction false} KeyLessTransitive(a: OutPoint, b: OutPoint, c: OutPoint)
    requires CoinDatabaseKeyLess(a, b) && CoinDatabaseKeyLess(b, c)
    ensures CoinDatabaseKeyLess(a, c)
  {
    KeyOrder(a, b);
    KeyOrder(b, c);
    KeyOrder(a, c);
    LexTransitive(Key(a), Key(b), Key(c));
  }

  /** ... but not the numeric order: 16512 takes three bytes and sorts before 256. */
  lemma {:induction false} NotNumericOrder(h: Hash256)
    ensures CoinDatabaseKeyLess(OutPoint(h, 16512), OutPoint(h, 256))
  {
    assert VarIntHigh(128) == VarIntHigh(0) + [128];
    assert VarInt(16512) == VarIntHigh(128) + [0] == [128, 128, 0];
    assert VarInt(256) == [129, 0];
  }
}
