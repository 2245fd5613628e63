/** Base 58 with a checksum, and the addresses built from it: a two-byte version, a
    32-byte key and a four-byte checksum. */
module DigiDollarAddress {
  import opened Wrappers
  import opened Bits
  import opened NthRoot
  import opened Base58Digits
  import opened Base58

  /** The first four bytes of the hash, left open. */
  datatype Hasher = Hasher(hash: seq<Byte> -> (Byte, Byte, Byte, Byte))
  {
    function Checksum(bytes: seq<Byte>): (c: seq<Byte>)
      ensures |c| == 4
    {
      var h := hash(bytes);
      [h.0, h.1, h.2, h.3]
    }
  }

  // ----- Checksums ----------------------------------------------------------------------

  function EncodedCheck(h: Hasher, bytes: seq<Byte>): string {
    Encoded(bytes + h.Checksum(bytes))
  }

  function DecodedCheck(h: Hasher, s: string, max: int): Option<seq<Byte>> {
    match Decoded(s, max + 4)
    case None => None
    case Some(all) =>
      if |all| < 4 then None
      else if h.Checksum(all[..|all| - 4]) != all[|all| - 4..] then None
      else Some(all[..|all| - 4])
  }

  lemma {:induction false} CheckRoundTrip(h: Hasher, bytes: seq<Byte>, max: int)
    requires |bytes| <= max
    ensures DecodedCheck(h, EncodedCheck(h, bytes), max) == Some(bytes)
  {
    hide Encoded, Decoded;
    var all := bytes + h.Checksum(bytes);
    DecodeEncode(all, max + 4);
    assert all[..|all| - 4] == bytes && all[|all| - 4..] == h.Checksum(bytes);
  }

  lemma {:induction false} CheckCanonical(h: Hasher, s: string, max: int)
    requires DecodedCheck(h, s, max).Some? && forall i :: 0 <= i < |s| ==> !IsSpace(s[i])
    ensures EncodedCheck(h, DecodedCheck(h, s, max).value) == s
  {
    hide Encoded, Decoded;
    EncodeDecode(s, max + 4);
    var all := Decoded(s, max + 4).value;
    assert all[..|all| - 4] + all[|all| - 4..] == all;
  }

  method EncodeBase58Check(h: Hasher, bytes: seq<Byte>) returns (s: string)
    ensures s == EncodedCheck(h, bytes)
  {
    s := EncodeBase58(bytes + h.Checksum(bytes));
  }

  method DecodeBase58Check(h: Hasher, s: string, max: int) returns (r: Option<seq<Byte>>)
    ensures r == DecodedCheck(h, s, max)
  {
    var all := DecodeBase58(s, max + 4);
    if all.None? || |all.value| < 4 {
      return None;
    }
    var n := |all.value| - 4;
    if h.Checksum(all.value[..n]) != all.value[n..] {
      return None;
    }
    r := Some(all.value[..n]);
  }

  // ----- Prefixes --------------------------------------------------------------------------

  lemma {:induction false} ValConcat(a: seq<nat>, b: seq<nat>, base: nat)
    ensures Val(a + b, base) == Val(a, base) * Power(base, |b|) + Val(b, base)
  {
    if b == [] {
      assert a + b == a;
      assert Power(base, 0) == 1 && Val([], base) == 0;
    } else {
      hide Val;
      var n := |b| - 1;
      var rest, d := b[..n], b[n];
      assert a + b == (a + rest) + [d] && b == rest + [d];
      ValConcat(a, rest, base);
      ValAppend(a + rest, d, base);
      ValAppend(rest, d, base);
      PowerMore(base, n);
      Raise(Val(a, base), Power(base, n), Val(rest, base), base);
    }
  }

  lemma {:induction false} Raise(x: int, p: int, y: int, b: int)
    ensures (x * p + y) * b == x * (p * b) + y * b
  {
    assert x * p * b == x * (p * b);
  }

  /** The digits above a power of the base come first. */
  lemma {:induction false} DigitsFirst(v: nat, q: nat, r: nat, b: nat, k: nat)
    requires b > 1 && q > 0 && v == q * Power(b, k) + r && r < Power(b, k)
    ensures |Digits(v, b)| == |Digits(q, b)| + k && Digits(v, b)[..|Digits(q, b)|] == Digits(q, b)
  {
    hide Power, Digits;
    if k == 0 {
      PowerZeroIs(b);
      assert Digits(q, b)[..|Digits(q, b)|] == Digits(q, b);
    } else {
      PowerMore(b, k - 1);
      var w, low, d := LowerPart(v, q, r, b, Power(b, k - 1), Power(b, k));
      DigitsFirst(w, q, low, b, k - 1);
      LastOf(v, w, d, b);
      PrefixOf(Digits(w, b), d, |Digits(q, b)|);
    }
  }

  lemma {:induction false} PowerZeroIs(b: nat)
    ensures Power(b, 0) == 1
  {
  }

  lemma {:induction false} PrefixOf(s: seq<nat>, d: nat, n: nat)
    requires n <= |s|
    ensures (s + [d])[..n] == s[..n]
  {
  }

  lemma {:induction false} LowerPart(v: nat, q: nat, r: nat, b: nat, p: nat, top: nat) returns (w: nat, low: nat, d: nat)
    requires b > 1 && q > 0 && top == p * b && v == q * top + r && r < top
    ensures w == q * p + low && low < p && v == w * b + d && d < b && v > 0
  {
    NatQuotient(r, b);
    low, d := r / b, r % b;
    w := q * p + low;
    Raise(q, p, low, b);
    if low >= p {
      MulMonotone(p, low, b);
    }
    MulMonotone(1, q, p * b);
  }

  lemma {:induction false} LastOf(v: nat, w: nat, d: nat, b: nat)
    requires b > 1 && v == w * b + d && d < b && v > 0
    ensures Digits(v, b) == Digits(w, b) + [d]
  {
    DivMod(v, b, w, d);
  }

  /** A number between p * 58^50 and (p + 1) * 58^50, where p has two digits. */
  lemma {:induction false} FirstTwo(v: nat, p: nat, a: nat, b: nat)
    requires p == a * 58 + b && 0 < a < 58 && b < 58 && p * Power(58, 50) <= v < (p + 1) * Power(58, 50)
    ensures |Digits(v, 58)| == 52 && Digits(v, 58)[0] == a && Digits(v, 58)[1] == b
  {
    hide Power;
    PowerPositive(58, 50);
    var unit := Power(58, 50);
    assert (p + 1) * unit == p * unit + unit;
    DigitsFirst(v, p, v - p * unit, 58, 50);
    TwoDigits(p, a, b);
    assert Digits(v, 58)[..2] == [a, b];
  }

  lemma {:induction false} TwoDigits(p: nat, a: nat, b: nat)
    requires p == a * 58 + b && 0 < a < 58 && b < 58
    ensures Digits(p, 58) == [a, b]
  {
    assert p / 58 == a && p % 58 == b;
    assert Digits(a, 58) == [a] by {
      assert a / 58 == 0 && a % 58 == a;
      assert Digits(0, 58) == [];
    }
  }

  predicate IsVersion(version: seq<Byte>) {
    version in {MAINNET, TESTNET, REGTEST}
  }

  const MAINNET: seq<Byte> := [0x52, 0x85]
  const TESTNET: seq<Byte> := [0xb1, 0x29]
  const REGTEST: seq<Byte> := [0xa3, 0xa4]

  /** The character that the version puts before a D. */
  function Initial(version: seq<Byte>): char
    requires IsVersion(version)
  {
    if version == MAINNET then 'D' else if version == TESTNET then 'T' else 'R'
  }

  lemma {:induction false} VersionRange(version: seq<Byte>, tail: seq<Byte>)
    requires IsVersion(version) && |tail| == 36
    ensures var p := DigitOf(Initial(version)) * 58 + 12;
            p * Power(58, 50) <= Val(version + tail, 256) < (p + 1) * Power(58, 50)
  {
    hide Power, Val;
    Powers58();
    Powers256();
    ValConcat(version, tail, 256);
    ValBound(tail, 256);
    ValueOfTwo(version[0], version[1]);
    assert version == [version[0], version[1]];
  }

  lemma {:induction false} ValueOfTwo(x: nat, y: nat)
    ensures Val([x, y], 256) == x * 256 + y
  {
    ValAppend([], x, 256);
    ValAppend([x], y, 256);
    assert [] + [x] == [x] && [x] + [y] == [x, y];
    assert Val([], 256) == 0;
  }

  /** Whatever the key and the checksum, an address has 52 characters and starts with
      DD, TD or RD, as its version says. */
  lemma {:induction false} AddressPrefix(h: Hasher, version: seq<Byte>, data: seq<Byte>)
    requires IsVersion(version) && |data| == 32
    ensures var s := EncodedCheck(h, version + data);
            |s| == 52 && s[0] == Initial(version) && s[1] == 'D'
  {
    hide Val, Digits, Power, Leading;
    var tail := data + h.Checksum(version + data);
    var all := version + data + h.Checksum(version + data);
    assert all == version + tail;
    LeadingUnique(all, 0, 0);
    assert all[0..] == all;
    VersionRange(version, tail);
    var a := DigitOf(Initial(version));
    FirstTwo(Val(all, 256), a * 58 + 12, a, 12);
    assert Repeat('1', 0) == [];
    DigitChar(Initial(version));
    DigitsVal(Val(all, 256), 58);
  }

  // ----- Addresses --------------------------------------------------------------------------

  predicate HasSpace(s: string) {
    exists i :: 0 <= i < |s| && IsSpace(s[i])
  }

  /** The version and the key of a valid address. */
  function Parsed(h: Hasher, s: string): Option<(seq<Byte>, seq<Byte>)> {
    if HasSpace(s) then None
    else
      match DecodedCheck(h, s, 256)
      case None => None
      case Some(all) => if |all| == 34 && IsVersion(all[..2]) then Some((all[..2], all[2..])) else None
  }

  /** An address is read back as it was, and no other text reads as the same. */
  lemma {:induction false} AddressRoundTrip(h: Hasher, version: seq<Byte>, data: seq<Byte>, s: string)
    requires IsVersion(version) && |data| == 32
    ensures Parsed(h, s) == Some((version, data)) <==> s == EncodedCheck(h, version + data)
  {
    hide Encoded, Decoded;
    var all := version + data;
    assert all[..2] == version && all[2..] == data;
    CheckRoundTrip(h, all, 256);
    EncodedFacts(all + h.Checksum(all));
    ValidHasNoSpace(EncodedCheck(h, all));
    if Parsed(h, s) == Some((version, data)) {
      CheckCanonical(h, s, 256);
      var got := DecodedCheck(h, s, 256).value;
      assert got == got[..2] + got[2..];
    }
  }

  lemma {:induction false} ValidHasNoSpace(s: string)
    requires Valid(s)
    ensures !HasSpace(s)
  {
    forall i | 0 <= i < |s|
      ensures !IsSpace(s[i])
    {
      DigitChar(s[i]);
    }
  }

  class CDigiDollarAddress {
    const hasher: Hasher
    var vchVersion: seq<Byte>
    var vchData: seq<Byte>
    var fValid: bool

    predicate IsValid()
      reads this
    {
      fValid && |vchData| == 32 && |vchVersion| == 2
    }

    constructor (h: Hasher, s: string)
      ensures hasher == h && (IsValid() <==> Parsed(h, s).Some?)
      ensures IsValid() ==> Parsed(h, s) == Some((vchVersion, vchData))
    {
      hide DecodedCheck;
      hasher := h;
      vchVersion, vchData, fValid := [], [], false;
      new;
      for i := 0 to |s|
        invariant !fValid && forall k :: 0 <= k < i ==> !IsSpace(s[k])
      {
        if IsSpace(s[i]) {
          return;
        }
      }
      var all := DecodeBase58Check(h, s, 256);
      if all.Some? && |all.value| == 34 {
        vchVersion, vchData := all.value[..2], all.value[2..];
        fValid := vchVersion == MAINNET || vchVersion == TESTNET || vchVersion == REGTEST;
      }
    }

    /** Take the key of a taproot destination; other destinations have none. */
    method SetDigiDollar(key: Option<seq<Byte>>, version: seq<Byte>) returns (ok: bool)
      requires key.Some? ==> |key.value| == 32
      modifies this
      ensures ok == (key.Some? && IsVersion(version)) == IsValid()
      ensures ok ==> vchVersion == version && vchData == key.value
    {
      vchVersion, vchData, fValid := [], [], false;
      if key.None? || !IsVersion(version) {
        return false;
      }
      vchVersion, vchData, fValid := version, key.value, true;
      ok := true;
    }

    method ToString() returns (s: string)
      ensures s == if IsValid() then EncodedCheck(hasher, vchVersion + vchData) else ""
    {
      if !fValid || |vchData| != 32 || |vchVersion| != 2 {
        return "";
      }
      s := EncodeBase58Check(hasher, vchVersion + vchData);
    }
  }
}
