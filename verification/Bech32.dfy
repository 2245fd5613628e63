/** Bech32 and Bech32m strings: a human-readable part, the separator 1, and 5-bit
    symbols of which the last six are the checksum. */
module Bech32 {
  import opened Wrappers
  import opened Bech32Checksum

  /** A character code. */
  type Letter = bv8

  datatype Encoding = Original | Modified

  /** The remainder that a valid string leaves. */
  function Constant(e: Encoding): Bits {
    match e
    case Original => 1
    case Modified => 0x2bc830a3
  }

  const SEPARATOR: Letter := 0x31

  // ----- Characters -----------------------------------------------------------------------

  /** The character of a 5-bit value. */
  function Symbol(v: Bits): Letter {
    if v == 0 then 0x71  // q
    else if v == 1 then 0x70  // p
    else if v == 2 then 0x7a  // z
    else if v == 3 then 0x72  // r
    else if v == 4 then 0x79  // y
    else if v == 5 then 0x39  // 9
    else if v == 6 then 0x78  // x
    else if v == 7 then 0x38  // 8
    else if v == 8 then 0x67  // g
    else if v == 9 then 0x66  // f
    else if v == 10 then 0x32  // 2
    else if v == 11 then 0x74  // t
    else if v == 12 then 0x76  // v
    else if v == 13 then 0x64  // d
    else if v == 14 then 0x77  // w
    else if v == 15 then 0x30  // 0
    else if v == 16 then 0x73  // s
    else if v == 17 then 0x33  // 3
    else if v == 18 then 0x6a  // j
    else if v == 19 then 0x6e  // n
    else if v == 20 then 0x35  // 5
    else if v == 21 then 0x34  // 4
    else if v == 22 then 0x6b  // k
    else if v == 23 then 0x68  // h
    else if v == 24 then 0x63  // c
    else if v == 25 then 0x65  // e
    else if v == 26 then 0x36  // 6
    else if v == 27 then 0x6d  // m
    else if v == 28 then 0x75  // u
    else if v == 29 then 0x61  // a
    else if v == 30 then 0x37  // 7
    else 0x6c  // l
  }

  /** The value of a lower-case character. */
  function LowerValue(c: Letter): Option<Bits> {
    if c == 0x71 then Some(0)
    else if c == 0x70 then Some(1)
    else if c == 0x7a then Some(2)
    else if c == 0x72 then Some(3)
    else if c == 0x79 then Some(4)
    else if c == 0x39 then Some(5)
    else if c == 0x78 then Some(6)
    else if c == 0x38 then Some(7)
    else if c == 0x67 then Some(8)
    else if c == 0x66 then Some(9)
    else if c == 0x32 then Some(10)
    else if c == 0x74 then Some(11)
    else if c == 0x76 then Some(12)
    else if c == 0x64 then Some(13)
    else if c == 0x77 then Some(14)
    else if c == 0x30 then Some(15)
    else if c == 0x73 then Some(16)
    else if c == 0x33 then Some(17)
    else if c == 0x6a then Some(18)
    else if c == 0x6e then Some(19)
    else if c == 0x35 then Some(20)
    else if c == 0x34 then Some(21)
    else if c == 0x6b then Some(22)
    else if c == 0x68 then Some(23)
    else if c == 0x63 then Some(24)
    else if c == 0x65 then Some(25)
    else if c == 0x36 then Some(26)
    else if c == 0x6d then Some(27)
    else if c == 0x75 then Some(28)
    else if c == 0x61 then Some(29)
    else if c == 0x37 then Some(30)
    else if c == 0x6c then Some(31)
    else None
  }

  predicate IsUpper(c: Letter) {
    0x41 <= c <= 0x5a
  }

  predicate IsLower(c: Letter) {
    0x61 <= c <= 0x7a
  }

  predicate Printable(c: Letter) {
    33 <= c <= 126
  }

  function LowerCase(c: Letter): Letter {
    if IsUpper(c) then (c - 0x41) + 0x61 else c
  }

  /** The value of a character of either case. */
  function ValueOf(c: Letter): Option<Bits> {
    LowerValue(LowerCase(c))
  }

  lemma {:induction false} SymbolValue(v: Bits)
    requires v < 32
    ensures LowerValue(Symbol(v)) == Some(v)
  {
    if v == 0 {
    } else if v == 1 {
    } else if v == 2 {
    } else if v == 3 {
    } else if v == 4 {
    } else if v == 5 {
    } else if v == 6 {
    } else if v == 7 {
    } else if v == 8 {
    } else if v == 9 {
    } else if v == 10 {
    } else if v == 11 {
    } else if v == 12 {
    } else if v == 13 {
    } else if v == 14 {
    } else if v == 15 {
    } else if v == 16 {
    } else if v == 17 {
    } else if v == 18 {
    } else if v == 19 {
    } else if v == 20 {
    } else if v == 21 {
    } else if v == 22 {
    } else if v == 23 {
    } else if v == 24 {
    } else if v == 25 {
    } else if v == 26 {
    } else if v == 27 {
    } else if v == 28 {
    } else if v == 29 {
    } else if v == 30 {
    }
  }

  lemma {:induction false} SymbolPlain(v: Bits)
    ensures Printable(Symbol(v)) && !IsUpper(Symbol(v)) && Symbol(v) != SEPARATOR
  {
  }

  lemma {:induction false} ValueSymbol(c: Letter)
    requires LowerValue(c).Some?
    ensures LowerValue(c).value < 32 && Symbol(LowerValue(c).value) == c
  {
    if c == 0x71 {
    } else if c == 0x70 {
    } else if c == 0x7a {
    } else if c == 0x72 {
    } else if c == 0x79 {
    } else if c == 0x39 {
    } else if c == 0x78 {
    } else if c == 0x38 {
    } else if c == 0x67 {
    } else if c == 0x66 {
    } else if c == 0x32 {
    } else if c == 0x74 {
    } else if c == 0x76 {
    } else if c == 0x64 {
    } else if c == 0x77 {
    } else if c == 0x30 {
    } else if c == 0x73 {
    } else if c == 0x33 {
    } else if c == 0x6a {
    } else if c == 0x6e {
    } else if c == 0x35 {
    } else if c == 0x34 {
    } else if c == 0x6b {
    } else if c == 0x68 {
    } else if c == 0x63 {
    } else if c == 0x65 {
    } else if c == 0x36 {
    } else if c == 0x6d {
    } else if c == 0x75 {
    } else if c == 0x61 {
    } else if c == 0x37 {
    } else if c == 0x6c {
    }
  }

  lemma {:induction false} NotUpper(c: Letter)
    requires !IsUpper(c)
    ensures LowerCase(c) == c
  {
  }

  // ----- Specification ------------------------------------------------------------------------

  function High(c: Letter): Bits {
    (c >> 5) as Bits
  }

  function LowFive(c: Letter): Bits {
    (c & 0x1f) as Bits
  }

  lemma {:induction false} PartsAreFives(c: Letter)
    ensures High(c) < 32 && LowFive(c) < 32
  {
  }

  /** The human-readable part as values: the high bits, a zero, the low bits. */
  function Expanded(hrp: seq<Letter>): (v: seq<Bits>)
    ensures |v| == 2 * |hrp| + 1
  {
    seq(|hrp|, i requires 0 <= i < |hrp| => High(hrp[i])) + [0] + seq(|hrp|, i requires 0 <= i < |hrp| => LowFive(hrp[i]))
  }

  lemma {:induction false} ExpandedIsFives(hrp: seq<Letter>)
    ensures Fives(Expanded(hrp))
  {
    hide High, LowFive;
    var v := Expanded(hrp);
    var n := |hrp|;
    forall i | 0 <= i < |v|
      ensures v[i] < 32
    {
      if i < n {
        PartsAreFives(hrp[i]);
      } else if i > n {
        PartsAreFives(hrp[i - n - 1]);
      }
    }
  }

  /** The encoding under which a human-readable part and values verify. */
  function Verified(hrp: seq<Letter>, values: seq<Bits>): Option<Encoding> {
    var check := PolyModOf(Expanded(hrp) + values);
    if check == Constant(Original) then Some(Original)
    else if check == Constant(Modified) then Some(Modified)
    else None
  }

  function Symbols(values: seq<Bits>): (s: seq<Letter>)
    ensures |s| == |values|
  {
    seq(|values|, i requires 0 <= i < |values| => Symbol(values[i]))
  }

  function Checksum(e: Encoding, hrp: seq<Letter>, values: seq<Bits>): (g: seq<Bits>)
    ensures |g| == 6
  {
    ChecksumOf(Constant(e), Expanded(hrp) + values)
  }

  function Encoded(e: Encoding, hrp: seq<Letter>, values: seq<Bits>): seq<Letter> {
    hrp + [SEPARATOR] + Symbols(values + Checksum(e, hrp, values))
  }

  /** Printable characters, not of both cases. */
  predicate CharsOk(s: seq<Letter>) {
    && (forall i :: 0 <= i < |s| ==> Printable(s[i]))
    && !((exists i :: 0 <= i < |s| && IsUpper(s[i])) && (exists i :: 0 <= i < |s| && IsLower(s[i])))
  }

  function LastSeparator(s: seq<Letter>): Option<nat> {
    if s == [] then None
    else if s[|s| - 1] == SEPARATOR then Some(|s| - 1)
    else LastSeparator(s[..|s| - 1])
  }

  predicate AllValues(s: seq<Letter>) {
    forall i :: 0 <= i < |s| ==> ValueOf(s[i]).Some?
  }

  function Values(s: seq<Letter>): (v: seq<Bits>)
    requires AllValues(s)
    ensures |v| == |s|
  {
    seq(|s|, i requires 0 <= i < |s| => ValueOf(s[i]).value)
  }

  function Lowered(s: seq<Letter>): (t: seq<Letter>)
    ensures |t| == |s|
  {
    seq(|s|, i requires 0 <= i < |s| => LowerCase(s[i]))
  }

  datatype Parsed = Parsed(encoding: Encoding, hrp: seq<Letter>, values: seq<Bits>)

  function Decoded(s: seq<Letter>): Option<Parsed> {
    if !CharsOk(s) || |s| > 90 then None
    else
      match LastSeparator(s)
      case None => None
      case Some(pos) =>
        if pos == 0 || pos + 7 > |s| || !AllValues(s[pos + 1..]) then None
        else
          var hrp := Lowered(s[..pos]);
          var values := Values(s[pos + 1..]);
          match Verified(hrp, values)
          case None => None
          case Some(e) => Some(Parsed(e, hrp, values[..|values| - 6]))
  }

  // ----- Round trips ---------------------------------------------------------------------------

  /** A human-readable part that can be encoded. */
  predicate Legal(hrp: seq<Letter>) {
    hrp != [] && forall i :: 0 <= i < |hrp| ==> Printable(hrp[i]) && !IsUpper(hrp[i])
  }

  lemma {:induction false} SeparatorFound(s: seq<Letter>, pos: nat)
    requires pos < |s| && s[pos] == SEPARATOR && forall i :: pos < i < |s| ==> s[i] != SEPARATOR
    ensures LastSeparator(s) == Some(pos)
  {
    if pos < |s| - 1 {
      SeparatorFound(s[..|s| - 1], pos);
    }
  }

  lemma {:induction false} SeparatorIs(s: seq<Letter>)
    requires LastSeparator(s).Some?
    ensures var pos := LastSeparator(s).value;
            pos < |s| && s[pos] == SEPARATOR && forall i :: pos < i < |s| ==> s[i] != SEPARATOR
  {
    if s[|s| - 1] != SEPARATOR {
      SeparatorIs(s[..|s| - 1]);
    }
  }

  lemma {:induction false} ConstantsFit(e: Encoding)
    ensures Constant(e) < 0x4000_0000 && Constant(Original) != Constant(Modified)
  {
  }

  lemma {:induction false} ChecksumAccepted(e: Encoding, hrp: seq<Letter>, values: seq<Bits>)
    requires Fives(values)
    ensures Verified(hrp, values + Checksum(e, hrp, values)) == Some(e) && Fives(Checksum(e, hrp, values))
  {
    hide PolyModOf, Constant, ChecksumOf, Expanded;
    ExpandedIsFives(hrp);
    ConstantsFit(e);
    var v := Expanded(hrp) + values;
    ChecksumVerifies(Constant(e), v);
    assert Expanded(hrp) + (values + Checksum(e, hrp, values)) == v + Checksum(e, hrp, values);
  }

  lemma {:induction false} SymbolsDecode(values: seq<Bits>)
    requires Fives(values)
    ensures AllValues(Symbols(values)) && Values(Symbols(values)) == values
    ensures forall i :: 0 <= i < |values| ==> PlainLetter(Symbols(values)[i]) && Symbols(values)[i] != SEPARATOR
  {
    hide Symbol, LowerValue, Printable, IsUpper, LowerCase;
    var s := Symbols(values);
    forall i | 0 <= i < |s|
      ensures ValueOf(s[i]) == Some(values[i]) && PlainLetter(s[i]) && s[i] != SEPARATOR
    {
      SymbolValue(values[i]);
      SymbolPlain(values[i]);
      NotUpper(s[i]);
    }
  }

  predicate PlainLetter(c: Letter) {
    Printable(c) && !IsUpper(c)
  }

  lemma {:induction false} PlainText(s: seq<Letter>)
    requires forall i :: 0 <= i < |s| ==> PlainLetter(s[i])
    ensures CharsOk(s) && Lowered(s) == s
  {
    hide Printable, IsUpper, IsLower, LowerCase;
    forall i | 0 <= i < |s|
      ensures LowerCase(s[i]) == s[i]
    {
      NotUpper(s[i]);
    }
  }

  lemma {:induction false} SeparatorPlain()
    ensures PlainLetter(SEPARATOR)
  {
  }

  /** Every legal part and all values within 90 characters survive the round trip. */
  lemma {:induction false} DecodeEncode(e: Encoding, hrp: seq<Letter>, values: seq<Bits>)
    requires Legal(hrp) && Fives(values) && |hrp| + 1 + |values| + 6 <= 90
    ensures Decoded(Encoded(e, hrp, values)) == Some(Parsed(e, hrp, values))
  {
    hide CharsOk, LastSeparator, Verified, Values, AllValues, Symbols, Checksum, Lowered, Printable, IsUpper;
    var g := Checksum(e, hrp, values);
    ChecksumAccepted(e, hrp, values);
    var all := values + g;
    var tail := Symbols(all);
    SymbolsDecode(all);
    var s := Encoded(e, hrp, values);
    var pos := |hrp|;
    assert s[..pos] == hrp && s[pos + 1..] == tail;
    SeparatorPlain();
    forall i | 0 <= i < |s|
      ensures PlainLetter(s[i]) && (i > pos ==> s[i] != SEPARATOR)
    {
      if i > pos {
        assert s[i] == tail[i - pos - 1];
      }
    }
    PlainText(s);
    PlainText(hrp);
    SeparatorFound(s, pos);
    assert all[..|all| - 6] == values;
  }

  lemma {:induction false} VerifiedMeans(hrp: seq<Letter>, values: seq<Bits>, e: Encoding)
    ensures Verified(hrp, values) == Some(e) <==> PolyModOf(Expanded(hrp) + values) == Constant(e)
  {
    hide PolyModOf, Expanded;
    ConstantsFit(e);
  }

  lemma {:induction false} ValuesEncode(s: seq<Letter>)
    requires AllValues(s)
    ensures Fives(Values(s)) && Symbols(Values(s)) == Lowered(s)
  {
    hide Symbol, LowerValue, LowerCase;
    forall i | 0 <= i < |s|
      ensures Values(s)[i] < 32 && Symbol(Values(s)[i]) == LowerCase(s[i])
    {
      ValueSymbol(LowerCase(s[i]));
    }
  }

  lemma {:induction false} LowerSeparator()
    ensures LowerCase(SEPARATOR) == SEPARATOR
  {
  }

  /** What is decoded is encoded again as the same text in lower case. */
  lemma {:induction false} EncodeDecode(s: seq<Letter>)
    requires Decoded(s).Some?
    ensures var d := Decoded(s).value; Encoded(d.encoding, d.hrp, d.values) == Lowered(s)
  {
    hide CharsOk, LastSeparator, Verified, ChecksumOf, PolyModOf, Expanded, Constant, LowerCase, Symbol, ValueOf, AllValues;
    SeparatorIs(s);
    var pos := LastSeparator(s).value;
    var tail := s[pos + 1..];
    var hrp, all := Lowered(s[..pos]), Values(tail);
    var d := Decoded(s).value;
    var g := all[|all| - 6..];
    assert all == d.values + g;
    ValuesEncode(tail);
    VerifiedMeans(hrp, all, d.encoding);
    var v := Expanded(hrp) + d.values;
    assert Expanded(hrp) + all == v + g;
    SuffixFives(all);
    ChecksumUnique(Constant(d.encoding), v, g);
    LowerSeparator();
    assert s == s[..pos] + [s[pos]] + tail;
    assert Lowered(s) == Lowered(s[..pos]) + [SEPARATOR] + Lowered(tail);
  }

  lemma {:induction false} SuffixFives(v: seq<Bits>)
    requires Fives(v) && |v| >= 6
    ensures Fives(v[|v| - 6..])
  {
  }

  /** A single changed symbol is always found out, whatever the length. */
  lemma {:induction false} ChangeDetected(e: Encoding, hrp: seq<Letter>, values: seq<Bits>, i: nat, x: Bits)
    requires Fives(values) && Verified(hrp, values) == Some(e) && i < |values| && x < 32 && x != values[i]
    ensures Verified(hrp, values[i := x]) != Some(e)
  {
    hide Expanded, Constant, Verified, PolyModFrom;
    var n := |Expanded(hrp)|;
    var v := Expanded(hrp) + values;
    assert v[n + i := x] == Expanded(hrp) + values[i := x];
    OneChange(1, v, n + i, x);
    VerifiedMeans(hrp, values, e);
    VerifiedMeans(hrp, values[i := x], e);
  }

  // ----- The loops ---------------------------------------------------------------------------

  method ExpandHrp(hrp: seq<Letter>) returns (r: seq<Bits>)
    ensures r == Expanded(hrp)
  {
    hide High, LowFive;
    var n := |hrp|;
    r := Zeros(2 * n + 1);
    for i := 0 to n
      invariant |r| == 2 * n + 1 && r[n] == 0
      invariant forall k :: 0 <= k < i ==> r[k] == High(hrp[k]) && r[n + 1 + k] == LowFive(hrp[k])
    {
      r := r[i := High(hrp[i])];
      r := r[i + n + 1 := LowFive(hrp[i])];
    }
    r := r[n := 0];
    forall k | 0 <= k < 2 * n + 1
      ensures r[k] == Expanded(hrp)[k]
    {
      if k > n {
        assert r[n + 1 + (k - n - 1)] == LowFive(hrp[k - n - 1]);
      }
    }
  }

  method VerifyChecksum(hrp: seq<Letter>, values: seq<Bits>) returns (e: Option<Encoding>)
    ensures e == Verified(hrp, values)
  {
    hide Constant, PolyModOf, Expanded;
    var expanded := ExpandHrp(hrp);
    var check := PolyMod(expanded + values);
    if check == Constant(Original) {
      return Some(Original);
    }
    if check == Constant(Modified) {
      return Some(Modified);
    }
    e := None;
  }

  method CreateChecksum(e: Encoding, hrp: seq<Letter>, values: seq<Bits>) returns (g: seq<Bits>)
    ensures g == Checksum(e, hrp, values)
  {
    hide Constant, PolyModOf, Expanded, Plus, Low, Down;
    var expanded := ExpandHrp(hrp);
    var remainder := PolyMod(expanded + values + Zeros(6));
    var m := Plus(remainder, Constant(e));
    g := [];
    for i := 0 to 6
      invariant g == Groups(m)[..i]
    {
      NthGroup(m, i);
      g := g + [Low(DownTimes(m, 5 - i))];
    }
    assert g == Groups(m);
  }

  /** Down by five bits at a time. */
  function DownTimes(m: Bits, n: nat): Bits {
    if n == 0 then m else Down(DownTimes(m, n - 1))
  }

  lemma {:induction false} NthGroup(m: Bits, i: nat)
    requires i < 6
    ensures Groups(m)[i] == Low(DownTimes(m, 5 - i))
  {
    hide Low, Down;
    var d1 := Down(m);
    var d2 := Down(d1);
    var d3 := Down(d2);
    var d4 := Down(d3);
    assert DownTimes(m, 1) == d1;
    assert DownTimes(m, 2) == d2;
    assert DownTimes(m, 3) == d3;
    assert DownTimes(m, 4) == d4;
    assert DownTimes(m, 5) == Down(d4);
  }

  /** The characters that are not printable, or of another case than the first letter. */
  method CheckCharacters(s: seq<Letter>) returns (errors: seq<nat>)
    ensures errors == [] <==> CharsOk(s)
  {
    hide Printable, IsUpper, IsLower;
    errors := [];
    var lower, upper := false, false;
    for i := 0 to |s|
      invariant errors == [] <==> CharsOk(s[..i])
      invariant errors == [] ==> (lower <==> exists k :: 0 <= k < i && IsLower(s[k]))
      invariant errors == [] ==> (upper <==> exists k :: 0 <= k < i && IsUpper(s[k]))
    {
      CharsNext(s, i);
      CaseFacts(s[i]);
      if IsLower(s[i]) {
        if upper {
          errors := errors + [i];
        } else {
          lower := true;
        }
      } else if IsUpper(s[i]) {
        if lower {
          errors := errors + [i];
        } else {
          upper := true;
        }
      } else if !Printable(s[i]) {
        errors := errors + [i];
      }
    }
    assert s[..|s|] == s;
  }

  lemma {:induction false} CaseFacts(c: Letter)
    ensures !(IsLower(c) && IsUpper(c)) && (IsLower(c) || IsUpper(c) ==> Printable(c))
  {
  }

  lemma {:induction false} CharsNext(s: seq<Letter>, i: nat)
    requires i < |s|
    ensures CharsOk(s[..i + 1]) <==>
            && CharsOk(s[..i]) && Printable(s[i])
            && !(IsUpper(s[i]) && (IsLower(s[i]) || exists k :: 0 <= k < i && IsLower(s[k])))
            && !(IsLower(s[i]) && (IsUpper(s[i]) || exists k :: 0 <= k < i && IsUpper(s[k])))
  {
    hide Printable, IsUpper, IsLower;
    var t, u := s[..i], s[..i + 1];
    assert forall k :: 0 <= k < i ==> t[k] == s[k] && u[k] == s[k];
    assert u[i] == s[i];
  }

  method Encode(e: Encoding, hrp: seq<Letter>, values: seq<Bits>) returns (s: seq<Letter>)
    requires Fives(values)
    requires forall i :: 0 <= i < |hrp| ==> !IsUpper(hrp[i])
    ensures s == Encoded(e, hrp, values)
  {
    hide Checksum, Symbol;
    var checksum := CreateChecksum(e, hrp, values);
    var combined := values + checksum;
    s := hrp + [SEPARATOR];
    for i := 0 to |combined|
      invariant s == hrp + [SEPARATOR] + Symbols(combined)[..i]
    {
      s := s + [Symbol(combined[i])];
      assert Symbols(combined)[..i + 1] == Symbols(combined)[..i] + [Symbols(combined)[i]];
    }
    assert Symbols(combined)[..|combined|] == Symbols(combined);
  }

  method FindSeparator(s: seq<Letter>) returns (pos: Option<nat>)
    ensures pos == LastSeparator(s)
  {
    var n := |s|;
    assert s[..n] == s;
    while n > 0
      invariant 0 <= n <= |s| && LastSeparator(s[..n]) == LastSeparator(s)
    {
      assert s[..n][..n - 1] == s[..n - 1];
      if s[n - 1] == SEPARATOR {
        return Some(n - 1);
      }
      n := n - 1;
    }
    pos := None;
  }

  method Decode(s: seq<Letter>) returns (r: Option<Parsed>)
    ensures r == Decoded(s)
  {
    hide CharsOk, LastSeparator, Verified, LowerCase, ValueOf;
    SeparatorFacts(s);
    var errors := CheckCharacters(s);
    if errors != [] {
      return None;
    }
    var sep := FindSeparator(s);
    if |s| > 90 || sep.None? || sep.value == 0 || sep.value + 7 > |s| {
      return None;
    }
    var pos := sep.value;
    var tail := s[pos + 1..];
    var values := [];
    for i := 0 to |tail|
      invariant AllValues(tail[..i]) && values == Values(tail[..i])
    {
      var v := ValueOf(tail[i]);
      if v.None? {
        return None;
      }
      assert tail[..i + 1] == tail[..i] + [tail[i]];
      values := values + [v.value];
    }
    assert tail[..|tail|] == tail;
    var hrp := [];
    for i := 0 to pos
      invariant hrp == Lowered(s[..i])
    {
      assert s[..i + 1] == s[..i] + [s[i]];
      hrp := hrp + [LowerCase(s[i])];
    }
    var e := VerifyChecksum(hrp, values);
    if e.None? {
      return None;
    }
    r := Some(Parsed(e.value, hrp, values[..|values| - 6]));
  }

  lemma {:induction false} SeparatorFacts(s: seq<Letter>)
    ensures LastSeparator(s).Some? ==> LastSeparator(s).value < |s|
  {
    if LastSeparator(s).Some? {
      SeparatorIs(s);
    }
  }
}
