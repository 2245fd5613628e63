/** Bech32 texts, exactly: which texts are accepted, what protects the human-readable
    part, and texts known from BIP 173 and BIP 350. */
module Bech32Exact {
  import opened Wrappers
  import opened Bech32Checksum
  import opened Bech32

  /** Printable characters are those from ! to ~; letters are those of the two cases, 32
      apart. */
  lemma {:induction false} CharacterClasses(c: Letter)
    ensures Printable(c) <==> '!' as Letter <= c <= '~' as Letter
    ensures IsUpper(c) <==> 'A' as Letter <= c <= 'Z' as Letter
    ensures IsLower(c) <==> 'a' as Letter <= c <= 'z' as Letter
    ensures LowerCase(c) == if 'A' as Letter <= c <= 'Z' as Letter then c + 32 else c
  {
  }

  // ----- Which texts are accepted --------------------------------------------------------

  lemma {:induction false} LowerFacts(c: Letter)
    ensures var d := LowerCase(c);
            && !IsUpper(d) && LowerCase(d) == d && Printable(d) == Printable(c)
            && (d == SEPARATOR <==> c == SEPARATOR)
  {
  }

  lemma {:induction false} SameSeparator(s: seq<Letter>)
    ensures LastSeparator(Lowered(s)) == LastSeparator(s)
  {
    hide LowerCase;
    if s != [] {
      var n := |s| - 1;
      LowerFacts(s[n]);
      assert Lowered(s)[..n] == Lowered(s[..n]);
      SameSeparator(s[..n]);
    }
  }

  lemma {:induction false} SameValues(s: seq<Letter>)
    ensures AllValues(Lowered(s)) == AllValues(s)
    ensures AllValues(s) ==> Values(Lowered(s)) == Values(s)
    ensures Lowered(Lowered(s)) == Lowered(s)
  {
    hide LowerCase, LowerValue, IsUpper, Printable;
    forall i | 0 <= i < |s|
      ensures LowerCase(Lowered(s)[i]) == LowerCase(s[i]) && ValueOf(Lowered(s)[i]) == ValueOf(s[i])
    {
      LowerFacts(s[i]);
    }
    if AllValues(Lowered(s)) {
      forall i | 0 <= i < |s|
        ensures ValueOf(s[i]).Some?
      {
        assert ValueOf(Lowered(s)[i]).Some?;
      }
    }
  }

  lemma {:induction false} LoweredPlain(s: seq<Letter>)
    requires forall i :: 0 <= i < |s| ==> Printable(s[i])
    ensures forall i :: 0 <= i < |s| ==> PlainLetter(Lowered(s)[i])
  {
    hide LowerCase, IsUpper, Printable;
    forall i | 0 <= i < |s|
      ensures PlainLetter(Lowered(s)[i])
    {
      LowerFacts(s[i]);
    }
  }

  /** A text of one case reads like the same text in lower case. */
  lemma {:induction false} CaseInsensitive(s: seq<Letter>)
    requires CharsOk(s)
    ensures Decoded(Lowered(s)) == Decoded(s)
  {
    hide LowerCase, Verified, LastSeparator, AllValues, Values, IsUpper, IsLower, Printable;
    LoweredPlain(s);
    PlainText(Lowered(s));
    SameSeparator(s);
    SeparatorFacts(s);
    match LastSeparator(s)
    case None =>
    case Some(pos) =>
      assert Lowered(s)[..pos] == Lowered(s[..pos]) && Lowered(s)[pos + 1..] == Lowered(s[pos + 1..]);
      SameValues(s[..pos]);
      SameValues(s[pos + 1..]);
  }

  /** A text is read as given parts if and only if it is printable, of one case, at most
      90 characters long, and in lower case it is what those parts are written as. */
  lemma {:induction false} DecodedExact(s: seq<Letter>, e: Encoding, hrp: seq<Letter>, values: seq<Bits>)
    ensures Decoded(s) == Some(Parsed(e, hrp, values)) <==>
            |s| <= 90 && CharsOk(s) && Legal(hrp) && Fives(values) && Lowered(s) == Encoded(e, hrp, values)
  {
    hide LowerCase, Verified, LastSeparator, AllValues, Values, IsUpper, IsLower, Printable, Encoded;
    if Decoded(s) == Some(Parsed(e, hrp, values)) {
      EncodeDecode(s);
      DecodedParts(s);
    }
    if |s| <= 90 && CharsOk(s) && Legal(hrp) && Fives(values) && Lowered(s) == Encoded(e, hrp, values) {
      CaseInsensitive(s);
      EncodedLength(e, hrp, values);
      DecodeEncode(e, hrp, values);
    }
  }

  lemma {:induction false} EncodedLength(e: Encoding, hrp: seq<Letter>, values: seq<Bits>)
    ensures |Encoded(e, hrp, values)| == |hrp| + 1 + |values| + 6
  {
  }

  lemma {:induction false} DecodedParts(s: seq<Letter>)
    requires Decoded(s).Some?
    ensures var d := Decoded(s).value; Legal(d.hrp) && Fives(d.values)
  {
    hide LowerCase, Verified, LastSeparator, AllValues, Values, IsUpper, IsLower, Printable;
    SeparatorFacts(s);
    var pos := LastSeparator(s).value;
    LoweredPlain(s[..pos]);
    ValuesEncode(s[pos + 1..]);
    assert forall i :: 0 <= i < pos ==> PlainLetter(Lowered(s[..pos])[i]);
  }

  // ----- The human-readable part ------------------------------------------------------------

  lemma {:induction false} PartsDetermine(c: Letter, d: Letter)
    ensures High(c) == High(d) && LowFive(c) == LowFive(d) ==> c == d
  {
  }

  /** No two human-readable parts of one length have the same values. */
  lemma {:induction false} ExpandedInjective(a: seq<Letter>, b: seq<Letter>)
    requires |a| == |b| && Expanded(a) == Expanded(b)
    ensures a == b
  {
    hide High, LowFive;
    var n := |a|;
    forall i | 0 <= i < n
      ensures a[i] == b[i]
    {
      assert Expanded(a)[i] == High(a[i]) && Expanded(b)[i] == High(b[i]);
      assert Expanded(a)[n + 1 + i] == LowFive(a[i]) && Expanded(b)[n + 1 + i] == LowFive(b[i]);
      PartsDetermine(a[i], b[i]);
    }
  }

  lemma {:induction false} ExpandedChange(hrp: seq<Letter>, i: nat, c: Letter)
    requires i < |hrp|
    ensures High(c) == High(hrp[i]) ==> Expanded(hrp[i := c]) == Expanded(hrp)[|hrp| + 1 + i := LowFive(c)]
    ensures LowFive(c) == LowFive(hrp[i]) ==> Expanded(hrp[i := c]) == Expanded(hrp)[i := High(c)]
  {
    hide High, LowFive;
  }

  /** A character of the human-readable part replaced by another one with the same high
      bits, such as a letter by a letter or a digit by a digit, or with the same low bits,
      is always found out. */
  lemma {:induction false} HrpChangeDetected(e: Encoding, hrp: seq<Letter>, values: seq<Bits>, i: nat, c: Letter)
    requires Verified(hrp, values) == Some(e) && i < |hrp| && c != hrp[i]
    requires High(c) == High(hrp[i]) || LowFive(c) == LowFive(hrp[i])
    ensures Verified(hrp[i := c], values) != Some(e)
  {
    hide Expanded, Constant, Verified, PolyModFrom, High, LowFive;
    ExpandedChange(hrp, i, c);
    ExpandedIsFives(hrp);
    PartsDetermine(c, hrp[i]);
    PartsAreFives(c);
    var v := Expanded(hrp) + values;
    var k, x := if High(c) == High(hrp[i]) then |hrp| + 1 + i else i, if High(c) == High(hrp[i]) then LowFive(c) else High(c);
    ExpandedAt(hrp, i);
    assert v[k := x] == Expanded(hrp[i := c]) + values;
    OneChange(1, v, k, x);
    VerifiedMeans(hrp, values, e);
    VerifiedMeans(hrp[i := c], values, e);
  }

  lemma {:induction false} ExpandedAt(hrp: seq<Letter>, i: nat)
    requires i < |hrp|
    ensures Expanded(hrp)[i] == High(hrp[i]) && Expanded(hrp)[|hrp| + 1 + i] == LowFive(hrp[i])
  {
    hide High, LowFive;
  }

  /** Lower-case letters have the same high bits, and so have digits. */
  lemma {:induction false} SameKind(c: Letter, d: Letter)
    ensures IsLower(c) && IsLower(d) ==> High(c) == High(d)
    ensures 0x30 <= c <= 0x39 && 0x30 <= d <= 0x39 ==> High(c) == High(d)
  {
  }

  // ----- Known texts --------------------------------------------------------------------------

  lemma {:induction false} SymbolsFrom0()
    ensures Symbol(0) == 'q' as Letter && Symbol(1) == 'p' as Letter && Symbol(2) == 'z' as Letter && Symbol(3) == 'r' as Letter
  {
  }

  lemma {:induction false} SymbolsFrom4()
    ensures Symbol(4) == 'y' as Letter && Symbol(5) == '9' as Letter && Symbol(6) == 'x' as Letter && Symbol(7) == '8' as Letter
  {
  }

  lemma {:induction false} SymbolsFrom8()
    ensures Symbol(8) == 'g' as Letter && Symbol(9) == 'f' as Letter && Symbol(10) == '2' as Letter && Symbol(11) == 't' as Letter
  {
  }

  lemma {:induction false} SymbolsFrom12()
    ensures Symbol(12) == 'v' as Letter && Symbol(13) == 'd' as Letter && Symbol(14) == 'w' as Letter && Symbol(15) == '0' as Letter
  {
  }

  lemma {:induction false} SymbolsFrom16()
    ensures Symbol(16) == 's' as Letter && Symbol(17) == '3' as Letter && Symbol(18) == 'j' as Letter && Symbol(19) == 'n' as Letter
  {
  }

  lemma {:induction false} SymbolsFrom20()
    ensures Symbol(20) == '5' as Letter && Symbol(21) == '4' as Letter && Symbol(22) == 'k' as Letter && Symbol(23) == 'h' as Letter
  {
  }

  lemma {:induction false} SymbolsFrom24()
    ensures Symbol(24) == 'c' as Letter && Symbol(25) == 'e' as Letter && Symbol(26) == '6' as Letter && Symbol(27) == 'm' as Letter
  {
  }

  lemma {:induction false} SymbolsFrom28()
    ensures Symbol(28) == 'u' as Letter && Symbol(29) == 'a' as Letter && Symbol(30) == '7' as Letter && Symbol(31) == 'l' as Letter
  {
  }

  /** The alphabet is qpzry9x8gf2tvdw0s3jn54khce6mua7l. */
  lemma {:induction false} Alphabet()
    ensures Symbol(0) == 'q' as Letter && Symbol(1) == 'p' as Letter && Symbol(2) == 'z' as Letter && Symbol(3) == 'r' as Letter
    ensures Symbol(4) == 'y' as Letter && Symbol(5) == '9' as Letter && Symbol(6) == 'x' as Letter && Symbol(7) == '8' as Letter
    ensures Symbol(8) == 'g' as Letter && Symbol(9) == 'f' as Letter && Symbol(10) == '2' as Letter && Symbol(11) == 't' as Letter
    ensures Symbol(12) == 'v' as Letter && Symbol(13) == 'd' as Letter && Symbol(14) == 'w' as Letter && Symbol(15) == '0' as Letter
    ensures Symbol(16) == 's' as Letter && Symbol(17) == '3' as Letter && Symbol(18) == 'j' as Letter && Symbol(19) == 'n' as Letter
    ensures Symbol(20) == '5' as Letter && Symbol(21) == '4' as Letter && Symbol(22) == 'k' as Letter && Symbol(23) == 'h' as Letter
    ensures Symbol(24) == 'c' as Letter && Symbol(25) == 'e' as Letter && Symbol(26) == '6' as Letter && Symbol(27) == 'm' as Letter
    ensures Symbol(28) == 'u' as Letter && Symbol(29) == 'a' as Letter && Symbol(30) == '7' as Letter && Symbol(31) == 'l' as Letter
  {
    hide Symbol;
    SymbolsFrom0();
    SymbolsFrom4();
    SymbolsFrom8();
    SymbolsFrom12();
    SymbolsFrom16();
    SymbolsFrom20();
    SymbolsFrom24();
    SymbolsFrom28();
  }

  lemma {:induction false} ThreeSteps(c: Bits, x: Bits, y: Bits, z: Bits)
    ensures PolyModFrom(c, [x, y, z]) == Step(Step(Step(c, x), y), z)
  {
    hide Step;
    assert [x, y, z][..2] == [x, y] && [x, y][..1] == [x] && [x][..0] == [];
    assert PolyModFrom(c, [x]) == Step(c, x);
    assert PolyModFrom(c, [x, y]) == Step(Step(c, x), y);
  }

  lemma {:induction false} KnownSteps()
    ensures Step(Step(Step(1, 3), 0), 1) == 0x8c01
    ensures Step(Step(Step(0x8c01, 0), 0), 0) == 0x3d6ad7b2
    ensures Step(Step(Step(0x3d6ad7b2, 0), 0), 0) == 0x15ccfe9e
  {
  }

  lemma {:induction false} KnownRemainder()
    ensures PolyModOf([3, 0, 1] + Zeros(6)) == 0x15ccfe9e
  {
    hide Step, PolyModFrom;
    KnownSteps();
    ThreeSteps(1, 3, 0, 1);
    ThreeSteps(0x8c01, 0, 0, 0);
    ThreeSteps(0x3d6ad7b2, 0, 0, 0);
    PolyModConcat(1, [3, 0, 1], Zeros(6));
    PolyModConcat(0x8c01, [0, 0, 0], [0, 0, 0]);
    assert Zeros(6) == [0, 0, 0] + [0, 0, 0];
  }

  lemma {:induction false} KnownGroups()
    ensures Groups(Plus(0x15ccfe9e, 1)) == [10, 28, 25, 31, 20, 31]
    ensures Groups(Plus(0x15ccfe9e, 0x2bc830a3)) == [31, 0, 9, 19, 17, 29]
  {
  }

  lemma {:induction false} KnownExpansion()
    ensures Expanded([0x61]) + [] == [3, 0, 1]
  {
  }

  lemma {:induction false} KnownSymbols()
    ensures Symbols([] + [10, 28, 25, 31, 20, 31]) == [0x32, 0x75, 0x65, 0x6c, 0x35, 0x6c]
    ensures Symbols([] + [31, 0, 9, 19, 17, 29]) == [0x6c, 0x71, 0x66, 0x6e, 0x33, 0x61]
  {
  }

  /** The shortest valid texts of the two standards, for the part "a" without values:
      "a12uel5l" in Bech32 and "a1lqfn3a" in Bech32m. */
  lemma {:induction false} KnownTexts()
    ensures Encoded(Original, [0x61], []) == [0x61, 0x31, 0x32, 0x75, 0x65, 0x6c, 0x35, 0x6c]
    ensures Encoded(Modified, [0x61], []) == [0x61, 0x31, 0x6c, 0x71, 0x66, 0x6e, 0x33, 0x61]
  {
    hide PolyModOf, Expanded, Symbols, Groups, Plus;
    KnownRemainder();
    KnownGroups();
    KnownExpansion();
    KnownSymbols();
  }

  /** Both are read in upper case too. */
  lemma {:induction false} KnownTextsRead()
    ensures Decoded([0x41, 0x31, 0x32, 0x55, 0x45, 0x4c, 0x35, 0x4c]) == Some(Parsed(Original, [0x61], []))
    ensures Decoded([0x41, 0x31, 0x4c, 0x51, 0x46, 0x4e, 0x33, 0x41]) == Some(Parsed(Modified, [0x61], []))
  {
    hide Decoded, Encoded, Legal;
    KnownTexts();
    KnownCases();
    DecodedExact([0x41, 0x31, 0x32, 0x55, 0x45, 0x4c, 0x35, 0x4c], Original, [0x61], []);
    DecodedExact([0x41, 0x31, 0x4c, 0x51, 0x46, 0x4e, 0x33, 0x41], Modified, [0x61], []);
  }

  lemma {:induction false} KnownCases()
    ensures Legal([0x61])
    ensures var s := [0x41, 0x31, 0x32, 0x55, 0x45, 0x4c, 0x35, 0x4c]; CharsOk(s) && Lowered(s) == [0x61, 0x31, 0x32, 0x75, 0x65, 0x6c, 0x35, 0x6c]
    ensures var s := [0x41, 0x31, 0x4c, 0x51, 0x46, 0x4e, 0x33, 0x41]; CharsOk(s) && Lowered(s) == [0x61, 0x31, 0x6c, 0x71, 0x66, 0x6e, 0x33, 0x61]
  {
  }
}
