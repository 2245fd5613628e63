/** Base 58: byte strings as text without ambiguous characters. */
module Base58 {
  import opened Wrappers
  import opened Bits
  import opened NthRoot
  import opened Base58Digits

  type Byte = x: int | 0 <= x < 256

  // ----- Characters ---------------------------------------------------------------------

  /** The digit of a character, or -1: digits and letters without 0, I, O and l. */
  function DigitOf(c: char): int {
    if '1' <= c <= '9' then c as int - '1' as int
    else if 'A' <= c <= 'H' then c as int - 'A' as int + 9
    else if 'J' <= c <= 'N' then c as int - 'J' as int + 17
    else if 'P' <= c <= 'Z' then c as int - 'P' as int + 22
    else if 'a' <= c <= 'k' then c as int - 'a' as int + 33
    else if 'm' <= c <= 'z' then c as int - 'm' as int + 44
    else -1
  }

  function CharOf(d: nat): char
    requires d < 58
  {
    if d < 9 then (d + '1' as int) as char
    else if d < 17 then (d - 9 + 'A' as int) as char
    else if d < 22 then (d - 17 + 'J' as int) as char
    else if d < 33 then (d - 22 + 'P' as int) as char
    else if d < 44 then (d - 33 + 'a' as int) as char
    else (d - 44 + 'm' as int) as char
  }

  lemma {:induction false} CharDigit(d: nat)
    requires d < 58
    ensures DigitOf(CharOf(d)) == d && !IsSpace(CharOf(d)) && CharOf(d) != '\0'
  {
  }

  lemma {:induction false} DigitChar(c: char)
    ensures -1 <= DigitOf(c) < 58 && (DigitOf(c) >= 0 ==> CharOf(DigitOf(c)) == c && !IsSpace(c))
  {
  }

  predicate IsSpace(c: char) {
    c == ' ' || 9 <= c as int <= 13
  }

  // ----- Specification --------------------------------------------------------------------

  /** How many times a sequence starts with an element. */
  function Leading<T(==)>(s: seq<T>, x: T): nat {
    if s != [] && s[0] == x then 1 + Leading(s[1..], x) else 0
  }

  lemma {:induction false} LeadingFacts<T>(s: seq<T>, x: T)
    ensures Leading(s, x) <= |s| && (forall i :: 0 <= i < Leading(s, x) ==> s[i] == x)
    ensures Leading(s, x) < |s| ==> s[Leading(s, x)] != x
  {
    if s != [] && s[0] == x {
      LeadingFacts(s[1..], x);
    }
  }

  lemma {:induction false} LeadingUnique<T>(s: seq<T>, x: T, n: nat)
    requires n <= |s| && (forall i :: 0 <= i < n ==> s[i] == x) && (n < |s| ==> s[n] != x)
    ensures Leading(s, x) == n
  {
    if n > 0 {
      LeadingUnique(s[1..], x, n - 1);
    }
  }

  function Chars(digits: seq<nat>): (s: string)
    requires DigitsOf(digits, 58)
    ensures |s| == |digits|
  {
    seq(|digits|, i requires 0 <= i < |digits| => CharOf(digits[i]))
  }

  predicate Valid(s: string) {
    forall i :: 0 <= i < |s| ==> DigitOf(s[i]) >= 0
  }

  function CharDigits(s: string): (d: seq<nat>)
    requires Valid(s)
    ensures |d| == |s|
  {
    seq(|s|, i requires 0 <= i < |s| => DigitOf(s[i]))
  }

  function Repeat<T>(x: T, n: nat): (s: seq<T>)
    ensures |s| == n && forall i :: 0 <= i < n ==> s[i] == x
  {
    seq(n, _ => x)
  }

  /** Leading zero bytes become leading ones; the rest is converted as a number. */
  function Encoded(bytes: seq<Byte>): string {
    LeadingFacts(bytes, 0);
    var z := Leading(bytes, 0);
    DigitsVal(Val(bytes[z..], 256), 58);
    Repeat('1', z) + Chars(Digits(Val(bytes[z..], 256), 58))
  }

  function SkipSpaces(s: string): (t: string)
    ensures |t| <= |s|
  {
    if s != [] && IsSpace(s[0]) then SkipSpaces(s[1..]) else s
  }

  /** The text before the first space. */
  function Word(s: string): (w: string)
    ensures |w| <= |s|
  {
    if s == [] || IsSpace(s[0]) then [] else [s[0]] + Word(s[1..])
  }

  function Bytes(digits: seq<nat>): (b: seq<Byte>)
    requires DigitsOf(digits, 256)
    ensures |b| == |digits| && b == digits
  {
    digits
  }

  /** The bytes of a word of valid characters. */
  function WordBytes(w: string): seq<Byte>
    requires Valid(w)
  {
    LeadingFacts(w, '1');
    var z := Leading(w, '1');
    DigitsVal(Val(CharDigits(w[z..]), 58), 256);
    Repeat(0, z) + Bytes(Digits(Val(CharDigits(w[z..]), 58), 256))
  }

  /** One word with spaces around it, if its value is not longer than `max` bytes. The
      limit is not looked at when there is no word. */
  function Decoded(s: string, max: int): Option<seq<Byte>> {
    var t := SkipSpaces(s);
    var w := Word(t);
    if '\0' in s || SkipSpaces(t[|w|..]) != [] || !Valid(w) || (w != [] && |WordBytes(w)| > max) then None
    else Some(WordBytes(w))
  }

  // ----- Round trips ------------------------------------------------------------------------

  lemma {:induction false} CharsInverse(digits: seq<nat>)
    requires DigitsOf(digits, 58)
    ensures Valid(Chars(digits)) && CharDigits(Chars(digits)) == digits
  {
    var s := Chars(digits);
    forall i | 0 <= i < |s|
      ensures DigitOf(s[i]) == digits[i]
    {
      CharDigit(digits[i]);
    }
  }

  lemma {:induction false} CharDigitsInverse(s: string)
    requires Valid(s)
    ensures DigitsOf(CharDigits(s), 58) && Chars(CharDigits(s)) == s
  {
    forall i | 0 <= i < |s|
      ensures 0 <= DigitOf(s[i]) < 58 && CharOf(DigitOf(s[i])) == s[i]
    {
      DigitChar(s[i]);
    }
  }

  lemma {:induction false} LeadingOfRepeat<T>(x: T, n: nat, rest: seq<T>)
    requires rest != [] ==> rest[0] != x
    ensures Leading(Repeat(x, n) + rest, x) == n && (Repeat(x, n) + rest)[n..] == rest
  {
    LeadingUnique(Repeat(x, n) + rest, x, n);
  }

  lemma {:induction false} NoSpaces(s: string)
    requires Valid(s)
    ensures SkipSpaces(s) == s && Word(s) == s && '\0' !in s
  {
    if s != [] {
      DigitChar(s[0]);
      NoSpaces(s[1..]);
      assert s == [s[0]] + s[1..];
    }
  }

  lemma {:induction false} EncodedFacts(bytes: seq<Byte>)
    ensures Valid(Encoded(bytes)) && WordBytes(Encoded(bytes)) == bytes
  {
    hide Val, Digits, Leading;
    LeadingFacts(bytes, 0);
    var z := Leading(bytes, 0);
    var rest := bytes[z..];
    var v := Val(rest, 256);
    DigitsVal(v, 58);
    var digits := Digits(v, 58);
    var text := Chars(digits);
    CharsInverse(digits);
    OnesAreValid(z, text);
    if digits != [] {
      CharNotOne(digits[0]);
    }
    LeadingOfRepeat('1', z, text);
    DigitsUnique(rest, 256);
    assert Repeat(0, z) + rest == bytes;
  }

  lemma {:induction false} OnesAreValid(z: nat, text: string)
    requires Valid(text)
    ensures Valid(Repeat('1', z) + text)
  {
  }

  lemma {:induction false} CharNotOne(d: nat)
    requires 0 < d < 58
    ensures CharOf(d) != '1'
  {
  }

  /** Every byte string survives the round trip. */
  lemma {:induction false} DecodeEncode(bytes: seq<Byte>, max: int)
    requires |bytes| <= max
    ensures Decoded(Encoded(bytes), max) == Some(bytes)
  {
    hide Encoded, WordBytes;
    EncodedFacts(bytes);
    NoSpaces(Encoded(bytes));
  }

  /** So does every text without spaces that can be decoded. */
  lemma {:induction false} EncodeDecode(s: string, max: int)
    requires Decoded(s, max).Some? && forall i :: 0 <= i < |s| ==> !IsSpace(s[i])
    ensures Encoded(Decoded(s, max).value) == s
  {
    hide Val, Digits, Leading, WordBytes, Encoded, Valid;
    WholeWord(s);
    WordEncodes(s);
  }

  /** The length limit is kept exactly if it is not negative: a text without characters
      is decoded whatever the limit. */
  lemma {:induction false} LimitKept(s: string, max: int)
    requires Decoded(s, max).Some?
    ensures |Decoded(s, max).value| <= max <==> max >= 0
    ensures Decoded("", -1) == Some([])
  {
    hide Val, Digits;
    NoWord();
    if Word(SkipSpaces(s)) == [] {
      NoWord();
    }
  }

  lemma {:induction false} NoWord()
    ensures SkipSpaces("") == [] && Word("") == [] && Valid("") && WordBytes("") == []
  {
    hide Val, Digits;
    EmptyWord("");
    ZeroDigits(256);
    assert ""[..0] == "";
  }

  lemma {:induction false} WordEncodes(s: string)
    requires Valid(s)
    ensures Encoded(WordBytes(s)) == s
  {
    hide Val, Digits, Leading;
    LeadingFacts(s, '1');
    var z := Leading(s, '1');
    var text := s[z..];
    CharDigitsInverse(text);
    var digits := CharDigits(text);
    if text != [] {
      DigitChar(text[0]);
    }
    DigitsUnique(digits, 58);
    var v := Val(digits, 58);
    DigitsVal(v, 256);
    LeadingOfRepeat<Byte>(0, z, Bytes(Digits(v, 256)));
    assert Repeat('1', z) + text == s;
  }

  lemma {:induction false} WholeWord(s: string)
    requires forall i :: 0 <= i < |s| ==> !IsSpace(s[i])
    ensures SkipSpaces(s) == s && Word(s) == s
  {
    if s != [] {
      WholeWord(s[1..]);
      assert s == [s[0]] + s[1..];
    }
  }

  // ----- The conversions in place -------------------------------------------------------

  /** Multiply the number in the buffer by `mul` and add a digit. The buffer has room for
      the result, so no carry is left. */
  method MultiplyAdd(buf: array<nat>, base: nat, mul: nat, digit: nat, length: nat) returns (newLength: nat)
    requires base > 1 && mul > 1 && DigitsOf(buf[..], base) && Tight(buf[..], length)
    requires Val(buf[..], base) * mul + digit < Power(base, buf.Length)
    modifies buf
    ensures DigitsOf(buf[..], base) && Tight(buf[..], newLength) && newLength >= length
    ensures Val(buf[..], base) == old(Val(buf[..], base)) * mul + digit
  {
    hide Val, Power, DigitsOf;
    ghost var s := buf[..];
    var size := buf.Length;
    var carry := digit;
    var i := 0;
    CarriedStart(s, base, mul, digit);
    while (carry != 0 || i < length) && i < size
      invariant 0 <= i <= size && carry >= 0 && Carried(s, buf[..], base, mul, digit, i, carry)
      invariant i > 0 && carry == 0 && i >= length ==> buf[size - i] != 0
      decreases size - i
    {
      CarriedStep(s, buf[..], base, mul, digit, i, carry);
      ghost var k := size - 1 - i;
      Unwritten(s, buf[..], base, mul, digit, i, carry, k);
      LeadingGrows(carry, mul, buf[k], base, i, length);
      carry := carry + mul * buf[size - 1 - i];
      ghost var after := buf[..][k := carry % base];
      buf[size - 1 - i] := carry % base;
      assert buf[..] == after;
      carry := carry / base;
      i := i + 1;
    }
    CarriedEnd(s, buf[..], base, mul, digit, i, carry, length);
    assert carry == 0;
    newLength := i;
    CarriedTight(s, buf[..], base, mul, digit, i, carry, length);
  }

  lemma {:induction false} Unwritten(old_: seq<nat>, s: seq<nat>, b: nat, mul: nat, digit: nat, i: nat, carry: nat, k: nat)
    requires Carried(old_, s, b, mul, digit, i, carry) && k < |s| - i
    ensures |s| == |old_| && s[k] == old_[k]
  {
  }

  /** The last digit written without a carry is the whole sum, which is not zero. */
  lemma {:induction false} LeadingGrows(carry: nat, mul: nat, x: nat, base: nat, i: nat, length: nat)
    requires base > 1 && mul > 1
    ensures var t := carry + mul * x; t / base == 0 && (carry != 0 || x != 0) ==> t % base != 0
  {
    var t := carry + mul * x;
    NatQuotient(t, base);
    if x != 0 {
      MulMonotone(1, x, mul);
    }
  }

  lemma {:induction false} CarriedTight(old_: seq<nat>, s: seq<nat>, b: nat, mul: nat, digit: nat, i: nat, carry: nat, length: nat)
    requires Carried(old_, s, b, mul, digit, i, carry) && Tight(old_, length) && carry == 0
    requires i >= length || i == |s|
    requires i > 0 && i >= length ==> s[|s| - i] != 0
    ensures DigitsOf(s, b) && i >= length && Tight(s, i)
  {
  }

  /** The number in base 58. */
  method ConvertBytes(rest: seq<Byte>) returns (digits: seq<nat>)
    ensures digits == Digits(Val(rest, 256), 58) && DigitsOf(digits, 58)
  {
    hide Val, Power, Digits, DigitsOf, Tight;
    var size := |rest| * 138 / 100 + 1;
    var b58 := new nat[size](_ => 0);
    var length := 0;
    ZeroBuffer(b58[..], 58);
    NoDigits(rest);
    for n := 0 to |rest|
      invariant DigitsOf(b58[..], 58) && Tight(b58[..], length) && Val(b58[..], 58) == Val(rest[..n], 256)
    {
      EncodeFits(rest, n);
      length := MultiplyAdd(b58, 58, 256, rest[n], length);
    }
    assert rest[..|rest|] == rest;
    TightDigits(b58[..], 58, length);
    digits := b58[..][size - length..];
  }

  method EncodeBase58(input: seq<Byte>) returns (text: string)
    ensures text == Encoded(input)
  {
    hide Val, Digits, Leading, DigitsOf;
    LeadingFacts(input, 0);
    var zeroes := CountLeading(input, 0);
    var digits := ConvertBytes(input[zeroes..]);
    text := Repeat('1', zeroes);
    for i := 0 to |digits|
      invariant text == Repeat('1', zeroes) + Chars(digits)[..i]
    {
      DigitAt(digits, i, 58);
      text := text + [CharOf(digits[i])];
      assert Chars(digits)[..i + 1] == Chars(digits)[..i] + [Chars(digits)[i]];
    }
    assert Chars(digits)[..|digits|] == Chars(digits);
  }

  lemma {:induction false} DigitAt(s: seq<nat>, i: nat, b: nat)
    requires DigitsOf(s, b) && i < |s|
    ensures s[i] < b
  {
  }

  method CountLeading<T(==)>(s: seq<T>, x: T) returns (n: nat)
    ensures n == Leading(s, x)
  {
    hide Leading;
    n := 0;
    while n < |s| && s[n] == x
      invariant 0 <= n <= |s| && forall i :: 0 <= i < n ==> s[i] == x
    {
      n := n + 1;
    }
    LeadingUnique(s, x, n);
  }

  lemma {:induction false} ZeroBuffer(s: seq<nat>, b: nat)
    requires b > 0 && forall i :: 0 <= i < |s| ==> s[i] == 0
    ensures DigitsOf(s, b) && Tight(s, 0) && Val(s, b) == 0
  {
    ValZero(s, b);
  }

  lemma {:induction false} NoDigits(s: seq<nat>)
    ensures Val(s[..0], 256) == 0 && Val(s[..0], 58) == 0
  {
  }

  /** One more byte still fits the buffer. */
  lemma {:induction false} EncodeFits(rest: seq<Byte>, n: nat)
    requires n < |rest|
    ensures Val(rest[..n], 256) * 256 + rest[n] == Val(rest[..n + 1], 256)
    ensures Val(rest[..n + 1], 256) < Power(58, |rest| * 138 / 100 + 1)
  {
    hide Val, Power;
    assert rest[..n + 1] == rest[..n] + [rest[n]];
    ValAppend(rest[..n], rest[n], 256);
    ValBound(rest[..n + 1], 256);
    EncodeRoom(|rest|);
    PowerLonger(256, n + 1, |rest|);
  }

  /** A tight buffer holds the digits of its number. */
  lemma {:induction false} TightDigits(s: seq<nat>, b: nat, length: nat)
    requires b > 1 && DigitsOf(s, b) && Tight(s, length)
    ensures length <= |s| && s[|s| - length..] == Digits(Val(s, b), b) && DigitsOf(s[|s| - length..], b)
  {
    hide Val, Digits;
    ValSkip(s, |s| - length, b);
    DigitsUnique(s[|s| - length..], b);
  }

  method DecodeBase58(s: string, max: int) returns (r: Option<seq<Byte>>)
    ensures r == Decoded(s, max)
  {
    hide Val, Power, Digits, Leading;
    if '\0' in s {
      return None;
    }
    var pos := SpacesFrom(s, 0);
    assert s[0..] == s;
    ghost var t := s[pos..];
    ghost var w := Word(t);
    LeadingFacts(t, '1');
    var zeroes := 0;
    while pos < |s| && s[pos] == '1'
      invariant 0 <= zeroes <= |t| && pos == |s| - |t| + zeroes && (zeroes > 0 ==> zeroes <= max)
      invariant forall i :: 0 <= i < zeroes ==> t[i] == '1'
    {
      zeroes := zeroes + 1;
      if zeroes > max {
        TooManyOnes(s, t, zeroes, max);
        return None;
      }
      pos := pos + 1;
    }
    LeadingUnique(t, '1', zeroes);
    r := DecodeDigits(s, max, pos, zeroes, t);
  }

  /** The position after the spaces at a position. */
  method SpacesFrom(s: string, start: nat) returns (pos: nat)
    requires start <= |s|
    ensures start <= pos <= |s| && s[pos..] == SkipSpaces(s[start..])
  {
    pos := start;
    while pos < |s| && IsSpace(s[pos])
      invariant start <= pos <= |s| && SkipSpaces(s[pos..]) == SkipSpaces(s[start..])
    {
      assert s[pos..][1..] == s[pos + 1..];
      pos := pos + 1;
    }
  }

  /** The bytes that suffice for n characters. */
  function BufferSize(n: nat): nat {
    n * 733 / 1000 + 1
  }

  method DecodeDigits(s: string, max: int, start: nat, zeroes: nat, ghost t: string) returns (r: Option<seq<Byte>>)
    requires t == SkipSpaces(s) && '\0' !in s && zeroes <= |t| && zeroes == Leading(t, '1') && (zeroes > 0 ==> zeroes <= max)
    requires start == |s| - |t| + zeroes && s[start - zeroes..] == t
    ensures r == Decoded(s, max)
  {
    hide Val, Power, Digits, Leading, Word, Decoded, CharDigits, Valid, Tight, DigitsOf, SkipSpaces, Repeat, BufferSize,
      IsSpace, DigitOf, Bytes;
    var u := s[start..];
    assert u == t[zeroes..];
    var size := BufferSize(|u|);
    var b256 := new nat[size](_ => 0);
    var length := 0;
    ZeroBuffer(b256[..], 256);
    EmptyWord(u);
    var k := 0;
    while k < |u| && !IsSpace(u[k])
      invariant 0 <= k <= |u| && Valid(u[..k]) && (forall i :: 0 <= i < k ==> !IsSpace(u[i]))
      invariant DigitsOf(b256[..], 256) && Tight(b256[..], length)
      invariant (k == 0 ==> length == 0) && (zeroes + k > 0 ==> length + zeroes <= max)
      invariant Val(b256[..], 256) == Val(CharDigits(u[..k]), 58)
      decreases |u| - k
    {
      DigitChar(u[k]);
      var digit := DigitOf(u[k]);
      if digit == -1 {
        BadCharacter(s, t, zeroes, k, max);
        return None;
      }
      DecodeFits(u, k);
      length := MultiplyAdd(b256, 256, 58, digit, length);
      k := k + 1;
      if length + zeroes > max {
        TightDigits(b256[..], 256, length);
        TooLong(s, t, zeroes, k, length, max);
        return None;
      }
    }
    var pos := SpacesFrom(s, start + k);
    TightDigits(b256[..], 256, length);
    assert s[start + k..] == u[k..];
    WordEnds(s, t, zeroes, k, max);
    if pos != |s| {
      return None;
    }
    r := Some(Repeat(0, zeroes) + Bytes(b256[..][size - length..]));
  }

  lemma {:induction false} EmptyWord(u: string)
    ensures Valid(u[..0]) && Val(CharDigits(u[..0]), 58) == 0
  {
    assert CharDigits(u[..0]) == [];
  }

  lemma {:induction false} WordPrefix(u: string, k: nat)
    requires k <= |u| && forall i :: 0 <= i < k ==> !IsSpace(u[i])
    ensures |Word(u)| >= k && Word(u)[..k] == u[..k]
    ensures k == |u| || IsSpace(u[k]) ==> Word(u) == u[..k]
  {
    if k > 0 {
      WordPrefix(u[1..], k - 1);
      assert u[..k] == [u[0]] + u[1..][..k - 1];
    }
  }

  lemma {:induction false} WordSplit(t: string, z: nat)
    requires z <= |t| && forall i :: 0 <= i < z ==> !IsSpace(t[i])
    ensures Word(t) == t[..z] + Word(t[z..])
  {
    if z == 0 {
      assert t[0..] == t && t[..0] == [];
    } else {
      var rest := t[1..];
      WordSplit(rest, z - 1);
      FirstAndRest(t, z);
      assert Word(t) == [t[0]] + Word(rest);
    }
  }

  lemma {:induction false} FirstAndRest<T>(s: seq<T>, n: nat)
    requires 0 < n <= |s|
    ensures s[1..][n - 1..] == s[n..] && s[..n] == [s[0]] + s[1..][..n - 1]
  {
  }

  /** The leading ones belong to the word. */
  lemma {:induction false} WordAfterOnes(t: string, z: nat)
    requires z == Leading(t, '1') <= |t|
    ensures Word(t) == Repeat('1', z) + Word(t[z..])
  {
    hide Leading, Word;
    LeadingFacts(t, '1');
    WordSplit(t, z);
    assert t[..z] == Repeat('1', z);
  }

  lemma {:induction false} OnesOfWord(t: string, z: nat)
    requires z == Leading(t, '1') <= |t|
    ensures Leading(Word(t), '1') == z && z <= |Word(t)| && Word(t)[z..] == Word(t[z..])
  {
    hide Leading;
    LeadingFacts(t, '1');
    WordAfterOnes(t, z);
    var w := Word(t[z..]);
    assert w != [] ==> w[0] == t[z];
    LeadingOfRepeat('1', z, w);
  }

  lemma {:induction false} TooManyOnes(s: string, t: string, n: nat, max: int)
    requires t == SkipSpaces(s) && max < n <= |t| && n > 0 && forall i :: 0 <= i < n ==> t[i] == '1'
    ensures Decoded(s, max) == None
  {
    hide Val, Digits;
    LeadingFacts(t, '1');
    LeadingAtLeast(t, '1', n);
    OnesOfWord(t, Leading(t, '1'));
  }

  lemma {:induction false} LeadingAtLeast<T>(s: seq<T>, x: T, n: nat)
    requires n <= |s| && forall i :: 0 <= i < n ==> s[i] == x
    ensures Leading(s, x) >= n
  {
    if n > 0 {
      LeadingAtLeast(s[1..], x, n - 1);
    }
  }

  lemma {:induction false} BadCharacter(s: string, t: string, z: nat, k: nat, max: int)
    requires t == SkipSpaces(s) && z == Leading(t, '1') && z + k < |t|
    requires DigitOf(t[z..][k]) < 0 && !IsSpace(t[z..][k]) && forall i :: 0 <= i < k ==> !IsSpace(t[z..][i])
    ensures Decoded(s, max) == None
  {
    hide Val, Digits, Leading, Word;
    OnesOfWord(t, z);
    WordPrefix(t[z..], k + 1);
    var w := Word(t);
    assert w[z..][..k + 1][k] == t[z..][k];
    assert w[z + k] == t[z..][k];
  }

  lemma {:induction false} DecodeFits(u: string, k: nat)
    requires k < |u| && Valid(u[..k]) && DigitOf(u[k]) >= 0
    ensures Valid(u[..k + 1])
    ensures Val(CharDigits(u[..k]), 58) * 58 + DigitOf(u[k]) == Val(CharDigits(u[..k + 1]), 58)
    ensures Val(CharDigits(u[..k + 1]), 58) < Power(256, BufferSize(|u|))
  {
    hide Val, Power;
    assert CharDigits(u[..k + 1]) == CharDigits(u[..k]) + [DigitOf(u[k])];
    ValAppend(CharDigits(u[..k]), DigitOf(u[k]), 58);
    CharDigitsInverse(u[..k + 1]);
    ValBound(CharDigits(u[..k + 1]), 58);
    DecodeRoom(|u|);
    PowerLonger(58, k + 1, |u|);
  }

  lemma {:induction false} DigitsLonger(a: nat, b: nat, base: nat)
    requires base > 1 && a <= b
    ensures |Digits(a, base)| <= |Digits(b, base)|
    decreases a
  {
    if a > 0 {
      Smaller(a, base);
      Smaller(b, base);
      assert a / base <= b / base by {
        QuotientMonotone(a, b, base);
      }
      DigitsLonger(a / base, b / base, base);
    }
  }

  lemma {:induction false} QuotientMonotone(a: nat, b: nat, d: nat)
    requires a <= b && d > 0
    ensures a / d <= b / d
  {
    NatQuotient(a, d);
    NatQuotient(b, d);
    if a / d > b / d {
      MulMonotone(b / d + 1, a / d, d);
    }
  }

  /** More digits, larger value. */
  lemma {:induction false} ValPrefix(s: seq<nat>, k: nat, b: nat)
    requires k <= |s| && b > 0
    ensures Val(s[..k], b) <= Val(s, b)
    decreases |s|
  {
    hide Val;
    if k == |s| {
      assert s[..k] == s;
    } else {
      var n := |s| - 1;
      assert s == s[..n] + [s[n]] && s[..n][..k] == s[..k];
      ValPrefix(s[..n], k, b);
      ValAppend(s[..n], s[n], b);
      MulMonotone(1, b, Val(s[..n], b));
    }
  }

  lemma {:induction false} TooLong(s: string, t: string, z: nat, k: nat, length: nat, max: int)
    requires t == SkipSpaces(s) && z == Leading(t, '1') && z + k <= |t|
    requires (forall i :: 0 <= i < k ==> !IsSpace(t[z..][i])) && Valid(t[z..][..k])
    requires length == |Digits(Val(CharDigits(t[z..][..k]), 58), 256)| && z + length > max && k > 0
    ensures Decoded(s, max) == None
  {
    hide Val, Digits, Leading, Word;
    OnesOfWord(t, z);
    WordPrefix(t[z..], k);
    var w := Word(t);
    if Valid(w) {
      var all := CharDigits(w[z..]);
      assert all[..k] == CharDigits(t[z..][..k]) by {
        assert w[z..][..k] == t[z..][..k];
      }
      ValPrefix(all, k, 58);
      DigitsLonger(Val(all[..k], 58), Val(all, 58), 256);
    }
  }

  lemma {:induction false} WordEnds(s: string, t: string, z: nat, k: nat, max: int)
    requires t == SkipSpaces(s) && z == Leading(t, '1') && z + k <= |t| && '\0' !in s
    requires (forall i :: 0 <= i < k ==> !IsSpace(t[z..][i])) && Valid(t[z..][..k]) && (z + k < |t| ==> IsSpace(t[z..][k]))
    ensures DigitsOf(Digits(Val(CharDigits(t[z..][..k]), 58), 256), 256)
    ensures var bytes := Repeat(0, z) + Bytes(Digits(Val(CharDigits(t[z..][..k]), 58), 256));
            Decoded(s, max) == if SkipSpaces(t[z..][k..]) != [] || (z + k > 0 && |bytes| > max) then None else Some(bytes)
  {
    hide Val, Digits, Leading, Word;
    LeadingFacts(t, '1');
    OnesOfWord(t, z);
    WordAfterOnes(t, z);
    WordPrefix(t[z..], k);
    var w := Word(t);
    assert Valid(w) by {
      OnesAreValid(z, t[z..][..k]);
    }
    DigitsVal(Val(CharDigits(w[z..]), 58), 256);
    assert t[|w|..] == t[z..][k..];
  }
}
