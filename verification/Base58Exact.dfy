/** Base 58 texts, exactly: a word with spaces around it, the alphabet, and known words. */
module Base58Exact {
  import opened Wrappers
  import opened NthRoot
  import opened Base58Digits
  import opened Base58

  /** Spaces are the blank, and tabs, line ends and their like. */
  predicate Spaces(s: string) {
    forall i :: 0 <= i < |s| ==> s[i] as int in {9, 10, 11, 12, 13, 32}
  }

  lemma {:induction false} SpaceIs(c: char)
    ensures IsSpace(c) <==> c as int in {9, 10, 11, 12, 13, 32}
  {
  }

  lemma {:induction false} Skips(a: string, rest: string)
    requires Spaces(a)
    ensures SkipSpaces(a + rest) == SkipSpaces(rest)
  {
    hide IsSpace;
    if a == [] {
      assert a + rest == rest;
    } else {
      SpaceIs(a[0]);
      assert (a + rest)[1..] == a[1..] + rest;
      Skips(a[1..], rest);
    }
  }

  lemma {:induction false} SkippedAll(s: string)
    ensures SkipSpaces(s) == [] <==> Spaces(s)
  {
    hide IsSpace;
    if s != [] {
      SpaceIs(s[0]);
      SkippedAll(s[1..]);
      if Spaces(s[1..]) && IsSpace(s[0]) {
        forall i | 0 <= i < |s|
          ensures s[i] as int in {9, 10, 11, 12, 13, 32}
        {
          assert i > 0 ==> s[i] == s[1..][i - 1];
        }
      }
    }
  }

  /** Spaces around a word are ignored. */
  lemma {:induction false} SpacesIgnored(a: string, w: string, b: string, max: int)
    requires Spaces(a) && Spaces(b) && Valid(w)
    ensures Decoded(a + w + b, max) == Decoded(w, max)
  {
    hide IsSpace, DigitOf, WordBytes, SkipSpaces, Word;
    var s := a + w + b;
    NoSpaces(w);
    assert '\0' !in s by {
      assert forall i :: 0 <= i < |s| ==> s[i] == if i < |a| then a[i] else if i < |a| + |w| then w[i - |a|] else b[i - |a| - |w|];
      assert forall i :: 0 <= i < |w| ==> w[i] in w;
    }
    assert s == a + (w + b);
    Skips(a, w + b);
    FirstWord(w, b);
    SkippedAll(b);
    NothingAfter(w);
    if w == [] {
      assert w + b == b && w[|w|..] == [];
    } else {
      assert (w + b)[|w|..] == b && w[|w|..] == [];
    }
  }

  lemma {:induction false} NothingAfter(w: string)
    ensures SkipSpaces(w[|w|..]) == []
  {
  }

  lemma {:induction false} FirstWord(w: string, b: string)
    requires Valid(w) && Spaces(b)
    ensures if w == [] then SkipSpaces(w + b) == [] && Word([]) == []
            else SkipSpaces(w + b) == w + b && Word(w + b) == w
  {
    hide IsSpace, DigitOf;
    if w == [] {
      assert w + b == b;
      SkippedAll(b);
    } else {
      forall i | 0 <= i < |w|
        ensures !IsSpace(w[i])
      {
        DigitChar(w[i]);
      }
      var u := w + b;
      assert forall i :: 0 <= i < |w| ==> u[i] == w[i];
      if b != [] {
        assert u[|w|] == b[0];
        SpaceIs(b[0]);
      }
      WordPrefix(u, |w|);
      assert u[..|w|] == w;
    }
  }

  /** A text that can be decoded is the encoding of its value with spaces around it. */
  lemma {:induction false} DecodedShape(s: string, max: int) returns (a: string, b: string)
    requires Decoded(s, max).Some?
    ensures Spaces(a) && Spaces(b) && s == a + Encoded(Decoded(s, max).value) + b
  {
    hide IsSpace, DigitOf, WordBytes, Encoded;
    var t := SkipSpaces(s);
    var w := Word(t);
    a := SkippedPart(s);
    b := t[|w|..];
    SkippedAll(b);
    WordStarts(t);
    WordEncodes(w);
    assert s == a + (w + b);
  }

  lemma {:induction false} SkippedPart(s: string) returns (a: string)
    ensures Spaces(a) && s == a + SkipSpaces(s)
  {
    hide IsSpace;
    if s != [] && IsSpace(s[0]) {
      SpaceIs(s[0]);
      var rest := SkippedPart(s[1..]);
      a := [s[0]] + rest;
      assert s == [s[0]] + s[1..];
    } else {
      a := [];
    }
  }

  lemma {:induction false} WordStarts(t: string)
    ensures t == Word(t) + t[|Word(t)|..]
  {
    hide IsSpace;
    if t != [] && !IsSpace(t[0]) {
      WordStarts(t[1..]);
      assert t == [t[0]] + t[1..];
    }
  }

  // ----- Known words -----------------------------------------------------------------------

  /** The characters of some digits in a row. */
  predicate Reads(first: nat, text: string)
    requires first + |text| <= 58
  {
    forall i :: 0 <= i < |text| ==> CharOf(first + i) == text[i]
  }

  /** The alphabet is that of digits and letters without 0, I, O and l, in order. */
  lemma {:induction false} Alphabet()
    ensures Reads(0, "123456789") && Reads(9, "ABCDEFGH") && Reads(17, "JKLMN")
    ensures Reads(22, "PQRSTUVWXYZ") && Reads(33, "abcdefghijk") && Reads(44, "mnopqrstuvwxyz")
  {
  }

  /** One byte, and three bytes, as they are known to be written. */
  lemma {:induction false} KnownWords()
    ensures Encoded([0x61]) == "2g" && Encoded([0x62, 0x62, 0x62]) == "a3gV"
  {
    hide Digits, Val, Power, Leading;
    KnownValues();
    KnownDigits();
    var x: seq<Byte>, y: seq<Byte> := [0x61], [0x62, 0x62, 0x62];
    LeadingUnique(x, 0, 0);
    LeadingUnique(y, 0, 0);
    assert x[0..] == x && y[0..] == y;
    assert Chars([1, 39]) == "2g" && Chars([33, 2, 39, 28]) == "a3gV";
    assert Repeat('1', 0) + "2g" == "2g" && Repeat('1', 0) + "a3gV" == "a3gV";
  }

  lemma {:induction false} KnownValues()
    ensures Val([0x61], 256) == 97 && Val([0x62, 0x62, 0x62], 256) == 6447714
  {
    assert Power(256, 0) == 1 && Power(256, 1) == 256 && Power(256, 2) == 65536;
    assert [0x62, 0x62, 0x62][1..] == [0x62, 0x62] && [0x62, 0x62][1..] == [0x62] && [0x62][1..] == [] && [0x61][1..] == [];
    assert Val([0x62], 256) == 98 && Val([0x62, 0x62], 256) == 98 * 256 + 98;
  }

  lemma {:induction false} KnownDigits()
    ensures Digits(97, 58) == [1, 39] && Digits(6447714, 58) == [33, 2, 39, 28]
  {
    assert Digits(0, 58) == [] && Digits(1, 58) == [1] && Digits(33, 58) == [33];
    assert Digits(1916, 58) == [33, 2] && Digits(111167, 58) == [33, 2, 39];
  }
}
