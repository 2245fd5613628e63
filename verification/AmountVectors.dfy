/** Codes of known amounts, in both directions. */
module AmountVectors {
  import opened AmountCompression

  const CENT: nat := 1_000_000
  const COIN: nat := 100_000_000

  predicate Pair(amount: nat, code: nat) {
    Compressed(amount) == code && Decompressed(code) == amount
  }

  /** In money range one direction gives the other. */
  lemma {:induction false} PairFrom(amount: nat, code: nat)
    requires code < U64 && amount <= MAX_MONEY && Unwrapped(code) == amount
    ensures Pair(amount, code)
  {
    hide Compressed, Unwrapped;
    CodeIsCanonical(code);
  }

  lemma {:induction false} Powers()
    ensures Pow10(0) == 1 && Pow10(6) == CENT && Pow10(8) == COIN && Pow10(9) == 1_000_000_000
  {
    assert Pow10(2) == 100 && Pow10(4) == 10_000;
  }

  /** Amounts with a legacy code: few digits, or many zeros at the end. */
  lemma {:induction false} KnownAmounts()
    ensures Pair(0, 0) && Pair(1, 1) && Pair(CENT, 7) && Pair(COIN, 9) && Pair(50 * COIN, 0x32)
    ensures Pair(21_000_000_000 * COIN, 0x4e3b29200) && Pair(2_049_638_230_412_172_402, 18_446_744_073_709_551_611)
  {
    hide Pow10, Pair, Compressed;
    Powers();
    PairFrom(0, 0);
    PairFrom(1, 1);
    PairFrom(CENT, 7);
    PairFrom(COIN, 9);
    PairFrom(50 * COIN, 0x32);
    PairFrom(21_000_000_000 * COIN, 0x4e3b29200);
    PairFrom(2_049_638_230_412_172_402, 18_446_744_073_709_551_611);
  }

  lemma {:induction false} FirstMinimum()
    ensures MinFor(1) == 2_049_638_230_412_172_411 && MinFor(3) == 2_049_638_230_412_172_403
  {
  }

  /** The first amounts without one, for the last digits 1 and 3. */
  lemma {:induction false} KnownExtended()
    ensures Pair(2_049_638_230_412_172_411, 1_890_000_000_000_000_002)
    ensures Pair(2_049_638_230_412_172_403, 1_990_723_539_175_655_182)
  {
    hide MinFor, Pair, Compressed, Decode, CountFor;
    FirstMinimum();
    CountValue(1);
    CountValue(2);
    CountValue(3);
    PairFrom(2_049_638_230_412_172_411, 1_890_000_000_000_000_002);
    PairFrom(2_049_638_230_412_172_403, 1_990_723_539_175_655_182);
  }
}
