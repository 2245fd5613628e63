/** What a cuckoo cache holds: slots with their elements, which of them are live and
    which belong to the current epoch. */
module Cuckoo {
  import opened Integers
  import opened Bits

  type Element = nat

  const WORD: nat := 0x1_0000_0000

  /** No location of a table is this large. */
  const INVALID: nat := WORD - 1

  type Hash32 = x: int | 0 <= x < 0x1_0000_0000

  datatype Slot = Slot(element: Element, live: bool, recent: bool)

  /** The eight hash functions, left open. */
  datatype Hasher = Hasher(hash: (nat, Element) -> Hash32)

  /** A hash mapped onto [0, n). */
  function FastRange32(x: Hash32, n: nat): nat {
    Quotient(x * n, WORD)
  }

  lemma {:induction false} InRange(x: Hash32, n: nat)
    requires n > 0
    ensures FastRange32(x, n) < n
  {
    var q := x * n / WORD;
    assert x * n == q * WORD + x * n % WORD;
    MulMonotone(x + 1, WORD, n);
    assert (x + 1) * n == x * n + n;
    if q >= n {
      MulMonotone(n, q, WORD);
    }
  }

  function Loc(h: Hasher, size: nat, e: Element, k: nat): (l: nat)
    requires size > 0
    ensures l < size
  {
    InRange(h.hash(k, e), size);
    FastRange32(h.hash(k, e), size)
  }

  /** The eight locations of an element. */
  predicate IsLoc(h: Hasher, size: nat, e: Element, l: nat)
    requires size > 0
  {
    exists k: nat :: k < 8 && Loc(h, size, e, k) == l
  }

  lemma {:induction false} NoneOpen(h: Hasher, s: seq<Slot>, e: Element, l: nat)
    requires |s| > 0 && IsLoc(h, |s|, e, l) && forall j: nat :: j < 8 ==> s[Loc(h, |s|, e, j)].live
    ensures l < |s| && s[l].live
  {
    hide Loc;
  }

  /** The first of the eight locations that is this one. */
  ghost predicate FirstAt(h: Hasher, size: nat, e: Element, l: nat, k: nat)
    requires size > 0
  {
    k < 8 && Loc(h, size, e, k) == l && forall j: nat :: j < k ==> Loc(h, size, e, j) != l
  }

  /** Every live element is at one of its own locations. */
  ghost predicate AtHome(h: Hasher, s: seq<Slot>) {
    forall i :: 0 <= i < |s| && s[i].live ==> IsLoc(h, |s|, s[i].element, i)
  }

  // ----- Contents -------------------------------------------------------------------

  type Bag = multiset<(Element, bool)>

  function One(s: Slot): Bag {
    if s.live then multiset{(s.element, s.recent)} else multiset{}
  }

  /** The live elements, with their epochs. */
  function Live(s: seq<Slot>): Bag {
    if s == [] then multiset{} else Live(s[..|s| - 1]) + One(s[|s| - 1])
  }

  lemma {:induction false} BagSwap(a: Bag, b: Bag, x: Bag, y: Bag, z: Bag)
    requires a + x == b + y
    ensures (a + z) + x == (b + z) + y
  {
    assert (a + z) + x == (a + x) + z;
    assert (b + z) + y == (b + y) + z;
  }

  lemma {:induction false} BagExchange(a: Bag, x: Bag, y: Bag)
    ensures (a + y) + x == (a + x) + y
  {
  }

  lemma {:induction false} LiveLast(s: seq<Slot>)
    requires s != []
    ensures Live(s) == Live(s[..|s| - 1]) + One(s[|s| - 1])
  {
  }

  lemma {:induction false} LiveUpdate(s: seq<Slot>, i: nat, x: Slot)
    requires i < |s|
    ensures Live(s[i := x]) + One(s[i]) == Live(s) + One(x)
  {
    hide Live, One;
    var n := |s| - 1;
    LiveLast(s);
    LiveLast(s[i := x]);
    if i == n {
      assert s[i := x][..n] == s[..n];
      BagExchange(Live(s[..n]), One(s[n]), One(x));
    } else {
      assert s[i := x][..n] == s[..n][i := x];
      LiveUpdate(s[..n], i, x);
      BagSwap(Live(s[..n][i := x]), Live(s[..n]), One(s[i]), One(x), One(s[n]));
    }
  }

  lemma {:induction false} LiveMember(s: seq<Slot>, e: Element, recent: bool) returns (i: nat)
    requires (e, recent) in Live(s)
    ensures i < |s| && s[i] == Slot(e, true, recent)
  {
    var n := |s| - 1;
    if s[n] == Slot(e, true, recent) {
      i := n;
    } else {
      assert (e, recent) !in One(s[n]);
      i := LiveMember(s[..n], e, recent);
    }
  }

  lemma {:induction false} LiveNone(s: seq<Slot>)
    requires forall i :: 0 <= i < |s| ==> !s[i].live
    ensures Live(s) == multiset{} && Recents(s) == 0
  {
    if s != [] {
      LiveNone(s[..|s| - 1]);
    }
  }

  // ----- Epochs ----------------------------------------------------------------------

  function RecentOne(s: Slot): nat {
    if s.live && s.recent then 1 else 0
  }

  /** The live elements of the current epoch. */
  function Recents(s: seq<Slot>): nat {
    if s == [] then 0 else Recents(s[..|s| - 1]) + RecentOne(s[|s| - 1])
  }

  /** The slots that hold one. */
  function RecentSlots(s: seq<Slot>): set<nat> {
    set i: nat | i < |s| && s[i].live && s[i].recent
  }

  lemma {:induction false} RecentsCount(s: seq<Slot>)
    ensures Recents(s) == |RecentSlots(s)|
  {
    if s == [] {
      assert RecentSlots(s) == {};
    } else {
      var n := |s| - 1;
      RecentsCount(s[..n]);
      assert RecentSlots(s) == RecentSlots(s[..n]) + if RecentOne(s[n]) == 1 then {n} else {};
    }
  }

  lemma {:induction false} RecentsUpdate(s: seq<Slot>, i: nat, x: Slot)
    requires i < |s|
    ensures Recents(s[i := x]) + RecentOne(s[i]) == Recents(s) + RecentOne(x)
  {
    var n := |s| - 1;
    if i == n {
      assert s[i := x][..n] == s[..n];
    } else {
      assert s[i := x][..n] == s[..n][i := x];
      RecentsUpdate(s[..n], i, x);
    }
  }

  lemma {:induction false} RecentsPrefix(s: seq<Slot>, i: nat)
    requires i < |s|
    ensures Recents(s[..i + 1]) == Recents(s[..i]) + RecentOne(s[i])
    ensures Recents(s[..0]) == 0
  {
    assert s[..i + 1][..i] == s[..i];
  }

  /** A new epoch: what is not recent is released, the rest becomes old. */
  function Aged(s: seq<Slot>): seq<Slot> {
    seq(|s|, i requires 0 <= i < |s| => Slot(s[i].element, s[i].live && s[i].recent, false))
  }

  /** Exactly the live elements of the old epoch are released. */
  lemma {:induction false} AgedLive(s: seq<Slot>, e: Element)
    ensures Live(Aged(s))[(e, false)] == Live(s)[(e, true)] && Live(Aged(s))[(e, true)] == 0 && Recents(Aged(s)) == 0
  {
    if s != [] {
      var n := |s| - 1;
      assert Aged(s)[..n] == Aged(s[..n]);
      AgedLive(s[..n], e);
      OneCount(s[n], e, true);
      OneCount(Aged(s)[n], e, false);
      OneCount(Aged(s)[n], e, true);
    }
  }

  lemma {:induction false} OneCount(s: Slot, e: Element, recent: bool)
    ensures One(s)[(e, recent)] == if s == Slot(e, true, recent) then 1 else 0
  {
  }

  lemma {:induction false} AgedAtHome(h: Hasher, s: seq<Slot>)
    requires AtHome(h, s)
    ensures AtHome(h, Aged(s))
  {
  }

  /** The number of insertions until the next count, after one more. */
  function NextCount(recents: nat, counter: nat, epochSize: nat): nat {
    if counter != 0 then counter - 1
    else if recents >= epochSize then epochSize
    else Max(1, Max(epochSize / 16, epochSize - recents))
  }

  /** The check before every insertion: the slots, and that number. */
  function Checked(s: seq<Slot>, counter: nat, epochSize: nat): (seq<Slot>, nat) {
    (if counter == 0 && Recents(s) >= epochSize then Aged(s) else s, NextCount(Recents(s), counter, epochSize))
  }

  /** The current epoch can outgrow its size by a sixteenth at most. */
  predicate EpochBounded(s: seq<Slot>, counter: nat, epochSize: nat) {
    Recents(s) + counter <= epochSize + Max(1, epochSize / 16)
  }

  /** After the check there is room for one more recent element. */
  lemma {:induction false} CheckedBounded(s: seq<Slot>, counter: nat, epochSize: nat)
    requires EpochBounded(s, counter, epochSize)
    ensures var (t, c) := Checked(s, counter, epochSize);
            Recents(t) + 1 + c <= epochSize + Max(1, epochSize / 16)
  {
    hide Recents, Aged;
    AgedLive(s, 0);
    if counter == 0 && Recents(s) < epochSize {
      CounterBound(Recents(s), epochSize, epochSize / 16);
    }
  }

  lemma {:induction false} CounterBound(recents: nat, size: nat, part: nat)
    requires recents < size
    ensures recents + 1 + Max(1, Max(part, size - recents)) <= size + Max(1, part)
  {
  }

  // ----- Displacement chains --------------------------------------------------------------

  /** Within an insertion of e0 into s0: the slots are t, and e is still to be placed. */
  ghost predicate Chain(h: Hasher, s0: seq<Slot>, e0: Element, t: seq<Slot>, e: Element, recent: bool) {
    && |t| == |s0| && AtHome(h, t)
    && Live(t) + multiset{(e, recent)} == Live(s0) + multiset{(e0, true)}
    && Recents(t) + (if recent then 1 else 0) == Recents(s0) + 1
  }

  lemma {:induction false} ChainSwap(h: Hasher, s0: seq<Slot>, e0: Element, t: seq<Slot>, e: Element, recent: bool, l: nat)
    requires Chain(h, s0, e0, t, e, recent) && l < |t| && t[l].live && IsLoc(h, |t|, e, l)
    ensures Chain(h, s0, e0, t[l := Slot(e, true, recent)], t[l].element, t[l].recent)
  {
    hide Live, Recents, IsLoc;
    LiveUpdate(t, l, Slot(e, true, recent));
    RecentsUpdate(t, l, Slot(e, true, recent));
  }

  lemma {:induction false} ChainPlace(h: Hasher, s0: seq<Slot>, e0: Element, t: seq<Slot>, e: Element, recent: bool, l: nat)
    requires Chain(h, s0, e0, t, e, recent) && l < |t| && !t[l].live && IsLoc(h, |t|, e, l)
    ensures var u := t[l := Slot(e, true, recent)];
            AtHome(h, u) && Live(u) == Live(s0) + multiset{(e0, true)} && Recents(u) == Recents(s0) + 1
  {
    hide Live, Recents, IsLoc;
    var u := t[l := Slot(e, true, recent)];
    LiveUpdate(t, l, Slot(e, true, recent));
    RecentsUpdate(t, l, Slot(e, true, recent));
    assert Live(u) + multiset{} == Live(u);
  }

  /** How an insertion ends: the element was there and is kept, it was added, or it
      was added and one live element (perhaps itself) was lost. */
  datatype Outcome = Kept(loc: nat) | Added | Lost(element: Element, recent: bool)

  ghost predicate Inserted(h: Hasher, s: seq<Slot>, t: seq<Slot>, e: Element, outcome: Outcome) {
    && |s| == |t| && |s| > 0
    && match outcome
       case Kept(l) => l < |s| && IsLoc(h, |s|, e, l) && s[l].element == e && t == s[l := Slot(e, true, true)]
       case Added =>
         && Live(t) == Live(s) + multiset{(e, true)} && NotStored(h, s, e)
         && forall k: nat :: FirstOpen(h, s, e, k) ==> t == s[Loc(h, |s|, e, k) := Slot(e, true, true)]
       case Lost(x, recent) =>
         && Live(t) + multiset{(x, recent)} == Live(s) + multiset{(e, true)} && NotStored(h, s, e)
         && forall k: nat :: !FirstOpen(h, s, e, k)
  }

  /** The first of the eight locations that may be overwritten. */
  ghost predicate FirstOpen(h: Hasher, s: seq<Slot>, e: Element, k: nat)
    requires |s| > 0
  {
    k < 8 && !s[Loc(h, |s|, e, k)].live && forall j: nat :: j < k ==> s[Loc(h, |s|, e, j)].live
  }

  lemma {:induction false} FirstOpenUnique(h: Hasher, s: seq<Slot>, e: Element, j: nat, k: nat)
    requires |s| > 0 && FirstOpen(h, s, e, j) && FirstOpen(h, s, e, k)
    ensures j == k
  {
    hide Loc;
  }

  ghost predicate NotStored(h: Hasher, s: seq<Slot>, e: Element)
    requires |s| > 0
  {
    forall k: nat :: k < 8 ==> s[Loc(h, |s|, e, k)].element != e
  }

  lemma {:induction false} FirstOpenFound(h: Hasher, s: seq<Slot>, e: Element, found: bool, l: nat)
    requires |s| > 0 && if found then exists k: nat :: FirstOpen(h, s, e, k) && Loc(h, |s|, e, k) == l
                        else forall j: nat :: j < 8 ==> s[Loc(h, |s|, e, j)].live
    ensures forall k: nat :: FirstOpen(h, s, e, k) ==> found && Loc(h, |s|, e, k) == l
  {
    hide Loc;
    forall k: nat | FirstOpen(h, s, e, k)
      ensures found && Loc(h, |s|, e, k) == l
    {
      if found {
        var j: nat :| FirstOpen(h, s, e, j) && Loc(h, |s|, e, j) == l;
        FirstOpenUnique(h, s, e, j, k);
      }
    }
  }

  lemma {:induction false} KeepHere(h: Hasher, s: seq<Slot>, e: Element, l: nat)
    requires l < |s| && IsLoc(h, |s|, e, l) && AtHome(h, s) && s[l].element == e
    ensures AtHome(h, s[l := Slot(e, true, true)]) && Recents(s[l := Slot(e, true, true)]) <= Recents(s) + 1
  {
    hide Recents, IsLoc;
    RecentsUpdate(s, l, Slot(e, true, true));
  }

  /** What is live is found at one of its locations. */
  lemma {:induction false} LiveFound(h: Hasher, s: seq<Slot>, e: Element, recent: bool)
    requires AtHome(h, s) && (e, recent) in Live(s)
    ensures |s| > 0 && !NotStored(h, s, e)
  {
    var i := LiveMember(s, e, recent);
    assert IsLoc(h, |s|, e, i);
  }

  /** After an insertion the element is found, unless it is the one lost. */
  lemma {:induction false} InsertedFound(h: Hasher, s: seq<Slot>, t: seq<Slot>, e: Element, outcome: Outcome)
    requires AtHome(h, t) && Inserted(h, s, t, e, outcome) && outcome != Lost(e, true)
    ensures !NotStored(h, t, e)
  {
    if outcome.Kept? {
      var k: nat :| k < 8 && Loc(h, |s|, e, k) == outcome.loc;
    } else {
      assert (e, true) in Live(s) + multiset{(e, true)};
      if outcome.Lost? {
        assert (e, true) !in multiset{(outcome.element, outcome.recent)};
        assert (e, true) in Live(t);
      }
      LiveFound(h, t, e, true);
    }
  }

  lemma {:induction false} ChainStart(h: Hasher, s: seq<Slot>, e: Element)
    requires AtHome(h, s)
    ensures Chain(h, s, e, s, e, true)
  {
  }

  lemma {:induction false} ChainEnd(h: Hasher, s0: seq<Slot>, e0: Element, t: seq<Slot>, e: Element, recent: bool)
    requires Chain(h, s0, e0, t, e, recent)
    ensures AtHome(h, t) && Recents(t) <= Recents(s0) + 1
    ensures Live(t) + multiset{(e, recent)} == Live(s0) + multiset{(e0, true)}
  {
  }

  lemma {:induction false} LocIs(h: Hasher, size: nat, e: Element, k: nat)
    requires size > 0 && k < 8
    ensures IsLoc(h, size, e, Loc(h, size, e, k))
  {
  }

  lemma {:induction false} ReleaseKeeps(h: Hasher, s: seq<Slot>, l: nat)
    requires AtHome(h, s) && l < |s|
    ensures var t := s[l := s[l].(live := false)]; AtHome(h, t) && Recents(t) <= Recents(s)
  {
    hide Recents;
    RecentsUpdate(s, l, s[l].(live := false));
  }
}
