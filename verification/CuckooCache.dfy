/** The cuckoo cache as an object: a table, a packed array of flags for the slots that
    may be overwritten, and an epoch flag for each slot. */
module CuckooCache {
  import opened Integers
  import opened BitFlags
  import opened Cuckoo

  class Cache {
    const hasher: Hasher
    const size: nat
    const table: array<Element>
    const collectionFlags: BitPackedFlags
    const epochFlags: array<bool>
    const epochSize: nat
    const depthLimit: nat
    var epochHeuristicCounter: nat
    ghost var slots: seq<Slot>

    ghost predicate Wired() {
      && 2 <= size == table.Length == epochFlags.Length && size < WORD && size <= 8 * collectionFlags.mem.Length && epochSize >= 1 && depthLimit >= 1
    }

    ghost predicate SlotOk(i: nat)
      requires Wired() && i < size
      reads this`slots, table, epochFlags, collectionFlags.mem
    {
      |slots| == size && slots[i] == Slot(table[i], !collectionFlags.IsSet(i), epochFlags[i])
    }

    /** The arrays hold the slots. */
    ghost predicate Stored()
      reads this`slots, table, epochFlags, collectionFlags.mem
    {
      Wired() && |slots| == size && forall i :: 0 <= i < size ==> SlotOk(i)
    }

    ghost predicate Valid()
      reads this, table, epochFlags, collectionFlags.mem
    {
      Stored() && AtHome(hasher, slots) && EpochBounded(slots, epochHeuristicCounter, epochSize)
    }

    /** Make room for the given number of elements; `depth` is its rounded binary
        logarithm. */
    constructor (h: Hasher, newSize: nat, depth: nat)
      requires newSize < WORD && depth >= 1
      ensures Valid() && fresh(table) && fresh(epochFlags) && fresh(collectionFlags) && fresh(collectionFlags.mem)
      ensures hasher == h && size == Max(2, newSize) && depthLimit == depth && Live(slots) == multiset{}
      ensures epochSize == Max(1, 45 * size % WORD / 100)
    {
      hasher := h;
      size := Max(2, newSize);
      depthLimit := depth;
      table := new Element[Max(2, newSize)](_ => 0);
      collectionFlags := new BitPackedFlags(Max(2, newSize));
      epochFlags := new bool[Max(2, newSize)](_ => false);
      epochSize := Max(1, 45 * Max(2, newSize) % WORD / 100);
      epochHeuristicCounter := Max(1, 45 * Max(2, newSize) % WORD / 100);
      slots := seq(Max(2, newSize), _ => Slot(0, false, false));
      new;
      LiveNone(slots);
    }

    method AllowErase(n: nat)
      requires Stored() && n < size
      modifies collectionFlags.mem, this`slots
      ensures Stored() && slots == old(slots)[n := old(slots)[n].(live := false)]
    {
      hide BitPackedFlags.IsSet;
      collectionFlags.Set(n);
      slots := slots[n := slots[n].(live := false)];
      forall i | 0 <= i < size
        ensures SlotOk(i)
      {
        assert old(SlotOk(i));
      }
    }

    /** Put an element into a slot and keep it. */
    method Place(n: nat, e: Element, recent: bool)
      requires Stored() && n < size
      modifies table, epochFlags, collectionFlags.mem, this`slots
      ensures Stored() && slots == old(slots)[n := Slot(e, true, recent)]
    {
      hide BitPackedFlags.IsSet;
      table[n] := e;
      collectionFlags.Unset(n);
      epochFlags[n] := recent;
      slots := slots[n := Slot(e, true, recent)];
      forall i | 0 <= i < size
        ensures SlotOk(i)
      {
        assert old(SlotOk(i));
      }
    }

    /** Age the cache when the current epoch has grown to its size. */
    method EpochCheck()
      requires Valid()
      modifies this, epochFlags, collectionFlags.mem
      ensures Stored() && AtHome(hasher, slots)
      ensures (slots, epochHeuristicCounter) == Checked(old(slots), old(epochHeuristicCounter), epochSize)
      ensures slots == if old(epochHeuristicCounter) == 0 && |RecentSlots(old(slots))| >= epochSize
                       then Aged(old(slots)) else old(slots)
      ensures epochHeuristicCounter == NextCount(|RecentSlots(old(slots))|, old(epochHeuristicCounter), epochSize)
    {
      hide BitPackedFlags.IsSet, Recents;
      if epochHeuristicCounter != 0 {
        epochHeuristicCounter := epochHeuristicCounter - 1;
        return;
      }
      RecentsCount(slots);
      var unused := 0;
      RecentsPrefix(slots, 0);
      for i := 0 to size
        invariant Stored() && slots == old(slots) && epochHeuristicCounter == 0 && unused == Recents(slots[..i])
      {
        assert SlotOk(i);
        RecentsPrefix(slots, i);
        unused := unused + if epochFlags[i] && !collectionFlags.IsSet(i) then 1 else 0;
      }
      assert slots[..size] == slots;
      if unused >= epochSize {
        AgedAtHome(hasher, slots);
        Age();
        epochHeuristicCounter := epochSize;
      } else {
        epochHeuristicCounter := Max(1, Max(epochSize / 16, epochSize - unused));
      }
    }

    method Age()
      requires Stored()
      modifies this`slots, epochFlags, collectionFlags.mem
      ensures Stored() && slots == Aged(old(slots))
    {
      hide BitPackedFlags.IsSet;
      ghost var s := slots;
      for i := 0 to size
        invariant Stored() && forall k :: 0 <= k < size ==> slots[k] == if k < i then Aged(s)[k] else s[k]
      {
        assert SlotOk(i);
        if epochFlags[i] {
          Demote(i);
        } else {
          AllowErase(i);
        }
      }
      assert slots == Aged(s);
    }

    method Demote(n: nat)
      requires Stored() && n < size
      modifies this`slots, epochFlags
      ensures Stored() && slots == old(slots)[n := old(slots)[n].(recent := false)]
    {
      hide BitPackedFlags.IsSet;
      epochFlags[n] := false;
      slots := slots[n := slots[n].(recent := false)];
      forall i | 0 <= i < size
        ensures SlotOk(i)
      {
        assert old(SlotOk(i));
      }
    }

    method Insert(element: Element) returns (ghost outcome: Outcome)
      requires Valid()
      modifies this, table, epochFlags, collectionFlags.mem
      ensures Valid()
      ensures if old(epochHeuristicCounter) == 0 && |RecentSlots(old(slots))| >= epochSize
              then Inserted(hasher, Aged(old(slots)), slots, element, outcome)
              else Inserted(hasher, old(slots), slots, element, outcome)
      ensures epochHeuristicCounter == NextCount(|RecentSlots(old(slots))|, old(epochHeuristicCounter), epochSize)
    {
      hide BitPackedFlags.IsSet, Recents, RecentSlots, Live, Checked, AtHome, Loc, Chain, FirstOpen;
      CheckedBounded(slots, epochHeuristicCounter, epochSize);
      EpochCheck();
      ghost var s := slots;
      for k := 0 to 8
        invariant forall j: nat :: j < k ==> s[Loc(hasher, size, element, j)].element != element
      {
        var loc := Loc(hasher, size, element, k);
        assert SlotOk(loc);
        if table[loc] == element {
          assert IsLoc(hasher, size, element, loc);
          KeepHere(hasher, s, element, loc);
          Place(loc, element, true);
          return Kept(loc);
        }
      }
      outcome := Displace(element);
    }

    /** The index of a location among the eight of an element, or eight. */
    method FindLoc(e: Element, loc: nat) returns (k: nat)
      requires Wired()
      ensures k <= 8 && (k < 8 ==> Loc(hasher, size, e, k) == loc)
      ensures forall j: nat :: j < k ==> Loc(hasher, size, e, j) != loc
    {
      hide Loc;
      k := 0;
      while k < 8 && Loc(hasher, size, e, k) != loc
        invariant 0 <= k <= 8 && forall j: nat :: j < k ==> Loc(hasher, size, e, j) != loc
      {
        k := k + 1;
      }
    }

    /** Where to displace next: the location after the last one, among the eight of the
        element. At first there is no last location, and the second is taken. */
    method NextLoc(e: Element, lastLoc: nat) returns (loc: nat)
      requires Wired()
      ensures loc < size && IsLoc(hasher, size, e, loc)
      ensures lastLoc == INVALID ==> loc == Loc(hasher, size, e, 1)
      ensures forall k: nat :: FirstAt(hasher, size, e, lastLoc, k) ==> loc == Loc(hasher, size, e, (k + 1) % 8)
    {
      hide Loc, IsLoc;
      var k := FindLoc(e, lastLoc);
      forall i: nat | FirstAt(hasher, size, e, lastLoc, i)
        ensures i == k
      {
      }
      loc := Loc(hasher, size, e, (1 + k) % 8);
      LocIs(hasher, size, e, (1 + k) % 8);
    }

    /** A location of the element that may be overwritten, if there is one. */
    method FindOpen(e: Element) returns (found: bool, loc: nat)
      requires Stored()
      ensures found ==> loc < size && IsLoc(hasher, size, e, loc) && !slots[loc].live
      ensures found ==> exists k: nat :: FirstOpen(hasher, slots, e, k) && Loc(hasher, size, e, k) == loc
      ensures !found ==> forall j: nat :: j < 8 ==> slots[Loc(hasher, size, e, j)].live
    {
      hide Loc, BitPackedFlags.IsSet;
      for k := 0 to 8
        invariant forall j: nat :: j < k ==> slots[Loc(hasher, size, e, j)].live
      {
        loc := Loc(hasher, size, e, k);
        assert SlotOk(loc);
        if collectionFlags.IsSet(loc) {
          assert IsLoc(hasher, size, e, loc);
          assert FirstOpen(hasher, slots, e, k);
          return true, loc;
        }
      }
      return false, 0;
    }

    /** Swap an element and its epoch with those of a live slot. */
    method Exchange(n: nat, e: Element, recent: bool) returns (other: Element, otherRecent: bool)
      requires Stored() && n < size && slots[n].live
      modifies table, epochFlags, this`slots
      ensures Stored() && slots == old(slots)[n := Slot(e, true, recent)]
      ensures other == old(slots)[n].element && otherRecent == old(slots)[n].recent
    {
      hide BitPackedFlags.IsSet;
      assert SlotOk(n);
      other, otherRecent := table[n], epochFlags[n];
      table[n], epochFlags[n] := e, recent;
      slots := slots[n := Slot(e, true, recent)];
      forall i | 0 <= i < size
        ensures SlotOk(i)
      {
        assert old(SlotOk(i));
      }
    }

    /** Put the element into an open location, or swap it with the element at the next
        location and go on with that one, up to the depth limit. */
    method Displace(element: Element) returns (ghost outcome: Outcome)
      requires Stored() && AtHome(hasher, slots)
      modifies table, epochFlags, collectionFlags.mem, this`slots
      ensures Stored() && AtHome(hasher, slots) && Recents(slots) <= Recents(old(slots)) + 1
      ensures match outcome
              case Kept(_) => false
              case Added => Live(slots) == Live(old(slots)) + multiset{(element, true)}
              case Lost(x, recent) => Live(slots) + multiset{(x, recent)} == Live(old(slots)) + multiset{(element, true)}
      ensures forall k: nat :: FirstOpen(hasher, old(slots), element, k) ==>
                outcome == Added && slots == old(slots)[Loc(hasher, size, element, k) := Slot(element, true, true)]
    {
      hide BitPackedFlags.IsSet, Recents, Live, AtHome, Loc, Chain, IsLoc, FirstOpen;
      ghost var s := slots;
      var e, lastEpoch := element, true;
      var lastLoc := INVALID;
      ChainStart(hasher, s, element);
      for depth := 0 to depthLimit
        invariant Stored() && Chain(hasher, s, element, slots, e, lastEpoch)
        invariant depth == 0 ==> slots == s && e == element && lastEpoch
        invariant depth > 0 ==> forall k: nat :: !FirstOpen(hasher, s, element, k)
      {
        var found, loc := FindOpen(e);
        if depth == 0 {
          FirstOpenFound(hasher, s, element, found, loc);
        }
        if found {
          ChainPlace(hasher, s, element, slots, e, lastEpoch, loc);
          Place(loc, e, lastEpoch);
          return Added;
        }
        lastLoc := NextLoc(e, lastLoc);
        NoneOpen(hasher, slots, e, lastLoc);
        ChainSwap(hasher, s, element, slots, e, lastEpoch, lastLoc);
        e, lastEpoch := Exchange(lastLoc, e, lastEpoch);
      }
      ChainEnd(hasher, s, element, slots, e, lastEpoch);
      outcome := Lost(e, lastEpoch);
    }

    /** Is the element stored? With `erase`, its slot may be overwritten from then on. */
    method Contains(e: Element, erase: bool) returns (r: bool)
      requires Valid()
      modifies this`slots, collectionFlags.mem
      ensures Valid() && r == !NotStored(hasher, old(slots), e)
      ensures (exists recent :: (e, recent) in Live(old(slots))) ==> r
      ensures forall i :: 0 <= i < size ==> slots[i].element == old(slots)[i].element
      ensures !(r && erase) ==> slots == old(slots)
      ensures r && erase ==> exists k: nat ::
                               && k < 8 && (forall j: nat :: j < k ==> old(slots)[Loc(hasher, size, e, j)].element != e)
                               && var l := Loc(hasher, size, e, k);
                               old(slots)[l].element == e && slots == old(slots)[l := old(slots)[l].(live := false)]
    {
      hide BitPackedFlags.IsSet, Recents, Live, Loc;
      ghost var s := slots;
      if recent :| (e, recent) in Live(s) {
        LiveFound(hasher, s, e, recent);
      }
      for k := 0 to 8
        invariant slots == s && Valid() && forall j: nat :: j < k ==> s[Loc(hasher, size, e, j)].element != e
      {
        var loc := Loc(hasher, size, e, k);
        assert SlotOk(loc);
        if table[loc] == e {
          if erase {
            ReleaseKeeps(hasher, s, loc);
            AllowErase(loc);
          }
          return true;
        }
      }
      r := false;
    }
  }
}
