/** What a cache holds, not only what it shows: the exact entries after every operation,
    and how caches save work: a coin that is created and spent in the same cache, or in
    a cache it was flushed to, leaves no entry behind. */
module CoinsContents {
  import opened Wrappers
  import opened Coin
  import opened CoinsView
  import opened CoinsRefinement
  import CoinsRun

  /** The legal flag states are those whose attribute (1 for DIRTY, 2 for FRESH, 4 for
      spent, added up) is neither 2 nor 4 nor 7. */
  lemma {:induction false} LegalAttributes(e: Entry)
    ensures var attr := (if e.isDirty then 1 else 0) + (if e.isFresh then 2 else 0) + (if e.coin.IsSpent() then 4 else 0);
            e.LegalFlags() <==> attr != 2 && attr != 4 && attr != 7
  {
  }

  /** A script up to 28 bytes costs nothing; a longer one its length, rounded up to whole
      16 bytes with at least 16 to spare. */
  lemma {:induction false} MemoryExactly(c: Coin)
    ensures c.MemoryUsage() == 0 <==> |c.script| <= 28
    ensures |c.script| > 28 ==> c.MemoryUsage() % 16 == 0 && |c.script| + 16 <= c.MemoryUsage() < |c.script| + 32
  {
  }

  /** What starts with OP_RETURN, or is longer than 10000 bytes, never enters a cache. */
  lemma {:induction false} NeverCached(v: View, o: OutPoint, c: Coin, overwrite: bool)
    requires v.Cache? && !c.IsSpent()
    ensures AddCoin(v, o, c, overwrite) == Ok(v) <==>
            (c.script != [] && c.script[0] == 0x6a) || |c.script| > 10000 ||
            (o in v.entries && overwrite && v.entries[o] == Entry(c, true, v.entries[o].isFresh))
  {
    if o in v.entries && overwrite && v.entries[o] == Entry(c, true, v.entries[o].isFresh) {
      assert v.entries[o := v.entries[o]] == v.entries;
    }
  }

  // ----- Writing -----------------------------------------------------------------------

  /** A cache over a cache: what the base holds for an outpoint after the child was
      written to it. A dirty unspent coin arrives dirty, and FRESH if either entry was
      (they cannot differ where both exist); a dirty spent coin deletes an entry that was
      FRESH, or leaves nothing where nothing was, or else is marked for deletion below. */
  ghost predicate Written(us: Entries, child: Entries, after: Entries, o: OutPoint) {
    if o !in child || !child[o].isDirty then Lookup(after, o) == Lookup(us, o)
    else
      var unknown := if o in us then us[o].isFresh else child[o].isFresh;
      if !child[o].coin.IsSpent() then Lookup(after, o) == Some(Entry(child[o].coin, true, unknown))
      else if unknown then o !in after
      else o in after && after[o].coin.IsSpent() && after[o].isDirty && !after[o].isFresh
  }

  /** Flushing succeeds and leaves nothing in the cache; the base holds what was dirty. */
  lemma {:induction false} FlushContents(v: View)
    requires v.Cache? && Coherent(v)
    ensures Flush(v).Ok?
    ensures var w := Flush(v).value;
            && w.Cache? && w.base.Cache? == v.base.Cache?
            && w.entries == map[] && w.usage == 0
            && if v.base.Cache? then
                 w.base.base == v.base.base && forall o :: Written(v.base.entries, v.entries, w.base.entries, o)
               else w.base.coins == Visible(v)
  {
    BatchWriteRefines(v.base, v.entries);
    var w := Flush(v).value;
    if v.base.Cache? {
      WrittenAll(v.base.entries, v.entries);
    }
  }

  lemma {:induction false} WrittenAll(us: Entries, child: Entries)
    ensures forall o :: Written(us, child, MergeEntries(us, child), o)
  {
    var m := MergeEntries(us, child);
    forall o
      ensures Written(us, child, m, o)
    {
      assert Lookup(m, o) == if o in child then MergeEntry(Lookup(us, o), child[o]) else Lookup(us, o);
    }
  }

  /** Syncing writes the same, but keeps the unspent coins, and only those, as clean. */
  lemma {:induction false} SyncContents(v: View)
    requires v.Cache? && Coherent(v)
    ensures Sync(v).Ok? && Flush(v).Ok?
    ensures var w := Sync(v).value;
            && w.Cache? && w.base == Flush(v).value.base
            && (forall o :: o in w.entries <==> o in v.entries && !v.entries[o].coin.IsSpent())
            && (forall o <- w.entries :: w.entries[o] == Entry(v.entries[o].coin, false, false))
            && w.usage == TotalUsage(w.entries)
  {
    BatchWriteRefines(v.base, v.entries);
  }

  /** So after syncing every cached coin is visible below, and flushing again or not
      flushing at all writes nothing. */
  lemma {:induction false} SyncThenFlush(v: View)
    requires v.Cache? && Coherent(v)
    ensures Sync(v).Ok? && Sync(v).value.Cache?
    ensures var w := Sync(v).value;
            && (forall o <- w.entries :: o in Visible(w.base) && Visible(w.base)[o] == w.entries[o].coin)
            && Flush(w) == Flush(v)
  {
    hide BatchWrite, Overlay, Visible, Layers, TotalUsage, CleanUnspent;
    SyncContents(v);
    SyncRefines(v);
    FlushRefines(v);
    var w := Sync(v).value;
    NothingWritten(w.base, w.entries);
    forall o <- w.entries
      ensures o in Visible(w.base) && Visible(w.base)[o] == w.entries[o].coin
    {
      assert EntryCoherent(Visible(w.base), o, w.entries[o]);
    }
  }

  lemma {:induction false} NothingWritten(v: View, clean: Entries)
    requires forall o <- clean :: !clean[o].isDirty
    ensures BatchWrite(v, clean) == Ok(v)
  {
    match v
    case Database(coins) => assert WriteDirty(coins, clean) == coins;
    case Cache(us, usage, base) => assert MergeEntries(us, clean) == us;
  }

  // ----- Reading -----------------------------------------------------------------------

  /** Reading caches the coin, clean, if there is one, and changes no other entry of the
      cache; what is known already is not asked for again. */
  lemma {:induction false} FetchContents(v: View, o: OutPoint)
    requires v.Cache? && Coherent(v)
    ensures var w := FetchCoin(v, o);
            && (forall p :: p != o ==> Lookup(w.entries, p) == Lookup(v.entries, p))
            && Lookup(w.entries, o) ==
               (if o in v.entries then Some(v.entries[o])
                else if o in Visible(v) then Some(Entry(Visible(v)[o], false, false)) else None)
            && (o in v.entries ==> w == v)
  {
    GetCoinRefines(v.base, o);
    VisibleUnspent(v.base);
  }

  /** Uncaching drops a clean entry and its memory, and nothing else. */
  lemma {:induction false} UncacheContents(v: View, o: OutPoint)
    requires v.Cache? && Coherent(v)
    ensures var w := Uncache(v, o);
            && w.Cache? && w.base == v.base
            && (o in w.entries <==> o in v.entries && (v.entries[o].isDirty || v.entries[o].isFresh))
            && (forall p :: p != o ==> Lookup(w.entries, p) == Lookup(v.entries, p))
            && (o in w.entries ==> w.entries[o] == v.entries[o])
            && w.usage == TotalUsage(w.entries)
  {
    if o in v.entries {
      TotalUsageRemove(v.entries, o);
    }
  }

  /** It can be undone by reading. */
  lemma {:induction false} UncacheThenFetch(v: View, o: OutPoint)
    requires v.Cache? && Coherent(v) && o in v.entries
    ensures FetchCoin(Uncache(v, o), o).entries == v.entries
  {
    var w := Uncache(v, o);
    UncacheRefines(v, o);
    FetchContents(w, o);
    var x := FetchCoin(w, o);
    assert EntryCoherent(Visible(v.base), o, v.entries[o]);
    assert Visible(w) == Layers(w)[0] == Layers(v)[0] == Visible(v);
    forall p
      ensures Lookup(x.entries, p) == Lookup(v.entries, p)
    {
      if p != o {
        assert Lookup(w.entries, p) == Lookup(v.entries, p);
      }
    }
    SameContents(x.entries, v.entries);
  }

  lemma {:induction false} SameContents(a: Entries, b: Entries)
    requires forall o :: Lookup(a, o) == Lookup(b, o)
    ensures a == b
  {
    forall o
      ensures o in a <==> o in b
      ensures o in a ==> a[o] == b[o]
    {
      assert Lookup(a, o) == Lookup(b, o);
    }
  }

  // ----- Creating and spending --------------------------------------------------------

  /** A coin that is new to the caches: created and spent, it leaves the cache, its
      memory and all levels below as they were. */
  lemma {:induction false} CreatedThenSpent(v: View, o: OutPoint, c: Coin)
    requires v.Cache? && o !in v.entries && !c.IsSpent() && !c.IsUnspendable()
    ensures AddCoin(v, o, c, false).Ok? && AddCoin(v, o, c, false).value.Cache?
    ensures SpendCoin(AddCoin(v, o, c, false).value, o) == (v, Some(c))
  {
    var w := AddCoin(v, o, c, false).value;
    assert w.entries - {o} == v.entries;
  }

  /** Spending deletes a FRESH entry, and marks any other coin as spent; either way no
      memory is used for it, and other entries stay. */
  lemma {:induction false} SpendContents(v: View, o: OutPoint)
    requires v.Cache? && Coherent(v)
    ensures var w := SpendCoin(v, o).0;
            && w.Cache? && (forall p :: p != o ==> Lookup(w.entries, p) == Lookup(v.entries, p))
            && Lookup(w.entries, o) ==
               (if o in v.entries && v.entries[o].isFresh then None
                else if o in v.entries || o in Visible(v) then Some(Entry(EMPTY_COIN, true, false))
                else None)
            && w.usage == TotalUsage(w.entries)
  {
    FetchContents(v, o);
    SpendCoinRefines(v, o);
  }

  /** Created, flushed one level down and spent there: no entry is left on either level. */
  lemma {:induction false} CreatedFlushedSpent(v: View, o: OutPoint, c: Coin)
    requires v.Cache? && v.base.Cache? && Coherent(v) && !c.IsSpent() && !c.IsUnspendable()
    requires o !in v.entries && o !in v.base.entries && o !in Visible(v)
    ensures AddCoin(v, o, c, false).Ok? && AddCoin(v, o, c, false).value.Cache?
    ensures var f := Flush(AddCoin(v, o, c, false).value);
            && f.Ok? && f.value.Cache? && f.value.base.Cache?
            && o !in f.value.entries && o !in SpendCoin(f.value.base, o).0.entries
            && SpendCoin(f.value.base, o).1 == Some(c)
  {
    AddCoinRefines(v, o, c, false);
    var w := AddCoin(v, o, c, false).value;
    FlushContents(w);
    var f := Flush(w).value;
    assert Written(w.base.entries, w.entries, f.base.entries, o);
    assert f.base.entries[o] == Entry(c, true, true);
  }

  // ----- Over runs ----------------------------------------------------------------------

  /** Actions that may change the top entry of an outpoint, or the top itself. */
  predicate Touches(a: CoinsRun.Action, o: OutPoint) {
    a.level == 0 &&
    match a.op
    case Add(p, _, _) => p == o
    case Spend(p) => p == o
    case Get(_) => false
    case Uncache(_) => false
    case _ => true
  }

  lemma {:induction false} OneUntouched(v: View, a: CoinsRun.Action, o: OutPoint)
    requires v.Cache? && Coherent(v) && o in v.entries && v.entries[o].isDirty
    requires CoinsRun.Fits(|Layers(v)|, a) && !Touches(a, o) && CoinsRun.Step(v, a).Ok?
    ensures var w := CoinsRun.Step(v, a).value; w.Cache? && Lookup(w.entries, o) == Lookup(v.entries, o)
  {
    if a.level == 0 {
      match a.op
      case Add(p, _, _) =>
      case Spend(p) => SpendContents(v, p);
      case Get(p) => FetchContents(v, p);
      case Uncache(p) =>
    }
  }

  lemma {:induction false} Untouched(v: View, run: seq<CoinsRun.Action>, o: OutPoint)
    requires v.Cache? && Coherent(v) && o in v.entries && v.entries[o].isDirty
    requires CoinsRun.AllowedRun(Layers(v), run) && forall a <- run :: !Touches(a, o)
    ensures CoinsRun.FitsRun(|Layers(v)|, run) && CoinsRun.Run(v, run).Ok?
    ensures var w := CoinsRun.Run(v, run).value; w.Cache? && Lookup(w.entries, o) == Lookup(v.entries, o)
    decreases |run|
  {
    hide Touches, Coherent, CoinsRun.Step, CoinsRun.PlainStep, CoinsRun.Fits, CoinsRun.LevelsAfter;
    CoinsRun.AllowedFits(Layers(v), run);
    if run != [] {
      CoinsRun.StepRefines(v, run[0]);
      OneUntouched(v, run[0], o);
      Untouched(CoinsRun.Step(v, run[0]).value, run[1..], o);
    }
  }

  /** A coin created in the top cache and spent there later, after any allowed run that
      neither writes nor leaves that cache: no entry is left, and nothing to write. */
  lemma {:induction false} ShortLived(v: View, o: OutPoint, c: Coin, run: seq<CoinsRun.Action>)
    requires v.Cache? && Coherent(v) && o !in v.entries && o !in Visible(v) && !c.IsSpent() && !c.IsUnspendable()
    requires AddCoin(v, o, c, false).Ok? && CoinsRun.AllowedRun(Layers(AddCoin(v, o, c, false).value), run)
    requires forall a <- run :: !Touches(a, o)
    ensures var w := AddCoin(v, o, c, false).value;
            && CoinsRun.FitsRun(|Layers(w)|, run) && CoinsRun.Run(w, run).Ok? && CoinsRun.Run(w, run).value.Cache?
            && SpendCoin(CoinsRun.Run(w, run).value, o).1 == Some(c)
            && o !in SpendCoin(CoinsRun.Run(w, run).value, o).0.entries
  {
    hide Touches, CoinsRun.Run, CoinsRun.AllowedRun, CoinsRun.FitsRun;
    AddCoinRefines(v, o, c, false);
    var w := AddCoin(v, o, c, false).value;
    Untouched(w, run, o);
    assert Lookup(w.entries, o) == Some(Entry(c, true, true));
  }
}
