/** Every operation on a coherent stack of caches does to the visible coins
    what the same operation does to plain maps, and leaves the stack coherent. */
module CoinsRefinement {
  import opened Wrappers
  import opened Coin
  import opened CoinsView

  // ----- One cache level ---------------------------------------------------

  /** GetCoin answers from the visible coins and changes none of them, at any
      level; what it caches on the way is coherent. */
  lemma {:induction false} GetCoinRefines(v: View, o: OutPoint)
    requires Coherent(v)
    ensures var (w, r) := GetCoin(v, o);
            && w.Cache? == v.Cache? && Coherent(w) && Layers(w) == Layers(v)
            && r == (if o in Visible(v) then Some(Visible(v)[o]) else None)
    decreases v, 1
  {
    if v.Cache? {
      FetchCoinRefines(v, o);
      VisibleUnspent(v);
    }
  }

  /** Copying a visible coin up as a clean entry shows nothing new. */
  lemma {:induction false} OverlayFetch(below: Coins, es: Entries, o: OutPoint)
    requires o in below && o !in es && !below[o].IsSpent()
    ensures Overlay(below, es[o := Entry(below[o], false, false)]) == Overlay(below, es)
  {
  }

  lemma {:induction false} FetchCoinRefines(v: View, o: OutPoint)
    requires v.Cache? && Coherent(v)
    ensures var w := FetchCoin(v, o);
            && Coherent(w) && Layers(w) == Layers(v)
            && (o in Visible(v) ==> o in w.entries && w.entries[o].coin == Visible(v)[o])
            && (o !in Visible(v) ==> o !in w.entries || w.entries[o].coin.IsSpent())
    decreases v, 0
  {
    if o !in v.entries {
      GetCoinRefines(v.base, o);
      VisibleUnspent(v.base);
      var w := FetchCoin(v, o);
      assert Layers(w.base) == Layers(v.base);
      assert Visible(w.base) == Layers(w.base)[0] == Visible(v.base);
      if o in Visible(v.base) {
        OverlayFetch(Visible(v.base), v.entries, o);
        TotalUsageUpdate(v.entries, o, w.entries[o]);
      }
    }
  }

  /** Changing the entries of the top cache changes what the top level shows only. */
  lemma {:induction false} SameBase(v: View, w: View)
    requires v.Cache? && w.Cache? && w.base == v.base
    ensures Layers(w) == Layers(v)[0 := Visible(w)]
  {
  }

  /** A new dirty entry shows its coin and leaves every other outpoint alone. */
  lemma {:induction false} OverlayAdd(below: Coins, es: Entries, o: OutPoint, e: Entry)
    requires !e.coin.IsSpent()
    ensures Overlay(below, es[o := e]) == Overlay(below, es)[o := e.coin]
  {
  }

  lemma {:induction false} AddCoinRefines(v: View, o: OutPoint, c: Coin, overwrite: bool)
    requires v.Cache? && Coherent(v) && !c.IsSpent()
    requires overwrite || o !in Visible(v)
    ensures var r := AddCoin(v, o, c, overwrite);
            && r.Ok? && Coherent(r.value)
            && Layers(r.value) == if c.IsUnspendable() then Layers(v) else Layers(v)[0 := Visible(v)[o := c]]
  {
    if !c.IsUnspendable() {
      var e := AddCoin(v, o, c, overwrite).value.entries[o];
      TotalUsageUpdate(v.entries, o, e);
      OverlayAdd(Visible(v.base), v.entries, o, e);
    }
  }

  /** Clearing or dropping one entry hides exactly its outpoint. */
  lemma {:induction false} OverlaySpend(below: Coins, es: Entries, o: OutPoint)
    requires forall p <- es :: EntryCoherent(below, p, es[p])
    requires o in es
    ensures es[o].isFresh ==> Overlay(below, es - {o}) == Overlay(below, es) - {o}
    ensures Overlay(below, es[o := Entry(EMPTY_COIN, true, false)]) == Overlay(below, es) - {o}
  {
  }

  /** The step after the fetch: a FRESH entry goes, any other is cleared. */
  lemma {:induction false} SpendFetched(f: View, o: OutPoint)
    requires f.Cache? && Coherent(f) && o in f.entries
    ensures var w := SpendCoin(f, o).0;
            w.Cache? && w.base == f.base && Coherent(w) && Visible(w) == Visible(f) - {o}
  {
    TotalUsageRemove(f.entries, o);
    TotalUsageUpdate(f.entries, o, Entry(EMPTY_COIN, true, false));
    OverlaySpend(Visible(f.base), f.entries, o);
  }

  lemma {:induction false} SpendCoinRefines(v: View, o: OutPoint)
    requires v.Cache? && Coherent(v)
    ensures var (w, r) := SpendCoin(v, o);
            && Coherent(w) && Layers(w) == Layers(v)[0 := Visible(v) - {o}]
            && (o in Visible(v) ==> r == Some(Visible(v)[o]))
  {
    hide Coherent, Visible, Layers, FetchCoin, SpendCoin, Overlay;
    FetchCoinRefines(v, o);
    var f := FetchCoin(v, o);
    var coins := Visible(v);
    assert Layers(f) == Layers(v) && Layers(f)[0] == Visible(f) == coins;
    SpendAfterFetch(v, o);
    if o in f.entries {
      SpendFetched(f, o);
      SameBase(f, SpendCoin(f, o).0);
    } else {
      assert o !in coins && coins - {o} == coins;
      assert Layers(v)[0 := coins] == Layers(v);
    }
  }

  lemma {:induction false} SpendAfterFetch(v: View, o: OutPoint)
    requires v.Cache?
    ensures var f := FetchCoin(v, o);
            if o in f.entries then SpendCoin(v, o) == SpendCoin(f, o) && SpendCoin(f, o).1 == Some(f.entries[o].coin)
            else SpendCoin(v, o) == (f, None)
  {
  }

  lemma {:induction false} UncacheRefines(v: View, o: OutPoint)
    requires v.Cache? && Coherent(v)
    ensures var w := Uncache(v, o);
            Coherent(w) && Layers(w) == Layers(v)
  {
    var w := Uncache(v, o);
    if w != v {
      TotalUsageRemove(v.entries, o);
    }
    assert Visible(w) == Visible(v);
  }

  /** Merging a child's entries into its parent keeps each flag's promise and
      shows what the child laid over the parent showed. */
  lemma {:induction false} MergeCoherent(below: Coins, us: Entries, child: Entries)
    requires forall o <- us :: EntryCoherent(below, o, us[o])
    requires forall o <- child :: EntryCoherent(Overlay(below, us), o, child[o])
    ensures forall o <- child :: !Misapplied(us, o, child[o])
    ensures var m := MergeEntries(us, child);
            && (forall o <- m :: EntryCoherent(below, o, m[o]))
            && Overlay(below, m) == Overlay(Overlay(below, us), child)
  {
    var m := MergeEntries(us, child);
    var goal := Overlay(Overlay(below, us), child);
    forall o
      ensures o in m ==> EntryCoherent(below, o, m[o])
      ensures o in Overlay(below, m) <==> o in goal
      ensures o in goal ==> Overlay(below, m)[o] == goal[o]
    {
      MergeCoherentAt(below, us, child, o);
    }
    assert Overlay(below, m) == goal;
  }

  lemma {:induction false} MergeCoherentAt(below: Coins, us: Entries, child: Entries, o: OutPoint)
    requires o in us ==> EntryCoherent(below, o, us[o])
    requires o in child ==> EntryCoherent(Overlay(below, us), o, child[o])
    ensures var m := MergeEntries(us, child);
            var goal := Overlay(Overlay(below, us), child);
            && (o in m ==> EntryCoherent(below, o, m[o]))
            && (o in Overlay(below, m) <==> o in goal)
            && (o in goal ==> Overlay(below, m)[o] == goal[o])
  {
    var m := MergeEntries(us, child);
    assert Lookup(m, o) ==
           if o in child then MergeEntry(Lookup(us, o), child[o]) else Lookup(us, o);
  }

  /** Writing a coherent child into its parent never throws, and afterwards the
      parent shows what the child showed. */
  lemma {:induction false} BatchWriteRefines(v: View, child: Entries)
    requires Coherent(v)
    requires forall o <- child :: EntryCoherent(Visible(v), o, child[o])
    ensures var r := BatchWrite(v, child);
            && r.Ok? && r.value.Cache? == v.Cache? && (v.Cache? ==> r.value.base == v.base)
            && Coherent(r.value) && Visible(r.value) == Overlay(Visible(v), child)
  {
    match v
    case Database(coins) =>
      assert WriteDirty(coins, child) == Overlay(coins, child);
    case Cache(us, _, base) =>
      MergeCoherent(Visible(base), us, child);
  }

  /** A clean copy of the unspent entries agrees with the coins just written. */
  lemma {:induction false} CleanUnspentCoherent(below: Coins, es: Entries)
    requires forall o <- es :: EntryCoherent(below, o, es[o])
    ensures var shown := Overlay(below, es);
            && (forall o <- CleanUnspent(es) :: EntryCoherent(shown, o, CleanUnspent(es)[o]))
            && Overlay(shown, CleanUnspent(es)) == shown
  {
    assert Overlay(Overlay(below, es), CleanUnspent(es)) == Overlay(below, es);
  }

  lemma {:induction false} FlushRefines(v: View)
    requires v.Cache? && Coherent(v)
    ensures var r := Flush(v);
            r.Ok? && Coherent(r.value) && Layers(r.value) == Layers(v)[1 := Visible(v)]
  {
    BatchWriteRefines(v.base, v.entries);
    assert Overlay(Visible(v), map[]) == Visible(v);
  }

  lemma {:induction false} SyncRefines(v: View)
    requires v.Cache? && Coherent(v)
    ensures var r := Sync(v);
            r.Ok? && Coherent(r.value) && Layers(r.value) == Layers(v)[1 := Visible(v)]
  {
    BatchWriteRefines(v.base, v.entries);
    CleanUnspentCoherent(Visible(v.base), v.entries);
  }
}
