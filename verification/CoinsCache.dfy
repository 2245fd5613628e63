/** The coin database and the coin cache as objects. Each method is proved to
    take the object, with everything it is layered on, from one view value to
    the one the operation in CoinsView names. */
module CoinsCache {
  import opened Wrappers
  import opened Coin
  import opened CoinsView

  /** The entries of `m` that a loop over `m` has already visited. */
  ghost function Visited(m: Entries, todo: set<OutPoint>): Entries {
    map o | o in m && o !in todo :: m[o]
  }

  /** The caller's map once all but `todo` have been visited. */
  ghost function Left(m: Entries, todo: set<OutPoint>, erase: bool): Entries {
    if erase then map o | o in m && o in todo :: m[o] else m
  }

  lemma {:induction false} LeftOneMore(m: Entries, todo: set<OutPoint>, o: OutPoint)
    ensures Left(m, todo - {o}, true) == Left(m, todo, true) - {o}
  {
  }

  lemma {:induction false} AllVisited(m: Entries, erase: bool)
    ensures Visited(m, m.Keys) == map[] && Visited(m, {}) == m
    ensures Left(m, m.Keys, erase) == m && Left(m, {}, erase) == if erase then map[] else m
  {
  }

  lemma {:induction false} WriteOneMore(coins: Coins, child: Entries, todo: set<OutPoint>, o: OutPoint)
    requires o in todo && o in child
    ensures var m := WriteDirty(coins, Visited(child, todo));
            WriteDirty(coins, Visited(child, todo - {o})) ==
            if !child[o].isDirty then m else if child[o].coin.IsSpent() then m - {o} else m[o := child[o].coin]
  {
  }

  class CoinsViewDB {
    var coins: Coins

    method GetCoin(o: OutPoint) returns (r: Option<Coin>)
      ensures (Database(coins), r) == CoinsView.GetCoin(Database(coins), o)
    {
      r := if o in coins then Some(coins[o]) else None;
    }

    /** Write the dirty entries; returns what is left in the caller's map. */
    method BatchWrite(mapCoins: Entries, erase: bool) returns (rest: Entries)
      modifies this
      ensures coins == WriteDirty(old(coins), mapCoins)
      ensures rest == if erase then map[] else mapCoins
    {
      rest := mapCoins;
      var todo := mapCoins.Keys;
      AllVisited(mapCoins, erase);
      assert WriteDirty(coins, map[]) == coins;
      while todo != {}
        invariant todo <= mapCoins.Keys
        invariant coins == WriteDirty(old(coins), Visited(mapCoins, todo))
        invariant rest == Left(mapCoins, todo, erase)
      {
        var o :| o in todo;
        WriteOneMore(old(coins), mapCoins, todo, o);
        LeftOneMore(mapCoins, todo, o);
        if mapCoins[o].isDirty {
          coins := if mapCoins[o].coin.IsSpent() then coins - {o} else coins[o := mapCoins[o].coin];
        }
        if erase {
          rest := rest - {o};
        }
        todo := todo - {o};
      }
    }
  }

  /** What a cache is layered on. */
  datatype Base = Db(db: CoinsViewDB) | Backed(cache: CoinsViewCache)

  class CoinsViewCache {
    const base: Base
    ghost const depth: nat
    ghost const footprint: set<object>
    var cacheCoins: Entries
    var cachedCoinsUsage: int

    /** The objects below are distinct; being constant, this cannot change. */
    ghost predicate Wired()
      decreases depth
    {
      match base
      case Db(db) => footprint == {this, db}
      case Backed(c) => c.depth < depth && c.Wired() && this !in c.footprint && footprint == {this} + c.footprint
    }

    ghost function BaseModel(): View
      requires Wired()
      reads footprint - {this}
      decreases depth, 0
    {
      match base
      case Db(db) => Database(db.coins)
      case Backed(c) => c.Model()
    }

    ghost function Model(): View
      requires Wired()
      reads footprint
      decreases depth, 1
    {
      Cache(cacheCoins, cachedCoinsUsage, BaseModel())
    }

    constructor OverDatabase(db: CoinsViewDB)
      ensures Wired() && footprint == {this, db}
      ensures Model() == Cache(map[], 0, Database(db.coins))
    {
      base := Db(db);
      depth := 0;
      footprint := {this, db};
      cacheCoins := map[];
      cachedCoinsUsage := 0;
    }

    constructor OverCache(c: CoinsViewCache)
      requires c.Wired()
      ensures Wired() && footprint == {this} + c.footprint
      ensures Model() == Cache(map[], 0, c.Model())
    {
      base := Backed(c);
      depth := c.depth + 1;
      footprint := {this} + c.footprint;
      cacheCoins := map[];
      cachedCoinsUsage := 0;
    }

    method FetchCoin(o: OutPoint)
      requires Wired()
      modifies footprint
      ensures Model() == CoinsView.FetchCoin(old(Model()), o)
      decreases depth, 0
    {
      if o in cacheCoins {
        return;
      }
      var tmp;
      match base {
        case Db(db) => tmp := db.GetCoin(o);
        case Backed(c) => tmp := c.GetCoin(o);
      }
      if tmp.Some? {
        // A spent coin below would make the copy FRESH; GetCoin never returns one.
        cacheCoins := cacheCoins[o := Entry(tmp.value, false, tmp.value.IsSpent())];
        cachedCoinsUsage := cachedCoinsUsage + tmp.value.MemoryUsage();
      }
    }

    method GetCoin(o: OutPoint) returns (r: Option<Coin>)
      requires Wired()
      modifies footprint
      ensures (Model(), r) == CoinsView.GetCoin(old(Model()), o)
      decreases depth, 1
    {
      FetchCoin(o);
      r := None;
      if o in cacheCoins && !cacheCoins[o].coin.IsSpent() {
        r := Some(cacheCoins[o].coin);
      }
    }

    method AddCoin(o: OutPoint, coin: Coin, possibleOverwrite: bool) returns (r: Result<(), Error>)
      requires Wired() && !coin.IsSpent()
      modifies this
      ensures match CoinsView.AddCoin(old(Model()), o, coin, possibleOverwrite)
              case Ok(w) => r.Ok? && Model() == w
              case Err(e) => r == Err(e)
    {
      if coin.IsUnspendable() {
        return Ok(());
      }
      var inserted := o !in cacheCoins;
      if inserted {
        cacheCoins := cacheCoins[o := EMPTY_ENTRY];
      } else {
        cachedCoinsUsage := cachedCoinsUsage - cacheCoins[o].coin.MemoryUsage();
      }
      var markFresh := false;
      if !possibleOverwrite {
        if !cacheCoins[o].coin.IsSpent() {
          return Err(OverwriteUnspent);
        }
        markFresh := !cacheCoins[o].isDirty;
      }
      cacheCoins := cacheCoins[o := Entry(coin, true, cacheCoins[o].isFresh || markFresh)];
      cachedCoinsUsage := cachedCoinsUsage + coin.MemoryUsage();
      assert BaseModel() == old(BaseModel());
      r := Ok(());
    }

    method SpendCoin(o: OutPoint) returns (moveout: Option<Coin>)
      requires Wired()
      modifies footprint
      ensures (Model(), moveout) == CoinsView.SpendCoin(old(Model()), o)
    {
      FetchCoin(o);
      if o !in cacheCoins {
        return None;
      }
      ghost var below := BaseModel();
      cachedCoinsUsage := cachedCoinsUsage - cacheCoins[o].coin.MemoryUsage();
      moveout := Some(cacheCoins[o].coin);
      if cacheCoins[o].isFresh {
        cacheCoins := cacheCoins - {o};
      } else {
        cacheCoins := cacheCoins[o := Entry(EMPTY_COIN, true, cacheCoins[o].isFresh)];
      }
      assert BaseModel() == below;
    }

    method Uncache(o: OutPoint)
      requires Wired()
      modifies this
      ensures Model() == CoinsView.Uncache(old(Model()), o)
      ensures o in cacheCoins <==> o in old(cacheCoins) && (old(cacheCoins)[o].isDirty || old(cacheCoins)[o].isFresh)
      ensures cacheCoins - {o} == old(cacheCoins) - {o} && (o in cacheCoins ==> cacheCoins[o] == old(cacheCoins)[o])
    {
      if o in cacheCoins && !cacheCoins[o].isDirty && !cacheCoins[o].isFresh {
        cachedCoinsUsage := cachedCoinsUsage - cacheCoins[o].coin.MemoryUsage();
        cacheCoins := cacheCoins - {o};
      }
      assert BaseModel() == old(BaseModel());
    }

    /** One entry of a child is merged in; false is the thrown logic error. */
    method WriteEntry(o: OutPoint, e: Entry) returns (ok: bool)
      requires Wired() && e.isDirty
      modifies this
      ensures ok <==> !Misapplied(old(cacheCoins), o, e)
      ensures ok ==> cacheCoins == MergeEntries(old(cacheCoins), map[o := e])
      ensures ok ==> cachedCoinsUsage - TotalUsage(cacheCoins) == old(cachedCoinsUsage - TotalUsage(cacheCoins))
    {
      MergeSingle(cacheCoins, o, e);
      if o !in cacheCoins {
        if !(e.isFresh && e.coin.IsSpent()) {
          TotalUsageUpdate(cacheCoins, o, Entry(e.coin, true, e.isFresh));
          cacheCoins := cacheCoins[o := Entry(e.coin, true, e.isFresh)];
          cachedCoinsUsage := cachedCoinsUsage + e.coin.MemoryUsage();
        }
      } else {
        if e.isFresh && !cacheCoins[o].coin.IsSpent() {
          return false;
        }
        cachedCoinsUsage := cachedCoinsUsage - cacheCoins[o].coin.MemoryUsage();
        if cacheCoins[o].isFresh && e.coin.IsSpent() {
          TotalUsageRemove(cacheCoins, o);
          cacheCoins := cacheCoins - {o};
        } else {
          TotalUsageUpdate(cacheCoins, o, Entry(e.coin, true, cacheCoins[o].isFresh));
          cacheCoins := cacheCoins[o := Entry(e.coin, true, cacheCoins[o].isFresh)];
          cachedCoinsUsage := cachedCoinsUsage + e.coin.MemoryUsage();
        }
      }
      ok := true;
    }

    /** Merge a child's entries; returns what is left in the child's map. */
    method BatchWrite(mapCoins: Entries, erase: bool) returns (r: Result<Entries, Error>)
      requires Wired()
      modifies this
      ensures match CoinsView.BatchWrite(old(Model()), mapCoins)
              case Ok(w) => Model() == w && r == Ok(if erase then map[] else mapCoins)
              case Err(e) => r == Err(e)
    {
      var rest := mapCoins;
      var todo := mapCoins.Keys;
      AllVisited(mapCoins, erase);
      SameLookups(cacheCoins, MergeEntries(cacheCoins, map[]));
      while todo != {}
        invariant todo <= mapCoins.Keys
        invariant cacheCoins == MergeEntries(old(cacheCoins), Visited(mapCoins, todo))
        invariant cachedCoinsUsage - TotalUsage(cacheCoins) == old(cachedCoinsUsage - TotalUsage(cacheCoins))
        invariant forall o <- mapCoins :: o in todo || !Misapplied(old(cacheCoins), o, mapCoins[o])
        invariant rest == Left(mapCoins, todo, erase)
      {
        var o :| o in todo;
        LeftOneMore(mapCoins, todo, o);
        assert Lookup(cacheCoins, o) == Lookup(old(cacheCoins), o);
        if mapCoins[o].isDirty {
          var ok := WriteEntry(o, mapCoins[o]);
          if !ok {
            return Err(FreshMisapplied);
          }
        }
        MergeOneMore(old(cacheCoins), mapCoins, todo, o);
        if erase {
          rest := rest - {o};
        }
        todo := todo - {o};
      }
      assert BaseModel() == old(BaseModel());
      r := Ok(rest);
    }

    method WriteToBase(erase: bool) returns (r: Result<Entries, Error>)
      requires Wired()
      modifies footprint - {this}
      ensures match CoinsView.BatchWrite(old(BaseModel()), cacheCoins)
              case Ok(w) => BaseModel() == w && r == Ok(if erase then map[] else cacheCoins)
              case Err(e) => r == Err(e)
    {
      match base {
        case Db(db) =>
          var rest := db.BatchWrite(cacheCoins, erase);
          r := Ok(rest);
        case Backed(c) => r := c.BatchWrite(cacheCoins, erase);
      }
    }

    method Flush() returns (r: Result<(), Error>)
      requires Wired()
      modifies footprint
      ensures match CoinsView.Flush(old(Model()))
              case Ok(w) => r.Ok? && Model() == w
              case Err(e) => r == Err(e)
      ensures r.Ok? ==> cacheCoins == map[] && cachedCoinsUsage == 0
    {
      var written := WriteToBase(true);
      if written.Err? {
        return Err(written.error);
      }
      ghost var below := BaseModel();
      cacheCoins := written.value;
      cachedCoinsUsage := 0;
      assert BaseModel() == below;
      r := Ok(());
    }

    /** Drop the spent entries and clear the flags of the others. */
    method ClearFlags()
      modifies this
      ensures cacheCoins == CleanUnspent(old(cacheCoins))
      ensures cachedCoinsUsage - TotalUsage(cacheCoins) == old(cachedCoinsUsage - TotalUsage(cacheCoins))
    {
      var todo := cacheCoins.Keys;
      AllSwept(cacheCoins);
      while todo != {}
        invariant todo <= old(cacheCoins).Keys
        invariant cacheCoins == Swept(old(cacheCoins), todo)
        invariant cachedCoinsUsage - TotalUsage(cacheCoins) == old(cachedCoinsUsage - TotalUsage(cacheCoins))
      {
        var o :| o in todo;
        SweptOneMore(old(cacheCoins), todo, o);
        if cacheCoins[o].coin.IsSpent() {
          TotalUsageRemove(cacheCoins, o);
          cachedCoinsUsage := cachedCoinsUsage - cacheCoins[o].coin.MemoryUsage();
          cacheCoins := cacheCoins - {o};
        } else {
          TotalUsageUpdate(cacheCoins, o, Entry(cacheCoins[o].coin, false, false));
          cacheCoins := cacheCoins[o := Entry(cacheCoins[o].coin, false, false)];
        }
        todo := todo - {o};
      }
    }

    /** The internal consistency check: it passes exactly when every entry is in
        one of the five flag states and the usage counter is the recount. */
    method SanityCheck() returns (ok: bool)
      ensures ok <==> (forall o <- cacheCoins :: cacheCoins[o].LegalFlags()) && cachedCoinsUsage == TotalUsage(cacheCoins)
    {
      var recomputed := 0;
      var todo := cacheCoins;
      while todo != map[]
        invariant forall o <- todo :: o in cacheCoins && todo[o] == cacheCoins[o]
        invariant forall o <- cacheCoins :: o in todo || cacheCoins[o].LegalFlags()
        invariant recomputed + TotalUsage(todo) == TotalUsage(cacheCoins)
        decreases |todo|
      {
        var o :| o in todo.Keys;
        if !todo[o].LegalFlags() {
          return false;
        }
        TotalUsageRemove(todo, o);
        recomputed := recomputed + todo[o].coin.MemoryUsage();
        todo := todo - {o};
      }
      ok := recomputed == cachedCoinsUsage;
    }

    method Sync() returns (r: Result<(), Error>)
      requires Wired()
      modifies footprint
      ensures match CoinsView.Sync(old(Model()))
              case Ok(w) => r.Ok? && Model() == w
              case Err(e) => r == Err(e)
      ensures r.Ok? ==>
                && (forall o :: o in cacheCoins <==> o in old(cacheCoins) && !old(cacheCoins)[o].coin.IsSpent())
                && (forall o <- cacheCoins :: cacheCoins[o] == Entry(old(cacheCoins)[o].coin, false, false))
    {
      var written := WriteToBase(false);
      if written.Err? {
        return Err(written.error);
      }
      ghost var below := BaseModel();
      ClearFlags();
      assert BaseModel() == below;
      r := Ok(());
    }
  }

  /** The entries during a sweep that has still to visit `todo`. */
  ghost function Swept(m: Entries, todo: set<OutPoint>): Entries {
    map o | o in m && (o in todo || !m[o].coin.IsSpent())
      :: if o in todo then m[o] else Entry(m[o].coin, false, false)
  }

  lemma {:induction false} SweptOneMore(m: Entries, todo: set<OutPoint>, o: OutPoint)
    requires o in todo && o in m
    ensures o in Swept(m, todo) && Swept(m, todo)[o] == m[o]
    ensures Swept(m, todo - {o}) ==
            if m[o].coin.IsSpent() then Swept(m, todo) - {o}
            else Swept(m, todo)[o := Entry(m[o].coin, false, false)]
  {
  }

  lemma {:induction false} AllSwept(m: Entries)
    ensures Swept(m, m.Keys) == m && Swept(m, {}) == CleanUnspent(m)
  {
  }

  lemma {:induction false} SameLookups(m: Entries, n: Entries)
    requires forall o :: Lookup(m, o) == Lookup(n, o)
    ensures m == n
  {
    forall o
      ensures o in m <==> o in n
      ensures o in m ==> m[o] == n[o]
    {
      assert Lookup(m, o) == Lookup(n, o);
    }
  }

  lemma {:induction false} MergeSingle(us: Entries, o: OutPoint, e: Entry)
    ensures MergeEntries(us, map[o := e]) ==
            match MergeEntry(Lookup(us, o), e)
            case None => us - {o}
            case Some(x) => us[o := x]
  {
    var m := MergeEntry(Lookup(us, o), e);
    SameLookups(MergeEntries(us, map[o := e]), if m.None? then us - {o} else us[o := m.value]);
  }

  /** Merging the visited entries and then one more is merging one more. */
  lemma {:induction false} MergeOneMore(us: Entries, child: Entries, todo: set<OutPoint>, o: OutPoint)
    requires o in todo && o in child
    ensures var m := MergeEntries(us, Visited(child, todo));
            MergeEntries(us, Visited(child, todo - {o})) ==
            if child[o].isDirty then MergeEntries(m, map[o := child[o]]) else m
  {
    var m := MergeEntries(us, Visited(child, todo));
    var n := MergeEntries(us, Visited(child, todo - {o}));
    var n' := if child[o].isDirty then MergeEntries(m, map[o := child[o]]) else m;
    forall p
      ensures Lookup(n, p) == Lookup(n', p)
    {
      assert Lookup(m, p) == if p in Visited(child, todo) then MergeEntry(Lookup(us, p), child[p]) else Lookup(us, p);
    }
    SameLookups(n, n');
  }
}
