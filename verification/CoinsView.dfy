/** A stack of coin caches over a coin database, as values, and the plain
    meaning of every operation: a stack of maps from outpoint to coin. */
module CoinsView {
  import opened Wrappers
  import opened Coin

  type Entries = map<OutPoint, Entry>
  type Coins = map<OutPoint, Coin>

  datatype View =
    | Database(coins: Coins)
    | Cache(entries: Entries, usage: int, base: View)

  datatype Error = OverwriteUnspent | FreshMisapplied

  // ----- What a view shows ------------------------------------------------

  /** Entries laid over a set of coins: an entry wins, a spent one hides. */
  function Overlay(below: Coins, es: Entries): Coins {
    map o | o in below.Keys + es.Keys && (o in es ==> !es[o].coin.IsSpent())
      :: if o in es then es[o].coin else below[o]
  }

  /** The unspent coins visible through a view. */
  function Visible(v: View): Coins {
    match v
    case Database(coins) => coins
    case Cache(es, _, base) => Overlay(Visible(base), es)
  }

  /** The visible coins of every level, the top one first. */
  function Layers(v: View): (s: seq<Coins>)
    ensures |s| >= 1 && s[0] == Visible(v)
  {
    match v
    case Database(_) => [Visible(v)]
    case Cache(_, _, base) => [Visible(v)] + Layers(base)
  }

  // ----- Memory accounting ------------------------------------------------

  ghost function TotalUsage(es: Entries): nat {
    if es == map[] then 0 else
      var o :| o in es;
      es[o].coin.MemoryUsage() + TotalUsage(es - {o})
  }

  lemma {:induction false} TotalUsageRemove(es: Entries, o: OutPoint)
    requires o in es
    ensures TotalUsage(es) == es[o].coin.MemoryUsage() + TotalUsage(es - {o})
    decreases |es|
  {
    var p :| p in es && TotalUsage(es) == es[p].coin.MemoryUsage() + TotalUsage(es - {p});
    if p != o {
      TotalUsageRemove(es - {p}, o);
      TotalUsageRemove(es - {o}, p);
      assert es - {p} - {o} == es - {o} - {p};
    }
  }

  lemma TotalUsageUpdate(es: Entries, o: OutPoint, e: Entry)
    ensures TotalUsage(es[o := e]) ==
            TotalUsage(es) - (if o in es then es[o].coin.MemoryUsage() else 0) + e.coin.MemoryUsage()
  {
    TotalUsageRemove(es[o := e], o);
    assert es[o := e] - {o} == es - {o};
    if o in es {
      TotalUsageRemove(es, o);
    } else {
      assert es - {o} == es;
    }
  }

  // ----- The coherence invariant -------------------------------------------

  /** What the flags of one entry promise about the level below. */
  predicate EntryCoherent(below: Coins, o: OutPoint, e: Entry) {
    && e.LegalFlags()
    && (e.isFresh ==> o !in below)
    && (!e.isDirty && !e.coin.IsSpent() ==> o in below && below[o] == e.coin)
  }

  ghost predicate Coherent(v: View) {
    match v
    case Database(coins) => forall o <- coins :: !coins[o].IsSpent()
    case Cache(es, usage, base) =>
      && Coherent(base)
      && (forall o <- es :: EntryCoherent(Visible(base), o, es[o]))
      && usage == TotalUsage(es)
  }

  lemma {:induction false} VisibleUnspent(v: View)
    requires Coherent(v)
    ensures forall o <- Visible(v) :: !Visible(v)[o].IsSpent()
  {
    if v.Cache? {
      VisibleUnspent(v.base);
    }
  }

  // ----- Operations --------------------------------------------------------

  function GetCoin(v: View, o: OutPoint): (View, Option<Coin>)
    decreases v, 1
  {
    match v
    case Database(coins) => (v, if o in coins then Some(coins[o]) else None)
    case Cache(_, _, _) =>
      var w := FetchCoin(v, o);
      (w, if o in w.entries && !w.entries[o].coin.IsSpent() then Some(w.entries[o].coin) else None)
  }

  /** Bring the entry of an outpoint into a cache, if the level below has one. */
  function FetchCoin(v: View, o: OutPoint): (w: View)
    requires v.Cache?
    ensures w.Cache?
    decreases v, 0
  {
    if o in v.entries then v else
      var (base, found) := GetCoin(v.base, o);
      match found
      case None => v.(base := base)
      case Some(c) =>
        Cache(v.entries[o := Entry(c, false, c.IsSpent())], v.usage + c.MemoryUsage(), base)
  }

  function AddCoin(v: View, o: OutPoint, c: Coin, overwrite: bool): Result<View, Error>
    requires v.Cache? && !c.IsSpent()
  {
    if c.IsUnspendable() then Ok(v) else
      var prev := if o in v.entries then v.entries[o] else EMPTY_ENTRY;
      if !overwrite && !prev.coin.IsSpent() then Err(OverwriteUnspent) else
        var markFresh := !overwrite && !prev.isDirty;
        Ok(v.(entries := v.entries[o := Entry(c, true, prev.isFresh || markFresh)],
              usage := v.usage - prev.coin.MemoryUsage() + c.MemoryUsage()))
  }

  /** Returns the moved-out coin, or None for the return value false. */
  function SpendCoin(v: View, o: OutPoint): (View, Option<Coin>)
    requires v.Cache?
  {
    var w := FetchCoin(v, o);
    if o !in w.entries then (w, None) else
      var e := w.entries[o];
      var usage := w.usage - e.coin.MemoryUsage();
      if e.isFresh then
        (w.(entries := w.entries - {o}, usage := usage), Some(e.coin))
      else
        (w.(entries := w.entries[o := Entry(EMPTY_COIN, true, false)], usage := usage), Some(e.coin))
  }

  function Uncache(v: View, o: OutPoint): View
    requires v.Cache?
  {
    if o in v.entries && !v.entries[o].isDirty && !v.entries[o].isFresh then
      v.(entries := v.entries - {o}, usage := v.usage - v.entries[o].coin.MemoryUsage())
    else v
  }

  /** What a dirty child entry makes of the parent's entry for the same outpoint. */
  function MergeEntry(us: Option<Entry>, e: Entry): Option<Entry> {
    if !e.isDirty then us else
      match us
      case None => if e.isFresh && e.coin.IsSpent() then None else Some(Entry(e.coin, true, e.isFresh))
      case Some(u) => if u.isFresh && e.coin.IsSpent() then None else Some(Entry(e.coin, true, u.isFresh))
  }

  function Lookup(es: Entries, o: OutPoint): Option<Entry> {
    if o in es then Some(es[o]) else None
  }

  /** The parent's entries after the child's entries have been merged in. */
  function MergeEntries(us: Entries, child: Entries): (m: Entries)
    ensures forall o ::
              Lookup(m, o) == (if o in child then MergeEntry(Lookup(us, o), child[o]) else Lookup(us, o))
  {
    map o | o in us.Keys + child.Keys && (o in child ==> MergeEntry(Lookup(us, o), child[o]).Some?)
      :: if o in child then MergeEntry(Lookup(us, o), child[o]).value else us[o]
  }

  /** The child claims the parent has no unspent coin here, but it has. */
  predicate Misapplied(us: Entries, o: OutPoint, e: Entry) {
    e.isDirty && e.isFresh && o in us && !us[o].coin.IsSpent()
  }

  /** The coins a database holds after the dirty entries have been written. */
  function WriteDirty(coins: Coins, child: Entries): Coins {
    map o | o in coins.Keys + child.Keys &&
            (if o in child && child[o].isDirty then !child[o].coin.IsSpent() else o in coins)
      :: if o in child && child[o].isDirty then child[o].coin else coins[o]
  }

  ghost function BatchWrite(v: View, child: Entries): Result<View, Error> {
    match v
    case Database(coins) => Ok(Database(WriteDirty(coins, child)))
    case Cache(us, usage, base) =>
      if exists o <- child :: Misapplied(us, o, child[o]) then Err(FreshMisapplied) else
        var m := MergeEntries(us, child);
        Ok(Cache(m, usage - TotalUsage(us) + TotalUsage(m), base))
  }

  ghost function Flush(v: View): Result<View, Error>
    requires v.Cache?
  {
    match BatchWrite(v.base, v.entries)
    case Err(e) => Err(e)
    case Ok(base) => Ok(Cache(map[], 0, base))
  }

  function CleanUnspent(es: Entries): Entries {
    map o | o in es && !es[o].coin.IsSpent() :: Entry(es[o].coin, false, false)
  }

  ghost function Sync(v: View): Result<View, Error>
    requires v.Cache?
  {
    match BatchWrite(v.base, v.entries)
    case Err(e) => Err(e)
    case Ok(base) =>
      var kept := CleanUnspent(v.entries);
      Ok(Cache(kept, v.usage - TotalUsage(v.entries) + TotalUsage(kept), base))
  }
}
