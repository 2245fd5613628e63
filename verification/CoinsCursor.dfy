/** Walking the coins of a view: the merge of the base walk with the sorted
    changes of a cache, and the cursor objects that perform it. */
module CoinsCursor {
  import opened Wrappers
  import opened Coin
  import opened CoinsView
  import opened CoinKeys
  import CoinsRun

  type Row = (OutPoint, Coin)

  // ----- Sorted enumerations ------------------------------------------------

  predicate Sorted(rows: seq<Row>) {
    |rows| >= 2 ==> CoinDatabaseKeyLess(rows[0].0, rows[1].0) && Sorted(rows[1..])
  }

  /** Neighbours in order means all pairs in order. */
  lemma {:induction false} SortedPairs(rows: seq<Row>, i: nat, j: nat)
    requires Sorted(rows) && i < j < |rows|
    ensures CoinDatabaseKeyLess(rows[i].0, rows[j].0)
  {
    if i > 0 {
      SortedPairs(rows[1..], i - 1, j - 1);
    } else if j > 1 {
      SortedPairs(rows[1..], 0, j - 1);
      KeyLessTransitive(rows[0].0, rows[1].0, rows[j].0);
    }
  }

  predicate Listed(rows: seq<Row>, o: OutPoint) {
    exists i :: 0 <= i < |rows| && rows[i].0 == o
  }

  /** The rows are exactly the coins of a map, in strictly increasing key order. */
  ghost predicate Enumerates(rows: seq<Row>, coins: Coins) {
    && Sorted(rows)
    && (forall i :: 0 <= i < |rows| ==> rows[i].0 in coins && coins[rows[i].0] == rows[i].1)
    && (forall o <- coins :: Listed(rows, o))
  }

  /** The first row is the smallest outpoint, and the rest enumerates the rest. */
  lemma {:induction false} EnumeratesTail(rows: seq<Row>, coins: Coins)
    requires Enumerates(rows, coins) && rows != []
    ensures Enumerates(rows[1..], coins - {rows[0].0})
    ensures forall o <- coins :: o == rows[0].0 || CoinDatabaseKeyLess(rows[0].0, o)
  {
    forall i | 0 <= i < |rows[1..]|
      ensures rows[1..][i].0 != rows[0].0
    {
      SortedPairs(rows, 0, i + 1);
      KeyLessTotal(rows[0].0, rows[i + 1].0);
    }
    forall o <- coins | o != rows[0].0
      ensures Listed(rows[1..], o) && CoinDatabaseKeyLess(rows[0].0, o)
    {
      var i :| 0 <= i < |rows| && rows[i].0 == o;
      SortedPairs(rows, 0, i);
      assert rows[1..][i - 1].0 == o;
    }
  }

  lemma {:induction false} EnumeratesCons(row: Row, rows: seq<Row>, coins: Coins)
    requires Enumerates(rows, coins)
    requires forall o <- coins :: CoinDatabaseKeyLess(row.0, o)
    ensures Enumerates([row] + rows, coins[row.0 := row.1])
  {
    var all := [row] + rows;
    KeyLessTotal(row.0, row.0);
    assert all[1..] == rows;
    forall o <- coins
      ensures Listed(all, o)
    {
      var i :| 0 <= i < |rows| && rows[i].0 == o;
      assert all[i + 1].0 == o;
    }
    assert all[0].0 == row.0;
  }

  /** A map has at most one enumeration. */
  lemma {:induction false} EnumerationUnique(r: seq<Row>, s: seq<Row>, coins: Coins)
    requires Enumerates(r, coins) && Enumerates(s, coins)
    ensures r == s
    decreases |r|
  {
    assert r == [] <==> s == [] by {
      if s != [] {
        assert Listed(r, s[0].0);
      }
      if r != [] {
        assert Listed(s, r[0].0);
      }
    }
    if r != [] && s != [] {
      EnumeratesTail(r, coins);
      EnumeratesTail(s, coins);
      KeyLessTotal(r[0].0, s[0].0);
      EnumerationUnique(r[1..], s[1..], coins - {r[0].0});
      assert r == [r[0]] + r[1..] && s == [s[0]] + s[1..];
    }
  }

  function Insert(rows: seq<Row>, row: Row): seq<Row> {
    if rows == [] || CoinDatabaseKeyLess(row.0, rows[0].0) then [row] + rows
    else [rows[0]] + Insert(rows[1..], row)
  }

  lemma {:induction false} EnumeratesFirst(rows: seq<Row>, coins: Coins)
    requires Enumerates(rows, coins)
    ensures if rows == [] then coins == map[] else rows[0].0 in coins && coins[rows[0].0] == rows[0].1
  {
  }

  lemma {:induction false} InsertEnumerates(rows: seq<Row>, row: Row, coins: Coins)
    requires Enumerates(rows, coins) && row.0 !in coins
    ensures Enumerates(Insert(rows, row), coins[row.0 := row.1])
    decreases |rows|
  {
    hide CoinDatabaseKeyLess, Enumerates;
    EnumeratesFirst(rows, coins);
    if rows == [] || CoinDatabaseKeyLess(row.0, rows[0].0) {
      forall o <- coins
        ensures CoinDatabaseKeyLess(row.0, o)
      {
        EnumeratesTail(rows, coins);
        if o != rows[0].0 {
          KeyLessTransitive(row.0, rows[0].0, o);
        }
      }
      EnumeratesCons(row, rows, coins);
    } else {
      EnumeratesTail(rows, coins);
      KeyLessTotal(row.0, rows[0].0);
      var less := coins - {rows[0].0};
      InsertEnumerates(rows[1..], row, less);
      KeyLessTotal(rows[0].0, rows[0].0);
      EnumeratesCons(rows[0], Insert(rows[1..], row), less[row.0 := row.1]);
      assert less[row.0 := row.1][rows[0].0 := rows[0].1] == coins[row.0 := row.1];
    }
  }

  /** Collect the rows of a map and sort them. */
  method SortRows(coins: Coins) returns (rows: seq<Row>)
    ensures Enumerates(rows, coins)
  {
    rows := [];
    var todo := coins.Keys;
    ghost var done: Coins := map[];
    while todo != {}
      invariant todo <= coins.Keys
      invariant done == map o | o in coins && o !in todo :: coins[o]
      invariant Enumerates(rows, done)
    {
      var o :| o in todo;
      InsertEnumerates(rows, (o, coins[o]), done);
      rows := Insert(rows, (o, coins[o]));
      done := done[o := coins[o]];
      todo := todo - {o};
    }
    assert done == coins;
  }

  // ----- The merge ------------------------------------------------------------

  /** What a walk over `changed` laid over a walk over `below` hands out. */
  function Merge(below: seq<Row>, changed: seq<Row>): seq<Row>
    decreases |below| + |changed|
  {
    if changed == [] then below
    else if below != [] && CoinDatabaseKeyLess(below[0].0, changed[0].0) then
      [below[0]] + Merge(below[1..], changed)
    else
      var rest := if below != [] && below[0].0 == changed[0].0 then below[1..] else below;
      if changed[0].1.IsSpent() then Merge(rest, changed[1..])
      else [changed[0]] + Merge(rest, changed[1..])
  }

  /** Changed coins laid over others: a spent one hides. */
  function Patch(below: Coins, changed: Coins): Coins {
    map o | o in below.Keys + changed.Keys && (o in changed ==> !changed[o].IsSpent())
      :: if o in changed then changed[o] else below[o]
  }

  lemma {:induction false} PatchBelowFirst(below: Coins, changed: Coins, o: OutPoint)
    requires o in below && o !in changed
    ensures Patch(below - {o}, changed)[o := below[o]] == Patch(below, changed)
    ensures o !in Patch(below - {o}, changed)
  {
  }

  lemma {:induction false} PatchChangedFirst(below: Coins, changed: Coins, o: OutPoint)
    requires o in changed
    ensures var p := Patch(below - {o}, changed - {o});
            o !in p && Patch(below, changed) == if changed[o].IsSpent() then p else p[o := changed[o]]
  {
  }

  lemma {:induction false} MergeEnumerates(below: seq<Row>, changed: seq<Row>, b: Coins, c: Coins)
    requires Enumerates(below, b) && Enumerates(changed, c)
    ensures Enumerates(Merge(below, changed), Patch(b, c))
    decreases |below| + |changed|
  {
    if changed == [] {
      assert forall o <- c :: Listed(changed, o);
      assert Patch(b, c) == b;
    } else if below != [] && CoinDatabaseKeyLess(below[0].0, changed[0].0) {
      MergeBelowFirst(below, changed, b, c);
    } else {
      MergeChangedFirst(below, changed, b, c);
    }
  }

  lemma {:induction false} MergeBelowFirst(below: seq<Row>, changed: seq<Row>, b: Coins, c: Coins)
    requires Enumerates(below, b) && Enumerates(changed, c)
    requires below != [] && changed != [] && CoinDatabaseKeyLess(below[0].0, changed[0].0)
    ensures Enumerates(Merge(below, changed), Patch(b, c))
    decreases |below| + |changed|, 0
  {
    var o := below[0].0;
    EnumeratesTail(below, b);
    EnumeratesTail(changed, c);
    forall p <- c
      ensures CoinDatabaseKeyLess(o, p)
    {
      if p != changed[0].0 {
        KeyLessTransitive(o, changed[0].0, p);
      }
    }
    KeyLessTotal(o, o);
    MergeEnumerates(below[1..], changed, b - {o}, c);
    PatchBelowFirst(b, c, o);
    EnumeratesCons(below[0], Merge(below[1..], changed), Patch(b - {o}, c));
  }

  lemma {:induction false} MergeChangedFirst(below: seq<Row>, changed: seq<Row>, b: Coins, c: Coins)
    requires Enumerates(below, b) && Enumerates(changed, c)
    requires changed != [] && (below != [] ==> !CoinDatabaseKeyLess(below[0].0, changed[0].0))
    ensures Enumerates(Merge(below, changed), Patch(b, c))
    decreases |below| + |changed|, 0
  {
    var o := changed[0].0;
    EnumeratesTail(changed, c);
    var rest := if below != [] && below[0].0 == o then below[1..] else below;
    forall p <- b
      ensures p == o || CoinDatabaseKeyLess(o, p)
    {
      assert Listed(below, p);
      EnumeratesTail(below, b);
      KeyLessTotal(below[0].0, o);
      if below[0].0 != o && p != below[0].0 {
        KeyLessTransitive(o, below[0].0, p);
      }
    }
    assert Enumerates(rest, b - {o}) by {
      if below != [] && below[0].0 == o {
        EnumeratesTail(below, b);
      } else {
        AbsentFirst(below, b, o);
      }
    }
    MergeEnumerates(rest, changed[1..], b - {o}, c - {o});
    PatchChangedFirst(b, c, o);
    if !changed[0].1.IsSpent() {
      KeyLessTotal(o, o);
      EnumeratesCons(changed[0], Merge(rest, changed[1..]), Patch(b - {o}, c - {o}));
    }
  }

  /** An outpoint not above the first row, and not the first row, is absent. */
  lemma {:induction false} AbsentFirst(rows: seq<Row>, coins: Coins, o: OutPoint)
    requires Enumerates(rows, coins)
    requires rows != [] ==> rows[0].0 != o && !CoinDatabaseKeyLess(rows[0].0, o)
    ensures coins - {o} == coins
  {
    if o in coins {
      assert Listed(rows, o);
      EnumeratesTail(rows, coins);
    }
  }

  // ----- The walk over a view ---------------------------------------------------

  /** The entries a cursor copies: those that differ from the level below. */
  function Changed(es: Entries): Coins {
    map o | o in es && es[o].isDirty :: es[o].coin
  }

  /** Leaving out the clean entries changes nothing, because they agree. */
  lemma {:induction false} PatchChanged(below: Coins, es: Entries)
    requires forall o <- es :: EntryCoherent(below, o, es[o])
    ensures Patch(below, Changed(es)) == Overlay(below, es)
  {
    forall o
      ensures o in Patch(below, Changed(es)) <==> o in Overlay(below, es)
      ensures o in Overlay(below, es) ==> Patch(below, Changed(es))[o] == Overlay(below, es)[o]
    {
    }
  }

  /** The rows a cursor over a view hands out: some sorted copy of the database,
      merged at each level with a sorted copy of that level's changes. */
  ghost predicate IsWalk(v: View, rows: seq<Row>) {
    match v
    case Database(coins) => Enumerates(rows, coins)
    case Cache(es, _, base) =>
      exists below, changed ::
        IsWalk(base, below) && Enumerates(changed, Changed(es)) && rows == Merge(below, changed)
  }

  /** A walk hands out every visible coin exactly once, in increasing key order,
      however many caches lie over one another. */
  lemma {:induction false} WalkEnumerates(v: View, rows: seq<Row>)
    requires Coherent(v) && IsWalk(v, rows)
    ensures Enumerates(rows, Visible(v))
    ensures forall i, j :: 0 <= i < j < |rows| ==> CoinDatabaseKeyLess(rows[i].0, rows[j].0)
  {
    WalkSorted(v, rows);
    forall i, j | 0 <= i < j < |rows|
      ensures CoinDatabaseKeyLess(rows[i].0, rows[j].0)
    {
      SortedPairs(rows, i, j);
    }
  }

  lemma {:induction false} WalkSorted(v: View, rows: seq<Row>)
    requires Coherent(v) && IsWalk(v, rows)
    ensures Enumerates(rows, Visible(v))
  {
    match v
    case Database(_) =>
    case Cache(es, _, base) =>
      var below, changed :|
        IsWalk(base, below) && Enumerates(changed, Changed(es)) && rows == Merge(below, changed);
      WalkSorted(base, below);
      MergeEnumerates(below, changed, Visible(base), Changed(es));
      PatchChanged(Visible(base), es);
  }

  /** How much of the caches has been written is invisible: over any run of
      reads, uncachings, Flushes and Syncs at any level the walk stays the same. */
  lemma {:induction false} WalkUnchanged(v: View, run: seq<CoinsRun.Action>, before: seq<Row>, after: seq<Row>)
    requires Coherent(v) && CoinsRun.AllowedRun(Layers(v), run)
    requires forall a <- run :: a.op.Get? || a.op.Uncache? || a.op.Flush? || a.op.Sync?
    requires IsWalk(v, before)
    ensures CoinsRun.FitsRun(|Layers(v)|, run) && CoinsRun.Run(v, run).Ok?
    ensures IsWalk(CoinsRun.Run(v, run).value, after) ==> before == after
  {
    CoinsRun.RunRefines(v, run);
    TopUnchanged(Layers(v), run);
    WalkSorted(v, before);
    var w := CoinsRun.Run(v, run).value;
    if IsWalk(w, after) {
      WalkSorted(w, after);
      EnumerationUnique(before, after, Visible(v));
    }
  }

  lemma {:induction false} TopUnchanged(s: seq<Coins>, run: seq<CoinsRun.Action>)
    requires |s| >= 1 && CoinsRun.AllowedRun(s, run)
    requires forall a <- run :: a.op.Get? || a.op.Uncache? || a.op.Flush? || a.op.Sync?
    ensures CoinsRun.PlainRun(s, run)[0] == s[0]
    decreases |run|
  {
    if run != [] {
      TopUnchanged(CoinsRun.PlainStep(s, run[0]), run[1..]);
    }
  }

  // ----- The cursor objects -----------------------------------------------------

  /** The cursor stands on the first row of the merge: on the changed entry when
      that comes first (its base row already skipped), else on the base row. */
  predicate Positioned(below: seq<Row>, changed: seq<Row>, fromCache: bool) {
    if fromCache then
      && changed != [] && !changed[0].1.IsSpent()
      && (below != [] ==> below[0].0 != changed[0].0 && !CoinDatabaseKeyLess(below[0].0, changed[0].0))
    else
      changed == [] || (below != [] && CoinDatabaseKeyLess(below[0].0, changed[0].0))
  }

  /** Where the base row is not before the changed one: once the base has been
      stepped past an equal key, the changed row is next, or hidden if spent. */
  lemma {:induction false} SkipSame(below: seq<Row>, changed: seq<Row>)
    requires Sorted(below) && changed != [] && (below != [] ==> !CoinDatabaseKeyLess(below[0].0, changed[0].0))
    ensures var rest := if below != [] && below[0].0 == changed[0].0 then below[1..] else below;
            if changed[0].1.IsSpent() then Merge(below, changed) == Merge(rest, changed[1..])
            else Merge(below, changed) == Merge(rest, changed) && Positioned(rest, changed, true)
  {
    var rest := if below != [] && below[0].0 == changed[0].0 then below[1..] else below;
    if rest != [] {
      KeyLessTotal(rest[0].0, changed[0].0);
    }
  }

  /** Handing out the row the cursor stands on. */
  lemma {:induction false} PositionedFirst(below: seq<Row>, changed: seq<Row>, fromCache: bool)
    requires Positioned(below, changed, fromCache)
    ensures fromCache ==> Merge(below, changed) == [changed[0]] + Merge(below, changed[1..])
    ensures !fromCache && below != [] ==> Merge(below, changed) == [below[0]] + Merge(below[1..], changed)
    ensures !fromCache && below == [] ==> Merge(below, changed) == []
  {
  }

  function MapOf(rows: seq<Row>): Coins {
    if rows == [] then map[] else MapOf(rows[1..])[rows[0].0 := rows[0].1]
  }

  lemma {:induction false} SortedEnumerates(rows: seq<Row>)
    requires Sorted(rows)
    ensures Enumerates(rows, MapOf(rows))
  {
    if rows != [] {
      SortedEnumerates(rows[1..]);
      forall o <- MapOf(rows[1..])
        ensures CoinDatabaseKeyLess(rows[0].0, o)
      {
        var i :| 0 <= i < |rows[1..]| && rows[1..][i].0 == o;
        SortedPairs(rows, 0, i + 1);
      }
      EnumeratesCons(rows[0], rows[1..], MapOf(rows[1..]));
      assert rows == [rows[0]] + rows[1..];
    }
  }

  lemma {:induction false} MergeSorted(below: seq<Row>, changed: seq<Row>)
    requires Sorted(below) && Sorted(changed)
    ensures Sorted(Merge(below, changed))
  {
    SortedEnumerates(below);
    SortedEnumerates(changed);
    MergeEnumerates(below, changed, MapOf(below), MapOf(changed));
  }

  /** A cursor over the database: its rows in key order. */
  class DatabaseCursor {
    var remaining: seq<Row>

    constructor (rows: seq<Row>)
      ensures remaining == rows
    {
      remaining := rows;
    }
  }

  datatype Base = Db(db: DatabaseCursor) | Backed(cache: CacheCoinsCursor)

  /** A cursor over a cache: the changed entries, copied and sorted when the walk
      starts, merged with the base cursor. */
  class CacheCoinsCursor {
    const base: Base
    const changed: seq<Row>
    var pos: nat
    var fromCache: bool
    ghost const depth: nat
    ghost const footprint: set<object>
    ghost var remaining: seq<Row>  // the rows still to be handed out

    ghost predicate Wired()
      ensures Wired() ==> this in footprint
      decreases depth
    {
      match base
      case Db(db) => footprint == {this, db}
      case Backed(c) => c.depth < depth && c.Wired() && this !in c.footprint && footprint == {this} + c.footprint
    }

    ghost function BaseRemaining(): seq<Row>
      requires Wired()
      reads footprint - {this}
    {
      match base
      case Db(db) => db.remaining
      case Backed(c) => c.remaining
    }

    ghost predicate BaseValid()
      requires Wired()
      reads footprint - {this}
      decreases depth, 0
    {
      Sorted(BaseRemaining()) && (base.Backed? ==> base.cache.Valid())
    }

    /** The rows left are the merge of what the base and the changes have left. */
    ghost predicate InRange()
      requires Wired()
      reads footprint
      decreases depth, 1
    {
      && BaseValid() && pos <= |changed|
      && remaining == Merge(BaseRemaining(), changed[pos..]) && Sorted(remaining)
    }

    /** In range, and standing on the next row to hand out. */
    ghost predicate Valid()
      requires Wired()
      reads footprint
      decreases depth, 2
    {
      InRange() && Positioned(BaseRemaining(), changed[pos..], fromCache)
    }

    method BaseFirst() returns (r: Option<Row>)
      requires Wired() && BaseValid()
      ensures r == if BaseRemaining() == [] then None else Some(BaseRemaining()[0])
      decreases depth, 0
    {
      match base
      case Db(db) => r := if db.remaining == [] then None else Some(db.remaining[0]);
      case Backed(c) => r := c.First();
    }

    method BaseNext()
      requires Wired() && BaseValid() && BaseRemaining() != []
      modifies footprint - {this}
      ensures BaseValid() && BaseRemaining() == old(BaseRemaining())[1..]
      decreases depth, 0
    {
      match base
      case Db(db) => db.remaining := db.remaining[1..];
      case Backed(c) => c.Next();
    }

    /** The row the cursor stands on, or None at the end. */
    method First() returns (r: Option<Row>)
      requires Wired() && Valid()
      ensures r == if remaining == [] then None else Some(remaining[0])
      decreases depth, 1
    {
      PositionedFirst(BaseRemaining(), changed[pos..], fromCache);
      if fromCache {
        return Some(changed[pos]);
      }
      r := BaseFirst();
    }

    /** One round of the search for the next row: found, or one changed entry
        further because it is spent. */
    method SeekOnce() returns (found: bool)
      requires Wired() && InRange()
      modifies footprint - {this}, this`pos, this`fromCache
      ensures InRange() && (if found then Valid() else pos == old(pos) + 1)
      decreases depth, 1
    {
      var baseRow := BaseFirst();
      if pos == |changed| || (baseRow.Some? && CoinDatabaseKeyLess(baseRow.value.0, changed[pos].0)) {
        fromCache := false;
        return true;
      }
      SkipSame(BaseRemaining(), changed[pos..]);
      assert changed[pos..][1..] == changed[pos + 1..];
      if baseRow.Some? && baseRow.value.0 == changed[pos].0 {
        BaseNext();
      }
      ghost var below := BaseRemaining();
      if !changed[pos].1.IsSpent() {
        fromCache := true;
        found := true;
      } else {
        pos := pos + 1;
        found := false;
      }
      assert BaseValid() && BaseRemaining() == below;
    }

    /** Move to the next row to hand out, or leave nothing to hand out. */
    method Seek()
      requires Wired() && InRange()
      modifies footprint - {this}, this`pos, this`fromCache
      ensures Valid()
      decreases depth, 2
    {
      var found := false;
      while !found
        invariant InRange() && (found ==> Valid())
        decreases !found, |changed| - pos
      {
        found := SeekOnce();
      }
    }

    method Next()
      requires Wired() && Valid()
      modifies footprint
      ensures Valid() && remaining == if old(remaining) == [] then [] else old(remaining)[1..]
      decreases depth, 3
    {
      PositionedFirst(BaseRemaining(), changed[pos..], fromCache);
      ghost var rest := if remaining == [] then [] else remaining[1..];
      if fromCache {
        assert changed[pos..][1..] == changed[pos + 1..];
        pos := pos + 1;
      } else {
        var baseRow := BaseFirst();
        if baseRow.Some? {
          BaseNext();
        }
      }
      remaining := rest;
      Seek();
    }

    constructor OverDatabase(db: DatabaseCursor, es: Entries)
      requires Sorted(db.remaining)
      modifies db
      ensures Wired() && footprint == {this, db} && Valid()
      ensures Enumerates(changed, Changed(es)) && remaining == Merge(old(db.remaining), changed)
    {
      var rows := SortRows(Changed(es));
      base := Db(db);
      changed := rows;
      depth := 0;
      footprint := {this, db};
      pos := 0;
      fromCache := false;
      MergeSorted(db.remaining, rows);
      remaining := Merge(db.remaining, rows);
      new;
      assert changed[0..] == changed;
      Seek();
    }

    constructor OverCache(c: CacheCoinsCursor, es: Entries)
      requires c.Wired() && c.Valid()
      modifies c.footprint
      ensures Wired() && footprint == {this} + c.footprint && Valid()
      ensures Enumerates(changed, Changed(es)) && remaining == Merge(old(c.remaining), changed)
    {
      var rows := SortRows(Changed(es));
      base := Backed(c);
      changed := rows;
      depth := c.depth + 1;
      footprint := {this} + c.footprint;
      pos := 0;
      fromCache := false;
      MergeSorted(c.remaining, rows);
      remaining := Merge(c.remaining, rows);
      new;
      assert changed[0..] == changed;
      Seek();
    }
  }

  /** Draining a cursor reads off the rows it had left. */
  method Walk(cursor: CacheCoinsCursor) returns (rows: seq<Row>)
    requires cursor.Wired() && cursor.Valid()
    modifies cursor.footprint
    ensures rows == old(cursor.remaining)
    decreases |cursor.remaining|
  {
    var row := cursor.First();
    if row.None? {
      return [];
    }
    cursor.Next();
    var rest := Walk(cursor);
    rows := [row.value] + rest;
  }
}
