/** Moving an entry to the tried table: what is kept, where references go, and why
    the scan of the new buckets finds all of them. */
module AddrManTried {
  import opened AddrMan
  import opened AddrManKeeps
  import opened AddrManMove

  lemma {:induction false} EmptyConsistent(env: Env)
    ensures Consistent(env, EmptyState())
  {
    var s := EmptyState();
    assert IdsIn(s, false) == {} && IdsIn(s, true) == {};
    forall net: Network
      ensures IdsOfNetwork(env, s, false, net) == {} && IdsOfNetwork(env, s, true, net) == {}
    {
    }
  }

  /** Every bucket is reached from any start. */
  lemma {:induction false} BucketReached(start: nat, b: nat) returns (k: nat)
    requires start < NEW_BUCKET_COUNT && b < NEW_BUCKET_COUNT
    ensures k < NEW_BUCKET_COUNT && (start + k) % NEW_BUCKET_COUNT == b
  {
    k := if b >= start then b - start else b + NEW_BUCKET_COUNT - start;
  }

  /** The same entries are in the tried table, at the same places. */
  ghost predicate SameTable(s: State, t: State) {
    && t.tried == s.tried && t.info.Keys == s.info.Keys && forall x <- t.info :: t.info[x].inTried == s.info[x].inTried
  }

  lemma {:induction false} SameTriedTable(s: State, t: State)
    requires SameTable(s, t)
    ensures t.tried == s.tried
  {
  }

  lemma {:induction false} KeptCounters(s: State, t: State, u: State)
    requires Kept(s, t, -1) && SameTable(s, t) && u == t.(nNew := u.nNew, counts := u.counts)
    ensures Kept(s, u, -1) && SameTable(s, u)
  {
  }

  /** A new table without an id. */
  predicate Without(before: Table, after: Table, id: int) {
    && Shape(before, NEW_BUCKET_COUNT) && Shape(after, NEW_BUCKET_COUNT)
    && forall b, p :: 0 <= b < NEW_BUCKET_COUNT && 0 <= p < BUCKET_SIZE ==>
         after[b][p] == if before[b][p] == id then -1 else before[b][p]
  }

  predicate Losing(before: Table, after: Table, id: int) {
    && Shape(before, NEW_BUCKET_COUNT) && Shape(after, NEW_BUCKET_COUNT)
    && forall b, p :: 0 <= b < NEW_BUCKET_COUNT && 0 <= p < BUCKET_SIZE ==>
         after[b][p] == before[b][p] || (before[b][p] == id && after[b][p] == -1)
  }

  lemma {:induction false} LosingNone(t: Table, id: int)
    requires Shape(t, NEW_BUCKET_COUNT)
    ensures Losing(t, t, id)
  {
  }

  lemma {:induction false} LosingOne(before: Table, after: Table, id: int, b: nat, p: nat)
    requires Losing(before, after, id) && b < NEW_BUCKET_COUNT && p < BUCKET_SIZE && after[b][p] == id && id != -1
    ensures Losing(before, Put(after, b, p, -1), id)
  {
  }

  lemma {:induction false} LostAll(env: Env, before: Table, s: State, id: int)
    requires Shapes(s) && SlotsOk(env, s) && RefsOk(env, s) && id in s.info && s.info[id].refCount == 0 && id != -1
    requires Losing(before, s.news, id)
    ensures Without(before, s.news, id)
  {
    var bs := BucketsOf(env, s, id);
    assert s.info[id].refCount == |bs|;
    forall b, p | 0 <= b < NEW_BUCKET_COUNT && 0 <= p < BUCKET_SIZE
      ensures s.news[b][p] != id
    {
      assert b !in bs;
    }
  }

  /** An entry in its default new slot, where its original source puts it. */
  predicate NewHome(env: Env, s: State, id: int, news: Table)
    requires Shape(s.news, NEW_BUCKET_COUNT)
  {
    id in s.info &&
    var b := env.NewBucket(s.info[id].addr, s.info[id].source);
    news == Put(s.news, b, env.Position(true, b, s.info[id].addr), id)
  }

  /** The new table after an entry became tried: its references are gone, and an
      entry it displaced is at its default place. */
  predicate MovedNews(env: Env, s: State, id: int, news: Table)
    requires Shapes(s)
  {
    id in s.info && var evicted := TriedAt(env, s, s.info[id].addr);
    if evicted == -1 then Without(s.news, news, id)
    else
      evicted in s.info && Shape(news, NEW_BUCKET_COUNT) &&
      var ub := env.NewBucket(s.info[evicted].addr, s.info[evicted].source);
      var up := env.Position(true, ub, s.info[evicted].addr);
      news[ub][up] == evicted && Without(Put(s.news, ub, up, -1), Put(news, ub, up, -1), id)
  }

  /** An entry has become tried. At most one entry, a new one, was lost for it. */
  ghost predicate MadeTried(env: Env, s: State, t: State, id: int, lost: int)
    requires Shapes(s)
  {
    && Kept(s, t, lost) && id in s.info && id in t.info && t.info[id].inTried
    && MovedNews(env, s, id, t.news)
    && var b := env.TriedBucket(s.info[id].addr);
    t.tried == Put(s.tried, b, env.Position(false, b, s.info[id].addr), id)
  }

  lemma {:induction false} NewsMoved(env: Env, s: State, u: State, news: Table, id: int)
    requires Shapes(s) && Shapes(u) && id in s.info && id != -1
    requires Kept(s, u, -1) && SameTable(s, u) && Without(s.news, u.news, id)
    requires var evicted := TriedAt(env, s, s.info[id].addr);
             if evicted == -1 then news == u.news else NewHome(env, u, evicted, news)
    ensures MovedNews(env, s, id, news)
  {
    var evicted := TriedAt(env, s, s.info[id].addr);
    assert Record(u.info[id]) == Record(s.info[id]);
    if evicted != -1 {
      assert Record(u.info[evicted]) == Record(s.info[evicted]);
    }
  }

  lemma {:induction false} PutTwice(t: Table, b: nat, p: nat, x: int, y: int)
    requires b < |t| && p < |t[b]|
    ensures Put(Put(t, b, p, x), b, p, y) == Put(t, b, p, y)
  {
    assert t[b][p := x][p := y] == t[b][p := y];
    assert t[b := t[b][p := x]][b := t[b][p := y]] == t[b := t[b][p := y]];
  }

  lemma {:induction false} ReadmitKeeps(env: Env, s: State, b: nat, evicted: int, id: int)
    requires Sound(env, s, {id} + {evicted}, {id} + {evicted}) && id != evicted && b < NEW_BUCKET_COUNT
    requires evicted in s.info && !s.info[evicted].inTried && s.info[evicted].refCount == 0
    requires NewAt(env, s, b, s.info[evicted].addr) == -1
    ensures var t := Recount(env, Link(s, b, env.Position(true, b, s.info[evicted].addr), evicted), evicted);
            Sound(env, t, {id}, {id})
  {
    hide TriedOk, SlotsOk, RefsOk, CountsOk, AddrsOk, RandomOk, EntriesOk, IdsOk;
    var both := {id} + {evicted};
    LinkKeeps(env, s, b, evicted, both, both);
    RecountKeeps(env, Link(s, b, env.Position(true, b, s.info[evicted].addr), evicted), evicted, both - {evicted}, both);
    assert both - {evicted} == {id};
  }

  /** No entry but `lost` goes missing, none changes its record, no tried entry is
      lost, and ids and collisions stay. */
  ghost predicate Kept(s: State, t: State, lost: int) {
    && t.info.Keys <= s.info.Keys && s.info.Keys <= t.info.Keys + {lost}
    && (forall x <- t.info :: Record(t.info[x]) == Record(s.info[x]))
    && (lost in s.info && lost !in t.info ==> !s.info[lost].inTried)
    && t.idCount == s.idCount && t.collisions == s.collisions && t.lastGood == s.lastGood
  }

  lemma {:induction false} Referenced(env: Env, s: State, b: nat, p: nat)
    requires Shapes(s) && SlotsOk(env, s) && RefsOk(env, s) && b < NEW_BUCKET_COUNT && p < BUCKET_SIZE
    ensures var id := s.news[b][p]; id in s.info && id != -1 ==> s.info[id].refCount > 0 && !s.info[id].inTried
  {
    var id := s.news[b][p];
    if id in s.info && id != -1 {
      assert b in BucketsOf(env, s, id);
      assert s.info[id].refCount == |BucketsOf(env, s, id)|;
    }
  }

  lemma {:induction false} KeptByClear(s: State, t: State, lost: int, id: int)
    requires t == s || OthersKept(s, t, lost)
    requires id in s.info && id != lost
    ensures id in t.info && t.info[id].(randomPos := 0) == s.info[id].(randomPos := 0) && t.tried == s.tried
  {
  }

  lemma {:induction false} KeptByRefs(s: State, t: State, id: int)
    requires SameButRefs(s, t) && id in s.info
    ensures Kept(s, t, -1) && t.tried == s.tried && id in t.info && t.info[id].(refCount := 0) == s.info[id].(refCount := 0)
    ensures SameTable(s, t)
  {
    forall x <- t.info
      ensures Record(t.info[x]) == Record(s.info[x]) && t.info[x].inTried == s.info[x].inTried
    {
      assert t.info[x].(refCount := 0) == s.info[x].(refCount := 0);
    }
  }

  lemma {:induction false} RoomKept(s: State, t: State, u: State, v: State, lost: int, evicted: int)
    requires SameButTable(s, t, evicted) && (u == t || OthersKept(t, u, lost)) && evicted != lost && evicted in u.info
    requires lost in t.info && lost != -1 ==> !t.info[lost].inTried
    requires v.info == u.info[evicted := u.info[evicted].(refCount := 1)]
    requires v.idCount == u.idCount && v.collisions == u.collisions && v.lastGood == u.lastGood && -1 !in t.info
    ensures Kept(s, v, lost)
  {
    forall x <- s.info
      ensures x in v.info.Keys + {lost}
    {
      assert x in t.info;
    }
    forall x <- v.info
      ensures x in s.info && Record(v.info[x]) == Record(s.info[x])
    {
      assert x in u.info && x in t.info && Record(u.info[x]) == Record(t.info[x]);
    }
    assert lost in s.info ==> lost in t.info && t.info[lost] == s.info[lost];
  }

  lemma {:induction false} KeptThrough(s: State, u: State, v: State, w: State, lost: int, id: int)
    requires Kept(s, u, -1) && SameTable(s, u) && (v == u || Kept(u, v, lost)) && id in v.info
    requires w.info == v.info[id := v.info[id].(inTried := true)]
    requires w.idCount == v.idCount && w.collisions == v.collisions && w.lastGood == v.lastGood
    ensures Kept(s, w, lost)
  {
    forall x <- w.info
      ensures x in s.info && Record(w.info[x]) == Record(s.info[x])
    {
      assert x in v.info && x in u.info;
      assert Record(v.info[x]) == Record(u.info[x]);
    }
  }

  lemma {:induction false} SameRefsReflexive(s: State)
    ensures SameButRefs(s, s)
  {
  }

  lemma {:induction false} SameRefsTransitive(s: State, t: State, u: State)
    requires SameButRefs(s, t) && SameButRefs(t, u)
    ensures SameButRefs(s, u)
  {
    forall x <- s.info
      ensures u.info[x].(refCount := 0) == s.info[x].(refCount := 0)
    {
      assert t.info[x].(refCount := 0) == s.info[x].(refCount := 0);
      assert u.info[x].(refCount := 0) == t.info[x].(refCount := 0);
    }
  }

  function ScanBucket(start: nat, k: nat): nat {
    (start + k) % NEW_BUCKET_COUNT
  }

  /** The first n buckets from the start do not hold the id. */
  predicate Scanned(env: Env, s: State, a: Service, id: int, start: nat, n: nat)
    requires Shapes(s)
  {
    forall k: nat :: k < n ==> NewAt(env, s, ScanBucket(start, k), a) != id
  }

  lemma {:induction false} ScannedNone(env: Env, s: State, a: Service, id: int, start: nat)
    requires Shapes(s)
    ensures Scanned(env, s, a, id, start, 0)
  {
  }

  lemma {:induction false} ScannedOther(env: Env, s: State, a: Service, id: int, start: nat, n: nat)
    requires Shapes(s) && Scanned(env, s, a, id, start, n) && NewAt(env, s, ScanBucket(start, n), a) != id
    ensures Scanned(env, s, a, id, start, n + 1)
  {
  }

  lemma {:induction false} ScannedUnlink(env: Env, s: State, t: State, a: Service, id: int, start: nat, n: nat)
    requires Shapes(s) && Shapes(t) && Scanned(env, s, a, id, start, n) && id != -1
    requires var b := ScanBucket(start, n); t.news == Put(s.news, b, env.Position(true, b, a), -1)
    ensures Scanned(env, t, a, id, start, n + 1)
  {
  }

  /** After the scan, cut short or not, no reference is left. */
  lemma {:induction false} AllScanned(env: Env, s: State, id: int, start: nat, n: nat)
    requires Shapes(s) && RefsOk(env, s) && id in s.info && start < NEW_BUCKET_COUNT && n <= NEW_BUCKET_COUNT
    requires n < NEW_BUCKET_COUNT ==> s.info[id].refCount == 0
    requires Scanned(env, s, s.info[id].addr, id, start, n)
    ensures s.info[id].refCount == 0
  {
    assert s.info[id].refCount == |BucketsOf(env, s, id)|;
    if n == NEW_BUCKET_COUNT {
      forall b: nat | b < NEW_BUCKET_COUNT
        ensures NewAt(env, s, b, s.info[id].addr) != id
      {
        var k := BucketReached(start, b);
        assert ScanBucket(start, k) == b;
      }
      assert BucketsOf(env, s, id) == {};
    }
  }
}
