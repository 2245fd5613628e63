/** Moving an entry from the new to the tried table, step by step. */
module AddrManMove {
  import opened Wrappers
  import opened AddrMan
  import opened AddrManKeeps

  /** Only counters change. */
  lemma {:induction false} CountersReframe(env: Env, s: State, t: State, loose: set<int>, before: set<int>, after: set<int>)
    requires Sound(env, s, loose, before) && t == s.(nNew := t.nNew, nTried := t.nTried, counts := t.counts)
    requires CountsOk(env, t, after)
    ensures Sound(env, t, loose, after)
  {
    hide CountsOk;
    forall x <- t.info
      ensures BucketsOf(env, t, x) == BucketsOf(env, s, x)
    {
    }
  }

  lemma {:induction false} UncountKeeps(env: Env, s: State, id: int, loose: set<int>, limbo: set<int>)
    requires Sound(env, s, loose, limbo) && id in s.info && !s.info[id].inTried && id !in limbo
    ensures Sound(env, Uncount(env, s, id), loose, limbo + {id})
  {
    hide TriedOk, NewOk, RandomOk, CountsOk, AddrsOk, EntriesOk, IdsOk;
    var t := Uncount(env, s, id);
    CountsMove(env, s, t, limbo, limbo + {id}, id, env.network(s.info[id].addr));
    CountersReframe(env, s, t, loose, limbo, limbo + {id});
  }

  lemma {:induction false} RecountKeeps(env: Env, s: State, id: int, loose: set<int>, limbo: set<int>)
    requires Sound(env, s, loose, limbo) && id in s.info && !s.info[id].inTried && id in limbo
    ensures Sound(env, Recount(env, s, id), loose, limbo - {id})
  {
    hide TriedOk, NewOk, RandomOk, CountsOk, AddrsOk, EntriesOk, IdsOk;
    var t := Recount(env, s, id);
    CountsMove(env, s, t, limbo, limbo - {id}, id, env.network(s.info[id].addr));
    CountersReframe(env, s, t, loose, limbo, limbo - {id});
  }

  // ----- Leaving and entering the tried table --------------------------------------------

  /** One entry changes tables; its reference count and its address stay. */
  ghost predicate SameButTable(s: State, t: State, id: int) {
    && t.info.Keys == s.info.Keys && id in s.info
    && (forall x <- s.info :: x != id ==> t.info[x] == s.info[x])
    && t.info[id] == s.info[id].(inTried := t.info[id].inTried)
    && t == s.(info := t.info, tried := t.tried, nTried := t.nTried, nNew := t.nNew, counts := t.counts)
  }

  lemma {:induction false} TableReframe(env: Env, s: State, t: State, id: int)
    requires Shapes(s) && Shapes(t) && IdsOk(s) && AddrsOk(s) && RandomOk(s) && SameButTable(s, t, id)
    ensures IdsOk(t) && AddrsOk(t) && RandomOk(t)
  {
    assert forall x :: x in t.info <==> x in s.info;
    forall x <- s.info
      ensures t.info[x].addr == s.info[x].addr && t.info[x].randomPos == s.info[x].randomPos
    {
    }
  }

  /** An entry in no new slot may change tables without touching the new table. */
  lemma {:induction false} TableNewOk(env: Env, s: State, t: State, id: int)
    requires Shapes(s) && Shapes(t) && NewOk(env, s) && SameButTable(s, t, id) && s.info[id].refCount == 0 && id != -1
    ensures NewOk(env, t)
  {
    UnreferencedAbsent(env, s, id);
    forall x <- t.info
      ensures BucketsOf(env, t, x) == BucketsOf(env, s, x)
      ensures t.info[x].refCount == s.info[x].refCount
    {
    }
  }

  lemma {:induction false} TriedPut(env: Env, s: State, t: State, b: nat, p: nat, v: int, a: Service)
    requires Shapes(s) && b < TRIED_BUCKET_COUNT && p < BUCKET_SIZE
    requires t.tried == Put(s.tried, b, p, v) && t.news == s.news
    ensures Shapes(t)
    ensures TriedAt(env, t, a) ==
            if env.TriedBucket(a) == b && env.Position(false, b, a) == p then v else TriedAt(env, s, a)
  {
  }

  lemma {:induction false} EvictTables(env: Env, s: State, b: nat, p: nat)
    requires Shapes(s) && TriedOk(env, s) && -1 !in s.info && b < TRIED_BUCKET_COUNT && p < BUCKET_SIZE && s.tried[b][p] != -1
    ensures s.tried[b][p] in s.info && s.info[s.tried[b][p]].inTried
    ensures var t := Evict(env, s, b, p); Shapes(t) && TriedOk(env, t)
  {
    var id := s.tried[b][p];
    var t := Evict(env, s, b, p);
    forall c, q | 0 <= c < TRIED_BUCKET_COUNT && 0 <= q < BUCKET_SIZE && t.tried[c][q] != -1
      ensures t.tried[c][q] in t.info && t.info[t.tried[c][q]].inTried
      ensures env.TriedBucket(t.info[t.tried[c][q]].addr) == c && env.Position(false, c, t.info[t.tried[c][q]].addr) == q
    {
      assert t.tried[c][q] == s.tried[c][q] != id;
    }
    forall x <- t.info | t.info[x].inTried
      ensures TriedAt(env, t, t.info[x].addr) == x
    {
      TriedPut(env, s, t, b, p, -1, t.info[x].addr);
    }
  }

  /** A change of table, with its counters. */
  lemma {:induction false} TableKeeps(
      env: Env, s: State, t: State, id: int, loose: set<int>, loose': set<int>, limbo: set<int>, limbo': set<int>)
    requires Sound(env, s, loose, limbo) && SameButTable(s, t, id) && s.info[id].refCount == 0
    requires Shapes(t) && TriedOk(env, t) && CountsOk(env, t, limbo')
    requires forall x <- s.info :: x != id ==> (x in loose <==> x in loose')
    requires t.info[id].inTried || id in loose'
    ensures Sound(env, t, loose', limbo')
  {
    hide TriedOk, CountsOk, NewOk, AddrsOk, RandomOk, IdsOk;
    NoId(s);
    TableNewOk(env, s, t, id);
    TableReframe(env, s, t, id);
    forall x <- t.info
      ensures var e := t.info[x];
              if e.inTried then e.refCount == 0
              else e.refCount <= NEW_BUCKETS_PER_ADDRESS && (x in loose' || e.refCount >= 1)
    {
      assert x in s.info;
    }
  }

  lemma {:induction false} TableCounts(env: Env, s: State, t: State, id: int, limbo: set<int>, limbo': set<int>)
    requires CountsOk(env, s, limbo) && SameButTable(s, t, id) && t.nNew == s.nNew
    requires forall x <- s.info :: x != id ==> (x in limbo <==> x in limbo')
    requires !CountedNew(s, limbo, id) && !CountedNew(t, limbo', id)
    requires var d := Bit(t.info[id].inTried) - Bit(s.info[id].inTried);
             t.nTried == s.nTried + d && t.counts == AddCount(s, env.network(s.info[id].addr), 0, d)
    ensures CountsOk(env, t, limbo')
  {
    hide CountsOk;
    forall x | x != id
      ensures CountedNew(s, limbo, x) == CountedNew(t, limbo', x) && CountedTried(s, x) == CountedTried(t, x)
    {
      assert x in s.info <==> x in t.info;
    }
    CountsMove(env, s, t, limbo, limbo', id, env.network(s.info[id].addr));
  }

  lemma {:induction false} TriedFacts(s: State, id: int, loose: set<int>)
    requires EntriesOk(s, loose) && id in s.info && s.info[id].inTried
    ensures s.info[id].refCount == 0
  {
  }

  lemma {:induction false} EvictKeeps(env: Env, s: State, b: nat, p: nat, loose: set<int>, limbo: set<int>)
    requires Sound(env, s, loose, limbo) && b < TRIED_BUCKET_COUNT && p < BUCKET_SIZE && s.tried[b][p] != -1
    ensures var id := s.tried[b][p];
            && id in s.info && s.info[id].inTried && s.info[id].refCount == 0
            && var t := Evict(env, s, b, p);
            Sound(env, t, loose + {id}, limbo + {id}) && SameButTable(s, t, id) && !t.info[id].inTried
  {
    hide TriedOk, NewOk, CountsOk, AddrsOk, RandomOk, EntriesOk, IdsOk;
    NoId(s);
    var id := s.tried[b][p];
    EvictTables(env, s, b, p);
    TriedFacts(s, id, loose);
    var t := Evict(env, s, b, p);
    var loose', limbo' := loose + {id}, limbo + {id};
    assert SameButTable(s, t, id) && !CountedNew(s, limbo, id) && !CountedNew(t, limbo', id);
    TableCounts(env, s, t, id, limbo, limbo');
    TableKeeps(env, s, t, id, loose, loose', limbo, limbo');
  }

  lemma {:induction false} PlaceTables(env: Env, s: State, id: int)
    requires Shapes(s) && TriedOk(env, s) && -1 !in s.info && id in s.info && !s.info[id].inTried
    requires TriedAt(env, s, s.info[id].addr) == -1
    ensures var t := Place(env, s, id); Shapes(t) && TriedOk(env, t)
  {
    var a := s.info[id].addr;
    var b := env.TriedBucket(a);
    var p := env.Position(false, b, a);
    var t := Place(env, s, id);
    TriedPut(env, s, t, b, p, id, a);
    forall c, q | 0 <= c < TRIED_BUCKET_COUNT && 0 <= q < BUCKET_SIZE && t.tried[c][q] != -1
      ensures t.tried[c][q] in t.info && t.info[t.tried[c][q]].inTried
      ensures env.TriedBucket(t.info[t.tried[c][q]].addr) == c && env.Position(false, c, t.info[t.tried[c][q]].addr) == q
    {
      if c != b || q != p {
        assert t.tried[c][q] == s.tried[c][q];
      }
    }
    forall x <- t.info | t.info[x].inTried
      ensures TriedAt(env, t, t.info[x].addr) == x
    {
      TriedPut(env, s, t, b, p, id, t.info[x].addr);
      if x != id {
        assert TriedAt(env, s, s.info[x].addr) == x;
      }
    }
  }

  lemma {:induction false} PlaceKeeps(env: Env, s: State, id: int)
    requires Sound(env, s, {id}, {id}) && id in s.info && !s.info[id].inTried && s.info[id].refCount == 0
    requires TriedAt(env, s, s.info[id].addr) == -1
    ensures var t := Place(env, s, id);
            && Sound(env, t, {}, {}) && SameButTable(s, t, id) && t.info[id].inTried
            && TriedAt(env, t, s.info[id].addr) == id
  {
    hide TriedOk, NewOk, CountsOk, AddrsOk, RandomOk, EntriesOk, IdsOk;
    NoId(s);
    PlaceTables(env, s, id);
    var t := Place(env, s, id);
    TableCounts(env, s, t, id, {id}, {});
    TableKeeps(env, s, t, id, {id}, {}, {id}, {});
  }
}
