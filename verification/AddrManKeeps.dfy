/** The primitive operations of the address manager keep its indexes consistent. */
module AddrManKeeps {
  import opened Wrappers
  import opened AddrMan

  // ----- Changes that touch no index -----------------------------------------------

  /** Equal but for times, services, attempts and the random order. */
  ghost predicate SameIndexes(s: State, t: State) {
    && t.idCount == s.idCount && t.addrs == s.addrs && t.tried == s.tried && t.news == s.news
    && t.nTried == s.nTried && t.nNew == s.nNew && t.counts == s.counts && t.info.Keys == s.info.Keys
    && forall id <- s.info :: t.info[id].addr == s.info[id].addr && t.info[id].refCount == s.info[id].refCount
                              && t.info[id].inTried == s.info[id].inTried
  }

  /** Entries keep their addresses and their table. */
  ghost predicate SameHomes(s: State, t: State) {
    t.info.Keys == s.info.Keys && forall x <- s.info :: t.info[x].addr == s.info[x].addr && t.info[x].inTried == s.info[x].inTried
  }

  lemma {:induction false} SameIds(env: Env, s: State, t: State, tried: bool, net: Network)
    requires SameHomes(s, t)
    ensures IdsIn(t, tried) == IdsIn(s, tried)
    ensures IdsOfNetwork(env, t, tried, net) == IdsOfNetwork(env, s, tried, net)
  {
    forall id
      ensures id in IdsIn(t, tried) <==> id in IdsIn(s, tried)
      ensures id in IdsOfNetwork(env, t, tried, net) <==> id in IdsOfNetwork(env, s, tried, net)
    {
    }
  }

  lemma {:induction false} SameCounts(env: Env, s: State, t: State, limbo: set<int>)
    requires CountsOk(env, s, limbo) && SameHomes(s, t)
    requires t.nTried == s.nTried && t.nNew == s.nNew && t.counts == s.counts
    ensures CountsOk(env, t, limbo)
  {
    forall net: Network
      ensures CountOf(t, net) ==
              Count(|IdsOfNetwork(env, t, false, net) - limbo|, |IdsOfNetwork(env, t, true, net)|)
    {
      SameIds(env, s, t, false, net);
      SameIds(env, s, t, true, net);
      assert CountOf(t, net) == CountOf(s, net);
    }
    SameIds(env, s, t, false, 0);
    SameIds(env, s, t, true, 0);
  }

  lemma {:induction false} SameTables(env: Env, s: State, t: State)
    requires Shapes(s) && TriedOk(env, s) && NewOk(env, s) && SameIndexes(s, t)
    ensures Shapes(t) && TriedOk(env, t) && NewOk(env, t)
  {
    assert forall id :: id in t.info <==> id in s.info;
    forall id <- t.info
      ensures BucketsOf(env, t, id) == BucketsOf(env, s, id)
    {
    }
  }

  lemma {:induction false} SameAddrs(s: State, t: State)
    requires AddrsOk(s) && IdsOk(s) && SameIndexes(s, t)
    ensures AddrsOk(t) && IdsOk(t)
  {
    assert forall id :: id in t.info <==> id in s.info;
  }

  lemma {:induction false} Reframe(env: Env, s: State, t: State, loose: set<int>, limbo: set<int>)
    requires Sound(env, s, loose, limbo) && SameIndexes(s, t) && RandomOk(t) && EntriesOk(t, loose)
    ensures Sound(env, t, loose, limbo)
  {
    hide CountsOk, TriedOk, NewOk, RandomOk, EntriesOk;
    SameCounts(env, s, t, limbo);
    SameTables(env, s, t);
    SameAddrs(s, t);
  }

  /** Only the `gone` entries are missing, and only random positions changed. */
  ghost predicate Trimmed(s: State, t: State, gone: set<int>) {
    && t.info.Keys == s.info.Keys - gone
    && (forall x <- t.info :: t.info[x].(randomPos := 0) == s.info[x].(randomPos := 0))
    && t.idCount == s.idCount && t.tried == s.tried && t.collisions == s.collisions && t.lastGood == s.lastGood
  }

  lemma {:induction false} TrimmedEntries(s: State, t: State, gone: set<int>, loose: set<int>)
    requires Trimmed(s, t, gone) && EntriesOk(s, loose)
    ensures EntriesOk(t, loose - gone)
  {
    forall id <- t.info
      ensures var e := t.info[id];
              if e.inTried then e.refCount == 0
              else e.refCount <= NEW_BUCKETS_PER_ADDRESS && (id in loose - gone || e.refCount >= 1)
    {
      assert id in s.info && t.info[id].(randomPos := 0) == s.info[id].(randomPos := 0);
    }
  }

  lemma {:induction false} SwapRandomOk(s: State, i: nat, j: nat)
    requires RandomOk(s) && i < |s.random| && j < |s.random|
    ensures s.random[i] in s.info && s.random[j] in s.info && (i != j ==> s.random[i] != s.random[j])
    ensures RandomOk(SwapRandom(s, i, j)) && |SwapRandom(s, i, j).random| == |s.random|
    ensures SwapRandom(s, i, j).random[j] == s.random[i]
  {
  }

  lemma {:induction false} SwapRandomTrims(s: State, i: nat, j: nat)
    requires i < |s.random| && j < |s.random| && s.random[i] in s.info && s.random[j] in s.info
    ensures var t := SwapRandom(s, i, j); Trimmed(s, t, {}) && SameIndexes(s, t) && |t.random| == |s.random|
  {
    var t := SwapRandom(s, i, j);
    forall x <- s.info
      ensures x in t.info && t.info[x].(randomPos := 0) == s.info[x].(randomPos := 0)
    {
    }
    assert t.info.Keys == s.info.Keys;
  }

  lemma {:induction false} SwapRandomKeeps(env: Env, s: State, i: nat, j: nat, loose: set<int>, limbo: set<int>)
    requires Sound(env, s, loose, limbo) && i < |s.random| && j < |s.random|
    ensures s.random[i] in s.info && s.random[j] in s.info
    ensures Sound(env, SwapRandom(s, i, j), loose, limbo) && SameIndexes(s, SwapRandom(s, i, j))
    ensures Trimmed(s, SwapRandom(s, i, j), {})
  {
    hide CountsOk, TriedOk, NewOk, AddrsOk, RandomOk, EntriesOk, SwapRandom;
    SwapRandomOk(s, i, j);
    SwapRandomTrims(s, i, j);
    TrimmedEntries(s, SwapRandom(s, i, j), {}, loose);
    assert loose - {} == loose;
    Reframe(env, s, SwapRandom(s, i, j), loose, limbo);
  }

  // ----- Counting ---------------------------------------------------------------------

  ghost predicate CountedNew(s: State, limbo: set<int>, id: int) {
    id in s.info && !s.info[id].inTried && id !in limbo
  }

  ghost predicate CountedTried(s: State, id: int) {
    id in s.info && s.info[id].inTried
  }

  function Bit(b: bool): int {
    if b then 1 else 0
  }

  lemma {:induction false} OneMember(a: set<int>, b: set<int>, id: int)
    requires forall x :: x != id ==> (x in a <==> x in b)
    ensures |b| == |a| + Bit(id in b) - Bit(id in a)
  {
    assert a - {id} == b - {id} by {
      forall x
        ensures x in a - {id} <==> x in b - {id}
      {
      }
    }
    assert |a| == |a - {id}| + Bit(id in a) by {
      if id in a { assert a == (a - {id}) + {id}; } else { assert a == a - {id}; }
    }
    assert |b| == |b - {id}| + Bit(id in b) by {
      if id in b { assert b == (b - {id}) + {id}; } else { assert b == b - {id}; }
    }
  }

  /** One id changes between absent, new, tried and limbo. */
  lemma {:induction false} CountsMove(
      env: Env, s: State, t: State, before: set<int>, after: set<int>, id: int, net: Network)
    requires CountsOk(env, s, before)
    requires forall x :: x != id ==> CountedNew(s, before, x) == CountedNew(t, after, x) && CountedTried(s, x) == CountedTried(t, x)
    requires forall x :: x in s.info && x in t.info ==> s.info[x].addr == t.info[x].addr
    requires (id in s.info ==> env.network(s.info[id].addr) == net) && (id in t.info ==> env.network(t.info[id].addr) == net)
    requires var dNew := Bit(CountedNew(t, after, id)) - Bit(CountedNew(s, before, id));
             var dTried := Bit(CountedTried(t, id)) - Bit(CountedTried(s, id));
             && t.nNew == s.nNew + dNew && t.nTried == s.nTried + dTried
             && forall n: Network :: CountOf(t, n) == if n == net then Count(CountOf(s, n).inNew + dNew, CountOf(s, n).inTried + dTried) else CountOf(s, n)
    ensures CountsOk(env, t, after)
  {
    hide IdsIn, IdsOfNetwork, CountedNew, CountedTried, CountOf, Bit;
    IdsMove(s, t, before, after, id);
    forall n: Network
      ensures CountOf(t, n) == Count(|IdsOfNetwork(env, t, false, n) - after|, |IdsOfNetwork(env, t, true, n)|)
    {
      CountsMoveNetwork(env, s, t, before, after, id, net, n);
    }
  }

  lemma {:induction false} IdsMove(s: State, t: State, before: set<int>, after: set<int>, id: int)
    requires forall x :: x != id ==> CountedNew(s, before, x) == CountedNew(t, after, x) && CountedTried(s, x) == CountedTried(t, x)
    ensures |IdsIn(t, false) - after| == |IdsIn(s, false) - before| + Bit(CountedNew(t, after, id)) - Bit(CountedNew(s, before, id))
    ensures |IdsIn(t, true)| == |IdsIn(s, true)| + Bit(CountedTried(t, id)) - Bit(CountedTried(s, id))
  {
    OneMember(IdsIn(s, false) - before, IdsIn(t, false) - after, id) by {
      assert forall x :: x in IdsIn(s, false) - before <==> CountedNew(s, before, x);
      assert forall x :: x in IdsIn(t, false) - after <==> CountedNew(t, after, x);
    }
    OneMember(IdsIn(s, true), IdsIn(t, true), id) by {
      assert forall x :: x in IdsIn(s, true) <==> CountedTried(s, x);
      assert forall x :: x in IdsIn(t, true) <==> CountedTried(t, x);
    }
  }

  lemma {:induction false} CountsMoveNetwork(
      env: Env, s: State, t: State, before: set<int>, after: set<int>, id: int, net: Network, n: Network)
    requires forall x :: x != id ==> CountedNew(s, before, x) == CountedNew(t, after, x) && CountedTried(s, x) == CountedTried(t, x)
    requires forall x :: x in s.info && x in t.info ==> s.info[x].addr == t.info[x].addr
    requires (id in s.info ==> env.network(s.info[id].addr) == net) && (id in t.info ==> env.network(t.info[id].addr) == net)
    ensures var dNew := Bit(CountedNew(t, after, id)) - Bit(CountedNew(s, before, id));
            var dTried := Bit(CountedTried(t, id)) - Bit(CountedTried(s, id));
            && |IdsOfNetwork(env, t, false, n) - after| == |IdsOfNetwork(env, s, false, n) - before| + (if n == net then dNew else 0)
            && |IdsOfNetwork(env, t, true, n)| == |IdsOfNetwork(env, s, true, n)| + (if n == net then dTried else 0)
  {
    var a, b := IdsOfNetwork(env, s, false, n) - before, IdsOfNetwork(env, t, false, n) - after;
    assert forall x :: x in a <==> CountedNew(s, before, x) && env.network(s.info[x].addr) == n;
    assert forall x :: x in b <==> CountedNew(t, after, x) && env.network(t.info[x].addr) == n;
    OneMember(a, b, id);
    var c, d := IdsOfNetwork(env, s, true, n), IdsOfNetwork(env, t, true, n);
    assert forall x :: x in c <==> CountedTried(s, x) && env.network(s.info[x].addr) == n;
    assert forall x :: x in d <==> CountedTried(t, x) && env.network(t.info[x].addr) == n;
    OneMember(c, d, id);
  }

  // ----- Create and Delete ---------------------------------------------------------------

  /** A fresh id is in no slot. */
  lemma {:induction false} FreshId(env: Env, s: State, loose: set<int>, limbo: set<int>)
    requires Sound(env, s, loose, limbo)
    ensures s.idCount !in s.info
    ensures forall b, p :: 0 <= b < NEW_BUCKET_COUNT && 0 <= p < BUCKET_SIZE ==> s.news[b][p] != s.idCount
  {
    hide CountsOk, AddrsOk, RandomOk, EntriesOk, TriedOk;
  }

  lemma {:induction false} CreateTables(env: Env, s: State, a: Address, source: NetAddr)
    requires Shapes(s) && IdsOk(s) && TriedOk(env, s) && NewOk(env, s)
    requires s.idCount !in s.info
    requires forall b, p :: 0 <= b < NEW_BUCKET_COUNT && 0 <= p < BUCKET_SIZE ==> s.news[b][p] != s.idCount
    ensures var t := Create(env, s, a, source); TriedOk(env, t) && NewOk(env, t)
  {
    var t := Create(env, s, a, source);
    forall id <- s.info
      ensures BucketsOf(env, t, id) == BucketsOf(env, s, id)
    {
    }
    assert BucketsOf(env, t, s.idCount) == {};
  }

  lemma {:induction false} CreateIndexes(env: Env, s: State, a: Address, source: NetAddr)
    requires IdsOk(s) && AddrsOk(s) && EntriesOk(s, {}) && s.idCount !in s.info && a.service !in s.addrs
    ensures var t := Create(env, s, a, source); IdsOk(t) && AddrsOk(t) && EntriesOk(t, {s.idCount})
  {
    var t := Create(env, s, a, source);
    assert forall id <- t.info :: id == s.idCount || (id in s.info && t.info[id] == s.info[id]);
  }

  lemma {:induction false} CreateRandom(env: Env, s: State, a: Address, source: NetAddr)
    requires RandomOk(s) && s.idCount !in s.info
    ensures RandomOk(Create(env, s, a, source))
  {
  }

  lemma {:induction false} CreateKeeps(env: Env, s: State, a: Address, source: NetAddr)
    requires Sound(env, s, {}, {}) && a.service !in s.addrs
    ensures var t := Create(env, s, a, source);
            Sound(env, t, {s.idCount}, {}) && Evolves(s, t)
  {
    hide TriedOk, NewOk, AddrsOk, RandomOk, EntriesOk, CountsOk;
    var t := Create(env, s, a, source);
    FreshId(env, s, {}, {});
    CreateTables(env, s, a, source);
    CreateIndexes(env, s, a, source);
    CreateRandom(env, s, a, source);
    CountsMove(env, s, t, {}, {}, s.idCount, env.network(a.service));
  }

  lemma {:induction false} PopRandomOk(s: State)
    requires RandomOk(s) && s.random != []
    ensures var n := |s.random| - 1;
            RandomOk(s.(random := s.random[..n], info := s.info - {s.random[n]}))
  {
  }

  lemma {:induction false} DeleteTrims(env: Env, s: State, id: int)
    requires RandomOk(s) && id in s.info && !s.info[id].inTried && s.info[id].refCount == 0
    ensures Deletable(s, id)
    ensures var t := Delete(env, s, id);
            && Trimmed(s, t, {id})
            && t.news == s.news && t.nTried == s.nTried && t.nNew == s.nNew - 1 && t.addrs == s.addrs - {s.info[id].addr}
  {
    hide RandomOk, SwapRandom;
    RandomFacts(s, id);
    SwapRandomTrims(s, s.info[id].randomPos, |s.random| - 1);
  }

  lemma {:induction false} RandomFacts(s: State, id: int)
    requires RandomOk(s) && id in s.info
    ensures 0 <= s.info[id].randomPos < |s.random| && s.random[s.info[id].randomPos] == id
    ensures s.random[|s.random| - 1] in s.info
  {
  }

  lemma {:induction false} AddCountSame(s: State, t: State, net: Network, d: int)
    requires s.counts == t.counts
    ensures AddCount(s, net, d, 0) == AddCount(t, net, d, 0)
  {
  }

  lemma {:induction false} DeleteRandom(env: Env, s: State, id: int)
    requires RandomOk(s) && Deletable(s, id)
    ensures RandomOk(Delete(env, s, id))
  {
    hide RandomOk, SwapRandom;
    var n := |s.random| - 1;
    RandomFacts(s, id);
    SwapRandomOk(s, s.info[id].randomPos, n);
    var t := SwapRandom(s, s.info[id].randomPos, n);
    assert t.random[n] == id && |t.random| == n + 1;
    PopRandomOk(t);
    SameRandom(t.(random := t.random[..n], info := t.info - {id}), Delete(env, s, id));
  }

  lemma {:induction false} SameRandom(s: State, t: State)
    requires RandomOk(s) && s.random == t.random && s.info == t.info
    ensures RandomOk(t)
  {
  }

  /** An entry without references is in no slot. */
  lemma {:induction false} UnreferencedAbsent(env: Env, s: State, id: int)
    requires Shapes(s) && NewOk(env, s) && id in s.info && s.info[id].refCount == 0 && id != -1
    ensures forall b, p :: 0 <= b < NEW_BUCKET_COUNT && 0 <= p < BUCKET_SIZE ==> s.news[b][p] != id
  {
    assert BucketsOf(env, s, id) == {};
    forall b, p | 0 <= b < NEW_BUCKET_COUNT && 0 <= p < BUCKET_SIZE
      ensures s.news[b][p] != id
    {
      assert b !in BucketsOf(env, s, id);
    }
  }

  lemma {:induction false} DeleteTables(env: Env, s: State, t: State, id: int)
    requires Shapes(s) && TriedOk(env, s) && NewOk(env, s)
    requires id in s.info && id != -1 && !s.info[id].inTried && s.info[id].refCount == 0
    requires Trimmed(s, t, {id}) && t.news == s.news
    ensures Shapes(t) && TriedOk(env, t) && NewOk(env, t)
  {
    UnreferencedAbsent(env, s, id);
    forall x <- t.info
      ensures BucketsOf(env, t, x) == BucketsOf(env, s, x)
    {
    }
  }

  lemma {:induction false} DeleteAddrs(s: State, t: State, id: int)
    requires IdsOk(s) && AddrsOk(s) && id in s.info && Trimmed(s, t, {id}) && t.addrs == s.addrs - {s.info[id].addr}
    ensures IdsOk(t) && AddrsOk(t)
  {
    forall x <- t.info
      ensures t.info[x].addr in t.addrs && t.addrs[t.info[x].addr] == x
    {
      assert t.info[x].(randomPos := 0) == s.info[x].(randomPos := 0);
    }
    forall a <- t.addrs
      ensures t.addrs[a] in t.info && t.info[t.addrs[a]].addr == a
    {
      var x := s.addrs[a];
      assert x != id;
      assert t.info[x].(randomPos := 0) == s.info[x].(randomPos := 0);
    }
  }

  lemma {:induction false} DeleteKeeps(env: Env, s: State, id: int, loose: set<int>, limbo: set<int>)
    requires Sound(env, s, loose, limbo)
    requires id in s.info && !s.info[id].inTried && s.info[id].refCount == 0 && id !in limbo
    ensures Deletable(s, id)
    ensures var t := Delete(env, s, id);
            && Sound(env, t, loose - {id}, limbo) && Evolves(s, t) && Trimmed(s, t, {id})
            && t.news == s.news
  {
    hide TriedOk, NewOk, AddrsOk, RandomOk, EntriesOk, CountsOk, IdsOk, Trimmed;
    NoId(s);
    AddrFacts(s, id);
    DeleteTrims(env, s, id);
    DeleteRandom(env, s, id);
    var t := Delete(env, s, id);
    TrimmedEntries(s, t, {id}, loose);
    DeleteTables(env, s, t, id);
    DeleteAddrs(s, t, id);
    DeleteCounts(env, s, id, limbo);
    TrimmedEvolves(s, t, {id});
  }

  lemma {:induction false} AddrFacts(s: State, id: int)
    requires AddrsOk(s) && id in s.info
    ensures s.info[id].addr in s.addrs
  {
  }

  lemma {:induction false} TrimmedEvolves(s: State, t: State, gone: set<int>)
    requires Shapes(s) && Shapes(t) && Trimmed(s, t, gone)
    ensures Evolves(s, t)
  {
    forall x <- t.info
      ensures x in s.info && t.info[x].addr == s.info[x].addr
    {
      assert t.info[x].(randomPos := 0) == s.info[x].(randomPos := 0);
    }
  }

  lemma {:induction false} DeleteCounts(env: Env, s: State, id: int, limbo: set<int>)
    requires CountsOk(env, s, limbo) && Deletable(s, id) && Trimmed(s, Delete(env, s, id), {id}) && id !in limbo
    ensures CountsOk(env, Delete(env, s, id), limbo)
  {
    hide CountsOk;
    var t := Delete(env, s, id);
    forall x | x != id
      ensures CountedNew(s, limbo, x) == CountedNew(t, limbo, x) && CountedTried(s, x) == CountedTried(t, x)
      ensures x in s.info && x in t.info ==> s.info[x].addr == t.info[x].addr
    {
      assert x in t.info <==> x in s.info;
      if x in s.info {
        assert t.info[x].(randomPos := 0) == s.info[x].(randomPos := 0);
      }
    }
    CountsMove(env, s, t, limbo, limbo, id, env.network(s.info[id].addr));
  }

  // ----- Links between entries and new slots -------------------------------------------------

  /** Writing one new slot is seen by the addresses that belong there. */
  lemma {:induction false} PutSeen(env: Env, s: State, t: State, b: nat, p: nat, v: int, c: nat, a: Service)
    requires Shapes(s) && b < NEW_BUCKET_COUNT && p < BUCKET_SIZE && c < NEW_BUCKET_COUNT
    requires t.news == Put(s.news, b, p, v) && t.tried == s.tried
    ensures Shapes(t)
    ensures NewAt(env, t, c, a) == if c == b && env.Position(true, b, a) == p then v else NewAt(env, s, c, a)
  {
  }

  lemma {:induction false} SameTried(env: Env, s: State, t: State)
    requires Shapes(s) && Shapes(t) && TriedOk(env, s) && t.tried == s.tried && SameHomes(s, t)
    ensures TriedOk(env, t)
  {
    assert forall x :: x in t.info <==> x in s.info;
  }

  /** The buckets of an entry after one slot has been written. */
  lemma {:induction false} BucketsAfterPut(env: Env, s: State, t: State, b: nat, p: nat, v: int, x: int)
    requires Shapes(s) && b < NEW_BUCKET_COUNT && p < BUCKET_SIZE
    requires t.news == Put(s.news, b, p, v) && t.tried == s.tried
    requires x in s.info && x in t.info && t.info[x].addr == s.info[x].addr
    ensures Shapes(t)
    ensures var home := env.Position(true, b, s.info[x].addr) == p;
            BucketsOf(env, t, x) ==
            if home && v == x then BucketsOf(env, s, x) + {b}
            else if home then BucketsOf(env, s, x) - {b}
            else BucketsOf(env, s, x)
  {
    var a := s.info[x].addr;
    PutSeen(env, s, t, b, p, v, b, a);
    var goal := if env.Position(true, b, a) == p && v == x then BucketsOf(env, s, x) + {b}
                else if env.Position(true, b, a) == p then BucketsOf(env, s, x) - {b}
                else BucketsOf(env, s, x);
    forall c: nat
      ensures c in BucketsOf(env, t, x) <==> c in goal
    {
      if c < NEW_BUCKET_COUNT {
        PutSeen(env, s, t, b, p, v, c, a);
      }
    }
  }

  lemma {:induction false} SlotsAfterPut(env: Env, s: State, t: State, b: nat, p: nat, v: int)
    requires Shapes(s) && Shapes(t) && b < NEW_BUCKET_COUNT && p < BUCKET_SIZE && SlotsOk(env, s) && SameHomes(s, t)
    requires t.news == Put(s.news, b, p, v)
    requires v != -1 ==> v in t.info && !t.info[v].inTried && env.Position(true, b, t.info[v].addr) == p
    ensures SlotsOk(env, t)
  {
    forall c, q | 0 <= c < NEW_BUCKET_COUNT && 0 <= q < BUCKET_SIZE && t.news[c][q] != -1
      ensures t.news[c][q] in t.info && !t.info[t.news[c][q]].inTried
      ensures env.Position(true, c, t.info[t.news[c][q]].addr) == q
    {
      if c != b || q != p {
        assert t.news[c][q] == s.news[c][q];
      }
    }
  }

  lemma {:induction false} UnlinkTables(env: Env, s: State, b: nat, p: nat)
    requires Shapes(s) && b < NEW_BUCKET_COUNT && p < BUCKET_SIZE
    requires TriedOk(env, s) && NewOk(env, s) && -1 !in s.info && s.news[b][p] != -1
    ensures s.news[b][p] in s.info && s.info[s.news[b][p]].refCount > 0 && !s.info[s.news[b][p]].inTried
    ensures var t := Unlink(s, b, p); Shapes(t) && TriedOk(env, t) && NewOk(env, t)
  {
    var id := s.news[b][p];
    assert b in BucketsOf(env, s, id);
    var t := Unlink(s, b, p);
    hide TriedOk;
    BucketsAfterPut(env, s, t, b, p, -1, id);
    SameTried(env, s, t);
    SlotsAfterPut(env, s, t, b, p, -1);
    hide SlotsOk;
    forall x <- s.info
      ensures t.info[x].refCount == |BucketsOf(env, t, x)|
    {
      BucketsAfterPut(env, s, t, b, p, -1, x);
      assert s.info[x].refCount == |BucketsOf(env, s, x)|;
      assert x != id ==> b !in BucketsOf(env, s, x) || env.Position(true, b, s.info[x].addr) != p;
    }
  }

  lemma {:induction false} LinkTables(env: Env, s: State, b: nat, p: nat, id: int)
    requires Shapes(s) && b < NEW_BUCKET_COUNT && p < BUCKET_SIZE
    requires TriedOk(env, s) && NewOk(env, s) && -1 !in s.info && s.news[b][p] == -1
    requires id in s.info && !s.info[id].inTried && env.Position(true, b, s.info[id].addr) == p
    ensures var t := Link(s, b, p, id); Shapes(t) && TriedOk(env, t) && NewOk(env, t)
  {
    hide TriedOk, SlotsOk;
    var t := Link(s, b, p, id);
    BucketsAfterPut(env, s, t, b, p, id, id);
    SameTried(env, s, t);
    SlotsAfterPut(env, s, t, b, p, id);
    forall x <- s.info
      ensures t.info[x].refCount == |BucketsOf(env, t, x)|
    {
      BucketsAfterPut(env, s, t, b, p, id, x);
      assert s.info[x].refCount == |BucketsOf(env, s, x)|;
      assert b !in BucketsOf(env, s, x) || env.Position(true, b, s.info[x].addr) != p;
    }
  }

  lemma {:induction false} NoId(s: State)
    requires IdsOk(s)
    ensures -1 !in s.info
  {
  }

  lemma {:induction false} RefsNonNegative(env: Env, s: State, id: int)
    requires Shapes(s) && RefsOk(env, s) && id in s.info
    ensures s.info[id].refCount >= 0
  {
    assert s.info[id].refCount == |BucketsOf(env, s, id)|;
  }

  /** Entries may change their reference counts only. */
  ghost predicate SameButRefs(s: State, t: State) {
    && t.info.Keys == s.info.Keys
    && (forall x <- s.info :: t.info[x].(refCount := 0) == s.info[x].(refCount := 0))
    && t == s.(info := t.info, news := t.news)
  }

  lemma {:induction false} RefsReframe(env: Env, s: State, t: State, limbo: set<int>)
    requires IdsOk(s) && AddrsOk(s) && RandomOk(s) && CountsOk(env, s, limbo) && SameButRefs(s, t)
    ensures IdsOk(t) && AddrsOk(t) && RandomOk(t) && CountsOk(env, t, limbo)
  {
    assert forall x :: x in t.info <==> x in s.info;
    forall x <- s.info
      ensures t.info[x].addr == s.info[x].addr && t.info[x].inTried == s.info[x].inTried
      ensures t.info[x].randomPos == s.info[x].randomPos
    {
      assert t.info[x].(refCount := 0) == s.info[x].(refCount := 0);
    }
    SameCounts(env, s, t, limbo);
    hide CountsOk;
  }

  lemma {:induction false} RefsEntries(s: State, t: State, loose: set<int>, id: int)
    requires EntriesOk(s, loose) && SameButRefs(s, t)
    requires forall x <- s.info :: x != id ==> t.info[x].refCount == s.info[x].refCount
    requires id in s.info && !s.info[id].inTried
    requires t.info[id].refCount <= NEW_BUCKETS_PER_ADDRESS || t.info[id].refCount < s.info[id].refCount
    ensures s.info[id].refCount <= NEW_BUCKETS_PER_ADDRESS
    ensures EntriesOk(t, if t.info[id].refCount >= 1 then loose - {id} else loose + {id})
  {
    forall x <- t.info
      ensures t.info[x].inTried == s.info[x].inTried
    {
      assert t.info[x].(refCount := 0) == s.info[x].(refCount := 0);
    }
  }

  lemma {:induction false} UnlinkKeeps(env: Env, s: State, b: nat, p: nat, loose: set<int>, limbo: set<int>)
    requires Sound(env, s, loose, limbo) && b < NEW_BUCKET_COUNT && p < BUCKET_SIZE && s.news[b][p] != -1
    ensures var id := s.news[b][p];
            && id in s.info && !s.info[id].inTried && s.info[id].refCount > 0 && id !in loose - {id}
            && var t := Unlink(s, b, p);
            && SameButRefs(s, t) && t.info[id].refCount == s.info[id].refCount - 1
            && (forall x <- s.info :: x != id ==> t.info[x] == s.info[x])
            && Sound(env, t, if t.info[id].refCount >= 1 then loose - {id} else loose + {id}, limbo)
  {
    hide TriedOk, NewOk, RandomOk, CountsOk, AddrsOk, IdsOk, EntriesOk;
    NoId(s);
    UnlinkTables(env, s, b, p);
    var id := s.news[b][p];
    var t := Unlink(s, b, p);
    assert SameButRefs(s, t);
    RefsReframe(env, s, t, limbo);
    RefsEntries(s, t, loose, id);
  }

  lemma {:induction false} LinkKeeps(env: Env, s: State, b: nat, id: int, loose: set<int>, limbo: set<int>)
    requires Sound(env, s, loose, limbo) && b < NEW_BUCKET_COUNT && id in s.info && !s.info[id].inTried
    requires NewAt(env, s, b, s.info[id].addr) == -1 && s.info[id].refCount < NEW_BUCKETS_PER_ADDRESS
    ensures var t := Link(s, b, env.Position(true, b, s.info[id].addr), id);
            && SameButRefs(s, t) && Sound(env, t, loose - {id}, limbo)
            && (forall x <- s.info :: x != id ==> t.info[x] == s.info[x])
  {
    hide TriedOk, SlotsOk, RefsOk, RandomOk, CountsOk, AddrsOk, IdsOk, EntriesOk;
    NoId(s);
    var p := env.Position(true, b, s.info[id].addr);
    LinkTables(env, s, b, p, id);
    var t := Link(s, b, p, id);
    assert SameButRefs(s, t);
    RefsNonNegative(env, s, id);
    RefsReframe(env, s, t, limbo);
    RefsEntries(s, t, loose, id);
  }

  /** What an entry records about its address, whichever table it is in. */
  function Record(e: Info): Info {
    e.(refCount := 0, inTried := false, randomPos := 0)
  }

  /** The entries other than `id` survive, but for their random positions, and
      nothing else moves but new slots and counters. */
  ghost predicate OthersKept(s: State, t: State, id: int) {
    && t.info.Keys <= s.info.Keys
    && (forall x <- t.info :: Record(t.info[x]) == Record(s.info[x]))
    && (forall x <- s.info :: x != id ==> x in t.info && t.info[x].(randomPos := 0) == s.info[x].(randomPos := 0))
    && t.tried == s.tried && t.idCount == s.idCount && t.collisions == s.collisions && t.lastGood == s.lastGood
  }

  lemma {:induction false} OthersKeptEvolves(s: State, t: State, id: int)
    requires Shapes(s) && Shapes(t) && OthersKept(s, t, id)
    ensures Evolves(s, t)
  {
    forall x <- t.info
      ensures x in s.info && t.info[x].addr == s.info[x].addr
    {
      assert Record(t.info[x]) == Record(s.info[x]);
    }
  }

  lemma {:induction false} UnlinkOthers(s: State, u: State, t: State, id: int)
    requires SameButRefs(s, u) && (forall x <- s.info :: x != id ==> u.info[x] == s.info[x])
    requires t == u || Trimmed(u, t, {id})
    ensures OthersKept(s, t, id)
  {
    forall x <- t.info
      ensures x in s.info && Record(t.info[x]) == Record(s.info[x])
    {
      assert x in u.info && t.info[x].(randomPos := 0) == u.info[x].(randomPos := 0);
      assert u.info[x].(refCount := 0) == s.info[x].(refCount := 0);
    }
  }

  lemma {:induction false} ClearNewKeeps(env: Env, s: State, b: nat, p: nat, loose: set<int>, limbo: set<int>)
    requires Sound(env, s, loose, limbo) && b < NEW_BUCKET_COUNT && p < BUCKET_SIZE && s.news[b][p] != -1
    requires forall x <- limbo :: x in s.info ==> s.info[x].refCount == 0
    ensures Clearable(s, b, p)
    ensures var t := ClearNew(env, s, b, p);
            && Sound(env, t, loose, limbo) && t.news == Put(s.news, b, p, -1)
            && OthersKept(s, t, s.news[b][p])
  {
    hide TriedOk, NewOk, RandomOk, CountsOk, AddrsOk, EntriesOk, IdsOk, Trimmed;
    var id := s.news[b][p];
    UnlinkKeeps(env, s, b, p, loose, limbo);
    var u := Unlink(s, b, p);
    if u.info[id].refCount == 0 {
      DeleteKeeps(env, u, id, loose + {id}, limbo);
      LooseMore(env, Delete(env, u, id), loose + {id} - {id}, loose, limbo);
      UnlinkOthers(s, u, Delete(env, u, id), id);
    } else {
      LooseMore(env, u, loose - {id}, loose, limbo);
      UnlinkOthers(s, u, u, id);
    }
  }

  lemma {:induction false} LooseMore(env: Env, s: State, small: set<int>, big: set<int>, limbo: set<int>)
    requires Sound(env, s, small, limbo) && small <= big
    ensures Sound(env, s, big, limbo)
  {
    hide TriedOk, NewOk, RandomOk, CountsOk, AddrsOk;
  }
}
