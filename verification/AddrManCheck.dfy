/** The run-time consistency check of the address manager: what it accepts, and how
    that compares with the consistency that every operation keeps. */
module AddrManCheck {
  import opened AddrMan
  import opened AddrManKeeps
  import opened AddrManTried

  // ----- What the check accepts -----------------------------------------------------

  predicate EntryPasses(s: State, id: int)
    requires id in s.info
  {
    var e := s.info[id];
    && (if e.inTried then e.lastSuccess != 0 && e.refCount == 0 else 1 <= e.refCount <= NEW_BUCKETS_PER_ADDRESS)
    && e.addr in s.addrs && s.addrs[e.addr] == id
    && 0 <= e.randomPos < |s.random| && s.random[e.randomPos] == id
    && e.lastTry >= 0 && e.lastSuccess >= 0
  }

  predicate EntriesPass(s: State) {
    forall id <- s.info :: EntryPasses(s, id)
  }

  predicate NewPasses(env: Env, s: State)
    requires Shapes(s)
  {
    SlotsOk(env, s) && forall id <- IdsIn(s, false) :: s.info[id].refCount == |BucketsOf(env, s, id)|
  }

  function NetworksOf(env: Env, s: State): set<Network> {
    set id <- s.info :: env.network(s.info[id].addr)
  }

  function NetworkCount(env: Env, s: State, net: Network): Count {
    Count(|IdsOfNetwork(env, s, false, net)|, |IdsOfNetwork(env, s, true, net)|)
  }

  predicate CountsPass(env: Env, s: State) {
    |s.counts| >= |NetworksOf(env, s)| && forall net <- s.counts :: s.counts[net] == NetworkCount(env, s, net)
  }

  predicate CheckPasses(env: Env, key: nat, s: State)
    requires Shapes(s)
  {
    && |s.random| == s.nTried + s.nNew && EntriesPass(s) && -1 !in s.info
    && s.nTried == |IdsIn(s, true)| && s.nNew == |IdsIn(s, false)|
    && TriedOk(env, s) && NewPasses(env, s) && key != 0 && CountsPass(env, s)
  }

  // ----- Gathering the entries -------------------------------------------------------

  function Among(env: Env, s: State, done: set<int>, tried: bool, net: Network): set<int>
    requires done <= s.info.Keys
  {
    set id | id in done && s.info[id].inTried == tried && env.network(s.info[id].addr) == net
  }

  function CountIn(counts: map<Network, Count>, net: Network): Count {
    if net in counts then counts[net] else Count(0, 0)
  }

  /** What has been gathered from the entries done so far. */
  ghost predicate Gathered(env: Env, s: State, done: set<int>, tried: set<int>, refs: map<int, int>, local: map<Network, Count>)
    requires done <= s.info.Keys
  {
    && tried == (set id | id in done && s.info[id].inTried)
    && refs == (map id | id in done && !s.info[id].inTried :: s.info[id].refCount)
    && local.Keys == (set id | id in done :: env.network(s.info[id].addr))
    && forall net: Network :: CountIn(local, net) == Count(|Among(env, s, done, false, net)|, |Among(env, s, done, true, net)|)
  }

  lemma {:induction false} AmongMore(env: Env, s: State, done: set<int>, id: int, tried: bool, net: Network)
    requires done <= s.info.Keys && id in s.info && id !in done
    ensures |Among(env, s, done + {id}, tried, net)| ==
            |Among(env, s, done, tried, net)| + if s.info[id].inTried == tried && env.network(s.info[id].addr) == net then 1 else 0
  {
    var was := Among(env, s, done, tried, net);
    if s.info[id].inTried == tried && env.network(s.info[id].addr) == net {
      assert Among(env, s, done + {id}, tried, net) == was + {id};
    } else {
      assert Among(env, s, done + {id}, tried, net) == was;
    }
  }

  lemma {:induction false} GatheredMore(env: Env, s: State, done: set<int>, id: int,
                                        tried: set<int>, refs: map<int, int>, local: map<Network, Count>,
                                        tried': set<int>, refs': map<int, int>, local': map<Network, Count>)
    requires done <= s.info.Keys && id in s.info && id !in done && Gathered(env, s, done, tried, refs, local)
    requires var e := s.info[id]; var net := env.network(e.addr); var c := CountIn(local, net);
             if e.inTried then
               tried' == tried + {id} && refs' == refs && local' == local[net := Count(c.inNew, c.inTried + 1)]
             else tried' == tried && refs' == refs[id := e.refCount] && local' == local[net := Count(c.inNew + 1, c.inTried)]
    ensures Gathered(env, s, done + {id}, tried', refs', local')
  {
    forall net: Network
      ensures CountIn(local', net) ==
              Count(|Among(env, s, done + {id}, false, net)|, |Among(env, s, done + {id}, true, net)|)
    {
      AmongMore(env, s, done, id, false, net);
      AmongMore(env, s, done, id, true, net);
      assert CountIn(local, net) == Count(|Among(env, s, done, false, net)|, |Among(env, s, done, true, net)|);
    }
    GatheredKeys(env, s, done, id);
  }

  lemma {:induction false} GatheredKeys(env: Env, s: State, done: set<int>, id: int)
    requires done <= s.info.Keys && id in s.info
    ensures (set x | x in done + {id} :: env.network(s.info[x].addr)) ==
            (set x | x in done :: env.network(s.info[x].addr)) + {env.network(s.info[id].addr)}
  {
  }

  method CheckEntries(env: Env, s: State) returns (code: int, tried: set<int>, refs: map<int, int>, local: map<Network, Count>)
    ensures code == 0 <==> EntriesPass(s)
    ensures code == 0 ==> Gathered(env, s, s.info.Keys, tried, refs, local)
  {
    hide Gathered;
    tried, refs, local := {}, map[], map[];
    var todo := s.info.Keys;
    NothingGathered(env, s);
    assert s.info.Keys - todo == {};
    while todo != {}
      invariant todo <= s.info.Keys && forall id <- s.info :: id !in todo ==> EntryPasses(s, id)
      invariant Gathered(env, s, s.info.Keys - todo, tried, refs, local)
      decreases todo
    {
      assert (forall x :: x !in todo) ==> todo == {};
      var id :| id in todo;
      var e := s.info[id];
      var net := env.network(e.addr);
      var c := if net in local then local[net] else Count(0, 0);
      ghost var done := s.info.Keys - todo;
      ghost var tried0, refs0, local0 := tried, refs, local;
      if e.inTried {
        if e.lastSuccess == 0 {
          return -1, tried, refs, local;
        }
        if e.refCount != 0 {
          return -2, tried, refs, local;
        }
        tried := tried + {id};
        local := local[net := Count(c.inNew, c.inTried + 1)];
      } else {
        if e.refCount < 0 || e.refCount > NEW_BUCKETS_PER_ADDRESS {
          return -3, tried, refs, local;
        }
        if e.refCount == 0 {
          return -4, tried, refs, local;
        }
        refs := refs[id := e.refCount];
        local := local[net := Count(c.inNew + 1, c.inTried)];
      }
      if e.addr !in s.addrs || s.addrs[e.addr] != id {
        return -5, tried, refs, local;
      }
      if e.randomPos < 0 || e.randomPos >= |s.random| || s.random[e.randomPos] != id {
        return -14, tried, refs, local;
      }
      if e.lastTry < 0 {
        return -6, tried, refs, local;
      }
      if e.lastSuccess < 0 {
        return -8, tried, refs, local;
      }
      GatheredMore(env, s, done, id, tried0, refs0, local0, tried, refs, local);
      todo := todo - {id};
      assert s.info.Keys - todo == done + {id};
    }
    assert s.info.Keys - todo == s.info.Keys;
    code := 0;
  }

  lemma {:induction false} NothingGathered(env: Env, s: State)
    ensures Gathered(env, s, {}, {}, map[], map[])
  {
  }

  // ----- The tried table ---------------------------------------------------------------

  predicate Before(b: int, p: int, n: int, i: int) {
    b < n || (b == n && p < i)
  }

  predicate HomeSlot(env: Env, s: State, b: int, p: int)
    requires Shapes(s) && 0 <= b < TRIED_BUCKET_COUNT && 0 <= p < BUCKET_SIZE
  {
    && s.tried[b][p] in s.info && s.info[s.tried[b][p]].inTried
    && env.TriedBucket(s.info[s.tried[b][p]].addr) == b && env.Position(false, b, s.info[s.tried[b][p]].addr) == p
  }

  /** The tried slots before (n, i) are in order, and `left` are the tried ids not
      seen in them. */
  ghost predicate TriedScan(env: Env, s: State, n: int, i: int, left: set<int>)
    requires Shapes(s)
  {
    && (forall b, p :: 0 <= b < TRIED_BUCKET_COUNT && 0 <= p < BUCKET_SIZE && Before(b, p, n, i) && s.tried[b][p] != -1 ==>
          HomeSlot(env, s, b, p))
    && left <= IdsIn(s, true)
    && (forall id <- IdsIn(s, true) ::
          var b := env.TriedBucket(s.info[id].addr);
          var p := env.Position(false, b, s.info[id].addr);
          id !in left <==> id != -1 && Before(b, p, n, i) && s.tried[b][p] == id)
  }

  /** The next slot decides: an id that is not left, or not at home, is a fault. */
  lemma {:induction false} TriedScanNext(env: Env, s: State, n: nat, i: nat, left: set<int>)
    requires Shapes(s) && TriedScan(env, s, n, i, left) && n < TRIED_BUCKET_COUNT && i < BUCKET_SIZE
    ensures s.tried[n][i] == -1 ==> TriedScan(env, s, n, i + 1, left)
    ensures s.tried[n][i] != -1 && s.tried[n][i] in left && HomeSlot(env, s, n, i) ==>
              TriedScan(env, s, n, i + 1, left - {s.tried[n][i]})
    ensures s.tried[n][i] != -1 && !(s.tried[n][i] in left && HomeSlot(env, s, n, i)) ==> !TriedOk(env, s)
  {
    var x := s.tried[n][i];
    assert HomeSlot(env, s, n, i) ==> x in IdsIn(s, true);
  }

  lemma {:induction false} TriedScanRow(env: Env, s: State, n: nat, left: set<int>)
    requires Shapes(s) && TriedScan(env, s, n, BUCKET_SIZE, left)
    ensures TriedScan(env, s, n + 1, 0, left)
  {
  }

  lemma {:induction false} TriedScanEnd(env: Env, s: State, left: set<int>)
    requires Shapes(s) && TriedScan(env, s, TRIED_BUCKET_COUNT, 0, left)
    ensures left == {} <==> TriedOk(env, s) && -1 !in IdsIn(s, true)
  {
    if left == {} {
      forall id <- s.info | s.info[id].inTried
        ensures id != -1 && TriedAt(env, s, s.info[id].addr) == id
      {
        assert id in IdsIn(s, true);
      }
    } else {
      assert (forall x :: x !in left) ==> left == {};
      var id :| id in left;
      assert id in IdsIn(s, true);
    }
  }

  method CheckTried(env: Env, s: State, tried: set<int>) returns (code: int, left: set<int>)
    requires Shapes(s) && tried == IdsIn(s, true)
    ensures code != 0 ==> !TriedOk(env, s)
    ensures code == 0 ==> (left == {} <==> TriedOk(env, s) && -1 !in IdsIn(s, true))
  {
    hide TriedOk, TriedScan, IdsIn;
    left := tried;
    TriedScanStart(env, s);
    for n := 0 to TRIED_BUCKET_COUNT
      invariant TriedScan(env, s, n, 0, left)
    {
      for i := 0 to BUCKET_SIZE
        invariant TriedScan(env, s, n, i, left)
      {
        TriedScanNext(env, s, n, i, left);
        var id := s.tried[n][i];
        if id != -1 {
          if id !in left {
            return -11, left;
          }
          if id !in s.info || env.TriedBucket(s.info[id].addr) != n {
            return -17, left;
          }
          if env.Position(false, n, s.info[id].addr) != i {
            return -18, left;
          }
          LeftTried(env, s, n, i, left, id);
          left := left - {id};
        }
      }
      TriedScanRow(env, s, n, left);
    }
    TriedScanEnd(env, s, left);
    code := 0;
  }

  lemma {:induction false} TriedScanStart(env: Env, s: State)
    requires Shapes(s)
    ensures TriedScan(env, s, 0, 0, IdsIn(s, true))
  {
  }

  lemma {:induction false} LeftTried(env: Env, s: State, n: int, i: int, left: set<int>, id: int)
    requires Shapes(s) && TriedScan(env, s, n, i, left) && id in left
    ensures id in s.info && s.info[id].inTried
  {
    assert id in IdsIn(s, true);
  }

  // ----- The new table -----------------------------------------------------------------

  /** The new buckets before (n, i) in which an id was seen at its place. */
  function SeenIn(env: Env, s: State, id: int, n: int, i: int): set<nat>
    requires Shapes(s) && id in s.info
  {
    set b: nat | b < NEW_BUCKET_COUNT && Before(b, env.Position(true, b, s.info[id].addr), n, i) && NewAt(env, s, b, s.info[id].addr) == id
  }

  predicate PlacedSlot(env: Env, s: State, b: int, p: int)
    requires Shapes(s) && 0 <= b < NEW_BUCKET_COUNT && 0 <= p < BUCKET_SIZE
  {
    && s.news[b][p] in s.info && !s.info[s.news[b][p]].inTried
    && env.Position(true, b, s.info[s.news[b][p]].addr) == p
  }

  /** The new slots before (n, i) are in order, and `refs` are the references that
      have not been seen in them. */
  ghost predicate NewScan(env: Env, s: State, n: int, i: int, refs: map<int, int>)
    requires Shapes(s)
  {
    && (forall b, p :: 0 <= b < NEW_BUCKET_COUNT && 0 <= p < BUCKET_SIZE && Before(b, p, n, i) && s.news[b][p] != -1 ==>
          PlacedSlot(env, s, b, p))
    && refs.Keys <= IdsIn(s, false)
    && (forall id <- IdsIn(s, false) :: LeftOf(env, s, n, i, refs, id))
  }

  predicate LeftOf(env: Env, s: State, n: int, i: int, refs: map<int, int>, id: int)
    requires Shapes(s) && id in s.info
  {
    if id == -1 then id in refs
    else
      var rest := s.info[id].refCount - |SeenIn(env, s, id, n, i)|;
      rest >= 0 && (id in refs <==> rest > 0) && (id in refs ==> refs[id] == rest)
  }

  predicate SeenHere(env: Env, s: State, id: int, n: nat, i: nat)
    requires Shapes(s) && id in s.info && n < NEW_BUCKET_COUNT && i < BUCKET_SIZE
  {
    s.news[n][i] == id && env.Position(true, n, s.info[id].addr) == i
  }

  lemma {:induction false} SeenNext(env: Env, s: State, id: int, n: nat, i: nat)
    requires Shapes(s) && id in s.info && n < NEW_BUCKET_COUNT && i < BUCKET_SIZE
    ensures |SeenIn(env, s, id, n, i + 1)| == |SeenIn(env, s, id, n, i)| + if SeenHere(env, s, id, n, i) then 1 else 0
  {
    var was := SeenIn(env, s, id, n, i);
    var here := SeenHere(env, s, id, n, i);
    var next := SeenIn(env, s, id, n, i + 1);
    forall b: nat
      ensures b in next <==> b in was || (b == n && here)
    {
      assert Before(b, env.Position(true, b, s.info[id].addr), n, i + 1) <==>
             Before(b, env.Position(true, b, s.info[id].addr), n, i) || (b == n && env.Position(true, b, s.info[id].addr) == i);
    }
    assert here ==> n !in was;
    assert next == was + if here then {n} else {};
  }

  lemma {:induction false} Smaller(small: set<nat>, big: set<nat>)
    requires small <= big
    ensures |small| <= |big|
  {
    assert big == small + (big - small);
  }

  lemma {:induction false} SeenAtMost(env: Env, s: State, id: int, n: nat, i: nat)
    requires Shapes(s) && id in s.info
    ensures |SeenIn(env, s, id, n, i)| <= |BucketsOf(env, s, id)|
  {
    Smaller(SeenIn(env, s, id, n, i), BucketsOf(env, s, id));
  }

  function Struck(refs: map<int, int>, id: int): map<int, int>
    requires id in refs
  {
    if refs[id] == 1 then refs - {id} else refs[id := refs[id] - 1]
  }

  lemma {:induction false} LeftOfNext(env: Env, s: State, n: nat, i: nat, refs: map<int, int>, id: int)
    requires Shapes(s) && n < NEW_BUCKET_COUNT && i < BUCKET_SIZE && id in s.info && LeftOf(env, s, n, i, refs, id)
    requires s.news[n][i] in refs && PlacedSlot(env, s, n, i) && s.news[n][i] != -1
    ensures LeftOf(env, s, n, i + 1, Struck(refs, s.news[n][i]), id)
  {
    hide SeenIn;
    SeenNext(env, s, id, n, i);
  }

  /** An empty slot, or one with a reference that is left. */
  lemma {:induction false} NewScanNext(env: Env, s: State, n: nat, i: nat, refs: map<int, int>)
    requires Shapes(s) && NewScan(env, s, n, i, refs) && n < NEW_BUCKET_COUNT && i < BUCKET_SIZE
    requires s.news[n][i] != -1 ==> s.news[n][i] in refs && PlacedSlot(env, s, n, i)
    ensures NewScan(env, s, n, i + 1, if s.news[n][i] == -1 then refs else Struck(refs, s.news[n][i]))
  {
    hide SeenIn;
    var x := s.news[n][i];
    forall id <- IdsIn(s, false)
      ensures LeftOf(env, s, n, i + 1, if x == -1 then refs else Struck(refs, x), id)
    {
      if x == -1 {
        SeenNext(env, s, id, n, i);
      } else {
        LeftOfNext(env, s, n, i, refs, id);
      }
    }
  }

  /** Any other slot is a fault: a reference too many, or a misplaced one. */
  lemma {:induction false} NewScanFault(env: Env, s: State, n: nat, i: nat, refs: map<int, int>)
    requires Shapes(s) && NewScan(env, s, n, i, refs) && n < NEW_BUCKET_COUNT && i < BUCKET_SIZE
    requires s.news[n][i] != -1 && !(s.news[n][i] in refs && PlacedSlot(env, s, n, i))
    ensures !NewPasses(env, s)
  {
    hide SeenIn;
    var x := s.news[n][i];
    if PlacedSlot(env, s, n, i) {
      assert x in IdsIn(s, false);
      assert LeftOf(env, s, n, i, refs, x);
      SeenNext(env, s, x, n, i);
      SeenAtMost(env, s, x, n, i + 1);
    }
  }

  lemma {:induction false} NewScanRow(env: Env, s: State, n: nat, refs: map<int, int>)
    requires Shapes(s) && NewScan(env, s, n, BUCKET_SIZE, refs)
    ensures NewScan(env, s, n + 1, 0, refs)
  {
    forall id <- IdsIn(s, false)
      ensures LeftOf(env, s, n + 1, 0, refs, id)
    {
      assert LeftOf(env, s, n, BUCKET_SIZE, refs, id);
      assert SeenIn(env, s, id, n + 1, 0) == SeenIn(env, s, id, n, BUCKET_SIZE);
    }
  }

  lemma {:induction false} SeenAll(env: Env, s: State, id: int)
    requires Shapes(s) && id in s.info
    ensures SeenIn(env, s, id, NEW_BUCKET_COUNT, 0) == BucketsOf(env, s, id) && SeenIn(env, s, id, 0, 0) == {}
  {
  }

  lemma {:induction false} NewScanStart(env: Env, s: State, refs: map<int, int>)
    requires Shapes(s) && refs == (map id | id in IdsIn(s, false) :: s.info[id].refCount)
    requires forall id <- IdsIn(s, false) :: s.info[id].refCount > 0
    ensures NewScan(env, s, 0, 0, refs)
  {
    hide SeenIn;
    forall id <- IdsIn(s, false)
      ensures LeftOf(env, s, 0, 0, refs, id)
    {
      SeenAll(env, s, id);
    }
  }

  lemma {:induction false} NewScanEnd(env: Env, s: State, refs: map<int, int>)
    requires Shapes(s) && NewScan(env, s, NEW_BUCKET_COUNT, 0, refs)
    ensures refs == map[] <==> NewPasses(env, s) && -1 !in IdsIn(s, false)
  {
    hide SeenIn;
    forall id <- IdsIn(s, false)
      ensures id !in refs <==> id != -1 && s.info[id].refCount == |BucketsOf(env, s, id)|
    {
      SeenAll(env, s, id);
      assert LeftOf(env, s, NEW_BUCKET_COUNT, 0, refs, id);
    }
    assert (forall id <- IdsIn(s, false) :: id !in refs) ==> refs.Keys == {};
    assert refs.Keys == {} ==> refs == map[];
    assert SlotsOk(env, s);
  }

  method CheckNew(env: Env, s: State, counted: map<int, int>) returns (code: int, refs: map<int, int>)
    requires Shapes(s) && counted == (map id | id in IdsIn(s, false) :: s.info[id].refCount)
    requires forall id <- IdsIn(s, false) :: s.info[id].refCount > 0
    ensures code != 0 ==> !NewPasses(env, s)
    ensures code == 0 ==> (refs == map[] <==> NewPasses(env, s) && -1 !in IdsIn(s, false))
  {
    hide NewPasses, NewScan, IdsIn;
    refs := counted;
    NewScanStart(env, s, refs);
    for n := 0 to NEW_BUCKET_COUNT
      invariant NewScan(env, s, n, 0, refs)
    {
      for i := 0 to BUCKET_SIZE
        invariant NewScan(env, s, n, i, refs)
      {
        var id := s.news[n][i];
        if id != -1 {
          if id !in refs {
            NewScanFault(env, s, n, i, refs);
            return -12, refs;
          }
          LeftNew(env, s, n, i, refs, id);
          if id !in s.info || env.Position(true, n, s.info[id].addr) != i {
            NewScanFault(env, s, n, i, refs);
            return -19, refs;
          }
          NewScanNext(env, s, n, i, refs);
          ghost var before := refs;
          refs := refs[id := refs[id] - 1];
          if refs[id] == 0 {
            refs := refs - {id};
          }
          assert refs == Struck(before, id);
        } else {
          NewScanNext(env, s, n, i, refs);
        }
      }
      NewScanRow(env, s, n, refs);
    }
    NewScanEnd(env, s, refs);
    code := 0;
  }

  lemma {:induction false} LeftNew(env: Env, s: State, n: int, i: int, refs: map<int, int>, id: int)
    requires Shapes(s) && NewScan(env, s, n, i, refs) && id in refs
    ensures id in s.info && !s.info[id].inTried
  {
    assert id in IdsIn(s, false);
  }

  // ----- The counters and the whole check ---------------------------------------------

  lemma {:induction false} GatheredAll(env: Env, s: State, tried: set<int>, refs: map<int, int>, local: map<Network, Count>)
    requires Gathered(env, s, s.info.Keys, tried, refs, local)
    ensures tried == IdsIn(s, true) && refs == (map id | id in IdsIn(s, false) :: s.info[id].refCount)
    ensures refs.Keys == IdsIn(s, false) && local.Keys == NetworksOf(env, s)
    ensures forall net: Network :: CountIn(local, net) == NetworkCount(env, s, net)
  {
    forall net: Network
      ensures CountIn(local, net) == NetworkCount(env, s, net)
    {
      assert Among(env, s, s.info.Keys, false, net) == IdsOfNetwork(env, s, false, net);
      assert Among(env, s, s.info.Keys, true, net) == IdsOfNetwork(env, s, true, net);
      assert CountIn(local, net) ==
             Count(|Among(env, s, s.info.Keys, false, net)|, |Among(env, s, s.info.Keys, true, net)|);
    }
  }

  method CheckCounts(env: Env, s: State, local: map<Network, Count>) returns (code: int)
    requires local.Keys == NetworksOf(env, s) && forall net: Network :: CountIn(local, net) == NetworkCount(env, s, net)
    ensures code == 0 <==> CountsPass(env, s)
  {
    hide NetworkCount, NetworksOf;
    if |s.counts| < |local| {
      return -20;
    }
    var todo := s.counts.Keys;
    while todo != {}
      invariant todo <= s.counts.Keys
      invariant forall net <- s.counts :: net !in todo ==> s.counts[net] == NetworkCount(env, s, net)
      decreases todo
    {
      assert (forall x :: x !in todo) ==> todo == {};
      var net :| net in todo;
      var c := if net in local then local[net] else Count(0, 0);
      assert c == CountIn(local, net);
      if c.inNew != s.counts[net].inNew || c.inTried != s.counts[net].inTried {
        return -21;
      }
      todo := todo - {net};
    }
    code := 0;
  }

  lemma {:induction false} EntriesReferenced(s: State)
    requires EntriesPass(s)
    ensures forall id <- IdsIn(s, false) :: s.info[id].refCount > 0
  {
    forall id <- IdsIn(s, false)
      ensures s.info[id].refCount > 0
    {
      assert EntryPasses(s, id);
    }
  }

  method CheckAddrman(env: Env, key: nat, s: State) returns (code: int)
    requires Shapes(s)
    ensures code == 0 <==> CheckPasses(env, key, s)
  {
    hide EntriesPass, TriedOk, NewPasses, CountsPass, Gathered, IdsIn, NetworksOf;
    if |s.random| != s.nTried + s.nNew {
      return -7;
    }
    var bad, tried, refs, local := CheckEntries(env, s);
    if bad != 0 {
      return bad;
    }
    GatheredAll(env, s, tried, refs, local);
    EntriesReferenced(s);
    IdsSplit(s);
    if |tried| != s.nTried {
      return -9;
    }
    if |refs| != s.nNew {
      return -10;
    }
    var left, owed;
    bad, left := CheckTried(env, s, tried);
    if bad != 0 {
      return bad;
    }
    bad, owed := CheckNew(env, s, refs);
    if bad != 0 {
      return bad;
    }
    if |left| != 0 {
      return -13;
    }
    if |owed| != 0 {
      return -15;
    }
    if key == 0 {
      return -16;
    }
    code := CheckCounts(env, s, local);
  }

  lemma {:induction false} IdsSplit(s: State)
    ensures forall id :: id in s.info <==> id in IdsIn(s, false) || id in IdsIn(s, true)
  {
  }

  // ----- The check and consistency ------------------------------------------------------

  /** An address index without stale entries; the check does not look for them. */
  predicate NoStaleAddress(s: State) {
    forall a <- s.addrs :: s.addrs[a] in s.info && s.info[s.addrs[a]].addr == a
  }

  /** Every known network has a counter; the check only compares how many. */
  predicate NetworksCounted(env: Env, s: State) {
    NetworksOf(env, s) <= s.counts.Keys
  }

  predicate RandomIndexed(s: State) {
    forall id <- s.info :: 0 <= s.info[id].randomPos < |s.random| && s.random[s.info[id].randomPos] == id
  }

  lemma {:induction false} EntriesExact(s: State)
    ensures EntriesPass(s) && NoStaleAddress(s) <==> EntriesOk(s, {}) && TimesOk(s) && AddrsOk(s) && RandomIndexed(s)
  {
    if EntriesPass(s) && NoStaleAddress(s) {
      assert forall id <- s.info :: EntryPasses(s, id);
    }
    if EntriesOk(s, {}) && TimesOk(s) && AddrsOk(s) && RandomIndexed(s) {
      forall id <- s.info
        ensures EntryPasses(s, id)
      {
      }
    }
  }

  function Range(n: nat): (r: set<int>)
    ensures |r| == n && forall i :: i in r <==> 0 <= i < n
  {
    if n == 0 then {} else Range(n - 1) + {n - 1}
  }

  /** As many distinct positions as places fill them all. */
  lemma {:induction false} Pigeonhole(places: set<int>, n: nat)
    requires |places| == n && forall i <- places :: 0 <= i < n
    ensures forall i :: 0 <= i < n ==> i in places
  {
    assert places <= Range(n);
    assert Range(n) == places + (Range(n) - places);
    assert Range(n) - places == {};
  }

  lemma {:induction false} Positions(s: State, ids: set<int>)
    requires ids <= s.info.Keys && RandomIndexed(s)
    ensures |set id | id in ids :: s.info[id].randomPos| == |ids|
    decreases |ids|
  {
    var places := set id | id in ids :: s.info[id].randomPos;
    if ids == {} {
      assert places == {};
    } else {
      assert (forall x :: x !in ids) ==> ids == {};
      var one :| one in ids;
      var rest := ids - {one};
      Positions(s, rest);
      var was := set id | id in rest :: s.info[id].randomPos;
      assert places == was + {s.info[one].randomPos};
      assert s.info[one].randomPos !in was;
    }
  }

  lemma {:induction false} RandomFilled(s: State)
    requires RandomIndexed(s) && |s.random| == |s.info.Keys|
    ensures RandomOk(s)
  {
    var places := set id | id in s.info.Keys :: s.info[id].randomPos;
    Positions(s, s.info.Keys);
    Pigeonhole(places, |s.random|);
    forall i | 0 <= i < |s.random|
      ensures s.random[i] in s.info && s.info[s.random[i]].randomPos == i
    {
      assert i in places;
    }
  }

  lemma {:induction false} PlaceListed(s: State, i: int)
    requires RandomOk(s)
    ensures RandomIndexed(s)
    ensures 0 <= i < |s.random| ==> exists id :: id in s.info.Keys && s.info[id].randomPos == i
  {
    if 0 <= i < |s.random| {
      var id := s.random[i];
      assert id in s.info.Keys && s.info[id].randomPos == i;
    }
  }

  lemma {:induction false} RandomSize(s: State)
    requires RandomOk(s)
    ensures |s.random| == |s.info.Keys|
  {
    hide RandomOk;
    PlaceListed(s, 0);
    var places := set id | id in s.info.Keys :: s.info[id].randomPos;
    Positions(s, s.info.Keys);
    forall i | 0 <= i < |s.random|
      ensures i in places
    {
      PlaceListed(s, i);
    }
    assert forall i :: i in places <==> i in Range(|s.random|);
    assert places == Range(|s.random|);
  }

  lemma {:induction false} RandomExact(s: State)
    ensures RandomOk(s) <==> RandomIndexed(s) && |s.random| == |s.info.Keys|
  {
    hide RandomOk;
    if RandomOk(s) {
      PlaceListed(s, 0);
      RandomSize(s);
    }
    if RandomIndexed(s) && |s.random| == |s.info.Keys| {
      RandomFilled(s);
    }
  }

  lemma {:induction false} SplitSizes(s: State)
    ensures |IdsIn(s, false)| + |IdsIn(s, true)| == |s.info.Keys|
  {
    assert s.info.Keys == IdsIn(s, false) + IdsIn(s, true);
    assert IdsIn(s, false) * IdsIn(s, true) == {};
  }

  lemma {:induction false} RefsExact(env: Env, s: State)
    requires Shapes(s) && SlotsOk(env, s) && EntriesOk(s, {}) && -1 !in s.info
    ensures RefsOk(env, s) <==> forall id <- IdsIn(s, false) :: s.info[id].refCount == |BucketsOf(env, s, id)|
  {
    forall id <- s.info | s.info[id].inTried
      ensures s.info[id].refCount == |BucketsOf(env, s, id)|
    {
      assert BucketsOf(env, s, id) == {};
    }
  }

  lemma {:induction false} CountsExact(env: Env, s: State)
    ensures CountsOk(env, s, {}) <==>
            && s.nNew == |IdsIn(s, false)| && s.nTried == |IdsIn(s, true)|
            && CountsPass(env, s) && NetworksCounted(env, s)
  {
    assert IdsIn(s, false) - {} == IdsIn(s, false);
    assert forall net: Network :: IdsOfNetwork(env, s, false, net) - {} == IdsOfNetwork(env, s, false, net);
    if CountsOk(env, s, {}) {
      forall net <- NetworksOf(env, s)
        ensures net in s.counts
      {
        NetworkSeen(env, s, net);
        assert CountOf(s, net) == NetworkCount(env, s, net);
      }
      forall net <- s.counts
        ensures s.counts[net] == NetworkCount(env, s, net)
      {
        assert CountOf(s, net) == NetworkCount(env, s, net);
      }
      Smaller(NetworksOf(env, s), s.counts.Keys);
    }
    if CountsPass(env, s) && NetworksCounted(env, s) {
      forall net: Network
        ensures CountOf(s, net) == NetworkCount(env, s, net)
      {
        NetworkSeen(env, s, net);
      }
    }
  }

  lemma {:induction false} NetworkSeen(env: Env, s: State, net: Network)
    ensures net in NetworksOf(env, s) <==> NetworkCount(env, s, net) != Count(0, 0)
  {
    if net in NetworksOf(env, s) {
      var id :| id in s.info && env.network(s.info[id].addr) == net;
      assert id in IdsOfNetwork(env, s, s.info[id].inTried, net);
    } else {
      forall tried: bool
        ensures IdsOfNetwork(env, s, tried, net) == {}
      {
        assert forall id <- s.info :: env.network(s.info[id].addr) in NetworksOf(env, s);
      }
    }
  }

  /** What the check accepts is consistency of the indexes and times, but for stale
      addresses and missing counters. */
  lemma {:induction false} CheckExact(env: Env, key: nat, s: State)
    requires Shapes(s) && IdsOk(s)
    ensures Sound(env, s, {}, {}) && TimesOk(s) && key != 0 <==>
            CheckPasses(env, key, s) && NoStaleAddress(s) && NetworksCounted(env, s)
  {
    hide TriedOk, SlotsOk, RefsOk, BucketsOf, IdsIn, NetworksCounted, CountsOk, CountsPass, RandomOk, RandomIndexed, EntriesOk, TimesOk,
      EntriesPass, AddrsOk, NoStaleAddress;
    NoId(s);
    EntriesExact(s);
    if SlotsOk(env, s) && EntriesOk(s, {}) {
      RefsExact(env, s);
    }
    CountsExact(env, s);
    RandomExact(s);
    SplitSizes(s);
  }

  /** In a state with sound indexes, as the operations leave it, only the times and
      the key decide. */
  lemma {:induction false} SoundPasses(env: Env, key: nat, s: State)
    requires Sound(env, s, {}, {})
    ensures CheckPasses(env, key, s) <==> TimesOk(s) && key != 0
  {
    hide TriedOk, NewOk, CountsOk, RandomOk, EntriesOk, TimesOk, CheckPasses, IdsOk, CountsPass, NetworksCounted;
    CheckExact(env, key, s);
    CountsExact(env, s);
  }

  // ----- What the check does not see -----------------------------------------------------

  /** A manager that knows one new address, in one bucket. */
  function OneEntry(env: Env): State {
    var s := Create(env, EmptyState(), Address(7, 0, {}), 0);
    Link(s, 0, env.Position(true, 0, 7), 0)
  }

  lemma {:induction false} OneEntryConsistent(env: Env)
    ensures Sound(env, OneEntry(env), {}, {}) && OneEntry(env).info.Keys == {0} && OneEntry(env).info[0].addr == 7
  {
    hide TriedOk, NewOk, CountsOk, RandomOk, EntriesOk, AddrsOk, IdsOk, CollisionsOk;
    EmptyConsistent(env);
    CreateKeeps(env, EmptyState(), Address(7, 0, {}), 0);
    LinkKeeps(env, Create(env, EmptyState(), Address(7, 0, {}), 0), 0, 0, {0}, {});
    assert {0} - {0} == {};
  }

  lemma {:induction false} CheckIgnores(env: Env, s: State, t: State)
    requires Shapes(s) && CheckPasses(env, 1, s) && t == s.(addrs := t.addrs, counts := t.counts)
    requires (forall a <- s.addrs :: a in t.addrs && t.addrs[a] == s.addrs[a]) && CountsPass(env, t)
    ensures CheckPasses(env, 1, t)
  {
    hide CountsPass;
    forall id <- t.info
      ensures EntryPasses(t, id)
    {
      assert EntryPasses(s, id);
    }
    assert TriedOk(env, t);
    assert IdsIn(t, true) == IdsIn(s, true) && IdsIn(t, false) == IdsIn(s, false);
    forall id <- IdsIn(t, false)
      ensures t.info[id].refCount == |BucketsOf(env, t, id)|
    {
      assert BucketsOf(env, t, id) == BucketsOf(env, s, id);
    }
  }

  /** The only network's counter can be replaced by an empty one of another. */
  lemma {:induction false} CheckMissesCounter(env: Env)
    ensures var s := OneEntry(env);
            var t := s.(counts := map[env.network(7) + 1 := Count(0, 0)]);
            CheckPasses(env, 1, t) && !CountsOk(env, t, {})
  {
    hide TriedOk, NewOk, NewPasses, CountsOk, RandomOk, EntriesOk, EntriesPass, AddrsOk, IdsOk;
    var s := OneEntry(env);
    OneEntryConsistent(env);
    CheckExact(env, 1, s);
    var t := s.(counts := map[env.network(7) + 1 := Count(0, 0)]);
    assert NetworksOf(env, t) == {env.network(7)};
    NetworkSeen(env, t, env.network(7) + 1);
    CheckIgnores(env, s, t);
    CountsExact(env, t);
  }

  /** An address can be left in the index after its entry is gone. */
  lemma {:induction false} CheckMissesStaleAddress(env: Env)
    ensures var s := OneEntry(env);
            var t := s.(addrs := s.addrs[8 := 1]);
            CheckPasses(env, 1, t) && !AddrsOk(t)
  {
    hide TriedOk, NewOk, NewPasses, CountsOk, RandomOk, EntriesOk, EntriesPass, IdsOk;
    var s := OneEntry(env);
    OneEntryConsistent(env);
    CheckExact(env, 1, s);
    var t := s.(addrs := s.addrs[8 := 1]);
    SameNetworks(env, s, t);
    CheckIgnores(env, s, t);
    assert 8 in t.addrs && t.addrs[8] !in t.info;
  }

  lemma {:induction false} SameNetworks(env: Env, s: State, t: State)
    requires CountsPass(env, s) && t == s.(addrs := t.addrs)
    ensures CountsPass(env, t)
  {
    assert NetworksOf(env, t) == NetworksOf(env, s);
    forall net <- t.counts
      ensures t.counts[net] == NetworkCount(env, t, net)
    {
      assert IdsOfNetwork(env, t, false, net) == IdsOfNetwork(env, s, false, net);
      assert IdsOfNetwork(env, t, true, net) == IdsOfNetwork(env, s, true, net);
    }
  }
}
