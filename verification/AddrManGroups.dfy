/** How far one network group reaches: the addresses of a group share few tried buckets,
    and the announcements of a source group touch few new buckets. */
module AddrManGroups {
  import opened AddrMan
  import opened AddrManKeeps
  import opened AddrManEntry
  import opened AddrManTimes
  import opened AddrManEviction

  // ----- Counting ---------------------------------------------------------------------

  lemma {:induction false} CountUpTo(n: nat, xs: set<nat>)
    requires forall x <- xs :: x < n
    ensures |xs| <= n
  {
    if n == 0 {
      assert xs == {};
    } else {
      var rest := xs - {n - 1};
      CountUpTo(n - 1, rest);
      assert xs <= rest + {n - 1};
      Smaller(xs, rest + {n - 1});
    }
  }

  lemma {:induction false} Smaller<T>(xs: set<T>, ys: set<T>)
    requires xs <= ys
    ensures |xs| <= |ys|
  {
    assert ys == xs + (ys - xs);
  }

  /** The values of a hash of the first `n` numbers, within `m` buckets. */
  function Spread(h: nat -> nat, n: nat, m: nat): (xs: set<nat>)
    requires m > 0
    ensures |xs| <= n && forall i: nat :: i < n ==> h(i) % m in xs
    ensures forall x <- xs :: x < m
  {
    if n == 0 then {} else Spread(h, n - 1, m) + {h(n - 1) % m}
  }

  /** Ids that lie in few buckets, and in each bucket at most one for every slot, are few. */
  lemma {:induction false} FewIds(table: Table, buckets: set<nat>, ids: set<int>)
    requires Shape(table, TRIED_BUCKET_COUNT) && forall b <- buckets :: b < TRIED_BUCKET_COUNT
    requires forall id <- ids :: exists b <- buckets :: id in table[b]
    ensures |ids| <= |buckets| * BUCKET_SIZE
    decreases |buckets|
  {
    if buckets == {} {
      assert forall id :: id !in ids;
      assert ids == {};
    } else {
      var b :| b in buckets;
      var here := set id <- ids | id in table[b];
      InOneRow(table[b], here);
      forall id <- ids - here
        ensures exists c <- buckets - {b} :: id in table[c]
      {
        var c :| c in buckets && id in table[c];
      }
      FewIds(table, buckets - {b}, ids - here);
      assert ids == (ids - here) + here;
    }
  }

  lemma {:induction false} InOneRow(row: seq<int>, ids: set<int>)
    requires forall id <- ids :: id in row
    ensures |ids| <= |row|
  {
    if row == [] {
      assert forall id :: id !in ids;
      assert ids == {};
    } else {
      var n := |row| - 1;
      InOneRow(row[..n], ids - {row[n]});
      Smaller(ids, (ids - {row[n]}) + {row[n]});
    }
  }

  // ----- Tried addresses of a group --------------------------------------------------------

  function TriedBucketsOf(env: Env, g: Group): (buckets: set<nat>)
    ensures |buckets| <= TRIED_BUCKETS_PER_GROUP && forall b <- buckets :: b < TRIED_BUCKET_COUNT
  {
    Spread((i: nat) => env.groupHash(g, i), TRIED_BUCKETS_PER_GROUP, TRIED_BUCKET_COUNT)
  }

  function TriedOf(env: Env, s: State, g: Group): set<int> {
    set id | id in s.info && s.info[id].inTried && env.group(env.netAddr(s.info[id].addr)) == g
  }

  /** The tried addresses of one group lie in eight buckets at most, so there are never
      more than 512 of them. */
  lemma {:induction false} TriedPerGroup(env: Env, s: State, g: Group)
    requires Consistent(env, s)
    ensures forall id <- TriedOf(env, s, g) :: env.TriedBucket(s.info[id].addr) in TriedBucketsOf(env, g)
    ensures |TriedOf(env, s, g)| <= 8 * 64
  {
    hide NewOk, CountsOk, AddrsOk, RandomOk, EntriesOk, IdsOk, CollisionsOk;
    var ids := TriedOf(env, s, g);
    var buckets := TriedBucketsOf(env, g);
    forall id <- ids
      ensures env.TriedBucket(s.info[id].addr) in buckets && id in s.tried[env.TriedBucket(s.info[id].addr)]
    {
      TriedBucketWithin(env, s.info[id].addr);
      assert TriedAt(env, s, s.info[id].addr) == id;
    }
    FewIds(s.tried, buckets, ids);
  }

  lemma {:induction false} TriedBucketWithin(env: Env, a: Service)
    ensures env.TriedBucket(a) in TriedBucketsOf(env, env.group(env.netAddr(a)))
  {
    var g := env.group(env.netAddr(a));
    var h := (i: nat) => env.groupHash(g, i);
    assert h(env.addressHash(a) % TRIED_BUCKETS_PER_GROUP) % TRIED_BUCKET_COUNT == env.TriedBucket(a);
  }

  // ----- Announcements of a source group ------------------------------------------------------

  function SourceBuckets(env: Env, g: Group): (buckets: set<nat>)
    ensures |buckets| <= 64 && forall b <- buckets :: b < NEW_BUCKET_COUNT
  {
    Spread((i: nat) => env.groupHash(g, i), NEW_BUCKETS_PER_SOURCE_GROUP, NEW_BUCKET_COUNT)
  }

  lemma {:induction false} NewBucketWithin(env: Env, a: Service, source: NetAddr)
    ensures env.NewBucket(a, source) in SourceBuckets(env, env.group(source))
  {
    var g := env.group(source);
    var h := (i: nat) => env.groupHash(g, i);
    var spread := env.pairHash(env.group(env.netAddr(a)), g) % NEW_BUCKETS_PER_SOURCE_GROUP;
    assert h(spread) % NEW_BUCKET_COUNT == env.NewBucket(a, source);
  }

  /** One announcement changes at most the one slot of its bucket. */
  lemma {:induction false} AnnounceOneBucket(env: Env, s: State, t: State, a: Address, source: NetAddr, penalty: int, now: int,
                                             later: int, roll: nat, inserted: bool, c: nat)
    requires Shapes(s) && AddResult(env, s, t, a, source, penalty, now, later, roll, inserted)
    requires c < NEW_BUCKET_COUNT && c != env.NewBucket(a.service, source)
    ensures c < |t.news| && t.news[c] == s.news[c]
  {
    hide GivesWay, WorthEntering, Refreshed, OthersKept;
  }

  /** Over a run of announcements that all come from one source group, at most 64 of the
      1024 new buckets change, and no tried slot does. */
  lemma {:induction false} AnnouncementsContained(env: Env, states: seq<State>, ops: seq<Op>, g: Group, c: nat)
    requires IsRun(env, states, ops) && forall op <- ops :: op.Announce? && env.group(op.source) == g
    requires c < NEW_BUCKET_COUNT && c !in SourceBuckets(env, g)
    ensures Shapes(states[0]) && Shapes(states[|ops|]) && states[|ops|].news[c] == states[0].news[c]
    ensures states[|ops|].tried == states[0].tried
  {
    hide Sound, CollisionsOk, Shapes, AddResult, SourceBuckets;
    ConsistentShapes(env, states[0]);
    ConsistentShapes(env, states[|ops|]);
    if ops == [] {
      ShapedNews(states[0], c);
    } else {
      var n := |ops| - 1;
      AnnouncementsContained(env, states[..n + 1], ops[..n], g, c);
      var op := ops[n];
      assert op in ops;
      var inserted :|
        AddResult(env, states[n], states[n + 1], op.addr, op.source, op.penalty, op.now, op.later, op.roll, inserted);
      NewBucketWithin(env, op.addr.service, op.source);
      ConsistentShapes(env, states[n]);
      ShapedNews(states[n + 1], c);
      AnnounceOneBucket(env, states[n], states[n + 1], op.addr, op.source, op.penalty, op.now, op.later, op.roll, inserted, c);
      AnnouncedTried(env, states[n], states[n + 1], op.addr, op.source, op.penalty, op.now, op.later, op.roll, inserted);
    }
  }

  lemma {:induction false} ShapedNews(s: State, c: nat)
    requires Shapes(s) && c < NEW_BUCKET_COUNT
    ensures c < |s.news|
  {
  }
}
