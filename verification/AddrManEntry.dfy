/** The operations of the address manager on one entry: what an announcement, a
    success and a failure do, as relations between states. */
module AddrManEntry {
  import opened Bits
  import opened Integers
  import opened Wrappers
  import opened AddrMan
  import opened AddrManKeeps
  import opened AddrManMove
  import opened AddrManTried

  const HOUR := 3600

  lemma {:induction false} Found(s: State, a: Service)
    requires AddrsOk(s)
    ensures match Find(s, a) case Some(id) => s.info[id].addr == a case None => a !in s.addrs
  {
  }

  // ----- Entries that stay where they are ----------------------------------------

  function Revise(s: State, id: int, e: Info): State {
    s.(info := s.info[id := e])
  }

  predicate Stays(e: Info, f: Info) {
    f == e.(time := f.time, services := f.services, lastTry := f.lastTry, lastCountAttempt := f.lastCountAttempt,
            lastSuccess := f.lastSuccess, attempts := f.attempts)
  }

  lemma {:induction false} ReviseKeeps(env: Env, s: State, id: int, e: Info, loose: set<int>)
    requires Sound(env, s, loose, {}) && id in s.info && Stays(s.info[id], e)
    ensures Sound(env, Revise(s, id, e), loose, {}) && Evolves(s, Revise(s, id, e))
  {
    hide TriedOk, NewOk, CountsOk, AddrsOk, IdsOk, Evolves;
    var t := Revise(s, id, e);
    assert SameIndexes(s, t);
    assert t.random == s.random;
    assert RandomOk(t) by {
      ReviseRandom(s, id, e);
    }
    assert EntriesOk(t, loose);
    Reframe(env, s, t, loose, {});
    SameEvolves(s, t);
  }

  lemma {:induction false} ReviseRandom(s: State, id: int, e: Info)
    requires RandomOk(s) && id in s.info && Stays(s.info[id], e)
    ensures RandomOk(Revise(s, id, e))
  {
  }

  lemma {:induction false} SameEvolves(s: State, t: State)
    requires Shapes(s) && Shapes(t) && SameIndexes(s, t)
    ensures Evolves(s, t)
  {
  }

  lemma {:induction false} EvolvesReflexive(s: State)
    requires Shapes(s)
    ensures Evolves(s, s)
  {
  }

  lemma {:induction false} ConsistentShapes(env: Env, s: State)
    requires Consistent(env, s)
    ensures Shapes(s)
  {
  }

  lemma {:induction false} EvolvesTransitive(s: State, t: State, u: State)
    requires Shapes(s) && Shapes(t) && Shapes(u) && Evolves(s, t) && Evolves(t, u)
    ensures Evolves(s, u)
  {
  }

  /** Recorded collisions stay with occupied slots: ids are not reused and a slot is
      never emptied. */
  lemma {:induction false} CollisionsEvolve(env: Env, s: State, t: State)
    requires Shapes(s) && Shapes(t) && Evolves(s, t) && CollisionsOk(env, s) && t.collisions <= s.collisions
    ensures CollisionsOk(env, t)
  {
    forall id <- t.collisions
      ensures id < t.idCount && (id in t.info ==> TriedAt(env, t, t.info[id].addr) != -1)
    {
      if id in t.info {
        assert TriedAt(env, s, s.info[id].addr) != -1;
      }
    }
  }

  lemma {:induction false} KeptEvolves(s: State, t: State, lost: int, b: nat, p: nat, id: int)
    requires Shapes(s) && Shapes(t) && Kept(s, t, lost) && b < TRIED_BUCKET_COUNT && p < BUCKET_SIZE && id != -1
    requires t.tried == Put(s.tried, b, p, id)
    ensures Evolves(s, t)
  {
    forall x <- t.info
      ensures x in s.info && t.info[x].addr == s.info[x].addr
    {
      assert Record(t.info[x]) == Record(s.info[x]);
    }
  }

  /** The time of the last success and the collisions are in no index. */
  lemma {:induction false} NotesKeep(env: Env, s: State, t: State)
    requires Sound(env, s, {}, {}) && t == s.(lastGood := t.lastGood, collisions := t.collisions)
    ensures Sound(env, t, {}, {}) && Evolves(s, t)
  {
    hide TriedOk, NewOk, AddrsOk, IdsOk, CountsOk;
    assert SameIndexes(s, t);
    Reframe(env, s, t, {}, {});
  }

  lemma {:induction false} KeptCollisions(s: State, t: State, lost: int)
    requires Kept(s, t, lost)
    ensures t.collisions == s.collisions && t.lastGood == s.lastGood
  {
  }

  lemma {:induction false} CollisionAdded(env: Env, s: State, id: int)
    requires Consistent(env, s) && id in s.info && TriedAt(env, s, s.info[id].addr) != -1
    ensures var t := s.(collisions := s.collisions + {id}); Consistent(env, t) && Evolves(s, t)
  {
    hide TriedOk, NewOk, AddrsOk, EntriesOk, CountsOk, RandomOk;
    NotesKeep(env, s, s.(collisions := s.collisions + {id}));
  }

  // ----- Success --------------------------------------------------------------------

  function Succeeded(e: Info, time: int): Info {
    e.(lastSuccess := time, lastTry := time, attempts := 0)
  }

  /** What a success does: an unknown address only sets the time, a tried one is
      updated, a new one is recorded as colliding or becomes tried. */
  ghost predicate GoodResult(env: Env, s: State, t: State, a: Service, testBeforeEvict: bool, time: int, moved: bool, lost: int)
    requires Shapes(s)
  {
    match Find(s, a)
    case None => !moved && t == s.(lastGood := time)
    case Some(id) =>
      var u := Revise(s, id, Succeeded(s.info[id], time)).(lastGood := time);
      var slot := TriedAt(env, s, a);
      if s.info[id].inTried then !moved && t == u
      else if testBeforeEvict && slot != -1 then
        !moved && t == u.(collisions := if |s.collisions| < TRIED_COLLISION_SIZE then s.collisions + {id} else s.collisions)
      else moved && MadeTried(env, u, t, id, lost)
  }

  // ----- Failure ----------------------------------------------------------------------

  function Attempted(e: Info, countFailure: bool, time: int, lastGood: int): Info {
    if countFailure && e.lastCountAttempt < lastGood
    then e.(lastTry := time, lastCountAttempt := time, attempts := e.attempts + 1)
    else e.(lastTry := time)
  }

  // ----- Announcements ----------------------------------------------------------------

  function Penalty(env: Env, a: Address, source: NetAddr, penalty: int): int {
    if env.netAddr(a.service) == source then 0 else penalty
  }

  function Refreshed(e: Info, a: Address, penalty: int, now: int): Info {
    var interval := if now - a.time < 24 * HOUR then HOUR else 24 * HOUR;
    var f := if e.time < a.time - interval - penalty then e.(time := Max(0, a.time - penalty)) else e;
    f.(services := f.services + a.services)
  }

  /** A known address gets another bucket only for news about a new entry with
      references to spare, with odds that halve with each. */
  predicate WorthEntering(e: Info, a: Address, roll: nat) {
    && a.time > e.time && !e.inTried && e.refCount != NEW_BUCKETS_PER_ADDRESS
    && (e.refCount <= 0 || roll % Pow2(e.refCount) == 0)
  }

  function Newcomer(env: Env, s: State, a: Address, source: NetAddr, penalty: int): State {
    var t := Create(env, s, a, source);
    Revise(t, s.idCount, t.info[s.idCount].(time := Max(0, a.time - penalty)))
  }

  /** An entry in a new slot gives way to another. */
  predicate GivesWay(e: Info, newcomer: Info, now: int) {
    e.IsTerrible(now) || (e.refCount > 1 && newcomer.refCount == 0)
  }

  /** One more reference for `id`, in a slot whose occupant lost one. */
  ghost predicate Entered(s: State, t: State, b: nat, p: nat, id: int)
    requires Shapes(s) && b < NEW_BUCKET_COUNT && p < BUCKET_SIZE && id in s.info
  {
    && t.news == Put(s.news, b, p, id)
    && OthersKept(Revise(s, id, s.info[id].(refCount := s.info[id].refCount + 1)), t, s.news[b][p])
  }

  ghost predicate EnterResult(env: Env, s: State, t: State, b: nat, id: int, now: int, inserted: bool)
    requires Shapes(s) && b < NEW_BUCKET_COUNT && id in s.info
  {
    var p := env.Position(true, b, s.info[id].addr);
    var slot := s.news[b][p];
    if slot == id then !inserted && t == s
    else if slot == -1 || (slot in s.info && GivesWay(s.info[slot], s.info[id], now)) then
      inserted && Entered(s, t, b, p, id)
    else !inserted && if s.info[id].refCount > 0 then t == s else Deletable(s, id) && t == Delete(env, s, id)
  }

  ghost predicate AddResult(env: Env, s: State, t: State, a: Address, source: NetAddr, penalty: int, now: int, later: int,
                            roll: nat, inserted: bool)
    requires Shapes(s)
  {
    if !env.routable(a.service) then !inserted && t == s
    else
      var cost := Penalty(env, a, source, penalty);
      var b := env.NewBucket(a.service, source);
      match Find(s, a.service)
      case Some(id) =>
        var u := Revise(s, id, Refreshed(s.info[id], a, cost, now));
        if WorthEntering(u.info[id], a, roll) then EnterResult(env, u, t, b, id, later, inserted)
        else !inserted && t == u
      case None => EnterResult(env, Newcomer(env, s, a, source, cost), t, b, s.idCount, later, inserted)
  }

  lemma {:induction false} NewcomerFacts(env: Env, s: State, loose: set<int>, id: int)
    requires Sound(env, s, loose, {}) && id in s.info && !s.info[id].inTried
    ensures id != -1 && 0 <= s.info[id].refCount <= NEW_BUCKETS_PER_ADDRESS && (id !in loose ==> s.info[id].refCount > 0)
  {
    hide TriedOk, SlotsOk, CountsOk, AddrsOk, RandomOk;
    assert s.info[id].refCount == |BucketsOf(env, s, id)|;
  }

  lemma {:induction false} NewSlotFacts(env: Env, s: State, b: nat, p: nat)
    requires Shapes(s) && SlotsOk(env, s) && RefsOk(env, s) && b < NEW_BUCKET_COUNT && p < BUCKET_SIZE
    ensures s.news[b][p] != -1 ==> s.news[b][p] in s.info
  {
  }

  /** Clearing a slot leaves an entry that is not in it as it was. */
  lemma {:induction false} ClearedFacts(s: State, u: State, b: nat, p: nat, id: int)
    requires Shapes(s) && Shapes(u) && b < NEW_BUCKET_COUNT && p < BUCKET_SIZE && id in s.info && s.news[b][p] != id
    requires if s.news[b][p] == -1 then u == s else u.news == Put(s.news, b, p, -1) && OthersKept(s, u, s.news[b][p])
    ensures u.news == Put(s.news, b, p, -1) && Evolves(s, u) && u.collisions == s.collisions
    ensures id in u.info && u.info[id].(randomPos := 0) == s.info[id].(randomPos := 0)
  {
    if s.news[b][p] == -1 {
      assert s.news[b] == s.news[b][p := -1];
      assert s.news == s.news[b := s.news[b]];
    } else {
      OthersKeptEvolves(s, u, s.news[b][p]);
    }
  }

  lemma {:induction false} RefsEvolve(s: State, u: State, t: State)
    requires Shapes(s) && Shapes(u) && Shapes(t) && Evolves(s, u) && SameButRefs(u, t)
    ensures Evolves(s, t)
  {
    forall x <- u.info
      ensures t.info[x].addr == u.info[x].addr
    {
      assert t.info[x].(refCount := 0) == u.info[x].(refCount := 0);
    }
  }

  lemma {:induction false} Settled(env: Env, s: State, id: int)
    requires Sound(env, s, {id}, {}) && id in s.info && s.info[id].refCount > 0
    ensures Sound(env, s, {}, {}) && Evolves(s, s)
  {
    hide TriedOk, NewOk, CountsOk, AddrsOk, RandomOk;
  }

  /** Clearing a slot and then entering an entry gives it one more reference. */
  lemma {:induction false} EnteredBy(s: State, u: State, t: State, b: nat, p: nat, id: int)
    requires Shapes(s) && Shapes(u) && b < NEW_BUCKET_COUNT && p < BUCKET_SIZE && id in s.info && id in u.info
    requires s.news[b][p] != id && u.news == Put(s.news, b, p, -1) && (u == s || OthersKept(s, u, s.news[b][p]))
    requires t == Link(u, b, p, id)
    ensures Entered(s, t, b, p, id)
  {
    hide OthersKept;
    PutTwice(s.news, b, p, -1, id);
    EnteredInfo(s, u, t, s.news[b][p], id);
  }

  lemma {:induction false} EnteredInfo(s: State, u: State, t: State, slot: int, id: int)
    requires slot != id && id in s.info && id in u.info && (u == s || OthersKept(s, u, slot))
    requires t == u.(info := u.info[id := u.info[id].(refCount := u.info[id].refCount + 1)], news := t.news)
    ensures OthersKept(Revise(s, id, s.info[id].(refCount := s.info[id].refCount + 1)), t, slot)
  {
    var v := Revise(s, id, s.info[id].(refCount := s.info[id].refCount + 1));
    forall x <- v.info | x != slot
      ensures x in t.info && t.info[x].(randomPos := 0) == v.info[x].(randomPos := 0)
    {
      assert x in u.info && u.info[x].(randomPos := 0) == s.info[x].(randomPos := 0);
    }
    forall x <- t.info
      ensures x in v.info && Record(t.info[x]) == Record(v.info[x])
    {
      assert x in u.info && Record(u.info[x]) == Record(s.info[x]);
    }
  }

  /** The states between announced addresses, all of them consistent. */
  ghost predicate AddSteps(env: Env, steps: seq<State>, addrs: seq<Address>, source: NetAddr, penalty: int,
                           clock: nat -> int, later: nat -> int, rolls: nat -> nat, flags: seq<bool>)
  {
    && |steps| == |addrs| + 1 && |flags| == |addrs| && Consistent(env, steps[|addrs|])
    && (addrs != [] ==>
          var n := |addrs| - 1;
          && Shapes(steps[n])
          && AddResult(env, steps[n], steps[n + 1], addrs[n], source, penalty, clock(n), later(n), rolls(n), flags[n])
          && AddSteps(env, steps[..n + 1], addrs[..n], source, penalty, clock, later, rolls, flags[..n]))
  }

  lemma {:induction false} NoSteps(env: Env, s: State, source: NetAddr, penalty: int, clock: nat -> int, later: nat -> int, rolls: nat -> nat)
    requires Consistent(env, s)
    ensures AddSteps(env, [s], [], source, penalty, clock, later, rolls, [])
  {
  }

  lemma {:induction false} StepsShape(env: Env, steps: seq<State>, addrs: seq<Address>, source: NetAddr, penalty: int,
                                      clock: nat -> int, later: nat -> int, rolls: nat -> nat, flags: seq<bool>)
    requires AddSteps(env, steps, addrs, source, penalty, clock, later, rolls, flags)
    ensures |steps| == |addrs| + 1 && |flags| == |addrs|
  {
    hide AddResult, Consistent;
  }

  lemma {:induction false} AddStepsMore(env: Env, steps: seq<State>, addrs: seq<Address>, n: nat, source: NetAddr, penalty: int,
                                        clock: nat -> int, later: nat -> int, rolls: nat -> nat, flags: seq<bool>, t: State, inserted: bool)
    requires n < |addrs| && AddSteps(env, steps, addrs[..n], source, penalty, clock, later, rolls, flags)
    requires |steps| == n + 1 && |flags| == n && Shapes(steps[n]) && Consistent(env, t)
    requires AddResult(env, steps[n], t, addrs[n], source, penalty, clock(n), later(n), rolls(n), inserted)
    ensures AddSteps(env, steps + [t], addrs[..n + 1], source, penalty, clock, later, rolls, flags + [inserted])
  {
    hide AddResult, Shapes, Consistent;
    assert (steps + [t])[..n + 1] == steps;
    assert addrs[..n + 1][..n] == addrs[..n];
    assert (flags + [inserted])[..n] == flags;
  }

  /** A newcomer that finds no place leaves no trace but a used id (and a counter
      for its network). */
  lemma {:induction false} RefusedNewcomer(env: Env, s: State, a: Address, source: NetAddr, penalty: int)
    requires Consistent(env, s) && a.service !in s.addrs
    ensures var t := Newcomer(env, s, a, source, penalty);
            && Deletable(t, s.idCount)
            && Delete(env, t, s.idCount) ==
               s.(idCount := s.idCount + 1, counts := s.counts[env.network(a.service) := CountOf(s, env.network(a.service))])
  {
    hide TriedOk, NewOk, CountsOk, EntriesOk, AddrsOk, RandomOk, Delete, AddCount, CountOf;
    var id := s.idCount;
    assert id !in s.info;
    var t := Newcomer(env, s, a, source, penalty);
    DeleteLast(env, t, id);
    CountBack(s, t, env.network(a.service));
    assert t.random[..|t.random| - 1] == s.random;
    assert t.addrs - {a.service} == s.addrs;
    assert t.info - {id} == s.info;
  }

  lemma {:induction false} DeleteLast(env: Env, s: State, id: int)
    requires Deletable(s, id) && s.info[id].randomPos == |s.random| - 1
    ensures var a := s.info[id].addr;
            Delete(env, s, id) == s.(counts := AddCount(s, env.network(a), -1, 0), random := s.random[..|s.random| - 1],
                                     addrs := s.addrs - {a}, info := s.info - {id}, nNew := s.nNew - 1)
  {
  }

  lemma {:induction false} CountBack(s: State, t: State, net: Network)
    requires t.counts == AddCount(s, net, 1, 0)
    ensures AddCount(t, net, -1, 0) == s.counts[net := CountOf(s, net)]
  {
  }

  /** A newcomer is sound but for its missing bucket. */
  lemma {:induction false} NewcomerKeeps(env: Env, s: State, a: Address, source: NetAddr, penalty: int)
    requires Sound(env, s, {}, {}) && a.service !in s.addrs
    ensures var t := Newcomer(env, s, a, source, penalty);
            && Sound(env, t, {s.idCount}, {}) && Evolves(s, t)
            && t.info[s.idCount].refCount == 0 && !t.info[s.idCount].inTried && t.collisions == s.collisions
  {
    hide TriedOk, NewOk, CountsOk, EntriesOk, AddrsOk, RandomOk, IdsOk, Evolves;
    CreateKeeps(env, s, a, source);
    var t := Create(env, s, a, source);
    var e := t.info[s.idCount].(time := Max(0, a.time - penalty));
    ReviseKeeps(env, t, s.idCount, e, {s.idCount});
    EvolvesTransitive(s, t, Revise(t, s.idCount, e));
  }
}
