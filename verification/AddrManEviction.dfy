/** Who keeps a place in the tried table: when an incumbent has to go, told by the times
    on record, for one collision, for a pass over all of them and over whole runs. */
module AddrManEviction {
  import opened Wrappers
  import opened AddrMan
  import opened AddrManKeeps
  import opened AddrManTried
  import opened AddrManEntry
  import opened AddrManCollisions
  import opened AddrManTimes

  /** The incumbent has had no success for four hours. It has been tried more than a
      minute ago without one, or there was no try and the newcomer has waited for more
      than forty minutes. */
  predicate MustGo(incumbent: Info, newcomer: Info, now: int) {
    && now - incumbent.lastSuccess >= 4 * 60 * 60
    && if now - incumbent.lastTry < 4 * 60 * 60 then now - incumbent.lastTry > 60
       else now - newcomer.lastSuccess > 40 * 60
  }

  /** The tried table but for the slot of one address. */
  predicate OtherSlotsKept(env: Env, s: State, t: State, a: Service)
    requires Shapes(s) && Shapes(t)
  {
    var b := env.TriedBucket(a);
    t.tried == Put(s.tried, b, env.Position(false, b, a), TriedAt(env, t, a))
  }

  /** What settles a collision of a known valid address with an incumbent: an incumbent
      that must go loses its slot to the address and becomes new again; one with a recent
      success keeps it and the collision is forgotten; else nothing changes yet. */
  ghost predicate SettledBy(env: Env, s: State, t: State, id: int, now: int)
    requires Shapes(s) && Shapes(t) && id in s.info && TriedAt(env, s, s.info[id].addr) in s.info
  {
    var a := s.info[id].addr;
    var slot := TriedAt(env, s, a);
    var incumbent := s.info[slot];
    var mustGo := MustGo(incumbent, s.info[id], now);
    var recent := now - incumbent.lastSuccess < 4 * 60 * 60;
    && (TriedAt(env, t, a) != slot <==> slot != id && mustGo)
    && (mustGo ==> TriedAt(env, t, a) == id && OtherSlotsKept(env, s, t, a))
    && (mustGo && slot != id ==> slot in t.info && !t.info[slot].inTried)
    && (recent ==> t == s.(collisions := s.collisions - {id}))
    && (!recent && !mustGo ==> t == s)
    && t.collisions == if recent || mustGo then s.collisions - {id} else s.collisions
  }

  lemma {:induction false} GoodMoves(env: Env, s: State, t: State, id: int, time: int, moved: bool, lost: int)
    requires Sound(env, s, {}, {}) && Sound(env, t, {}, {}) && id in s.info
    requires GoodResult(env, s, t, s.info[id].addr, false, time, moved, lost)
    ensures var a := s.info[id].addr;
            && TriedAt(env, t, a) == id && OtherSlotsKept(env, s, t, a) && t.collisions == s.collisions
            && (forall x <- s.info :: s.info[x].inTried ==>
                  x in t.info && t.info[x].addr == s.info[x].addr
                  && t.info[x].lastSuccess == if x == id then time else s.info[x].lastSuccess)
  {
    hide NewOk, CountsOk, RandomOk, EntriesOk, IdsOk, MovedNews;
    FoundAgain(s, id);
    var a := s.info[id].addr;
    var b := env.TriedBucket(a);
    var p := env.Position(false, b, a);
    if moved {
      forall x <- s.info | s.info[x].inTried
        ensures x in t.info && t.info[x].addr == s.info[x].addr
        ensures t.info[x].lastSuccess == if x == id then time else s.info[x].lastSuccess
      {
        var u := Revise(s, id, Succeeded(s.info[id], time)).(lastGood := time);
        assert u.info[x].inTried;
        assert Record(t.info[x]) == Record(u.info[x]);
      }
    } else {
      assert s.tried[b][p] == id && s.tried[b][p := id] == s.tried[b];
      assert Put(s.tried, b, p, id) == s.tried;
    }
  }

  /** The occupant of a slot belongs there, so it is tried only while it is there. */
  lemma {:induction false} OnlyThere(env: Env, s: State, t: State, a: Service)
    requires Sound(env, s, {}, {}) && Sound(env, t, {}, {})
    requires var x := TriedAt(env, s, a); x in s.info && x in t.info && t.info[x].addr == s.info[x].addr
    requires TriedAt(env, t, a) != TriedAt(env, s, a)
    ensures !t.info[TriedAt(env, s, a)].inTried
  {
    hide NewOk, CountsOk, RandomOk, EntriesOk, AddrsOk;
    var x := TriedAt(env, s, a);
    NoId(s);
    var b := env.TriedBucket(a);
    assert s.tried[b][env.Position(false, b, a)] == x;
    assert TriedAt(env, t, t.info[x].addr) == TriedAt(env, t, a);
  }

  lemma {:induction false} OccupantKnown(env: Env, s: State, a: Service)
    requires Consistent(env, s) && TriedAt(env, s, a) != -1
    ensures var x := TriedAt(env, s, a); x in s.info && s.info[x].inTried && TriedAt(env, s, s.info[x].addr) == x
  {
    hide NewOk, CountsOk, RandomOk, EntriesOk, AddrsOk, IdsOk, CollisionsOk;
    var b := env.TriedBucket(a);
    assert s.tried[b][env.Position(false, b, a)] != -1;
  }

  /** One collision, by the times on record. */
  lemma {:induction false} CollisionSettled(env: Env, s: State, t: State, id: int, now: int)
    requires Consistent(env, s) && Consistent(env, t) && Resolved(env, s, t, id, now)
    requires id in s.info && env.valid(s.info[id].addr) && TriedAt(env, s, s.info[id].addr) != -1
    ensures TriedAt(env, s, s.info[id].addr) in s.info && SettledBy(env, s, t, id, now)
  {
    hide NewOk, CountsOk, AddrsOk, RandomOk, EntriesOk, IdsOk, TriedOk, GoodResult, CollisionsOk;
    var a := s.info[id].addr;
    var slot := TriedAt(env, s, a);
    OccupantKnown(env, s, a);
    if MustGo(s.info[slot], s.info[id], now) {
      var u := t.(collisions := s.collisions);
      var moved, lost :| GoodResult(env, s, u, a, false, now, moved, lost);
      NotesKeep(env, t, u);
      GoodMoves(env, s, u, id, now, moved, lost);
      assert TriedAt(env, u, a) == TriedAt(env, t, a);
      if slot != id {
        OnlyThere(env, s, t, a);
      }
    }
  }

  /** An address that is unknown or no longer valid is only forgotten, and one whose slot
      is free takes it. */
  lemma {:induction false} CollisionGone(env: Env, s: State, t: State, id: int, now: int)
    requires Consistent(env, s) && Consistent(env, t) && Resolved(env, s, t, id, now)
    ensures id !in s.info || !env.valid(s.info[id].addr) ==> t == s.(collisions := s.collisions - {id})
    ensures id in s.info && env.valid(s.info[id].addr) && TriedAt(env, s, s.info[id].addr) == -1 ==>
              && TriedAt(env, t, s.info[id].addr) == id && OtherSlotsKept(env, s, t, s.info[id].addr)
              && t.collisions == s.collisions - {id}
  {
    hide NewOk, CountsOk, AddrsOk, RandomOk, EntriesOk, IdsOk, TriedOk, GoodResult, CollisionsOk;
    if id in s.info && env.valid(s.info[id].addr) && TriedAt(env, s, s.info[id].addr) == -1 {
      var u := t.(collisions := s.collisions);
      var moved, lost :| GoodResult(env, s, u, s.info[id].addr, false, now, moved, lost);
      NotesKeep(env, t, u);
      GoodMoves(env, s, u, id, now, moved, lost);
    }
  }

  // ----- A pass over all collisions -----------------------------------------------------

  /** An entry holds its tried slot, with a success not before `since`. */
  predicate Holds(env: Env, s: State, x: int, a: Service, since: int) {
    && Shapes(s) && x in s.info && s.info[x].addr == a && TriedAt(env, s, a) == x
    && s.info[x].inTried && s.info[x].lastSuccess >= since
  }

  lemma {:induction false} RecentHolds(env: Env, s: State, t: State, id: int, now: int, x: int, a: Service, since: int)
    requires Consistent(env, s) && Consistent(env, t) && Resolved(env, s, t, id, now)
    requires Holds(env, s, x, a, since) && now - since < 4 * 60 * 60
    ensures Holds(env, t, x, a, since)
  {
    hide NewOk, CountsOk, AddrsOk, RandomOk, EntriesOk, IdsOk, GoodResult, CollisionsOk;
    NoId(s);
    if Judge(env, s, id, now) == Replace {
      var u := t.(collisions := s.collisions);
      var moved, lost :| GoodResult(env, s, u, s.info[id].addr, false, now, moved, lost);
      NotesKeep(env, t, u);
      GoodMoves(env, s, u, id, now, moved, lost);
      assert TriedAt(env, s, s.info[id].addr) != x;
      assert TriedAt(env, u, a) == TriedAt(env, s, a);
      assert t.info[x].inTried by {
        var b := env.TriedBucket(a);
        assert t.tried[b][env.Position(false, b, a)] == x;
      }
    }
  }

  /** A pass over all collisions leaves every incumbent with a recent success alone. */
  lemma {:induction false} PassSpares(env: Env, steps: seq<State>, ids: seq<int>, clock: int -> int, x: int, a: Service, since: int)
    requires ResolveSteps(env, steps, ids, clock) && Holds(env, steps[0], x, a, since)
    requires forall id <- ids :: clock(id) - since < 4 * 60 * 60
    ensures |steps| == |ids| + 1 && Holds(env, steps[|ids|], x, a, since)
  {
    hide Resolved, Sound, Holds;
    if ids != [] {
      var n := |ids| - 1;
      PassSpares(env, steps[..n + 1], ids[..n], clock, x, a, since);
      PassConsistent(env, steps[..n + 1], ids[..n], clock);
      RecentHolds(env, steps[n], steps[n + 1], ids[n], clock(ids[n]), x, a, since);
    }
  }

  lemma {:induction false} PassConsistent(env: Env, steps: seq<State>, ids: seq<int>, clock: int -> int)
    requires ResolveSteps(env, steps, ids, clock)
    ensures |steps| == |ids| + 1 && Consistent(env, steps[|ids|])
  {
  }

  // ----- Every operation, and runs -------------------------------------------------------

  /** The operations that may take an occupied tried slot from its entry. */
  predicate Evicts(env: Env, s: State, op: Op, x: int)
    requires x in s.info
  {
    || (op.Succeed? && !op.testBeforeEvict)
    || (op.Resolve? && op.id in s.info && MustGo(s.info[x], s.info[op.id], op.now))
  }

  lemma {:induction false} TestedGood(env: Env, s: State, t: State, a: Service, time: int, moved: bool, lost: int, c: Service)
    requires Consistent(env, s) && Consistent(env, t) && GoodResult(env, s, t, a, true, time, moved, lost)
    requires TriedAt(env, s, c) != -1
    ensures TriedAt(env, t, c) == TriedAt(env, s, c)
  {
    hide NewOk, CountsOk, RandomOk, EntriesOk, IdsOk, MovedNews, TriedOk, Kept, CollisionsOk;
    Found(s, a);
  }

  lemma {:induction false} AnnouncedTried(env: Env, s: State, t: State, a: Address, source: NetAddr, penalty: int, now: int,
                                          later: int, roll: nat, inserted: bool)
    requires Consistent(env, s) && AddResult(env, s, t, a, source, penalty, now, later, roll, inserted)
    ensures t.tried == s.tried
  {
    hide NewOk, CountsOk, RandomOk, EntriesOk, IdsOk, AddrsOk, TriedOk, CollisionsOk, GivesWay, WorthEntering, Refreshed;
  }

  /** No other operation does: an announcement, a failure, a connection or a success that
      tests first leaves every occupied tried slot to its entry. */
  lemma {:induction false} SlotKept(env: Env, s: State, op: Op, t: State, c: Service)
    requires Consistent(env, s) && Consistent(env, t) && OpResult(env, s, op, t)
    requires var x := TriedAt(env, s, c); x in s.info && !Evicts(env, s, op, x)
    ensures TriedAt(env, t, c) == TriedAt(env, s, c)
  {
    hide NewOk, CountsOk, AddrsOk, RandomOk, EntriesOk, IdsOk, TriedOk, CollisionsOk, GoodResult, AddResult, Resolved, Revise,
      MustGo;
    NoId(s);
    match op
    case Succeed(a, test, at) =>
      var moved, lost :| GoodResult(env, s, t, a, test, at, moved, lost);
      TestedGood(env, s, t, a, at, moved, lost, c);
    case Fail(a, countFailure, at) => SameSlots(s, t, a);
    case Connect(a, at) => SameSlots(s, t, a);
    case Serve(a, services) => SameSlots(s, t, a);
    case Announce(addr, source, penalty, now, later, roll) =>
      var inserted :| AddResult(env, s, t, addr, source, penalty, now, later, roll, inserted);
      AnnouncedTried(env, s, t, addr, source, penalty, now, later, roll, inserted);
    case Resolve(id, now) => ResolveKeeps(env, s, t, id, now, c);
    case Shuffle => assert t.tried == s.tried;
    case Forget(id) => assert t.tried == s.tried;
  }

  lemma {:induction false} SameSlots(s: State, t: State, a: Service)
    requires t == s || exists id, e :: t == Revise(s, id, e)
    ensures t.tried == s.tried
  {
  }

  lemma {:induction false} ResolveKeeps(env: Env, s: State, t: State, id: int, now: int, c: Service)
    requires Consistent(env, s) && Consistent(env, t) && Resolved(env, s, t, id, now)
    requires var x := TriedAt(env, s, c); x in s.info && x != -1 && (id in s.info ==> !MustGo(s.info[x], s.info[id], now))
    ensures TriedAt(env, t, c) == TriedAt(env, s, c)
  {
    hide Sound, Resolved, MustGo, CollisionsOk;
    ConsistentShapes(env, s);
    ConsistentShapes(env, t);
    if id in s.info && env.valid(s.info[id].addr) {
      if TriedAt(env, s, s.info[id].addr) == -1 {
        CollisionGone(env, s, t, id, now);
      } else {
        CollisionSettled(env, s, t, id, now);
      }
    } else {
      CollisionGone(env, s, t, id, now);
    }
  }

  /** Over every run of operations in which successes are tested first, an occupied tried
      slot changes hands only where its incumbent must go for a recorded newcomer. */
  lemma {:induction false} SlotChangesHands(env: Env, states: seq<State>, ops: seq<Op>, c: Service) returns (i: nat)
    requires IsRun(env, states, ops) && forall op <- ops :: op.Succeed? ==> op.testBeforeEvict
    requires TriedAt(env, states[0], c) != -1 && TriedAt(env, states[|ops|], c) != TriedAt(env, states[0], c)
    ensures i < |ops| && Shapes(states[i]) && TriedAt(env, states[i], c) == TriedAt(env, states[0], c)
    ensures var x := TriedAt(env, states[0], c);
            && ops[i].Resolve? && x in states[i].info && ops[i].id in states[i].info
            && MustGo(states[i].info[x], states[i].info[ops[i].id], ops[i].now)
  {
    hide Shapes, Sound, CollisionsOk, OpResult, MustGo;
    var n := |ops| - 1;
    ConsistentShapes(env, states[0]);
    ConsistentShapes(env, states[n]);
    if TriedAt(env, states[n], c) != TriedAt(env, states[0], c) {
      i := SlotChangesHands(env, states[..n + 1], ops[..n], c);
    } else {
      i := n;
      var x := TriedAt(env, states[n], c);
      OccupantKnown(env, states[n], c);
      if !Evicts(env, states[n], ops[n], x) {
        SlotKept(env, states[n], ops[n], states[n + 1], c);
      }
    }
  }
}
