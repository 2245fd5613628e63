/** The rules of the address manager, in numbers: which entry of a full new slot gives
    way, what is learnt about a known address, how failures are counted, how many
    collisions are remembered and how long a list is. */
module AddrManRules {
  import opened Bits
  import opened Integers
  import opened Wrappers
  import opened AddrMan
  import opened AddrManKeeps
  import AddrManTried
  import opened AddrManEntry
  import opened AddrManCollisions
  import opened AddrManTimes

  const MINUTE := 60
  const DAY := 24 * 60 * 60

  // ----- Announcements ------------------------------------------------------------------

  /** An unknown address is taken up if and only if its slot is free, or its occupant has
      another place, or the occupant was not tried in the last minute and is from the
      future, not heard of for thirty days, failed three times without any success or ten
      times in a week. */
  lemma {:induction false} UnknownTakenUp(env: Env, s: State, t: State, a: Address, source: NetAddr, penalty: int, now: int,
                                          later: int, roll: nat, inserted: bool)
    requires Consistent(env, s) && AddResult(env, s, t, a, source, penalty, now, later, roll, inserted)
    requires env.routable(a.service) && a.service !in s.addrs
    ensures var x := NewAt(env, s, env.NewBucket(a.service, source), a.service);
            inserted <==>
            x == -1 || (x in s.info && var e := s.info[x];
                        || e.refCount > 1
                        || (later - e.lastTry > MINUTE &&
                            (|| e.time > later + 10 * MINUTE || later - e.time > 30 * DAY
                             || (e.lastSuccess == 0 && e.attempts >= 3)
                             || (later - e.lastSuccess > 7 * DAY && e.attempts >= 10))))
  {
    hide TriedOk, CountsOk, RandomOk, EntriesOk, CollisionsOk, RefsOk, AddrsOk, Entered, Delete;
    var u := Newcomer(env, s, a, source, Penalty(env, a, source, penalty));
    var b := env.NewBucket(a.service, source);
    NoId(s);
    assert u.news[b] == s.news[b];
    assert u.info[s.idCount].refCount == 0 && u.info[s.idCount].addr == a.service && s.idCount !in s.info;
  }

  /** Then it is entered once, with the time of its announcement less the penalty; else
      nothing of it is kept. */
  lemma {:induction false} UnknownOutcome(env: Env, s: State, t: State, a: Address, source: NetAddr, penalty: int, now: int,
                                          later: int, roll: nat, inserted: bool)
    requires Consistent(env, s) && Consistent(env, t)
    requires AddResult(env, s, t, a, source, penalty, now, later, roll, inserted)
    requires env.routable(a.service) && a.service !in s.addrs
    ensures if inserted then
              && Find(t, a.service) == Some(s.idCount) && t.info[s.idCount].refCount == 1
              && t.info[s.idCount].time == Max(0, a.time - if env.netAddr(a.service) == source then 0 else penalty)
              && t.info[s.idCount].source == source && t.info[s.idCount].services == a.services
            else t.addrs == s.addrs && t.news == s.news && t.info == s.info
  {
    hide TriedOk, CountsOk, RandomOk, EntriesOk, CollisionsOk, NewOk, GivesWay, Delete;
    var cost := Penalty(env, a, source, penalty);
    var u := Newcomer(env, s, a, source, cost);
    var b := env.NewBucket(a.service, source);
    NoId(s);
    assert u.news[b] == s.news[b];
    var e := u.info[s.idCount].(refCount := 1);
    assert e.addr == a.service && s.idCount !in s.info;
    if inserted {
      var x := NewAt(env, s, b, a.service);
      assert OthersKept(Revise(u, s.idCount, e), t, x);
      NotThere(env, s, b, a.service);
      assert t.info[s.idCount].(randomPos := 0) == e.(randomPos := 0);
    } else {
      NotThere(env, s, b, a.service);
      RefusedNewcomer(env, s, a, source, cost);
    }
  }

  lemma {:induction false} NotThere(env: Env, s: State, b: nat, a: Service)
    requires Consistent(env, s) && b < NEW_BUCKET_COUNT
    ensures NewAt(env, s, b, a) != s.idCount
  {
    hide TriedOk, CountsOk, RandomOk, EntriesOk, CollisionsOk, RefsOk, AddrsOk;
    var p := env.Position(true, b, a);
    assert s.news[b][p] != -1 ==> s.news[b][p] in s.info;
  }

  /** A known address: its time moves forward only, and only for news that is an hour
      younger after the penalty (a day, if it is a day old); services accumulate. */
  lemma {:induction false} KnownRefreshed(env: Env, s: State, t: State, a: Address, source: NetAddr, penalty: int, now: int,
                                          later: int, roll: nat, inserted: bool, id: int)
    requires Consistent(env, s) && Consistent(env, t)
    requires AddResult(env, s, t, a, source, penalty, now, later, roll, inserted)
    requires env.routable(a.service) && Find(s, a.service) == Some(id)
    ensures id in t.info && t.info[id].services == s.info[id].services + a.services && t.info[id].time >= s.info[id].time
    ensures var cost := if env.netAddr(a.service) == source then 0 else penalty;
            var step := if now - a.time < DAY then 60 * MINUTE else DAY;
            t.info[id].time ==
            if s.info[id].time + step + cost < a.time then Max(0, a.time - cost) else s.info[id].time
    ensures s.info[id].inTried || s.info[id].refCount == 8 || a.time <= t.info[id].time ==> !inserted && t.news == s.news
    ensures s.info[id].refCount <= t.info[id].refCount <= s.info[id].refCount + 1
    ensures inserted <==> t.info[id].refCount == s.info[id].refCount + 1
    ensures s.info[id].refCount >= 0 && (inserted ==> roll % Pow2(s.info[id].refCount) == 0)
    ensures var free := NewAt(env, s, env.NewBucket(a.service, source), a.service) == -1;
            var e := s.info[id];
            free && !e.inTried && e.refCount < 8 && a.time > t.info[id].time && roll % Pow2(e.refCount) == 0 ==> inserted
  {
    hide TriedOk, CountsOk, RandomOk, CollisionsOk, SlotsOk, AddrsOk, GivesWay, Delete;
    var u := Revise(s, id, Refreshed(s.info[id], a, Penalty(env, a, source, penalty), now));
    var b := env.NewBucket(a.service, source);
    NoId(s);
    RefsNonNegative(env, s, id);
    assert s.info[id].addr == a.service by {
      Found(s, a.service);
    }
    if WorthEntering(u.info[id], a, roll) && inserted {
      var x := NewAt(env, s, b, a.service);
      var e := u.info[id].(refCount := u.info[id].refCount + 1);
      assert OthersKept(Revise(u, id, e), t, x);
      assert t.info[id].(randomPos := 0) == e.(randomPos := 0);
    } else if !s.info[id].inTried {
      NewcomerOrTried(env, s, id);
    }
  }

  lemma {:induction false} NewcomerOrTried(env: Env, s: State, id: int)
    requires Consistent(env, s) && id in s.info && !s.info[id].inTried
    ensures s.info[id].refCount > 0
  {
    hide TriedOk, CountsOk, RandomOk, CollisionsOk, NewOk, AddrsOk;
  }

  // ----- Successes ------------------------------------------------------------------------

  /** A success of a known address sets its times and forgets its failures, wherever the
      address ends up; the manager remembers the time of any success. */
  lemma {:induction false} SuccessRecorded(
      env: Env, s: State, t: State, a: Service, testBeforeEvict: bool, time: int, moved: bool, lost: int)
    requires Consistent(env, s) && GoodResult(env, s, t, a, testBeforeEvict, time, moved, lost)
    ensures t.lastGood == time
    ensures Find(s, a).Some? ==>
              var id := Find(s, a).value;
              id in t.info && t.info[id].lastSuccess == time && t.info[id].lastTry == time && t.info[id].attempts == 0
  {
    hide TriedOk, CountsOk, RandomOk, CollisionsOk, NewOk, AddrsOk, EntriesOk, AddrManTried.MovedNews;
    if moved {
      var id := Find(s, a).value;
      var u := Revise(s, id, Succeeded(s.info[id], time)).(lastGood := time);
      assert Record(t.info[id]) == Record(u.info[id]);
    }
  }

  // ----- Failures ---------------------------------------------------------------------------

  /** An entry after a series of attempts, none of which is followed by a success. */
  function AttemptedAt(e: Info, times: seq<int>, lastGood: int): Info {
    if times == [] then e
    else Attempted(AttemptedAt(e, times[..|times| - 1], lastGood), true, times[|times| - 1], lastGood)
  }

  /** Failures between two successes of any peer count as one. */
  lemma {:induction false} FailuresCountOnce(e: Info, times: seq<int>, lastGood: int)
    requires forall i :: 0 <= i < |times| ==> times[i] >= lastGood
    ensures var f := AttemptedAt(e, times, lastGood);
            && f.attempts == e.attempts + (if times != [] && e.lastCountAttempt < lastGood then 1 else 0)
            && (times != [] ==> f.lastTry == times[|times| - 1] && f.lastCountAttempt >= lastGood)
            && f.lastSuccess == e.lastSuccess
  {
    if times != [] {
      FailuresCountOnce(e, times[..|times| - 1], lastGood);
    }
  }

  // ----- Collisions and lists ------------------------------------------------------------------

  /** At most ten collisions are remembered, in every state of every run. */
  lemma {:induction false} CollisionsBounded(env: Env, states: seq<State>, ops: seq<Op>)
    requires IsRun(env, states, ops) && |states[0].collisions| <= 10
    ensures |states[|ops|].collisions| <= 10
  {
    hide Shapes, Sound, TriedOk, CollisionsOk, OpResult;
    if ops != [] {
      var n := |ops| - 1;
      CollisionsBounded(env, states[..n + 1], ops[..n]);
      CollisionsStep(env, states[n], ops[n], states[n + 1]);
      var s, t := states[n].collisions, states[n + 1].collisions;
      if ops[n].Succeed? {
        assert t <= s || |t| <= 10;
      }
      if t <= s {
        assert s == t + (s - t);
      }
    }
  }

  lemma {:induction false} AnnouncedCollisions(env: Env, s: State, t: State, a: Address, source: NetAddr, penalty: int, now: int,
                                               later: int, roll: nat, inserted: bool)
    requires Shapes(s) && AddResult(env, s, t, a, source, penalty, now, later, roll, inserted)
    ensures t.collisions == s.collisions
  {
    hide GivesWay, WorthEntering, Refreshed, AddCount;
  }

  /** Only a success whose slot is taken adds a collision, its own. */
  lemma {:induction false} CollisionsStep(env: Env, s: State, op: Op, t: State)
    requires Consistent(env, s) && Consistent(env, t) && OpResult(env, s, op, t)
    ensures t.collisions <= s.collisions ||
            (&& op.Succeed? && op.testBeforeEvict && TriedAt(env, s, op.a) != -1 && |s.collisions| < 10
             && Find(s, op.a).Some? && t.collisions == s.collisions + {Find(s, op.a).value} && |t.collisions| <= 10)
  {
    hide NewOk, CountsOk, AddrsOk, RandomOk, EntriesOk, IdsOk, TriedOk, CollisionsOk, Resolved, AddResult, Attempted;
    if op.Resolve? {
      ResolvedCollisions(env, s, t, op.id, op.now);
    } else if op.Announce? {
      var inserted :| AddResult(env, s, t, op.addr, op.source, op.penalty, op.now, op.later, op.roll, inserted);
      AnnouncedCollisions(env, s, t, op.addr, op.source, op.penalty, op.now, op.later, op.roll, inserted);
    }
  }

  /** A full list names exactly the entries of the given network, or of all, that were
      tried in the last minute or are not from the future, unheard of for thirty days, or
      failed too often. */
  lemma {:induction false} ListExactly(env: Env, s: State, network: Option<Network>, now: int, id: int)
    requires RandomOk(s)
    ensures forall x <- s.random :: x in s.info
    ensures id in Listed(env, s, s.random, network, now) <==>
            id in s.info && var e := s.info[id];
            && (network == None || network == Some(env.netClass(e.addr)))
            && (now - e.lastTry <= MINUTE ||
                (&& e.time <= now + 10 * MINUTE && now - e.time <= 30 * DAY
                 && (e.lastSuccess == 0 ==> e.attempts < 3) && (now - e.lastSuccess > 7 * DAY ==> e.attempts < 10)))
  {
    hide Listed, RandomOk;
    ListedAll(env, s, network, now);
  }

  /** A list has at most the given number and the given share of all addresses. */
  lemma {:induction false} LimitMeans(size: nat, maxAddresses: nat, maxPct: nat, n: nat)
    ensures n <= Limit(size, maxAddresses, maxPct) <==>
            && (if maxPct == 0 then n <= size else 100 * n <= maxPct * size)
            && (maxAddresses != 0 ==> n <= maxAddresses)
  {
    assert forall x: nat :: n <= x / 100 <==> 100 * n <= x;
    assert n <= maxPct * size / 100 <==> 100 * n <= maxPct * size;
  }
}
