/** The times on record: which times given by callers keep the run-time check of the
    address manager from failing, for every operation and over whole runs. */
module AddrManTimes {
  import opened Wrappers
  import opened AddrMan
  import opened AddrManKeeps
  import opened AddrManTried
  import opened AddrManEntry
  import opened AddrManCollisions
  import AddrManCheck

  lemma {:induction false} EmptyTimes()
    ensures TimesOk(EmptyState())
  {
  }

  /** An entry that is tried occupies its slot. */
  lemma {:induction false} TriedHolds(env: Env, s: State, t: State, x: int)
    requires Shapes(s) && Shapes(t) && TriedOk(env, s) && TriedOk(env, t) && -1 !in t.info && x in t.info && t.info[x].inTried
    requires TriedAt(env, t, t.info[x].addr) == TriedAt(env, s, t.info[x].addr)
    ensures x in s.info && s.info[x].inTried
  {
  }

  // ----- Success and failure ----------------------------------------------------------

  /** When a success may be recorded: at a time after the epoch, or at the epoch for
      an entry that stays new because of a collision. */
  predicate GoodTime(env: Env, s: State, a: Service, testBeforeEvict: bool, time: int)
    requires Shapes(s)
  {
    match Find(s, a)
    case None => true
    case Some(id) => time > 0 || (time == 0 && !s.info[id].inTried && testBeforeEvict && TriedAt(env, s, a) != -1)
  }

  /** A success keeps the times in order exactly if its own time is. */
  lemma {:induction false} GoodTimes(
      env: Env, s: State, t: State, a: Service, testBeforeEvict: bool, time: int, moved: bool, lost: int)
    requires Sound(env, s, {}, {}) && Sound(env, t, {}, {}) && TimesOk(s)
    requires GoodResult(env, s, t, a, testBeforeEvict, time, moved, lost)
    ensures TimesOk(t) <==> GoodTime(env, s, a, testBeforeEvict, time)
  {
    hide NewOk, CountsOk, AddrsOk, RandomOk, EntriesOk, IdsOk, TriedOk, MadeTried, TimesOk;
    match Find(s, a)
    case None => SameTimes(s, t);
    case Some(id) =>
      var u := Revise(s, id, Succeeded(s.info[id], time)).(lastGood := time);
      RevisedTimes(s, u, id, Succeeded(s.info[id], time));
      if moved {
        MovedTimes(env, s, u, t, id, lost);
      } else {
        SameTimes(u, t);
      }
  }

  lemma {:induction false} SameTimes(s: State, t: State)
    requires s.info == t.info
    ensures TimesOk(t) <==> TimesOk(s)
  {
  }

  lemma {:induction false} RevisedTimes(s: State, t: State, id: int, e: Info)
    requires TimesOk(s) && t.info == s.info[id := e]
    ensures TimesOk(t) <==> e.lastTry >= 0 && e.lastSuccess >= 0 && (e.inTried ==> e.lastSuccess > 0)
  {
    assert t.info[id] == e;
  }

  lemma {:induction false} MovedTimes(env: Env, s: State, u: State, t: State, id: int, lost: int)
    requires Sound(env, s, {}, {}) && Sound(env, t, {}, {}) && TimesOk(s) && id in s.info
    requires u == Revise(s, id, Succeeded(s.info[id], u.lastGood)).(lastGood := u.lastGood) && MadeTried(env, u, t, id, lost)
    ensures TimesOk(t) <==> u.lastGood > 0
  {
    hide NewOk, CountsOk, AddrsOk, RandomOk, EntriesOk, IdsOk, TriedOk, MovedNews;
    assert Record(t.info[id]) == Record(u.info[id]);
    NoId(t);
    forall x <- t.info | x != id
      ensures var e := t.info[x]; e.lastTry >= 0 && e.lastSuccess >= 0 && (e.inTried ==> e.lastSuccess > 0)
    {
      assert x in s.info && Record(t.info[x]) == Record(s.info[x]);
      if t.info[x].inTried {
        OtherTried(env, s, t, s.info[id].addr, id, x);
      }
    }
  }

  lemma {:induction false} OtherTried(env: Env, s: State, t: State, a: Service, id: int, x: int)
    requires Shapes(s) && Shapes(t) && TriedOk(env, s) && TriedOk(env, t) && -1 !in t.info
    requires var b := env.TriedBucket(a); t.tried == Put(s.tried, b, env.Position(false, b, a), id)
    requires x in t.info && x != id && t.info[x].inTried
    ensures x in s.info && s.info[x].inTried
  {
  }

  /** An attempt keeps the times in order exactly if it is not before the epoch. */
  lemma {:induction false} AttemptTimes(s: State, id: int, countFailure: bool, time: int, lastGood: int)
    requires TimesOk(s) && id in s.info
    ensures TimesOk(Revise(s, id, Attempted(s.info[id], countFailure, time, lastGood))) <==> time >= 0
  {
    var e := Attempted(s.info[id], countFailure, time, lastGood);
    RevisedTimes(s, Revise(s, id, e), id, e);
  }

  // ----- Announcements, collisions and lists ------------------------------------------

  lemma {:induction false} EnterTimes(env: Env, s: State, u: State, t: State, b: nat, id: int, now: int, inserted: bool)
    requires Sound(env, s, {}, {}) && Sound(env, t, {}, {}) && TimesOk(s) && TimesOk(u) && Shapes(u) && u.tried == s.tried
    requires -1 !in u.info && id in u.info && !u.info[id].inTried && b < NEW_BUCKET_COUNT
    requires forall x <- u.info :: u.info[x].inTried ==> x in s.info && s.info[x].inTried
    requires forall x <- s.info :: s.info[x].inTried ==> x in u.info && u.info[x].inTried
    requires EnterResult(env, u, t, b, id, now, inserted)
    ensures TimesOk(t)
  {
    hide NewOk, CountsOk, AddrsOk, RandomOk, EntriesOk, IdsOk, TriedOk, GivesWay;
    NoId(t);
    forall x <- t.info
      ensures var e := t.info[x]; e.lastTry >= 0 && e.lastSuccess >= 0 && (e.inTried ==> e.lastSuccess > 0)
    {
      EnterRecord(env, u, t, b, id, now, inserted, x);
      assert x in u.info && Record(t.info[x]) == Record(u.info[x]);
      if t.info[x].inTried {
        SameTried(env, u, t, b, id, now, inserted);
        TriedHolds(env, s, t, x);
      }
    }
  }

  lemma {:induction false} SameTried(env: Env, u: State, t: State, b: nat, id: int, now: int, inserted: bool)
    requires Shapes(u) && b < NEW_BUCKET_COUNT && id in u.info && EnterResult(env, u, t, b, id, now, inserted)
    ensures t.tried == u.tried
  {
  }

  lemma {:induction false} EnterRecord(env: Env, u: State, t: State, b: nat, id: int, now: int, inserted: bool, x: int)
    requires Shapes(u) && b < NEW_BUCKET_COUNT && id in u.info && EnterResult(env, u, t, b, id, now, inserted) && x in t.info
    ensures x in u.info && Record(t.info[x]) == Record(u.info[x])
  {
  }

  /** Announcements keep the times in order. */
  lemma {:induction false} AddTimes(env: Env, s: State, t: State, a: Address, source: NetAddr, penalty: int, now: int, later: int,
                                    roll: nat, inserted: bool)
    requires Consistent(env, s) && Consistent(env, t) && TimesOk(s)
    requires AddResult(env, s, t, a, source, penalty, now, later, roll, inserted)
    ensures TimesOk(t)
  {
    hide NewOk, CountsOk, AddrsOk, RandomOk, EntriesOk, TriedOk, CollisionsOk, EnterResult;
    if env.routable(a.service) {
      var cost := Penalty(env, a, source, penalty);
      var b := env.NewBucket(a.service, source);
      NoId(s);
      match Find(s, a.service)
      case Some(id) =>
        var u := Revise(s, id, Refreshed(s.info[id], a, cost, now));
        if WorthEntering(u.info[id], a, roll) {
          EnterTimes(env, s, u, t, b, id, later, inserted);
        }
      case None =>
        EnterTimes(env, s, Newcomer(env, s, a, source, cost), t, b, s.idCount, later, inserted);
    }
  }

  lemma {:induction false} AddStepsTimes(env: Env, steps: seq<State>, addrs: seq<Address>, source: NetAddr, penalty: int,
                                         clock: nat -> int, later: nat -> int, rolls: nat -> nat, flags: seq<bool>)
    requires AddSteps(env, steps, addrs, source, penalty, clock, later, rolls, flags)
    ensures |steps| == |addrs| + 1 && (TimesOk(steps[0]) ==> TimesOk(steps[|addrs|]))
  {
    hide AddResult, Sound, TimesOk;
    if addrs != [] {
      var n := |addrs| - 1;
      AddStepsTimes(env, steps[..n + 1], addrs[..n], source, penalty, clock, later, rolls, flags[..n]);
      if TimesOk(steps[n]) {
        AddTimes(env, steps[n], steps[n + 1], addrs[n], source, penalty, clock(n), later(n), rolls(n), flags[n]);
      }
    }
  }

  /** A collision keeps the times in order exactly if the address is not taken as good
      at a time at or before the epoch. */
  lemma {:induction false} ResolveTimes(env: Env, s: State, t: State, id: int, now: int)
    requires Consistent(env, s) && Consistent(env, t) && Resolved(env, s, t, id, now) && TimesOk(s)
    ensures TimesOk(t) <==> Judge(env, s, id, now) != Replace || now > 0
  {
    hide NewOk, CountsOk, AddrsOk, RandomOk, EntriesOk, IdsOk, TriedOk, GoodResult, CollisionsOk, TimesOk;
    if Judge(env, s, id, now) == Replace {
      var u := t.(collisions := s.collisions);
      var moved, lost :| GoodResult(env, s, u, s.info[id].addr, false, now, moved, lost);
      NotesKeep(env, t, u);
      FoundAgain(s, id);
      GoodTimes(env, s, u, s.info[id].addr, false, now, moved, lost);
      SameTimes(t, u);
    } else {
      SameTimes(s, t);
    }
  }

  lemma {:induction false} FoundAgain(s: State, id: int)
    requires AddrsOk(s) && id in s.info
    ensures Find(s, s.info[id].addr) == Some(id)
  {
  }

  lemma {:induction false} ResolveStepsTimes(env: Env, steps: seq<State>, ids: seq<int>, clock: int -> int)
    requires ResolveSteps(env, steps, ids, clock) && forall id <- ids :: clock(id) > 0
    ensures |steps| == |ids| + 1 && (TimesOk(steps[0]) ==> TimesOk(steps[|ids|]))
  {
    hide Resolved, Sound, TimesOk;
    if ids != [] {
      var n := |ids| - 1;
      ResolveStepsTimes(env, steps[..n + 1], ids[..n], clock);
      if TimesOk(steps[n]) {
        ResolveTimes(env, steps[n], steps[n + 1], ids[n], clock(ids[n]));
      }
    }
  }

  /** A connection and a change of services concern neither attempts nor successes. */
  lemma {:induction false} RecordTimes(s: State, id: int, e: Info)
    requires id in s.info && e == s.info[id].(time := e.time, services := e.services)
    ensures TimesOk(Revise(s, id, e)) <==> TimesOk(s)
  {
    var t := Revise(s, id, e);
    if TimesOk(t) {
      forall x <- s.info
        ensures var f := s.info[x]; f.lastTry >= 0 && f.lastSuccess >= 0 && (f.inTried ==> f.lastSuccess > 0)
      {
        assert x in t.info;
      }
    }
  }

  /** Shuffling for a list keeps them too. */
  lemma {:induction false} ListTimes(s: State, t: State)
    requires Trimmed(s, t, {})
    ensures TimesOk(t) <==> TimesOk(s)
  {
    assert forall x <- t.info :: t.info[x].(randomPos := 0) == s.info[x].(randomPos := 0);
  }

  // ----- Runs ------------------------------------------------------------------------------

  datatype Op =
    | Succeed(a: Service, testBeforeEvict: bool, at: int)
    | Fail(a: Service, countFailure: bool, at: int)
    | Connect(a: Service, at: int)
    | Serve(a: Service, services: set<nat>)
    | Announce(addr: Address, source: NetAddr, penalty: int, now: int, later: int, roll: nat)
    | Resolve(id: int, now: int)
    | Shuffle
    | Forget(id: int)

  /** What each operation of the manager is proved to do. */
  ghost predicate OpResult(env: Env, s: State, op: Op, t: State)
    requires Shapes(s) && TriedOk(env, s)
  {
    match op
    case Succeed(a, test, at) => exists moved, lost :: GoodResult(env, s, t, a, test, at, moved, lost)
    case Fail(a, countFailure, at) =>
      (match Find(s, a)
       case None => t == s
       case Some(id) => t == Revise(s, id, Attempted(s.info[id], countFailure, at, s.lastGood)))
    case Connect(a, at) =>
      (match Find(s, a)
       case None => t == s
       case Some(id) => t == if at - s.info[id].time > 20 * 60 then Revise(s, id, s.info[id].(time := at)) else s)
    case Serve(a, services) =>
      (match Find(s, a)
       case None => t == s
       case Some(id) => t == Revise(s, id, s.info[id].(services := services)))
    case Announce(addr, source, penalty, now, later, roll) =>
      exists inserted :: AddResult(env, s, t, addr, source, penalty, now, later, roll, inserted)
    case Resolve(id, now) => Resolved(env, s, t, id, now)
    case Shuffle => Trimmed(s, t, {})
    case Forget(id) => t == s.(collisions := s.collisions - {id})
  }

  /** Does an operation record only times that the check accepts? */
  predicate OpTime(env: Env, s: State, op: Op)
    requires Shapes(s) && TriedOk(env, s)
  {
    match op
    case Succeed(a, test, at) => GoodTime(env, s, a, test, at)
    case Fail(a, _, at) => Find(s, a).None? || at >= 0
    case Resolve(id, now) => Judge(env, s, id, now) != Replace || now > 0
    case _ => true
  }

  /** One operation on a state that passes. */
  lemma {:induction false} OpTimes(env: Env, s: State, op: Op, t: State)
    requires Consistent(env, s) && Consistent(env, t) && OpResult(env, s, op, t) && TimesOk(s)
    ensures TimesOk(t) <==> OpTime(env, s, op)
  {
    hide NewOk, CountsOk, AddrsOk, RandomOk, EntriesOk, IdsOk, TriedOk, CollisionsOk, TimesOk, GoodResult, AddResult, Resolved,
      Trimmed, Revise, GoodTime, Judge;
    match op
    case Succeed(a, test, at) =>
      var moved, lost :| GoodResult(env, s, t, a, test, at, moved, lost);
      GoodTimes(env, s, t, a, test, at, moved, lost);
    case Fail(a, countFailure, at) =>
      if Find(s, a).Some? {
        AttemptTimes(s, Find(s, a).value, countFailure, at, s.lastGood);
      }
    case Connect(a, at) =>
      if Find(s, a).Some? {
        var id := Find(s, a).value;
        RecordTimes(s, id, s.info[id].(time := at));
      }
    case Serve(a, services) =>
      if Find(s, a).Some? {
        var id := Find(s, a).value;
        RecordTimes(s, id, s.info[id].(services := services));
      }
    case Announce(addr, source, penalty, now, later, roll) =>
      var inserted :| AddResult(env, s, t, addr, source, penalty, now, later, roll, inserted);
      AddTimes(env, s, t, addr, source, penalty, now, later, roll, inserted);
    case Resolve(id, now) => ResolveTimes(env, s, t, id, now);
    case Shuffle => ListTimes(s, t);
    case Forget(id) => SameTimes(s, t);
  }

  ghost predicate IsRun(env: Env, states: seq<State>, ops: seq<Op>) {
    && |states| == |ops| + 1 && (forall i :: 0 <= i < |states| ==> Consistent(env, states[i]))
    && forall i :: 0 <= i < |ops| ==>
         Shapes(states[i]) && TriedOk(env, states[i]) && OpResult(env, states[i], ops[i], states[i + 1])
  }

  ghost predicate TimelyRun(env: Env, states: seq<State>, ops: seq<Op>)
    requires |states| == |ops| + 1
  {
    forall i :: 0 <= i < |ops| ==> Shapes(states[i]) && TriedOk(env, states[i]) && OpTime(env, states[i], ops[i])
  }

  /** The run-time check passes in every state of a run of operations if and only if
      every operation has a time that it accepts. */
  lemma {:induction false} RunPasses(env: Env, key: nat, states: seq<State>, ops: seq<Op>)
    requires IsRun(env, states, ops) && key != 0 && AddrManCheck.CheckPasses(env, key, states[0])
    ensures (forall i :: 0 <= i < |states| ==> Shapes(states[i]) && AddrManCheck.CheckPasses(env, key, states[i])) <==>
            TimelyRun(env, states, ops)
  {
    hide Shapes, Sound, CollisionsOk, OpResult, OpTime, AddrManCheck.CheckPasses, TimesOk;
    forall i | 0 <= i < |states|
      ensures Shapes(states[i]) && (AddrManCheck.CheckPasses(env, key, states[i]) <==> TimesOk(states[i]))
    {
      StatePasses(env, key, states[i]);
    }
    RunTimes(env, states, ops);
  }

  lemma {:induction false} StatePasses(env: Env, key: nat, s: State)
    requires Consistent(env, s) && key != 0
    ensures Shapes(s) && (AddrManCheck.CheckPasses(env, key, s) <==> TimesOk(s))
  {
    hide TriedOk, NewOk, CountsOk, RandomOk, EntriesOk, AddrsOk, IdsOk, CollisionsOk, TimesOk, AddrManCheck.CheckPasses;
    AddrManCheck.SoundPasses(env, key, s);
  }

  lemma {:induction false} RunTimes(env: Env, states: seq<State>, ops: seq<Op>)
    requires IsRun(env, states, ops) && TimesOk(states[0])
    ensures (forall i :: 0 <= i < |states| ==> TimesOk(states[i])) <==> TimelyRun(env, states, ops)
  {
    hide Shapes, Consistent, TriedOk, OpResult, OpTime, TimesOk;
    if ops != [] {
      var n := |ops| - 1;
      RunTimes(env, states[..n + 1], ops[..n]);
      if TimesOk(states[n]) {
        OpTimes(env, states[n], ops[n], states[n + 1]);
      }
    }
  }

  /** For instance: a manager with one address passes the check, and an attempt recorded
      before the epoch makes it fail, though the indexes are in order. */
  lemma {:induction false} EarlyAttemptFails(env: Env)
    ensures var s := AddrManCheck.OneEntry(env);
            var e := Attempted(s.info[0], false, -1, s.lastGood);
            var t := Revise(s, 0, e);
            && AddrManCheck.CheckPasses(env, 1, s) && Sound(env, t, {}, {}) && !AddrManCheck.CheckPasses(env, 1, t)
  {
    hide TriedOk, NewOk, CountsOk, RandomOk, EntriesOk, AddrsOk, IdsOk, AddrManCheck.CheckPasses;
    var s := AddrManCheck.OneEntry(env);
    var e := Attempted(s.info[0], false, -1, s.lastGood);
    AddrManCheck.OneEntryConsistent(env);
    AddrManCheck.SoundPasses(env, 1, s);
    AttemptTimes(s, 0, false, -1, s.lastGood);
    ReviseKeeps(env, s, 0, e, {});
    AddrManCheck.SoundPasses(env, 1, Revise(s, 0, e));
  }
}
