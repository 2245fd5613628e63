/** The address manager as its callers see it: every call runs the consistency check
    before and after the operation, now and then or always. */
module AddrManPublic {
  import opened Wrappers
  import opened AddrMan
  import opened AddrManKeeps
  import opened AddrManTried
  import opened AddrManEntry
  import opened AddrManCollisions
  import opened AddrManTimes
  import opened AddrManImpl

  /** The tried entry that a colliding one is up against. */
  function Incumbent(env: Env, s: State, id: int): Option<(Service, int)>
    requires Shapes(s)
  {
    if id !in s.info then None
    else
      var slot := TriedAt(env, s, s.info[id].addr);
      if slot in s.info then Some((s.info[slot].addr, s.info[slot].lastTry)) else None
  }

  class CheckedAddrMan {
    const impl: AddrManImpl
    /** The check runs once in so many times, or never for zero. */
    const ratio: nat

    constructor (environment: Env, key: nat, checkRatio: nat)
      ensures fresh(impl) && ratio == checkRatio && impl.env == environment && impl.nKey == key
      ensures impl.Valid() && impl.Model() == EmptyState() && (key != 0 ==> Passing())
    {
      impl := new AddrManImpl(environment, key);
      ratio := checkRatio;
      new;
      EmptyTimes();
    }

    /** The check would return 0. */
    ghost predicate Passing()
      reads impl
    {
      TimesOk(impl.Model()) && impl.nKey != 0
    }

    /** Is the check due, by a random number? */
    predicate Due(roll: nat) {
      ratio != 0 && roll % ratio == 0
    }

    /** The call ends with the check before it. */
    ghost predicate Stops(roll: nat)
      reads impl
    {
      Due(roll) && !Passing()
    }

    /** False where the assertion of the check fails. */
    method Check(roll: nat) returns (ok: bool)
      requires impl.Valid()
      ensures ok <==> !Due(roll) || Passing()
    {
      hide Consistent, TimesOk;
      ok := true;
      if Due(roll) {
        var code := impl.CheckAddrman();
        ok := code == 0;
      }
    }

    /** For an address that connects. The check after it fails exactly if it is due and
        the time is not accepted. */
    method Good(a: Service, time: int, roll: nat, roll': nat) returns (ok: bool, moved: bool, ghost lost: int)
      requires impl.Valid()
      modifies impl
      ensures impl.Valid() && Shapes(old(impl.Model()))
      ensures if old(Stops(roll)) then !ok && impl.Model() == old(impl.Model())
              else GoodResult(impl.env, old(impl.Model()), impl.Model(), a, true, time, moved, lost)
      ensures old(Passing()) ==> (Passing() <==> GoodTime(impl.env, old(impl.Model()), a, true, time))
      ensures old(Passing()) ==> (ok <==> !Due(roll') || GoodTime(impl.env, old(impl.Model()), a, true, time))
    {
      hide TriedOk, NewOk, CountsOk, AddrsOk, RandomOk, EntriesOk, IdsOk, CollisionsOk, TimesOk, GoodResult, GoodTime, Evolves;
      lost := -1;
      ok := Check(roll);
      if !ok {
        return false, false, lost;
      }
      ghost var s := impl.Model();
      moved, lost := impl.Good(a, true, time);
      if TimesOk(s) {
        GoodTimes(impl.env, s, impl.Model(), a, true, time, moved, lost);
      }
      ok := Check(roll');
    }

    method Attempt(a: Service, countFailure: bool, time: int, roll: nat, roll': nat) returns (ok: bool)
      requires impl.Valid()
      modifies impl
      ensures impl.Valid()
      ensures impl.Model() == if old(Stops(roll)) then old(impl.Model())
                              else match old(AddrMan.Find(impl.Model(), a))
                                   case None => old(impl.Model())
                                   case Some(id) =>
                                     Revise(old(impl.Model()), id, Attempted(old(impl.mapInfo)[id], countFailure, time, impl.lastGood))
      ensures old(Stops(roll)) ==> !ok
      ensures old(Passing()) ==> (Passing() <==> old(AddrMan.Find(impl.Model(), a)).None? || time >= 0)
      ensures old(Passing()) ==> (ok <==> !Due(roll') || old(AddrMan.Find(impl.Model(), a)).None? || time >= 0)
    {
      hide Consistent, TimesOk, Attempted, Evolves, Revise;
      ok := Check(roll);
      if !ok {
        return false;
      }
      ghost var s := impl.Model();
      impl.Attempt(a, countFailure, time);
      if TimesOk(s) && AddrMan.Find(s, a).Some? {
        AttemptTimes(s, AddrMan.Find(s, a).value, countFailure, time, s.lastGood);
      }
      ok := Check(roll');
    }

    /** Announcements never make a check fail. */
    method Add(addrs: seq<Address>, source: NetAddr, penalty: int, clock: nat -> int, later: nat -> int, rolls: nat -> nat,
               roll: nat, roll': nat)
      returns (ok: bool, added: bool, ghost steps: seq<State>, ghost flags: seq<bool>)
      requires impl.Valid()
      modifies impl
      ensures impl.Valid() && (old(Passing()) ==> ok && Passing())
      ensures if old(Stops(roll)) then !ok && impl.Model() == old(impl.Model())
              else
                && AddSteps(impl.env, steps, addrs, source, penalty, clock, later, rolls, flags) && |steps| == |addrs| + 1
                && steps[0] == old(impl.Model()) && steps[|addrs|] == impl.Model() && (added <==> true in flags)
    {
      hide Consistent, TimesOk, AddSteps, Evolves;
      steps, flags := [], [];
      ok := Check(roll);
      if !ok {
        return false, false, steps, flags;
      }
      added, steps, flags := impl.Add(addrs, source, penalty, clock, later, rolls);
      AddStepsTimes(impl.env, steps, addrs, source, penalty, clock, later, rolls, flags);
      ok := Check(roll');
    }

    /** Nor do collisions settled by a clock after the epoch. */
    method ResolveCollisions(clock: int -> int, roll: nat, roll': nat)
      returns (ok: bool, ghost ids: seq<int>, ghost steps: seq<State>)
      requires impl.Valid()
      modifies impl
      ensures impl.Valid()
      ensures if old(Stops(roll)) then !ok && impl.Model() == old(impl.Model())
              else
                && Ascending(ids) && (forall id :: id in ids <==> id in old(impl.triedCollisions))
                && ResolveSteps(impl.env, steps, ids, clock) && |steps| == |ids| + 1
                && steps[0] == old(impl.Model()) && steps[|ids|] == impl.Model()
      ensures old(Passing()) && (forall id <- old(impl.triedCollisions) :: clock(id) > 0) ==> ok && Passing()
    {
      hide Consistent, TimesOk, ResolveSteps, Evolves;
      ids, steps := [], [];
      ok := Check(roll);
      if !ok {
        return false, ids, steps;
      }
      ghost var was := impl.triedCollisions;
      ids, steps := impl.ResolveCollisions(clock);
      if forall id <- was :: clock(id) > 0 {
        ResolveStepsTimes(impl.env, steps, ids, clock);
      }
      ok := Check(roll');
    }

    /** What the other calls record is no concern of the check. */
    method SelectTriedCollision(choice: int, roll: nat, roll': nat) returns (ok: bool, r: Option<(Service, int)>)
      requires impl.Valid() && (impl.triedCollisions != {} ==> choice in impl.triedCollisions)
      modifies impl
      ensures impl.Valid() && (old(Passing()) ==> ok && Passing())
      ensures if old(Stops(roll)) then !ok && impl.Model() == old(impl.Model())
              else if old(impl.triedCollisions) != {} && choice !in impl.mapInfo then
                r == None && impl.Model() == old(impl.Model()).(collisions := old(impl.triedCollisions) - {choice})
              else
                && impl.Model() == old(impl.Model()) && Shapes(impl.Model())
                && r == if old(impl.triedCollisions) == {} then None else Incumbent(impl.env, impl.Model(), choice)
    {
      hide Consistent, TimesOk;
      ok := Check(roll);
      if !ok {
        return false, None;
      }
      ghost var s := impl.Model();
      r := impl.SelectTriedCollision(choice);
      SameTimes(s, impl.Model());
      ConsistentShapes(impl.env, impl.Model());
      ok := Check(roll');
    }

    method GetAddr(maxAddresses: nat, maxPct: nat, network: Option<Network>, now: int, picks: nat -> nat, roll: nat, roll': nat)
      returns (ok: bool, addresses: seq<Info>, ghost ids: seq<int>, ghost seen: nat)
      requires impl.Valid()
      modifies impl
      ensures impl.Valid() && (old(Passing()) ==> ok && Passing())
      ensures if old(Stops(roll)) then !ok && impl.Model() == old(impl.Model())
              else
                && Trimmed(old(impl.Model()), impl.Model(), {}) && SameIndexes(old(impl.Model()), impl.Model())
                && seen <= |impl.vRandom| && (forall id <- impl.vRandom[..seen] :: id in impl.mapInfo)
                && ids == Listed(impl.env, impl.Model(), impl.vRandom[..seen], network, now) && |addresses| == |ids|
                && (seen == |impl.vRandom| || |ids| == Limit(|impl.vRandom|, maxAddresses, maxPct))
                && forall i :: 0 <= i < |ids| ==>
                     ids[i] in old(impl.mapInfo) && Record(addresses[i]) == Record(old(impl.mapInfo)[ids[i]])
    {
      hide Consistent, TimesOk, Trimmed, SameIndexes, Listed, Limit;
      ids, seen := [], 0;
      ok := Check(roll);
      if !ok {
        return false, [], ids, seen;
      }
      ghost var s := impl.Model();
      addresses, ids, seen := impl.GetAddr(maxAddresses, maxPct, network, now, picks);
      ListTimes(s, impl.Model());
      ok := Check(roll');
    }

    method Connected(a: Service, time: int, roll: nat, roll': nat) returns (ok: bool)
      requires impl.Valid()
      modifies impl
      ensures impl.Valid() && (old(Passing()) ==> ok && Passing()) && (old(Stops(roll)) ==> !ok)
      ensures impl.Model() == if old(Stops(roll)) then old(impl.Model())
                              else match old(AddrMan.Find(impl.Model(), a))
                                   case None => old(impl.Model())
                                   case Some(id) =>
                                     var e := old(impl.mapInfo)[id];
                                     if time - e.time > 20 * 60 then Revise(old(impl.Model()), id, e.(time := time)) else old(impl.Model())
    {
      hide Consistent, TimesOk, Evolves, Revise;
      ok := Check(roll);
      if !ok {
        return false;
      }
      ghost var s := impl.Model();
      impl.Connected(a, time);
      if AddrMan.Find(s, a).Some? {
        ghost var id := AddrMan.Find(s, a).value;
        RecordTimes(s, id, s.info[id].(time := time));
      }
      ok := Check(roll');
    }

    method SetServices(a: Service, services: set<nat>, roll: nat, roll': nat) returns (ok: bool)
      requires impl.Valid()
      modifies impl
      ensures impl.Valid() && (old(Passing()) ==> ok && Passing()) && (old(Stops(roll)) ==> !ok)
      ensures impl.Model() == if old(Stops(roll)) then old(impl.Model())
                              else match old(AddrMan.Find(impl.Model(), a))
                                   case None => old(impl.Model())
                                   case Some(id) => Revise(old(impl.Model()), id, old(impl.mapInfo)[id].(services := services))
    {
      hide Consistent, TimesOk, Evolves, Revise;
      ok := Check(roll);
      if !ok {
        return false;
      }
      ghost var s := impl.Model();
      impl.SetServices(a, services);
      if AddrMan.Find(s, a).Some? {
        ghost var id := AddrMan.Find(s, a).value;
        RecordTimes(s, id, s.info[id].(services := services));
      }
      ok := Check(roll');
    }
  }
}
