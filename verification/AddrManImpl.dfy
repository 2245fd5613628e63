/** The address manager as an object. Each assert of the original stands where it
    stood, as a proved assertion. */
module AddrManImpl {
  import opened Bits
  import opened Integers
  import opened Wrappers
  import opened AddrMan
  import opened AddrManKeeps
  import opened AddrManMove
  import opened AddrManTried
  import opened AddrManEntry
  import opened AddrManCollisions
  import opened AddrManEviction
  import AddrManCheck

  class AddrManImpl {
    const env: Env
    const nKey: nat
    var nIdCount: int
    var mapInfo: map<int, Info>
    var mapAddr: map<Service, int>
    var vRandom: seq<int>
    var nTried: int
    var vvTried: Table
    var nNew: int
    var vvNew: Table
    var networkCounts: map<Network, Count>
    var triedCollisions: set<int>
    var lastGood: int

    function Model(): State
      reads this
    {
      State(nIdCount, mapInfo, mapAddr, vRandom, vvTried, vvNew, nTried, nNew, networkCounts, triedCollisions, lastGood)
    }

    ghost predicate Valid()
      reads this
    {
      Consistent(env, Model())
    }

    constructor (environment: Env, key: nat)
      ensures env == environment && nKey == key && Model() == EmptyState() && Valid()
    {
      env := environment;
      nKey := key;
      var empty := EmptyState();
      nIdCount, mapInfo, mapAddr, vRandom, triedCollisions, lastGood := 0, map[], map[], [], {}, 1;
      nTried, vvTried, nNew, vvNew, networkCounts := 0, empty.tried, 0, empty.news, map[];
      new;
      EmptyConsistent(env);
    }

    method Find(a: Service) returns (id: Option<int>)
      ensures id == AddrMan.Find(Model(), a)
    {
      id := if a in mapAddr && mapAddr[a] in mapInfo then Some(mapAddr[a]) else None;
    }

    method Count(a: Service, dNew: int, dTried: int)
      modifies this`networkCounts
      ensures networkCounts == AddCount(old(Model()), env.network(a), dNew, dTried)
    {
      var net := env.network(a);
      var c := if net in networkCounts then networkCounts[net] else AddrMan.Count(0, 0);
      networkCounts := networkCounts[net := AddrMan.Count(c.inNew + dNew, c.inTried + dTried)];
    }

    method Create(a: Address, source: NetAddr) returns (id: int)
      modifies this
      ensures id == old(nIdCount) && Model() == AddrMan.Create(env, old(Model()), a, source)
    {
      hide AddCount;
      id := nIdCount;
      nIdCount := nIdCount + 1;
      mapInfo := mapInfo[id := Info(a.service, source, a.time, a.services, 0, 0, 0, 0, 0, false, -1)];
      mapAddr := mapAddr[a.service := id];
      mapInfo := mapInfo[id := mapInfo[id].(randomPos := |vRandom|)];
      assert mapInfo == old(mapInfo)[id := Info(a.service, source, a.time, a.services, 0, 0, 0, 0, 0, false, |vRandom|)];
      vRandom := vRandom + [id];
      nNew := nNew + 1;
      AddCountSame(old(Model()), Model(), env.network(a.service), 1);
      Count(a.service, 1, 0);
    }

    method SwapRandom(i: nat, j: nat)
      requires RandomOk(Model()) && i < |vRandom| && j < |vRandom|
      modifies this`vRandom, this`mapInfo
      ensures Model() == AddrMan.SwapRandom(old(Model()), i, j)
    {
      if i == j {
        return;
      }
      assert i < |vRandom| && j < |vRandom|;
      var x, y := vRandom[i], vRandom[j];
      assert x in mapInfo;
      assert y in mapInfo;
      mapInfo := mapInfo[x := mapInfo[x].(randomPos := j)];
      mapInfo := mapInfo[y := mapInfo[y].(randomPos := i)];
      vRandom := vRandom[i := y];
      vRandom := vRandom[j := x];
    }

    method Delete(id: int)
      requires RandomOk(Model()) && Deletable(Model(), id)
      modifies this
      ensures Model() == AddrMan.Delete(env, old(Model()), id)
    {
      hide RandomOk, AddrMan.SwapRandom, SameIndexes, Trimmed;
      assert id in mapInfo;
      assert !mapInfo[id].inTried;
      assert mapInfo[id].refCount == 0;
      ghost var s := Model();
      var a := mapInfo[id].addr;
      SwapRandomTrims(s, mapInfo[id].randomPos, |vRandom| - 1);
      SwapRandom(mapInfo[id].randomPos, |vRandom| - 1);
      ghost var t := Model();
      Count(a, -1, 0);
      vRandom := vRandom[..|vRandom| - 1];
      mapAddr := mapAddr - {a};
      mapInfo := mapInfo - {id};
      nNew := nNew - 1;
    }

    method ClearNew(b: nat, p: nat, ghost loose: set<int>, ghost limbo: set<int>)
      requires Sound(env, Model(), loose, limbo) && b < NEW_BUCKET_COUNT && p < BUCKET_SIZE
      requires forall x <- limbo :: x in mapInfo ==> mapInfo[x].refCount == 0
      modifies this
      ensures Sound(env, Model(), loose, limbo) && vvNew[b][p] == -1
      ensures if old(vvNew[b][p]) == -1 then Model() == old(Model())
              else vvNew == Put(old(vvNew), b, p, -1) && OthersKept(old(Model()), Model(), old(vvNew[b][p]))
    {
      hide TriedOk, NewOk, CountsOk, AddrsOk, EntriesOk, IdsOk, OthersKept;
      if vvNew[b][p] != -1 {
        ghost var s := Model();
        ClearNewKeeps(env, s, b, p, loose, limbo);
        var id := vvNew[b][p];
        assert mapInfo[id].refCount > 0;
        mapInfo := mapInfo[id := mapInfo[id].(refCount := mapInfo[id].refCount - 1)];
        vvNew := Put(vvNew, b, p, -1);
        assert Model() == Unlink(s, b, p);
        if mapInfo[id].refCount == 0 {
          assert RandomOk(Model()) by {
            UnlinkKeeps(env, s, b, p, loose, limbo);
          }
          Delete(id);
        }
        assert Model() == AddrMan.ClearNew(env, s, b, p);
      }
    }

    /** Remove an entry from all new buckets, scanning from its default bucket. */
    method DropFromNew(id: int)
      requires Sound(env, Model(), {}, {}) && id in mapInfo && !mapInfo[id].inTried && mapInfo[id].refCount > 0
      modifies this`mapInfo, this`vvNew
      ensures Sound(env, Model(), {id}, {}) && SameButRefs(old(Model()), Model()) && mapInfo[id].refCount == 0
      ensures forall x <- old(mapInfo) :: x != id ==> mapInfo[x] == old(mapInfo)[x]
      ensures Without(old(vvNew), vvNew, id)
    {
      hide TriedOk, SlotsOk, RefsOk, CountsOk, AddrsOk, RandomOk, EntriesOk, IdsOk, SameButRefs, Scanned, Losing,
        Env.NewBucket, Env.Position;
      ghost var s := Model();
      LooseMore(env, s, {}, {id}, {});
      SameRefsReflexive(s);
      var a := mapInfo[id].addr;
      var start := env.NewBucket(a, mapInfo[id].source);
      ScannedNone(env, s, a, id, start);
      LosingNone(s.news, id);
      var n := 0;
      while n < NEW_BUCKET_COUNT && mapInfo[id].refCount != 0
        invariant 0 <= n <= NEW_BUCKET_COUNT && id in mapInfo && mapInfo[id].addr == a && !mapInfo[id].inTried
        invariant Sound(env, Model(), {id}, {}) && SameButRefs(s, Model()) && mapInfo.Keys == s.info.Keys
        invariant forall x <- s.info :: x != id ==> mapInfo[x] == s.info[x]
        invariant Scanned(env, Model(), a, id, start, n) && Losing(s.news, vvNew, id)
        decreases NEW_BUCKET_COUNT - n
      {
        var bucket := ScanBucket(start, n);
        var pos := env.Position(true, bucket, a);
        if vvNew[bucket][pos] == id {
          ghost var t := Model();
          NoId(t);
          UnlinkKeeps(env, t, bucket, pos, {id}, {});
          LooseMore(env, Unlink(t, bucket, pos), if t.info[id].refCount > 1 then {id} - {id} else {id} + {id}, {id}, {});
          SameRefsTransitive(s, t, Unlink(t, bucket, pos));
          LosingOne(s.news, vvNew, id, bucket, pos);
          vvNew := Put(vvNew, bucket, pos, -1);
          mapInfo := mapInfo[id := mapInfo[id].(refCount := mapInfo[id].refCount - 1)];
          assert Model() == Unlink(t, bucket, pos);
          ScannedUnlink(env, t, Model(), a, id, start, n);
        } else {
          ScannedOther(env, Model(), a, id, start, n);
        }
        n := n + 1;
      }
      AllScanned(env, Model(), id, start, n);
      NoId(Model());
      LostAll(env, s.news, Model(), id);
    }

    /** The first half of the move: the entry is in neither table and not counted. */
    method LeaveNew(id: int)
      requires Sound(env, Model(), {}, {}) && id in mapInfo && !mapInfo[id].inTried && mapInfo[id].refCount > 0
      modifies this`mapInfo, this`vvNew, this`nNew, this`networkCounts
      ensures Sound(env, Model(), {id}, {id}) && Without(old(vvNew), vvNew, id)
      ensures id in mapInfo && mapInfo[id] == old(mapInfo)[id].(refCount := 0)
      ensures Kept(old(Model()), Model(), -1) && SameTable(old(Model()), Model())
    {
      hide TriedOk, SlotsOk, RefsOk, CountsOk, AddrsOk, RandomOk, EntriesOk, IdsOk, Kept, SameButRefs, Without, SameTable;
      ghost var s := Model();
      DropFromNew(id);
      KeptByRefs(s, Model(), id);
      ghost var t := Model();
      UncountKeeps(env, t, id, {id}, {});
      nNew := nNew - 1;
      Count(mapInfo[id].addr, -1, 0);
      assert Model() == Uncount(env, t, id) && {} + {id} == {id};
      KeptCounters(s, t, Model());
    }

    method LeaveTried(b: nat, p: nat)
      requires Shapes(Model()) && b < TRIED_BUCKET_COUNT && p < BUCKET_SIZE && vvTried[b][p] in mapInfo
      modifies this`mapInfo, this`vvTried, this`nTried, this`networkCounts
      ensures Model() == Evict(env, old(Model()), b, p)
    {
      var id := vvTried[b][p];
      mapInfo := mapInfo[id := mapInfo[id].(inTried := false)];
      vvTried := Put(vvTried, b, p, -1);
      nTried := nTried - 1;
      Count(mapInfo[id].addr, 0, -1);
    }

    method ReenterNew(b: nat, p: nat, id: int)
      requires Shapes(Model()) && b < NEW_BUCKET_COUNT && p < BUCKET_SIZE && id in mapInfo && mapInfo[id].refCount == 0
      modifies this`mapInfo, this`vvNew, this`nNew, this`networkCounts
      ensures Model() == Recount(env, Link(old(Model()), b, p, id), id)
    {
      mapInfo := mapInfo[id := mapInfo[id].(refCount := 1)];
      vvNew := Put(vvNew, b, p, id);
      nNew := nNew + 1;
      Count(mapInfo[id].addr, 1, 0);
    }

    method EnterTried(id: int)
      requires Shapes(Model()) && id in mapInfo
      modifies this`mapInfo, this`vvTried, this`nTried, this`networkCounts
      ensures Model() == Place(env, old(Model()), id)
    {
      hide Env.TriedBucket, Env.Position;
      var b := env.TriedBucket(mapInfo[id].addr);
      vvTried := Put(vvTried, b, env.Position(false, b, mapInfo[id].addr), id);
      nTried := nTried + 1;
      mapInfo := mapInfo[id := mapInfo[id].(inTried := true)];
      Count(mapInfo[id].addr, 0, 1);
    }

    /** Evict the entry in a tried slot to the new table, where it may displace
        one entry: the only one that can be lost. */
    method MakeRoom(kBucket: nat, kPos: nat, ghost id: int) returns (ghost lost: int)
      requires Sound(env, Model(), {id}, {id}) && kBucket < TRIED_BUCKET_COUNT && kPos < BUCKET_SIZE
      requires vvTried[kBucket][kPos] != -1 && id in mapInfo && !mapInfo[id].inTried && mapInfo[id].refCount == 0
      modifies this
      ensures Sound(env, Model(), {id}, {id}) && vvTried == Put(old(vvTried), kBucket, kPos, -1)
      ensures Kept(old(Model()), Model(), lost)
      ensures id in mapInfo && mapInfo[id].(randomPos := 0) == old(mapInfo)[id].(randomPos := 0)
      ensures NewHome(env, old(Model()), old(vvTried[kBucket][kPos]), vvNew)
    {
      hide TriedOk, SlotsOk, RefsOk, CountsOk, AddrsOk, RandomOk, EntriesOk, IdsOk, OthersKept, SameButRefs, Kept;
      ghost var s := Model();
      var evicted := vvTried[kBucket][kPos];
      EvictKeeps(env, s, kBucket, kPos, {id}, {id});
      assert evicted in mapInfo;
      LeaveTried(kBucket, kPos);
      ghost var t := Model();
      var uBucket := env.NewBucket(mapInfo[evicted].addr, mapInfo[evicted].source);
      var uPos := env.Position(true, uBucket, mapInfo[evicted].addr);
      lost := vvNew[uBucket][uPos];
      NoId(t);
      Referenced(env, t, uBucket, uPos);
      ClearNew(uBucket, uPos, {id} + {evicted}, {id} + {evicted});
      assert vvNew[uBucket][uPos] == -1;
      ghost var u := Model();
      KeptByClear(t, u, lost, id);
      KeptByClear(t, u, lost, evicted);
      ReadmitKeeps(env, u, uBucket, evicted, id);
      ReenterNew(uBucket, uPos, evicted);
      PutTwice(s.news, uBucket, uPos, -1, evicted);
      RoomKept(s, t, u, Model(), lost, evicted);
    }

    /** Move an entry to the tried table; an entry already in the slot goes back to
        the new table. */
    method MakeTried(id: int) returns (ghost lost: int)
      requires Sound(env, Model(), {}, {}) && id in mapInfo && !mapInfo[id].inTried && mapInfo[id].refCount > 0
      modifies this
      ensures Sound(env, Model(), {}, {}) && MadeTried(env, old(Model()), Model(), id, lost)
    {
      hide TriedOk, SlotsOk, RefsOk, CountsOk, AddrsOk, RandomOk, EntriesOk, IdsOk, Kept, Without, SameTable, MovedNews, NewHome;
      ghost var s := Model();
      NoId(s);
      LeaveNew(id);
      assert mapInfo[id].refCount == 0;
      ghost var u := Model();
      SameTriedTable(s, u);
      var kBucket := env.TriedBucket(mapInfo[id].addr);
      var kPos := env.Position(false, kBucket, mapInfo[id].addr);
      lost := -1;
      if vvTried[kBucket][kPos] != -1 {
        lost := MakeRoom(kBucket, kPos, id);
      }
      assert vvTried[kBucket][kPos] == -1;
      PutTwice(s.tried, kBucket, kPos, -1, id);
      ghost var v := Model();
      PlaceKeeps(env, v, id);
      EnterTried(id);
      KeptThrough(s, u, v, Model(), lost, id);
      NewsMoved(env, s, u, vvNew, id);
    }

    /** Only the record of an entry changes. */
    method SetRecord(id: int, e: Info)
      requires Valid() && id in mapInfo && Stays(mapInfo[id], e)
      modifies this`mapInfo
      ensures Valid() && Model() == Revise(old(Model()), id, e) && Evolves(old(Model()), Model())
    {
      hide TriedOk, NewOk, CountsOk, AddrsOk, RandomOk, EntriesOk, IdsOk, Evolves, CollisionsOk;
      ghost var s := Model();
      ReviseKeeps(env, s, id, e, {});
      CollisionsEvolve(env, s, Revise(s, id, e));
      mapInfo := mapInfo[id := e];
    }

    /** A connection to an address succeeded. */
    method Good(a: Service, testBeforeEvict: bool, time: int) returns (moved: bool, ghost lost: int)
      requires Valid()
      modifies this
      ensures Valid() && Evolves(old(Model()), Model())
      ensures GoodResult(env, old(Model()), Model(), a, testBeforeEvict, time, moved, lost)
    {
      hide TriedOk, NewOk, CountsOk, AddrsOk, RandomOk, EntriesOk, IdsOk, Evolves, CollisionsOk, Kept, MovedNews;
      ghost var s := Model();
      lost := -1;
      NotesKeep(env, s, s.(lastGood := time));
      CollisionsEvolve(env, s, s.(lastGood := time));
      lastGood := time;
      ghost var s' := Model();
      Found(s, a);
      var found := Find(a);
      if found.None? {
        return false, lost;
      }
      var id := found.value;
      SetRecord(id, Succeeded(mapInfo[id], time));
      ghost var u := Model();
      EvolvesTransitive(s, s', u);
      if mapInfo[id].inTried {
        return false, lost;
      }
      NewcomerFacts(env, u, {}, id);
      assert mapInfo[id].refCount > 0;
      var bucket := env.TriedBucket(mapInfo[id].addr);
      var pos := env.Position(false, bucket, mapInfo[id].addr);
      if testBeforeEvict && vvTried[bucket][pos] != -1 {
        if |triedCollisions| < TRIED_COLLISION_SIZE {
          CollisionAdded(env, u, id);
          triedCollisions := triedCollisions + {id};
          EvolvesTransitive(s, u, Model());
        }
        return false, lost;
      }
      lost := MakeTried(id);
      KeptEvolves(u, Model(), lost, bucket, pos, id);
      EvolvesTransitive(s, u, Model());
      KeptCollisions(u, Model(), lost);
      CollisionsEvolve(env, u, Model());
      moved := true;
    }

    /** A connection to an address was attempted. */
    method Attempt(a: Service, countFailure: bool, time: int)
      requires Valid()
      modifies this`mapInfo
      ensures Valid() && Evolves(old(Model()), Model())
      ensures Model() == match AddrMan.Find(old(Model()), a)
                         case None => old(Model())
                         case Some(id) => Revise(old(Model()), id, Attempted(old(mapInfo)[id], countFailure, time, lastGood))
    {
      hide TriedOk, NewOk, CountsOk, AddrsOk, RandomOk, IdsOk, CollisionsOk;
      var found := Find(a);
      if found.Some? {
        var e := mapInfo[found.value];
        e := e.(lastTry := time);
        if countFailure && e.lastCountAttempt < lastGood {
          e := e.(lastCountAttempt := time, attempts := e.attempts + 1);
        }
        SetRecord(found.value, e);
      }
    }

    method Connected(a: Service, time: int)
      requires Valid()
      modifies this`mapInfo
      ensures Valid() && Evolves(old(Model()), Model())
      ensures Model() == match AddrMan.Find(old(Model()), a)
                         case None => old(Model())
                         case Some(id) =>
                           var e := old(mapInfo)[id];
                           if time - e.time > 20 * 60 then Revise(old(Model()), id, e.(time := time)) else old(Model())
    {
      hide TriedOk, NewOk, CountsOk, AddrsOk, RandomOk, IdsOk, CollisionsOk;
      var found := Find(a);
      if found.Some? && time - mapInfo[found.value].time > 20 * 60 {
        SetRecord(found.value, mapInfo[found.value].(time := time));
      }
    }

    method SetServices(a: Service, services: set<nat>)
      requires Valid()
      modifies this`mapInfo
      ensures Valid() && Evolves(old(Model()), Model())
      ensures Model() == match AddrMan.Find(old(Model()), a)
                         case None => old(Model())
                         case Some(id) => Revise(old(Model()), id, old(mapInfo)[id].(services := services))
    {
      hide TriedOk, NewOk, CountsOk, AddrsOk, RandomOk, IdsOk, CollisionsOk;
      var found := Find(a);
      if found.Some? {
        SetRecord(found.value, mapInfo[found.value].(services := services));
      }
    }

    /** Enter an entry into a new bucket, unless a better entry has its slot there; an
        entry left without any bucket is deleted. */
    method Enter(id: int, bucket: nat, now: int) returns (inserted: bool)
      requires Sound(env, Model(), {id}, {}) && bucket < NEW_BUCKET_COUNT && id in mapInfo
      requires !mapInfo[id].inTried && mapInfo[id].refCount < NEW_BUCKETS_PER_ADDRESS
      modifies this
      ensures Sound(env, Model(), {}, {}) && Evolves(old(Model()), Model()) && triedCollisions == old(triedCollisions)
      ensures EnterResult(env, old(Model()), Model(), bucket, id, now, inserted)
    {
      hide TriedOk, SlotsOk, RefsOk, CountsOk, AddrsOk, RandomOk, EntriesOk, IdsOk, Evolves, OthersKept, SameButRefs;
      ghost var s := Model();
      NewcomerFacts(env, s, {id}, id);
      NewSlotFacts(env, s, bucket, env.Position(true, bucket, mapInfo[id].addr));
      var pos := env.Position(true, bucket, mapInfo[id].addr);
      inserted := vvNew[bucket][pos] == -1;
      if vvNew[bucket][pos] != id {
        if !inserted {
          var existing := mapInfo[vvNew[bucket][pos]];
          if existing.IsTerrible(now) || (existing.refCount > 1 && mapInfo[id].refCount == 0) {
            inserted := true;
          }
        }
        if inserted {
          ClearNew(bucket, pos, {id}, {});
          ghost var u := Model();
          ClearedFacts(s, u, bucket, pos, id);
          LinkKeeps(env, u, bucket, id, {id}, {});
          mapInfo := mapInfo[id := mapInfo[id].(refCount := mapInfo[id].refCount + 1)];
          vvNew := Put(vvNew, bucket, pos, id);
          assert Model() == Link(u, bucket, pos, id) && {id} - {id} == {};
          EnteredBy(s, u, Model(), bucket, pos, id);
          RefsEvolve(s, u, Model());
        } else if mapInfo[id].refCount == 0 {
          DeleteKeeps(env, s, id, {id}, {});
          Delete(id);
          assert {id} - {id} == {};
        } else {
          Settled(env, s, id);
        }
      } else {
        Referenced(env, s, bucket, pos);
        Settled(env, s, id);
      }
    }

    /** One announced address. */
    method AddSingle(a: Address, source: NetAddr, penalty: int, now: int, later: int, roll: nat) returns (inserted: bool)
      requires Valid()
      modifies this
      ensures Valid() && Evolves(old(Model()), Model())
      ensures AddResult(env, old(Model()), Model(), a, source, penalty, now, later, roll, inserted)
    {
      hide TriedOk, SlotsOk, RefsOk, CountsOk, AddrsOk, RandomOk, EntriesOk, IdsOk, Evolves, EnterResult, CollisionsOk,
        Newcomer, Revise;
      ghost var s := Model();
      EvolvesReflexive(s);
      if !env.routable(a.service) {
        return false;
      }
      Found(s, a.service);
      var found := Find(a.service);
      var cost := if env.netAddr(a.service) == source then 0 else penalty;
      var id;
      if found.Some? {
        id := found.value;
        var worth := Refresh(id, a, cost, now, roll);
        if !worth {
          return false;
        }
        NewcomerFacts(env, Model(), {}, id);
        LooseMore(env, Model(), {}, {id}, {});
      } else {
        id := Introduce(a, source, cost);
      }
      ghost var u := Model();
      inserted := Enter(id, env.NewBucket(a.service, source), later);
      EvolvesTransitive(s, u, Model());
      CollisionsEvolve(env, s, Model());
    }

    /** News about a known address: update its record and say whether to give it
        another bucket. */
    method Refresh(id: int, a: Address, cost: int, now: int, roll: nat) returns (worth: bool)
      requires Valid() && id in mapInfo
      modifies this`mapInfo
      ensures Valid() && Evolves(old(Model()), Model()) && id in mapInfo
      ensures mapInfo[id] == Refreshed(old(mapInfo)[id], a, cost, now)
      ensures Model() == Revise(old(Model()), id, mapInfo[id])
      ensures worth == WorthEntering(mapInfo[id], a, roll)
    {
      hide TriedOk, SlotsOk, RefsOk, CountsOk, AddrsOk, RandomOk, IdsOk, Evolves, CollisionsOk;
      var e := mapInfo[id];
      var online := now - a.time < 24 * HOUR;
      var interval := if online then HOUR else 24 * HOUR;
      if e.time < a.time - interval - cost {
        e := e.(time := Max(0, a.time - cost));
      }
      e := e.(services := e.services + a.services);
      SetRecord(id, e);
      if a.time <= e.time || e.inTried || e.refCount == NEW_BUCKETS_PER_ADDRESS {
        return false;
      }
      var factor := 1;
      var n := 0;
      while n < e.refCount
        invariant n >= 0 && (e.refCount >= 0 ==> n <= e.refCount) && (e.refCount < 0 ==> n == 0) && factor == Pow2(n)
      {
        factor := factor * 2;
        n := n + 1;
      }
      worth := !(factor > 1 && roll % factor != 0);
    }

    /** An entry for an address not known before. */
    method Introduce(a: Address, source: NetAddr, cost: int) returns (id: int)
      requires Valid() && a.service !in mapAddr
      modifies this
      ensures id == old(nIdCount) && Model() == Newcomer(env, old(Model()), a, source, cost)
      ensures Sound(env, Model(), {id}, {}) && Evolves(old(Model()), Model()) && triedCollisions == old(triedCollisions)
      ensures id in mapInfo && mapInfo[id].addr == a.service && !mapInfo[id].inTried && mapInfo[id].refCount == 0
    {
      hide TriedOk, SlotsOk, RefsOk, CountsOk, AddrsOk, RandomOk, EntriesOk, IdsOk, Evolves, CollisionsOk;
      NewcomerKeeps(env, Model(), a, source, cost);
      id := Create(a, source);
      mapInfo := mapInfo[id := mapInfo[id].(time := Max(0, a.time - cost))];
    }

    /** Announced addresses; `steps` are the states between them and `flags` tells
        which were inserted. */
    method Add(addrs: seq<Address>, source: NetAddr, penalty: int, clock: nat -> int, later: nat -> int, rolls: nat -> nat)
      returns (added: bool, ghost steps: seq<State>, ghost flags: seq<bool>)
      requires Valid()
      modifies this
      ensures Valid() && Shapes(old(Model())) && Shapes(Model()) && Evolves(old(Model()), Model())
      ensures AddSteps(env, steps, addrs, source, penalty, clock, later, rolls, flags)
      ensures steps[0] == old(Model()) && steps[|addrs|] == Model()
      ensures added <==> true in flags
    {
      hide Sound, Shapes, CollisionsOk, Evolves, AddResult, AddSteps;
      ghost var s := Model();
      ConsistentShapes(env, s);
      EvolvesReflexive(s);
      NoSteps(env, s, source, penalty, clock, later, rolls);
      steps, flags := [s], [];
      var count := 0;
      for n := 0 to |addrs|
        invariant Valid() && |flags| == n && |steps| == n + 1 && steps[0] == s && steps[n] == Model()
        invariant Shapes(Model()) && Evolves(s, Model())
        invariant AddSteps(env, steps, addrs[..n], source, penalty, clock, later, rolls, flags)
        invariant count >= 0 && (count > 0 <==> true in flags)
      {
        ghost var t := Model();
        var inserted := AddSingle(addrs[n], source, penalty, clock(n), later(n), rolls(n));
        ConsistentShapes(env, Model());
        EvolvesTransitive(s, t, Model());
        AddStepsMore(env, steps, addrs, n, source, penalty, clock, later, rolls, flags, Model(), inserted);
        count := count + if inserted then 1 else 0;
        steps := steps + [Model()];
        flags := flags + [inserted];
      }
      assert addrs[..|addrs|] == addrs;
      StepsShape(env, steps, addrs, source, penalty, clock, later, rolls, flags);
      added := count > 0;
    }

    /** Settle one recorded collision; it is erased unless it is to be kept. */
    method ResolveOne(id: int, now: int)
      requires Valid() && id in triedCollisions
      modifies this
      ensures Valid() && Evolves(old(Model()), Model())
      ensures Resolved(env, old(Model()), Model(), id, now)
      ensures id in old(mapInfo) && env.valid(old(mapInfo)[id].addr) ==>
                TriedAt(env, old(Model()), old(mapInfo)[id].addr) in old(mapInfo) && SettledBy(env, old(Model()), Model(), id, now)
    {
      hide NewOk, CountsOk, AddrsOk, RandomOk, EntriesOk, IdsOk, Evolves, CollisionsOk, Kept, MovedNews, SettledBy;
      ghost var s := Model();
      var verdict := Drop;
      if id in mapInfo {
        var e := mapInfo[id];
        var bucket := env.TriedBucket(e.addr);
        var pos := env.Position(false, bucket, e.addr);
        if !env.valid(e.addr) {
          verdict := Drop;
        } else if vvTried[bucket][pos] != -1 {
          var incumbent := mapInfo[vvTried[bucket][pos]];
          if now - incumbent.lastSuccess < REPLACEMENT {
            verdict := Drop;
          } else if now - incumbent.lastTry < REPLACEMENT {
            verdict := if now - incumbent.lastTry > 60 then Replace else Keep;
          } else {
            verdict := if now - e.lastSuccess > TEST_WINDOW then Replace else Keep;
          }
        } else {
          verdict := Replace;
        }
      }
      assert verdict == Judge(env, s, id, now);
      EvolvesReflexive(s);
      if verdict != Keep {
        ghost var moved, lost := false, -1;
        if verdict == Replace {
          moved, lost := TakeGood(mapInfo[id].addr, now);
        }
        ghost var u := Model();
        DropKeeps(env, u, id);
        ConsistentTried(env, u);
        triedCollisions := triedCollisions - {id};
        ConsistentTried(env, Model());
        EvolvesTransitive(s, u, Model());
        assert Model().(collisions := s.collisions) == u;
      }
      if id in s.info && env.valid(s.info[id].addr) {
        CollisionOccupied(env, s, id);
        CollisionSettled(env, s, Model(), id, now);
      }
    }

    /** A success that needs no test first records no collision. */
    method TakeGood(a: Service, time: int) returns (ghost moved: bool, ghost lost: int)
      requires Valid()
      modifies this
      ensures Valid() && Evolves(old(Model()), Model()) && triedCollisions == old(triedCollisions)
      ensures GoodResult(env, old(Model()), Model(), a, false, time, moved, lost)
    {
      hide TriedOk, NewOk, CountsOk, AddrsOk, RandomOk, EntriesOk, IdsOk, Evolves, CollisionsOk, MovedNews;
      moved, lost := Good(a, false, time);
    }

    /** Settle all recorded collisions, by increasing id. */
    method ResolveCollisions(clock: int -> int) returns (ghost ids: seq<int>, ghost steps: seq<State>)
      requires Valid()
      modifies this
      ensures Valid() && Shapes(old(Model())) && Shapes(Model()) && Evolves(old(Model()), Model())
      ensures Ascending(ids) && (forall id :: id in ids <==> id in old(triedCollisions))
      ensures ResolveSteps(env, steps, ids, clock) && |steps| == |ids| + 1
      ensures steps[0] == old(Model()) && steps[|ids|] == Model()
    {
      hide Sound, Shapes, TriedOk, CollisionsOk, Evolves, Resolved, ResolveSteps;
      ghost var s := Model();
      ConsistentTried(env, s);
      EvolvesReflexive(s);
      NoResolveSteps(env, s, clock);
      ids, steps := [], [s];
      var todo := triedCollisions;
      while todo != {}
        invariant Valid() && Shapes(Model()) && Evolves(s, Model())
        invariant todo <= s.collisions && todo <= triedCollisions
        invariant Ascending(ids) && (forall id :: id in ids <==> id in s.collisions && id !in todo)
        invariant forall id <- ids, x <- todo :: id < x
        invariant ResolveSteps(env, steps, ids, clock) && |steps| == |ids| + 1 && steps[0] == s && steps[|ids|] == Model()
        decreases todo
      {
        ghost var least := HasLeast(todo);
        var id :| id in todo && forall x <- todo :: id <= x;
        ghost var t := Model();
        ConsistentTried(env, t);
        ResolveOne(id, clock(id));
        ConsistentTried(env, Model());
        EvolvesTransitive(s, t, Model());
        ResolvedCollisions(env, t, Model(), id, clock(id));
        ResolveStepsMore(env, steps, ids, clock, id, Model());
        todo := todo - {id};
        AscendingMore(ids, id);
        ids := ids + [id];
        steps := steps + [Model()];
      }
    }

    /** The entry that a recorded collision is with, or nothing when the colliding
        address is no longer known; `choice` is the random pick. */
    method SelectTriedCollision(choice: int) returns (r: Option<(Service, int)>)
      requires Valid() && (triedCollisions != {} ==> choice in triedCollisions)
      modifies this`triedCollisions
      ensures Valid()
      ensures if old(triedCollisions) == {} then r == None && Model() == old(Model())
              else if choice !in mapInfo then
                r == None && Model() == old(Model()).(collisions := old(triedCollisions) - {choice})
              else
                && Model() == old(Model()) && Shapes(Model())
                && var slot := TriedAt(env, Model(), mapInfo[choice].addr);
                slot != -1 && slot in mapInfo && mapInfo[slot].inTried && r == Some((mapInfo[slot].addr, mapInfo[slot].lastTry))
    {
      hide NewOk, CountsOk, AddrsOk, RandomOk, EntriesOk, IdsOk, CollisionsOk;
      if triedCollisions == {} {
        return None;
      }
      if choice !in mapInfo {
        DropKeeps(env, Model(), choice);
        triedCollisions := triedCollisions - {choice};
        return None;
      }
      CollisionOccupied(env, Model(), choice);
      var bucket := env.TriedBucket(mapInfo[choice].addr);
      var incumbent := mapInfo[vvTried[bucket][env.Position(false, bucket, mapInfo[choice].addr)]];
      r := Some((incumbent.addr, incumbent.lastTry));
    }

    /** A random list of addresses of good quality; `picks` are the random choices. */
    method GetAddr(maxAddresses: nat, maxPct: nat, network: Option<Network>, now: int, picks: nat -> nat)
      returns (addresses: seq<Info>, ghost ids: seq<int>, ghost seen: nat)
      requires Valid()
      modifies this`vRandom, this`mapInfo
      ensures Valid() && Trimmed(old(Model()), Model(), {}) && SameIndexes(old(Model()), Model())
      ensures seen <= |vRandom| == |old(vRandom)| && forall id <- vRandom[..seen] :: id in mapInfo
      ensures ids == Listed(env, Model(), vRandom[..seen], network, now)
      ensures |addresses| == |ids| <= Limit(|vRandom|, maxAddresses, maxPct)
      ensures seen == |vRandom| || |addresses| == Limit(|vRandom|, maxAddresses, maxPct)
      ensures forall i :: 0 <= i < |ids| ==> ids[i] in old(mapInfo) && Record(addresses[i]) == Record(old(mapInfo)[ids[i]])
    {
      hide TriedOk, NewOk, CountsOk, AddrsOk, RandomOk, EntriesOk, IdsOk, CollisionsOk, Trimmed, SameIndexes, Sound, Listed,
           Limit, Pick, Listable;
      ghost var s := Model();
      var limit := AddressLimit(|vRandom|, maxAddresses, maxPct);
      addresses, ids := [], [];
      var n := 0;
      TrimmedReflexive(s);
      NothingListed(env, s, network, now);
      while n < |vRandom| && |addresses| < limit
        invariant n <= |vRandom| == |s.random| && Sound(env, Model(), {}, {})
        invariant Trimmed(s, Model(), {}) && SameIndexes(s, Model())
        invariant forall id <- vRandom[..n] :: id in mapInfo
        invariant ids == Listed(env, Model(), vRandom[..n], network, now)
        invariant |addresses| == |ids| <= limit
        invariant forall i :: 0 <= i < |ids| ==> ids[i] in s.info && Record(addresses[i]) == Record(s.info[ids[i]])
        decreases |vRandom| - n
      {
        ghost var t := Model();
        var pick := Pick(picks(n), n, |vRandom|);
        SwapStep(env, s, t, n, pick, network, now);
        SwapRandom(n, pick);
        var id := vRandom[n];
        assert id in mapInfo;
        ListedNext(env, Model(), vRandom, n, network, now);
        if Listable(env, mapInfo[id], network, now) {
          RecordTrimmed(s, Model(), id);
          addresses := addresses + [mapInfo[id]];
          ids := ids + [id];
        }
        n := n + 1;
      }
      seen := n;
      TrimmedConsistent(env, s, Model());
    }

    /** Between operations the run-time check can only fail for the times or the key. */
    method CheckAddrman() returns (code: int)
      requires Valid()
      ensures code == 0 <==> TimesOk(Model()) && nKey != 0
    {
      hide TriedOk, NewOk, CountsOk, RandomOk, EntriesOk, AddrsOk, IdsOk, CollisionsOk, TimesOk, AddrManCheck.CheckPasses;
      AddrManCheck.SoundPasses(env, nKey, Model());
      code := AddrManCheck.CheckAddrman(env, nKey, Model());
    }
  }
}
