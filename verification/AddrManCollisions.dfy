/** Tried collisions: how a recorded collision is settled, over whole passes, and
    the random listing of addresses. */
module AddrManCollisions {
  import opened Wrappers
  import opened AddrMan
  import opened AddrManKeeps
  import opened AddrManTried
  import opened AddrManEntry

  datatype Verdict = Keep | Drop | Replace

  /** How a recorded collision of `id` is to be settled. */
  function Judge(env: Env, s: State, id: int, now: int): Verdict
    requires Shapes(s) && TriedOk(env, s)
  {
    if id !in s.info || !env.valid(s.info[id].addr) then Drop
    else
      var slot := TriedAt(env, s, s.info[id].addr);
      if slot == -1 then Replace
      else
        var incumbent := s.info[slot];
        if now - incumbent.lastSuccess < REPLACEMENT then Drop
        else if now - incumbent.lastTry < REPLACEMENT then
          if now - incumbent.lastTry > 60 then Replace else Keep
        else if now - s.info[id].lastSuccess > TEST_WINDOW then Replace
        else Keep
  }

  /** One collision settled: kept, dropped, or dropped after the address was taken
      as good without a test. */
  ghost predicate Resolved(env: Env, s: State, t: State, id: int, now: int)
    requires Shapes(s) && TriedOk(env, s)
  {
    match Judge(env, s, id, now)
    case Keep => t == s
    case Drop => t == s.(collisions := s.collisions - {id})
    case Replace =>
      id in s.info && t.collisions == s.collisions - {id} &&
      exists moved, lost ::
        GoodResult(env, s, t.(collisions := s.collisions), s.info[id].addr, false, now, moved, lost)
  }

  ghost predicate ResolveSteps(env: Env, steps: seq<State>, ids: seq<int>, clock: int -> int) {
    && |steps| == |ids| + 1 && Consistent(env, steps[|ids|])
    && (ids != [] ==>
          var n := |ids| - 1;
          && Shapes(steps[n]) && TriedOk(env, steps[n])
          && Resolved(env, steps[n], steps[n + 1], ids[n], clock(ids[n]))
          && ResolveSteps(env, steps[..n + 1], ids[..n], clock))
  }

  lemma {:induction false} ResolveStepsMore(env: Env, steps: seq<State>, ids: seq<int>, clock: int -> int, id: int, t: State)
    requires ResolveSteps(env, steps, ids, clock) && |steps| == |ids| + 1
    requires Shapes(steps[|ids|]) && TriedOk(env, steps[|ids|]) && Resolved(env, steps[|ids|], t, id, clock(id))
    requires Consistent(env, t)
    ensures ResolveSteps(env, steps + [t], ids + [id], clock)
  {
    hide Resolved, Shapes, TriedOk, Consistent;
    assert (steps + [t])[..|ids| + 1] == steps;
    assert (ids + [id])[..|ids|] == ids;
  }

  predicate Ascending(ids: seq<int>) {
    forall i, j :: 0 <= i < j < |ids| ==> ids[i] < ids[j]
  }

  lemma {:induction false} AscendingMore(ids: seq<int>, id: int)
    requires Ascending(ids) && forall x <- ids :: x < id
    ensures Ascending(ids + [id])
  {
    var more := ids + [id];
    forall i, j | 0 <= i < j < |more|
      ensures more[i] < more[j]
    {
      assert more[i] == ids[i] && ids[i] in ids;
    }
  }

  lemma {:induction false} HasLeast(ids: set<int>) returns (least: int)
    requires ids != {}
    ensures least in ids && forall x <- ids :: least <= x
    decreases |ids|
  {
    assert (forall x :: x !in ids) ==> ids == {};
    var first :| first in ids;
    var rest := ids - {first};
    least := first;
    if rest != {} {
      var other := HasLeast(rest);
      least := if other < first then other else first;
    }
    forall x <- ids
      ensures least <= x
    {
      assert x == first || x in rest;
    }
  }

  /** Dropping a collision keeps everything. */
  lemma {:induction false} DropKeeps(env: Env, s: State, id: int)
    requires Consistent(env, s)
    ensures var t := s.(collisions := s.collisions - {id}); Consistent(env, t) && Evolves(s, t)
  {
    hide Sound, Evolves, CollisionsOk;
    var t := s.(collisions := s.collisions - {id});
    SoundShapes(env, s);
    NotesKeep(env, s, t);
    SoundShapes(env, t);
    CollisionsEvolve(env, s, t);
  }

  lemma {:induction false} SoundShapes(env: Env, s: State)
    requires Sound(env, s, {}, {})
    ensures Shapes(s)
  {
  }

  lemma {:induction false} ConsistentTried(env: Env, s: State)
    requires Consistent(env, s)
    ensures Shapes(s) && TriedOk(env, s)
  {
  }

  /** A colliding address that is still known collides with an entry. */
  lemma {:induction false} CollisionOccupied(env: Env, s: State, id: int)
    requires Consistent(env, s) && id in s.collisions && id in s.info
    ensures var slot := TriedAt(env, s, s.info[id].addr); slot != -1 && slot in s.info
  {
    hide NewOk, CountsOk, AddrsOk, RandomOk, EntriesOk;
  }

  // ----- Listing addresses ---------------------------------------------------------

  predicate Listable(env: Env, e: Info, network: Option<Network>, now: int) {
    (network.None? || env.netClass(e.addr) == network.value) && !e.IsTerrible(now)
  }

  /** The listable entries among `ids`, in order. */
  function Listed(env: Env, s: State, ids: seq<int>, network: Option<Network>, now: int): seq<int>
    requires forall id <- ids :: id in s.info
  {
    if ids == [] then []
    else
      var last := ids[|ids| - 1];
      var rest := Listed(env, s, ids[..|ids| - 1], network, now);
      if Listable(env, s.info[last], network, now) then rest + [last] else rest
  }

  lemma {:induction false} ListedKept(env: Env, s: State, t: State, ids: seq<int>, network: Option<Network>, now: int)
    requires (forall id <- ids :: id in s.info) && Trimmed(s, t, {})
    ensures forall id <- ids :: id in t.info
    ensures Listed(env, t, ids, network, now) == Listed(env, s, ids, network, now)
  {
    if ids != [] {
      ListedKept(env, s, t, ids[..|ids| - 1], network, now);
      var last := ids[|ids| - 1];
      assert t.info[last].(randomPos := 0) == s.info[last].(randomPos := 0);
    }
  }

  /** Listing picks listable ids, misses none, and repeats none. */
  lemma {:induction false} ListedMeans(env: Env, s: State, ids: seq<int>, network: Option<Network>, now: int)
    requires (forall id <- ids :: id in s.info) && forall i, j :: 0 <= i < j < |ids| ==> ids[i] != ids[j]
    ensures var l := Listed(env, s, ids, network, now);
            && (forall id :: id in l <==> id in ids && Listable(env, s.info[id], network, now))
            && (forall i, j :: 0 <= i < j < |l| ==> l[i] != l[j])
  {
    if ids != [] {
      var last := ids[|ids| - 1];
      var rest := ids[..|ids| - 1];
      assert ids == rest + [last] && last !in rest;
      ListedMeans(env, s, rest, network, now);
    }
  }

  lemma {:induction false} SwapPrefix(s: State, n: nat, j: nat)
    requires RandomOk(s) && n <= j < |s.random|
    ensures s.random[n] in s.info && s.random[j] in s.info && SwapRandom(s, n, j).random[..n] == s.random[..n]
  {
  }

  lemma {:induction false} RandomDistinct(s: State)
    requires RandomOk(s)
    ensures forall i, j :: 0 <= i < j < |s.random| ==> s.random[i] != s.random[j]
    ensures forall id :: id in s.random <==> id in s.info
  {
    forall id
      ensures id in s.random <==> id in s.info
    {
      if id in s.info {
        assert s.random[s.info[id].randomPos] == id;
      }
    }
  }

  lemma {:induction false} NoResolveSteps(env: Env, s: State, clock: int -> int)
    requires Consistent(env, s)
    ensures ResolveSteps(env, [s], [], clock)
  {
  }

  /** Settling a collision erases no other. */
  lemma {:induction false} ResolvedCollisions(env: Env, s: State, t: State, id: int, now: int)
    requires Shapes(s) && TriedOk(env, s) && Resolved(env, s, t, id, now)
    ensures t.collisions == s.collisions || t.collisions == s.collisions - {id}
  {
    hide GoodResult;
  }

  function Limit(size: nat, maxAddresses: nat, maxPct: nat): nat {
    var part := if maxPct == 0 then size else maxPct * size / 100;
    if maxAddresses != 0 && maxAddresses < part then maxAddresses else part
  }

  /** How many addresses to list. */
  method AddressLimit(size: nat, maxAddresses: nat, maxPct: nat) returns (limit: nat)
    ensures limit == Limit(size, maxAddresses, maxPct)
  {
    limit := size;
    if maxPct != 0 {
      limit := maxPct * limit / 100;
    }
    if maxAddresses != 0 {
      limit := if limit < maxAddresses then limit else maxAddresses;
    }
  }

  /** A place from `n` on, by a random number. */
  function Pick(x: nat, n: nat, size: nat): (place: nat)
    requires n < size
    ensures n <= place < size
  {
    x % (size - n) + n
  }

  lemma {:induction false} TrimmedReflexive(s: State)
    ensures Trimmed(s, s, {}) && SameIndexes(s, s)
  {
  }

  lemma {:induction false} NothingListed(env: Env, s: State, network: Option<Network>, now: int)
    ensures Listed(env, s, [], network, now) == []
  {
  }

  lemma {:induction false} ListedNext(env: Env, s: State, ids: seq<int>, n: nat, network: Option<Network>, now: int)
    requires n < |ids| && forall id <- ids[..n + 1] :: id in s.info
    ensures forall id <- ids[..n] :: id in s.info
    ensures Listed(env, s, ids[..n + 1], network, now) ==
            Listed(env, s, ids[..n], network, now) + if Listable(env, s.info[ids[n]], network, now) then [ids[n]] else []
  {
    assert ids[..n + 1][..n] == ids[..n];
    forall id <- ids[..n]
      ensures id in s.info
    {
      assert id in ids[..n + 1];
    }
  }

  lemma {:induction false} RecordTrimmed(s: State, t: State, id: int)
    requires Trimmed(s, t, {}) && id in t.info
    ensures id in s.info && Record(t.info[id]) == Record(s.info[id])
  {
    assert t.info[id].(randomPos := 0) == s.info[id].(randomPos := 0);
  }

  /** One random swap keeps what was listed and every index. */
  lemma {:induction false} SwapStep(env: Env, s: State, t: State, n: nat, j: nat, network: Option<Network>, now: int)
    requires Sound(env, t, {}, {}) && Trimmed(s, t, {}) && SameIndexes(s, t) && n <= j < |t.random|
    ensures RandomOk(t) && t.random[n] in t.info && t.random[j] in t.info
    ensures var u := SwapRandom(t, n, j);
            && Sound(env, u, {}, {}) && Trimmed(s, u, {}) && SameIndexes(s, u) && |u.random| == |t.random|
            && u.random[..n] == t.random[..n] && (forall id <- u.random[..n + 1] :: id in u.info)
            && (forall id <- t.random[..n] :: id in t.info)
            && Listed(env, u, u.random[..n], network, now) == Listed(env, t, t.random[..n], network, now)
  {
    hide TriedOk, NewOk, CountsOk, AddrsOk, EntriesOk, IdsOk, SwapRandom, Listed, Trimmed, SameIndexes;
    SwapRandomKeeps(env, t, n, j, {}, {});
    SwapRandomTrims(t, n, j);
    SwapPrefix(t, n, j);
    var u := SwapRandom(t, n, j);
    ListedKept(env, t, u, t.random[..n], network, now);
    TrimmedTransitive(s, t, u);
  }

  lemma {:induction false} TrimmedTransitive(s: State, t: State, u: State)
    requires Trimmed(s, t, {}) && Trimmed(t, u, {}) && SameIndexes(s, t) && SameIndexes(t, u)
    ensures Trimmed(s, u, {}) && SameIndexes(s, u)
  {
    forall x <- u.info
      ensures u.info[x].(randomPos := 0) == s.info[x].(randomPos := 0)
    {
      assert u.info[x].(randomPos := 0) == t.info[x].(randomPos := 0);
      assert t.info[x].(randomPos := 0) == s.info[x].(randomPos := 0);
    }
  }

  lemma {:induction false} TrimmedConsistent(env: Env, s: State, t: State)
    requires Consistent(env, s) && Sound(env, t, {}, {}) && Trimmed(s, t, {})
    ensures Consistent(env, t)
  {
    hide TriedOk, NewOk, CountsOk, AddrsOk, EntriesOk, IdsOk, Trimmed, CollisionsOk, RandomOk;
    TrimmedEvolves(s, t, {});
    assert t.collisions == s.collisions by {
      TrimmedNotes(s, t);
    }
    CollisionsEvolve(env, s, t);
  }

  lemma {:induction false} TrimmedNotes(s: State, t: State)
    requires Trimmed(s, t, {})
    ensures t.collisions == s.collisions && t.lastGood == s.lastGood
  {
  }

  /** A list made from the whole random order holds every listable entry, once. */
  lemma {:induction false} ListedAll(env: Env, s: State, network: Option<Network>, now: int)
    requires RandomOk(s)
    ensures forall id <- s.random :: id in s.info
    ensures var l := Listed(env, s, s.random, network, now);
            && (forall id :: id in l <==> id in s.info && Listable(env, s.info[id], network, now))
            && (forall i, j :: 0 <= i < j < |l| ==> l[i] != l[j])
  {
    hide RandomOk, Listed;
    RandomDistinct(s);
    ListedMeans(env, s, s.random, network, now);
  }
}
