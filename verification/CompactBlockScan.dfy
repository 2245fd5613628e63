/** Filling a compact block from transactions that are at hand: the steps of the scans
    over the mempool and over the extra transactions. */
module CompactBlockScan {
  import opened Wrappers
  import opened CompactBlock

  type SlotMap = map<ShortId, nat>

  predicate Distinct(ids: seq<ShortId>) {
    forall i, j :: 0 <= i < j < |ids| ==> ids[i] != ids[j]
  }

  /** The short ids lead, in order, to exactly the empty positions. */
  ghost predicate IsSlotMap(ids: seq<ShortId>, base: Slots, m: SlotMap) {
    && |Empties(base)| == |ids| && Distinct(ids)
    && (forall k :: k in m <==> k in ids)
    && (forall i :: 0 <= i < |ids| ==> ids[i] in m && m[ids[i]] == Empties(base)[i])
  }

  /** Different short ids have different positions, all of them empty at first. */
  predicate Targets(m: SlotMap, base: Slots) {
    && (forall k <- m :: m[k] < |base| && base[m[k]].None?)
    && (forall a, b :: a in m && b in m && m[a] == m[b] ==> a == b)
  }

  lemma {:induction false} SlotMapTargets(ids: seq<ShortId>, base: Slots, m: SlotMap)
    requires IsSlotMap(ids, base, m)
    ensures Targets(m, base) && |m| == |ids|
  {
    forall k <- m
      ensures m[k] < |base| && base[m[k]].None?
    {
      var i :| 0 <= i < |ids| && ids[i] == k;
      EmptiesAre(base, i);
    }
    forall a, b | a in m && b in m && m[a] == m[b]
      ensures a == b
    {
      var i :| 0 <= i < |ids| && ids[i] == a;
      var j :| 0 <= j < |ids| && ids[j] == b;
      if i < j {
        EmptiesAscend(base, i, j);
      } else if j < i {
        EmptiesAscend(base, j, i);
      }
    }
    DistinctSize(ids, m.Keys);
  }

  lemma {:induction false} DistinctSize(ids: seq<ShortId>, keys: set<ShortId>)
    requires Distinct(ids) && forall k :: k in keys <==> k in ids
    ensures |keys| == |ids|
  {
    if ids == [] {
      assert keys == {};
    } else {
      var n := |ids| - 1;
      var rest := keys - {ids[n]};
      assert ids == ids[..n] + [ids[n]];
      DistinctSize(ids[..n], rest);
    }
  }

  // ----- Scan steps -------------------------------------------------------------------

  datatype Scan = Scan(avail: Slots, have: seq<bool>, filled: int, extra: int)

  predicate Shaped(m: SlotMap, s: Scan) {
    |s.avail| == |s.have| && forall k <- m :: m[k] < |s.avail|
  }

  function PoolStep(env: Env, m: SlotMap, s: Scan, e: Entry): Scan
    requires Shaped(m, s)
  {
    var k := env.shortOf(e.hash);
    if k !in m then s
    else
      var p := m[k];
      if !s.have[p] then s.(avail := s.avail[p := Some(e.tx)], have := s.have[p := true], filled := s.filled + 1)
      else if s.avail[p].Some? then s.(avail := s.avail[p := None], filled := s.filled - 1)
      else s
  }

  function ExtraStep(env: Env, m: SlotMap, s: Scan, e: Entry): Scan
    requires Shaped(m, s)
  {
    var k := env.shortOf(e.hash);
    if k !in m then s
    else
      var p := m[k];
      if !s.have[p] then
        s.(avail := s.avail[p := Some(e.tx)], have := s.have[p := true], filled := s.filled + 1, extra := s.extra + 1)
      else if s.avail[p].Some? && env.witnessHash(s.avail[p].value) != env.witnessHash(e.tx) then
        s.(avail := s.avail[p := None], filled := s.filled - 1, extra := s.extra - 1)
      else s
  }

  /** One of the entries is this transaction, under this short id. */
  predicate Matching(env: Env, entries: seq<Entry>, k: ShortId, tx: Tx) {
    exists i :: 0 <= i < |entries| && entries[i].tx == tx && env.shortOf(entries[i].hash) == k
  }

  /** The short ids whose positions are filled. */
  ghost function FilledKeys(m: SlotMap, avail: Slots): set<ShortId>
    requires forall k <- m :: m[k] < |avail|
  {
    set k | k in m && avail[m[k]].Some?
  }

  lemma {:induction false} FilledMore(m: SlotMap, base: Slots, avail: Slots, k: ShortId, tx: Tx)
    requires Targets(m, base) && |avail| == |base| && k in m && avail[m[k]].None?
    ensures |FilledKeys(m, avail[m[k] := Some(tx)])| == |FilledKeys(m, avail)| + 1
  {
    assert FilledKeys(m, avail[m[k] := Some(tx)]) == FilledKeys(m, avail) + {k};
  }

  lemma {:induction false} FilledLess(m: SlotMap, base: Slots, avail: Slots, k: ShortId)
    requires Targets(m, base) && |avail| == |base| && k in m && avail[m[k]].Some?
    ensures |FilledKeys(m, avail[m[k] := None])| == |FilledKeys(m, avail)| - 1
  {
    assert FilledKeys(m, avail[m[k] := None]) == FilledKeys(m, avail) - {k};
  }

  predicate SlotOk(env: Env, seen: seq<Entry>, k: ShortId, tx: Option<Tx>, have: bool) {
    (tx.Some? ==> have && Matching(env, seen, k, tx.value))
  }

  /** What a scan keeps: slots outside the map as they were, each filled slot from an
      entry seen with its short id, and the count of filled slots. */
  ghost predicate ScanInv(env: Env, m: SlotMap, base: Slots, seen: seq<Entry>, s: Scan) {
    && Targets(m, base) && |s.avail| == |s.have| == |base|
    && (forall p :: 0 <= p < |base| && p !in m.Values ==> s.avail[p] == base[p])
    && (forall k <- m :: SlotOk(env, seen, k, s.avail[m[k]], s.have[m[k]]))
    && s.filled == |FilledKeys(m, s.avail)|
  }

  lemma {:induction false} InvShaped(env: Env, m: SlotMap, base: Slots, seen: seq<Entry>, s: Scan)
    requires ScanInv(env, m, base, seen, s)
    ensures Shaped(m, s)
  {
  }

  lemma {:induction false} InvTargets(env: Env, m: SlotMap, base: Slots, seen: seq<Entry>, s: Scan)
    requires ScanInv(env, m, base, seen, s)
    ensures Targets(m, base)
  {
  }

  lemma {:induction false} ScanStart(env: Env, m: SlotMap, base: Slots)
    requires Targets(m, base)
    ensures var s := Scan(base, seq(|base|, _ => false), 0, 0);
            ScanInv(env, m, base, [], s) && PoolSlots(env, m, [], s)
  {
    assert FilledKeys(m, base) == {};
  }

  lemma {:induction false} MatchingMore(env: Env, seen: seq<Entry>, e: Entry, k: ShortId, tx: Tx)
    ensures Matching(env, seen, k, tx) ==> Matching(env, seen + [e], k, tx)
    ensures env.shortOf(e.hash) == k && e.tx == tx ==> Matching(env, seen + [e], k, tx)
  {
    if Matching(env, seen, k, tx) {
      var i :| 0 <= i < |seen| && seen[i].tx == tx && env.shortOf(seen[i].hash) == k;
      assert (seen + [e])[i] == seen[i];
    }
    assert (seen + [e])[|seen|] == e;
  }

  /** Writing a slot of the map keeps the invariant if the slot itself is in order. */
  lemma {:induction false} SlotWritten(env: Env, m: SlotMap, base: Slots, seen: seq<Entry>, s: Scan, e: Entry, k: ShortId,
                                       tx: Option<Tx>, t: Scan)
    requires ScanInv(env, m, base, seen, s) && k in m && SlotOk(env, seen + [e], k, tx, true)
    requires t.avail == s.avail[m[k] := tx] && t.have == s.have[m[k] := true] && t.filled == |FilledKeys(m, t.avail)|
    ensures ScanInv(env, m, base, seen + [e], t)
  {
    forall j <- m
      ensures SlotOk(env, seen + [e], j, t.avail[m[j]], t.have[m[j]])
    {
      if j != k {
        assert m[j] != m[k];
        assert SlotOk(env, seen, j, s.avail[m[j]], s.have[m[j]]);
        if s.avail[m[j]].Some? {
          MatchingMore(env, seen, e, j, s.avail[m[j]].value);
        }
      }
    }
    assert m[k] in m.Values;
  }

  lemma {:induction false} SlotsKept(env: Env, m: SlotMap, base: Slots, seen: seq<Entry>, s: Scan, e: Entry)
    requires ScanInv(env, m, base, seen, s)
    ensures ScanInv(env, m, base, seen + [e], s)
  {
    forall j <- m
      ensures SlotOk(env, seen + [e], j, s.avail[m[j]], s.have[m[j]])
    {
      assert SlotOk(env, seen, j, s.avail[m[j]], s.have[m[j]]);
      if s.avail[m[j]].Some? {
        MatchingMore(env, seen, e, j, s.avail[m[j]].value);
      }
    }
  }

  lemma {:induction false} PoolStepKeeps(env: Env, m: SlotMap, base: Slots, seen: seq<Entry>, s: Scan, e: Entry)
    requires ScanInv(env, m, base, seen, s)
    ensures Shaped(m, s) && ScanInv(env, m, base, seen + [e], PoolStep(env, m, s, e))
  {
    hide FilledKeys, Matching;
    InvShaped(env, m, base, seen, s);
    var k := env.shortOf(e.hash);
    var t := PoolStep(env, m, s, e);
    if k !in m {
      SlotsKept(env, m, base, seen, s, e);
    } else if !s.have[m[k]] {
      assert SlotOk(env, seen, k, s.avail[m[k]], s.have[m[k]]);
      FilledMore(m, base, s.avail, k, e.tx);
      MatchingMore(env, seen, e, k, e.tx);
      SlotWritten(env, m, base, seen, s, e, k, Some(e.tx), t);
    } else if s.avail[m[k]].Some? {
      FilledLess(m, base, s.avail, k);
      assert s.have[m[k] := true] == s.have;
      SlotWritten(env, m, base, seen, s, e, k, None, t);
    } else {
      SlotsKept(env, m, base, seen, s, e);
    }
  }

  lemma {:induction false} ExtraStepKeeps(env: Env, m: SlotMap, base: Slots, seen: seq<Entry>, s: Scan, e: Entry)
    requires ScanInv(env, m, base, seen, s)
    ensures Shaped(m, s) && ScanInv(env, m, base, seen + [e], ExtraStep(env, m, s, e))
  {
    hide FilledKeys, Matching;
    InvShaped(env, m, base, seen, s);
    var k := env.shortOf(e.hash);
    var t := ExtraStep(env, m, s, e);
    if k !in m {
      SlotsKept(env, m, base, seen, s, e);
    } else if !s.have[m[k]] {
      assert SlotOk(env, seen, k, s.avail[m[k]], s.have[m[k]]);
      FilledMore(m, base, s.avail, k, e.tx);
      MatchingMore(env, seen, e, k, e.tx);
      SlotWritten(env, m, base, seen, s, e, k, Some(e.tx), t);
    } else if s.avail[m[k]].Some? && env.witnessHash(s.avail[m[k]].value) != env.witnessHash(e.tx) {
      FilledLess(m, base, s.avail, k);
      assert s.have[m[k] := true] == s.have;
      SlotWritten(env, m, base, seen, s, e, k, None, t);
    } else {
      SlotsKept(env, m, base, seen, s, e);
    }
  }

  // ----- What the scans come to -----------------------------------------------------------

  /** The transactions among the entries that have a short id, in order. */
  function Matches(env: Env, entries: seq<Entry>, k: ShortId): seq<Tx> {
    if entries == [] then []
    else
      var n := |entries| - 1;
      Matches(env, entries[..n], k) + if env.shortOf(entries[n].hash) == k then [entries[n].tx] else []
  }

  lemma {:induction false} MatchesMore(env: Env, seen: seq<Entry>, e: Entry, k: ShortId)
    ensures Matches(env, seen + [e], k) == Matches(env, seen, k) + if env.shortOf(e.hash) == k then [e.tx] else []
  {
    assert (seen + [e])[..|seen|] == seen;
  }

  /** After the mempool a slot holds the only match, and nothing if there are more. */
  ghost predicate PoolSlots(env: Env, m: SlotMap, seen: seq<Entry>, s: Scan) {
    && Shaped(m, s)
    && forall k <- m ::
         var xs := Matches(env, seen, k);
         s.have[m[k]] == (xs != []) && s.avail[m[k]] == if |xs| == 1 then Some(xs[0]) else None
  }

  lemma {:induction false} PoolSlotsNext(env: Env, m: SlotMap, base: Slots, seen: seq<Entry>, s: Scan, e: Entry)
    requires Targets(m, base) && PoolSlots(env, m, seen, s)
    ensures PoolSlots(env, m, seen + [e], PoolStep(env, m, s, e))
  {
    hide Matches;
    var t := PoolStep(env, m, s, e);
    forall k <- m
      ensures var xs := Matches(env, seen + [e], k);
              t.have[m[k]] == (xs != []) && t.avail[m[k]] == if |xs| == 1 then Some(xs[0]) else None
    {
      MatchesMore(env, seen, e, k);
      var x := env.shortOf(e.hash);
      if x in m && x != k {
        assert m[x] != m[k];
      }
    }
  }

  predicate AllSole(env: Env, m: SlotMap, seen: seq<Entry>) {
    forall k <- m :: |Matches(env, seen, k)| == 1
  }

  /** The mempool was looked at up to an entry: the end, or the first one after which
      every slot is filled. */
  ghost predicate PoolScanned(env: Env, m: SlotMap, pool: seq<Entry>, n: nat, s: Scan) {
    && n <= |pool| && PoolSlots(env, m, pool[..n], s)
    && (n < |pool| ==> AllSole(env, m, pool[..n])) && forall j :: 1 <= j < n ==> !AllSole(env, m, pool[..j])
  }

  /** Every slot is filled when the count says so. */
  lemma {:induction false} FullCount(m: SlotMap, avail: Slots)
    requires forall k <- m :: m[k] < |avail|
    ensures |FilledKeys(m, avail)| == |m| <==> forall k <- m :: avail[m[k]].Some?
  {
    var full := FilledKeys(m, avail);
    assert m.Keys == full + (m.Keys - full);
    if |full| == |m| {
      assert m.Keys - full == {};
    } else {
      assert full != m.Keys;
    }
  }

  lemma {:induction false} PoolFull(env: Env, m: SlotMap, base: Slots, seen: seq<Entry>, s: Scan)
    requires ScanInv(env, m, base, seen, s) && PoolSlots(env, m, seen, s)
    ensures s.filled == |m| <==> AllSole(env, m, seen)
  {
    hide Matches, FilledKeys, SlotOk;
    FullCount(m, s.avail);
  }

  // ----- The extra transactions and their count -------------------------------------------

  /** An entry with the same short id as a transaction, but another transaction. */
  predicate Conflicting(env: Env, entries: seq<Entry>, k: ShortId, tx: Tx) {
    exists x <- Matches(env, entries, k) :: env.witnessHash(x) != env.witnessHash(tx)
  }

  /** What a slot holds after the extra matches: the transaction it had, or else the
      first match, unless another transaction matches too. A slot that the mempool had
      two matches for stays empty. */
  function Settled(env: Env, had: bool, was: Option<Tx>, xs: seq<Tx>): Option<Tx> {
    var first := if had then was else if xs == [] then None else Some(xs[0]);
    if first.Some? && forall x <- xs :: env.witnessHash(x) == env.witnessHash(first.value) then first else None
  }

  predicate ExtraSlot(env: Env, seen: seq<Entry>, k: ShortId, had: bool, was: Option<Tx>, has: bool, now: Option<Tx>) {
    var xs := Matches(env, seen, k);
    (was.Some? ==> had) && has == (had || xs != []) && now == Settled(env, had, was, xs)
  }

  ghost predicate ExtraInv(env: Env, m: SlotMap, base: Slots, seen: seq<Entry>, before: Scan, s: Scan) {
    && Targets(m, base) && |s.avail| == |s.have| == |base| && |before.avail| == |before.have| == |base|
    && (forall k <- m :: ExtraSlot(env, seen, k, before.have[m[k]], before.avail[m[k]], s.have[m[k]], s.avail[m[k]]))
    && s.filled - s.extra == before.filled - before.extra
  }

  lemma {:induction false} ExtraStart(env: Env, m: SlotMap, base: Slots, seen: seq<Entry>, s: Scan)
    requires ScanInv(env, m, base, seen, s)
    ensures ExtraInv(env, m, base, [], s, s)
  {
    forall k <- m
      ensures ExtraSlot(env, [], k, s.have[m[k]], s.avail[m[k]], s.have[m[k]], s.avail[m[k]])
    {
      assert SlotOk(env, seen, k, s.avail[m[k]], s.have[m[k]]);
    }
  }

  lemma {:induction false} ExtraSlotNext(env: Env, seen: seq<Entry>, e: Entry, k: ShortId, had: bool, was: Option<Tx>,
                                         has: bool, now: Option<Tx>)
    requires ExtraSlot(env, seen, k, had, was, has, now)
    ensures env.shortOf(e.hash) != k ==> ExtraSlot(env, seen + [e], k, had, was, has, now)
    ensures env.shortOf(e.hash) == k && !has ==> ExtraSlot(env, seen + [e], k, had, was, true, Some(e.tx))
    ensures env.shortOf(e.hash) == k && has ==>
              ExtraSlot(env, seen + [e], k, had, was, true,
                        if now.Some? && env.witnessHash(now.value) != env.witnessHash(e.tx) then None else now)
  {
    hide Matches;
    MatchesMore(env, seen, e, k);
    var xs := Matches(env, seen, k);
    assert env.shortOf(e.hash) == k ==> e.tx in xs + [e.tx];
    assert forall x <- xs :: x in xs + [e.tx];
  }

  lemma {:induction false} ExtraInvNext(env: Env, m: SlotMap, base: Slots, seen: seq<Entry>, before: Scan, s: Scan, e: Entry)
    requires ExtraInv(env, m, base, seen, before, s)
    ensures Shaped(m, s) && ExtraInv(env, m, base, seen + [e], before, ExtraStep(env, m, s, e))
  {
    hide ExtraSlot;
    var t := ExtraStep(env, m, s, e);
    forall k <- m
      ensures ExtraSlot(env, seen + [e], k, before.have[m[k]], before.avail[m[k]], t.have[m[k]], t.avail[m[k]])
    {
      ExtraSlotNext(env, seen, e, k, before.have[m[k]], before.avail[m[k]], s.have[m[k]], s.avail[m[k]]);
      var x := env.shortOf(e.hash);
      if x in m && x != k {
        assert m[x] != m[k];
      }
    }
  }

  predicate AllSettled(env: Env, m: SlotMap, before: Scan, seen: seq<Entry>)
    requires Shaped(m, before)
  {
    forall k <- m :: Settled(env, before.have[m[k]], before.avail[m[k]], Matches(env, seen, k)).Some?
  }

  /** The extra transactions were looked at up to the end, or to the first one after
      which every slot is filled. */
  ghost predicate ExtraScanned(env: Env, m: SlotMap, base: Slots, extra: seq<Entry>, n: nat, before: Scan, s: Scan) {
    && n <= |extra| && Shaped(m, before) && ExtraInv(env, m, base, extra[..n], before, s)
    && (n < |extra| ==> AllSettled(env, m, before, extra[..n]))
    && forall j :: 1 <= j < n ==> !AllSettled(env, m, before, extra[..j])
  }

  lemma {:induction false} ExtraFull(env: Env, m: SlotMap, base: Slots, all: seq<Entry>, seen: seq<Entry>, before: Scan, s: Scan)
    requires ScanInv(env, m, base, all, s) && ExtraInv(env, m, base, seen, before, s)
    ensures Shaped(m, before) && (s.filled == |m| <==> AllSettled(env, m, before, seen))
  {
    hide Matches, FilledKeys, SlotOk, Settled;
    FullCount(m, s.avail);
    forall k <- m
      ensures s.avail[m[k]] == Settled(env, before.have[m[k]], before.avail[m[k]], Matches(env, seen, k))
    {
      assert ExtraSlot(env, seen, k, before.have[m[k]], before.avail[m[k]], s.have[m[k]], s.avail[m[k]]);
    }
  }

  /** What the count of extra transactions comes to: the slots they filled, less the
      mempool slots they reset. */
  lemma {:induction false} ExtraCount(m: SlotMap, base: Slots, before: Slots, after: Slots)
    requires Targets(m, base) && |before| == |after| == |base|
    ensures var was, now := FilledKeys(m, before), FilledKeys(m, after);
            |now| - |was| == |now - was| - |was - now|
  {
    var was, now := FilledKeys(m, before), FilledKeys(m, after);
    assert now == (now - was) + (now * was);
    assert was == (was - now) + (now * was);
  }
}
