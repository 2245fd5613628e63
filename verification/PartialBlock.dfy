/** Putting a block together again from a compact block, the mempool, extra
    transactions and the transactions that had to be requested. */
module PartialBlock {
  import opened Wrappers
  import opened CompactBlock
  import opened CompactBlockScan

  datatype ReadStatus = Complete | Invalid | Failed | CheckBlockFailed

  const SIZE_T := 0x1_0000_0000_0000_0000

  // ----- The compact form of a block --------------------------------------------------

  function ShortIds(env: Env, block: seq<Tx>): seq<ShortId> {
    seq(|block|, i requires 0 <= i < |block| => env.Short(block[i]))
  }

  /** Short ids for all transactions but the first, which is included. */
  method Encode(env: Env, header: Header, block: seq<Tx>) returns (msg: Message)
    requires block != []
    ensures msg == Message(Some(header), ShortIds(env, block[1..]), [Prefilled(0, block[0])])
  {
    var ids := [];
    for i := 1 to |block|
      invariant ids == ShortIds(env, block[1..i])
    {
      ids := ids + [env.shortOf(env.witnessHash(block[i]))];
    }
    assert block[1..|block|] == block[1..];
    msg := Message(Some(header), ids, [Prefilled(0, block[0])]);
  }

  // ----- Mapping the short ids -------------------------------------------------------------

  /** The map built so far from the first i short ids. */
  ghost predicate Mapped(ids: seq<ShortId>, base: Slots, i: nat, m: SlotMap) {
    && i <= |ids| == |Empties(base)|
    && (forall k :: k in m <==> k in ids[..i]) && |m| <= i && (|m| == i <==> Distinct(ids[..i]))
    && (Distinct(ids[..i]) ==> forall j :: 0 <= j < i ==> ids[j] in m && m[ids[j]] == Empties(base)[j])
  }

  lemma {:induction false} OneKey(m: SlotMap, k: ShortId, p: nat)
    ensures |m[k := p]| == |m| + if k in m then 0 else 1
  {
    assert m[k := p].Keys == m.Keys + {k};
    if k in m {
      assert m.Keys + {k} == m.Keys;
    }
  }

  lemma {:induction false} MappedNext(ids: seq<ShortId>, base: Slots, i: nat, m: SlotMap)
    requires Mapped(ids, base, i, m) && i < |ids|
    ensures Mapped(ids, base, i + 1, m[ids[i] := Empties(base)[i]])
  {
    hide Empties, Distinct;
    var n := m[ids[i] := Empties(base)[i]];
    assert ids[..i + 1] == ids[..i] + [ids[i]];
    DistinctNext(ids, i);
    OneKey(m, ids[i], Empties(base)[i]);
    if Distinct(ids[..i + 1]) {
      forall j | 0 <= j < i + 1
        ensures ids[j] in n && n[ids[j]] == Empties(base)[j]
      {
        if j < i {
          assert ids[..i][j] == ids[j];
        }
      }
    }
  }

  lemma {:induction false} DistinctNext(ids: seq<ShortId>, i: nat)
    requires i < |ids|
    ensures Distinct(ids[..i + 1]) <==> Distinct(ids[..i]) && ids[i] !in ids[..i]
  {
    var more, less := ids[..i + 1], ids[..i];
    if Distinct(more) {
      forall j, k | 0 <= j < k < i
        ensures less[j] != less[k]
      {
        assert more[j] != more[k];
      }
      assert forall j :: 0 <= j < i ==> more[j] == less[j] && more[j] != more[i];
    }
  }

  /** Walk over the positions; `crowded` tells which insertions overfill a bucket of
      the hash table. */
  method MapShortIds(ids: seq<ShortId>, base: Slots, crowded: nat -> bool) returns (ok: bool, m: SlotMap)
    requires |Empties(base)| == |ids| && |base| <= UINT16_MAX
    ensures ok <==> Distinct(ids) && forall i :: 0 <= i < |ids| ==> !crowded(i)
    ensures ok ==> IsSlotMap(ids, base, m)
  {
    hide Empties, Distinct, Mapped;
    m := map[];
    NothingMapped(ids, base);
    var offset := 0;
    for i := 0 to |ids|
      invariant offset >= 0 && i + offset <= |base| && |Empties(base[..i + offset])| == i && Mapped(ids, base, i, m)
      invariant forall j :: 0 <= j < i ==> !crowded(j)
    {
      NextEmpty(base, i, i + offset);
      while base[i + offset].Some?
        invariant offset >= 0 && i + offset < |base| && |Empties(base[..i + offset])| == i
        decreases |base| - offset
      {
        EmptiesPrefix(base, i + offset);
        NextEmpty(base, i, i + offset + 1);
        offset := offset + 1;
        assert offset <= UINT16_MAX;
      }
      EmptiesPrefix(base, i + offset);
      EmptyIndex(base, i + offset);
      MappedNext(ids, base, i, m);
      m := m[ids[i] := i + offset];
      if crowded(i) {
        return false, m;
      }
    }
    assert ids[..|ids|] == ids;
    AllMapped(ids, base, m);
    ok := |m| == |ids|;
  }

  lemma {:induction false} NothingMapped(ids: seq<ShortId>, base: Slots)
    requires |Empties(base)| == |ids|
    ensures Mapped(ids, base, 0, map[]) && Empties(base[..0]) == []
  {
  }

  lemma {:induction false} AllMapped(ids: seq<ShortId>, base: Slots, m: SlotMap)
    requires Mapped(ids, base, |ids|, m) && ids[..|ids|] == ids
    ensures |m| == |ids| <==> Distinct(ids)
    ensures Distinct(ids) ==> IsSlotMap(ids, base, m)
  {
  }

  /** As long as an empty position is missing there is a position left. */
  lemma {:induction false} NextEmpty(base: Slots, i: nat, q: nat)
    requires q <= |base| && |Empties(base[..q])| == i < |Empties(base)|
    ensures q < |base|
  {
    assert base[..|base|] == base;
  }

  lemma {:induction false} EmptyIndex(base: Slots, p: nat)
    requires p < |base| && base[p].None?
    ensures |Empties(base[..p])| < |Empties(base)| && Empties(base)[|Empties(base[..p])|] == p
  {
    EmptiesPrefix(base, p);
    EmptiesOfPrefix(base, p + 1);
    var n := |Empties(base[..p])|;
    assert Empties(base)[..n + 1][n] == p;
  }

  // ----- Filling in -------------------------------------------------------------------------

  /** The transaction at a position: the one at hand, or the next one that was sent. */
  function FillAt(avail: Slots, missing: seq<Tx>, p: nat): Tx
    requires p < |avail| && |missing| == |Empties(avail)|
  {
    if avail[p].Some? then avail[p].value
    else
      EmptyIndex(avail, p);
      missing[|Empties(avail[..p])|]
  }

  /** The transactions listed under a short id. */
  predicate ListedAs(env: Env, seen: seq<Entry>, tx: Tx, k: ShortId) {
    exists e <- seen :: e.tx == tx && env.shortOf(e.hash) == k
  }

  /** A block is put together with, at every position, its own transaction or one that
      is listed under the same short id. */
  lemma {:induction false} Reconstructs(env: Env, header: Header, block: seq<Tx>, m: SlotMap, seen: seq<Entry>, s: Scan,
                                        missing: seq<Tx>, p: nat)
    requires block != [] && p < |block| && !env.isNull(block[0])
    requires var msg := Message(Some(header), ShortIds(env, block[1..]), [Prefilled(0, block[0])]);
             && AllPrefilledOk(env, msg, 1) && IsSlotMap(msg.shortIds, Placed(env, msg, 1), m)
             && ScanInv(env, m, Placed(env, msg, 1), seen, s)
    requires |missing| == |Empties(s.avail)|
    requires forall i :: 0 <= i < |missing| ==> (Empties(s.avail)[i] < |block| && missing[i] == block[Empties(s.avail)[i]])
    ensures |s.avail| == |block|
    ensures FillAt(s.avail, missing, p) == block[p] || ListedAs(env, seen, FillAt(s.avail, missing, p), env.Short(block[p]))
  {
    hide Empties, FilledKeys;
    var msg := Message(Some(header), ShortIds(env, block[1..]), [Prefilled(0, block[0])]);
    var base := Placed(env, msg, 1);
    if s.avail[p].None? {
      EmptyIndex(s.avail, p);
    } else if p == 0 {
      FirstPlaced(env, msg);
      assert p !in m.Values;
    } else {
      LaterSlot(env, header, block, m, p);
      var k := env.Short(block[p]);
      assert SlotOk(env, seen, k, s.avail[m[k]], s.have[m[k]]);
      var i :| 0 <= i < |seen| && seen[i].tx == s.avail[p].value && env.shortOf(seen[i].hash) == k;
      assert seen[i] in seen;
    }
  }

  lemma {:induction false} FirstPlaced(env: Env, msg: Message)
    requires |msg.prefilled| == 1 && msg.prefilled[0].index == 0 && AllPrefilledOk(env, msg, 1)
    ensures Placed(env, msg, 1) == [Some(msg.prefilled[0].tx)] + seq(|msg.shortIds|, _ => None)
  {
    assert PrefilledOk(env, msg, 0);
    assert Placed(env, msg, 0) == seq(Size(msg), _ => None);
  }

  /** The short id of a transaction leads to its own position. */
  lemma {:induction false} LaterSlot(env: Env, header: Header, block: seq<Tx>, m: SlotMap, p: nat)
    requires block != [] && 0 < p < |block|
    requires var msg := Message(Some(header), ShortIds(env, block[1..]), [Prefilled(0, block[0])]);
             AllPrefilledOk(env, msg, 1) && IsSlotMap(msg.shortIds, Placed(env, msg, 1), m)
    ensures env.Short(block[p]) in m && m[env.Short(block[p])] == p
  {
    hide Empties;
    var msg := Message(Some(header), ShortIds(env, block[1..]), [Prefilled(0, block[0])]);
    var base := Placed(env, msg, 1);
    FirstPlaced(env, msg);
    assert msg.shortIds[p - 1] == env.Short(block[p]);
    TailEmpties(Some(block[0]), |block| - 1);
  }

  lemma {:induction false} TailEmpties(first: Option<Tx>, n: nat)
    requires first.Some?
    ensures var s: Slots := [first] + seq(n, _ => None);
            |Empties(s)| == n && forall i :: 0 <= i < n ==> Empties(s)[i] == i + 1
  {
    var s: Slots := [first] + seq(n, _ => None);
    if n == 0 {
      assert s == [first] && s[..0] == [];
    } else {
      var r: Slots := [first] + seq(n - 1, _ => None);
      assert s[..n] == r;
      TailEmpties(first, n - 1);
    }
  }

  class PartiallyDownloadedBlock {
    const env: Env
    const pool: seq<Entry>
    var header: Option<Header>
    var txnAvailable: Slots
    var prefilledCount: nat
    var mempoolCount: int
    var extraCount: int

    constructor (environment: Env, mempool: seq<Entry>)
      ensures env == environment && pool == mempool && header == None && txnAvailable == []
      ensures mempoolCount == 0 && extraCount == 0
    {
      env := environment;
      pool := mempool;
      header, txnAvailable, prefilledCount, mempoolCount, extraCount := None, [], 0, 0, 0;
    }

    method PlacePrefilled(msg: Message) returns (ok: bool)
      requires txnAvailable == seq(Size(msg), _ => None)
      modifies this`txnAvailable
      ensures ok <==> AllPrefilledOk(env, msg, |msg.prefilled|)
      ensures ok ==> txnAvailable == Placed(env, msg, |msg.prefilled|)
    {
      var last := -1;
      for i := 0 to |msg.prefilled|
        invariant AllPrefilledOk(env, msg, i) && txnAvailable == Placed(env, msg, i)
        invariant last == if i == 0 then -1 else Position(msg.prefilled, i - 1)
      {
        if env.isNull(msg.prefilled[i].tx) {
          assert !PrefilledOk(env, msg, i);
          return false;
        }
        last := last + msg.prefilled[i].index + 1;
        if last > UINT16_MAX {
          assert !PrefilledOk(env, msg, i);
          return false;
        }
        if last > |msg.shortIds| + i {
          assert !PrefilledOk(env, msg, i);
          return false;
        }
        txnAvailable := txnAvailable[last := Some(msg.prefilled[i].tx)];
      }
      ok := true;
    }

    /** Fill slots from the mempool, until all are filled. */
    method ScanPool(m: SlotMap, have0: seq<bool>, ghost base: Slots) returns (have: seq<bool>, ghost n: nat)
      requires ScanInv(env, m, base, [], Scan(txnAvailable, have0, mempoolCount, extraCount))
      requires PoolSlots(env, m, [], Scan(txnAvailable, have0, mempoolCount, extraCount))
      modifies this`txnAvailable, this`mempoolCount
      ensures PoolScanned(env, m, pool, n, Scan(txnAvailable, have, mempoolCount, extraCount))
      ensures ScanInv(env, m, base, pool[..n], Scan(txnAvailable, have, mempoolCount, extraCount))
    {
      hide ScanInv, PoolSlots, AllSole;
      have := have0;
      n := 0;
      assert pool[..0] == [];
      var i := 0;
      while i < |pool|
        invariant 0 <= i <= |pool| && n == i
        invariant ScanInv(env, m, base, pool[..i], Scan(txnAvailable, have, mempoolCount, extraCount))
        invariant PoolSlots(env, m, pool[..i], Scan(txnAvailable, have, mempoolCount, extraCount))
        invariant forall j :: 1 <= j <= i ==> !AllSole(env, m, pool[..j])
      {
        ghost var s := Scan(txnAvailable, have, mempoolCount, extraCount);
        PoolStepKeeps(env, m, base, pool[..i], s, pool[i]);
        InvTargets(env, m, base, pool[..i], s);
        PoolSlotsNext(env, m, base, pool[..i], s, pool[i]);
        assert pool[..i + 1] == pool[..i] + [pool[i]];
        var shortId := env.shortOf(pool[i].hash);
        if shortId in m {
          var p := m[shortId];
          if !have[p] {
            txnAvailable := txnAvailable[p := Some(pool[i].tx)];
            have := have[p := true];
            mempoolCount := mempoolCount + 1;
          } else if txnAvailable[p].Some? {
            txnAvailable := txnAvailable[p := None];
            mempoolCount := mempoolCount - 1;
          }
        }
        assert Scan(txnAvailable, have, mempoolCount, extraCount) == PoolStep(env, m, s, pool[i]);
        i := i + 1;
        n := i;
        PoolFull(env, m, base, pool[..i], Scan(txnAvailable, have, mempoolCount, extraCount));
        if mempoolCount == |m| {
          break;
        }
      }
    }

    /** Fill what is left from the extra transactions. */
    method ScanExtra(m: SlotMap, have0: seq<bool>, extra: seq<Entry>, ghost base: Slots, ghost seen: seq<Entry>)
      returns (ghost n: nat, ghost have: seq<bool>)
      requires ScanInv(env, m, base, seen, Scan(txnAvailable, have0, mempoolCount, extraCount))
      modifies this`txnAvailable, this`mempoolCount, this`extraCount
      ensures ExtraScanned(env, m, base, extra, n, old(Scan(txnAvailable, have0, mempoolCount, extraCount)),
                           Scan(txnAvailable, have, mempoolCount, extraCount))
      ensures ScanInv(env, m, base, seen + extra[..n], Scan(txnAvailable, have, mempoolCount, extraCount))
    {
      hide ScanInv, ExtraInv, AllSettled;
      ghost var before := Scan(txnAvailable, have0, mempoolCount, extraCount);
      var got := have0;
      ExtraStart(env, m, base, seen, before);
      InvShaped(env, m, base, seen, before);
      assert extra[..0] == [] && seen + [] == seen;
      var i := 0;
      while i < |extra|
        invariant 0 <= i <= |extra|
        invariant ScanInv(env, m, base, seen + extra[..i], Scan(txnAvailable, got, mempoolCount, extraCount))
        invariant ExtraInv(env, m, base, extra[..i], before, Scan(txnAvailable, got, mempoolCount, extraCount))
        invariant forall j :: 1 <= j <= i ==> !AllSettled(env, m, before, extra[..j])
      {
        ghost var s := Scan(txnAvailable, got, mempoolCount, extraCount);
        ExtraStepKeeps(env, m, base, seen + extra[..i], s, extra[i]);
        ExtraInvNext(env, m, base, extra[..i], before, s, extra[i]);
        assert extra[..i + 1] == extra[..i] + [extra[i]];
        assert seen + extra[..i] + [extra[i]] == seen + extra[..i + 1];
        var shortId := env.shortOf(extra[i].hash);
        if shortId in m {
          var p := m[shortId];
          if !got[p] {
            txnAvailable := txnAvailable[p := Some(extra[i].tx)];
            got := got[p := true];
            mempoolCount := mempoolCount + 1;
            extraCount := extraCount + 1;
          } else if txnAvailable[p].Some? && env.witnessHash(txnAvailable[p].value) != env.witnessHash(extra[i].tx) {
            txnAvailable := txnAvailable[p := None];
            mempoolCount := mempoolCount - 1;
            extraCount := extraCount - 1;
          }
        }
        assert Scan(txnAvailable, got, mempoolCount, extraCount) == ExtraStep(env, m, s, extra[i]);
        i := i + 1;
        ExtraFull(env, m, base, seen + extra[..i], extra[..i], before, Scan(txnAvailable, got, mempoolCount, extraCount));
        if mempoolCount == |m| {
          break;
        }
      }
      n, have := i, got;
    }

    /** Take a compact block. `crowded` tells which short ids overfill a bucket of the
        hash table; `m` leads from short ids to positions, and the first `scanned` and
        `scannedExtra` transactions at hand were looked at. */
    method InitData(msg: Message, extra: seq<Entry>, crowded: nat -> bool)
      returns (status: ReadStatus, ghost m: SlotMap, ghost scanned: nat, ghost scannedExtra: nat, ghost have: seq<bool>,
               ghost afterPool: Scan)
      requires Size(msg) <= UINT16_MAX && mempoolCount == 0 && extraCount == 0
      modifies this
      ensures status != CheckBlockFailed
      ensures status == Invalid <==>
              || old(header.Some? || txnAvailable != []) || msg.header.None? || Size(msg) == 0
              || !AllPrefilledOk(env, msg, |msg.prefilled|)
      ensures status == Failed <==>
              status != Invalid && !(Distinct(msg.shortIds) && forall i :: 0 <= i < |msg.shortIds| ==> !crowded(i))
      ensures status == Complete ==>
              && header == msg.header && prefilledCount == |msg.prefilled| && |txnAvailable| == Size(msg)
              && AllPrefilledOk(env, msg, |msg.prefilled|)
              && var base := Placed(env, msg, |msg.prefilled|);
              && IsSlotMap(msg.shortIds, base, m)
              && var done := Scan(txnAvailable, have, mempoolCount, extraCount);
              && PoolScanned(env, m, pool, scanned, afterPool)
              && ScanInv(env, m, base, pool[..scanned], afterPool) && afterPool.extra == 0
              && ExtraScanned(env, m, base, extra, scannedExtra, afterPool, done)
              && ScanInv(env, m, base, pool[..scanned] + extra[..scannedExtra], done)
    {
      hide Empties, ScanInv, PoolSlots, ExtraInv, AllSole, AllSettled, Placed, AllPrefilledOk, Distinct, IsSlotMap;
      m, scanned, scannedExtra, have, afterPool := map[], 0, 0, [], Scan([], [], 0, 0);
      if msg.header.None? || (msg.shortIds == [] && msg.prefilled == []) {
        status := Invalid;
        return;
      }
      if |msg.shortIds| + |msg.prefilled| > MAX_TRANSACTIONS {
        status := Invalid;
        return;
      }
      if header.Some? || txnAvailable != [] {
        status := Invalid;
        return;
      }
      header := msg.header;
      txnAvailable := seq(Size(msg), _ => None);
      var ok := PlacePrefilled(msg);
      if !ok {
        status := Invalid;
        return;
      }
      prefilledCount := |msg.prefilled|;
      ghost var base := Placed(env, msg, |msg.prefilled|);
      EmptiesCount(env, msg, |msg.prefilled|);
      var slots;
      ok, slots := MapShortIds(msg.shortIds, txnAvailable, crowded);
      if !ok {
        status := Failed;
        return;
      }
      m := slots;
      SlotMapTargets(msg.shortIds, base, slots);
      ScanStart(env, slots, base);
      var got;
      got, scanned := ScanPool(slots, seq(|txnAvailable|, _ => false), base);
      afterPool := Scan(txnAvailable, got, mempoolCount, extraCount);
      scannedExtra, have := ScanExtra(slots, got, extra, base, pool[..scanned]);
      ScanSize(env, slots, base, pool[..scanned] + extra[..scannedExtra], Scan(txnAvailable, have, mempoolCount, extraCount));
      status := Complete;
    }

    /** Complete the block with the transactions that were sent for the empty positions;
        `verdict` is what checking the complete block finds. */
    method FillBlock(missing: seq<Tx>, verdict: seq<Tx> -> ReadStatus) returns (status: ReadStatus, block: seq<Tx>)
      modifies this`header, this`txnAvailable
      ensures old(header).None? ==> status == Invalid && txnAvailable == old(txnAvailable) && header == None
      ensures old(header).Some? && |missing| < |Empties(old(txnAvailable))| ==>
                && status == Invalid && header == old(header) && |txnAvailable| == |old(txnAvailable)|
                && forall p :: 0 <= p < |txnAvailable| ==>
                     txnAvailable[p] == if p < Empties(old(txnAvailable))[|missing|] then None else old(txnAvailable)[p]
      ensures old(header).Some? && |missing| >= |Empties(old(txnAvailable))| ==>
                && header == None && txnAvailable == []
                && (|missing| > |Empties(old(txnAvailable))| ==> status == Invalid)
      ensures old(header).Some? && |missing| == |Empties(old(txnAvailable))| ==>
                && |block| == |old(txnAvailable)| && status == verdict(block)
                && forall p :: 0 <= p < |block| ==> block[p] == FillAt(old(txnAvailable), missing, p)
    {
      hide Empties;
      block := [];
      if header.None? {
        status := Invalid;
        return;
      }
      ghost var avail := txnAvailable;
      var offset := 0;
      NoEmpties(avail);
      for i := 0 to |txnAvailable|
        invariant |txnAvailable| == |avail| && header == old(header) && |block| == i
        invariant offset == |Empties(avail[..i])| <= |missing|
        invariant forall p :: 0 <= p < |avail| ==> txnAvailable[p] == if p < i then None else avail[p]
        invariant |missing| == |Empties(avail)| ==> forall p :: 0 <= p < i ==> block[p] == FillAt(avail, missing, p)
      {
        EmptiesPrefix(avail, i);
        if txnAvailable[i].None? {
          EmptyIndex(avail, i);
          if |missing| <= offset {
            status := Invalid;
            return;
          }
          block := block + [missing[offset]];
          offset := offset + 1;
        } else {
          block := block + [txnAvailable[i].value];
          txnAvailable := txnAvailable[i := None];
        }
      }
      assert avail[..|avail|] == avail;
      header := None;
      txnAvailable := [];
      if |missing| != offset {
        status := Invalid;
        return;
      }
      status := verdict(block);
    }
  }

  lemma {:induction false} NoEmpties(s: Slots)
    ensures |Empties(s[..0])| == 0
  {
  }

  lemma {:induction false} ScanSize(env: Env, m: SlotMap, base: Slots, seen: seq<Entry>, s: Scan)
    requires ScanInv(env, m, base, seen, s)
    ensures |s.avail| == |base|
  {
  }

  // ----- The round trip -------------------------------------------------------------------

  /** The transactions of the block at the positions that are still empty. */
  method Missing(avail: Slots, block: seq<Tx>) returns (missing: seq<Tx>)
    requires |avail| == |block|
    ensures |missing| == |Empties(avail)|
    ensures forall i :: 0 <= i < |missing| ==> Empties(avail)[i] < |block| && missing[i] == block[Empties(avail)[i]]
  {
    hide Empties;
    missing := [];
    NoEmpties(avail);
    for p := 0 to |avail|
      invariant |missing| == |Empties(avail[..p])|
      invariant forall i :: 0 <= i < |missing| ==> Empties(avail[..p])[i] < |block| && missing[i] == block[Empties(avail[..p])[i]]
    {
      EmptiesPrefix(avail, p);
      if avail[p].None? {
        missing := missing + [block[p]];
      }
    }
    assert avail[..|avail|] == avail;
  }

  lemma {:induction false} ListedMore(env: Env, pool: seq<Entry>, extra: seq<Entry>, i: nat, j: nat, tx: Tx, k: ShortId)
    requires i <= |pool| && j <= |extra| && ListedAs(env, pool[..i] + extra[..j], tx, k)
    ensures ListedAs(env, pool + extra, tx, k)
  {
    var e :| e in pool[..i] + extra[..j] && e.tx == tx && env.shortOf(e.hash) == k;
    assert e in pool + extra;
  }

  lemma {:induction false} FirstOk(env: Env, msg: Message)
    requires |msg.prefilled| == 1 && msg.prefilled[0].index == 0
    ensures AllPrefilledOk(env, msg, 1) <==> !env.isNull(msg.prefilled[0].tx)
  {
    assert PrefilledOk(env, msg, 0) <==> !env.isNull(msg.prefilled[0].tx);
  }

  /** A block sent in its compact form and put together from the mempool, the extra
      transactions and those requested. It fails exactly for ambiguous short ids or a
      crowded bucket; otherwise every position gets its own transaction or one listed
      under the same short id, and if there is no such other one, the block is the same. */
  method RoundTrip(env: Env, header: Header, block: seq<Tx>, pool: seq<Entry>, extra: seq<Entry>, crowded: nat -> bool,
                   verdict: seq<Tx> -> ReadStatus)
    returns (initial: ReadStatus, status: ReadStatus, rebuilt: seq<Tx>)
    requires 0 < |block| <= UINT16_MAX
    ensures initial == Invalid <==> env.isNull(block[0])
    ensures initial == Failed <==>
            !env.isNull(block[0])
            && !(Distinct(ShortIds(env, block[1..])) && forall i :: 0 <= i < |block| - 1 ==> !crowded(i))
    ensures initial == Invalid || initial == Failed || initial == Complete
    ensures initial == Complete ==>
            && |rebuilt| == |block| && status == verdict(rebuilt)
            && (forall p :: 0 <= p < |block| ==>
                  rebuilt[p] == block[p] || ListedAs(env, pool + extra, rebuilt[p], env.Short(block[p])))
    ensures initial == Complete && (forall e <- pool + extra, tx <- block :: env.shortOf(e.hash) == env.Short(tx) ==> e.tx == tx) ==>
            rebuilt == block
  {
    hide Empties, ScanInv, ExtraInv, PoolSlots, AllSole, AllSettled, Placed, AllPrefilledOk, Distinct, IsSlotMap, ListedAs, ShortIds;
    var msg := Encode(env, header, block);
    IdsOf(env, block);
    FirstOk(env, msg);
    var partial := new PartiallyDownloadedBlock(env, pool);
    ghost var m, scanned, scannedExtra, have, afterPool;
    initial, m, scanned, scannedExtra, have, afterPool := partial.InitData(msg, extra, crowded);
    status, rebuilt := initial, [];
    if initial == Complete {
      ghost var seen := pool[..scanned] + extra[..scannedExtra];
      ghost var s := Scan(partial.txnAvailable, have, partial.mempoolCount, partial.extraCount);
      var missing := Missing(partial.txnAvailable, block);
      forall p | 0 <= p < |block|
        ensures |s.avail| == |block| && |missing| == |Empties(s.avail)|
        ensures FillAt(s.avail, missing, p) == block[p] ||
                ListedAs(env, pool + extra, FillAt(s.avail, missing, p), env.Short(block[p]))
      {
        Reconstructs(env, header, block, m, seen, s, missing, p);
        if FillAt(s.avail, missing, p) != block[p] {
          ListedMore(env, pool, extra, scanned, scannedExtra, FillAt(s.avail, missing, p), env.Short(block[p]));
        }
      }
      status, rebuilt := partial.FillBlock(missing, verdict);
      SameBlock(env, pool + extra, block, rebuilt);
    }
  }

  lemma {:induction false} IdsOf(env: Env, block: seq<Tx>)
    requires block != []
    ensures |ShortIds(env, block[1..])| == |block| - 1
  {
  }

  lemma {:induction false} SameBlock(env: Env, listed: seq<Entry>, block: seq<Tx>, rebuilt: seq<Tx>)
    requires |rebuilt| == |block|
    requires forall p :: 0 <= p < |block| ==> rebuilt[p] == block[p] || ListedAs(env, listed, rebuilt[p], env.Short(block[p]))
    ensures (forall e <- listed, tx <- block :: env.shortOf(e.hash) == env.Short(tx) ==> e.tx == tx) ==> rebuilt == block
  {
    if forall e <- listed, tx <- block :: env.shortOf(e.hash) == env.Short(tx) ==> e.tx == tx {
      forall p | 0 <= p < |block|
        ensures rebuilt[p] == block[p]
      {
        assert block[p] in block;
      }
    }
  }

  // ----- The count of extra transactions ---------------------------------------------------

  /** The slots that the extra transactions filled. */
  ghost function FromExtra(m: SlotMap, before: Slots, after: Slots): set<ShortId>
    requires |before| == |after| && forall k <- m :: m[k] < |after|
  {
    FilledKeys(m, after) - FilledKeys(m, before)
  }

  /** The count, taken as an integer, is the number of slots filled from the extra
      transactions exactly when none of those looked at conflicts with a transaction
      from the mempool. */
  lemma {:induction false} ExtraCountExact(env: Env, m: SlotMap, base: Slots, pool: seq<Entry>, extra: seq<Entry>,
                                           before: Scan, seen: seq<Entry>, after: Scan)
    requires ScanInv(env, m, base, pool, before) && before.extra == 0
    requires ScanInv(env, m, base, seen, after) && ExtraInv(env, m, base, extra, before, after)
    ensures after.extra == |FromExtra(m, before.avail, after.avail)| <==>
            forall k <- m :: before.avail[m[k]].Some? ==> !Conflicting(env, extra, k, before.avail[m[k]].value)
  {
    hide Matches, Matching;
    ExtraCount(m, base, before.avail, after.avail);
    var reset := FilledKeys(m, before.avail) - FilledKeys(m, after.avail);
    forall k <- m
      ensures k in reset <==> before.avail[m[k]].Some? && Conflicting(env, extra, k, before.avail[m[k]].value)
    {
      assert ExtraSlot(env, extra, k, before.have[m[k]], before.avail[m[k]], after.have[m[k]], after.avail[m[k]]);
    }
    assert |reset| == 0 <==> reset == {};
  }

  /** A mempool transaction and then another extra transaction with the same short id:
      the unsigned count of extra transactions wraps around. */
  lemma {:induction false} ExtraCountWraps()
    ensures var env := Env(_ => 7, (tx: Tx) => tx, _ => false);
            var m: SlotMap := map[7 := 1];
            var start := Scan([Some(0), None], [false, false], 0, 0);
            var before := PoolStep(env, m, start, Entry(1, 1));
            && Shaped(m, before)
            && var after := ExtraStep(env, m, before, Entry(2, 2));
            before.filled == 1 && after.extra % SIZE_T == SIZE_T - 1
  {
    var env := Env(_ => 7, (tx: Tx) => tx, _ => false);
    var m: SlotMap := map[7 := 1];
    var start := Scan([Some(0), None], [false, false], 0, 0);
    var before := PoolStep(env, m, start, Entry(1, 1));
    assert before == Scan([Some(0), Some(1)], [false, true], 1, 0);
    var after := ExtraStep(env, m, before, Entry(2, 2));
    assert after.extra == -1;
  }
}
