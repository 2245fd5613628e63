/** Compact blocks: a header, six-byte short ids and some prefilled transactions,
    from which a block is put together again. */
module CompactBlock {
  import opened Wrappers

  type Tx = nat
  type WitnessHash = nat
  type ShortId = nat
  type Header = nat

  const MAX_TRANSACTIONS := 4_000_000 / 40
  const UINT16_MAX := 0xffff

  /** The keyed short id of a witness hash, and what transactions are; left open. */
  datatype Env = Env(shortOf: WitnessHash -> ShortId, witnessHash: Tx -> WitnessHash, isNull: Tx -> bool)
  {
    function Short(tx: Tx): ShortId {
      shortOf(witnessHash(tx))
    }
  }

  /** A transaction at an offset from the one before it. */
  datatype Prefilled = Prefilled(index: nat, tx: Tx)

  datatype Message = Message(header: Option<Header>, shortIds: seq<ShortId>, prefilled: seq<Prefilled>)

  /** A transaction that is at hand, under its witness hash. */
  datatype Entry = Entry(hash: WitnessHash, tx: Tx)

  type Slots = seq<Option<Tx>>

  // ----- Prefilled transactions -----------------------------------------------------

  /** The position of a prefilled transaction in the block. */
  function Position(pre: seq<Prefilled>, i: nat): nat
    requires i < |pre|
  {
    if i == 0 then pre[0].index else Position(pre, i - 1) + pre[i].index + 1
  }

  lemma {:induction false} PositionsAscend(pre: seq<Prefilled>, i: nat, j: nat)
    requires i < j < |pre|
    ensures Position(pre, i) < Position(pre, j)
  {
    if i < j - 1 {
      PositionsAscend(pre, i, j - 1);
    }
  }

  function Size(msg: Message): nat {
    |msg.shortIds| + |msg.prefilled|
  }

  predicate PrefilledOk(env: Env, msg: Message, i: nat)
    requires i < |msg.prefilled|
  {
    && !env.isNull(msg.prefilled[i].tx) && Position(msg.prefilled, i) <= UINT16_MAX
    && Position(msg.prefilled, i) <= |msg.shortIds| + i
  }

  predicate AllPrefilledOk(env: Env, msg: Message, k: nat)
    requires k <= |msg.prefilled|
  {
    forall i :: 0 <= i < k ==> PrefilledOk(env, msg, i)
  }

  /** Prefilled transactions are in order exactly if none is null and the last of them is
      within the block and the first 65536 positions. */
  lemma {:induction false} PrefilledExactly(env: Env, msg: Message)
    ensures AllPrefilledOk(env, msg, |msg.prefilled|) <==>
            && (forall p <- msg.prefilled :: !env.isNull(p.tx))
            && (msg.prefilled != [] ==>
                  var last := Position(msg.prefilled, |msg.prefilled| - 1); last < Size(msg) && last < 65536)
  {
    var pre := msg.prefilled;
    if AllPrefilledOk(env, msg, |pre|) {
      forall i | 0 <= i < |pre|
        ensures PrefilledOk(env, msg, i) && !env.isNull(pre[i].tx)
      {
      }
    } else if pre != [] {
      var i :| 0 <= i < |pre| && !PrefilledOk(env, msg, i);
      assert pre[i] in pre;
      PositionsApart(pre, i, |pre| - 1);
    }
  }

  lemma {:induction false} PositionsApart(pre: seq<Prefilled>, i: nat, j: nat)
    requires i <= j < |pre|
    ensures Position(pre, i) + (j - i) <= Position(pre, j)
  {
    if i < j {
      PositionsApart(pre, i, j - 1);
    }
  }

  /** The slots once the first k prefilled transactions are in place. */
  function Placed(env: Env, msg: Message, k: nat): (s: Slots)
    requires k <= |msg.prefilled| && AllPrefilledOk(env, msg, k)
    ensures |s| == Size(msg)
  {
    if k == 0 then seq(Size(msg), _ => None)
    else
      assert PrefilledOk(env, msg, k - 1);
      Placed(env, msg, k - 1)[Position(msg.prefilled, k - 1) := Some(msg.prefilled[k - 1].tx)]
  }

  /** Each prefilled transaction is at its position, and nothing else is. */
  lemma {:induction false} PlacedAt(env: Env, msg: Message, k: nat, p: nat)
    requires k <= |msg.prefilled| && AllPrefilledOk(env, msg, k) && p < Size(msg)
    ensures Placed(env, msg, k)[p].Some? <==> exists i :: 0 <= i < k && Position(msg.prefilled, i) == p
    ensures forall i :: 0 <= i < k && Position(msg.prefilled, i) == p ==> Placed(env, msg, k)[p] == Some(msg.prefilled[i].tx)
  {
    if k > 0 {
      assert PrefilledOk(env, msg, k - 1);
      PlacedAt(env, msg, k - 1, p);
      forall i | 0 <= i < k - 1
        ensures Position(msg.prefilled, i) < Position(msg.prefilled, k - 1)
      {
        PositionsAscend(msg.prefilled, i, k - 1);
      }
      if Position(msg.prefilled, k - 1) == p {
        assert 0 <= k - 1 < k;
      }
    }
  }

  // ----- Empty positions ---------------------------------------------------------------

  /** The empty positions, in order. */
  function Empties(s: Slots): seq<nat> {
    if s == [] then []
    else Empties(s[..|s| - 1]) + if s[|s| - 1].None? then [|s| - 1] else []
  }

  lemma {:induction false} EmptiesAre(s: Slots, i: nat)
    requires i < |Empties(s)|
    ensures Empties(s)[i] < |s| && s[Empties(s)[i]].None?
    ensures i > 0 ==> Empties(s)[i - 1] < Empties(s)[i]
  {
    var n := |s| - 1;
    if i < |Empties(s[..n])| {
      EmptiesAre(s[..n], i);
    } else if i > 0 {
      EmptiesAre(s[..n], i - 1);
    }
  }

  lemma {:induction false} EmptiesAscend(s: Slots, i: nat, j: nat)
    requires i < j < |Empties(s)|
    ensures Empties(s)[i] < Empties(s)[j]
  {
    EmptiesAre(s, j);
    if i < j - 1 {
      EmptiesAscend(s, i, j - 1);
    }
  }

  /** Every empty position is among them. */
  lemma {:induction false} EmptiesAll(s: Slots, p: nat) returns (i: nat)
    requires p < |s| && s[p].None?
    ensures i < |Empties(s)| && Empties(s)[i] == p
  {
    var n := |s| - 1;
    if p == n {
      i := |Empties(s)| - 1;
    } else {
      i := EmptiesAll(s[..n], p);
    }
  }

  lemma {:induction false} EmptiesPrefix(s: Slots, p: nat)
    requires p < |s|
    ensures Empties(s[..p + 1]) == Empties(s[..p]) + if s[p].None? then [p] else []
  {
    assert s[..p + 1][..p] == s[..p];
  }

  /** The empty positions of a prefix come first. */
  lemma {:induction false} EmptiesOfPrefix(s: Slots, p: nat)
    requires p <= |s|
    ensures |Empties(s[..p])| <= |Empties(s)| && Empties(s)[..|Empties(s[..p])|] == Empties(s[..p])
  {
    if p == |s| {
      assert s[..p] == s;
    } else {
      var n := |s| - 1;
      EmptiesOfPrefix(s[..n], p);
      assert s[..n][..p] == s[..p];
    }
  }

  lemma {:induction false} EmptiesUpdate(s: Slots, p: nat, tx: Tx)
    requires p < |s| && s[p].None?
    ensures |Empties(s[p := Some(tx)])| == |Empties(s)| - 1
  {
    var n := |s| - 1;
    var t := s[p := Some(tx)];
    if p == n {
      assert t[..n] == s[..n];
    } else {
      assert t[..n] == s[..n][p := Some(tx)];
      EmptiesUpdate(s[..n], p, tx);
    }
  }

  lemma {:induction false} NothingPlaced(n: nat)
    ensures |Empties(seq(n, _ => None))| == n
  {
    if n > 0 {
      var s: Slots := seq(n, _ => None);
      var r: Slots := seq(n - 1, _ => None);
      assert s[..n - 1] == r;
      NothingPlaced(n - 1);
    }
  }

  /** There are exactly as many empty positions as short ids. */
  lemma {:induction false} EmptiesCount(env: Env, msg: Message, k: nat)
    requires k <= |msg.prefilled| && AllPrefilledOk(env, msg, k)
    ensures |Empties(Placed(env, msg, k))| == Size(msg) - k
  {
    if k == 0 {
      NothingPlaced(Size(msg));
    } else {
      assert PrefilledOk(env, msg, k - 1);
      EmptiesCount(env, msg, k - 1);
      var p := Position(msg.prefilled, k - 1);
      PlacedAt(env, msg, k - 1, p);
      forall i | 0 <= i < k - 1
        ensures Position(msg.prefilled, i) != p
      {
        PositionsAscend(msg.prefilled, i, k - 1);
      }
      EmptiesUpdate(Placed(env, msg, k - 1), p, msg.prefilled[k - 1].tx);
    }
  }
}
