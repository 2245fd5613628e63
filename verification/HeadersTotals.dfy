/** What the header sync counts and checks along a list of headers, header by header:
    links, permitted targets, the sum of the work, and one commitment in every period. */
module HeadersTotals {
  import opened Bits
  import opened Wrappers
  import opened HeadersWork
  import opened HeadersSync
  import opened HeadersSyncRun
  import opened HeadersRules

  // ----- Links and targets -----------------------------------------------------------------

  /** A header names the one before it. */
  predicate LinksAt(cfg: Config, prev: Hash, hs: seq<Header>, i: nat)
    requires i < |hs|
  {
    hs[i].prev == if i == 0 then prev else cfg.hash(hs[i - 1])
  }

  lemma {:induction false} LinkedExactly(cfg: Config, prev: Hash, hs: seq<Header>)
    ensures Linked(cfg, prev, hs) <==> forall i: nat :: i < |hs| ==> LinksAt(cfg, prev, hs, i)
  {
    if hs != [] {
      var n := |hs| - 1;
      LinkedExactly(cfg, prev, Init(hs));
      assert forall i: nat :: i < n ==> LinksAt(cfg, prev, Init(hs), i) == LinksAt(cfg, prev, hs, i);
      assert LinksAt(cfg, prev, hs, n) <==> Tail(hs).prev == LastHash(cfg, prev, Init(hs));
    }
  }

  /** The target of a header is a permitted transition from the one before it. */
  predicate PermitsAt(cfg: Config, bits: nat, hs: seq<Header>, i: nat)
    requires i < |hs|
  {
    cfg.permitted(cfg.StartHeight() + 1 + i, if i == 0 then bits else hs[i - 1].bits, hs[i].bits)
  }

  lemma {:induction false} PermittedExactly(cfg: Config, bits: nat, hs: seq<Header>)
    ensures PermittedFrom(cfg, bits, hs) <==> forall i: nat :: i < |hs| ==> PermitsAt(cfg, bits, hs, i)
  {
    if hs != [] {
      var n := |hs| - 1;
      PermittedExactly(cfg, bits, Init(hs));
      assert forall i: nat :: i < n ==> PermitsAt(cfg, bits, Init(hs), i) == PermitsAt(cfg, bits, hs, i);
      assert PermitsAt(cfg, bits, hs, n) <==>
             cfg.permitted(cfg.StartHeight() + |hs|, BitsBefore(bits, Init(hs)), Tail(hs).bits);
    }
  }

  // ----- Work ---------------------------------------------------------------------------------

  /** The work of one header on top of those before it. */
  function WorkAt(cfg: Config, hs: seq<Header>, i: nat): Option<nat>
    requires i < |hs|
  {
    cfg.headerWork(Extended(cfg.start, hs[..i]), hs[i])
  }

  predicate AllCounted(cfg: Config, hs: seq<Header>) {
    forall i: nat :: i < |hs| ==> WorkAt(cfg, hs, i).Some?
  }

  function TotalWork(cfg: Config, hs: seq<Header>, n: nat): nat
    requires n <= |hs| && AllCounted(cfg, hs)
  {
    if n == 0 then 0 else TotalWork(cfg, hs, n - 1) + WorkAt(cfg, hs, n - 1).value
  }

  lemma {:induction false} WorkAtPrefix(cfg: Config, hs: seq<Header>, i: nat, k: nat)
    requires i < k <= |hs|
    ensures WorkAt(cfg, hs[..k], i) == WorkAt(cfg, hs, i)
  {
    assert hs[..k][..i] == hs[..i];
  }

  lemma {:induction false} TotalWorkPrefix(cfg: Config, hs: seq<Header>, n: nat, k: nat)
    requires n <= k <= |hs| && AllCounted(cfg, hs)
    ensures AllCounted(cfg, hs[..k]) && TotalWork(cfg, hs[..k], n) == TotalWork(cfg, hs, n)
  {
    hide WorkAt;
    forall i: nat | i < k
      ensures WorkAt(cfg, hs[..k], i) == WorkAt(cfg, hs, i)
    {
      WorkAtPrefix(cfg, hs, i, k);
    }
    if n > 0 {
      TotalWorkPrefix(cfg, hs, n - 1, k);
    }
  }

  lemma {:induction false} ModAdd(a: nat, b: nat, m: nat)
    requires m > 0
    ensures (a % m + b) % m == (a + b) % m
  {
    var q := a / m;
    assert a == q * m + a % m;
    var x := a % m + b;
    assert a + b == q * m + x;
    var r := x / m;
    assert x == r * m + x % m;
    assert q * m + r * m == (q + r) * m;
    DivMod(a + b, m, q + r, x % m);
  }

  /** Headers are counted if and only if each of them is accepted on top of the others;
      then the total is the work at the fork point and theirs, modulo 2^256. */
  lemma {:induction false} CountedExactly(cfg: Config, hs: seq<Header>)
    ensures Counted(cfg, hs).Some? <==> AllCounted(cfg, hs)
    ensures Counted(cfg, hs).Some? ==> Counted(cfg, hs).value.0 == Extended(cfg.start, hs)
    ensures Counted(cfg, hs).Some? && hs != [] ==>
              Counted(cfg, hs).value.1 == (cfg.startWork + TotalWork(cfg, hs, |hs|)) % Pow2(256)
  {
    hide WorkAt, Pow2;
    if hs != [] {
      var n := |hs| - 1;
      var init := Init(hs);
      CountedExactly(cfg, init);
      forall i: nat | i < n
        ensures WorkAt(cfg, init, i) == WorkAt(cfg, hs, i)
      {
        WorkAtPrefix(cfg, hs, i, n);
      }
      assert Counted(cfg, init).Some? ==> (AllCounted(cfg, hs) <==> WorkAt(cfg, hs, n).Some?);
      LastWork(cfg, hs);
      if Counted(cfg, hs).Some? {
        TotalWorkPrefix(cfg, hs, n, n);
        TwoTo256();
        if n > 0 {
          ModAdd(cfg.startWork + TotalWork(cfg, hs, n), WorkAt(cfg, hs, n).value, TWO_256);
        }
      }
    }
  }

  lemma {:induction false} LastWork(cfg: Config, hs: seq<Header>)
    requires hs != []
    ensures var n := |hs| - 1; WorkAt(cfg, hs, n) == cfg.headerWork(Extended(cfg.start, Init(hs)), Tail(hs))
  {
  }

  lemma {:induction false} ThirtyTwo()
    ensures Pow2(32) == 0x1_0000_0000
  {
    assert Pow2(4) == 16;
    hide Pow2;
    Pow2Adds(4, 4);
    Pow2Adds(8, 8);
    Pow2Adds(16, 16);
  }

  lemma {:induction false} TwoTo256()
    ensures Pow2(256) == TWO_256
  {
    hide Pow2;
    assert Pow2(32) == 0x1_0000_0000 by {
      ThirtyTwo();
    }
    Pow2Adds(32, 32);
    Pow2Adds(64, 64);
    Pow2Adds(128, 128);
  }

  /** The threshold is reached once the headers up to some point count for as much. */
  lemma {:induction false} ReachedExactly(cfg: Config, hs: seq<Header>)
    ensures Reached(cfg, hs) <==>
            exists k: nat :: 0 < k <= |hs| && Counted(cfg, hs[..k]).Some? && Counted(cfg, hs[..k]).value.1 >= cfg.minimumWork
  {
    hide Counted;
    if hs != [] {
      var n := |hs| - 1;
      ReachedExactly(cfg, Init(hs));
      assert hs[..|hs|] == hs;
      assert forall k: nat :: k <= n ==> Init(hs)[..k] == hs[..k];
      if Reached(cfg, Init(hs)) {
        var k: nat :| 0 < k <= n && Counted(cfg, Init(hs)[..k]).Some? && Counted(cfg, Init(hs)[..k]).value.1 >= cfg.minimumWork;
        assert Counted(cfg, hs[..k]).Some?;
      }
      if k: nat :| 0 < k <= |hs| && Counted(cfg, hs[..k]).Some? && Counted(cfg, hs[..k]).value.1 >= cfg.minimumWork {
        if k <= n {
          assert Counted(cfg, Init(hs)[..k]).Some?;
        }
      }
    }
  }

  // ----- Commitments ------------------------------------------------------------------------------

  /** The commitment of a header at a committing height stands where the earlier ones
      end. */
  lemma {:induction false} CommitmentAt(cfg: Config, hs: seq<Header>, i: nat)
    requires i < |hs| && (cfg.StartHeight() + 1 + i) % 606 == cfg.offset
    ensures var k := |Commitments(cfg, hs[..i])|;
            k < |Commitments(cfg, hs)| && Commitments(cfg, hs)[k] == cfg.commitment(cfg.hash(hs[i]))
  {
    var n := |hs| - 1;
    if i < n {
      CommitmentAt(cfg, Init(hs), i);
      assert Init(hs)[..i] == hs[..i];
    }
  }

  /** There are as many as committing heights among the headers, so one in every 606
      headers, wherever they begin. */
  lemma {:induction false} OnePerPeriod(cfg: Config, hs: seq<Header>)
    requires cfg.offset < 606 && cfg.StartHeight() >= 0
    ensures var first := cfg.StartHeight() + 606 - cfg.offset;
            |Commitments(cfg, hs)| == (first + |hs|) / 606 - first / 606
  {
    if hs != [] {
      OnePerPeriod(cfg, Init(hs));
      NextPeriod(cfg.StartHeight() + |hs|, cfg.offset);
    }
  }

  lemma {:induction false} NextPeriod(height: nat, offset: nat)
    requires offset < 606 && height > 0
    ensures (height + 606 - offset) / 606 ==
            (height + 605 - offset) / 606 + if height % 606 == offset then 1 else 0
  {
  }
}
