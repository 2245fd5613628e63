/** The rules that a counted chain of headers meets, at every height: which algorithms
    are in use, which block is the latest of an algorithm, what target is required. */
module HeadersRules {
  import opened Wrappers
  import opened HeadersWork

  // ----- Algorithms -----------------------------------------------------------------------

  /** The version bits of an algorithm in use. */
  function VersionForAlgo(algo: int): int
    requires algo in {ALGO_SHA256D, ALGO_SCRYPT, ALGO_GROESTL, ALGO_SKEIN, ALGO_QUBIT, ALGO_ODO}
  {
    match algo
    case 0 => 2 * 256
    case 1 => 0
    case 2 => 4 * 256
    case 3 => 6 * 256
    case 4 => 8 * 256
    case 7 => 14 * 256
  }

  /** The algorithm is read back whatever the other version bits are, and other bits name
      none; a block index then takes it for Scrypt. */
  lemma {:induction false} AlgoRoundTrip(algo: int, low: nat, high: int, version: int)
    requires low < 256
    ensures algo in {0, 1, 2, 3, 4, 7} ==>
              && AlgoOf(VersionForAlgo(algo) + low + 4096 * high) == algo
              && IndexAlgo(VersionForAlgo(algo) + low + 4096 * high) == algo
    ensures AlgoOf(version) == ALGO_UNKNOWN <==> version / 256 % 16 !in {0, 2, 4, 6, 8, 14}
    ensures AlgoOf(version) == ALGO_UNKNOWN ==> IndexAlgo(version) == ALGO_SCRYPT
    ensures AlgoOf(version) != ALGO_UNKNOWN ==> IndexAlgo(version) == AlgoOf(version) && AlgoOf(version) in {0, 1, 2, 3, 4, 7}
  {
    if algo in {0, 1, 2, 3, 4, 7} {
      var bits := VersionForAlgo(algo) / 256;
      assert VersionForAlgo(algo) == bits * 256 && 0 <= bits < 16;
      assert VersionForAlgo(algo) + low + 4096 * high == (bits + 16 * high) * 256 + low;
      assert (VersionForAlgo(algo) + low + 4096 * high) / 256 == bits + 16 * high;
    }
  }

  function ActiveAlgos(p: Params, parentHeight: int): set<int> {
    set algo: int | 0 <= algo < NUM_ALGOS_IMPL && IsAlgoActive(p, parentHeight, algo)
  }

  /** Scrypt alone at first, then five algorithms at a time: Odo takes the place of
      Groestl once both heights of the swap are reached. */
  lemma {:induction false} ActiveExactly(p: Params, parentHeight: int)
    ensures var swapped := parentHeight >= p.algoSwapHeight && parentHeight + 1 >= p.odoHeight;
            ActiveAlgos(p, parentHeight) ==
            if parentHeight < p.multiAlgoHeight then {ALGO_SCRYPT}
            else if swapped then {ALGO_SHA256D, ALGO_SCRYPT, ALGO_SKEIN, ALGO_QUBIT, ALGO_ODO}
            else {ALGO_SHA256D, ALGO_SCRYPT, ALGO_GROESTL, ALGO_SKEIN, ALGO_QUBIT}
    ensures forall algo :: IsAlgoActive(p, parentHeight, algo) ==> algo in ActiveAlgos(p, parentHeight)
    ensures |ActiveAlgos(p, parentHeight)| == if parentHeight < p.multiAlgoHeight then 1 else NUM_ALGOS
  {
  }

  // ----- The latest block of an algorithm -----------------------------------------------------

  /** The block at a height is of an algorithm, and was not mined under the rule for late
      blocks: more than two spacings after its parent, where the network has that rule. */
  predicate CountsFor(p: Params, chain: seq<Work>, i: nat, algo: int)
    requires i < |chain|
  {
    && IndexAlgo(chain[i].version) == algo
    && !(p.allowMinDifficulty && i > 0 && chain[i].time > chain[i - 1].time + 2 * p.targetSpacing)
  }

  /** The latest block for an algorithm is the last that counts for it. */
  lemma {:induction false} LatestExactly(p: Params, chain: seq<Work>, algo: int)
    ensures LastForAlgo(p, chain, algo).None? <==> forall i: nat :: i < |chain| ==> !CountsFor(p, chain, i, algo)
    ensures LastForAlgo(p, chain, algo).Some? ==>
              exists i: nat :: i < |chain| && CountsFor(p, chain, i, algo) && LastForAlgo(p, chain, algo) == Some(chain[i])
                               && forall j: nat :: i < j < |chain| ==> !CountsFor(p, chain, j, algo)
  {
    hide IndexAlgo;
    if chain != [] {
      var n := |chain| - 1;
      var init := chain[..n];
      LatestExactly(p, init, algo);
      assert forall i: nat :: i < n ==> CountsFor(p, init, i, algo) == CountsFor(p, chain, i, algo);
      if CountsFor(p, chain, n, algo) {
        assert Eligible(p, chain, algo);
      } else if LastForAlgo(p, init, algo).Some? {
        var i: nat :| i < n && CountsFor(p, init, i, algo) && LastForAlgo(p, init, algo) == Some(init[i])
                      && forall j: nat :: i < j < n ==> !CountsFor(p, init, j, algo);
        assert CountsFor(p, chain, i, algo);
        forall j: nat | i < j < |chain|
          ensures !CountsFor(p, chain, j, algo)
        {
          assert j < n ==> !CountsFor(p, init, j, algo);
        }
      }
    }
  }

  // ----- Required targets ------------------------------------------------------------------------

  /** A late block may use the minimum difficulty exactly on the networks that say so; on
      the others the oldest rules hold at first. */
  lemma {:induction false} LateBlocks(p: Params, chain: Chain, time: nat, algo: int, previous: Option<Work>)
    ensures p.allowMinDifficulty && time > Tip(chain).time + 2 * p.targetSpacing ==>
              NextWorkRequired(p, chain, time, algo, previous) == p.powLimit
    ensures p.allowMinDifficulty && p.easyPow ==> NextWorkRequired(p, chain, time, algo, previous) == p.powLimit
    ensures !p.allowMinDifficulty && Tip(chain).height < p.alwaysUpdateHeight ==>
              NextWorkRequired(p, chain, time, algo, previous) == (p.oldRules)(chain, algo)
    ensures !p.allowMinDifficulty ==>
              forall other: nat :: NextWorkRequired(p, chain, other, algo, previous) == NextWorkRequired(p, chain, time, algo, previous)
  {
  }

  /** Once the oldest rules are over, and the minimum difficulty is not allowed, the
      target is the initial one where an algorithm has no block or the chain is too short
      to average; else it depends on the height, the latest block of the algorithm, and
      the median times of two spans of eleven blocks. */
  lemma {:induction false} WindowsDecide(p: Params, a: Chain, b: Chain, time: nat, algo: int, previous: Option<Work>)
    requires Tip(a) == Tip(b) && Tip(a).height >= p.alwaysUpdateHeight
    requires var n := NUM_ALGOS * p.averagingInterval;
             && (|a| <= n <==> |b| <= n)
             && (|a| > n ==> Last(a, 11) == Last(b, 11) && Last(a[..|a| - n], 11) == Last(b[..|b| - n], 11))
    ensures NextWorkRequired(p, a, time, algo, previous) == NextWorkRequired(p, b, time, algo, previous)
    ensures !p.allowMinDifficulty && (previous.None? || |a| <= NUM_ALGOS * p.averagingInterval) ==>
              NextWorkRequired(p, a, time, algo, previous) == (p.initial)(algo)
  {
  }

  /** The target that a block of an algorithm on top of a chain needs. */
  function Required(p: Params, chain: Chain, time: nat, algo: int): nat {
    NextWorkRequired(p, chain, time, algo, LastForAlgo(p, chain, algo))
  }

  /** The work of an accepted header: of its own target before the work change, and from
      then on the mean of what each algorithm in use requires. */
  lemma {:induction false} WorkExactly(p: Params, chain: Chain, h: Header)
    requires HeaderWork(p, chain, h).Some?
    ensures var height := Tip(chain).height + 1;
            var swapped := height - 1 >= p.algoSwapHeight && height >= p.odoHeight;
            var req := (algo: int) => Required(p, chain, h.time, algo);
            HeaderWork(p, chain, h).value ==
            if height < p.workChangeHeight then (p.earlyProof)(Work(height, h.version, h.time, h.bits))
            else if height - 1 < p.multiAlgoHeight then (p.meanProof)([req(1)])
            else if swapped then (p.meanProof)([req(0), req(1), req(3), req(4), req(7)])
            else (p.meanProof)([req(0), req(1), req(2), req(3), req(4)])
  {
    hide NextWorkRequired, LastForAlgo, PlainChecks;
    var height := Tip(chain).height + 1;
    if height >= p.workChangeHeight {
      TargetsFrom(p, chain, h.time, 0);
    }
  }

  /** The targets from one algorithm on. */
  lemma {:induction false} TargetsFrom(p: Params, chain: Chain, time: nat, algo: nat)
    requires algo in {0, 2, 5}
    ensures var parent := Tip(chain).height;
            var swapped := parent >= p.algoSwapHeight && parent + 1 >= p.odoHeight;
            var req := (a: int) => Required(p, chain, time, a);
            ActiveTargets(p, chain, time, AllPrevious(p, chain), algo) ==
            if parent < p.multiAlgoHeight then if algo <= 1 then [req(1)] else []
            else if algo == 5 then if swapped then [req(7)] else []
            else if algo == 2 then if swapped then [req(3), req(4), req(7)] else [req(2), req(3), req(4)]
            else if swapped then [req(0), req(1), req(3), req(4), req(7)]
            else [req(0), req(1), req(2), req(3), req(4)]
    decreases 5 - algo
  {
    hide NextWorkRequired, LastForAlgo, AllPrevious;
    var m := AllPrevious(p, chain);
    forall a | 0 <= a < NUM_ALGOS_IMPL
      ensures HeadersWork.Lookup(m, a) == LastForAlgo(p, chain, a)
    {
      PreviousIs(p, chain, a);
    }
    if algo == 5 {
      assert ActiveTargets(p, chain, time, m, 8) == [];
      assert ActiveTargets(p, chain, time, m, 7) == if IsAlgoActive(p, Tip(chain).height, 7) then [Required(p, chain, time, 7)] else [];
      assert ActiveTargets(p, chain, time, m, 6) == ActiveTargets(p, chain, time, m, 7);
    } else if algo == 2 {
      TargetsFrom(p, chain, time, 5);
      assert ActiveTargets(p, chain, time, m, 4) ==
             (if IsAlgoActive(p, Tip(chain).height, 4) then [Required(p, chain, time, 4)] else []) + ActiveTargets(p, chain, time, m, 5);
      assert ActiveTargets(p, chain, time, m, 3) ==
             (if IsAlgoActive(p, Tip(chain).height, 3) then [Required(p, chain, time, 3)] else []) + ActiveTargets(p, chain, time, m, 4);
    } else {
      TargetsFrom(p, chain, time, 2);
      assert ActiveTargets(p, chain, time, m, 1) ==
             (if IsAlgoActive(p, Tip(chain).height, 1) then [Required(p, chain, time, 1)] else []) + ActiveTargets(p, chain, time, m, 2);
    }
  }

  lemma {:induction false} PreviousIs(p: Params, chain: Chain, algo: int)
    requires 0 <= algo < NUM_ALGOS_IMPL
    ensures HeadersWork.Lookup(AllPrevious(p, chain), algo) == LastForAlgo(p, chain, algo)
  {
    hide LastForAlgo;
  }

  // ----- Chains --------------------------------------------------------------------------------------

  /** A chain with headers on top. */
  function Extended(chain: Chain, hs: seq<Header>): (c: Chain)
    ensures |c| == |chain| + |hs| && Tip(c).height == Tip(chain).height + |hs|
  {
    if hs == [] then chain
    else
      var n := |hs| - 1;
      var before := Extended(chain, hs[..n]);
      before + [NextBlock(before, hs[n])]
  }

  /** Every header is accepted on top of those before it. */
  predicate Accepted(p: Params, chain: Chain, hs: seq<Header>) {
    hs == [] ||
    var n := |hs| - 1;
    (Accepted(p, chain, hs[..n]) && HeaderWork(p, Extended(chain, hs[..n]), hs[n]).Some?)
  }

  /** What is asked of the header at one height. */
  predicate Lawful(p: Params, chain: Chain, hs: seq<Header>, i: nat)
    requires i < |hs|
  {
    var height := Tip(chain).height + 1 + i;
    var before := Extended(chain, hs[..i]);
    var algo := AlgoOf(hs[i].version);
    && (p.targetInRange)(hs[i].bits)
    && height - 1 != INT_MAX
    && (height >= p.algoLockHeight || height >= p.groestlOffHeight ==> algo in ActiveAlgos(p, height - 1))
    && (height >= p.workChangeHeight ==>
          hs[i].bits == NextWorkRequired(p, before, hs[i].time, algo, LastForAlgo(p, before, algo)))
  }

  /** A chain of headers is accepted if and only if each of them is lawful: its target is
      in range, its algorithm is in use once that is enforced, and its target is the
      required one from the work change on. */
  lemma {:induction false} AcceptedExactly(p: Params, chain: Chain, hs: seq<Header>)
    ensures Accepted(p, chain, hs) <==> forall i: nat :: i < |hs| ==> Lawful(p, chain, hs, i)
  {
    hide IsAlgoActive, NextWorkRequired, LastForAlgo, BlockProof, ActiveTargets, AlgoOf, AllPrevious;
    if hs != [] {
      var n := |hs| - 1;
      AcceptedExactly(p, chain, hs[..n]);
      forall i: nat | i < n
        ensures Lawful(p, chain, hs[..n], i) == Lawful(p, chain, hs, i)
      {
        assert hs[..n][..i] == hs[..i];
      }
      OneLawful(p, chain, hs);
    }
  }

  lemma {:induction false} OneLawful(p: Params, chain: Chain, hs: seq<Header>)
    requires hs != []
    ensures var n := |hs| - 1; Lawful(p, chain, hs, n) <==> HeaderWork(p, Extended(chain, hs[..n]), hs[n]).Some?
  {
    hide NextWorkRequired, LastForAlgo, BlockProof, ActiveTargets, AllPrevious;
    var n := |hs| - 1;
    var algo := AlgoOf(hs[n].version);
    var height := Tip(chain).height + 1 + n;
    ActiveExactly(p, height - 1);
    assert algo in ActiveAlgos(p, height - 1) <==> IsAlgoActive(p, height - 1, algo);
    assert algo in ActiveAlgos(p, height - 1) ==> algo != ALGO_UNKNOWN;
  }

  /** So no accepted header from the lock height on uses Groestl after the swap, or Odo
      before it. */
  lemma {:induction false} SwapEnforced(p: Params, chain: Chain, hs: seq<Header>, i: nat)
    requires Accepted(p, chain, hs) && i < |hs|
    ensures var height := Tip(chain).height + 1 + i;
            var swapped := height - 1 >= p.algoSwapHeight && height >= p.odoHeight;
            height >= p.algoLockHeight || height >= p.groestlOffHeight ==>
              && (AlgoOf(hs[i].version) == ALGO_GROESTL ==> !swapped)
              && (AlgoOf(hs[i].version) == ALGO_ODO ==> swapped && height - 1 >= p.multiAlgoHeight)
              && AlgoOf(hs[i].version) != ALGO_UNKNOWN
  {
    hide Accepted, AlgoOf, NextWorkRequired, LastForAlgo;
    AcceptedExactly(p, chain, hs);
    assert Lawful(p, chain, hs, i);
    ActiveExactly(p, Tip(chain).height + i);
  }
}
