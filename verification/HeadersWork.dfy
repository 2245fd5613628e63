/** Counting the work of a header chain from a bounded history: the last blocks
    and the latest eligible block of each algorithm decide like the full chain. */
module HeadersWork {
  import opened Wrappers

  type Hash = nat

  datatype Header = Header(version: int, prev: Hash, merkle: Hash, time: nat, bits: nat, nonce: nat)

  /** The fields of a block that work calculations read. */
  datatype Work = Work(height: int, version: int, time: nat, bits: nat)

  /** A chain from the genesis block up. */
  type Chain = s: seq<Work> | |s| > 0 witness [Work(0, 0, 0, 0)]

  const NUM_ALGOS := 5
  const NUM_ALGOS_IMPL := 8
  const MEDIAN_TIME_SPAN := 11
  const INT_MAX := 0x7fff_ffff

  const ALGO_UNKNOWN := -1
  const ALGO_SHA256D := 0
  const ALGO_SCRYPT := 1
  const ALGO_GROESTL := 2
  const ALGO_SKEIN := 3
  const ALGO_QUBIT := 4
  const ALGO_ODO := 7

  /** Consensus parameters. The arithmetic of the target range check, the
      retargeting step, the median and the work formula is left open. */
  datatype Params = Params(
    averagingInterval: nat,
    targetSpacing: nat,
    allowMinDifficulty: bool,
    easyPow: bool,
    powLimit: nat,
    multiAlgoHeight: int,
    algoSwapHeight: int,
    odoHeight: int,
    algoLockHeight: int,
    groestlOffHeight: int,
    alwaysUpdateHeight: int,
    workChangeHeight: int,
    targetInRange: nat -> bool,
    median: seq<nat> -> int,
    initial: int -> nat,
    oldRules: (seq<Work>, int) -> nat,
    retarget: (int, int, int, Work) -> nat,
    earlyProof: Work -> nat,
    meanProof: seq<nat> -> nat)
  {
    /** The oldest difficulty rules end before the work change, as on every network. */
    predicate Ordered() {
      alwaysUpdateHeight < workChangeHeight
    }

    function HistoryLimit(): nat {
      NUM_ALGOS * averagingInterval + MEDIAN_TIME_SPAN
    }
  }

  // ----- Algorithms ---------------------------------------------------------

  /** The mining algorithm named by the version bits. */
  function AlgoOf(version: int): int {
    match version / 256 % 16
    case 0 => ALGO_SCRYPT
    case 2 => ALGO_SHA256D
    case 4 => ALGO_GROESTL
    case 6 => ALGO_SKEIN
    case 8 => ALGO_QUBIT
    case 14 => ALGO_ODO
    case _ => ALGO_UNKNOWN
  }

  /** A block index counts unrecognized bits as Scrypt. */
  function IndexAlgo(version: int): int {
    if AlgoOf(version) == ALGO_UNKNOWN then ALGO_SCRYPT else AlgoOf(version)
  }

  /** May the block after one of height `parentHeight` use the algorithm? */
  predicate IsAlgoActive(p: Params, parentHeight: int, algo: int) {
    if parentHeight < p.multiAlgoHeight then algo == ALGO_SCRYPT
    else if parentHeight < p.algoSwapHeight || parentHeight + 1 < p.odoHeight then
      algo in {ALGO_SHA256D, ALGO_SCRYPT, ALGO_GROESTL, ALGO_SKEIN, ALGO_QUBIT}
    else
      algo in {ALGO_SHA256D, ALGO_SCRYPT, ALGO_SKEIN, ALGO_QUBIT, ALGO_ODO}
  }

  // ----- The full chain -------------------------------------------------------

  function Tip(chain: Chain): Work {
    chain[|chain| - 1]
  }

  function Last<T>(s: seq<T>, n: nat): seq<T> {
    if |s| <= n then s else s[|s| - n..]
  }

  /** More than two spacings after its parent, on a network that then allows the
      minimum difficulty. */
  predicate MinDifficultyTime(p: Params, time: nat, parentTime: nat) {
    p.allowMinDifficulty && time > parentTime + 2 * p.targetSpacing
  }

  /** Does the last block of the chain count for the difficulty of `algo`? */
  predicate Eligible(p: Params, chain: Chain, algo: int) {
    && IndexAlgo(Tip(chain).version) == algo
    && !(|chain| >= 2 && MinDifficultyTime(p, Tip(chain).time, chain[|chain| - 2].time))
  }

  /** The latest eligible block of an algorithm. */
  function LastForAlgo(p: Params, chain: seq<Work>, algo: int): Option<Work> {
    if chain == [] then None
    else if Eligible(p, chain, algo) then Some(Tip(chain))
    else LastForAlgo(p, chain[..|chain| - 1], algo)
  }

  function Times(chain: seq<Work>): seq<nat> {
    seq(|chain|, i requires 0 <= i < |chain| => chain[i].time)
  }

  function MedianTimePast(p: Params, chain: seq<Work>): int {
    (p.median)(Times(Last(chain, MEDIAN_TIME_SPAN)))
  }

  /** The target a block on top of the chain must claim, given the latest block
      of its algorithm. */
  function NextWorkRequired(p: Params, chain: Chain, time: nat, algo: int, previous: Option<Work>): nat {
    if p.allowMinDifficulty && (p.easyPow || MinDifficultyTime(p, time, Tip(chain).time)) then p.powLimit
    else if Tip(chain).height < p.alwaysUpdateHeight then (p.oldRules)(chain, algo)
    else if previous.None? || |chain| <= NUM_ALGOS * p.averagingInterval then (p.initial)(algo)
    else
      var first := chain[..|chain| - NUM_ALGOS * p.averagingInterval];
      (p.retarget)(Tip(chain).height, MedianTimePast(p, chain), MedianTimePast(p, first), previous.value)
  }

  function Lookup(m: map<int, Work>, algo: int): Option<Work> {
    if algo in m then Some(m[algo]) else None
  }

  /** The required targets of the active algorithms from `algo` up. */
  function ActiveTargets(p: Params, chain: Chain, time: nat, previous: map<int, Work>, algo: nat): seq<nat>
    decreases NUM_ALGOS_IMPL - algo
  {
    if algo >= NUM_ALGOS_IMPL then []
    else if !IsAlgoActive(p, Tip(chain).height, algo) then ActiveTargets(p, chain, time, previous, algo + 1)
    else [NextWorkRequired(p, chain, time, algo, Lookup(previous, algo))]
         + ActiveTargets(p, chain, time, previous, algo + 1)
  }

  function BlockProof(p: Params, chain: Chain, next: Work, previous: map<int, Work>): nat {
    if next.height < p.workChangeHeight then (p.earlyProof)(next)
    else (p.meanProof)(ActiveTargets(p, chain, next.time, previous, 0))
  }

  function NextBlock(chain: Chain, h: Header): Work {
    Work(Tip(chain).height + 1, h.version, h.time, h.bits)
  }

  function AllPrevious(p: Params, chain: Chain): map<int, Work> {
    map a | 0 <= a < NUM_ALGOS_IMPL && LastForAlgo(p, chain, a).Some? :: LastForAlgo(p, chain, a).value
  }

  /** The rules a header must meet that need no history. */
  predicate PlainChecks(p: Params, chain: Chain, h: Header) {
    var next := NextBlock(chain, h);
    && (p.targetInRange)(h.bits)
    && Tip(chain).height != INT_MAX
    && (next.height >= p.algoLockHeight || next.height >= p.groestlOffHeight ==>
          AlgoOf(h.version) != ALGO_UNKNOWN && IsAlgoActive(p, Tip(chain).height, AlgoOf(h.version)))
  }

  /** The work a header adds to the full chain, or None if it is rejected: the
      specification of the bounded-history computation. */
  function HeaderWork(p: Params, chain: Chain, h: Header): Option<nat> {
    var next := NextBlock(chain, h);
    var algo := AlgoOf(h.version);
    if !PlainChecks(p, chain, h) then None
    else if next.height >= p.workChangeHeight &&
            h.bits != NextWorkRequired(p, chain, h.time, algo, LastForAlgo(p, chain, algo)) then None
    else Some(BlockProof(p, chain, next, AllPrevious(p, chain)))
  }

  // ----- What the bounded history must hold -----------------------------------

  /** The averaging interval and its median span reach back exactly as far as the
      history kept, so the last blocks decide like the full chain, once the oldest rules
      are over. */
  lemma HistorySuffices(p: Params, chain: Chain, time: nat, algo: int, previous: Option<Work>)
    requires Tip(chain).height >= p.alwaysUpdateHeight
    ensures var recent := Last(chain, p.HistoryLimit());
            NextWorkRequired(p, recent, time, algo, previous) == NextWorkRequired(p, chain, time, algo, previous)
  {
    var span := NUM_ALGOS * p.averagingInterval;
    var recent := Last(chain, p.HistoryLimit());
    assert Last(recent, MEDIAN_TIME_SPAN) == Last(chain, MEDIAN_TIME_SPAN);
    if |chain| > span {
      assert Last(recent[..|recent| - span], MEDIAN_TIME_SPAN) == Last(chain[..|chain| - span], MEDIAN_TIME_SPAN);
    }
  }

  lemma {:induction false} UnknownHasNoBlock(p: Params, chain: seq<Work>)
    ensures LastForAlgo(p, chain, ALGO_UNKNOWN) == None
  {
    if chain != [] {
      UnknownHasNoBlock(p, chain[..|chain| - 1]);
    }
  }

  /** Agreeing on the active algorithms is enough, and under the minimum
      difficulty rule not even that is needed. */
  lemma {:induction false} ActiveTargetsAgree(
      p: Params, chain: Chain, time: nat, m: map<int, Work>, n: map<int, Work>, algo: nat)
    requires (p.allowMinDifficulty && (p.easyPow || MinDifficultyTime(p, time, Tip(chain).time)))
             || forall a :: algo <= a < NUM_ALGOS_IMPL && IsAlgoActive(p, Tip(chain).height, a) ==>
                  Lookup(m, a) == Lookup(n, a)
    requires Tip(chain).height >= p.alwaysUpdateHeight
    ensures ActiveTargets(p, Last(chain, p.HistoryLimit()), time, m, algo) == ActiveTargets(p, chain, time, n, algo)
    decreases NUM_ALGOS_IMPL - algo
  {
    hide IsAlgoActive, Last;
    if algo < NUM_ALGOS_IMPL {
      SameTip(p, chain, Last(chain, p.HistoryLimit()));
      HistorySuffices(p, chain, time, algo, Lookup(m, algo));
      ActiveTargetsAgree(p, chain, time, m, n, algo + 1);
    }
  }

  // ----- The bounded history ---------------------------------------------------

  class HeadersWorkState {
    const p: Params
    const chainStart: Chain          // the block index up to the fork point
    var recent: seq<Work>
    var previous: map<int, Work>     // the entries marked present
    var initialized: set<int>
    ghost var chain: Chain           // the full chain of accepted headers

    /** The last blocks are those of the full chain; an initialized algorithm has
        the latest eligible block of the full chain; one that is not initialized
        has had no eligible block since the fork point. */
    ghost predicate Valid()
      reads this
    {
      && p.Ordered() && recent == Last(chain, p.HistoryLimit())
      && previous.Keys <= initialized
      && (forall a <- initialized :: Lookup(previous, a) == LastForAlgo(p, chain, a))
      && (forall a :: a !in initialized ==> LastForAlgo(p, chain, a) == LastForAlgo(p, chainStart, a))
    }

    constructor (params: Params, start: Chain)
      requires params.Ordered()
      ensures Valid() && p == params && chainStart == start && chain == start
    {
      var r: seq<Work> := [];
      var k := |start|;
      while k > 0 && |r| < params.HistoryLimit()
        invariant 0 <= k <= |start| && |r| <= params.HistoryLimit()
        invariant r == start[k..]
      {
        k := k - 1;
        r := [start[k]] + r;
      }
      p := params;
      chainStart := start;
      recent := r;
      previous := map[];
      initialized := {};
      chain := start;
    }

    /** Seed an algorithm that is needed for the first time from the fork point. */
    method Initialize(algo: int)
      requires Valid()
      modifies this`previous, this`initialized
      ensures Valid() && algo in initialized
    {
      if algo !in initialized {
        var found := LastForAlgo(p, chainStart, algo);
        if found.Some? {
          previous := previous[algo := found.value];
        }
        initialized := initialized + {algo};
      }
    }

    /** The latest blocks of the active algorithms and of the header's own. */
    method PreviousAlgos(h: Header) returns (algos: map<int, Work>)
      requires Valid()
      modifies this`previous, this`initialized
      ensures Valid()
      ensures (p.allowMinDifficulty && (p.easyPow || MinDifficultyTime(p, h.time, Tip(chain).time)))
              || forall a :: 0 <= a < NUM_ALGOS_IMPL
                             && (IsAlgoActive(p, Tip(chain).height, a) || a == AlgoOf(h.version)) ==>
                   Lookup(algos, a) == LastForAlgo(p, chain, a)
    {
      algos := map[];
      assert Tip(recent) == Tip(chain);
      if p.allowMinDifficulty && (p.easyPow || MinDifficultyTime(p, h.time, Tip(recent).time)) {
        return;
      }
      for algo := 0 to NUM_ALGOS_IMPL
        invariant Valid()
        invariant forall a <- algos :: a < algo
        invariant forall a :: 0 <= a < algo && (IsAlgoActive(p, Tip(chain).height, a) || a == AlgoOf(h.version)) ==>
                    Lookup(algos, a) == LastForAlgo(p, chain, a)
      {
        if IsAlgoActive(p, Tip(recent).height, algo) || algo == AlgoOf(h.version) {
          Initialize(algo);
          if algo in previous {
            algos := algos[algo := previous[algo]];
          }
        }
      }
    }

    /** Accepting or rejecting a header, and the work it adds, are as on the full
        chain, which an accepted header extends. */
    method AddHeader(h: Header) returns (work: Option<nat>)
      requires Valid()
      modifies this
      ensures Valid()
      ensures work == HeaderWork(p, old(chain), h)
      ensures chain == if work.Some? then old(chain) + [NextBlock(old(chain), h)] else old(chain)
    {
      var next := NextBlock(recent, h);
      var algo := AlgoOf(h.version);
      assert Tip(recent) == Tip(chain);
      if !PlainChecks(p, recent, h) {
        return None;
      }
      var previousAlgos: map<int, Work> := map[];
      if next.height >= p.workChangeHeight {
        previousAlgos := PreviousAlgos(h);
        UnknownHasNoBlock(p, chain);
        HistorySuffices(p, chain, h.time, algo, Lookup(previousAlgos, algo));
        var known := if 0 <= algo then Lookup(previousAlgos, algo) else None;
        if h.bits != NextWorkRequired(p, recent, h.time, algo, known) {
          return None;
        }
        ActiveTargetsAgree(p, chain, h.time, previousAlgos, AllPrevious(p, chain), 0);
      }
      work := Some(BlockProof(p, recent, next, previousAlgos));
      Append(next);
    }

    /** Record an accepted block. */
    method Append(next: Work)
      requires Valid()
      modifies this
      ensures Valid() && chain == old(chain) + [next]
    {
      hide LastForAlgo, MinDifficultyTime, IndexAlgo, Last;
      ghost var before := chain;
      SameTip(p, before, recent);
      LastSlides(before, next, p.HistoryLimit());
      forall a
        ensures LastForAlgo(p, before + [next], a) == LastAfter(p, before, next, a)
      {
        LastAfterBlock(p, before, next, a);
      }
      if !MinDifficultyTime(p, next.time, Tip(recent).time) {
        var algo := IndexAlgo(next.version);
        previous := previous[algo := next];
        initialized := initialized + {algo};
      }
      recent := recent + [next];
      if |recent| > p.HistoryLimit() {
        recent := recent[1..];
      }
      chain := before + [next];
    }
  }

  lemma {:induction false} SameTip(p: Params, chain: Chain, recent: seq<Work>)
    requires recent == Last(chain, p.HistoryLimit())
    ensures |recent| > 0 && Tip(recent) == Tip(chain)
  {
  }

  lemma {:induction false} LastSlides(chain: seq<Work>, next: Work, n: nat)
    requires n > 0
    ensures var longer := Last(chain, n) + [next];
            Last(chain + [next], n) == if |longer| > n then longer[1..] else longer
  {
  }

  /** The latest eligible block once one more block is on the chain. */
  function LastAfter(p: Params, chain: Chain, next: Work, algo: int): Option<Work> {
    if IndexAlgo(next.version) == algo && !MinDifficultyTime(p, next.time, Tip(chain).time) then Some(next)
    else LastForAlgo(p, chain, algo)
  }

  lemma {:induction false} LastAfterBlock(p: Params, chain: Chain, next: Work, algo: int)
    ensures LastForAlgo(p, chain + [next], algo) == LastAfter(p, chain, next, algo)
  {
    hide MinDifficultyTime, IndexAlgo;
    assert (chain + [next])[..|chain|] == chain;
  }
}
