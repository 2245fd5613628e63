/** The block index: ancestors through the skip list, the active chain, forks and
    locators. */
module Chain {
  import opened Integers
  import opened Bits
  import opened SkipWalk

  type Hash = nat

  // ----- Blocks ------------------------------------------------------------------------

  class CBlockIndex {
    const hash: Hash
    const nHeight: int
    const pprev: CBlockIndex?
    var pskip: CBlockIndex?
    ghost const ancestors: seq<CBlockIndex>

    /** The parents lead down to a block at height 0. */
    ghost predicate Linked()
      decreases |ancestors|
    {
      && nHeight == |ancestors|
      && if pprev == null then nHeight == 0
         else ancestors == pprev.ancestors + [pprev] && pprev.Linked()
    }

    /** The plain walk along the parents: the block at each height up to this one. */
    ghost function Line(): seq<CBlockIndex> {
      ancestors + [this]
    }

    /** The skip links on this line are unset, or lead to the ancestor at the skip
        height. */
    ghost predicate Skips()
      reads Line()
    {
      forall b <- Line() :: SkipOk(b)
    }

    /** All skip links on this line are set. */
    ghost predicate Built()
      reads Line()
    {
      forall b <- Line() :: b.pprev != null ==> b.pskip != null
    }

    constructor (hash: Hash, parent: CBlockIndex?)
      requires parent != null ==> parent.Linked()
      ensures this.hash == hash && pprev == parent && pskip == null && Linked()
      ensures ancestors == if parent == null then [] else parent.Line()
    {
      this.hash := hash;
      pprev := parent;
      pskip := null;
      nHeight := if parent == null then 0 else parent.nHeight + 1;
      ancestors := if parent == null then [] else parent.ancestors + [parent];
    }

    /** The ancestor at a height, through the skip list, and how many links that takes. */
    method GetAncestor(height: int) returns (r: CBlockIndex?, ghost steps: nat)
      requires Linked() && Skips()
      ensures r == if 0 <= height <= nHeight then Line()[height] else null
      ensures 0 <= height <= nHeight && Built() ==> steps == Steps(nHeight, height)
    {
      hide Steps, SkipHeight;
      steps := 0;
      if height > nHeight || height < 0 {
        return null, 0;
      }
      ghost var line := Line();
      var walk := this;
      var heightWalk := nHeight;
      while heightWalk > height
        invariant height <= heightWalk <= nHeight && walk == line[heightWalk] && walk.nHeight == heightWalk && walk.Linked()
        invariant Built() ==> steps + Steps(heightWalk, height) == Steps(nHeight, height)
        decreases heightWalk
      {
        LinePrefix(this, heightWalk);
        SkipLower(heightWalk);
        OneMore(heightWalk, height);
        assert SkipOk(walk);
        assert Built() ==> walk.pskip != null;
        var heightSkip := SkipHeight(heightWalk);
        var heightSkipPrev := SkipHeight(heightWalk - 1);
        if walk.pskip != null
           && (heightSkip == height
               || (heightSkip > height && !(heightSkipPrev < heightSkip - 2 && heightSkipPrev >= height)))
        {
          walk := walk.pskip;
          heightWalk := heightSkip;
        } else {
          assert walk.pprev != null;
          walk := walk.pprev;
          heightWalk := heightWalk - 1;
        }
        LinePrefix(this, heightWalk);
        steps := steps + 1;
      }
      AtTarget(height);
      r := walk;
    }

    method BuildSkip()
      requires Linked() && if pprev == null then pskip == null else pprev.Skips()
      modifies this`pskip
      ensures Skips()
      ensures pprev != null ==> SkipHeight(nHeight) < nHeight && pskip == Line()[SkipHeight(nHeight)]
      ensures old(pprev == null || pprev.Built()) ==> Built()
    {
      LinesAscend(this);
      if pprev != null {
        SkipLower(nHeight);
        ghost var steps;
        pskip, steps := pprev.GetAncestor(SkipHeight(nHeight));
      }
    }
  }

  ghost predicate SkipOk(b: CBlockIndex)
    reads b
  {
    b.pskip == null || (b.nHeight == |b.ancestors| && SkipHeight(b.nHeight) <= b.nHeight && b.pskip == b.Line()[SkipHeight(b.nHeight)])
  }

  /** The line of an ancestor is the beginning of the line. */
  lemma {:induction false} LinePrefix(b: CBlockIndex, h: nat)
    requires b.Linked() && h <= b.nHeight
    ensures b.Line()[h].Linked() && b.Line()[h].nHeight == h && b.Line()[h].Line() == b.Line()[..h + 1]
    decreases b.nHeight
  {
    if h < b.nHeight {
      LinePrefix(b.pprev, h);
      assert b.ancestors == b.pprev.Line();
      assert b.Line()[..h + 1] == b.pprev.Line()[..h + 1];
    }
  }

  /** One step of the plain walk. */
  lemma {:induction false} ParentOf(b: CBlockIndex, h: nat)
    requires b.Linked() && h <= b.nHeight
    ensures |b.Line()| == b.nHeight + 1 && b.Line()[h].nHeight == h
    ensures b.Line()[h].pprev == if h == 0 then null else b.Line()[h - 1]
  {
    LinePrefix(b, h);
    var at := b.Line()[h];
    if h > 0 {
      assert at.Line()[h - 1] == at.pprev;
      assert at.Line()[h - 1] == b.Line()[h - 1];
    }
  }

  lemma {:induction false} TipOf(b: CBlockIndex)
    requires b.Linked()
    ensures b.nHeight >= 0 && |b.Line()| == b.nHeight + 1 && b.Line()[b.nHeight] == b
  {
  }

  /** No block occurs twice on a line. */
  lemma {:induction false} LinesAscend(b: CBlockIndex)
    requires b.Linked()
    ensures forall i :: 0 <= i <= b.nHeight ==> b.Line()[i].nHeight == i
  {
    forall i | 0 <= i <= b.nHeight
      ensures b.Line()[i].nHeight == i
    {
      LinePrefix(b, i);
    }
  }

  /** Lines that share a block share everything below it. */
  lemma {:induction false} SharedBelow(a: CBlockIndex, b: CBlockIndex, h: nat, k: nat)
    requires a.Linked() && b.Linked() && h <= k <= a.nHeight && k <= b.nHeight && a.Line()[k] == b.Line()[k]
    ensures a.Line()[h] == b.Line()[h]
  {
    LinePrefix(a, k);
    LinePrefix(b, k);
    assert a.Line()[..k + 1][h] == b.Line()[..k + 1][h];
  }

  // ----- The active chain ------------------------------------------------------------

  class CChain {
    var vChain: seq<CBlockIndex?>

    /** The chain is the line of its tip. */
    ghost predicate Valid()
      reads this
    {
      |vChain| > 0 ==> IsLine(vChain, vChain[|vChain| - 1])
    }

    constructor ()
      ensures vChain == [] && Valid()
    {
      vChain := [];
    }

    function Height(): int
      reads this
    {
      |vChain| - 1
    }

    function At(height: int): CBlockIndex?
      reads this
    {
      if 0 <= height < |vChain| then vChain[height] else null
    }

    /** The chain has a block at each height up to its own, and at no other. */
    lemma {:induction false} HeightIsLast(height: int)
      requires Valid()
      ensures At(height) != null <==> 0 <= height <= Height()
    {
    }

    /** A block is contained exactly when it is on the chain. */
    predicate Contains(b: CBlockIndex)
      reads this
    {
      At(b.nHeight) == b
    }

    method SetTip(block: CBlockIndex)
      requires Valid() && block.Linked()
      modifies this
      ensures Valid() && IsLine(vChain, block)
    {
      hide CBlockIndex.Linked, CBlockIndex.Line;
      ghost var was := vChain;
      ghost var line := block.Line();
      TipOf(block);
      var size := block.nHeight + 1;
      vChain := if |vChain| >= size then vChain[..size] else vChain + seq(size - |vChain|, _ => null);
      var b: CBlockIndex? := block;
      ghost var h := block.nHeight;
      while b != null && vChain[b.nHeight] != b
        invariant -1 <= h <= block.nHeight && |vChain| == size
        invariant if h == -1 then b == null else b == line[h] && b.nHeight == h
        invariant forall k :: h < k < size ==> vChain[k] == line[k]
        invariant forall k :: 0 <= k <= h ==> vChain[k] == if k < |was| then was[k] else null
        decreases h
      {
        ParentOf(block, h);
        vChain := vChain[b.nHeight := b];
        b := b.pprev;
        h := h - 1;
        if h >= 0 {
          ParentOf(block, h);
        }
      }
      if b != null {
        StoppedEarly(was, block, h);
      }
    }

    /** The last block that a line has in common with the chain. */
    method FindFork(start: CBlockIndex?) returns (r: CBlockIndex?)
      requires Valid() && (start != null ==> start.Linked() && start.Skips())
      ensures start == null ==> r == null
      ensures start != null ==> ForkOf(vChain, start, r)
    {
      hide CBlockIndex.Linked, CBlockIndex.Line;
      if start == null {
        return null;
      }
      TipOf(start);
      r := start;
      if start.nHeight > Height() {
        ghost var steps;
        r, steps := start.GetAncestor(Height());
      }
      ghost var h := if start.nHeight > Height() then Height() else start.nHeight;
      if h >= 0 {
        ParentOf(start, h);
      }
      while r != null && !Contains(r)
        invariant -1 <= h <= start.nHeight && h <= Height()
        invariant if h == -1 then r == null else r == start.Line()[h] && r.nHeight == h
        invariant forall k :: h < k <= start.nHeight && k < |vChain| ==> vChain[k] != start.Line()[k]
        decreases h
      {
        ParentOf(start, h);
        r := r.pprev;
        h := h - 1;
        if h >= 0 {
          ParentOf(start, h);
        }
      }
    }
  }

  /** A chain that holds exactly the line of a block. */
  ghost predicate IsLine(chain: seq<CBlockIndex?>, tip: CBlockIndex?) {
    && tip != null && tip.Linked() && |chain| == tip.nHeight + 1
    && forall h :: 0 <= h < |chain| ==> chain[h] == tip.Line()[h]
  }

  /** The highest block of the line of `b` that is on the chain, or none. */
  ghost predicate ForkOf(chain: seq<CBlockIndex?>, b: CBlockIndex, r: CBlockIndex?)
    requires b.Linked()
  {
    && (r != null ==> 0 <= r.nHeight <= b.nHeight && r.nHeight < |chain| && chain[r.nHeight] == r == b.Line()[r.nHeight])
    && forall h :: (if r == null then -1 else r.nHeight) < h <= b.nHeight && h < |chain| ==> chain[h] != b.Line()[h]
  }

  /** Where the walk down meets the old chain, the rest is right already. */
  lemma {:induction false} StoppedEarly(was: seq<CBlockIndex?>, block: CBlockIndex, h: nat)
    requires |was| > 0 ==> IsLine(was, was[|was| - 1])
    requires block.Linked() && h <= block.nHeight && h < |was| && was[h] == block.Line()[h]
    ensures forall k :: 0 <= k <= h ==> was[k] == block.Line()[k]
  {
    forall k | 0 <= k <= h
      ensures was[k] == block.Line()[k]
    {
      SharedBelow(was[|was| - 1], block, k, h);
    }
  }

  // ----- Common ancestors -----------------------------------------------------------------

  method LastCommonAncestor(a: CBlockIndex, b: CBlockIndex) returns (r: CBlockIndex)
    requires a.Linked() && a.Skips() && b.Linked() && b.Skips() && a.Line()[0] == b.Line()[0]
    ensures 0 <= r.nHeight <= a.nHeight && r.nHeight <= b.nHeight && a.Line()[r.nHeight] == r == b.Line()[r.nHeight]
    ensures forall h :: r.nHeight < h <= a.nHeight && h <= b.nHeight ==> a.Line()[h] != b.Line()[h]
  {
    hide CBlockIndex.Linked, CBlockIndex.Line;
    TipOf(a);
    TipOf(b);
    var pa: CBlockIndex? := a;
    var pb: CBlockIndex? := b;
    ghost var steps;
    if pa.nHeight > pb.nHeight {
      pa, steps := pa.GetAncestor(pb.nHeight);
    } else if pb.nHeight > pa.nHeight {
      pb, steps := pb.GetAncestor(pa.nHeight);
    }
    ghost var h := if a.nHeight < b.nHeight then a.nHeight else b.nHeight;
    ParentOf(a, h);
    ParentOf(b, h);
    while pa != pb && pa != null && pb != null
      invariant 0 <= h <= a.nHeight && h <= b.nHeight && pa == a.Line()[h] && pb == b.Line()[h]
      invariant pa.nHeight == h && pb.nHeight == h
      invariant forall k :: h < k <= a.nHeight && k <= b.nHeight ==> a.Line()[k] != b.Line()[k]
      decreases h
    {
      ParentOf(a, h);
      ParentOf(b, h);
      pa := pa.pprev;
      pb := pb.pprev;
      h := h - 1;
      ParentOf(a, h);
      ParentOf(b, h);
    }
    assert pa == pb;
    r := pa;
  }

  // ----- Locators ---------------------------------------------------------------------------

  /** The height of entry k, unless that is below the genesis block: eleven heights
      in a row, and then steps back that double. */
  function EntryHeight(h: nat, k: nat): int {
    if k <= 10 then h - k else h - 9 - Pow2(k - 10)
  }

  function LocatorSize(h: nat): nat {
    if h <= 10 then h + 1 else 11 + CeilLog2(h - 9)
  }

  lemma {:induction false} HeightsFall(h: nat, j: nat, k: nat)
    requires j < k
    ensures EntryHeight(h, k) < EntryHeight(h, j)
  {
    if j < k - 1 {
      HeightsFall(h, j, k - 1);
    }
  }

  /** Exactly the last entry of a locator is at or below the genesis block. */
  lemma {:induction false} LocatorStops(h: nat)
    ensures EntryHeight(h, LocatorSize(h) - 1) <= 0
    ensures LocatorSize(h) > 1 ==> EntryHeight(h, LocatorSize(h) - 2) > 0
  {
    if h > 10 {
      var k := CeilLog2(h - 9);
      assert h - 9 <= Pow2(k) && Pow2(k - 1) < h - 9;
    }
  }

  lemma {:induction false} LocatorStopsAt(h: nat, k: nat)
    requires EntryHeight(h, k) <= 0 && (k > 0 ==> EntryHeight(h, k - 1) > 0)
    ensures k + 1 == LocatorSize(h)
  {
    LocatorStops(h);
    var last := LocatorSize(h) - 1;
    if k < last {
      if k < last - 1 {
        HeightsFall(h, k, last - 1);
      }
    } else if last < k {
      if last < k - 1 {
        HeightsFall(h, last, k - 1);
      }
    }
  }

  /** The entries of a locator go strictly down, from the block to the genesis block. */
  lemma {:induction false} LocatorDescends(h: nat, i: nat, j: nat)
    requires i < j < LocatorSize(h)
    ensures Max(EntryHeight(h, 0), 0) == h && Max(EntryHeight(h, LocatorSize(h) - 1), 0) == 0
    ensures Max(EntryHeight(h, j), 0) < Max(EntryHeight(h, i), 0)
  {
    LocatorStops(h);
    HeightsFall(h, i, j);
    if i < LocatorSize(h) - 2 {
      HeightsFall(h, i, LocatorSize(h) - 2);
    }
  }

  /** A locator has at most 11 entries more than the binary digits of its height. */
  lemma {:induction false} LocatorIsShort(h: nat)
    requires h >= 1
    ensures LocatorSize(h) <= 11 + CeilLog2(h)
  {
    if h > 10 {
      var small, big := CeilLog2(h - 9), CeilLog2(h);
      if small > big {
        Pow2Monotone(big, small - 1);
      }
    }
  }

  /** The step back after k entries. */
  function StepAt(k: nat): nat {
    if k <= 10 then 1 else Pow2(k - 10)
  }

  lemma {:induction false} NextHeight(h: nat, k: nat)
    ensures EntryHeight(h, k + 1) == EntryHeight(h, k) - StepAt(k)
  {
  }

  /** The steps of a locator stay within 32 bits. */
  ghost predicate StepsFit(h: nat) {
    forall k: nat :: EntryHeight(h, k) > 0 ==> StepAt(k + 1) <= 0x7fff_ffff
  }

  /** They do so exactly up to height 2^30 + 9. */
  lemma {:induction false} StepsFitExact(h: nat)
    ensures StepsFit(h) <==> h <= 0x4000_0009
  {
    hide Pow2;
    ThirtyDigits();
    if h <= 0x4000_0009 {
      forall k: nat | EntryHeight(h, k) > 0
        ensures StepAt(k + 1) <= 0x7fff_ffff
      {
        if k > 10 {
          if k >= 40 {
            Pow2Monotone(30, k - 10);
          }
          Pow2Monotone(k - 9, 30);
        } else {
          Pow2Monotone(1, 30);
        }
      }
    } else {
      assert EntryHeight(h, 40) > 0;
      assert StepAt(41) > 0x7fff_ffff;
    }
  }

  lemma {:induction false} ThirtyDigits()
    ensures Pow2(30) == 0x4000_0000 && Pow2(31) == 0x8000_0000
  {
    assert Pow2(10) == 1024;
    Pow2Adds(10, 10);
    Pow2Adds(10, 20);
    assert Pow2(31) == 2 * Pow2(30);
  }

  lemma {:induction false} SkipsBelow(b: CBlockIndex, h: nat)
    requires b.Linked() && b.Skips() && h <= b.nHeight
    ensures |b.Line()| == b.nHeight + 1
    ensures var at := b.Line()[h]; at.Linked() && at.Skips() && at.nHeight == h && at.Line() == b.Line()[..h + 1]
  {
    LinePrefix(b, h);
    var at := b.Line()[h];
    forall x <- at.Line()
      ensures SkipOk(x)
    {
      assert x in b.Line()[..h + 1];
      assert x in b.Line();
    }
  }

  method LocatorEntries(start: CBlockIndex?) returns (have: seq<Hash>)
    requires start != null ==> start.Linked() && start.Skips() && start.nHeight <= 0x4000_0009
    ensures start == null ==> have == []
    ensures start != null ==> |have| == LocatorSize(start.nHeight) && Located(start, have)
  {
    hide CBlockIndex.Linked, CBlockIndex.Built, EntryHeight, StepAt, LocatorSize;
    have := [];
    if start == null {
      return;
    }
    var step := 1;
    var index: CBlockIndex? := start;
    TipOf(start);
    ghost var top, line := start.nHeight, start.Line();
    FirstEntry(top);
    StepsFitExact(top);
    while index != null
      invariant EntryHeight(top, |have|) <= top && start.Skips()
      invariant index == line[Max(EntryHeight(top, |have|), 0)] && step == StepAt(|have|)
      invariant |have| > 0 ==> EntryHeight(top, |have| - 1) > 0
      invariant Located(start, have)
      decreases Max(EntryHeight(top, |have|), 0)
    {
      ghost var k := |have|;
      SkipsBelow(start, Max(EntryHeight(top, k), 0));
      have := have + [index.hash];
      if index.nHeight == 0 {
        LocatorStopsAt(top, k);
        return;
      }
      NextHeight(top, k);
      StepDoubles(k);
      var height := Max(index.nHeight - step, 0);
      ghost var steps;
      index, steps := index.GetAncestor(height);
      if |have| > 10 {
        step := step * 2;
        assert step <= 0x7fff_ffff;
      }
    }
  }

  /** The entries are the hashes at the entry heights. */
  ghost predicate Located(b: CBlockIndex, have: seq<Hash>)
    requires b.Linked()
  {
    forall i :: 0 <= i < |have| ==>
      0 <= Max(EntryHeight(b.nHeight, i), 0) <= b.nHeight && have[i] == b.Line()[Max(EntryHeight(b.nHeight, i), 0)].hash
  }

  lemma {:induction false} FirstEntry(h: nat)
    ensures EntryHeight(h, 0) == h && StepAt(0) == 1
  {
  }

  lemma {:induction false} StepDoubles(k: nat)
    ensures StepAt(k) >= 1 && StepAt(k + 1) == if k + 1 > 10 then 2 * StepAt(k) else StepAt(k)
  {
  }
}
