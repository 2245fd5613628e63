/** Whole runs over a stack of caches, against runs over a stack of plain maps. */
module CoinsRun {
  import opened Wrappers
  import opened Coin
  import opened CoinsView
  import opened CoinsRefinement

  datatype Op =
    | Get(o: OutPoint)
    | Add(o: OutPoint, c: Coin, overwrite: bool)
    | Spend(o: OutPoint)
    | Uncache(o: OutPoint)
    | Flush
    | Sync
    | Push      // construct an empty cache on top
    | Discard   // destroy the top cache without writing it

  /** An operation on the cache `level` steps below the top one. */
  datatype Action = Action(level: nat, op: Op)

  // ----- The plain run ------------------------------------------------------

  /** Can an action be carried out on a stack of n levels? A level names a cache;
      coins change, and caches come and go, at the top only; added coins are unspent. */
  predicate Fits(n: nat, a: Action) {
    match a.op
    case Push => a.level == 0
    case Discard => a.level == 0 && n >= 2
    case Add(_, c, _) => a.level == 0 && n >= 2 && !c.IsSpent()
    case Spend(_) => a.level == 0 && n >= 2
    case _ => a.level < n - 1
  }

  function LevelsAfter(n: nat, a: Action): nat
    requires Fits(n, a)
  {
    match a.op
    case Push => n + 1
    case Discard => n - 1
    case _ => n
  }

  predicate FitsRun(n: nat, run: seq<Action>)
    decreases |run|
  {
    run == [] || (Fits(n, run[0]) && FitsRun(LevelsAfter(n, run[0]), run[1..]))
  }

  /** What callers must respect besides: a coin added without overwrite is new. */
  predicate Allowed(s: seq<Coins>, a: Action)
    requires |s| >= 1
  {
    Fits(|s|, a) && (a.op.Add? && !a.op.overwrite ==> a.op.o !in s[0])
  }

  /** A new cache shows what its base shows, discarding forgets, writing copies
      one level down, reading and uncaching change nothing. */
  function PlainStep(s: seq<Coins>, a: Action): (t: seq<Coins>)
    requires |s| >= 1 && Allowed(s, a)
    ensures |t| == LevelsAfter(|s|, a) >= 1
  {
    match a.op
    case Get(_) => s
    case Uncache(_) => s
    case Add(o, c, _) => if c.IsUnspendable() then s else s[0 := s[0][o := c]]
    case Spend(o) => s[0 := s[0] - {o}]
    case Flush => s[a.level + 1 := s[a.level]]
    case Sync => s[a.level + 1 := s[a.level]]
    case Push => [s[0]] + s
    case Discard => s[1..]
  }

  predicate AllowedRun(s: seq<Coins>, run: seq<Action>)
    requires |s| >= 1
    decreases |run|
  {
    run == [] || (Allowed(s, run[0]) && AllowedRun(PlainStep(s, run[0]), run[1..]))
  }

  function PlainRun(s: seq<Coins>, run: seq<Action>): (t: seq<Coins>)
    requires |s| >= 1 && AllowedRun(s, run)
    ensures |t| >= 1
    decreases |run|
  {
    if run == [] then s else PlainRun(PlainStep(s, run[0]), run[1..])
  }

  // ----- The run on caches --------------------------------------------------

  /** One operation applied to the top of a view. */
  ghost function StepTop(v: View, op: Op): Result<View, Error>
    requires v.Cache? || op.Push?
    requires op.Add? ==> !op.c.IsSpent()
  {
    match op
    case Get(o) => Ok(GetCoin(v, o).0)
    case Uncache(o) => Ok(CoinsView.Uncache(v, o))
    case Add(o, c, overwrite) => AddCoin(v, o, c, overwrite)
    case Spend(o) => Ok(SpendCoin(v, o).0)
    case Flush => CoinsView.Flush(v)
    case Sync => CoinsView.Sync(v)
    case Push => Ok(Cache(map[], 0, v))
    case Discard => Ok(v.base)
  }

  ghost function Step(v: View, a: Action): Result<View, Error>
    requires Fits(|Layers(v)|, a)
    decreases a.level
  {
    if a.level == 0 then StepTop(v, a.op) else
      match Step(v.base, Action(a.level - 1, a.op))
      case Err(e) => Err(e)
      case Ok(base) => Ok(v.(base := base))
  }

  /** One step never throws, keeps the stack coherent, and does to the visible
      coins of every level what the plain step does. */
  lemma {:induction false} StepTopRefines(v: View, op: Op)
    requires Coherent(v) && Allowed(Layers(v), Action(0, op))
    ensures var r := StepTop(v, op);
            r.Ok? && Coherent(r.value) && Layers(r.value) == PlainStep(Layers(v), Action(0, op))
  {
    match op
    case Get(o) => GetCoinRefines(v, o);
    case Uncache(o) => UncacheRefines(v, o);
    case Add(o, c, overwrite) => AddCoinRefines(v, o, c, overwrite);
    case Spend(o) => SpendCoinRefines(v, o);
    case Flush => FlushRefines(v);
    case Sync => SyncRefines(v);
    case Push => assert Visible(Cache(map[], 0, v)) == Visible(v);
    case Discard =>
  }

  lemma {:induction false} PlainBelow(s: seq<Coins>, a: Action)
    requires |s| >= 2 && Allowed(s, a) && a.level > 0
    ensures var b := Action(a.level - 1, a.op);
            && Allowed(s[1..], b) && PlainStep(s, a) == [s[0]] + PlainStep(s[1..], b)
            && PlainStep(s[1..], b)[0] == s[1]
  {
  }

  lemma {:induction false} CoherentBase(v: View)
    requires Coherent(v) && v.Cache?
    ensures Coherent(v.base)
  {
  }

  /** A cache may get another base that shows the same coins. */
  lemma {:induction false} Rebased(v: View, base: View)
    requires v.Cache? && Coherent(v) && Coherent(base) && Visible(base) == Visible(v.base)
    ensures var w := v.(base := base); Coherent(w) && Layers(w) == [Visible(v)] + Layers(base)
  {
  }

  lemma {:induction false} StepRefines(v: View, a: Action)
    requires Coherent(v) && Allowed(Layers(v), a)
    ensures var r := Step(v, a);
            r.Ok? && Coherent(r.value) && Layers(r.value) == PlainStep(Layers(v), a)
    decreases a.level
  {
    hide StepTop, Coherent, Visible, PlainStep, Overlay;
    if a.level == 0 {
      StepTopRefines(v, a.op);
    } else {
      var b := Action(a.level - 1, a.op);
      assert Layers(v)[1..] == Layers(v.base);
      PlainBelow(Layers(v), a);
      CoherentBase(v);
      StepRefines(v.base, b);
      Rebased(v, Step(v.base, b).value);
    }
  }

  lemma {:induction false} GetLevels(v: View, o: OutPoint)
    ensures GetCoin(v, o).0.Cache? == v.Cache? && |Layers(GetCoin(v, o).0)| == |Layers(v)|
  {
    if v.Cache? && o !in v.entries {
      GetLevels(v.base, o);
    }
  }

  lemma {:induction false} TopLevels(v: View, op: Op)
    requires Fits(|Layers(v)|, Action(0, op))
    ensures StepTop(v, op).Ok? ==> |Layers(StepTop(v, op).value)| == LevelsAfter(|Layers(v)|, Action(0, op))
  {
    hide Overlay;
    match op
    case Get(o) => GetLevels(v, o);
    case Spend(o) => GetLevels(v, o);
    case _ =>
  }

  lemma {:induction false} StepLevels(v: View, a: Action)
    requires Fits(|Layers(v)|, a)
    ensures Step(v, a).Ok? ==> |Layers(Step(v, a).value)| == LevelsAfter(|Layers(v)|, a)
    decreases a.level
  {
    hide StepTop;
    if a.level == 0 {
      TopLevels(v, a.op);
    } else {
      StepLevels(v.base, Action(a.level - 1, a.op));
    }
  }

  /** A run ends with the first step that throws. */
  ghost function Run(v: View, run: seq<Action>): Result<View, Error>
    requires FitsRun(|Layers(v)|, run)
    decreases |run|
  {
    if run == [] then Ok(v) else
      match Step(v, run[0])
      case Err(e) => Err(e)
      case Ok(w) => StepLevels(v, run[0]); Run(w, run[1..])
  }

  lemma {:induction false} AllowedFits(s: seq<Coins>, run: seq<Action>)
    requires |s| >= 1 && AllowedRun(s, run)
    ensures FitsRun(|s|, run)
    decreases |run|
  {
    if run != [] {
      AllowedFits(PlainStep(s, run[0]), run[1..]);
    }
  }

  /** The main theorem: over every allowed run no step throws, the flags stay
      coherent, and every level shows what the plain run computes. */
  lemma {:induction false} RunRefines(v: View, run: seq<Action>)
    requires Coherent(v) && AllowedRun(Layers(v), run)
    ensures FitsRun(|Layers(v)|, run)
    ensures var r := Run(v, run);
            r.Ok? && Coherent(r.value) && Layers(r.value) == PlainRun(Layers(v), run)
    decreases |run|
  {
    hide Step, Coherent, PlainStep;
    AllowedFits(Layers(v), run);
    if run != [] {
      StepRefines(v, run[0]);
      RunRefines(Step(v, run[0]).value, run[1..]);
    }
  }

  // ----- What the caller's contract is worth --------------------------------

  /** An unwritten cache can be thrown away: whatever was read, added, spent and
      uncached since it was pushed, every level then shows what it showed before, and
      the flags are coherent. */
  lemma {:induction false} DiscardRollsBack(v: View, run: seq<Action>)
    requires Coherent(v) && AllowedRun([Visible(v)] + Layers(v), run)
    requires forall a <- run :: a.op.Get? || a.op.Add? || a.op.Spend? || a.op.Uncache?
    ensures var all := [Action(0, Push)] + run + [Action(0, Discard)];
            && FitsRun(|Layers(v)|, all)
            && var r := Run(v, all);
            r.Ok? && Coherent(r.value) && Layers(r.value) == Layers(v)
  {
    hide Step, Coherent, Visible, Layers;
    var s := Layers(v);
    var pushed := [s[0]] + s;
    var tail := run + [Action(0, Discard)];
    var all := [Action(0, Push)] + run + [Action(0, Discard)];
    TopOnly(pushed, run);
    PlainAppend(pushed, run, Action(0, Discard));
    assert all[0] == Action(0, Push) && all[1..] == tail;
    assert PlainStep(s, all[0]) == pushed;
    RunRefines(v, all);
  }

  lemma {:induction false} PlainAppend(s: seq<Coins>, run: seq<Action>, a: Action)
    requires |s| >= 1 && AllowedRun(s, run) && Allowed(PlainRun(s, run), a)
    ensures AllowedRun(s, run + [a]) && PlainRun(s, run + [a]) == PlainStep(PlainRun(s, run), a)
    decreases |run|
  {
    hide PlainStep;
    if run == [] {
      assert run + [a] == [a] && [a][1..] == [];
    } else {
      assert (run + [a])[0] == run[0] && (run + [a])[1..] == run[1..] + [a];
      PlainAppend(PlainStep(s, run[0]), run[1..], a);
    }
  }

  lemma {:induction false} TopOnly(s: seq<Coins>, run: seq<Action>)
    requires |s| >= 1 && AllowedRun(s, run)
    requires forall a <- run :: a.op.Get? || a.op.Add? || a.op.Spend? || a.op.Uncache?
    ensures var t := PlainRun(s, run); |t| == |s| && t[1..] == s[1..]
    decreases |run|
  {
    if run != [] {
      TopOnly(PlainStep(s, run[0]), run[1..]);
    }
  }

  /** Adding without overwrite is sound exactly when the coin is not visible: if
      it is, the call throws or leaves a FRESH flag that lies about the base. */
  lemma {:induction false} AddCoinExact(v: View, o: OutPoint, c: Coin, overwrite: bool)
    requires v.Cache? && Coherent(v) && !c.IsSpent() && !c.IsUnspendable()
    ensures var r := AddCoin(v, o, c, overwrite);
            (r.Ok? && Coherent(r.value)) <==> (overwrite || o !in Visible(v))
  {
    var r := AddCoin(v, o, c, overwrite);
    if overwrite || o !in Visible(v) {
      AddCoinRefines(v, o, c, overwrite);
    } else if o !in v.entries {
      assert o in Visible(r.value.base) && r.value.entries[o].isFresh;
      assert !EntryCoherent(Visible(r.value.base), o, r.value.entries[o]);
    } else {
      assert r.Err?;
    }
  }

  /** SpendCoin also answers true for an outpoint this cache holds as spent,
      where nothing was visible. */
  lemma {:induction false} SpendCoinAnswer(v: View, o: OutPoint)
    requires v.Cache? && Coherent(v)
    ensures SpendCoin(v, o).1.Some? <==> (o in Visible(v) || o in v.entries)
  {
    FetchCoinRefines(v, o);
    GetCoinRefines(v.base, o);
  }

  /** For instance a coin of the base that is spent twice: both calls answer true,
      and before the second nothing is visible. */
  lemma {:induction false} SpendTwice(o: OutPoint, c: Coin)
    requires !c.IsSpent()
    ensures var v := Cache(map[], 0, Database(map[o := c]));
            && Coherent(v) && SpendCoin(v, o).1 == Some(c)
            && var w := SpendCoin(v, o).0;
            w.Cache? && Coherent(w) && o !in Visible(w) && SpendCoin(w, o).1 == Some(EMPTY_COIN)
  {
    var v := Cache(map[], 0, Database(map[o := c]));
    assert Overlay(map[o := c], map[]) == map[o := c];
    SpendCoinRefines(v, o);
    var w := SpendCoin(v, o).0;
    assert w.entries[o] == Entry(EMPTY_COIN, true, false);
  }

  // ----- The flag state that never occurs -----------------------------------

  /** No level holds a spent FRESH entry: of the five documented flag states one
      is never produced. */
  predicate NoSpentFresh(v: View) {
    v.Cache? ==> NoSpentFresh(v.base) && forall o <- v.entries :: !(v.entries[o].coin.IsSpent() && v.entries[o].isFresh)
  }

  lemma {:induction false} GetKeepsNoSpentFresh(v: View, o: OutPoint)
    requires Coherent(v) && NoSpentFresh(v)
    ensures NoSpentFresh(GetCoin(v, o).0)
  {
    if v.Cache? && o !in v.entries {
      GetKeepsNoSpentFresh(v.base, o);
      GetCoinRefines(v.base, o);
      VisibleUnspent(v.base);
    }
  }

  lemma {:induction false} BatchWriteKeepsNoSpentFresh(v: View, child: Entries)
    requires Coherent(v) && NoSpentFresh(v) && BatchWrite(v, child).Ok?
    requires forall o <- child :: !(child[o].coin.IsSpent() && child[o].isFresh)
    ensures NoSpentFresh(BatchWrite(v, child).value)
  {
    if v.Cache? {
      var m := MergeEntries(v.entries, child);
      forall o <- m
        ensures !(m[o].coin.IsSpent() && m[o].isFresh)
      {
        assert Lookup(m, o) ==
               if o in child then MergeEntry(Lookup(v.entries, o), child[o]) else Lookup(v.entries, o);
      }
    }
  }

  lemma {:induction false} StepKeepsNoSpentFresh(v: View, a: Action)
    requires Coherent(v) && NoSpentFresh(v) && Allowed(Layers(v), a)
    ensures Step(v, a).Ok? && NoSpentFresh(Step(v, a).value)
    decreases a.level
  {
    hide StepTop, Coherent, Visible, PlainStep, Overlay;
    if a.level == 0 {
      TopKeepsNoSpentFresh(v, a.op);
    } else {
      assert Layers(v)[1..] == Layers(v.base);
      PlainBelow(Layers(v), a);
      CoherentBase(v);
      StepKeepsNoSpentFresh(v.base, Action(a.level - 1, a.op));
    }
  }

  lemma {:induction false} TopKeepsNoSpentFresh(v: View, op: Op)
    requires Coherent(v) && NoSpentFresh(v) && Allowed(Layers(v), Action(0, op))
    ensures StepTop(v, op).Ok? && NoSpentFresh(StepTop(v, op).value)
  {
    hide Coherent, PlainStep;
    StepTopRefines(v, op);
    match op
    case Get(o) => GetKeepsNoSpentFresh(v, o);
    case Spend(o) => GetKeepsNoSpentFresh(v, o);
    case Flush =>
      CoherentBase(v);
      BatchWriteKeepsNoSpentFresh(v.base, v.entries);
    case Sync =>
      CoherentBase(v);
      BatchWriteKeepsNoSpentFresh(v.base, v.entries);
    case _ =>
  }

  lemma {:induction false} RunKeepsNoSpentFresh(v: View, run: seq<Action>)
    requires Coherent(v) && NoSpentFresh(v) && AllowedRun(Layers(v), run)
    ensures FitsRun(|Layers(v)|, run)
    ensures Run(v, run).Ok? && NoSpentFresh(Run(v, run).value)
    decreases |run|
  {
    hide Step, Coherent, PlainStep;
    AllowedFits(Layers(v), run);
    if run != [] {
      StepRefines(v, run[0]);
      StepKeepsNoSpentFresh(v, run[0]);
      RunKeepsNoSpentFresh(Step(v, run[0]).value, run[1..]);
    }
  }
}
