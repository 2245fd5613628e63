/** What every interleaving of the check queue keeps: no check is lost or run twice,
    the result is the conjunction of all outcomes, and the master is never left
    waiting for nothing. */
module CheckQueueRun {
  import opened Wrappers
  import opened CheckQueue

  // ----- Sums over the threads ------------------------------------------------------

  function Load(t: Thread): nat {
    if t.Working? then |t.batch| else 0
  }

  function Idle(t: Thread): nat {
    if t.Waiting? then 1 else 0
  }

  function Inside(t: Thread): nat {
    if t.Outside? then 0 else 1
  }

  function Sum(threads: seq<Thread>, f: Thread -> nat): nat {
    if threads == [] then 0 else Sum(threads[..|threads| - 1], f) + f(threads[|threads| - 1])
  }

  lemma {:induction false} SumUpdate(threads: seq<Thread>, f: Thread -> nat, i: nat, t: Thread)
    requires i < |threads|
    ensures Sum(threads[i := t], f) + f(threads[i]) == Sum(threads, f) + f(t)
  {
    var n := |threads| - 1;
    if i == n {
      assert threads[i := t][..n] == threads[..n];
    } else {
      assert threads[i := t][..n] == threads[..n][i := t];
      SumUpdate(threads[..n], f, i, t);
    }
  }

  lemma {:induction false} SumAtLeast(threads: seq<Thread>, f: Thread -> nat, i: nat)
    requires i < |threads|
    ensures f(threads[i]) <= Sum(threads, f)
  {
    if i != |threads| - 1 {
      SumAtLeast(threads[..|threads| - 1], f, i);
    }
  }

  lemma {:induction false} SumPositive(threads: seq<Thread>, f: Thread -> nat) returns (i: nat)
    requires Sum(threads, f) > 0
    ensures i < |threads| && f(threads[i]) > 0
  {
    var n := |threads| - 1;
    if f(threads[n]) > 0 {
      i := n;
    } else {
      i := SumPositive(threads[..n], f);
    }
  }

  lemma {:induction false} SumZero(n: nat, f: Thread -> nat)
    requires f(Outside) == 0
    ensures Sum(seq(n, _ => Outside), f) == 0
  {
    if n > 0 {
      assert seq(n, _ => Outside)[..n - 1] == seq(n - 1, _ => Outside);
      SumZero(n - 1, f);
    }
  }

  function Batch(t: Thread): multiset<Check> {
    if t.Working? then multiset(t.batch) else multiset{}
  }

  /** The checks that threads have taken and not completed. */
  function Held(threads: seq<Thread>): multiset<Check> {
    if threads == [] then multiset{} else Held(threads[..|threads| - 1]) + Batch(threads[|threads| - 1])
  }

  type Bag = multiset<Check>

  lemma {:induction false} BagSwap(a: Bag, b: Bag, x: Bag, y: Bag, z: Bag)
    requires a + x == b + y
    ensures (a + z) + x == (b + z) + y
  {
    assert (a + z) + x == (a + x) + z;
    assert (b + z) + y == (b + y) + z;
  }

  lemma {:induction false} BagExchange(a: Bag, x: Bag, y: Bag)
    ensures (a + y) + x == (a + x) + y
  {
  }

  /** A bag moves from the queue to a thread. */
  lemma {:induction false} BagTaken(queue: Bag, batch: Bag, held: Bag, held': Bag, completed: Bag)
    requires held' + multiset{} == held + batch
    ensures (queue + batch) + held + completed == queue + held' + completed
  {
    assert held' == held + batch;
    assert (queue + batch) + held == queue + (held + batch);
  }

  /** A bag moves from a thread to the completed ones. */
  lemma {:induction false} BagDone(queue: Bag, batch: Bag, held: Bag, held': Bag, completed: Bag)
    requires held' + batch == held + multiset{}
    ensures queue + held + completed == queue + held' + (completed + batch)
  {
    assert held == held' + batch;
    assert queue + (held' + batch) + completed == queue + held' + (completed + batch);
  }

  lemma {:induction false} HeldLast(threads: seq<Thread>)
    requires threads != []
    ensures Held(threads) == Held(threads[..|threads| - 1]) + Batch(threads[|threads| - 1])
  {
  }

  lemma {:induction false} HeldUpdate(threads: seq<Thread>, i: nat, t: Thread)
    requires i < |threads|
    ensures Held(threads[i := t]) + Batch(threads[i]) == Held(threads) + Batch(t)
  {
    hide Held, Batch;
    var n := |threads| - 1;
    HeldLast(threads);
    HeldLast(threads[i := t]);
    if i == n {
      assert threads[i := t][..n] == threads[..n];
      BagExchange(Held(threads[..n]), Batch(threads[n]), Batch(t));
    } else {
      assert threads[i := t][..n] == threads[..n][i := t];
      HeldUpdate(threads[..n], i, t);
      BagSwap(Held(threads[..n][i := t]), Held(threads[..n]), Batch(threads[i]), Batch(t), Batch(threads[n]));
    }
  }

  lemma {:induction false} HeldNone(threads: seq<Thread>)
    requires forall i :: 0 <= i < |threads| ==> !threads[i].Working?
    ensures Held(threads) == multiset{}
  {
    if threads != [] {
      HeldNone(threads[..|threads| - 1]);
    }
  }

  /** The checks of all batches taken. */
  function Taken(batches: seq<seq<Check>>): multiset<Check> {
    if batches == [] then multiset{} else Taken(batches[..|batches| - 1]) + multiset(batches[|batches| - 1])
  }

  lemma {:induction false} TakenMore(batches: seq<seq<Check>>, batch: seq<Check>)
    ensures Taken(batches + [batch]) == Taken(batches) + multiset(batch)
  {
    assert (batches + [batch])[..|batches|] == batches;
  }

  // ----- The invariant ----------------------------------------------------------------

  predicate AllGood(cfg: Config, checks: multiset<Check>) {
    forall c <- checks :: cfg.outcome(c)
  }

  lemma {:induction false} AllGoodSum(cfg: Config, a: multiset<Check>, b: multiset<Check>)
    ensures AllGood(cfg, a + b) <==> AllGood(cfg, a) && AllGood(cfg, b)
  {
    if AllGood(cfg, a + b) {
      assert forall c <- a :: c in a + b;
      assert forall c <- b :: c in a + b;
    }
  }

  /** What a working thread knows: its verdict so far is right, unless an earlier
      check had failed already. */
  predicate ThreadOk(cfg: Config, completed: multiset<Check>, t: Thread) {
    t.Working? ==>
      && t.batch != [] && t.done <= |t.batch|
      && (t.ok ==> AllGood(cfg, multiset(t.batch[..t.done])))
      && (!t.ok ==> !AllGood(cfg, completed) || !AllGood(cfg, multiset(t.batch[..t.done])))
  }

  /** The counters count: the checks that are queued or taken, the sleeping threads
      and the threads in the loop, of which `extra` are in a critical section. */
  predicate CountsExact(shared: Shared, threads: seq<Thread>, extra: nat) {
    && shared.nTodo == |shared.queue| + Sum(threads, Load)
    && shared.nIdle == Sum(threads, Idle)
    && shared.nTotal == Sum(threads, Inside) + extra
  }

  predicate Conserved(shared: Shared, s: State) {
    && s.added == multiset(shared.queue) + Held(s.threads) + s.completed
    && s.added == multiset(shared.queue) + Taken(s.batches)
  }

  predicate VerdictOk(cfg: Config, shared: Shared, s: State) {
    && (shared.allOk <==> AllGood(cfg, s.completed))
    && forall i :: 0 <= i < |s.threads| ==> ThreadOk(cfg, s.completed, s.threads[i])
  }

  /** A master that sleeps without a pending notification has checks to wait for. */
  predicate MasterOk(shared: Shared, threads: seq<Thread>) {
    && |threads| > 0
    && (threads[0].Waiting? ==> shared.queue == [] && (!threads[0].notified ==> shared.nTodo > 0))
  }

  predicate Inv(cfg: Config, s: State) {
    && CountsExact(s.shared, s.threads, 0) && Conserved(s.shared, s) && VerdictOk(cfg, s.shared, s)
    && MasterOk(s.shared, s.threads)
  }

  /** The state within a critical section of thread t, which holds nothing then. */
  predicate MidInv(cfg: Config, s: State, t: nat, shared: Shared) {
    && t < |s.threads| && s.threads[t] == Outside
    && CountsExact(shared, s.threads, 1) && Conserved(shared, s) && VerdictOk(cfg, shared, s)
    && MasterOk(shared, s.threads)
  }

  lemma {:induction false} InitialInv(cfg: Config, workers: nat)
    ensures Inv(cfg, Initial(workers))
  {
    var s := Initial(workers);
    SumZero(workers + 1, Load);
    SumZero(workers + 1, Idle);
    SumZero(workers + 1, Inside);
    HeldNone(s.threads);
  }

  lemma {:induction false} CountersFromInv(cfg: Config, s: State)
    requires Inv(cfg, s)
    ensures CountersOk(s)
  {
    forall i | 0 <= i < |s.threads| && s.threads[i].Waiting?
      ensures s.shared.nIdle >= 1
    {
      SumAtLeast(s.threads, Idle, i);
    }
  }

  // ----- The end of a critical section --------------------------------------------------

  /** With nothing left to do, no thread is working. */
  lemma {:induction false} NobodyWorks(cfg: Config, s: State, t: nat, shared: Shared)
    requires MidInv(cfg, s, t, shared) && shared.nTodo == 0
    ensures shared.queue == [] && forall i :: 0 <= i < |s.threads| ==> !s.threads[i].Working?
  {
    forall i | 0 <= i < |s.threads|
      ensures !s.threads[i].Working?
    {
      SumAtLeast(s.threads, Load, i);
      assert ThreadOk(cfg, s.completed, s.threads[i]);
    }
  }

  /** The result of a wait: all checks added were completed, each was taken by one
      batch, and the result says whether all of them succeeded. */
  predicate WaitResult(cfg: Config, s: State, result: bool) {
    s.completed == s.added && Taken(s.batches) == s.added && result == AllGood(cfg, s.added)
  }

  lemma {:induction false} ReturnKeeps(cfg: Config, s: State, t: nat, shared: Shared)
    requires MidInv(cfg, s, t, shared) && t == 0 && shared.nTodo == 0
    ensures WaitResult(cfg, s, shared.allOk)
    ensures var after := State(shared.(nTotal := shared.nTotal - 1, allOk := true), s.threads, multiset{}, multiset{}, []);
            Inv(cfg, after)
  {
    NobodyWorks(cfg, s, t, shared);
    HeldNone(s.threads);
  }

  lemma {:induction false} SleepKeeps(cfg: Config, s: State, t: nat, shared: Shared)
    requires MidInv(cfg, s, t, shared) && shared.queue == [] && (t == 0 ==> shared.nTodo != 0)
    ensures Inv(cfg, s.(shared := shared.(nIdle := shared.nIdle + 1), threads := s.threads[t := Waiting(false)]))
  {
    var asleep := Waiting(false);
    SumUpdate(s.threads, Load, t, asleep);
    SumUpdate(s.threads, Idle, t, asleep);
    SumUpdate(s.threads, Inside, t, asleep);
    HeldUpdate(s.threads, t, asleep);
    BagSame(Held(s.threads[t := asleep]), Held(s.threads));
  }

  lemma {:induction false} BagSame(a: Bag, b: Bag)
    requires a + multiset{} == b + multiset{}
    ensures a == b
  {
    assert a + multiset{} == a && b + multiset{} == b;
  }

  lemma {:induction false} TakeConserves(shared: Shared, s: State, t: nat, rest: nat, ok: bool)
    requires Conserved(shared, s) && rest < |shared.queue| && t < |s.threads| && s.threads[t] == Outside
    ensures var batch := shared.queue[rest..];
            var after := shared.(queue := shared.queue[..rest]);
            Conserved(after, s.(shared := after, threads := s.threads[t := Working(batch, 0, ok)], batches := s.batches + [batch]))
  {
    var batch := shared.queue[rest..];
    var threads := s.threads[t := Working(batch, 0, ok)];
    assert shared.queue == shared.queue[..rest] + batch;
    HeldUpdate(s.threads, t, Working(batch, 0, ok));
    BagTaken(multiset(shared.queue[..rest]), multiset(batch), Held(s.threads), Held(threads), s.completed);
    TakenMore(s.batches, batch);
    BagAssociates(multiset(shared.queue[..rest]), multiset(batch), Taken(s.batches));
  }

  lemma {:induction false} BagAssociates(a: Bag, b: Bag, c: Bag)
    ensures (a + b) + c == a + (c + b)
  {
  }

  lemma {:induction false} TakeKeeps(cfg: Config, s: State, t: nat, shared: Shared, rest: nat)
    requires MidInv(cfg, s, t, shared) && rest < |shared.queue|
    ensures var batch := shared.queue[rest..];
            var working := Working(batch, 0, shared.allOk);
            Inv(cfg, s.(shared := shared.(queue := shared.queue[..rest]), threads := s.threads[t := working],
                        batches := s.batches + [batch]))
  {
    hide Conserved;
    var batch := shared.queue[rest..];
    var working := Working(batch, 0, shared.allOk);
    assert shared.queue == shared.queue[..rest] + batch;
    SumUpdate(s.threads, Load, t, working);
    SumUpdate(s.threads, Idle, t, working);
    SumUpdate(s.threads, Inside, t, working);
    TakeConserves(shared, s, t, rest, shared.allOk);
    assert ThreadOk(cfg, s.completed, working);
  }

  lemma {:induction false} SectionKeeps(cfg: Config, s: State, t: nat, shared: Shared)
    requires MidInv(cfg, s, t, shared)
    ensures var (after, result) := Section(cfg, s, t, shared);
            Inv(cfg, after) && (result.Some? ==> t == 0 && WaitResult(cfg, s, result.value))
  {
    hide Inv, MidInv, BatchSize, WaitResult;
    MidCounters(cfg, s, t, shared);
    if shared.queue == [] {
      if t == 0 && shared.nTodo == 0 {
        ReturnKeeps(cfg, s, t, shared);
        assert s.threads[t := Outside] == s.threads;
      } else {
        SleepKeeps(cfg, s, t, shared);
      }
    } else {
      BatchFits(cfg, shared);
      TakeKeeps(cfg, s, t, shared, |shared.queue| - BatchSize(cfg, shared));
    }
  }

  lemma {:induction false} MidCounters(cfg: Config, s: State, t: nat, shared: Shared)
    requires MidInv(cfg, s, t, shared)
    ensures t < |s.threads| && s.threads[t] == Outside && shared.nTotal + shared.nIdle >= 0
  {
  }

  // ----- Steps and runs -------------------------------------------------------------------

  lemma {:induction false} AddKeeps(cfg: Config, s: State, checks: seq<Check>)
    requires Inv(cfg, s) && Enabled(s, AddStep(checks))
    ensures Inv(cfg, s.(shared := Add(s.shared, checks), added := s.added + multiset(checks)))
  {
    AddConserves(s, checks);
  }

  lemma {:induction false} AddConserves(s: State, checks: seq<Check>)
    requires Conserved(s.shared, s)
    ensures Conserved(Add(s.shared, checks), s.(shared := Add(s.shared, checks), added := s.added + multiset(checks)))
  {
    assert multiset(s.shared.queue + checks) == multiset(s.shared.queue) + multiset(checks);
    BagAdded(multiset(s.shared.queue), multiset(checks), Held(s.threads), s.completed);
    BagSum(multiset(s.shared.queue), multiset(checks), Taken(s.batches));
  }

  lemma {:induction false} BagAdded(queue: Bag, more: Bag, held: Bag, completed: Bag)
    ensures (queue + held + completed) + more == (queue + more) + held + completed
  {
  }

  lemma {:induction false} BagSum(queue: Bag, more: Bag, taken: Bag)
    ensures (queue + taken) + more == (queue + more) + taken
  {
  }

  /** The thread goes into its critical section: it holds nothing there. */
  function Within(s: State, t: nat): State
    requires t < |s.threads|
  {
    s.(threads := s.threads[t := Outside])
  }

  lemma {:induction false} EnterMid(cfg: Config, s: State, t: nat)
    requires Inv(cfg, s) && Enabled(s, Enter(t))
    ensures MidInv(cfg, Within(s, t), t, s.shared.(nTotal := s.shared.nTotal + 1))
  {
    assert s.threads[t := Outside] == s.threads;
  }

  lemma {:induction false} WakeMid(cfg: Config, s: State, t: nat)
    requires Inv(cfg, s) && Enabled(s, Wake(t))
    ensures MidInv(cfg, Within(s, t), t, s.shared.(nIdle := s.shared.nIdle - 1))
  {
    SumUpdate(s.threads, Load, t, Outside);
    SumUpdate(s.threads, Idle, t, Outside);
    SumUpdate(s.threads, Inside, t, Outside);
    HeldUpdate(s.threads, t, Outside);
    BagSame(Held(s.threads[t := Outside]), Held(s.threads));
  }

  lemma {:induction false} NotifySums(threads: seq<Thread>)
    requires |threads| > 0
    ensures Sum(Notify(threads), Load) == Sum(threads, Load) && Sum(Notify(threads), Idle) == Sum(threads, Idle)
    ensures Sum(Notify(threads), Inside) == Sum(threads, Inside) && Held(Notify(threads)) == Held(threads)
  {
    if threads[0].Waiting? {
      SumUpdate(threads, Load, 0, Waiting(true));
      SumUpdate(threads, Idle, 0, Waiting(true));
      SumUpdate(threads, Inside, 0, Waiting(true));
      HeldUpdate(threads, 0, Waiting(true));
      BagSame(Held(threads[0 := Waiting(true)]), Held(threads));
    }
  }

  /** The state in which a thread that has finished its batch cleans up. */
  function Cleaned(s: State, t: nat): State
    requires t < |s.threads| && s.threads[t].Working?
  {
    var w := s.threads[t];
    var shared := Settle(s.shared, |w.batch|, w.ok);
    s.(threads := if shared.nTodo == 0 && t != 0 then Notify(s.threads) else s.threads,
       completed := s.completed + multiset(w.batch))
  }

  lemma {:induction false} FinishVerdict(cfg: Config, s: State, t: nat)
    requires Inv(cfg, s) && Enabled(s, Finish(t))
    ensures var w := s.threads[t]; VerdictOk(cfg, Settle(s.shared, |w.batch|, w.ok), Within(Cleaned(s, t), t))
  {
    var w := s.threads[t];
    assert ThreadOk(cfg, s.completed, w);
    assert w.batch[..w.done] == w.batch;
    AllGoodSum(cfg, s.completed, multiset(w.batch));
    var m := Within(Cleaned(s, t), t);
    forall i | 0 <= i < |m.threads|
      ensures ThreadOk(cfg, m.completed, m.threads[i])
    {
      assert ThreadOk(cfg, s.completed, s.threads[i]);
    }
  }

  lemma {:induction false} FinishConserves(cfg: Config, s: State, t: nat)
    requires Inv(cfg, s) && Enabled(s, Finish(t))
    ensures var w := s.threads[t]; Conserved(Settle(s.shared, |w.batch|, w.ok), Within(Cleaned(s, t), t))
  {
    var w := s.threads[t];
    var threads := Cleaned(s, t).threads;
    NotifySums(s.threads);
    HeldUpdate(threads, t, Outside);
    BagDone(multiset(s.shared.queue), multiset(w.batch), Held(threads), Held(threads[t := Outside]), s.completed);
  }

  lemma {:induction false} FinishMid(cfg: Config, s: State, t: nat)
    requires Inv(cfg, s) && Enabled(s, Finish(t))
    ensures var w := s.threads[t]; MidInv(cfg, Within(Cleaned(s, t), t), t, Settle(s.shared, |w.batch|, w.ok))
    ensures s.shared.nTodo >= |s.threads[t].batch|
  {
    hide Conserved, VerdictOk, CountsExact, MasterOk;
    FinishVerdict(cfg, s, t);
    FinishConserves(cfg, s, t);
    FinishCounts(s, t);
    FinishMaster(s, t);
  }

  lemma {:induction false} FinishCounts(s: State, t: nat)
    requires CountsExact(s.shared, s.threads, 0) && t < |s.threads| && s.threads[t].Working?
    ensures var w := s.threads[t];
            CountsExact(Settle(s.shared, |w.batch|, w.ok), Within(Cleaned(s, t), t).threads, 1)
    ensures s.shared.nTodo >= |s.threads[t].batch|
  {
    hide Sum, Held, Notify;
    NotifySums(s.threads);
    NotifyOne(s.threads, t);
    SumAtLeast(s.threads, Load, t);
    var threads := Cleaned(s, t).threads;
    assert threads[t] == s.threads[t];
    SumUpdate(threads, Load, t, Outside);
    SumUpdate(threads, Idle, t, Outside);
    SumUpdate(threads, Inside, t, Outside);
  }

  lemma {:induction false} NotifyOne(threads: seq<Thread>, t: nat)
    requires t < |threads| && threads[t].Working?
    ensures |Notify(threads)| == |threads| && Notify(threads)[t] == threads[t]
  {
  }

  lemma {:induction false} FinishMaster(s: State, t: nat)
    requires MasterOk(s.shared, s.threads) && t < |s.threads| && s.threads[t].Working?
    requires s.shared.nTodo >= |s.threads[t].batch|
    ensures var w := s.threads[t];
            MasterOk(Settle(s.shared, |w.batch|, w.ok), Within(Cleaned(s, t), t).threads)
  {
  }

  function Executed(cfg: Config, w: Thread): Thread
    requires w.Working? && w.done < |w.batch|
  {
    Working(w.batch, w.done + 1, if w.ok then cfg.outcome(w.batch[w.done]) else false)
  }

  lemma {:induction false} ExecutedOk(cfg: Config, completed: Bag, w: Thread)
    requires w.Working? && w.done < |w.batch| && ThreadOk(cfg, completed, w)
    ensures ThreadOk(cfg, completed, Executed(cfg, w))
  {
    var past, check := w.batch[..w.done], w.batch[w.done];
    assert w.batch[..w.done + 1] == past + [check];
    AllGoodSum(cfg, multiset(past), multiset([check]));
    assert AllGood(cfg, multiset([check])) <==> cfg.outcome(check) by {
      assert check in multiset([check]);
    }
  }

  lemma {:induction false} ExecuteConserves(cfg: Config, s: State, t: nat)
    requires Conserved(s.shared, s) && Enabled(s, Execute(t))
    ensures var after := s.(threads := s.threads[t := Executed(cfg, s.threads[t])]); Conserved(s.shared, after)
  {
    var next := Executed(cfg, s.threads[t]);
    HeldUpdate(s.threads, t, next);
    BagCancel(Held(s.threads[t := next]), Held(s.threads), multiset(next.batch));
  }

  lemma {:induction false} ExecuteKeeps(cfg: Config, s: State, t: nat)
    requires Inv(cfg, s) && Enabled(s, Execute(t))
    ensures Inv(cfg, s.(threads := s.threads[t := Executed(cfg, s.threads[t])]))
  {
    hide Conserved, ThreadOk, AllGood;
    var next := Executed(cfg, s.threads[t]);
    SumUpdate(s.threads, Load, t, next);
    SumUpdate(s.threads, Idle, t, next);
    SumUpdate(s.threads, Inside, t, next);
    ExecuteConserves(cfg, s, t);
    ExecutedOk(cfg, s.completed, s.threads[t]);
  }

  lemma {:induction false} BagCancel(a: Bag, b: Bag, x: Bag)
    requires a + x == b + x
    ensures a == b
  {
    forall c
      ensures a[c] == b[c]
    {
      assert (a + x)[c] == (b + x)[c];
    }
  }

  /** Only the master's critical sections return, from a state in which all is done. */
  ghost predicate Returns(cfg: Config, s: State, step: Step, result: bool) {
    match step
    case Enter(t) => t == 0 && WaitResult(cfg, s, result)
    case Wake(t) => t == 0 && WaitResult(cfg, s, result)
    case Finish(t) => t == 0 && t < |s.threads| && s.threads[t].Working? && WaitResult(cfg, Cleaned(s, t), result)
    case _ => false
  }

  /** Every step keeps the invariant, and every return is right. */
  lemma {:induction false} StepKeeps(cfg: Config, s: State, step: Step)
    requires Inv(cfg, s) && Enabled(s, step)
    ensures CountersOk(s)
    ensures var (after, result) := Apply(cfg, s, step);
            Inv(cfg, after) && (result.Some? ==> Returns(cfg, s, step, result.value))
  {
    hide Inv, MidInv, Decide;
    CountersFromInv(cfg, s);
    match step
    case AddStep(checks) => AddKeeps(cfg, s, checks);
    case Enter(t) =>
      EnterMid(cfg, s, t);
      SectionWithin(cfg, s, t, s.shared.(nTotal := s.shared.nTotal + 1));
    case Wake(t) =>
      WakeMid(cfg, s, t);
      SectionWithin(cfg, s, t, s.shared.(nIdle := s.shared.nIdle - 1));
    case Execute(t) => ExecuteKeeps(cfg, s, t);
    case Finish(t) =>
      var w := s.threads[t];
      FinishMid(cfg, s, t);
      SectionWithin(cfg, Cleaned(s, t), t, Settle(s.shared, |w.batch|, w.ok));
  }

  lemma {:induction false} SectionWithin(cfg: Config, s: State, t: nat, shared: Shared)
    requires t < |s.threads| && MidInv(cfg, Within(s, t), t, shared)
    ensures shared.nTotal + shared.nIdle >= 0
    ensures var (after, result) := Section(cfg, s, t, shared);
            Inv(cfg, after) && (result.Some? ==> t == 0 && WaitResult(cfg, s, result.value))
  {
    hide Inv, MidInv, Decide;
    MidCounters(cfg, Within(s, t), t, shared);
    SectionKeeps(cfg, Within(s, t), t, shared);
    var (after, ending) := Decide(cfg, shared, t == 0);
    SameConclusion(s, after, t, ending);
  }

  lemma {:induction false} SameConclusion(s: State, shared: Shared, t: nat, ending: Ending)
    requires t < |s.threads|
    ensures Conclude(Within(s, t), shared, t, ending) == Conclude(s, shared, t, ending)
  {
    var next := Conclude(s, shared, t, ending).threads[t];
    assert s.threads[t := Outside][t := next] == s.threads[t := next];
  }

  /** A run: enabled steps and the states between them. */
  predicate Run(cfg: Config, workers: nat, steps: seq<Step>, states: seq<State>) {
    && |states| == |steps| + 1
    && if steps == [] then states[0] == Initial(workers)
       else
         var n := |steps| - 1;
         && Run(cfg, workers, steps[..n], states[..n + 1])
         && Enabled(states[n], steps[n]) && CountersOk(states[n]) && Apply(cfg, states[n], steps[n]).0 == states[n + 1]
  }

  /** In every state of every interleaving. */
  lemma {:induction false} RunKeeps(cfg: Config, workers: nat, steps: seq<Step>, states: seq<State>)
    requires Run(cfg, workers, steps, states)
    ensures Inv(cfg, states[|steps|])
  {
    hide Inv;
    if steps == [] {
      InitialInv(cfg, workers);
    } else {
      var n := |steps| - 1;
      RunKeeps(cfg, workers, steps[..n], states[..n + 1]);
      StepKeeps(cfg, states[n], steps[n]);
    }
  }

  /** Whenever Wait returns, after any run: each check added since the last return
      was completed in exactly one batch, and the result is the conjunction. */
  lemma {:induction false} WaitCorrect(cfg: Config, workers: nat, steps: seq<Step>, states: seq<State>, step: Step)
    requires Run(cfg, workers, steps, states) && Enabled(states[|steps|], step)
    ensures CountersOk(states[|steps|])
    ensures var (after, result) := Apply(cfg, states[|steps|], step);
            result.Some? ==> Returns(cfg, states[|steps|], step, result.value)
  {
    hide Inv, Returns;
    RunKeeps(cfg, workers, steps, states);
    StepKeeps(cfg, states[|steps|], step);
  }

  // ----- Progress ------------------------------------------------------------------------

  function Effort(t: Thread): nat {
    match t
    case Outside => 1
    case Waiting(_) => 0
    case Working(batch, done, _) => if done <= |batch| then |batch| - done + 2 else 0
  }

  /** The work left: queued checks, unfinished batches, threads still to join. */
  function Measure(s: State): nat {
    4 * |s.shared.queue| + Sum(s.threads, Effort)
  }

  /** A thread that wakes up to an empty queue and has nothing to return. */
  predicate Futile(s: State, step: Step) {
    step.Wake? && s.shared.queue == [] && (step.t != 0 || s.shared.nTodo != 0)
  }

  /** While the master is in the loop, it can return, or some thread can go on. */
  lemma {:induction false} NeverStuck(cfg: Config, s: State)
    requires Inv(cfg, s) && s.threads[0] != Outside
    ensures exists step :: Enabled(s, step) && !step.AddStep? && !Futile(s, step)
  {
    var master := s.threads[0];
    if master.Working? {
      Active(cfg, s, 0);
    } else if s.shared.nTodo == 0 {
      assert Enabled(s, Wake(0)) && !Futile(s, Wake(0));
    } else {
      var i := SumPositive(s.threads, Load);
      Active(cfg, s, i);
    }
  }

  /** A master that sleeps without a notification is not forgotten: a worker holds a
      batch, and the last such worker will notify it. */
  lemma {:induction false} SleeperServed(cfg: Config, s: State)
    requires Inv(cfg, s) && s.threads[0].Waiting? && !s.threads[0].notified
    ensures exists i :: 0 < i < |s.threads| && s.threads[i].Working?
  {
    var i := SumPositive(s.threads, Load);
    assert i != 0 && s.threads[i].Working?;
  }

  /** So it is after every run. */
  lemma {:induction false} MasterNeverForgotten(cfg: Config, workers: nat, steps: seq<Step>, states: seq<State>)
    requires Run(cfg, workers, steps, states)
    ensures var s := states[|steps|];
            && |s.threads| == workers + 1
            && (s.threads[0].Waiting? && !s.threads[0].notified ==>
                  exists i :: 0 < i <= workers && s.threads[i].Working?)
            && (s.threads[0] != Outside ==>
                  exists step :: Enabled(s, step) && !step.AddStep? && !Futile(s, step))
  {
    hide Inv, Apply, Enabled, Futile;
    RunKeeps(cfg, workers, steps, states);
    RunThreads(cfg, workers, steps, states);
    var s := states[|steps|];
    if s.threads[0].Waiting? && !s.threads[0].notified {
      SleeperServed(cfg, s);
    }
    if s.threads[0] != Outside {
      NeverStuck(cfg, s);
    }
  }

  lemma {:induction false} RunThreads(cfg: Config, workers: nat, steps: seq<Step>, states: seq<State>)
    requires Run(cfg, workers, steps, states)
    ensures |states[|steps|].threads| == workers + 1
  {
    hide Apply;
    if steps != [] {
      var n := |steps| - 1;
      RunThreads(cfg, workers, steps[..n], states[..n + 1]);
      StepThreads(cfg, states[n], steps[n]);
    }
  }

  lemma {:induction false} StepThreads(cfg: Config, s: State, step: Step)
    requires Enabled(s, step) && CountersOk(s)
    ensures |Apply(cfg, s, step).0.threads| == |s.threads|
  {
    hide Decide;
  }

  lemma {:induction false} Active(cfg: Config, s: State, t: nat)
    requires Inv(cfg, s) && t < |s.threads| && s.threads[t].Working?
    ensures exists step :: Enabled(s, step) && !step.AddStep? && !Futile(s, step)
  {
    assert ThreadOk(cfg, s.completed, s.threads[t]);
    var step := if s.threads[t].done < |s.threads[t].batch| then Execute(t) else Finish(t);
    assert Enabled(s, step) && !Futile(s, step);
  }

  lemma {:induction false} SectionProgress(cfg: Config, s: State, t: nat, shared: Shared)
    requires t < |s.threads| && shared.nTotal + shared.nIdle >= 0 && shared.queue == s.shared.queue
    requires !(shared.queue == [] && s.threads[t].Waiting? && (t != 0 || shared.nTodo != 0))
    requires s.threads[t].Waiting? || Effort(s.threads[t]) > 0
    ensures var after := Section(cfg, s, t, shared).0;
            Measure(after) < Measure(s) || Section(cfg, s, t, shared).1.Some?
  {
    var (rest, ending) := Decide(cfg, shared, t == 0);
    var next := Conclude(s, rest, t, ending).threads[t];
    SumUpdate(s.threads, Effort, t, next);
    if ending.Took? {
      BatchFits(cfg, shared);
    }
  }

  lemma {:induction false} NotifyEffort(threads: seq<Thread>)
    requires |threads| > 0
    ensures Sum(Notify(threads), Effort) == Sum(threads, Effort)
  {
    if threads[0].Waiting? {
      SumUpdate(threads, Effort, 0, Waiting(true));
    }
  }

  /** Every step but adding and a futile wake-up brings the end of Wait nearer. */
  lemma {:induction false} StepProgress(cfg: Config, s: State, step: Step)
    requires Inv(cfg, s) && Enabled(s, step) && !step.AddStep? && !Futile(s, step)
    ensures CountersOk(s)
    ensures var (after, result) := Apply(cfg, s, step); result.Some? || Measure(after) < Measure(s)
  {
    hide CountsExact, Conserved, MasterOk, Section, Sum;
    CountersFromInv(cfg, s);
    match step
    case Enter(t) => SectionProgress(cfg, s, t, s.shared.(nTotal := s.shared.nTotal + 1));
    case Wake(t) => SectionProgress(cfg, s, t, s.shared.(nIdle := s.shared.nIdle - 1));
    case Execute(t) => SumUpdate(s.threads, Effort, t, Executed(cfg, s.threads[t]));
    case Finish(t) =>
      var w := s.threads[t];
      NotifyEffort(s.threads);
      SectionProgress(cfg, Cleaned(s, t), t, Settle(s.shared, |w.batch|, w.ok));
  }

  /** A stretch of a run in which nothing is added, no wake-up is futile and Wait
      does not return. */
  predicate BusyRun(cfg: Config, steps: seq<Step>, states: seq<State>) {
    && |states| == |steps| + 1
    && (steps != [] ==>
          && Enabled(states[0], steps[0]) && CountersOk(states[0]) && !steps[0].AddStep? && !Futile(states[0], steps[0])
          && Apply(cfg, states[0], steps[0]) == (states[1], None)
          && BusyRun(cfg, steps[1..], states[1..]))
  }

  /** Such a stretch is no longer than the work left: Wait returns. */
  lemma {:induction false} WaitEnds(cfg: Config, steps: seq<Step>, states: seq<State>)
    requires BusyRun(cfg, steps, states) && Inv(cfg, states[0])
    ensures |steps| <= Measure(states[0])
  {
    hide Inv, Measure, Apply;
    if steps != [] {
      StepKeeps(cfg, states[0], steps[0]);
      StepProgress(cfg, states[0], steps[0]);
      WaitEnds(cfg, steps[1..], states[1..]);
    }
  }
}
