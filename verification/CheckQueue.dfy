/** The check queue: one master and any number of workers that share a stack of
    checks. A step is one critical section, or one check executed outside of it. */
module CheckQueue {
  import opened Bits
  import opened Integers
  import opened Wrappers

  type Check = nat

  /** The outcomes of the checks, left open, and the largest batch. */
  datatype Config = Config(outcome: Check -> bool, batchSize: nat)

  /** What the mutex guards. */
  datatype Shared = Shared(queue: seq<Check>, nIdle: int, nTotal: int, allOk: bool, nTodo: int)

  /** How a critical section of the loop ends. */
  datatype Ending = Returned(result: bool) | Asleep | Took(batch: seq<Check>)

  function Add(s: Shared, checks: seq<Check>): Shared {
    s.(queue := s.queue + checks, nTodo := s.nTodo + |checks|)
  }

  /** The clean-up after a batch. */
  function Settle(s: Shared, done: nat, ok: bool): Shared {
    s.(allOk := s.allOk && ok, nTodo := s.nTodo - done)
  }

  /** How many checks to take. The workers counted as idle will help soon. */
  function BatchSize(cfg: Config, s: Shared): int
    requires s.nTotal + s.nIdle >= 0
  {
    Max(1, Min(cfg.batchSize, |s.queue| / (s.nTotal + s.nIdle + 1)))
  }

  /** A batch is never empty and never larger than the queue or the largest batch. */
  lemma {:induction false} BatchFits(cfg: Config, s: Shared)
    requires s.nTotal + s.nIdle >= 0 && s.queue != []
    ensures 1 <= BatchSize(cfg, s) <= |s.queue| && BatchSize(cfg, s) <= Max(1, cfg.batchSize)
  {
    var k := s.nTotal + s.nIdle + 1;
    assert |s.queue| / k <= |s.queue| by {
      QuotientAtMost(|s.queue|, k);
    }
  }

  /** It is the largest number, of one or more, that is within the largest batch and
      leaves as much to each of the others. */
  lemma {:induction false} BatchExact(cfg: Config, s: Shared, m: nat)
    requires s.nTotal + s.nIdle >= 0 && m >= 2
    ensures m <= BatchSize(cfg, s) <==> m <= cfg.batchSize && m * (s.nTotal + s.nIdle + 1) <= |s.queue|
  {
    Shares(|s.queue|, s.nTotal + s.nIdle + 1, m);
  }

  lemma {:induction false} Shares(n: nat, k: nat, m: nat)
    requires k >= 1
    ensures m <= n / k <==> m * k <= n
  {
    var q, r := n / k, n % k;
    assert n == q * k + r && r < k;
    if m <= q {
      MulMonotone(m, q, k);
    } else {
      MulMonotone(q + 1, m, k);
      assert (q + 1) * k == q * k + k;
    }
  }

  lemma {:induction false} QuotientAtMost(n: nat, k: nat)
    requires k >= 1
    ensures n / k <= n
  {
    AtMost(n, k, n / k, n % k);
  }

  lemma {:induction false} AtMost(n: nat, k: nat, q: nat, r: nat)
    requires k >= 1 && n == q * k + r
    ensures q <= n
  {
    MulMonotone(1, k, q);
  }

  /** From the head of the inner loop to the end of the critical section. */
  function Decide(cfg: Config, s: Shared, isMaster: bool): (Shared, Ending)
    requires s.nTotal + s.nIdle >= 0
  {
    if s.queue == [] then
      if isMaster && s.nTodo == 0 then (s.(nTotal := s.nTotal - 1, allOk := true), Returned(s.allOk))
      else (s.(nIdle := s.nIdle + 1), Asleep)
    else
      BatchFits(cfg, s);
      var rest := |s.queue| - BatchSize(cfg, s);
      (s.(queue := s.queue[..rest]), Took(s.queue[rest..]))
  }

  // ----- Threads ----------------------------------------------------------------------

  datatype Thread = Outside | Waiting(notified: bool) | Working(batch: seq<Check>, done: nat, ok: bool)

  /** Thread 0 is the master. The last three fields record the history since the
      master last returned: the checks added, those completed, and the batches taken. */
  datatype State = State(
    shared: Shared,
    threads: seq<Thread>,
    added: multiset<Check>,
    completed: multiset<Check>,
    batches: seq<seq<Check>>)

  datatype Step = AddStep(checks: seq<Check>) | Enter(t: nat) | Execute(t: nat) | Finish(t: nat) | Wake(t: nat)

  function Initial(workers: nat): State {
    State(Shared([], 0, 0, true, 0), seq(workers + 1, _ => Outside), multiset{}, multiset{}, [])
  }

  predicate Enabled(s: State, step: Step) {
    match step
    case AddStep(_) => |s.threads| > 0 && s.threads[0] == Outside
    case Enter(t) => t < |s.threads| && s.threads[t] == Outside
    case Execute(t) => t < |s.threads| && s.threads[t].Working? && s.threads[t].done < |s.threads[t].batch|
    case Finish(t) => t < |s.threads| && s.threads[t].Working? && s.threads[t].done == |s.threads[t].batch|
    case Wake(t) => t < |s.threads| && s.threads[t].Waiting?
  }

  /** A thread's critical section ends. */
  function Conclude(s: State, shared: Shared, t: nat, ending: Ending): State
    requires t < |s.threads|
  {
    match ending
    case Returned(_) => State(shared, s.threads[t := Outside], multiset{}, multiset{}, [])
    case Asleep => s.(shared := shared, threads := s.threads[t := Waiting(false)])
    case Took(batch) =>
      s.(shared := shared, threads := s.threads[t := Working(batch, 0, shared.allOk)], batches := s.batches + [batch])
  }

  /** The last worker to finish notifies the master. */
  function Notify(threads: seq<Thread>): seq<Thread>
    requires |threads| > 0
  {
    if threads[0].Waiting? then threads[0 := Waiting(true)] else threads
  }

  function Section(cfg: Config, s: State, t: nat, shared: Shared): (State, Option<bool>)
    requires t < |s.threads| && shared.nTotal + shared.nIdle >= 0
  {
    var (after, ending) := Decide(cfg, shared, t == 0);
    (Conclude(s, after, t, ending), if ending.Returned? then Some(ending.result) else None)
  }

  /** A thread that finds work takes it from the end of the queue, in order; after a
      failure it takes it as failed, without executing anything. */
  lemma {:induction false} SectionTakes(cfg: Config, s: State, t: nat, shared: Shared)
    requires t < |s.threads| && shared.nTotal + shared.nIdle >= 0 && shared.queue != []
    ensures var (u, r) := Section(cfg, s, t, shared);
            && r == None && |u.threads| == |s.threads| && u.threads == s.threads[t := u.threads[t]]
            && u.threads[t].Working? && u.threads[t].done == 0 && u.threads[t].ok == shared.allOk
            && u.shared == shared.(queue := u.shared.queue) && u.shared.queue + u.threads[t].batch == shared.queue
            && 1 <= |u.threads[t].batch| <= Max(1, cfg.batchSize)
            && (|u.threads[t].batch| > 1 ==> |u.threads[t].batch| * (shared.nTotal + shared.nIdle + 1) <= |shared.queue|)
  {
    hide BatchSize;
    BatchFits(cfg, shared);
    var n := BatchSize(cfg, shared);
    if n > 1 {
      BatchExact(cfg, shared, n);
    }
  }

  predicate CountersOk(s: State) {
    s.shared.nTotal >= 0 && s.shared.nIdle >= 0 && forall i :: 0 <= i < |s.threads| && s.threads[i].Waiting? ==> s.shared.nIdle >= 1
  }

  function Apply(cfg: Config, s: State, step: Step): (State, Option<bool>)
    requires Enabled(s, step) && CountersOk(s)
  {
    match step
    case AddStep(checks) =>
      (s.(shared := Add(s.shared, checks), added := s.added + multiset(checks)), None)
    case Enter(t) => Section(cfg, s, t, s.shared.(nTotal := s.shared.nTotal + 1))
    case Wake(t) => Section(cfg, s, t, s.shared.(nIdle := s.shared.nIdle - 1))
    case Execute(t) =>
      var w := s.threads[t];
      var ok := if w.ok then cfg.outcome(w.batch[w.done]) else false;
      (s.(threads := s.threads[t := Working(w.batch, w.done + 1, ok)]), None)
    case Finish(t) =>
      var w := s.threads[t];
      var shared := Settle(s.shared, |w.batch|, w.ok);
      var threads := if shared.nTodo == 0 && t != 0 then Notify(s.threads) else s.threads;
      Section(cfg, s.(threads := threads, completed := s.completed + multiset(w.batch)), t, shared)
  }
}
