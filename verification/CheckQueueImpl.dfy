/** The check queue as an object: its critical sections and the work between them. */
module CheckQueueImpl {
  import opened Integers
  import opened CheckQueue
  import opened CheckQueueRun

  datatype Wakeup = NoWorker | OneWorker | AllWorkers

  /** The verdict after the first checks of a batch. */
  function Verdict(cfg: Config, ok: bool, checks: seq<Check>): bool {
    if checks == [] then ok
    else
      var before := Verdict(cfg, ok, checks[..|checks| - 1]);
      if before then cfg.outcome(checks[|checks| - 1]) else before
  }

  /** Executing a batch finds out whether all its checks succeed. */
  lemma {:induction false} VerdictMeans(cfg: Config, ok: bool, checks: seq<Check>)
    ensures Verdict(cfg, ok, checks) <==> ok && AllGood(cfg, multiset(checks))
  {
    if checks != [] {
      var past, last := checks[..|checks| - 1], checks[|checks| - 1];
      VerdictMeans(cfg, ok, past);
      assert checks == past + [last];
      AllGoodSum(cfg, multiset(past), multiset([last]));
      assert AllGood(cfg, multiset([last])) <==> cfg.outcome(last) by {
        assert last in multiset([last]);
      }
    }
  }

  class CCheckQueue {
    const cfg: Config
    var queue: seq<Check>
    var nIdle: int
    var nTotal: int
    var fAllOk: bool
    var nTodo: int

    function Model(): Shared
      reads this
    {
      Shared(queue, nIdle, nTotal, fAllOk, nTodo)
    }

    constructor (config: Config)
      ensures cfg == config && Model() == Initial(0).shared
    {
      cfg := config;
      queue, nIdle, nTotal, fAllOk, nTodo := [], 0, 0, true, 0;
    }

    method Add(checks: seq<Check>) returns (wakeup: Wakeup)
      modifies this
      ensures Model() == CheckQueue.Add(old(Model()), checks)
      ensures wakeup == if checks == [] then NoWorker else if |checks| == 1 then OneWorker else AllWorkers
    {
      if checks == [] {
        return NoWorker;
      }
      queue := queue + checks;
      nTodo := nTodo + |checks|;
      wakeup := if |checks| == 1 then OneWorker else AllWorkers;
    }

    /** The inner loop and what follows it, up to the release of the mutex. */
    method Proceed(isMaster: bool) returns (ending: Ending)
      requires nTotal + nIdle >= 0
      modifies this
      ensures (Model(), ending) == Decide(cfg, old(Model()), isMaster)
    {
      if queue == [] {
        if isMaster && nTodo == 0 {
          nTotal := nTotal - 1;
          var result := fAllOk;
          fAllOk := true;
          return Returned(result);
        }
        nIdle := nIdle + 1;
        return Asleep;
      }
      BatchFits(cfg, Model());
      var now := Max(1, Min(cfg.batchSize, |queue| / (nTotal + nIdle + 1)));
      ending := Took(queue[|queue| - now..]);
      queue := queue[..|queue| - now];
    }

    /** The critical section at the head of the outer loop: clean up after `now`
        checks with the verdict `ok`, or join. */
    method Begin(isMaster: bool, now: nat, ok: bool) returns (ending: Ending, notifyMaster: bool)
      requires nTotal + nIdle >= 0
      modifies this
      ensures var s := if now != 0 then Settle(old(Model()), now, ok) else old(Model()).(nTotal := old(nTotal) + 1);
              (Model(), ending) == Decide(cfg, s, isMaster)
      ensures notifyMaster == (now != 0 && old(nTodo) == now && !isMaster)
    {
      notifyMaster := false;
      if now != 0 {
        fAllOk := fAllOk && ok;
        nTodo := nTodo - now;
        if nTodo == 0 && !isMaster {
          notifyMaster := true;
        }
      } else {
        nTotal := nTotal + 1;
      }
      ending := Proceed(isMaster);
    }

    /** The critical section continues after a wait. */
    method Resume(isMaster: bool) returns (ending: Ending)
      requires nTotal + nIdle >= 1
      modifies this
      ensures (Model(), ending) == Decide(cfg, old(Model()).(nIdle := old(nIdle) - 1), isMaster)
    {
      nIdle := nIdle - 1;
      ending := Proceed(isMaster);
    }

    /** Execute a batch outside the critical section. */
    method Execute(checks: seq<Check>, allOk: bool) returns (ok: bool)
      ensures ok <==> allOk && AllGood(cfg, multiset(checks))
    {
      ok := allOk;
      for i := 0 to |checks|
        invariant ok == Verdict(cfg, allOk, checks[..i])
      {
        assert checks[..i + 1][..i] == checks[..i];
        if ok {
          ok := cfg.outcome(checks[i]);
        }
      }
      assert checks[..|checks|] == checks;
      VerdictMeans(cfg, allOk, checks);
    }
  }
}
