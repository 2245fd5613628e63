/** How long the cuckoo cache remembers: over every run of insertions and lookups, an
    element leaves only by erasure, by loss at the depth limit, or by age. */
module CuckooRun {
  import opened Integers
  import opened Cuckoo

  datatype State = State(slots: seq<Slot>, counter: nat)

  /** An insertion with its outcome, or a lookup that may erase. */
  datatype Op = Insert(element: Element, outcome: Outcome) | Find(element: Element, erase: bool)

  /** What the operations of the cache are proved to do to its slots and its counter. */
  ghost predicate StepTo(h: Hasher, epochSize: nat, s: State, op: Op, t: State) {
    && |s.slots| > 0
    && match op
       case Insert(e, outcome) =>
         var (checked, counter) := Checked(s.slots, s.counter, epochSize);
         Inserted(h, checked, t.slots, e, outcome) && t.counter == counter
       case Find(e, erase) =>
         && t.counter == s.counter
         && (t.slots == s.slots ||
             (erase && exists l: nat ::
                l < |s.slots| && s.slots[l].element == e && t.slots == s.slots[l := s.slots[l].(live := false)]))
  }

  ghost predicate IsRun(h: Hasher, epochSize: nat, states: seq<State>, ops: seq<Op>) {
    |states| == |ops| + 1 && forall i :: 0 <= i < |ops| ==> StepTo(h, epochSize, states[i], ops[i], states[i + 1])
  }

  /** An epoch ends at an insertion that finds the counter at zero, with at least
      `epochSize` live elements of the current epoch. */
  predicate Ages(epochSize: nat, s: State, op: Op) {
    op.Insert? && s.counter == 0 && |RecentSlots(s.slots)| >= epochSize
  }

  predicate Recent(s: State, x: Element) {
    (x, true) in Live(s.slots)
  }

  predicate Held(s: State, x: Element) {
    (x, true) in Live(s.slots) || (x, false) in Live(s.slots)
  }

  /** The two ways in which an operation removes a given element at once. */
  predicate Removes(op: Op, x: Element) {
    match op
    case Insert(_, outcome) => outcome.Lost? && outcome.element == x
    case Find(e, erase) => erase && e == x
  }

  // ----- One operation ------------------------------------------------------------------

  lemma {:induction false} LiveHas(s: seq<Slot>, i: nat)
    requires i < |s| && s[i].live
    ensures (s[i].element, s[i].recent) in Live(s)
  {
    var n := |s| - 1;
    if i < n {
      LiveHas(s[..n], i);
    }
  }

  /** An update of a slot concerns only the element in it. */
  lemma {:induction false} OtherLives(s: seq<Slot>, i: nat, y: Slot, x: Element, recent: bool)
    requires i < |s| && s[i].element != x && (x, recent) in Live(s)
    ensures (x, recent) in Live(s[i := y])
  {
    var j := LiveMember(s, x, recent);
    LiveHas(s[i := y], j);
  }

  lemma {:induction false} InsertedKeeps(h: Hasher, s: seq<Slot>, t: seq<Slot>, e: Element, outcome: Outcome, x: Element, recent: bool)
    requires Inserted(h, s, t, e, outcome) && (x, recent) in Live(s) && !(outcome.Lost? && outcome.element == x)
    ensures (x, recent) in Live(t) || (x, true) in Live(t)
  {
    hide Live, NotStored, FirstOpen, Loc;
    match outcome
    case Kept(l) =>
      if x == e {
        LiveHas(t, l);
      } else {
        OtherLives(s, l, Slot(e, true, true), x, recent);
      }
    case Added => assert (x, recent) in Live(s) + multiset{(e, true)};
    case Lost(y, r) =>
      assert (x, recent) in Live(t) + multiset{(y, r)};
  }

  /** One operation that does not remove an element: without the end of an epoch the
      element stays, and stays recent if it was; at the end of an epoch what was recent
      stays. */
  lemma {:induction false} StepKeeps(h: Hasher, epochSize: nat, s: State, op: Op, t: State, x: Element)
    requires StepTo(h, epochSize, s, op, t) && !Removes(op, x)
    ensures !Ages(epochSize, s, op) && Recent(s, x) ==> Recent(t, x)
    ensures !Ages(epochSize, s, op) && Held(s, x) ==> Held(t, x)
    ensures Recent(s, x) ==> Held(t, x)
  {
    hide Live, Recents, RecentSlots, Inserted, Aged;
    match op
    case Insert(e, outcome) =>
      RecentsCount(s.slots);
      var checked := Checked(s.slots, s.counter, epochSize).0;
      AgedLive(s.slots, x);
      forall recent | (x, recent) in Live(checked)
        ensures (x, recent) in Live(t.slots) || (x, true) in Live(t.slots)
      {
        InsertedKeeps(h, checked, t.slots, e, outcome, x, recent);
      }
      assert !Ages(epochSize, s, op) ==> checked == s.slots;
    case Find(e, erase) =>
      if t.slots != s.slots {
        var l: nat :| l < |s.slots| && s.slots[l].element == e && t.slots == s.slots[l := s.slots[l].(live := false)];
        forall recent | (x, recent) in Live(s.slots)
          ensures (x, recent) in Live(t.slots)
        {
          OtherLives(s.slots, l, s.slots[l].(live := false), x, recent);
        }
      }
  }

  /** So an operation after which an element is gone erased it, lost it, or ended an
      epoch in which it was not recent while the current epoch was full. */
  lemma {:induction false} WhyGone(h: Hasher, epochSize: nat, s: State, op: Op, t: State, x: Element)
    requires StepTo(h, epochSize, s, op, t) && Held(s, x) && !Held(t, x)
    ensures Removes(op, x) || (op.Insert? && s.counter == 0 && |RecentSlots(s.slots)| >= epochSize && !Recent(s, x))
  {
    hide StepTo, Live, RecentSlots;
    if !Removes(op, x) {
      StepKeeps(h, epochSize, s, op, t, x);
    }
  }

  // ----- Runs -----------------------------------------------------------------------------

  /** How many epochs end in a run. */
  function Agings(epochSize: nat, states: seq<State>, ops: seq<Op>): nat
    requires |states| == |ops| + 1
    decreases |ops|
  {
    if ops == [] then 0
    else
      var n := |ops| - 1;
      Agings(epochSize, states[..n + 1], ops[..n]) + if Ages(epochSize, states[n], ops[n]) then 1 else 0
  }

  function Inserts(ops: seq<Op>): nat {
    if ops == [] then 0
    else Inserts(ops[..|ops| - 1]) + if ops[|ops| - 1].Insert? then 1 else 0
  }

  /** An element that is neither erased nor lost outlives its own epoch: it stays until
      the second end of an epoch, and until the first if it was not recent. */
  lemma {:induction false} Survives(h: Hasher, epochSize: nat, states: seq<State>, ops: seq<Op>, x: Element)
    requires IsRun(h, epochSize, states, ops) && Held(states[0], x) && forall op <- ops :: !Removes(op, x)
    ensures var agings := Agings(epochSize, states, ops);
            && (agings == 0 ==> Held(states[|ops|], x))
            && (Recent(states[0], x) ==> (agings == 0 ==> Recent(states[|ops|], x)) && (agings <= 1 ==> Held(states[|ops|], x)))
  {
    hide StepTo, Ages, Recent, Held, Removes;
    if ops != [] {
      var n := |ops| - 1;
      assert ops[n] in ops && forall op <- ops[..n] :: op in ops;
      Survives(h, epochSize, states[..n + 1], ops[..n], x);
      StepKeeps(h, epochSize, states[n], ops[n], states[n + 1], x);
    }
  }

  /** Epochs are long: a second one ends only after more than a whole epoch of
      insertions. */
  lemma {:induction false} EpochsLong(h: Hasher, epochSize: nat, states: seq<State>, ops: seq<Op>)
    requires IsRun(h, epochSize, states, ops)
    ensures var agings := Agings(epochSize, states, ops);
            && (agings == 1 ==> states[|ops|].counter + Inserts(ops) >= epochSize + 1)
            && (agings >= 2 ==> Inserts(ops) >= epochSize + 2)
  {
    hide Live, Inserted, Aged, RecentSlots;
    if ops != [] {
      var n := |ops| - 1;
      EpochsLong(h, epochSize, states[..n + 1], ops[..n]);
      var s, t := states[n], states[n + 1];
      assert StepTo(h, epochSize, s, ops[n], t);
      if ops[n].Insert? {
        RecentsCount(s.slots);
      }
    }
  }

  /** How many insertions of a run count the whole table. */
  function Scans(states: seq<State>, ops: seq<Op>): nat
    requires |states| == |ops| + 1
    decreases |ops|
  {
    if ops == [] then 0
    else
      var n := |ops| - 1;
      Scans(states[..n + 1], ops[..n]) + if ops[n].Insert? && states[n].counter == 0 then 1 else 0
  }

  /** Counting is rare: at most one of a sixteenth of an epoch of insertions counts, apart
      from what the counter stands at. */
  lemma {:induction false} ScansRare(h: Hasher, epochSize: nat, states: seq<State>, ops: seq<Op>)
    requires IsRun(h, epochSize, states, ops) && epochSize >= 1
    ensures Scans(states, ops) * (Max(1, epochSize / 16) + 1) + states[0].counter <= Inserts(ops) + states[|ops|].counter
  {
    hide StepTo;
    if ops != [] {
      var n := |ops| - 1;
      ScansRare(h, epochSize, states[..n + 1], ops[..n]);
      CounterStep(h, epochSize, states[n], ops[n], states[n + 1]);
      OneMore(Scans(states[..n + 1], ops[..n]), Max(1, epochSize / 16) + 1);
    }
  }

  lemma {:induction false} CounterStep(h: Hasher, epochSize: nat, s: State, op: Op, t: State)
    requires StepTo(h, epochSize, s, op, t) && epochSize >= 1
    ensures if !op.Insert? then t.counter == s.counter
            else if s.counter > 0 then t.counter == s.counter - 1
            else t.counter >= Max(1, epochSize / 16)
  {
    hide Live, Inserted, Aged, Recents;
  }

  lemma {:induction false} OneMore(n: nat, m: nat)
    ensures (n + 1) * m == n * m + m
  {
  }

  /** The lifetime of an element: inserted, and neither erased nor lost, it is still held
      after as many insertions as an epoch has elements, and one more. */
  lemma {:induction false} Lifetime(h: Hasher, epochSize: nat, states: seq<State>, ops: seq<Op>, x: Element)
    requires IsRun(h, epochSize, states, ops) && ops != [] && ops[0].Insert? && ops[0].element == x
    requires (forall op <- ops :: !Removes(op, x)) && Inserts(ops[1..]) <= epochSize + 1
    ensures Held(states[|ops|], x)
  {
    hide StepTo, Ages, Removes;
    var rest := states[1..];
    assert StepTo(h, epochSize, states[0], ops[0], states[1]);
    InsertedRecent(h, epochSize, states[0], ops[0], states[1]);
    assert forall op <- ops[1..] :: op in ops;
    Survives(h, epochSize, rest, ops[1..], x);
    EpochsLong(h, epochSize, rest, ops[1..]);
  }

  lemma {:induction false} InsertedRecent(h: Hasher, epochSize: nat, s: State, op: Op, t: State)
    requires StepTo(h, epochSize, s, op, t) && op.Insert? && !Removes(op, op.element)
    ensures Recent(t, op.element)
  {
    hide Live, NotStored, FirstOpen, Loc, Checked;
    match op.outcome
    case Kept(l) => LiveHas(t.slots, l);
    case Added =>
    case Lost(y, r) => assert (op.element, true) in Live(t.slots) + multiset{(y, r)};
  }
}
