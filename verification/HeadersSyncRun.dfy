/** Safety of every run of the header sync: what is released, when, and within which
    bounds. */
module HeadersSyncRun {
  import opened Wrappers
  import opened HeadersWork
  import opened HeadersSync

  datatype Message = Message(headers: seq<Header>, full: bool)

  /** The protocol state with what came in and went out during REDOWNLOAD. */
  datatype Trace = Trace(state: State, received: seq<Header>, released: seq<Header>)

  function Step(cfg: Config, t: Trace, m: Message): Trace {
    var (s, out) := ProcessNextHeaders(cfg, t.state, m.headers, m.full);
    Trace(s, if t.state.Redownload? then t.received + m.headers else t.received, t.released + out.released)
  }

  function Run(cfg: Config, ms: seq<Message>): Trace {
    if ms == [] then Trace(Initial(cfg), [], []) else Step(cfg, Run(cfg, ms[..|ms| - 1]), ms[|ms| - 1])
  }

  // ----- What a list of headers amounts to --------------------------------------

  function Init(hs: seq<Header>): seq<Header>
    requires hs != []
  {
    hs[..|hs| - 1]
  }

  function Tail(hs: seq<Header>): Header
    requires hs != []
  {
    hs[|hs| - 1]
  }

  /** The chain and total work once all of `hs` are accepted on the fork point. */
  function Counted(cfg: Config, hs: seq<Header>): Option<(Chain, nat)> {
    if hs == [] then Some((cfg.start, cfg.startWork)) else
      match Counted(cfg, Init(hs))
      case None => None
      case Some((chain, work)) =>
        match cfg.headerWork(chain, Tail(hs))
        case None => None
        case Some(w) => Some((chain + [NextBlock(chain, Tail(hs))], AddWork(work, w)))
  }

  /** Some header of `hs` brings the work to the minimum. */
  predicate Reached(cfg: Config, hs: seq<Header>) {
    hs != [] && (Reached(cfg, Init(hs)) || (Counted(cfg, hs).Some? && Counted(cfg, hs).value.1 >= cfg.minimumWork))
  }

  /** Every header names the hash of the one before it, the first one `prev`. */
  predicate Linked(cfg: Config, prev: Hash, hs: seq<Header>) {
    hs == [] || (Linked(cfg, prev, Init(hs)) && Tail(hs).prev == LastHash(cfg, prev, Init(hs)))
  }

  /** Every target is a permitted transition from the one before, the first one from `bits`. */
  predicate PermittedFrom(cfg: Config, bits: nat, hs: seq<Header>) {
    hs == [] ||
    (PermittedFrom(cfg, bits, Init(hs)) && cfg.permitted(cfg.StartHeight() + |hs|, BitsBefore(bits, Init(hs)), Tail(hs).bits))
  }

  predicate Permitted(cfg: Config, hs: seq<Header>) {
    PermittedFrom(cfg, cfg.startHeader.bits, hs)
  }

  function BitsBefore(bits: nat, hs: seq<Header>): nat {
    if hs == [] then bits else Tail(hs).bits
  }

  /** The bits stored for `hs`, one per committing height. */
  function Commitments(cfg: Config, hs: seq<Header>): seq<bool> {
    if hs == [] then [] else
      Commitments(cfg, Init(hs)) +
      if cfg.CommitsAt(cfg.StartHeight() + |hs|) then [cfg.commitment(cfg.hash(Tail(hs)))] else []
  }

  function CompressAll(hs: seq<Header>): seq<CompressedHeader> {
    seq(|hs|, i requires 0 <= i < |hs| => Compress(hs[i]))
  }

  lemma {:induction false} CountedPrefix(cfg: Config, hs: seq<Header>, k: nat)
    requires k <= |hs|
    ensures Counted(cfg, hs).Some? ==> Counted(cfg, hs[..k]).Some?
    ensures Reached(cfg, hs[..k]) ==> Reached(cfg, hs)
    ensures |Commitments(cfg, hs[..k])| <= |Commitments(cfg, hs)|
    ensures Commitments(cfg, hs)[..|Commitments(cfg, hs[..k])|] == Commitments(cfg, hs[..k])
  {
    if k < |hs| {
      CountedPrefix(cfg, Init(hs), k);
      assert Init(hs)[..k] == hs[..k];
    } else {
      assert hs[..k] == hs;
    }
  }

  // ----- PRESYNC keeps ------------------------------------------------------------

  ghost predicate PresyncInv(cfg: Config, s: State, xs: seq<Header>) {
    && s.Presync?
    && Counted(cfg, xs) == Some((s.chain, s.work))
    && s.height == cfg.StartHeight() + |xs|
    && s.last == (if xs == [] then cfg.startHeader else Tail(xs))
    && s.commitments == Commitments(cfg, xs)
    && |s.commitments| <= cfg.maxCommitments
    && Permitted(cfg, xs)
  }

  lemma {:induction false} PresyncHeaderKeeps(cfg: Config, s: State, xs: seq<Header>, h: Header)
    requires PresyncInv(cfg, s, xs) && PresyncHeader(cfg, s, h).Some?
    ensures PresyncInv(cfg, PresyncHeader(cfg, s, h).value, xs + [h])
  {
    assert Init(xs + [h]) == xs && Tail(xs + [h]) == h;
  }

  lemma {:induction false} PresyncHeadersKeep(cfg: Config, s: State, xs: seq<Header>, hs: seq<Header>, all: seq<Header>)
    requires s.Presync? && PresyncInv(cfg, s, xs) && PresyncHeaders(cfg, s, hs).Some? && all == xs + hs
    ensures PresyncInv(cfg, PresyncHeaders(cfg, s, hs).value, all)
    decreases |hs|
  {
    hide PresyncInv;
    if hs == [] {
      assert all == xs;
    } else {
      PresyncHeaderKeeps(cfg, s, xs, hs[0]);
      PresyncHeadersKeep(cfg, PresyncHeader(cfg, s, hs[0]).value, xs + [hs[0]], hs[1..], all);
    }
  }

  // ----- REDOWNLOAD keeps -----------------------------------------------------------

  /** The buffer is what was received and not yet released, compressed. */
  ghost predicate RedownloadInv(cfg: Config, s: State, ys: seq<Header>, released: seq<Header>) {
    && s.Redownload?
    && Counted(cfg, ys) == Some((s.chain, s.work))
    && s.lastHeight == cfg.StartHeight() + |ys|
    && s.lastHash == LastHash(cfg, cfg.StartHash(), ys)
    && Linked(cfg, cfg.StartHash(), ys) && PermittedFrom(cfg, Tip(cfg.start).bits, ys)
    && |released| <= |ys| && released == ys[..|released|]
    && s.firstPrevHash == LastHash(cfg, cfg.StartHash(), released)
    && s.buffer == CompressAll(ys[|released|..])
    && s.processAll == Reached(cfg, ys)
    && |s.commitments| <= cfg.maxCommitments
    && (!s.processAll ==> (released == [] || |s.buffer| >= REDOWNLOAD_BUFFER_SIZE))
  }

  /** The target before the next header is in the buffer. */
  lemma {:induction false} LastBits(cfg: Config, s: State, ys: seq<Header>, released: seq<Header>)
    requires RedownloadInv(cfg, s, ys, released) && (s.buffer == [] ==> ys == [])
    ensures PreviousBits(cfg, s) == BitsBefore(Tip(cfg.start).bits, ys)
  {
    hide Counted, Reached, Linked, PermittedFrom;
    if s.buffer != [] {
      assert s.buffer[|s.buffer| - 1] == Compress(Tail(ys));
    }
  }

  /** Before the threshold an empty buffer means that nothing was received. */
  lemma {:induction false} EmptyBuffer(cfg: Config, s: State, ys: seq<Header>, released: seq<Header>)
    requires RedownloadInv(cfg, s, ys, released) && !s.processAll
    ensures s.buffer == [] ==> ys == []
  {
    hide Counted, Reached, Linked, PermittedFrom;
  }

  lemma {:induction false} RedownloadHeaderKeeps(cfg: Config, s: State, ys: seq<Header>, released: seq<Header>, h: Header)
    requires RedownloadInv(cfg, s, ys, released) && (s.buffer == [] ==> ys == []) && RedownloadHeader(cfg, s, h).Some?
    ensures RedownloadInv(cfg, RedownloadHeader(cfg, s, h).value, ys + [h], released)
  {
    hide Counted, Reached, Linked, PermittedFrom, CompressAll, Compress, Config.CommitsAt;
    var all := ys + [h];
    LastBits(cfg, s, ys, released);
    OneMore(cfg, ys, h);
    CompressNext(ys, h, |released|);
    CompressedSize(ys[|released|..]);
  }

  /** What one more header amounts to. */
  lemma {:induction false} OneMore(cfg: Config, ys: seq<Header>, h: Header)
    ensures var all := ys + [h];
            && Counted(cfg, all) == (match Counted(cfg, ys)
                                     case None => None
                                     case Some((chain, work)) =>
                                       match cfg.headerWork(chain, h)
                                       case None => None
                                       case Some(w) => Some((chain + [NextBlock(chain, h)], AddWork(work, w))))
            && (Reached(cfg, all) <==> Reached(cfg, ys) || (Counted(cfg, all).Some? && Counted(cfg, all).value.1 >= cfg.minimumWork))
            && (forall prev :: Linked(cfg, prev, all) <==> Linked(cfg, prev, ys) && h.prev == LastHash(cfg, prev, ys))
            && (forall bits :: PermittedFrom(cfg, bits, all) <==>
                  PermittedFrom(cfg, bits, ys) && cfg.permitted(cfg.StartHeight() + |ys| + 1, BitsBefore(bits, ys), h.bits))
            && Commitments(cfg, all) ==
               Commitments(cfg, ys) + (if cfg.CommitsAt(cfg.StartHeight() + |all|) then [cfg.commitment(cfg.hash(h))] else [])
  {
    var all := ys + [h];
    assert Init(all) == ys && Tail(all) == h;
  }

  lemma {:induction false} CompressNext(ys: seq<Header>, h: Header, r: nat)
    requires r <= |ys|
    ensures (ys + [h])[..r] == ys[..r] && CompressAll((ys + [h])[r..]) == CompressAll(ys[r..]) + [Compress(h)]
  {
    assert (ys + [h])[r..] == ys[r..] + [h];
  }

  lemma {:induction false} BufferGrows(cfg: Config, s: State, h: Header)
    requires s.Redownload? && RedownloadHeader(cfg, s, h).Some?
    ensures RedownloadHeader(cfg, s, h).value.buffer != []
  {
  }

  lemma {:induction false} RedownloadHeadersKeep(
      cfg: Config, s: State, ys: seq<Header>, released: seq<Header>, hs: seq<Header>, all: seq<Header>)
    requires s.Redownload? && RedownloadInv(cfg, s, ys, released) && (s.buffer == [] ==> ys == [])
    requires RedownloadHeaders(cfg, s, hs).Some? && all == ys + hs
    ensures RedownloadInv(cfg, RedownloadHeaders(cfg, s, hs).value, all, released)
    decreases |hs|
  {
    hide RedownloadInv, RedownloadHeader;
    if hs == [] {
      assert all == ys;
    } else {
      RedownloadHeaderKeeps(cfg, s, ys, released, hs[0]);
      BufferGrows(cfg, s, hs[0]);
      RedownloadHeadersKeep(cfg, RedownloadHeader(cfg, s, hs[0]).value, ys + [hs[0]], released, hs[1..], all);
    }
  }

  lemma {:induction false} LinkedSplit(cfg: Config, prev: Hash, a: seq<Header>, b: seq<Header>)
    requires Linked(cfg, prev, a + b)
    ensures Linked(cfg, prev, a) && Linked(cfg, LastHash(cfg, prev, a), b)
    decreases |b|
  {
    if b == [] {
      assert a + b == a;
    } else {
      assert Init(a + b) == a + Init(b) && Tail(a + b) == Tail(b);
      LinkedSplit(cfg, prev, a, Init(b));
      assert Init(b) == [] ==> a + Init(b) == a;
    }
  }

  /** Compressing linked headers and expanding them again is the identity. */
  lemma {:induction false} ExpandInverse(cfg: Config, prev: Hash, hs: seq<Header>)
    requires Linked(cfg, prev, hs)
    ensures Expand(cfg, prev, CompressAll(hs)) == hs
    decreases |hs|
  {
    if hs != [] {
      ExpandInverse(cfg, prev, Init(hs));
      ExpandAppend(cfg, prev, CompressAll(Init(hs)), Compress(Tail(hs)));
      assert CompressAll(hs) == CompressAll(Init(hs)) + [Compress(Tail(hs))];
      assert hs == Init(hs) + [Tail(hs)];
    }
  }

  /** Popping releases the next received headers, unchanged. */
  lemma {:induction false} PopReleases(cfg: Config, s: State, ys: seq<Header>, released: seq<Header>)
    requires RedownloadInv(cfg, s, ys, released)
    ensures |released| + ReadyCount(s) <= |ys|
    ensures Pop(cfg, s).1 == ys[|released|..|released| + ReadyCount(s)]
    ensures Linked(cfg, cfg.StartHash(), ys[..|released| + ReadyCount(s)])
  {
    hide Counted, Reached, Linked, PermittedFrom, LastHash, CompressAll, Expand;
    var r, n := |released|, ReadyCount(s);
    CompressedSize(ys[r..]);
    Slices(ys, r, n);
    var ready := ys[r..r + n];
    LinkedSplit(cfg, cfg.StartHash(), released + ready, ys[r + n..]);
    LinkedSplit(cfg, cfg.StartHash(), released, ready);
    ExpandInverse(cfg, s.firstPrevHash, ready);
  }

  lemma {:induction false} CompressedSize(hs: seq<Header>)
    ensures |CompressAll(hs)| == |hs|
  {
  }

  /** A list in three parts, the last two compressed. */
  lemma {:induction false} Slices(ys: seq<Header>, r: nat, n: nat)
    requires r + n <= |ys|
    ensures ys[..r] + ys[r..r + n] == ys[..r + n] && ys[..r + n] + ys[r + n..] == ys
    ensures |CompressAll(ys[r..])| == |ys| - r
    ensures CompressAll(ys[r..])[..n] == CompressAll(ys[r..r + n])
    ensures CompressAll(ys[r..])[n..] == CompressAll(ys[r + n..])
  {
  }

  lemma {:induction false} PopKeeps(cfg: Config, s: State, ys: seq<Header>, released: seq<Header>)
    requires RedownloadInv(cfg, s, ys, released)
    ensures var (u, hs) := Pop(cfg, s);
            && RedownloadInv(cfg, u, ys, released + hs)
            && (!u.processAll ==> |u.buffer| <= REDOWNLOAD_BUFFER_SIZE)
            && (u.processAll ==> u.buffer == [] && released + hs == ys)
  {
    hide Counted, Reached, Linked, PermittedFrom, CompressAll, Expand;
    PopReleases(cfg, s, ys, released);
    CompressedSize(ys[|released|..]);
    Slices(ys, |released|, ReadyCount(s));
  }

  // ----- Safety of every run -----------------------------------------------------------

  ghost predicate TraceInv(cfg: Config, t: Trace) {
    && |t.released| <= |t.received| && t.released == t.received[..|t.released|]
    && Linked(cfg, cfg.StartHash(), t.released)
    && match t.state
       case Presync(_, _, _, _, _) => t.received == [] && |t.state.commitments| <= cfg.maxCommitments
       case Redownload(_, _, _, _, _, _, _, _) =>
         && RedownloadInv(cfg, t.state, t.received, t.released)
         && !t.state.processAll && |t.state.buffer| <= REDOWNLOAD_BUFFER_SIZE
       case Final => true
  }

  lemma {:induction false} CommitmentsBounded(cfg: Config, s: State, hs: seq<Header>)
    requires s.Presync? && |s.commitments| <= cfg.maxCommitments && PresyncHeaders(cfg, s, hs).Some?
    ensures |PresyncHeaders(cfg, s, hs).value.commitments| <= cfg.maxCommitments
    decreases |hs|
  {
    if hs != [] {
      CommitmentsBounded(cfg, PresyncHeader(cfg, s, hs[0]).value, hs[1..]);
    }
  }

  lemma {:induction false} SwitchInv(cfg: Config, s: State)
    requires s.Presync? && |s.commitments| <= cfg.maxCommitments
    ensures RedownloadInv(cfg, StartRedownload(cfg, s), [], [])
  {
  }

  lemma {:induction false} StepKeeps(cfg: Config, t: Trace, m: Message)
    requires TraceInv(cfg, t)
    ensures TraceInv(cfg, Step(cfg, t, m))
  {
    hide Counted, Reached, Linked, LastHash, RedownloadInv, RedownloadHeaders, PresyncHeader;
    var all := t.received + m.headers;
    assert all[..|t.released|] == t.received[..|t.released|];
    assert t.released + [] == t.released;
    if t.state.Presync? {
      if m.headers != [] && PresyncHeaders(cfg, t.state, m.headers).Some? {
        CommitmentsBounded(cfg, t.state, m.headers);
        SwitchInv(cfg, PresyncHeaders(cfg, t.state, m.headers).value);
      }
    } else if t.state.Redownload? {
      RedownloadStepKeeps(cfg, t, m);
    }
  }

  lemma {:induction false} RedownloadStepKeeps(cfg: Config, t: Trace, m: Message)
    requires TraceInv(cfg, t) && t.state.Redownload?
    ensures TraceInv(cfg, Step(cfg, t, m))
  {
    hide Counted, Reached, Linked, Expand, RedownloadHeaders, LastHash, RedownloadInv;
    var all := t.received + m.headers;
    assert all[..|t.released|] == t.received[..|t.released|];
    assert t.released + [] == t.released;
    if m.headers == [] {
      assert all == t.received;
      assert Step(cfg, t, m) == t;
    } else {
      var r := RedownloadHeaders(cfg, t.state, m.headers);
      if r.Some? {
        EmptyBuffer(cfg, t.state, t.received, t.released);
        RedownloadHeadersKeep(cfg, t.state, t.received, t.released, m.headers, all);
        PopReleases(cfg, r.value, all, t.released);
        PopKeeps(cfg, r.value, all, t.released);
        Slices(all, |t.released|, ReadyCount(r.value));
        assert Step(cfg, t, m).released == all[..|t.released| + ReadyCount(r.value)];
      } else {
        assert Step(cfg, t, m).released == t.released;
      }
    }
  }

  /** Over every run: what has been released is, field for field, a prefix of what
      was received in REDOWNLOAD, linked back to the fork point by hash; and after
      every message commitments and buffer are within their bounds. */
  lemma {:induction false} RunSafe(cfg: Config, ms: seq<Message>)
    ensures TraceInv(cfg, Run(cfg, ms))
  {
    if ms != [] {
      RunSafe(cfg, ms[..|ms| - 1]);
      StepKeeps(cfg, Run(cfg, ms[..|ms| - 1]), ms[|ms| - 1]);
    }
  }

  /** A header is released only under REDOWNLOAD_BUFFER_SIZE others, or once the
      redownloaded work has reached the minimum. */
  lemma {:induction false} ReleaseRule(cfg: Config, ms: seq<Message>, i: nat)
    requires ms != []
    requires var before, after := Run(cfg, ms[..|ms| - 1]), Run(cfg, ms);
             |before.released| <= i < |after.released|
    ensures var after := Run(cfg, ms);
            |after.received| - 1 - i >= REDOWNLOAD_BUFFER_SIZE || Reached(cfg, after.received)
  {
    var before := Run(cfg, ms[..|ms| - 1]);
    var m := ms[|ms| - 1];
    RunSafe(cfg, ms[..|ms| - 1]);
    var r := RedownloadHeaders(cfg, before.state, m.headers);
    RedownloadHeadersKeep(cfg, before.state, before.received, before.released, m.headers, before.received + m.headers);
    PopReleases(cfg, r.value, before.received + m.headers, before.released);
  }
}
