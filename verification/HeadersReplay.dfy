/** The replay theorem: if the headers that were accepted in PRESYNC are served
    again, in any batching, REDOWNLOAD accepts them all and ends by releasing
    exactly what was served. */
module HeadersReplay {
  import opened Wrappers
  import opened HeadersWork
  import opened HeadersSync
  import opened HeadersSyncRun

  function Concat(ms: seq<Message>): seq<Header> {
    if ms == [] then [] else Concat(ms[..|ms| - 1]) + ms[|ms| - 1].headers
  }

  // ----- What PRESYNC leaves behind -----------------------------------------------

  /** PRESYNC is never entered again. */
  lemma {:induction false} PresyncBefore(cfg: Config, ms: seq<Message>)
    requires ms != [] && Run(cfg, ms).state.Presync?
    ensures Run(cfg, ms[..|ms| - 1]).state.Presync?
  {
    assert Run(cfg, ms) == Step(cfg, Run(cfg, ms[..|ms| - 1]), ms[|ms| - 1]);
  }

  lemma {:induction false} PresyncRun(cfg: Config, ms: seq<Message>)
    requires Run(cfg, ms).state.Presync?
    ensures PresyncInv(cfg, Run(cfg, ms).state, Concat(ms))
  {
    if ms == [] {
      assert Counted(cfg, []) == Some((cfg.start, cfg.startWork));
    } else {
      PresyncBefore(cfg, ms);
      PresyncRun(cfg, ms[..|ms| - 1]);
      var t := Run(cfg, ms[..|ms| - 1]);
      var m := ms[|ms| - 1];
      if m.headers == [] {
        assert Concat(ms) == Concat(ms[..|ms| - 1]);
      } else {
        PresyncHeadersKeep(cfg, t.state, Concat(ms[..|ms| - 1]), m.headers, Concat(ms));
      }
    }
  }

  /** The last message of `ms` switched from PRESYNC to REDOWNLOAD. */
  predicate Switches(cfg: Config, ms: seq<Message>) {
    ms != [] && Run(cfg, ms[..|ms| - 1]).state.Presync? && Run(cfg, ms).state.Redownload?
  }

  /** Once switched, the commitments are those of the headers accepted, and these
      reach the minimum work. */
  lemma {:induction false} SwitchState(cfg: Config, ms: seq<Message>)
    requires Switches(cfg, ms)
    ensures var xs := Concat(ms);
            var s := Run(cfg, ms).state;
            && s == Redownload(cfg.start, Commitments(cfg, xs), [], cfg.StartHeight(), cfg.StartHash(),
                               cfg.StartHash(), cfg.startWork, false)
            && Run(cfg, ms).received == [] && Run(cfg, ms).released == []
            && Counted(cfg, xs).Some? && Permitted(cfg, xs) && Reached(cfg, xs)
            && |Commitments(cfg, xs)| <= cfg.maxCommitments
  {
    var before := ms[..|ms| - 1];
    PresyncRun(cfg, before);
    RunSafe(cfg, before);
    var t := Run(cfg, before);
    var m := ms[|ms| - 1];
    PresyncHeadersKeep(cfg, t.state, Concat(before), m.headers, Concat(ms));
  }

  // ----- The second pass ---------------------------------------------------------------

  /** Headers that link, keep the difficulty rule and are accepted by the work
      count. The fork point is one block. */
  predicate Acceptable(cfg: Config, hs: seq<Header>) {
    && Tip(cfg.start).bits == cfg.startHeader.bits
    && Linked(cfg, cfg.StartHash(), hs) && Permitted(cfg, hs) && Counted(cfg, hs).Some?
  }

  /** One list starts with the other: the peer may stop early or have grown. */
  predicate Agree(ys: seq<Header>, xs: seq<Header>) {
    ys <= xs || xs <= ys
  }

  /** Received so far: part of the first pass, its commitments popped. */
  ghost predicate ReplayInv(cfg: Config, s: State, xs: seq<Header>, ys: seq<Header>, released: seq<Header>) {
    && RedownloadInv(cfg, s, ys, released)
    && (s.buffer == [] ==> ys == [])
    && (!s.processAll ==> |Commitments(cfg, ys)| <= |Commitments(cfg, xs)|
                          && s.commitments == Commitments(cfg, xs)[|Commitments(cfg, ys)|..])
  }

  /** Before the threshold, what agrees with the first pass is part of it. */
  lemma {:induction false} NotReachedIsPrefix(cfg: Config, xs: seq<Header>, ys: seq<Header>)
    requires Reached(cfg, xs) && !Reached(cfg, ys) && Agree(ys, xs)
    ensures ys <= xs
    ensures |Commitments(cfg, ys)| <= |Commitments(cfg, xs)|
    ensures Commitments(cfg, xs)[..|Commitments(cfg, ys)|] == Commitments(cfg, ys)
  {
    if xs <= ys {
      assert ys[..|xs|] == xs;
      CountedPrefix(cfg, ys, |xs|);
    }
    assert xs[..|ys|] == ys;
    CountedPrefix(cfg, xs, |ys|);
  }

  lemma {:induction false} ReplayHeader(
      cfg: Config, s: State, xs: seq<Header>, ys: seq<Header>, released: seq<Header>, h: Header)
    requires Reached(cfg, xs) && Acceptable(cfg, ys + [h]) && Agree(ys + [h], xs)
    requires s.Redownload? && ReplayInv(cfg, s, xs, ys, released)
    ensures RedownloadHeader(cfg, s, h).Some?
    ensures ReplayInv(cfg, RedownloadHeader(cfg, s, h).value, xs, ys + [h], released)
  {
    var all := ys + [h];
    assert Init(all) == ys && Tail(all) == h;
    LastBits(cfg, s, ys, released);
    if !Reached(cfg, all) {
      NotReachedIsPrefix(cfg, xs, all);
      if cfg.CommitsAt(s.lastHeight + 1) {
        var k := |Commitments(cfg, ys)|;
        assert Commitments(cfg, xs)[k] == Commitments(cfg, xs)[..k + 1][k];
        assert s.commitments[0] == cfg.commitment(cfg.hash(h));
      }
    }
    RedownloadHeaderKeeps(cfg, s, ys, released, h);
  }

  lemma {:induction false} ReplayHeaders(
      cfg: Config, s: State, xs: seq<Header>, ys: seq<Header>, released: seq<Header>, hs: seq<Header>, all: seq<Header>)
    requires Reached(cfg, xs) && all == ys + hs && Acceptable(cfg, all) && Agree(all, xs)
    requires s.Redownload? && ReplayInv(cfg, s, xs, ys, released)
    ensures RedownloadHeaders(cfg, s, hs).Some?
    ensures ReplayInv(cfg, RedownloadHeaders(cfg, s, hs).value, xs, all, released)
    decreases |hs|
  {
    hide ReplayInv, Counted, Linked, Permitted, PermittedFrom, Commitments, Reached;
    if hs == [] {
      assert all == ys;
    } else {
      var zs := ys + [hs[0]];
      AcceptablePrefix(cfg, all, |zs|);
      assert all[..|zs|] == zs;
      ReplayHeader(cfg, s, xs, ys, released, hs[0]);
      ReplayHeaders(cfg, RedownloadHeader(cfg, s, hs[0]).value, xs, zs, released, hs[1..], all);
    }
  }

  lemma {:induction false} AcceptablePrefix(cfg: Config, hs: seq<Header>, k: nat)
    requires Acceptable(cfg, hs) && k <= |hs|
    ensures Acceptable(cfg, hs[..k])
  {
    if k == |hs| {
      assert hs[..k] == hs;
    } else {
      AcceptablePrefix(cfg, Init(hs), k);
      assert Init(hs)[..k] == hs[..k];
    }
  }

  /** One message of the second pass: accepted, and once the threshold is crossed
      everything received is released and the sync is over. */
  lemma {:induction false} ReplayMessage(cfg: Config, t: Trace, xs: seq<Header>, m: Message)
    requires Reached(cfg, xs) && m.headers != []
    requires Acceptable(cfg, t.received + m.headers) && Agree(t.received + m.headers, xs)
    requires t.state.Redownload? && !t.state.processAll && ReplayInv(cfg, t.state, xs, t.received, t.released)
    ensures var u := Step(cfg, t, m);
            && u.received == t.received + m.headers
            && (if Reached(cfg, u.received) then u.state.Final? && u.released == u.received
                else if m.full then
                  u.state.Redownload? && !u.state.processAll && ReplayInv(cfg, u.state, xs, u.received, u.released)
                else u.state.Final?)
  {
    hide Counted, Linked, Permitted, PermittedFrom, Commitments, Reached, CompressAll, Expand, LastHash, RedownloadHeaders;
    var all := t.received + m.headers;
    ReplayHeaders(cfg, t.state, xs, t.received, t.released, m.headers, all);
    var s := RedownloadHeaders(cfg, t.state, m.headers).value;
    PopKeeps(cfg, s, all, t.released);
    CompressedSize(all[|t.released + Pop(cfg, s).1|..]);
  }

  /** The replay theorem. The first pass `first` ends by switching; the second pass
      serves the same headers, up to where the peer stops or beyond, in non-empty
      messages of which all but the last are full. Then nothing is rejected: the
      sync ends in FINAL with exactly the served headers released as soon as the
      threshold is reached, by a full message or not; before that it goes on, and is
      given up only for a message that is not full. */
  lemma {:induction false} Replay(cfg: Config, first: seq<Message>, second: seq<Message>)
    requires Switches(cfg, first)
    requires forall i :: 0 <= i < |second| ==> second[i].headers != []
    requires forall i :: 0 <= i < |second| - 1 ==> second[i].full
    requires Acceptable(cfg, Concat(second)) && Agree(Concat(second), Concat(first))
    requires second != [] ==> !Reached(cfg, Concat(second[..|second| - 1]))
    ensures var t := Run(cfg, first + second);
            && t.received == Concat(second)
            && (if Reached(cfg, t.received) then t.state.Final? && t.released == t.received
                else if second == [] || second[|second| - 1].full then
                  && t.state.Redownload? && !t.state.processAll
                  && ReplayInv(cfg, t.state, Concat(first), t.received, t.released)
                else t.state.Final?)
    decreases |second|
  {
    hide ReplayInv, Counted, Linked, Permitted, PermittedFrom, Commitments, Reached, Step;
    SwitchState(cfg, first);
    if second == [] {
      assert first + second == first;
      ReplayStart(cfg, first);
    } else {
      var init, m := second[..|second| - 1], second[|second| - 1];
      ReplayShorter(cfg, second, Concat(first));
      Replay(cfg, first, init);
      assert (first + second)[..|first + second| - 1] == first + init;
      ReplayMessage(cfg, Run(cfg, first + init), Concat(first), m);
    }
  }

  lemma {:induction false} ReplayStart(cfg: Config, first: seq<Message>)
    requires Switches(cfg, first)
    ensures var t := Run(cfg, first);
            && !Reached(cfg, []) && t.received == [] == Concat([])
            && ReplayInv(cfg, t.state, Concat(first), [], t.released)
  {
    SwitchState(cfg, first);
    assert Counted(cfg, []) == Some((cfg.start, cfg.startWork));
  }

  lemma {:induction false} ReplayShorter(cfg: Config, second: seq<Message>, xs: seq<Header>)
    requires second != [] && Acceptable(cfg, Concat(second)) && Agree(Concat(second), xs)
    requires !Reached(cfg, Concat(second[..|second| - 1]))
    ensures var init := second[..|second| - 1];
            && Acceptable(cfg, Concat(init)) && Agree(Concat(init), xs)
            && (init != [] ==> !Reached(cfg, Concat(init[..|init| - 1])))
  {
    hide Counted, Linked, Permitted, PermittedFrom, Commitments, Reached;
    var init := second[..|second| - 1];
    var ys := Concat(init);
    assert Concat(second)[..|ys|] == ys;
    AcceptablePrefix(cfg, Concat(second), |ys|);
    if init != [] {
      var zs := Concat(init[..|init| - 1]);
      CountedPrefix(cfg, ys, |zs|);
      assert ys[..|zs|] == zs;
    }
  }

  /** Serving everything again does reach the threshold, and headers that link are
      acceptable because the first pass accepted them. */
  lemma {:induction false} FirstPassReplayable(cfg: Config, first: seq<Message>, k: nat)
    requires Switches(cfg, first) && k <= |Concat(first)|
    requires Tip(cfg.start).bits == cfg.startHeader.bits && Linked(cfg, cfg.StartHash(), Concat(first))
    ensures Acceptable(cfg, Concat(first)[..k]) && Agree(Concat(first)[..k], Concat(first))
    ensures Reached(cfg, Concat(first))
  {
    SwitchState(cfg, first);
    AcceptablePrefix(cfg, Concat(first), k);
  }
}
