/** What the header sync accepts, exactly: in the first pass and in the second, by one
    message and over whole runs. A second pass that breaks a commitment is given up. */
module HeadersExact {
  import opened Wrappers
  import opened HeadersWork
  import opened HeadersSync
  import opened HeadersSyncRun
  import opened HeadersReplay

  lemma {:induction false} OkPrefix(cfg: Config, bits: nat, prev: Hash, hs: seq<Header>, k: nat)
    requires k <= |hs|
    ensures PermittedFrom(cfg, bits, hs) ==> PermittedFrom(cfg, bits, hs[..k])
    ensures Linked(cfg, prev, hs) ==> Linked(cfg, prev, hs[..k])
  {
    if k == |hs| {
      assert hs[..k] == hs;
    } else {
      OkPrefix(cfg, bits, prev, Init(hs), k);
      assert Init(hs)[..k] == hs[..k];
    }
  }

  // ----- The first pass -----------------------------------------------------------------

  /** Headers that the first pass accepts on the fork point. */
  predicate FirstOk(cfg: Config, xs: seq<Header>) {
    Permitted(cfg, xs) && Counted(cfg, xs).Some? && |Commitments(cfg, xs)| <= cfg.maxCommitments
  }

  lemma {:induction false} FirstOkPrefix(cfg: Config, xs: seq<Header>, k: nat)
    requires FirstOk(cfg, xs) && k <= |xs|
    ensures FirstOk(cfg, xs[..k])
  {
    hide Counted, PermittedFrom, Commitments;
    OkPrefix(cfg, cfg.startHeader.bits, 0, xs, k);
    CountedPrefix(cfg, xs, k);
  }

  lemma {:induction false} FirstHeaderExact(cfg: Config, s: State, xs: seq<Header>, h: Header)
    requires PresyncInv(cfg, s, xs)
    ensures PresyncHeader(cfg, s, h).Some? <==> FirstOk(cfg, xs + [h])
  {
    hide Counted, PermittedFrom, Commitments, Config.CommitsAt;
    OneMore(cfg, xs, h);
  }

  lemma {:induction false} FirstHeadersExact(cfg: Config, s: State, xs: seq<Header>, hs: seq<Header>, all: seq<Header>)
    requires PresyncInv(cfg, s, xs) && all == xs + hs
    ensures PresyncHeaders(cfg, s, hs).Some? <==> FirstOk(cfg, all)
    decreases |hs|
  {
    hide PresyncInv, PresyncHeader, FirstOk;
    PresyncIs(cfg, s, xs);
    if hs == [] {
      assert all == xs;
    } else {
      var ys := xs + [hs[0]];
      FirstHeaderExact(cfg, s, xs, hs[0]);
      if PresyncHeader(cfg, s, hs[0]).Some? {
        PresyncHeaderKeeps(cfg, s, xs, hs[0]);
        FirstHeadersExact(cfg, PresyncHeader(cfg, s, hs[0]).value, ys, hs[1..], all);
      } else if FirstOk(cfg, all) {
        assert all[..|ys|] == ys;
        FirstOkPrefix(cfg, all, |ys|);
      }
    }
  }

  lemma {:induction false} PresyncIs(cfg: Config, s: State, xs: seq<Header>)
    requires PresyncInv(cfg, s, xs)
    ensures s.Presync? && FirstOk(cfg, xs) && cfg.hash(s.last) == LastHash(cfg, cfg.StartHash(), xs)
    ensures Counted(cfg, xs) == Some((s.chain, s.work))
  {
  }

  /** A message of the first pass is accepted if and only if it continues the headers
      before it and all of them are acceptable; the second pass begins exactly when the
      work has reached the minimum. */
  lemma {:induction false} FirstMessageExact(cfg: Config, s: State, xs: seq<Header>, hs: seq<Header>, full: bool)
    requires PresyncInv(cfg, s, xs) && hs != []
    ensures var (t, out) := ProcessNextHeaders(cfg, s, hs, full);
            var all := xs + hs;
            && out.released == []
            && (out.success <==> hs[0].prev == LastHash(cfg, cfg.StartHash(), xs) && FirstOk(cfg, all))
            && (out.requestMore <==> !t.Final?)
            && (!out.success ==> t.Final?)
            && (out.success ==>
                  if Counted(cfg, all).value.1 >= cfg.minimumWork then t.Redownload?
                  else if full then PresyncInv(cfg, t, all)
                  else t.Final?)
  {
    hide PresyncInv, PresyncHeaders, FirstOk;
    var all := xs + hs;
    PresyncIs(cfg, s, xs);
    FirstHeadersExact(cfg, s, xs, hs, all);
    if PresyncHeaders(cfg, s, hs).Some? {
      PresyncHeadersKeep(cfg, s, xs, hs, all);
      PresyncIs(cfg, PresyncHeaders(cfg, s, hs).value, all);
    }
  }

  /** Every message names the last header before it. */
  predicate MessagesLink(cfg: Config, ms: seq<Message>) {
    ms == [] ||
    var n := |ms| - 1;
    (MessagesLink(cfg, ms[..n]) &&
     (ms[n].headers == [] || ms[n].headers[0].prev == LastHash(cfg, cfg.StartHash(), Concat(ms[..n]))))
  }

  /** So it is in every first pass that is not given up. */
  lemma {:induction false} FirstPassLinks(cfg: Config, ms: seq<Message>)
    requires Run(cfg, ms).state.Presync? || Switches(cfg, ms)
    ensures MessagesLink(cfg, ms) && FirstOk(cfg, Concat(ms))
  {
    hide PresyncInv, FirstOk, ProcessNextHeaders, Counted;
    if ms == [] {
      PresyncRun(cfg, []);
      PresyncIs(cfg, Run(cfg, []).state, []);
    } else {
      var n := |ms| - 1;
      var before, m := ms[..n], ms[n];
      if Run(cfg, ms).state.Presync? {
        PresyncBefore(cfg, ms);
      }
      FirstPassLinks(cfg, before);
      PresyncRun(cfg, before);
      if m.headers == [] {
        assert Concat(ms) == Concat(before);
      } else {
        FirstMessageExact(cfg, Run(cfg, before).state, Concat(before), m.headers, m.full);
      }
    }
  }

  // ----- The second pass ----------------------------------------------------------------

  /** Before the threshold the commitments are those of the first pass, in order. */
  predicate Matches(cfg: Config, xs: seq<Header>, ys: seq<Header>) {
    forall k: nat :: k <= |ys| && !Reached(cfg, ys[..k]) ==> Commitments(cfg, ys[..k]) <= Commitments(cfg, xs)
  }

  lemma {:induction false} MatchesNext(cfg: Config, xs: seq<Header>, ys: seq<Header>, h: Header)
    ensures Matches(cfg, xs, ys + [h]) <==>
            Matches(cfg, xs, ys) && (Reached(cfg, ys + [h]) || Commitments(cfg, ys + [h]) <= Commitments(cfg, xs))
  {
    hide Reached, Commitments;
    var all := ys + [h];
    assert all[..|all|] == all;
    assert forall k: nat :: k <= |ys| ==> all[..k] == ys[..k];
    if Matches(cfg, xs, all) {
      forall k: nat | k <= |ys| && !Reached(cfg, ys[..k])
        ensures Commitments(cfg, ys[..k]) <= Commitments(cfg, xs)
      {
        assert all[..k] == ys[..k];
      }
    }
  }

  /** Headers that the second pass accepts after a first pass of `xs`. */
  predicate SecondOk(cfg: Config, xs: seq<Header>, ys: seq<Header>) {
    && Linked(cfg, cfg.StartHash(), ys) && PermittedFrom(cfg, Tip(cfg.start).bits, ys)
    && Counted(cfg, ys).Some? && Matches(cfg, xs, ys)
  }

  lemma {:induction false} SecondOkPrefix(cfg: Config, xs: seq<Header>, ys: seq<Header>, n: nat)
    requires SecondOk(cfg, xs, ys) && n <= |ys|
    ensures SecondOk(cfg, xs, ys[..n])
  {
    hide Counted, Linked, PermittedFrom, Reached, Commitments;
    OkPrefix(cfg, Tip(cfg.start).bits, cfg.StartHash(), ys, n);
    CountedPrefix(cfg, ys, n);
    forall k: nat | k <= n && !Reached(cfg, ys[..n][..k])
      ensures Commitments(cfg, ys[..n][..k]) <= Commitments(cfg, xs)
    {
      assert ys[..n][..k] == ys[..k];
    }
  }

  /** Received so far in a second pass: acceptable, with the commitments still to come. */
  ghost predicate SecondInv(cfg: Config, s: State, xs: seq<Header>, ys: seq<Header>, released: seq<Header>) {
    && RedownloadInv(cfg, s, ys, released) && (s.buffer == [] ==> ys == []) && Matches(cfg, xs, ys)
    && (!s.processAll ==> Commitments(cfg, xs) == Commitments(cfg, ys) + s.commitments)
  }

  lemma {:induction false} SecondHeaderExact(
      cfg: Config, s: State, xs: seq<Header>, ys: seq<Header>, released: seq<Header>, h: Header)
    requires SecondInv(cfg, s, xs, ys, released)
    ensures RedownloadHeader(cfg, s, h).Some? <==> SecondOk(cfg, xs, ys + [h])
    ensures RedownloadHeader(cfg, s, h).Some? ==> SecondInv(cfg, RedownloadHeader(cfg, s, h).value, xs, ys + [h], released)
  {
    hide Counted, Linked, PermittedFrom, Reached, Commitments, Matches, CompressAll, Config.CommitsAt;
    OneMore(cfg, ys, h);
    MatchesNext(cfg, xs, ys, h);
    LastBits(cfg, s, ys, released);
    if !s.processAll {
      FirstOfRest(Commitments(cfg, xs), Commitments(cfg, ys), s.commitments, cfg.commitment(cfg.hash(h)));
    }
    if RedownloadHeader(cfg, s, h).Some? {
      RedownloadHeaderKeeps(cfg, s, ys, released, h);
      BufferGrows(cfg, s, h);
    }
  }

  lemma {:induction false} FirstOfRest(all: seq<bool>, a: seq<bool>, rest: seq<bool>, b: bool)
    requires all == a + rest
    ensures a <= all && (a + [b] <= all <==> rest != [] && rest[0] == b)
    ensures rest != [] && rest[0] == b ==> all == a + [b] + rest[1..]
  {
    assert all[..|a|] == a;
    if rest != [] {
      assert all[|a|] == rest[0];
      assert all[..|a| + 1] == a + [rest[0]];
    }
  }

  lemma {:induction false} SecondHeadersExact(
      cfg: Config, s: State, xs: seq<Header>, ys: seq<Header>, released: seq<Header>, hs: seq<Header>, all: seq<Header>)
    requires s.Redownload? && SecondInv(cfg, s, xs, ys, released) && all == ys + hs
    ensures hs != [] ==> (RedownloadHeaders(cfg, s, hs).Some? <==> SecondOk(cfg, xs, all))
    ensures RedownloadHeaders(cfg, s, hs).Some? ==> SecondInv(cfg, RedownloadHeaders(cfg, s, hs).value, xs, all, released)
    decreases |hs|
  {
    hide SecondInv, SecondOk, RedownloadHeader;
    if hs == [] {
      assert all == ys;
    } else {
      var zs := ys + [hs[0]];
      SecondHeaderExact(cfg, s, xs, ys, released, hs[0]);
      var r := RedownloadHeader(cfg, s, hs[0]);
      if r.Some? {
        SecondHeadersExact(cfg, r.value, xs, zs, released, hs[1..], all);
        if hs[1..] == [] {
          assert all == zs;
        }
      } else if SecondOk(cfg, xs, all) {
        assert all[..|zs|] == zs;
        SecondOkPrefix(cfg, xs, all, |zs|);
      }
    }
  }

  /** A message of the second pass is accepted if and only if all headers received so
      far are acceptable; else the sync is over and nothing of it is released. */
  lemma {:induction false} SecondMessageExact(cfg: Config, t: Trace, xs: seq<Header>, m: Message)
    requires t.state.Redownload? && !t.state.processAll && SecondInv(cfg, t.state, xs, t.received, t.released)
    requires m.headers != []
    ensures var out := ProcessNextHeaders(cfg, t.state, m.headers, m.full).1;
            var u := Step(cfg, t, m);
            var all := t.received + m.headers;
            && u.received == all && u.released == t.released + out.released
            && (out.success <==> SecondOk(cfg, xs, all))
            && (out.requestMore <==> !u.state.Final?)
            && (out.requestMore <==> out.success && m.full && !Reached(cfg, all))
            && (!out.success ==> out.released == [])
            && (out.success ==> |u.released| <= |all| && u.released == all[..|u.released|])
            && (out.success && Reached(cfg, all) ==> u.released == all)
            && (!u.state.Final? ==>
                  u.state.Redownload? && !u.state.processAll && SecondInv(cfg, u.state, xs, all, u.released))
  {
    hide SecondOk, SecondInv, RedownloadHeaders, Reached, Pop;
    var all := t.received + m.headers;
    SecondIs(cfg, t.state, xs, t.received, t.released);
    SecondHeadersExact(cfg, t.state, xs, t.received, t.released, m.headers, all);
    var r := RedownloadHeaders(cfg, t.state, m.headers);
    if r.Some? {
      SecondPop(cfg, r.value, xs, all, t.released);
    } else {
      assert t.released + [] == t.released;
    }
  }

  lemma {:induction false} SecondIs(cfg: Config, s: State, xs: seq<Header>, ys: seq<Header>, released: seq<Header>)
    requires SecondInv(cfg, s, xs, ys, released)
    ensures s.Redownload? && s.processAll == Reached(cfg, ys)
  {
    hide Counted, Linked, PermittedFrom, Reached, Commitments, Matches, CompressAll, LastHash;
  }

  lemma {:induction false} SecondPop(cfg: Config, s: State, xs: seq<Header>, ys: seq<Header>, released: seq<Header>)
    requires SecondInv(cfg, s, xs, ys, released)
    ensures var (u, hs) := Pop(cfg, s);
            && u.Redownload? && u.processAll == Reached(cfg, ys)
            && |released + hs| <= |ys| && released + hs == ys[..|released + hs|]
            && (u.processAll ==> u.buffer == [] && released + hs == ys)
            && (!u.processAll ==> SecondInv(cfg, u, xs, ys, released + hs))
  {
    hide Counted, Linked, PermittedFrom, Reached, Commitments, Matches, CompressAll, LastHash, ReadyCount, Expand;
    PopKeeps(cfg, s, ys, released);
    var (u, hs) := Pop(cfg, s);
    if !u.processAll {
      EmptyBuffer(cfg, u, ys, released + hs);
    }
  }

  /** Over every run: whatever is released after a first pass of `first` is linked,
      permitted and counted, and met all its commitments; and while the second pass goes
      on, so is all that was received, and the commitments left are the rest. */
  lemma {:induction false} CommitmentsKept(cfg: Config, first: seq<Message>, second: seq<Message>)
    requires Switches(cfg, first)
    ensures var t := Run(cfg, first + second);
            && SecondOk(cfg, Concat(first), t.released)
            && (t.state.Redownload? || t.state.Final?)
            && (t.state.Redownload? ==>
                  && !t.state.processAll && SecondInv(cfg, t.state, Concat(first), t.received, t.released)
                  && SecondOk(cfg, Concat(first), t.received)
                  && Commitments(cfg, Concat(first)) == Commitments(cfg, t.received) + t.state.commitments)
    decreases |second|
  {
    hide SecondOk, SecondInv, ProcessNextHeaders, Commitments, Reached;
    var xs := Concat(first);
    if second == [] {
      assert first + second == first;
      SecondStart(cfg, first);
    } else {
      var n := |second| - 1;
      var init, m := second[..n], second[n];
      CommitmentsKept(cfg, first, init);
      assert (first + second)[..|first + second| - 1] == first + init;
      var t := Run(cfg, first + init);
      var u := Run(cfg, first + second);
      assert u == Step(cfg, t, m);
      if t.state.Final? || m.headers == [] {
        StepIdle(cfg, t, m);
      } else {
        SecondMessageExact(cfg, t, xs, m);
        var all := t.received + m.headers;
        if ProcessNextHeaders(cfg, t.state, m.headers, m.full).1.success {
          SecondOkPrefix(cfg, xs, all, |u.released|);
          if u.state.Redownload? {
            Rest(cfg, u.state, xs, all, u.released);
          }
        } else {
          assert t.released + [] == t.released;
        }
      }
    }
  }

  lemma {:induction false} Rest(cfg: Config, s: State, xs: seq<Header>, ys: seq<Header>, released: seq<Header>)
    requires SecondInv(cfg, s, xs, ys, released) && !s.processAll
    ensures Commitments(cfg, xs) == Commitments(cfg, ys) + s.commitments
  {
  }

  lemma {:induction false} StepIdle(cfg: Config, t: Trace, m: Message)
    requires t.state.Final? || m.headers == []
    ensures var u := Step(cfg, t, m);
            u.state == t.state && u.released == t.released && (t.state.Redownload? ==> u.received == t.received)
  {
    assert t.released + [] == t.released;
    if m.headers == [] {
      assert t.received + m.headers == t.received;
    }
  }

  lemma {:induction false} SecondStart(cfg: Config, first: seq<Message>)
    requires Switches(cfg, first)
    ensures var t := Run(cfg, first);
            && t.state.Redownload? && !t.state.processAll && t.received == [] && t.released == []
            && SecondInv(cfg, t.state, Concat(first), [], []) && SecondOk(cfg, Concat(first), [])
            && Commitments(cfg, Concat(first)) == Commitments(cfg, []) + t.state.commitments
  {
    SwitchState(cfg, first);
    assert Counted(cfg, []) == Some((cfg.start, cfg.startWork));
    assert Commitments(cfg, []) == [];
  }

  /** In particular a header whose commitment is not the one of the first pass, or for
      which none is left, ends the sync before it is released. */
  lemma {:induction false} BrokenCommitmentRejected(cfg: Config, first: seq<Message>, second: seq<Message>, m: Message, k: nat)
    requires Switches(cfg, first) && Run(cfg, first + second).state.Redownload? && k <= |m.headers| && m.headers != []
    requires var ys := Run(cfg, first + second).received + m.headers[..k];
             !Reached(cfg, ys) && !(Commitments(cfg, ys) <= Commitments(cfg, Concat(first)))
    ensures var t := Run(cfg, first + second);
            var u := Run(cfg, first + second + [m]);
            u.state.Final? && u.released == t.released
            && !ProcessNextHeaders(cfg, t.state, m.headers, m.full).1.success
  {
    hide SecondInv, ProcessNextHeaders, Commitments, Reached, Counted, Linked, PermittedFrom;
    var t := Run(cfg, first + second);
    CommitmentsKept(cfg, first, second);
    var all := t.received + m.headers;
    var ys := t.received + m.headers[..k];
    assert all[..|ys|] == ys;
    SecondMessageExact(cfg, t, Concat(first), m);
    var run := first + second + [m];
    assert run[..|run| - 1] == first + second;
    assert t.released + [] == t.released;
  }
}
