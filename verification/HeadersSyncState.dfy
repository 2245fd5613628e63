/** The header sync as an object that is fed messages. Its methods are proved to
    take it from one protocol state to the one the functions of HeadersSync name. */
module HeadersSyncState {
  import opened Wrappers
  import opened HeadersWork
  import opened HeadersSync

  datatype Phase = PRESYNC | REDOWNLOAD | FINAL

  /** The result of folding a message, header by header. */
  lemma {:induction false} PresyncOneMore(cfg: Config, s: State, hs: seq<Header>, i: nat)
    requires s.Presync? && i < |hs|
    ensures match PresyncHeaders(cfg, s, hs[..i])
            case None => PresyncHeaders(cfg, s, hs) == None
            case Some(t) => PresyncHeaders(cfg, s, hs[..i + 1]) == PresyncHeader(cfg, t, hs[i])
                            && (PresyncHeader(cfg, t, hs[i]) == None ==> PresyncHeaders(cfg, s, hs) == None)
    decreases i
  {
    if i == 0 {
      assert hs[..1] == [hs[0]] && hs[..1][1..] == [];
    } else {
      match PresyncHeader(cfg, s, hs[0])
      case None =>
      case Some(t) =>
        PresyncOneMore(cfg, t, hs[1..], i - 1);
        assert hs[..i][1..] == hs[1..][..i - 1] && hs[..i + 1][1..] == hs[1..][..i];
    }
  }

  lemma {:induction false} RedownloadOneMore(cfg: Config, s: State, hs: seq<Header>, i: nat)
    requires s.Redownload? && i < |hs|
    ensures match RedownloadHeaders(cfg, s, hs[..i])
            case None => RedownloadHeaders(cfg, s, hs) == None
            case Some(t) => RedownloadHeaders(cfg, s, hs[..i + 1]) == RedownloadHeader(cfg, t, hs[i])
                            && (RedownloadHeader(cfg, t, hs[i]) == None ==> RedownloadHeaders(cfg, s, hs) == None)
    decreases i
  {
    if i == 0 {
      assert hs[..1] == [hs[0]] && hs[..1][1..] == [];
    } else {
      match RedownloadHeader(cfg, s, hs[0])
      case None =>
      case Some(t) =>
        RedownloadOneMore(cfg, t, hs[1..], i - 1);
        assert hs[..i][1..] == hs[1..][..i - 1] && hs[..i + 1][1..] == hs[1..][..i];
    }
  }

  class HeadersSyncState {
    const cfg: Config
    const params: Params
    var downloadState: Phase
    var headerWork: HeadersWorkState?
    var currentChainWork: nat
    var headerCommitments: seq<bool>
    var lastHeaderReceived: Header
    var currentHeight: int
    var redownloadedHeaders: seq<CompressedHeader>
    var redownloadBufferLastHeight: int
    var redownloadBufferLastHash: Hash
    var redownloadBufferFirstPrevHash: Hash
    var redownloadChainWork: nat
    var processAllRemainingHeaders: bool

    /** The configuration counts work by the consensus parameters of the object. */
    ghost predicate Configured() {
      params.Ordered() && forall c: Chain, h :: cfg.headerWork(c, h) == HeaderWork(params, c, h)
    }

    lemma {:induction false} WorkOf(c: Chain, h: Header)
      requires Configured()
      ensures cfg.headerWork(c, h) == HeaderWork(params, c, h)
    {
    }

    lemma {:induction false} InOrder()
      requires Configured()
      ensures params.Ordered()
    {
    }

    ghost predicate Valid()
      reads this, headerWork
    {
      && Configured()
      && (downloadState != FINAL ==> headerWork != null && headerWork.Valid()
                                     && headerWork.p == params && headerWork.chainStart == cfg.start)
      && (downloadState == PRESYNC ==> !processAllRemainingHeaders)
      && (downloadState == FINAL ==> headerCommitments == [] && redownloadedHeaders == [])
    }

    ghost function Model(): State
      requires Valid()
      reads this, headerWork
    {
      match downloadState
      case PRESYNC =>
        Presync(headerWork.chain, headerCommitments, lastHeaderReceived, currentHeight, currentChainWork)
      case REDOWNLOAD =>
        Redownload(headerWork.chain, headerCommitments, redownloadedHeaders, redownloadBufferLastHeight,
                   redownloadBufferLastHash, redownloadBufferFirstPrevHash, redownloadChainWork,
                   processAllRemainingHeaders)
      case FINAL => Final
    }

    constructor (config: Config, consensus: Params)
      requires consensus.Ordered() && forall c: Chain, h :: config.headerWork(c, h) == HeaderWork(consensus, c, h)
      ensures Valid() && fresh(headerWork) && cfg == config && Model() == Initial(config)
    {
      cfg := config;
      params := consensus;
      downloadState := PRESYNC;
      headerWork := new HeadersWorkState(consensus, config.start);
      currentChainWork := config.startWork;
      headerCommitments := [];
      lastHeaderReceived := config.startHeader;
      currentHeight := config.StartHeight();
      redownloadedHeaders := [];
      redownloadBufferLastHeight := 0;
      redownloadBufferLastHash := 0;
      redownloadBufferFirstPrevHash := 0;
      redownloadChainWork := 0;
      processAllRemainingHeaders := false;
    }

    /** Free the memory in use and mark the object as no longer usable. */
    method Finalize()
      requires Configured()
      modifies this
      ensures Valid() && Model() == Final && headerWork == null
    {
      headerCommitments := [];
      lastHeaderReceived := Header(0, 0, 0, 0, 0, 0);
      redownloadedHeaders := [];
      headerWork := null;
      redownloadBufferLastHash := 0;
      redownloadBufferFirstPrevHash := 0;
      processAllRemainingHeaders := false;
      currentHeight := 0;
      downloadState := FINAL;
    }

    method ValidateAndProcessSingleHeader(current: Header) returns (ok: bool)
      requires Valid() && downloadState == PRESYNC
      modifies this, headerWork
      ensures Configured() && headerWork == old(headerWork)
      ensures match PresyncHeader(cfg, old(Model()), current)
              case Some(t) => ok && Valid() && Model() == t
              case None => !ok
    {
      hide HeaderWork, HeadersWorkState.Valid, Configured, Config.CommitsAt, AddWork, NextBlock, Compress;
      var nextHeight := currentHeight + 1;
      if !cfg.permitted(nextHeight, lastHeaderReceived.bits, current.bits) {
        return false;
      }
      if cfg.CommitsAt(nextHeight) {
        headerCommitments := headerCommitments + [cfg.commitment(cfg.hash(current))];
        if |headerCommitments| > cfg.maxCommitments {
          return false;
        }
      }
      WorkOf(headerWork.chain, current);
      var work := headerWork.AddHeader(current);
      if work.None? {
        return false;
      }
      currentChainWork := AddWork(currentChainWork, work.value);
      lastHeaderReceived := current;
      currentHeight := nextHeight;
      ok := true;
    }

    method ValidateAndStoreHeadersCommitments(headers: seq<Header>) returns (ok: bool)
      requires Valid() && downloadState == PRESYNC && headers != []
      modifies this, headerWork
      ensures Configured() && (headerWork == old(headerWork) || fresh(headerWork))
      ensures match PresyncMessage(cfg, old(Model()), headers)
              case Some(t) => ok && Valid() && Model() == t
              case None => !ok
    {
      hide HeaderWork, HeadersWorkState.Valid, Configured, PresyncHeader;
      if headers[0].prev != cfg.hash(lastHeaderReceived) {
        return false;
      }
      ghost var before := Model();
      for i := 0 to |headers|
        invariant Valid() && downloadState == PRESYNC && headerWork == old(headerWork)
        invariant PresyncHeaders(cfg, before, headers[..i]) == Some(Model())
      {
        PresyncOneMore(cfg, before, headers, i);
        ok := ValidateAndProcessSingleHeader(headers[i]);
        if !ok {
          return false;
        }
      }
      assert headers[..|headers|] == headers;
      if currentChainWork >= cfg.minimumWork {
        StartRedownload();
      }
      ok := true;
    }

    /** Begin the second pass at the fork point, with the commitments stored. */
    method StartRedownload()
      requires Valid() && downloadState == PRESYNC
      modifies this
      ensures Valid() && fresh(headerWork) && Model() == HeadersSync.StartRedownload(cfg, old(Model()))
    {
      hide HeadersWorkState.Valid, Configured;
      InOrder();
      redownloadedHeaders := [];
      redownloadBufferLastHeight := cfg.StartHeight();
      redownloadBufferFirstPrevHash := cfg.StartHash();
      redownloadBufferLastHash := cfg.StartHash();
      redownloadChainWork := cfg.startWork;
      headerWork := new HeadersWorkState(params, cfg.start);
      downloadState := REDOWNLOAD;
    }

    method ValidateAndStoreRedownloadedHeader(header: Header) returns (ok: bool)
      requires Valid() && downloadState == REDOWNLOAD
      modifies this, headerWork
      ensures Configured() && headerWork == old(headerWork)
      ensures match RedownloadHeader(cfg, old(Model()), header)
              case Some(t) => ok && Valid() && Model() == t
              case None => !ok
    {
      hide HeaderWork, HeadersWorkState.Valid, Configured, Config.CommitsAt, AddWork, NextBlock, Compress;
      var nextHeight := redownloadBufferLastHeight + 1;
      if header.prev != redownloadBufferLastHash {
        return false;
      }
      var previousBits;
      if redownloadedHeaders != [] {
        previousBits := redownloadedHeaders[|redownloadedHeaders| - 1].bits;
      } else {
        previousBits := Tip(cfg.start).bits;
      }
      if !cfg.permitted(nextHeight, previousBits, header.bits) {
        return false;
      }
      ok := CountRedownloaded(header);
      if !ok {
        return false;
      }
      ok := CheckCommitment(header, nextHeight);
      if !ok {
        return false;
      }
      redownloadedHeaders := redownloadedHeaders + [Compress(header)];
      redownloadBufferLastHeight := nextHeight;
      redownloadBufferLastHash := cfg.hash(header);
    }

    /** Add the work of a header, and see whether it is enough. */
    method CountRedownloaded(header: Header) returns (ok: bool)
      requires Valid() && downloadState == REDOWNLOAD
      modifies headerWork, this`redownloadChainWork, this`processAllRemainingHeaders
      ensures match cfg.headerWork(old(headerWork.chain), header)
              case None => !ok
              case Some(w) =>
                && ok && Valid() && headerWork.chain == old(headerWork.chain) + [NextBlock(old(headerWork.chain), header)]
                && redownloadChainWork == AddWork(old(redownloadChainWork), w)
                && processAllRemainingHeaders == (old(processAllRemainingHeaders) || redownloadChainWork >= cfg.minimumWork)
    {
      hide HeaderWork, HeadersWorkState.Valid, Configured, AddWork, NextBlock;
      WorkOf(headerWork.chain, header);
      var work := headerWork.AddHeader(header);
      if work.None? {
        return false;
      }
      redownloadChainWork := AddWork(redownloadChainWork, work.value);
      if redownloadChainWork >= cfg.minimumWork {
        processAllRemainingHeaders := true;
      }
      ok := true;
    }

    /** Where a commitment is due, take the next one and compare it. */
    method CheckCommitment(header: Header, height: int) returns (ok: bool)
      modifies this`headerCommitments
      ensures var due := !processAllRemainingHeaders && cfg.CommitsAt(height);
              var was := old(headerCommitments);
              && ok == (due ==> was != [] && was[0] == cfg.commitment(cfg.hash(header)))
              && (ok ==> headerCommitments == if due then was[1..] else was)
    {
      if !processAllRemainingHeaders && cfg.CommitsAt(height) {
        if |headerCommitments| == 0 {
          return false;
        }
        var expected := headerCommitments[0];
        headerCommitments := headerCommitments[1..];
        if cfg.commitment(cfg.hash(header)) != expected {
          return false;
        }
      }
      ok := true;
    }

    method PopHeadersReadyForAcceptance() returns (ret: seq<Header>)
      requires Valid() && downloadState == REDOWNLOAD
      modifies this
      ensures Valid() && downloadState == REDOWNLOAD && headerWork == old(headerWork)
      ensures (Model(), ret) == Pop(cfg, old(Model()))
    {
      hide HeaderWork, HeadersWorkState.Valid, Expand;
      ret := [];
      ghost var buffer, prev := redownloadedHeaders, redownloadBufferFirstPrevHash;
      assert Expand(cfg, prev, buffer[..0]) == [];
      while |redownloadedHeaders| > REDOWNLOAD_BUFFER_SIZE || (|redownloadedHeaders| > 0 && processAllRemainingHeaders)
        invariant Valid() && downloadState == REDOWNLOAD && headerWork == old(headerWork)
        invariant |ret| <= ReadyCount(old(Model()))
        invariant redownloadedHeaders == buffer[|ret|..] && ret == Expand(cfg, prev, buffer[..|ret|])
        invariant Model() == old(Model()).(buffer := redownloadedHeaders, firstPrevHash := LastHash(cfg, prev, ret))
        decreases |redownloadedHeaders|
      {
        ExpandAppend(cfg, prev, buffer[..|ret|], buffer[|ret|]);
        assert buffer[..|ret|] + [buffer[|ret|]] == buffer[..|ret| + 1];
        var next := redownloadedHeaders[0].GetFullHeader(redownloadBufferFirstPrevHash);
        ret := ret + [next];
        redownloadedHeaders := redownloadedHeaders[1..];
        redownloadBufferFirstPrevHash := cfg.hash(next);
      }
    }

    /** Process the next message of the peer. */
    method ProcessNextHeaders(headers: seq<Header>, fullMessage: bool) returns (out: Outcome)
      requires Valid()
      modifies this, headerWork
      ensures Valid() && (headerWork == null || headerWork == old(headerWork) || fresh(headerWork))
      ensures (Model(), out) == HeadersSync.ProcessNextHeaders(cfg, old(Model()), headers, fullMessage)
    {
      hide HeaderWork, HeadersWorkState.Valid, PresyncHeader, RedownloadHeader, PresyncMessage, Pop;
      out := Outcome(false, false, []);
      if headers == [] || downloadState == FINAL {
        return;
      }
      if downloadState == PRESYNC {
        var ok := ValidateAndStoreHeadersCommitments(headers);
        if ok {
          out := Outcome(true, fullMessage || downloadState == REDOWNLOAD, []);
        }
      } else {
        ghost var before := Model();
        var ok := true;
        var i := 0;
        while i < |headers| && ok
          invariant i <= |headers| && Configured() && headerWork == old(headerWork)
          invariant ok ==> Valid() && downloadState == REDOWNLOAD
          invariant ok ==> RedownloadHeaders(cfg, before, headers[..i]) == Some(Model())
          invariant !ok ==> RedownloadHeaders(cfg, before, headers) == None
        {
          RedownloadOneMore(cfg, before, headers, i);
          ok := ValidateAndStoreRedownloadedHeader(headers[i]);
          i := i + 1;
        }
        if ok {
          assert headers[..|headers|] == headers;
          var ready := PopHeadersReadyForAcceptance();
          var done := redownloadedHeaders == [] && processAllRemainingHeaders;
          out := Outcome(true, !done && fullMessage, ready);
        }
      }
      if !(out.success && out.requestMore) {
        Finalize();
      }
    }
  }
}
