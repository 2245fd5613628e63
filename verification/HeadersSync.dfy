/** The two-pass download of a header chain: PRESYNC stores one commitment bit
    per period, REDOWNLOAD checks them and releases headers from a lookahead
    buffer. The protocol as functions on its state. */
module HeadersSync {
  import opened Wrappers
  import opened HeadersWork

  const HEADER_COMMITMENT_PERIOD := 606
  const REDOWNLOAD_BUFFER_SIZE := 14441
  const TWO_256 := 0x1_0000_0000_0000_0000_0000_0000_0000_0000_0000_0000_0000_0000_0000_0000_0000_0000

  /** Sums of work wrap around like 256-bit unsigned integers. */
  function AddWork(a: nat, b: nat): nat {
    (a + b) % TWO_256
  }

  /** What is fixed for one sync: the fork point, the threshold, the secret
      commitment offset and salted hash, and the memory bound. */
  datatype Config = Config(
    headerWork: (Chain, Header) -> Option<nat>,
    hash: Header -> Hash,
    commitment: Hash -> bool,
    permitted: (int, nat, nat) -> bool,
    offset: nat,
    maxCommitments: nat,
    start: Chain,
    startHeader: Header,
    startWork: nat,
    minimumWork: nat)
  {
    function StartHash(): Hash {
      hash(startHeader)
    }

    function StartHeight(): int {
      Tip(start).height
    }

    predicate CommitsAt(height: int) {
      height % HEADER_COMMITMENT_PERIOD == offset
    }
  }

  /** A header without its previous hash. */
  datatype CompressedHeader = CompressedHeader(version: int, merkle: Hash, time: nat, bits: nat, nonce: nat) {
    function GetFullHeader(prev: Hash): Header {
      Header(version, prev, merkle, time, bits, nonce)
    }
  }

  function Compress(h: Header): CompressedHeader {
    CompressedHeader(h.version, h.merkle, h.time, h.bits, h.nonce)
  }

  datatype State =
    | Presync(
        chain: Chain,                  // the chain counted so far by the work state
        commitments: seq<bool>,
        last: Header,
        height: int,
        work: nat)
    | Redownload(
        chain: Chain,
        commitments: seq<bool>,
        buffer: seq<CompressedHeader>,
        lastHeight: int,
        lastHash: Hash,
        firstPrevHash: Hash,
        work: nat,
        processAll: bool)
    | Final

  datatype Outcome = Outcome(success: bool, requestMore: bool, released: seq<Header>)

  function Initial(cfg: Config): State {
    Presync(cfg.start, [], cfg.startHeader, cfg.StartHeight(), cfg.startWork)
  }

  // ----- PRESYNC ------------------------------------------------------------

  /** ValidateAndProcessSingleHeader; None is the return value false. */
  function PresyncHeader(cfg: Config, s: State, h: Header): (r: Option<State>)
    requires s.Presync?
    ensures r.Some? ==> r.value.Presync?
  {
    var next := s.height + 1;
    if !cfg.permitted(next, s.last.bits, h.bits) then None else
      var commitments :=
        if cfg.CommitsAt(next) then s.commitments + [cfg.commitment(cfg.hash(h))] else s.commitments;
      if cfg.CommitsAt(next) && |commitments| > cfg.maxCommitments then None else
        match cfg.headerWork(s.chain, h)
        case None => None
        case Some(w) =>
          Some(Presync(s.chain + [NextBlock(s.chain, h)], commitments, h, next, AddWork(s.work, w)))
  }

  function PresyncHeaders(cfg: Config, s: State, hs: seq<Header>): (r: Option<State>)
    requires s.Presync?
    ensures r.Some? ==> r.value.Presync?
    decreases |hs|
  {
    if hs == [] then Some(s) else
      match PresyncHeader(cfg, s, hs[0])
      case None => None
      case Some(t) => PresyncHeaders(cfg, t, hs[1..])
  }

  function StartRedownload(cfg: Config, s: State): State
    requires s.Presync?
  {
    Redownload(cfg.start, s.commitments, [], cfg.StartHeight(), cfg.StartHash(), cfg.StartHash(), cfg.startWork, false)
  }

  /** ValidateAndStoreHeadersCommitments on a non-empty message. */
  function PresyncMessage(cfg: Config, s: State, hs: seq<Header>): Option<State>
    requires s.Presync? && hs != []
  {
    if hs[0].prev != cfg.hash(s.last) then None else
      match PresyncHeaders(cfg, s, hs)
      case None => None
      case Some(t) => Some(if t.work >= cfg.minimumWork then StartRedownload(cfg, t) else t)
  }

  // ----- REDOWNLOAD -----------------------------------------------------------

  function PreviousBits(cfg: Config, s: State): nat
    requires s.Redownload?
  {
    if s.buffer == [] then Tip(cfg.start).bits else s.buffer[|s.buffer| - 1].bits
  }

  /** ValidateAndStoreRedownloadedHeader; None is the return value false. */
  function RedownloadHeader(cfg: Config, s: State, h: Header): (r: Option<State>)
    requires s.Redownload?
    ensures r.Some? ==> r.value.Redownload?
  {
    var next := s.lastHeight + 1;
    if h.prev != s.lastHash then None
    else if !cfg.permitted(next, PreviousBits(cfg, s), h.bits) then None
    else
      match cfg.headerWork(s.chain, h)
      case None => None
      case Some(w) =>
        var work := AddWork(s.work, w);
        var all := s.processAll || work >= cfg.minimumWork;
        var check := !all && cfg.CommitsAt(next);
        if check && (s.commitments == [] || s.commitments[0] != cfg.commitment(cfg.hash(h))) then None
        else
          Some(Redownload(
                 s.chain + [NextBlock(s.chain, h)],
                 if check then s.commitments[1..] else s.commitments,
                 s.buffer + [Compress(h)], next, cfg.hash(h), s.firstPrevHash, work, all))
  }

  function RedownloadHeaders(cfg: Config, s: State, hs: seq<Header>): (r: Option<State>)
    requires s.Redownload?
    ensures r.Some? ==> r.value.Redownload?
    decreases |hs|
  {
    if hs == [] then Some(s) else
      match RedownloadHeader(cfg, s, hs[0])
      case None => None
      case Some(t) => RedownloadHeaders(cfg, t, hs[1..])
  }

  /** How many buffered headers are ready: all once the work is shown, else
      those beyond the lookahead. */
  function ReadyCount(s: State): (n: nat)
    requires s.Redownload?
    ensures n <= |s.buffer|
  {
    if s.processAll then |s.buffer|
    else if |s.buffer| > REDOWNLOAD_BUFFER_SIZE then |s.buffer| - REDOWNLOAD_BUFFER_SIZE
    else 0
  }

  /** Restore full headers by hashing forward from the first previous hash. */
  function Expand(cfg: Config, prev: Hash, cs: seq<CompressedHeader>): (hs: seq<Header>)
    ensures |hs| == |cs|
    decreases |cs|
  {
    if cs == [] then [] else
      var h := cs[0].GetFullHeader(prev);
      [h] + Expand(cfg, cfg.hash(h), cs[1..])
  }

  /** The hash a header following `hs` names, if `prev` comes before them. */
  function LastHash(cfg: Config, prev: Hash, hs: seq<Header>): Hash {
    if hs == [] then prev else cfg.hash(hs[|hs| - 1])
  }

  lemma {:induction false} ExpandAppend(cfg: Config, prev: Hash, cs: seq<CompressedHeader>, c: CompressedHeader)
    ensures var hs := Expand(cfg, prev, cs);
            Expand(cfg, prev, cs + [c]) == hs + [c.GetFullHeader(LastHash(cfg, prev, hs))]
    decreases |cs|
  {
    if cs == [] {
      assert cs + [c] == [c];
    } else {
      var h := cs[0].GetFullHeader(prev);
      ExpandAppend(cfg, cfg.hash(h), cs[1..], c);
      assert (cs + [c])[1..] == cs[1..] + [c];
    }
  }

  /** PopHeadersReadyForAcceptance. */
  function Pop(cfg: Config, s: State): (State, seq<Header>)
    requires s.Redownload?
  {
    var n := ReadyCount(s);
    var hs := Expand(cfg, s.firstPrevHash, s.buffer[..n]);
    (s.(buffer := s.buffer[n..], firstPrevHash := LastHash(cfg, s.firstPrevHash, hs)), hs)
  }

  // ----- Messages ---------------------------------------------------------------

  /** ProcessNextHeaders. */
  function ProcessNextHeaders(cfg: Config, s: State, hs: seq<Header>, full: bool): (State, Outcome) {
    if hs == [] || s.Final? then (s, Outcome(false, false, []))
    else if s.Presync? then
      match PresyncMessage(cfg, s, hs)
      case None => (Final, Outcome(false, false, []))
      case Some(t) =>
        var more := full || t.Redownload?;
        (if more then t else Final, Outcome(true, more, []))
    else
      match RedownloadHeaders(cfg, s, hs)
      case None => (Final, Outcome(false, false, []))
      case Some(t) =>
        var (u, released) := Pop(cfg, t);
        var more := !(u.buffer == [] && u.processAll) && full;
        (if more then u else Final, Outcome(true, more, released))
  }
}
