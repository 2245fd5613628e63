/** The address manager: its tables and indexes, what makes them consistent, and
    its operations as functions of the state, the clock and the random choices. */
module AddrMan {
  import opened Wrappers

  const NEW_BUCKET_COUNT := 1024
  const TRIED_BUCKET_COUNT := 256
  const BUCKET_SIZE := 64
  const TRIED_BUCKETS_PER_GROUP := 8
  const NEW_BUCKETS_PER_SOURCE_GROUP := 64
  const NEW_BUCKETS_PER_ADDRESS := 8
  const HORIZON := 30 * 24 * 3600
  const RETRIES := 3
  const MAX_FAILURES := 10
  const MIN_FAIL := 7 * 24 * 3600
  const REPLACEMENT := 4 * 3600
  const TRIED_COLLISION_SIZE := 10
  const TEST_WINDOW := 40 * 60

  type Service = nat   // network address and port
  type NetAddr = nat
  type Network = nat
  type Group = nat     // network group of an address

  /** An announced address. */
  datatype Address = Address(service: Service, time: int, services: set<nat>)

  datatype Info = Info(
    addr: Service,
    source: NetAddr,
    time: int,
    services: set<nat>,
    lastTry: int,
    lastCountAttempt: int,
    lastSuccess: int,
    attempts: int,
    refCount: int,
    inTried: bool,
    randomPos: int)
  {
    predicate IsTerrible(now: int) {
      if now - lastTry <= 60 then false
      else
        || time > now + 600
        || now - time > HORIZON
        || (lastSuccess == 0 && attempts >= RETRIES)
        || (now - lastSuccess > MIN_FAIL && attempts >= MAX_FAILURES)
    }
  }

  /** The keyed hashes and the properties of addresses, left open. */
  datatype Env = Env(
    group: NetAddr -> Group,
    addressHash: Service -> nat,
    pairHash: (Group, Group) -> nat,
    groupHash: (Group, nat) -> nat,
    positionHash: (bool, nat, Service) -> nat,
    network: Service -> Network,
    netClass: Service -> Network,
    netAddr: Service -> NetAddr,
    routable: Service -> bool,
    valid: Service -> bool)
  {
    function NewBucket(a: Service, source: NetAddr): (b: nat)
      ensures b < NEW_BUCKET_COUNT
    {
      var g := group(source);
      groupHash(g, pairHash(group(netAddr(a)), g) % NEW_BUCKETS_PER_SOURCE_GROUP) % NEW_BUCKET_COUNT
    }

    function TriedBucket(a: Service): (b: nat)
      ensures b < TRIED_BUCKET_COUNT
    {
      groupHash(group(netAddr(a)), addressHash(a) % TRIED_BUCKETS_PER_GROUP) % TRIED_BUCKET_COUNT
    }

    function Position(isNew: bool, bucket: nat, a: Service): (p: nat)
      ensures p < BUCKET_SIZE
    {
      positionHash(isNew, bucket, a) % BUCKET_SIZE
    }
  }

  /** Buckets of slots; a slot holds an id or -1. */
  type Table = seq<seq<int>>

  datatype Count = Count(inNew: int, inTried: int)

  datatype State = State(
    idCount: int,
    info: map<int, Info>,
    addrs: map<Service, int>,
    random: seq<int>,
    tried: Table,
    news: Table,
    nTried: int,
    nNew: int,
    counts: map<Network, Count>,
    collisions: set<int>,
    lastGood: int)

  // ----- Consistency ----------------------------------------------------------

  predicate Shape(t: Table, buckets: nat) {
    |t| == buckets && forall b :: 0 <= b < buckets ==> |t[b]| == BUCKET_SIZE
  }

  predicate Shapes(s: State) {
    Shape(s.tried, TRIED_BUCKET_COUNT) && Shape(s.news, NEW_BUCKET_COUNT)
  }

  /** The id in the tried slot that belongs to an address. */
  function TriedAt(env: Env, s: State, a: Service): int
    requires Shapes(s)
  {
    s.tried[env.TriedBucket(a)][env.Position(false, env.TriedBucket(a), a)]
  }

  /** The id in the slot that belongs to an address within a new bucket. */
  function NewAt(env: Env, s: State, b: nat, a: Service): int
    requires Shapes(s) && b < NEW_BUCKET_COUNT
  {
    s.news[b][env.Position(true, b, a)]
  }

  /** The new buckets that hold an id. */
  function BucketsOf(env: Env, s: State, id: int): set<nat>
    requires Shapes(s) && id in s.info
  {
    set b: nat | b < NEW_BUCKET_COUNT && NewAt(env, s, b, s.info[id].addr) == id
  }

  predicate IdsOk(s: State) {
    s.idCount >= 0 && forall id <- s.info :: 0 <= id < s.idCount
  }

  /** The address index inverts the table of entries. */
  predicate AddrsOk(s: State) {
    && (forall id <- s.info :: s.info[id].addr in s.addrs && s.addrs[s.info[id].addr] == id)
    && (forall a <- s.addrs :: s.addrs[a] in s.info && s.info[s.addrs[a]].addr == a)
  }

  /** The random order lists every id once, at the position its entry names. */
  predicate RandomOk(s: State) {
    && (forall id <- s.info :: 0 <= s.info[id].randomPos < |s.random| && s.random[s.info[id].randomPos] == id)
    && (forall i :: 0 <= i < |s.random| ==> s.random[i] in s.info && s.info[s.random[i]].randomPos == i)
  }

  predicate TriedOk(env: Env, s: State)
    requires Shapes(s)
  {
    && (forall b, p :: 0 <= b < TRIED_BUCKET_COUNT && 0 <= p < BUCKET_SIZE && s.tried[b][p] != -1 ==>
          && s.tried[b][p] in s.info && s.info[s.tried[b][p]].inTried
          && env.TriedBucket(s.info[s.tried[b][p]].addr) == b
          && env.Position(false, b, s.info[s.tried[b][p]].addr) == p)
    && (forall id <- s.info :: s.info[id].inTried ==> TriedAt(env, s, s.info[id].addr) == id)
  }

  /** A used new slot holds an entry that belongs at that position of the bucket. */
  predicate SlotsOk(env: Env, s: State)
    requires Shapes(s)
  {
    forall b, p :: 0 <= b < NEW_BUCKET_COUNT && 0 <= p < BUCKET_SIZE && s.news[b][p] != -1 ==>
      && s.news[b][p] in s.info && !s.info[s.news[b][p]].inTried
      && env.Position(true, b, s.info[s.news[b][p]].addr) == p
  }

  /** Reference counts count the new buckets of an entry. */
  predicate RefsOk(env: Env, s: State)
    requires Shapes(s)
  {
    forall id <- s.info :: s.info[id].refCount == |BucketsOf(env, s, id)|
  }

  predicate NewOk(env: Env, s: State)
    requires Shapes(s)
  {
    SlotsOk(env, s) && RefsOk(env, s)
  }

  /** Tried entries are in no new bucket; the others are in one to eight, except that
      `loose` ids may be in none. */
  predicate EntriesOk(s: State, loose: set<int>) {
    forall id <- s.info ::
      var e := s.info[id];
      if e.inTried then e.refCount == 0
      else e.refCount <= NEW_BUCKETS_PER_ADDRESS && (id in loose || e.refCount >= 1)
  }

  /** No time is before the epoch, and tried entries have succeeded. This depends on
      the times that callers give. */
  predicate TimesOk(s: State) {
    forall id <- s.info ::
      var e := s.info[id]; e.lastTry >= 0 && e.lastSuccess >= 0 && (e.inTried ==> e.lastSuccess > 0)
  }

  function IdsIn(s: State, tried: bool): set<int> {
    set id | id in s.info && s.info[id].inTried == tried
  }

  function IdsOfNetwork(env: Env, s: State, tried: bool, net: Network): set<int> {
    set id | id in s.info && s.info[id].inTried == tried && env.network(s.info[id].addr) == net
  }

  function CountOf(s: State, net: Network): Count {
    if net in s.counts then s.counts[net] else Count(0, 0)
  }

  /** The counters count the entries, except that `limbo` ids are not counted. */
  ghost predicate CountsOk(env: Env, s: State, limbo: set<int>) {
    && s.nNew == |IdsIn(s, false) - limbo|
    && s.nTried == |IdsIn(s, true)|
    && forall net: Network ::
         CountOf(s, net) == Count(|IdsOfNetwork(env, s, false, net) - limbo|, |IdsOfNetwork(env, s, true, net)|)
  }

  /** A recorded collision is with an occupied tried slot. */
  predicate CollisionsOk(env: Env, s: State)
    requires Shapes(s)
  {
    forall id <- s.collisions :: id < s.idCount && (id in s.info ==> TriedAt(env, s, s.info[id].addr) != -1)
  }

  /** The indexes agree, but for `loose` ids without a bucket and `limbo` ids that
      no counter counts: the states inside an operation. */
  ghost predicate Sound(env: Env, s: State, loose: set<int>, limbo: set<int>) {
    && Shapes(s) && IdsOk(s) && AddrsOk(s) && RandomOk(s) && TriedOk(env, s) && NewOk(env, s)
    && EntriesOk(s, loose) && CountsOk(env, s, limbo)
  }

  /** The state between operations. */
  ghost predicate Consistent(env: Env, s: State) {
    Sound(env, s, {}, {}) && CollisionsOk(env, s)
  }

  /** What only grows: ids are never reused, an id keeps its address, and an
      occupied tried slot stays occupied. */
  predicate Evolves(s: State, t: State)
    requires Shapes(s) && Shapes(t)
  {
    && s.idCount <= t.idCount
    && (forall id <- t.info :: id < s.idCount ==> id in s.info && t.info[id].addr == s.info[id].addr)
    && (forall b, p :: 0 <= b < TRIED_BUCKET_COUNT && 0 <= p < BUCKET_SIZE && s.tried[b][p] != -1 ==> t.tried[b][p] != -1)
  }

  // ----- Primitive operations ---------------------------------------------------

  function EmptyState(): State {
    State(0, map[], map[], [],
          seq(TRIED_BUCKET_COUNT, _ => seq(BUCKET_SIZE, _ => -1)),
          seq(NEW_BUCKET_COUNT, _ => seq(BUCKET_SIZE, _ => -1)),
          0, 0, map[], {}, 1)
  }

  function Put(t: Table, b: nat, p: nat, id: int): Table
    requires b < |t| && p < |t[b]|
  {
    t[b := t[b][p := id]]
  }

  function AddCount(s: State, net: Network, dNew: int, dTried: int): map<Network, Count> {
    var c := CountOf(s, net);
    s.counts[net := Count(c.inNew + dNew, c.inTried + dTried)]
  }

  function Find(s: State, a: Service): Option<int> {
    if a in s.addrs && s.addrs[a] in s.info then Some(s.addrs[a]) else None
  }

  function Create(env: Env, s: State, a: Address, source: NetAddr): State {
    var id := s.idCount;
    s.(idCount := id + 1,
       info := s.info[id := Info(a.service, source, a.time, a.services, 0, 0, 0, 0, 0, false, |s.random|)],
       addrs := s.addrs[a.service := id],
       random := s.random + [id],
       nNew := s.nNew + 1,
       counts := AddCount(s, env.network(a.service), 1, 0))
  }

  function SwapRandom(s: State, i: nat, j: nat): State
    requires i < |s.random| && j < |s.random| && s.random[i] in s.info && s.random[j] in s.info
  {
    if i == j then s else
      var x, y := s.random[i], s.random[j];
      var info := s.info[x := s.info[x].(randomPos := j)];
      s.(random := s.random[i := y][j := x], info := info[y := info[y].(randomPos := i)])
  }

  /** Delete asserts that the entry exists, is not tried and has no references. */
  predicate Deletable(s: State, id: int) {
    && id in s.info && !s.info[id].inTried && s.info[id].refCount == 0
    && 0 <= s.info[id].randomPos < |s.random|
    && s.random[s.info[id].randomPos] in s.info && s.random[|s.random| - 1] in s.info
  }

  function Delete(env: Env, s: State, id: int): State
    requires Deletable(s, id)
  {
    var a := s.info[id].addr;
    var t := SwapRandom(s, s.info[id].randomPos, |s.random| - 1);
    t.(counts := AddCount(s, env.network(a), -1, 0),
       random := t.random[..|t.random| - 1],
       addrs := t.addrs - {a},
       info := t.info - {id},
       nNew := t.nNew - 1)
  }

  /** Drop one reference of the entry in a new slot, before it may be deleted. */
  function Unlink(s: State, b: nat, p: nat): State
    requires Shapes(s) && b < NEW_BUCKET_COUNT && p < BUCKET_SIZE && s.news[b][p] in s.info
  {
    var id := s.news[b][p];
    s.(info := s.info[id := s.info[id].(refCount := s.info[id].refCount - 1)], news := Put(s.news, b, p, -1))
  }

  predicate Clearable(s: State, b: nat, p: nat)
    requires Shapes(s) && b < NEW_BUCKET_COUNT && p < BUCKET_SIZE
  {
    var id := s.news[b][p];
    id != -1 ==> && id in s.info && s.info[id].refCount > 0
                 && (s.info[id].refCount == 1 ==> Deletable(Unlink(s, b, p), id))
  }

  function ClearNew(env: Env, s: State, b: nat, p: nat): State
    requires Shapes(s) && b < NEW_BUCKET_COUNT && p < BUCKET_SIZE && Clearable(s, b, p)
  {
    var id := s.news[b][p];
    if id == -1 then s else
      var t := Unlink(s, b, p);
      if t.info[id].refCount == 0 then Delete(env, t, id) else t
  }

  /** Enter an entry into an empty new slot. */
  function Link(s: State, b: nat, p: nat, id: int): State
    requires Shapes(s) && b < NEW_BUCKET_COUNT && p < BUCKET_SIZE && id in s.info
  {
    s.(info := s.info[id := s.info[id].(refCount := s.info[id].refCount + 1)], news := Put(s.news, b, p, id))
  }

  // ----- The steps of moving an entry to the tried table ---------------------------

  /** Stop counting an entry as new. */
  function Uncount(env: Env, s: State, id: int): State
    requires id in s.info
  {
    s.(nNew := s.nNew - 1, counts := AddCount(s, env.network(s.info[id].addr), -1, 0))
  }

  /** Take the entry in a tried slot out of the tried table. */
  function Evict(env: Env, s: State, b: nat, p: nat): State
    requires Shapes(s) && b < TRIED_BUCKET_COUNT && p < BUCKET_SIZE && s.tried[b][p] in s.info
  {
    var id := s.tried[b][p];
    s.(info := s.info[id := s.info[id].(inTried := false)],
       tried := Put(s.tried, b, p, -1),
       nTried := s.nTried - 1,
       counts := AddCount(s, env.network(s.info[id].addr), 0, -1))
  }

  /** Count an entry as new again. */
  function Recount(env: Env, s: State, id: int): State
    requires id in s.info
  {
    s.(nNew := s.nNew + 1, counts := AddCount(s, env.network(s.info[id].addr), 1, 0))
  }

  /** Enter an entry into its empty tried slot. */
  function Place(env: Env, s: State, id: int): State
    requires Shapes(s) && id in s.info
  {
    var a := s.info[id].addr;
    var b := env.TriedBucket(a);
    s.(tried := Put(s.tried, b, env.Position(false, b, a), id),
       nTried := s.nTried + 1,
       info := s.info[id := s.info[id].(inTried := true)],
       counts := AddCount(s, env.network(a), 0, 1))
  }
}
