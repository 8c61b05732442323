/** The peer registry: one record per WireGuard key, with address allocation, sessions and rekeys. */
module PeerRegistry {
  import opened Bytes
  import opened Kem

  const HOST_MIN: nat := 2
  const HOST_MAX: nat := 254
  const POOL_SIZE: nat := 253

  /** Times are nanoseconds since the Unix epoch. */
  datatype Peer = Peer(
    wgPubkey: Bytes32, assignedIp: Bytes4, sessionId: Bytes16, algo: Level,
    created: int, lastActivity: int, rekeys: U32)

  datatype PeerSlot = PeerSlot(sessionId: Bytes16, assignedIp: Bytes4)

  datatype RegistryError = AtCapacity | UnknownPeer | SessionMismatch | Downgrade | AddressPoolExhausted

  type Peers = map<Bytes32, Peer>

  type Answer = Result<PeerSlot, RegistryError>

  datatype Settings = Settings(subnetBase: Bytes4, maxPeers: nat) {
    predicate Valid() {
      maxPeers <= POOL_SIZE
    }
  }

  /** The settings `new` and `load` keep: `max_peers` clamped to the pool size. */
  function Clamped(subnetBase: Bytes4, maxPeers: nat): (s: Settings)
    ensures s.Valid() && s.subnetBase == subnetBase
    ensures s.maxPeers <= maxPeers && (s.maxPeers == maxPeers || s.maxPeers == 253 < maxPeers)
  {
    Settings(subnetBase, if maxPeers < POOL_SIZE then maxPeers else POOL_SIZE)
  }

  // ---- specification --------------------------------------------------------------------

  function Host(p: Peer): Byte {
    p.assignedIp[3]
  }

  function TakenHosts(peers: Peers): set<Byte> {
    set k | k in peers :: Host(peers[k])
  }

  /** The first host from `host` up to HOST_MAX that is not taken. */
  function FirstFree(taken: set<Byte>, host: nat): (r: Option<Byte>)
    ensures r.Some? ==> host <= r.value <= HOST_MAX && r.value !in taken
    ensures r.Some? ==> forall h: Byte :: host <= h < r.value ==> h in taken
    ensures r.None? ==> forall h: Byte :: host <= h <= HOST_MAX ==> h in taken
    decreases HOST_MAX + 1 - host
  {
    if host > HOST_MAX then None
    else if host !in taken then Some(host)
    else FirstFree(taken, host + 1)
  }

  function Address(s: Settings, host: Byte): Bytes4 {
    s.subnetBase[..3] + [host]
  }

  function Alloc(s: Settings, peers: Peers): Option<Bytes4> {
    match FirstFree(TakenHosts(peers), HOST_MIN)
    case Some(host) => Some(Address(s, host))
    case None => None
  }

  function Upsert(s: Settings, peers: Peers, key: Bytes32, algo: Level, sessionId: Bytes16, now: int): (Peers, Answer) {
    if key in peers then
      var p := peers[key];
      (peers[key := p.(sessionId := sessionId, algo := algo, lastActivity := now, rekeys := 0)],
       Ok(PeerSlot(sessionId, p.assignedIp)))
    else if |peers| >= s.maxPeers then (peers, Err(AtCapacity))
    else match Alloc(s, peers)
      case None => (peers, Err(AddressPoolExhausted))
      case Some(ip) =>
        (peers[key := Peer(key, ip, sessionId, algo, now, now, 0)], Ok(PeerSlot(sessionId, ip)))
  }

  /** `rekeys += 1` on a u32, without overflow checks. */
  function Increment(n: U32): U32 {
    (n + 1) % 0x1_0000_0000
  }

  function Rekey(peers: Peers, key: Bytes32, sessionId: Bytes16, algo: Level, now: int): (Peers, Answer) {
    if key !in peers then (peers, Err(UnknownPeer))
    else
      var p := peers[key];
      if p.sessionId != sessionId then (peers, Err(SessionMismatch))
      else if algo.WeakerThan(p.algo) then (peers, Err(Downgrade))
      else
        (peers[key := p.(algo := algo, rekeys := Increment(p.rekeys), lastActivity := now)],
         Ok(PeerSlot(p.sessionId, p.assignedIp)))
  }

  function Touch(peers: Peers, key: Bytes32, now: int): Peers {
    if key in peers then peers[key := peers[key].(lastActivity := now)] else peers
  }

  /** Idle: strictly longer than `timeout` since the last activity, which must not lie in the future. */
  predicate Idle(p: Peer, timeout: nat, now: int) {
    p.lastActivity <= now && now - p.lastActivity > timeout
  }

  // ---- the registry object -----------------------------------------------------------------

  class Registry {
    const settings: Settings
    var peers: Peers

    ghost predicate Valid() {
      settings.Valid()
    }

    /** `Registry::new`, and the tail of `load`, with the peers it starts from. */
    constructor (subnetBase: Bytes4, maxPeers: nat, peers: Peers)
      ensures Valid() && this.peers == peers
      ensures settings == Clamped(subnetBase, maxPeers)
    {
      settings := Settings(subnetBase, if maxPeers < POOL_SIZE then maxPeers else POOL_SIZE);
      this.peers := peers;
    }

    method AllocIp() returns (r: Option<Bytes4>)
      ensures r == Alloc(settings, peers)
    {
      var taken := set k | k in peers :: Host(peers[k]);
      var host := HOST_MIN;
      while host <= HOST_MAX
        invariant HOST_MIN <= host <= HOST_MAX + 1
        invariant FirstFree(taken, HOST_MIN) == FirstFree(taken, host)
      {
        if host !in taken {
          return Some(settings.subnetBase[..3] + [host]);
        }
        host := host + 1;
      }
      return None;
    }

    method UpsertHandshake(key: Bytes32, algo: Level, sessionId: Bytes16, now: int) returns (r: Answer)
      requires Valid()
      modifies this
      ensures r != Err(AddressPoolExhausted)
      ensures (peers, r) == Upsert(settings, old(peers), key, algo, sessionId, now)
    {
      NeverExhausted(settings, peers, key, algo, sessionId, now);
      if key in peers {
        var p := peers[key];
        peers := peers[key := p.(sessionId := sessionId, algo := algo, lastActivity := now, rekeys := 0)];
        return Ok(PeerSlot(sessionId, p.assignedIp));
      }
      if |peers| >= settings.maxPeers {
        return Err(AtCapacity);
      }
      var ip := AllocIp();
      if ip.None? {
        return Err(AddressPoolExhausted);
      }
      peers := peers[key := Peer(key, ip.value, sessionId, algo, now, now, 0)];
      return Ok(PeerSlot(sessionId, ip.value));
    }

    method RekeySession(key: Bytes32, claimedSessionId: Bytes16, algo: Level, now: int) returns (r: Answer)
      modifies this
      ensures (peers, r) == Rekey(old(peers), key, claimedSessionId, algo, now)
    {
      if key !in peers {
        return Err(UnknownPeer);
      }
      var p := peers[key];
      if p.sessionId != claimedSessionId {
        return Err(SessionMismatch);
      }
      if algo.WeakerThan(p.algo) {
        return Err(Downgrade);
      }
      peers := peers[key := p.(algo := algo, rekeys := Increment(p.rekeys), lastActivity := now)];
      return Ok(PeerSlot(p.sessionId, p.assignedIp));
    }

    method Remove(key: Bytes32) returns (r: Option<Peer>)
      modifies this
      ensures peers == old(peers) - {key}
      ensures r == if key in old(peers) then Some(old(peers)[key]) else None
    {
      r := if key in peers then Some(peers[key]) else None;
      peers := peers - {key};
    }

    method TouchPeer(key: Bytes32, now: int)
      modifies this
      ensures peers == Touch(old(peers), key, now)
    {
      if key in peers {
        peers := peers[key := peers[key].(lastActivity := now)];
      }
    }

    method IdlePeers(timeout: nat, now: int) returns (idle: set<Bytes32>)
      ensures idle == set k | k in peers && Idle(peers[k], timeout, now)
      ensures forall k :: k in idle <==> k in peers && now - peers[k].lastActivity > timeout
    {
      idle := set k | k in peers && Idle(peers[k], timeout, now);
    }
  }

  // ---- address allocation ------------------------------------------------------------------

  /** Hosts `lo..HOST_MAX` as a set. */
  function HostsFrom(lo: nat): (r: set<Byte>)
    ensures forall h: Byte :: h in r <==> lo <= h <= HOST_MAX
    decreases HOST_MAX + 1 - lo
  {
    if lo > HOST_MAX then {} else {lo} + HostsFrom(lo + 1)
  }

  lemma {:induction false} HostCount(lo: nat)
    requires lo <= HOST_MAX + 1
    ensures |HostsFrom(lo)| == HOST_MAX + 1 - lo
    decreases HOST_MAX + 1 - lo
  {
    if lo <= HOST_MAX {
      HostCount(lo + 1);
    }
  }

  lemma {:induction false} TakenAtMostPeers(peers: Peers)
    ensures |TakenHosts(peers)| <= |peers|
    decreases |peers|
  {
    if peers == map[] {
      assert TakenHosts(peers) == {};
    } else {
      var k :| k in peers;
      var rest := peers - {k};
      TakenAtMostPeers(rest);
      assert peers.Keys == rest.Keys + {k};
      assert TakenHosts(peers) <= TakenHosts(rest) + {Host(peers[k])};
      SubsetSize(TakenHosts(peers), TakenHosts(rest) + {Host(peers[k])});
    }
  }

  lemma {:induction false} SubsetSize<T>(a: set<T>, b: set<T>)
    requires a <= b
    ensures |a| <= |b|
    decreases a
  {
    if a != {} {
      var x :| x in a;
      SubsetSize(a - {x}, b - {x});
    }
  }

  /** Pigeonhole: fewer peers than hosts leave a free host, whatever addresses the peers hold. */
  lemma PoolNeverRunsOut(s: Settings, peers: Peers)
    requires |peers| < POOL_SIZE
    ensures Alloc(s, peers).Some?
  {
    if FirstFree(TakenHosts(peers), HOST_MIN).None? {
      TakenAtMostPeers(peers);
      HostCount(HOST_MIN);
      assert HostsFrom(HOST_MIN) <= TakenHosts(peers);
      SubsetSize(HostsFrom(HOST_MIN), TakenHosts(peers));
      assert false;
    }
  }

  /** `AddressPoolExhausted` is unreachable: from no registry contents at all does a hello get it. */
  lemma NeverExhausted(s: Settings, peers: Peers, key: Bytes32, algo: Level, sessionId: Bytes16, now: int)
    requires s.Valid()
    ensures Upsert(s, peers, key, algo, sessionId, now).1 != Err(AddressPoolExhausted)
  {
    if |peers| < s.maxPeers {
      PoolNeverRunsOut(s, peers);
    }
  }

  /** A new peer gets the lowest host no other peer holds, so an address nobody else has. */
  lemma NewPeerGetsLowestFreeHost(s: Settings, peers: Peers, key: Bytes32, algo: Level, sessionId: Bytes16, now: int)
    requires s.Valid() && key !in peers && |peers| < s.maxPeers
    ensures var (peers', r) := Upsert(s, peers, key, algo, sessionId, now);
      && r.Ok? && peers' == peers[key := Peer(key, r.value.assignedIp, sessionId, algo, now, now, 0)]
      && InPool(s, r.value.assignedIp)
      && (forall k :: k in peers ==> peers[k].assignedIp != r.value.assignedIp)
      && r.value.assignedIp[3] !in TakenHosts(peers)
      && (forall h: Byte :: h !in TakenHosts(peers) && h >= HOST_MIN ==> r.value.assignedIp[3] <= h)
  {
    PoolNeverRunsOut(s, peers);
    var host := FirstFree(TakenHosts(peers), HOST_MIN).value;
    var ip := Address(s, host);
    assert ip[..3] == s.subnetBase[..3] && ip[3] == host;
    forall k | k in peers ensures peers[k].assignedIp != ip {
      assert Host(peers[k]) in TakenHosts(peers);
    }
  }

  // ---- invariants ----------------------------------------------------------------------------

  /** Every reachable registry: records filed under their own key, addresses in the pool and distinct,
      capacity respected. */
  ghost predicate Inv(s: Settings, peers: Peers) {
    && Keyed(peers)
    && Distinct(peers)
    && (forall k :: k in peers ==> InPool(s, peers[k].assignedIp))
    && |peers| <= s.maxPeers
  }

  predicate Keyed(peers: Peers) {
    forall k :: k in peers ==> peers[k].wgPubkey == k
  }

  predicate Distinct(peers: Peers) {
    forall j, k :: j in peers && k in peers && j != k ==> peers[j].assignedIp != peers[k].assignedIp
  }

  predicate InPool(s: Settings, ip: Bytes4) {
    ip[..3] == s.subnetBase[..3] && HOST_MIN <= ip[3] <= HOST_MAX
  }

  /** One call on the registry. */
  datatype Op =
    | Hello(key: Bytes32, algo: Level, sessionId: Bytes16, now: int)
    | RekeyRequest(key: Bytes32, sessionId: Bytes16, algo: Level, now: int)
    | Evict(key: Bytes32)
    | Refresh(key: Bytes32, now: int)

  function Apply(s: Settings, peers: Peers, op: Op): (Peers, Option<Answer>) {
    match op
    case Hello(key, algo, sid, now) =>
      var (q, r) := Upsert(s, peers, key, algo, sid, now); (q, Some(r))
    case RekeyRequest(key, sid, algo, now) =>
      var (q, r) := Rekey(peers, key, sid, algo, now); (q, Some(r))
    case Evict(key) => (peers - {key}, None)
    case Refresh(key, now) => (Touch(peers, key, now), None)
  }

  function Run(s: Settings, peers: Peers, ops: seq<Op>): Peers
    decreases |ops|
  {
    if ops == [] then peers
    else Run(s, Apply(s, peers, ops[0]).0, ops[1..])
  }

  /** Rewriting a record without touching its key or address. */
  lemma UpdateKeepsInv(s: Settings, peers: Peers, key: Bytes32, p: Peer)
    requires Inv(s, peers) && key in peers
    requires p.wgPubkey == key && p.assignedIp == peers[key].assignedIp
    ensures Inv(s, peers[key := p])
  {
    assert peers[key := p].Keys == peers.Keys;
  }

  lemma InsertKeepsInv(s: Settings, peers: Peers, key: Bytes32, p: Peer)
    requires Inv(s, peers) && key !in peers && |peers| < s.maxPeers
    requires p.wgPubkey == key && InPool(s, p.assignedIp)
    requires forall k :: k in peers ==> peers[k].assignedIp != p.assignedIp
    ensures Inv(s, peers[key := p])
  {
    InsertKeepsDistinct(peers, key, p);
    assert peers[key := p].Keys == peers.Keys + {key};
  }

  lemma InsertKeepsDistinct(peers: Peers, key: Bytes32, p: Peer)
    requires Distinct(peers) && forall k :: k in peers && k != key ==> peers[k].assignedIp != p.assignedIp
    ensures Distinct(peers[key := p])
  {
  }

  lemma EvictKeepsInv(s: Settings, peers: Peers, gone: set<Bytes32>)
    requires Inv(s, peers)
    ensures Inv(s, peers - gone)
  {
    SubsetSize((peers - gone).Keys, peers.Keys);
  }

  lemma UpsertKeepsInv(s: Settings, peers: Peers, key: Bytes32, algo: Level, sid: Bytes16, now: int)
    requires s.Valid() && Inv(s, peers)
    ensures Inv(s, Upsert(s, peers, key, algo, sid, now).0)
  {
    var peers' := Upsert(s, peers, key, algo, sid, now).0;
    if key in peers {
      UpdateKeepsInv(s, peers, key, peers'[key]);
    } else if |peers| < s.maxPeers {
      NewPeerGetsLowestFreeHost(s, peers, key, algo, sid, now);
      InsertKeepsInv(s, peers, key, peers'[key]);
    }
  }

  lemma RekeyKeepsInv(s: Settings, peers: Peers, key: Bytes32, sid: Bytes16, algo: Level, now: int)
    requires Inv(s, peers)
    ensures Inv(s, Rekey(peers, key, sid, algo, now).0)
  {
    if key in peers {
      UpdateKeepsInv(s, peers, key, Rekey(peers, key, sid, algo, now).0[key]);
    }
  }

  lemma ApplyKeepsInv(s: Settings, peers: Peers, op: Op)
    requires s.Valid() && Inv(s, peers)
    ensures Inv(s, Apply(s, peers, op).0)
  {
    match op
    case Hello(key, algo, sid, now) => UpsertKeepsInv(s, peers, key, algo, sid, now);
    case RekeyRequest(key, sid, algo, now) => RekeyKeepsInv(s, peers, key, sid, algo, now);
    case Evict(key) => EvictKeepsInv(s, peers, {key});
    case Refresh(key, now) =>
      if key in peers {
        UpdateKeepsInv(s, peers, key, Touch(peers, key, now)[key]);
      }
  }

  /** What an accepted call leaves on record: the session, algorithm and time it brought; the address the peer had, or
      the lowest free one; the count of rekeys since its hello; and every other peer as it was. */
  lemma AcceptedRecords(s: Settings, peers: Peers, op: Op)
    requires s.Valid() && (op.Hello? || op.RekeyRequest?) && Apply(s, peers, op).1.value.Ok?
    ensures var (peers', answer) := Apply(s, peers, op);
      && op.key in peers' && peers'.Keys == peers.Keys + {op.key}
      && (forall k :: k in peers && k != op.key ==> peers'[k] == peers[k])
      && var p := peers'[op.key];
      && p.sessionId == op.sessionId && p.algo == op.algo && p.lastActivity == op.now
      && answer.value.value == PeerSlot(op.sessionId, p.assignedIp)
      && (op.key in peers ==> p.assignedIp == peers[op.key].assignedIp && p.created == peers[op.key].created
                              && p.wgPubkey == peers[op.key].wgPubkey)
      && (op.key !in peers ==> p.created == op.now && p.wgPubkey == op.key)
      && (op.Hello? ==> p.rekeys == 0)
      && (op.RekeyRequest? ==> op.key in peers && peers[op.key].sessionId == op.sessionId
                               && p.rekeys == Wrapped(peers[op.key].rekeys, 1))
  {
  }

  /** Which answer a hello and a rekey get, error by error. */
  lemma AnswersExactly(s: Settings, peers: Peers, op: Op)
    requires s.Valid() && (op.Hello? || op.RekeyRequest?)
    ensures var answer := Apply(s, peers, op).1.value;
      var current := op.key in peers && peers[op.key].sessionId == op.sessionId;
      && (op.Hello? ==>
            && (answer == Err(AtCapacity) <==> op.key !in peers && |peers| >= s.maxPeers)
            && (answer.Err? ==> answer == Err(AtCapacity)))
      && (op.RekeyRequest? ==>
            && (answer == Err(UnknownPeer) <==> op.key !in peers)
            && (answer == Err(SessionMismatch) <==> op.key in peers && !current)
            && (answer == Err(Downgrade) <==> current && op.algo.WireCode() < peers[op.key].algo.WireCode())
            && (answer.Err? ==> answer.error.UnknownPeer? || answer.error.SessionMismatch? || answer.error.Downgrade?))
  {
    if op.Hello? {
      NeverExhausted(s, peers, op.key, op.algo, op.sessionId, op.now);
    }
  }

  /** A refused call leaves the registry as it was. */
  lemma RefusalChangesNothing(s: Settings, peers: Peers, op: Op)
    requires Apply(s, peers, op).1.Some? && Apply(s, peers, op).1.value.Err?
    ensures Apply(s, peers, op).0 == peers
  {
  }

  /** From `Registry::new`, every operation sequence leaves a registry that satisfies the invariant. */
  lemma {:induction false} ReachableInv(s: Settings, peers: Peers, ops: seq<Op>)
    requires s.Valid() && Inv(s, peers)
    ensures Inv(s, Run(s, peers, ops))
    ensures Inv(s, map[])
    decreases |ops|
  {
    if ops != [] {
      ApplyKeepsInv(s, peers, ops[0]);
      ReachableInv(s, Apply(s, peers, ops[0]).0, ops[1..]);
    }
  }

  // ---- session histories ------------------------------------------------------------------------

  predicate Replaces(op: Op, key: Bytes32) {
    (op.Hello? || op.Evict?) && op.key == key
  }

  /** How many of `ops` are rekeys of `key` that the registry accepts. */
  function AcceptedRekeys(s: Settings, peers: Peers, ops: seq<Op>, key: Bytes32): nat
    decreases |ops|
  {
    if ops == [] then 0
    else
      var (peers', answer) := Apply(s, peers, ops[0]);
      (if ops[0].RekeyRequest? && ops[0].key == key && answer.value.Ok? then 1 else 0)
      + AcceptedRekeys(s, peers', ops[1..], key)
  }

  /** A u32 counter after `n` more increments: exact until it passes 2^32 - 1. */
  function Wrapped(count: U32, n: nat): (r: U32)
    ensures count + n < 0x1_0000_0000 ==> r == count + n
  {
    (count + n) % 0x1_0000_0000
  }

  lemma IncrementWraps(count: U32, n: nat)
    ensures Wrapped(count, 0) == count
    ensures Wrapped(Increment(count), n) == Wrapped(count, n + 1)
  {
  }

  /** What one operation does to a peer it does not replace. */
  lemma StepKeepsSession(s: Settings, peers: Peers, op: Op, key: Bytes32)
    requires key in peers && !Replaces(op, key)
    ensures var (peers', answer) := Apply(s, peers, op);
      var accepted := op.RekeyRequest? && op.key == key && answer.value.Ok?;
      && key in peers'
      && peers'[key].sessionId == peers[key].sessionId
      && peers'[key].assignedIp == peers[key].assignedIp
      && !peers'[key].algo.WeakerThan(peers[key].algo)
      && peers'[key].rekeys == (if accepted then Increment(peers[key].rekeys) else peers[key].rekeys)
  {
  }

  /** Until its next hello or eviction, a peer keeps its session and address, its algorithm never weakens,
      and `rekeys` counts its accepted rekeys, whatever happens to the other peers meanwhile. */
  lemma {:induction false} SessionHistory(s: Settings, peers: Peers, ops: seq<Op>, key: Bytes32)
    requires key in peers && forall op :: op in ops ==> !Replaces(op, key)
    ensures var peers' := Run(s, peers, ops);
      && key in peers'
      && peers'[key].sessionId == peers[key].sessionId
      && peers'[key].assignedIp == peers[key].assignedIp
      && !peers'[key].algo.WeakerThan(peers[key].algo)
      && peers'[key].rekeys == Wrapped(peers[key].rekeys, AcceptedRekeys(s, peers, ops, key))
    decreases |ops|
  {
    if ops == [] {
      IncrementWraps(peers[key].rekeys, 0);
    } else {
      assert ops[0] in ops;
      StepKeepsSession(s, peers, ops[0], key);
      var peers' := Apply(s, peers, ops[0]).0;
      SessionHistory(s, peers', ops[1..], key);
      IncrementWraps(peers[key].rekeys, AcceptedRekeys(s, peers', ops[1..], key));
    }
  }

  /** The same, counted from the hello that opened the session. */
  lemma SessionSinceHello(s: Settings, peers: Peers, hello: Op, ops: seq<Op>)
    requires hello.Hello? && Apply(s, peers, hello).1.value.Ok?
    requires forall op :: op in ops ==> !Replaces(op, hello.key)
    ensures var (first, answer) := Apply(s, peers, hello);
      var last := Run(s, first, ops);
      && hello.key in last && last[hello.key].sessionId == hello.sessionId
      && answer.value.value == PeerSlot(hello.sessionId, last[hello.key].assignedIp)
      && !last[hello.key].algo.WeakerThan(hello.algo)
      && last[hello.key].rekeys == Wrapped(0, AcceptedRekeys(s, first, ops, hello.key))
  {
    SessionHistory(s, Apply(s, peers, hello).0, ops, hello.key);
  }

  predicate Evicts(op: Op, key: Bytes32) {
    op.Evict? && op.key == key
  }

  lemma StepKeepsAddress(s: Settings, peers: Peers, op: Op, key: Bytes32)
    requires key in peers && !Evicts(op, key)
    ensures var peers' := Apply(s, peers, op).0;
      key in peers' && peers'[key].assignedIp == peers[key].assignedIp && peers'[key].created == peers[key].created
  {
  }

  /** From insertion to eviction an address never changes, across any number of hellos and rekeys. */
  lemma {:induction false} AddressStable(s: Settings, peers: Peers, ops: seq<Op>, key: Bytes32)
    requires key in peers && forall op :: op in ops ==> !Evicts(op, key)
    ensures key in Run(s, peers, ops)
    ensures Run(s, peers, ops)[key].assignedIp == peers[key].assignedIp
    ensures Run(s, peers, ops)[key].created == peers[key].created
    decreases |ops|
  {
    if ops != [] {
      assert ops[0] in ops;
      StepKeepsAddress(s, peers, ops[0], key);
      AddressStable(s, Apply(s, peers, ops[0]).0, ops[1..], key);
    }
  }
}
