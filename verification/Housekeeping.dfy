/** Startup reconciliation and the idle sweep: the two places that remove peers. Each is modelled running
    alone; `stuck` is the set of keys whose `wg ... remove` fails. */
module Housekeeping {
  import opened Bytes
  import opened PeerRegistry
  import opened Server
  import opened ServerRuns
  import opened Connection

  /** Peers the registry knows have their registry address on the interface. */
  predicate SharedAgree(peers: Peers, wg: WgPeers) {
    forall k :: k in wg && k in peers ==> wg[k].allowedIp == peers[k].assignedIp
  }

  /** The peers reconciliation takes off the interface: unknown to the registry, and removable. */
  function Stale(peers: Peers, wg: WgPeers, stuck: set<Bytes32>): set<Bytes32> {
    wg.Keys - peers.Keys - stuck
  }

  /** The interface's keys, each once: what `wg` lists. */
  ghost predicate Lists(listing: seq<Bytes32>, wg: WgPeers) {
    && (forall k :: k in listing <==> k in wg)
    && (forall i, j :: 0 <= i < j < |listing| ==> listing[i] != listing[j])
  }

  datatype Counts = Counts(removed: nat, absent: nat)

  /** `reconcile_wg_peers`, given the listing of the interface, or None when `wg` cannot list it. */
  method Reconcile(registry: Registry, wg: Interface, listing: Option<seq<Bytes32>>, stuck: set<Bytes32>)
    returns (counts: Option<Counts>)
    requires listing.Some? ==> Lists(listing.value, wg.peers)
    modifies wg
    ensures listing.None? ==> counts == None && wg.peers == old(wg.peers)
    ensures listing.Some? ==> wg.peers == old(wg.peers) - Stale(registry.peers, old(wg.peers), stuck)
    ensures listing.Some? ==>
      counts == Some(Counts(|Stale(registry.peers, old(wg.peers), stuck)|, |registry.peers.Keys - old(wg.peers).Keys|))
  {
    if listing.None? {
      return None;
    }
    ListedKeys(listing.value, wg.peers, registry.peers, stuck);
    var removed := RemoveUnknown(wg, listing.value, registry.peers.Keys, stuck);
    var absent := CountAbsent(registry, listing.value);
    return Some(Counts(removed, absent));
  }

  lemma ListedKeys(listing: seq<Bytes32>, wg: WgPeers, peers: Peers, stuck: set<Bytes32>)
    requires Lists(listing, wg)
    ensures Unknown(listing, peers.Keys, stuck) == Stale(peers, wg, stuck)
    ensures (set k | k in listing) == wg.Keys
  {
  }

  /** The removal loop. */
  method RemoveUnknown(wg: Interface, listing: seq<Bytes32>, known: set<Bytes32>, stuck: set<Bytes32>) returns (removed: nat)
    requires forall i, j :: 0 <= i < j < |listing| ==> listing[i] != listing[j]
    modifies wg
    ensures wg.peers == old(wg.peers) - Unknown(listing, known, stuck)
    ensures removed == |Unknown(listing, known, stuck)|
  {
    removed := 0;
    var i := 0;
    ghost var gone := {};
    while i < |listing|
      invariant 0 <= i <= |listing|
      invariant gone == Unknown(listing[..i], known, stuck)
      invariant removed == |gone|
      invariant wg.peers == old(wg.peers) - gone
    {
      var k := listing[i];
      UnknownSnoc(listing, i, known, stuck);
      if k !in known {
        MinusTwice(old(wg.peers), gone, k);
        var ok := wg.RemovePeer(k, k !in stuck);
        if ok {
          removed, gone := removed + 1, gone + {k};
        }
      }
      i := i + 1;
    }
    assert listing[..i] == listing;
  }

  lemma UnknownSnoc(listing: seq<Bytes32>, i: nat, known: set<Bytes32>, stuck: set<Bytes32>)
    requires i < |listing| && forall i, j :: 0 <= i < j < |listing| ==> listing[i] != listing[j]
    ensures listing[i] !in Unknown(listing[..i], known, stuck)
    ensures Unknown(listing[..i + 1], known, stuck)
      == Unknown(listing[..i], known, stuck) + if listing[i] in known || listing[i] in stuck then {} else {listing[i]}
  {
    assert listing[..i + 1][..i] == listing[..i];
  }

  lemma MinusTwice(wg: WgPeers, gone: set<Bytes32>, k: Bytes32)
    ensures wg - gone - {k} == wg - (gone + {k})
  {
  }

  method CountAbsent(registry: Registry, listing: seq<Bytes32>) returns (absent: nat)
    ensures absent == |registry.peers.Keys - set k | k in listing|
  {
    var installed := set k | k in listing;
    absent := |registry.peers.Keys - installed|;
  }

  /** The listed keys a loop over the listing removes. */
  function Unknown(listing: seq<Bytes32>, known: set<Bytes32>, stuck: set<Bytes32>): (r: set<Bytes32>)
    ensures forall k :: k in r <==> k in listing && k !in known && k !in stuck
  {
    if listing == [] then {}
    else
      var last := |listing| - 1;
      var k := listing[last];
      assert listing == listing[..last] + [k];
      Unknown(listing[..last], known, stuck) + if k in known || k in stuck then {} else {k}
  }

  /** Reconciliation keeps every peer the registry knows. After it the interface agrees with the registry, as every run
      of the handlers assumes, exactly when no unknown peer was stuck on it. */
  lemma ReconcileAgrees(peers: Peers, wg: WgPeers, stuck: set<Bytes32>)
    requires SharedAgree(peers, wg)
    ensures Agrees(peers, wg - Stale(peers, wg, stuck)) <==> wg.Keys * stuck <= peers.Keys
    ensures var after := wg - Stale(peers, wg, stuck);
      && (forall k :: k in after <==> k in wg && (k in peers || k in stuck))
      && (forall k :: k in after ==> after[k] == wg[k])
  {
    var after := wg - Stale(peers, wg, stuck);
    if Agrees(peers, after) {
      forall k | k in wg.Keys * stuck ensures k in peers {
        assert k in after;
      }
    }
  }

  // ---- idle sweep ---------------------------------------------------------------------------

  /** WireGuard saw a handshake of `key` no longer than `timeout` ago. */
  predicate Live(handshakes: map<Bytes32, int>, key: Bytes32, timeout: nat, now: int) {
    key in handshakes && handshakes[key] <= now && now - handshakes[key] <= timeout
  }

  function IdleKeys(peers: Peers, timeout: nat, now: int): set<Bytes32> {
    set k | k in peers && Idle(peers[k], timeout, now)
  }

  function EvictedKeys(peers: Peers, handshakes: map<Bytes32, int>, timeout: nat, now: int): set<Bytes32> {
    set k | k in IdleKeys(peers, timeout, now) && !Live(handshakes, k, timeout, now)
  }

  /** The registry after a sweep: idle peers with a live tunnel are refreshed, the other idle ones leave. */
  function Swept(peers: Peers, handshakes: map<Bytes32, int>, timeout: nat, now: int, clock: int): Peers {
    Partly(peers, IdleKeys(peers, timeout, now), EvictedKeys(peers, handshakes, timeout, now), clock)
  }

  /** `peers` less the evicted ones, with the activity of the refreshed ones set to `clock`. */
  function Partly(peers: Peers, refreshed: set<Bytes32>, evicted: set<Bytes32>, clock: int): Peers {
    map k | k in peers && k !in evicted :: if k in refreshed then peers[k].(lastActivity := clock) else peers[k]
  }

  /** One turn of the sweep loop. `now` is read once; `clock` is the time `touch` reads. */
  method SweepOnce(registry: Registry, wg: Interface, disk: RegistryDisk, handshakes: map<Bytes32, int>, timeout: nat,
                   now: int, clock: int, stuck: set<Bytes32>, persists: bool)
    returns (evicted: set<Bytes32>)
    modifies registry, wg, disk
    ensures evicted == EvictedKeys(old(registry.peers), handshakes, timeout, now)
    ensures registry.peers == Swept(old(registry.peers), handshakes, timeout, now, clock)
    ensures wg.peers == old(wg.peers) - (evicted - stuck)
    ensures disk.saved == if evicted != {} && persists then registry.peers else old(disk.saved)
  {
    var idle := registry.IdlePeers(timeout, now);
    ghost var before := registry.peers;
    var todo := idle;
    evicted := {};
    while todo != {}
      invariant todo <= idle == IdleKeys(before, timeout, now)
      invariant evicted == set k | k in idle - todo && !Live(handshakes, k, timeout, now)
      invariant registry.peers == Partly(before, idle - todo, evicted, clock)
      invariant wg.peers == old(wg.peers) - (evicted - stuck)
      invariant disk.saved == old(disk.saved)
      decreases todo
    {
      var k :| k in todo;
      todo := todo - {k};
      if Live(handshakes, k, timeout, now) {
        registry.TouchPeer(k, clock);
      } else {
        var _ := registry.Remove(k);
        var _ := wg.RemovePeer(k, k !in stuck);
        evicted := evicted + {k};
      }
    }
    if evicted != {} {
      disk.Save(registry, persists);
    }
  }

  /** The sweep in the times themselves. It evicts a peer exactly when its last activity is more than the timeout ago
      and the listing has no handshake of its within the timeout; it sets the activity of a peer kept for its handshake
      alone to the clock; and it leaves every other peer as it was. A second sweep at the same moment does nothing. */
  lemma SweepIsExact(peers: Peers, handshakes: map<Bytes32, int>, timeout: nat, now: int, clock: int)
    requires now <= clock
    ensures var after := Swept(peers, handshakes, timeout, now, clock);
      && after.Keys <= peers.Keys
      && (forall k :: k in peers ==>
            var quiet := now - peers[k].lastActivity > timeout;
            var seen := k in handshakes && 0 <= now - handshakes[k] <= timeout;
            && (k !in after <==> quiet && !seen)
            && (quiet && seen ==> after[k] == peers[k].(lastActivity := clock))
            && (!quiet ==> after[k] == peers[k]))
      && Swept(after, handshakes, timeout, now, clock) == after
    ensures EvictedKeys(peers, handshakes, timeout, now)
      == set k | k in peers && now - peers[k].lastActivity > timeout
                 && !(k in handshakes && 0 <= now - handshakes[k] <= timeout)
  {
    var after := Swept(peers, handshakes, timeout, now, clock);
    forall k | k in after ensures !Idle(after[k], timeout, now) {
      assert k in IdleKeys(peers, timeout, now) <==> Idle(peers[k], timeout, now);
    }
  }

  /** The sweep keeps every law of the registry. */
  lemma SweepKeepsInv(s: Settings, peers: Peers, handshakes: map<Bytes32, int>, timeout: nat, now: int, clock: int)
    requires Inv(s, peers)
    ensures Inv(s, Swept(peers, handshakes, timeout, now, clock))
  {
    SubsetSize(Swept(peers, handshakes, timeout, now, clock).Keys, peers.Keys);
  }

  /** Interface and registry still agree after a sweep exactly when no evicted peer is stuck on the interface. */
  lemma SweepKeepsAgreement(peers: Peers, wg: WgPeers, handshakes: map<Bytes32, int>, timeout: nat, now: int, clock: int,
                            stuck: set<Bytes32>)
    requires Agrees(peers, wg)
    ensures var evicted := EvictedKeys(peers, handshakes, timeout, now);
      Agrees(Swept(peers, handshakes, timeout, now, clock), wg - (evicted - stuck))
      <==> evicted * stuck * wg.Keys == {}
  {
    var evicted := EvictedKeys(peers, handshakes, timeout, now);
    var after, wg' := Swept(peers, handshakes, timeout, now, clock), wg - (evicted - stuck);
    if k :| k in evicted * stuck * wg.Keys {
      assert k in wg' && k !in after;
    } else {
      forall k | k in wg' ensures k in after && wg'[k].allowedIp == after[k].assignedIp {
        assert k !in evicted * stuck * wg.Keys;
      }
    }
  }
}
