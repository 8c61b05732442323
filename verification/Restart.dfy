/** Crash and restart: whatever moment the server stops at, loading its file and reconciling the interface gives
    a state the next run may start from. */
module Restart {
  import opened Bytes
  import opened PeerRegistry
  import opened RegistryStore
  import opened Server
  import opened ServerRuns
  import opened Connection
  import opened Housekeeping

  /** Startup: load the file, then reconcile the interface. */
  method Boot(codecs: Codecs, file: FileRead, subnetBase: Bytes4, maxPeers: nat, wg: Interface,
              listing: Option<seq<Bytes32>>, stuck: set<Bytes32>)
    returns (r: Result<Registry, LoadError>)
    requires listing.Some? ==> Lists(listing.value, wg.peers)
    modifies wg
    ensures r.Err? <==> file.Failed? || (file.Contents? && codecs.jsonParse(file.bytes).None?)
    ensures r.Err? ==> wg.peers == old(wg.peers)
    ensures r.Ok? ==> fresh(r.value) && r.value.Valid() && r.value.settings == Clamped(subnetBase, maxPeers)
    ensures r.Ok? ==> r.value.peers == if file.Contents? then LoadPeers(codecs, codecs.jsonParse(file.bytes).value.peers) else map[]
    ensures r.Ok? && listing.None? ==> wg.peers == old(wg.peers)
    ensures r.Ok? && listing.Some? ==> wg.peers == old(wg.peers) - Stale(r.value.peers, old(wg.peers), stuck)
  {
    r := Load(codecs, file, subnetBase, maxPeers);
    if r.Ok? {
      var _ := Reconcile(r.value, wg, listing, stuck);
    }
  }

  /** The file that holds `w.saved`, its records in the order `order`. */
  function FileOf(codecs: Codecs, w: World, order: seq<Bytes32>): seq<Byte>
    requires forall k :: k in order ==> k in w.saved
  {
    codecs.jsonRender(RegistryFile(1, Records(codecs, w.saved, order)))
  }

  /** The server after it crashed at `w` and booted from the file it left: the peers `load` builds, the interface
      as reconciliation leaves it, and no handlers. `stuck` are the keys `wg` fails to remove, all of them when it
      cannot list the interface. */
  function Restarted(codecs: Codecs, w: World, order: seq<Bytes32>, stuck: set<Bytes32>): World
    requires codecs.Laws() && forall k :: k in order ==> k in w.saved
  {
    var peers := LoadPeers(codecs, codecs.jsonParse(FileOf(codecs, w, order)).value.peers);
    World(peers, w.wg - Stale(peers, w.wg, stuck), w.saved, map[])
  }

  lemma StepKeepsKeyed(c: Context, w: World, a: Action)
    requires Enabled(w, a) && Keyed(w.peers) && Keyed(w.saved)
    ensures Keyed(Step(c, w, a).peers) && Keyed(Step(c, w, a).saved)
  {
    if a.Register? {
      RegistryCallKeepsKeyed(c, w.peers, w.handlers[a.id].pending, a.now);
    }
  }

  lemma RegistryCallKeepsKeyed(c: Context, peers: Peers, pending: Pending, now: int)
    requires Keyed(peers)
    ensures Keyed(RegistryCall(c, peers, pending, now).0)
  {
  }

  lemma {:induction false} RunKeepsKeyed(c: Context, worlds: seq<World>, actions: seq<Action>, n: nat)
    requires IsRun(c, worlds, actions) && n < |worlds| && Keyed(worlds[0].peers) && Keyed(worlds[0].saved)
    ensures Keyed(worlds[n].peers) && Keyed(worlds[n].saved)
    decreases n
  {
    if n > 0 {
      RunKeepsKeyed(c, worlds, actions, n - 1);
      assert StepAt(c, worlds, actions, n - 1);
      StepKeepsKeyed(c, worlds[n - 1], actions[n - 1]);
    }
  }

  /** What the server starts from, and starts from again. */
  predicate Bootable(w: World) {
    CleanStart(w) && Keyed(w.peers) && Keyed(w.saved)
  }

  lemma RestoredWorld(w: World, stuck: set<Bytes32>)
    requires WorldInv(w) && Keyed(w.saved)
    ensures var peers := RestoredPeers(w.saved);
      && (Bootable(World(peers, w.wg - Stale(peers, w.wg, stuck), w.saved, map[])) <==> w.wg.Keys * stuck <= peers.Keys)
      && Grows(peers, w.peers)
      && (Distinct(w.peers) ==> Distinct(peers))
  {
    ReconcileAgrees(RestoredPeers(w.saved), w.wg, stuck);
  }

  /** A crash after any step of any run is recovered from. Whatever order the file has its records in, the booted
      server has exactly the saved peers, times cut to seconds, each at the address it had; and it may start
      another run, exactly when no peer it has forgotten is stuck on the interface. */
  lemma CrashRecovers(c: Context, codecs: Codecs, worlds: seq<World>, actions: seq<Action>, n: nat, order: seq<Bytes32>,
                      stuck: set<Bytes32>)
    requires codecs.Laws() && IsRun(c, worlds, actions) && n < |worlds| && Bootable(worlds[0])
    requires Enumerates(order, worlds[n].saved)
    ensures codecs.jsonParse(FileOf(codecs, worlds[n], order)).Some?
    ensures var after := Restarted(codecs, worlds[n], order, stuck);
      && after.peers == RestoredPeers(worlds[n].saved)
      && Grows(after.peers, worlds[n].peers)
      && (Bootable(after) <==> worlds[n].wg.Keys * stuck <= after.peers.Keys)
      && (Distinct(worlds[n].peers) ==> Distinct(after.peers))
  {
    RunKeepsKeyed(c, worlds, actions, n);
    PersistThenLoad(codecs, worlds[n].saved, order);
    InterfaceAgreesWithRegistry(c, worlds, actions, n, n);
    RestoredWorld(worlds[n], stuck);
  }

  /** Nobody who was saved is forgotten: once a handler's persist has succeeded, its peer is in every later
      restart, with the address its ServerFinish carried. */
  lemma SavedPeersSurvive(c: Context, codecs: Codecs, worlds: seq<World>, actions: seq<Action>, m: nat, n: nat,
                          order: seq<Bytes32>, stuck: set<Bytes32>)
    requires codecs.Laws() && IsRun(c, worlds, actions) && Bootable(worlds[0]) && m < n < |worlds|
    requires Enumerates(order, worlds[n].saved)
    requires actions[m].Persist? && actions[m].ok
    ensures var h := Mover(c, worlds, actions, m);
      var after := Restarted(codecs, worlds[n], order, stuck);
      && h.pending.hello.clientWgPubkey in after.peers
      && after.peers[h.pending.hello.clientWgPubkey].assignedIp == h.slot.assignedIp
  {
    CrashRecovers(c, codecs, worlds, actions, n, order, stuck);
    InterfaceAgreesWithRegistry(c, worlds, actions, m, m);
    InterfaceAgreesWithRegistry(c, worlds, actions, m + 1, n);
    assert StepAt(c, worlds, actions, m);
    assert HoldsSlot(worlds[m].peers, worlds[m].handlers[actions[m].id]);
  }

  /** Timestamps are read by idle queries alone, and a restart moves what those see by less than a second, never
      towards keeping a peer longer: a peer active since 1970 is idle after the restart exactly when it would have
      been idle, without it, that fraction of a second later. */
  lemma RestartBringsIdleForward(p: Peer, timeout: nat, now: int)
    requires p.lastActivity >= 0
    ensures var fraction := p.lastActivity % NANOS;
      && 0 <= fraction < NANOS
      && (Idle(Restored(p), timeout, now) <==> Idle(p, timeout, now + fraction))
      && (Idle(p, timeout, now) ==> Idle(Restored(p), timeout, now))
  {
  }
}
