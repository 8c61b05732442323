/** Which session's psk is on the interface. Two handshakes of one peer may install in either order, and an
    install may fail, so it need not be the latest; this module says exactly when it is. */
module PskRuns {
  import opened Bytes
  import opened PeerRegistry
  import opened Server
  import opened ServerRuns

  // ---- the order of a key's registrations and installs ------------------------------------------

  /** What the handler of step `m` holds as it takes the step. */
  function PendingAt(worlds: seq<World>, actions: seq<Action>, m: nat): Option<Pending> {
    if m < |actions| && m < |worlds| && actions[m].id in worlds[m].handlers && HasPending(worlds[m].handlers[actions[m].id])
    then Some(worlds[m].handlers[actions[m].id].pending)
    else None
  }

  predicate Concerns(worlds: seq<World>, actions: seq<Action>, m: nat, key: Bytes32) {
    var p := PendingAt(worlds, actions, m);
    p.Some? && p.value.hello.clientWgPubkey == key
  }

  /** At step `m` the registry accepts a session of `key`. */
  predicate Registers(c: Context, worlds: seq<World>, actions: seq<Action>, m: nat, key: Bytes32) {
    Concerns(worlds, actions, m, key) && actions[m].Register?
    && RegistryCall(c, worlds[m].peers, PendingAt(worlds, actions, m).value, actions[m].now).1.Ok?
  }

  /** At step `m` a psk of `key` is put on the interface. */
  predicate Installs(worlds: seq<World>, actions: seq<Action>, m: nat, key: Bytes32) {
    Concerns(worlds, actions, m, key) && Installing(actions[m], actions[m].id)
  }

  /** Step `r` opened the session of `key` that the registry has before step `n`. */
  predicate LatestSession(c: Context, worlds: seq<World>, actions: seq<Action>, n: nat, key: Bytes32, r: nat) {
    r < n && Registers(c, worlds, actions, r, key) && forall m :: r < m < n ==> !Registers(c, worlds, actions, m, key)
  }

  predicate LatestInstall(worlds: seq<World>, actions: seq<Action>, n: nat, key: Bytes32, j: nat) {
    j < n && Installs(worlds, actions, j, key) && forall m :: j < m < n ==> !Installs(worlds, actions, m, key)
  }

  /** The latest session's handler was the last to install the key. */
  predicate InstalledLast(worlds: seq<World>, actions: seq<Action>, n: nat, key: Bytes32, r: nat) {
    r < |actions| && exists j :: r < j < n && LatestInstall(worlds, actions, n, key, j) && actions[j].id == actions[r].id
  }

  function PskAt(worlds: seq<World>, actions: seq<Action>, m: nat): Bytes32
    requires PendingAt(worlds, actions, m).Some?
  {
    PendingAt(worlds, actions, m).value.outcome.keys.psk
  }

  /** The psk of session `r` is unlike that of every other session of the key so far. */
  predicate Distinguished(c: Context, worlds: seq<World>, actions: seq<Action>, n: nat, key: Bytes32, r: nat)
    requires IsRun(c, worlds, actions) && Registers(c, worlds, actions, r, key)
  {
    && (forall m :: 0 <= m < n && m != r && Registers(c, worlds, actions, m, key) ==>
          PskAt(worlds, actions, m) != PskAt(worlds, actions, r))
    && (key in worlds[0].wg ==> worlds[0].wg[key].psk != PskAt(worlds, actions, r))
  }

  /** The interface has the psk of session `r`. */
  predicate HasPsk(worlds: seq<World>, actions: seq<Action>, n: nat, key: Bytes32, r: nat)
    requires n < |worlds| && PendingAt(worlds, actions, r).Some?
  {
    key in worlds[n].wg && worlds[n].wg[key].psk == PskAt(worlds, actions, r)
  }

  /** The session the registry has is the latest one. */
  lemma {:induction false} LatestIsTheRegistrys(c: Context, worlds: seq<World>, actions: seq<Action>, n: nat, key: Bytes32, r: nat)
    requires IsRun(c, worlds, actions) && n < |worlds| && LatestSession(c, worlds, actions, n, key, r)
    ensures key in worlds[n].peers
    ensures Ok(PeerSlot(worlds[n].peers[key].sessionId, worlds[n].peers[key].assignedIp))
      == RegistryCall(c, worlds[r].peers, PendingAt(worlds, actions, r).value, actions[r].now).1
    decreases n
  {
    assert StepAt(c, worlds, actions, n - 1);
    if r < n - 1 {
      LatestIsTheRegistrys(c, worlds, actions, n - 1, key, r);
      assert !Registers(c, worlds, actions, n - 1, key);
    }
  }

  // ---- a handler goes through its stages once -----------------------------------------------------

  function Stage(h: Handler): nat {
    match h
    case Reading => 0
    case AwaitingFinish(_) => 1
    case Confirmed(_) => 2
    case Registered(_, _) => 3
    case Installed(_, _) => 4
    case Saved(_, _) => 5
    case Closed(_) => 6
  }

  lemma StepAdvances(c: Context, w: World, a: Action, i: nat)
    requires Enabled(w, a) && i in w.handlers
    ensures i in Step(c, w, a).handlers
    ensures var h, h' := w.handlers[i], Step(c, w, a).handlers[i];
      if a.id == i then Stage(h) < Stage(h') else h' == h
  {
    if a.id != i {
      OtherHandlersKept(c, w, a, i);
    } else {
      match a
      case First(_, read, ioText, freshId, random, wire) => FirstTurn(c, read, ioText, freshId, random, wire);
      case Second(_, read, wire) => SecondTurn(c, w.handlers[i].pending, read, wire);
      case Register(_, now, wire) => RegisterTurn(c, w.peers, w.handlers[i].pending, now, wire);
      case _ =>
    }
  }

  lemma RunAdvances(c: Context, worlds: seq<World>, actions: seq<Action>, m: nat, i: nat)
    requires IsRun(c, worlds, actions) && m < |actions| && i in worlds[m].handlers
    ensures i in worlds[m + 1].handlers
    ensures var h, h' := worlds[m].handlers[i], worlds[m + 1].handlers[i];
      if actions[m].id == i then Stage(h) < Stage(h') else h' == h
  {
    assert StepAt(c, worlds, actions, m);
    StepAdvances(c, worlds[m], actions[m], i);
  }

  /** Stages only go forward, and a handler that has not advanced is unchanged. */
  lemma {:induction false} StagesAdvance(c: Context, worlds: seq<World>, actions: seq<Action>, a: nat, b: nat, i: nat)
    requires IsRun(c, worlds, actions) && a <= b < |worlds| && i in worlds[a].handlers
    ensures i in worlds[b].handlers && Stage(worlds[a].handlers[i]) <= Stage(worlds[b].handlers[i])
    ensures Stage(worlds[a].handlers[i]) == Stage(worlds[b].handlers[i]) ==> worlds[a].handlers[i] == worlds[b].handlers[i]
    decreases b
  {
    if a < b {
      StagesAdvance(c, worlds, actions, a, b - 1, i);
      RunAdvances(c, worlds, actions, b - 1, i);
    }
  }

  /** Behind an install is one registration: the same handler's, with the same hello and keys. */
  lemma InstallsWhatItRegistered(c: Context, worlds: seq<World>, actions: seq<Action>, j: nat, key: Bytes32) returns (r: nat)
    requires IsRun(c, worlds, actions) && worlds[0].handlers == map[] && Installs(worlds, actions, j, key)
    ensures r < j && Registers(c, worlds, actions, r, key) && actions[r].id == actions[j].id
    ensures PendingAt(worlds, actions, r) == PendingAt(worlds, actions, j)
  {
    var _ := Mover(c, worlds, actions, j);
    r := FindRegistration(c, worlds, actions, j, actions[j].id);
  }

  /** A handler registers at most once. */
  lemma RegistersOnce(c: Context, worlds: seq<World>, actions: seq<Action>, r: nat, r': nat, key: Bytes32)
    requires IsRun(c, worlds, actions) && r < r'
    requires Registers(c, worlds, actions, r, key) && Registers(c, worlds, actions, r', key)
    ensures actions[r].id != actions[r'].id
  {
    if actions[r].id == actions[r'].id {
      assert Mover(c, worlds, actions, r).Confirmed? && Mover(c, worlds, actions, r').Confirmed?;
      RunAdvances(c, worlds, actions, r, actions[r].id);
      StagesAdvance(c, worlds, actions, r + 1, r', actions[r].id);
      assert false;
    }
  }

  // ---- the exact condition -------------------------------------------------------------------------

  /** What a step does to the key's entry. */
  lemma EntryStep(c: Context, worlds: seq<World>, actions: seq<Action>, m: nat, key: Bytes32)
    requires IsRun(c, worlds, actions) && m < |actions|
    ensures if Installs(worlds, actions, m, key) then
        key in worlds[m + 1].wg && worlds[m + 1].wg[key].psk == PskAt(worlds, actions, m)
      else
        (key in worlds[m + 1].wg <==> key in worlds[m].wg)
        && (key in worlds[m].wg ==> worlds[m + 1].wg[key] == worlds[m].wg[key])
  {
    assert StepAt(c, worlds, actions, m);
  }

  /** With no install of the key so far, the interface has what it started with. */
  lemma {:induction false} NoInstall(c: Context, worlds: seq<World>, actions: seq<Action>, n: nat, key: Bytes32)
    requires IsRun(c, worlds, actions) && n < |worlds| && forall m :: 0 <= m < n ==> !Installs(worlds, actions, m, key)
    ensures key in worlds[n].wg <==> key in worlds[0].wg
    ensures key in worlds[n].wg ==> worlds[n].wg[key] == worlds[0].wg[key]
    decreases n
  {
    if n > 0 {
      NoInstall(c, worlds, actions, n - 1, key);
      EntryStep(c, worlds, actions, n - 1, key);
    }
  }

  /** The interface has what the last install put there. */
  lemma {:induction false} LastInstallStays(c: Context, worlds: seq<World>, actions: seq<Action>, n: nat, key: Bytes32, j: nat)
    requires IsRun(c, worlds, actions) && n < |worlds| && LatestInstall(worlds, actions, n, key, j)
    ensures key in worlds[n].wg && worlds[n].wg[key].psk == PskAt(worlds, actions, j)
    decreases n
  {
    EntryStep(c, worlds, actions, n - 1, key);
    if j < n - 1 {
      LastInstallStays(c, worlds, actions, n - 1, key, j);
    }
  }

  lemma {:induction false} FindLatestInstall(worlds: seq<World>, actions: seq<Action>, n: nat, key: Bytes32, m: nat) returns (j: nat)
    requires m < n && Installs(worlds, actions, m, key)
    ensures m <= j && LatestInstall(worlds, actions, n, key, j)
    decreases n
  {
    if Installs(worlds, actions, n - 1, key) {
      j := n - 1;
    } else {
      j := FindLatestInstall(worlds, actions, n - 1, key, m);
    }
  }

  /** The psk on the interface is that of the registry's latest session exactly when the handler of that session
      was the last to install the key: its own install succeeded, after it registered, and no other handler's
      came later. "Only if" needs the session's psk to be unlike the key's other ones. */
  lemma PskIsLatestExactly(c: Context, worlds: seq<World>, actions: seq<Action>, n: nat, key: Bytes32, r: nat)
    requires IsRun(c, worlds, actions) && n < |worlds| && worlds[0].handlers == map[]
    requires LatestSession(c, worlds, actions, n, key, r)
    ensures InstalledLast(worlds, actions, n, key, r) ==> HasPsk(worlds, actions, n, key, r)
    ensures Distinguished(c, worlds, actions, n, key, r) ==>
      (HasPsk(worlds, actions, n, key, r) <==> InstalledLast(worlds, actions, n, key, r))
  {
    if m :| 0 <= m < n && Installs(worlds, actions, m, key) {
      var j := FindLatestInstall(worlds, actions, n, key, m);
      LastInstallStays(c, worlds, actions, n, key, j);
      var r' := InstallsWhatItRegistered(c, worlds, actions, j, key);
      if r' == r {
        assert InstalledLast(worlds, actions, n, key, r);
      } else {
        RegistersOnce(c, worlds, actions, r', r, key);
      }
    } else {
      NoInstall(c, worlds, actions, n, key);
    }
  }

  // ---- a sufficient condition: windows that do not overlap -----------------------------------------

  /** Handler `i` is between its registration and its install of `key`. */
  predicate InWindow(w: World, i: nat, key: Bytes32) {
    i in w.handlers && w.handlers[i].Registered? && w.handlers[i].pending.hello.clientWgPubkey == key
  }

  /** No session of `key` is registered while another handler is between its registration and its install. */
  predicate WindowsApart(c: Context, worlds: seq<World>, actions: seq<Action>, n: nat, key: Bytes32)
    requires IsRun(c, worlds, actions) && n < |worlds|
  {
    forall m, i :: 0 <= m < n && Registers(c, worlds, actions, m, key) && i in worlds[m].handlers ==> !InWindow(worlds[m], i, key)
  }

  predicate NoFailedInstall(worlds: seq<World>, actions: seq<Action>, n: nat, key: Bytes32) {
    forall m :: 0 <= m < n && Concerns(worlds, actions, m, key) && actions[m].Install? ==> actions[m].outcome.Installs?
  }

  lemma LeavingStep(c: Context, worlds: seq<World>, actions: seq<Action>, j: nat, i: nat, key: Bytes32)
    requires IsRun(c, worlds, actions) && j < |actions| && InWindow(worlds[j], i, key) && !InWindow(worlds[j + 1], i, key)
    ensures actions[j].Install? && actions[j].id == i && Concerns(worlds, actions, j, key)
  {
    RunAdvances(c, worlds, actions, j, i);
    assert StepAt(c, worlds, actions, j);
  }

  /** A handler that has left its window did so by its install. */
  lemma {:induction false} LeavesByInstall(c: Context, worlds: seq<World>, actions: seq<Action>, a: nat, n: nat, i: nat, key: Bytes32)
    returns (j: nat)
    requires IsRun(c, worlds, actions) && a < n < |worlds| && InWindow(worlds[a], i, key) && !InWindow(worlds[n], i, key)
    ensures a <= j < n && actions[j].Install? && actions[j].id == i && Concerns(worlds, actions, j, key)
    decreases n
  {
    j := n - 1;
    if InWindow(worlds[j], i, key) {
      LeavingStep(c, worlds, actions, j, i, key);
    } else {
      j := LeavesByInstall(c, worlds, actions, a, n - 1, i, key);
    }
  }

  /** Hence: if a key's windows do not overlap and its installs succeed, the interface has the latest session's
      psk whenever no handler is in a window. */
  lemma SeparateWindowsKeepLatest(c: Context, worlds: seq<World>, actions: seq<Action>, n: nat, key: Bytes32, r: nat)
    requires IsRun(c, worlds, actions) && n < |worlds| && worlds[0].handlers == map[]
    requires LatestSession(c, worlds, actions, n, key, r)
    requires WindowsApart(c, worlds, actions, n, key) && NoFailedInstall(worlds, actions, n, key)
    requires forall i :: i in worlds[n].handlers ==> !InWindow(worlds[n], i, key)
    ensures HasPsk(worlds, actions, n, key, r) && InstalledLast(worlds, actions, n, key, r)
  {
    var i := actions[r].id;
    assert StepAt(c, worlds, actions, r);
    StagesAdvance(c, worlds, actions, r + 1, n, i);
    var j0 := LeavesByInstall(c, worlds, actions, r + 1, n, i, key);
    var j := FindLatestInstall(worlds, actions, n, key, j0);
    var r' := InstallsWhatItRegistered(c, worlds, actions, j, key);
    if r' != r {
      SpansLater(c, worlds, actions, r', r, j, key);
    }
    LastInstallStays(c, worlds, actions, n, key, j);
  }

  /** A handler that registered before step `r` and installs after it is in its window at `r`. */
  lemma SpansLater(c: Context, worlds: seq<World>, actions: seq<Action>, r': nat, r: nat, j: nat, key: Bytes32)
    requires IsRun(c, worlds, actions) && r' < r < j
    requires Registers(c, worlds, actions, r', key) && Installs(worlds, actions, j, key) && actions[r'].id == actions[j].id
    ensures actions[j].id in worlds[r].handlers && InWindow(worlds[r], actions[j].id, key)
  {
    var i := actions[j].id;
    assert Mover(c, worlds, actions, j).Registered?;
    assert StepAt(c, worlds, actions, r');
    StagesAdvance(c, worlds, actions, r' + 1, r, i);
    StagesAdvance(c, worlds, actions, r, j, i);
  }

  // ---- runs that leave an older psk ---------------------------------------------------------------

  /** Two answered hellos of one peer. */
  predicate SamePeer(c: Context, a: Caller, b: Caller) {
    a.id != b.id && Answered(c, a) && Answered(c, b) && a.hello.clientWgPubkey == b.hello.clientWgPubkey
  }

  /** `older` and `newer` both went through, `newer` last in the registry, and the interface has `older`'s psk. */
  predicate LeftBehind(c: Context, w: World, older: Caller, newer: Caller)
    requires SamePeer(c, older, newer)
  {
    var key := newer.hello.clientWgPubkey;
    && key in w.peers && w.peers[key].sessionId == newer.freshId
    && key in w.wg && w.wg[key].psk == older.Pending().outcome.keys.psk
    && forall i :: i in w.handlers ==> !InWindow(w, i, key)
  }

  /** The registry after both hellos: the second session, at the address of the first. */
  lemma RegisterTwice(c: Context, w: World, older: Caller, newer: Caller, t1: int, t2: int)
    returns (ip: Bytes4, peers1: Peers, peers2: Peers)
    requires c.settings.Valid() && SamePeer(c, older, newer)
    requires older.hello.clientWgPubkey in w.peers || |w.peers| < c.settings.maxPeers
    ensures RegistryCall(c, w.peers, older.Pending(), t1) == (peers1, Ok(PeerSlot(older.freshId, ip)))
    ensures RegistryCall(c, peers1, newer.Pending(), t2) == (peers2, Ok(PeerSlot(newer.freshId, ip)))
    ensures var key := newer.hello.clientWgPubkey; key in peers2 && peers2[key].sessionId == newer.freshId
  {
    var key := older.hello.clientWgPubkey;
    var p, q := older.Pending(), newer.Pending();
    if key !in w.peers {
      NewPeerGetsLowestFreeHost(c.settings, w.peers, key, p.hello.algo, p.sessionId, t1);
    }
    peers1 := RegistryCall(c, w.peers, p, t1).0;
    ip := RegistryCall(c, w.peers, p, t1).1.value.assignedIp;
    peers2 := RegistryCall(c, peers1, q, t2).0;
  }

  /** `w` with both handlers at their stages. */
  function Both(w: World, peers: Peers, i: nat, h: Handler, j: nat, h': Handler): World {
    With(With(w.(peers := peers), i, h), j, h')
  }

  lemma BothConfirmed(c: Context, w: World, older: Caller, newer: Caller)
    requires w.handlers == map[] && SamePeer(c, older, newer)
    ensures Reaches(c, w, Both(w, w.peers, older.id, Confirmed(older.Pending()), newer.id, Confirmed(newer.Pending())))
  {
    ReachesItself(c, w);
    ReachesConfirmed(c, w, w, older);
    ReachesConfirmed(c, w, With(w, older.id, Confirmed(older.Pending())), newer);
  }

  lemma Overwrite(m: map<nat, Handler>, i: nat, x: Handler, j: nat, y: Handler, z: Handler)
    requires i != j
    ensures m[i := x][j := y][i := z] == m[i := z][j := y]
  {
  }

  lemma FirstRegistered(c: Context, w: World, i: nat, p: Pending, j: nat, q: Pending, now: int, peers: Peers, a: PeerSlot)
    requires i != j && Reaches(c, w, Both(w, w.peers, i, Confirmed(p), j, Confirmed(q)))
    requires RegistryCall(c, w.peers, p, now) == (peers, Ok(a))
    ensures Reaches(c, w, Both(w, peers, i, Registered(p, a), j, Confirmed(q)))
  {
    var w2 := Both(w, w.peers, i, Confirmed(p), j, Confirmed(q));
    ReachesRegistered(c, w, w2, i, p, now, peers, a);
    Overwrite(w.handlers, i, Confirmed(p), j, Confirmed(q), Registered(p, a));
    assert With(w2.(peers := peers), i, Registered(p, a)) == Both(w, peers, i, Registered(p, a), j, Confirmed(q));
  }

  lemma SecondRegistered(c: Context, w: World, i: nat, p: Pending, j: nat, q: Pending, now: int, peers1: Peers, a: PeerSlot,
                         peers2: Peers, b: PeerSlot)
    requires i != j && Reaches(c, w, Both(w, peers1, i, Registered(p, a), j, Confirmed(q)))
    requires RegistryCall(c, peers1, q, now) == (peers2, Ok(b))
    ensures Reaches(c, w, Both(w, peers2, i, Registered(p, a), j, Registered(q, b)))
  {
    var w3 := Both(w, peers1, i, Registered(p, a), j, Confirmed(q));
    ReachesRegistered(c, w, w3, j, q, now, peers2, b);
    assert w3.handlers[j := Registered(q, b)] == Both(w, peers2, i, Registered(p, a), j, Registered(q, b)).handlers;
  }

  lemma BothInstalled(c: Context, w: World, peers: Peers, i: nat, p: Pending, j: nat, q: Pending, a: PeerSlot, b: PeerSlot)
    returns (last: World)
    requires i != j && Reaches(c, w, Both(w, peers, i, Registered(p, a), j, Registered(q, b)))
    ensures Reaches(c, w, last)
    ensures var wg := w.wg[q.hello.clientWgPubkey := WgPeer(q.outcome.keys.psk, b.assignedIp)];
      last == Both(w, peers, i, Installed(p, a), j, Installed(q, b)).(
        wg := wg[p.hello.clientWgPubkey := WgPeer(p.outcome.keys.psk, a.assignedIp)])
  {
    var w4 := Both(w, peers, i, Registered(p, a), j, Registered(q, b));
    ReachesInstalled(c, w, w4, j, q, b);
    var w5 := With(w4.(wg := w4.wg[q.hello.clientWgPubkey := WgPeer(q.outcome.keys.psk, b.assignedIp)]), j, Installed(q, b));
    ReachesInstalled(c, w, w5, i, p, a);
    last := With(w5.(wg := w5.wg[p.hello.clientWgPubkey := WgPeer(p.outcome.keys.psk, a.assignedIp)]), i, Installed(p, a));
    assert last.handlers == Both(w, peers, i, Installed(p, a), j, Installed(q, b)).handlers;
  }

  lemma BothRegistered(c: Context, w: World, older: Caller, newer: Caller, t1: int, t2: int)
    returns (a: PeerSlot, b: PeerSlot, peers: Peers)
    requires c.settings.Valid() && w.handlers == map[] && SamePeer(c, older, newer)
    requires older.hello.clientWgPubkey in w.peers || |w.peers| < c.settings.maxPeers
    ensures Reaches(c, w, Both(w, peers, older.id, Registered(older.Pending(), a), newer.id, Registered(newer.Pending(), b)))
    ensures var key := newer.hello.clientWgPubkey; key in peers && peers[key].sessionId == newer.freshId
  {
    var ip, peers1, peers2 := RegisterTwice(c, w, older, newer, t1, t2);
    a, b, peers := PeerSlot(older.freshId, ip), PeerSlot(newer.freshId, ip), peers2;
    BothConfirmed(c, w, older, newer);
    FirstRegistered(c, w, older.id, older.Pending(), newer.id, newer.Pending(), t1, peers1, a);
    SecondRegistered(c, w, older.id, older.Pending(), newer.id, newer.Pending(), t2, peers1, a, peers2, b);
  }

  /** The race: from any start with room for the peer, any two of its handshakes can register in one order
      and install in the other. Both clients succeed; the interface keeps the older psk. */
  lemma PskRace(c: Context, w: World, older: Caller, newer: Caller, t1: int, t2: int) returns (last: World)
    requires c.settings.Valid() && w.handlers == map[] && SamePeer(c, older, newer)
    requires older.hello.clientWgPubkey in w.peers || |w.peers| < c.settings.maxPeers
    ensures Reaches(c, w, last) && LeftBehind(c, last, older, newer)
    ensures last.handlers.Keys == {older.id, newer.id}
    ensures last.handlers[older.id].Installed? && last.handlers[newer.id].Installed?
  {
    var a, b, peers2 := BothRegistered(c, w, older, newer, t1, t2);
    last := BothInstalled(c, w, peers2, older.id, older.Pending(), newer.id, newer.Pending(), a, b);
  }

  lemma WithTwice(w: World, peers: Peers, i: nat, h: Handler, h': Handler)
    ensures With(With(w, i, h).(peers := peers), i, h') == With(w.(peers := peers), i, h')
  {
    assert w.handlers[i := h][i := h'] == w.handlers[i := h'];
  }

  lemma OneRegistered(c: Context, w: World, caller: Caller, now: int, peers: Peers, a: PeerSlot)
    requires caller.id !in w.handlers && Answered(c, caller)
    requires RegistryCall(c, w.peers, caller.Pending(), now) == (peers, Ok(a))
    ensures Reaches(c, w, With(w.(peers := peers), caller.id, Registered(caller.Pending(), a)))
  {
    ReachesItself(c, w);
    ReachesConfirmed(c, w, w, caller);
    var w1 := With(w, caller.id, Confirmed(caller.Pending()));
    ReachesRegistered(c, w, w1, caller.id, caller.Pending(), now, peers, a);
    WithTwice(w, peers, caller.id, Confirmed(caller.Pending()), Registered(caller.Pending(), a));
  }

  lemma OneInstalled(c: Context, w: World, caller: Caller, peers: Peers, a: PeerSlot) returns (mid: World)
    requires Reaches(c, w, With(w.(peers := peers), caller.id, Registered(caller.Pending(), a)))
    ensures Reaches(c, w, mid)
    ensures var p := caller.Pending();
      mid == With(w.(peers := peers, wg := w.wg[p.hello.clientWgPubkey := WgPeer(p.outcome.keys.psk, a.assignedIp)]),
                  caller.id, Installed(p, a))
  {
    var p := caller.Pending();
    var w2 := With(w.(peers := peers), caller.id, Registered(p, a));
    ReachesInstalled(c, w, w2, caller.id, p, a);
    mid := With(w2.(wg := w2.wg[p.hello.clientWgPubkey := WgPeer(p.outcome.keys.psk, a.assignedIp)]), caller.id, Installed(p, a));
    assert mid.handlers == With(w, caller.id, Installed(p, a)).handlers;
  }

  lemma OneFailed(c: Context, mid: World, caller: Caller, peers: Peers, b: PeerSlot, text: seq<Byte>) returns (last: World)
    requires Reaches(c, mid, With(mid.(peers := peers), caller.id, Registered(caller.Pending(), b)))
    ensures Reaches(c, mid, last)
    ensures last.peers == peers && last.wg == mid.wg && caller.id in last.handlers && last.handlers[caller.id].Closed?
    ensures forall i :: i in last.handlers && i != caller.id ==> i in mid.handlers && last.handlers[i] == mid.handlers[i]
  {
    var w2 := With(mid.(peers := peers), caller.id, Registered(caller.Pending(), b));
    ReachesNext(c, mid, w2, Install(caller.id, Fails(text), true));
    last := Step(c, w2, Install(caller.id, Fails(text), true));
  }

  /** A handshake on its own that goes through. */
  lemma GoesThrough(c: Context, w: World, caller: Caller, now: int, peers: Peers, a: PeerSlot) returns (mid: World)
    requires w.handlers == map[] && Answered(c, caller)
    requires RegistryCall(c, w.peers, caller.Pending(), now) == (peers, Ok(a))
    ensures Reaches(c, w, mid) && mid.peers == peers
    ensures var p := caller.Pending();
      && mid.wg == w.wg[p.hello.clientWgPubkey := WgPeer(p.outcome.keys.psk, a.assignedIp)]
      && mid.handlers == map[caller.id := Installed(p, a)]
  {
    OneRegistered(c, w, caller, now, peers, a);
    mid := OneInstalled(c, w, caller, peers, a);
  }

  /** One whose install fails. */
  lemma Fizzles(c: Context, mid: World, caller: Caller, now: int, peers: Peers, b: PeerSlot, text: seq<Byte>) returns (last: World)
    requires caller.id !in mid.handlers && Answered(c, caller)
    requires RegistryCall(c, mid.peers, caller.Pending(), now) == (peers, Ok(b))
    ensures Reaches(c, mid, last)
    ensures last.peers == peers && last.wg == mid.wg && caller.id in last.handlers && last.handlers[caller.id].Closed?
    ensures forall i :: i in last.handlers && i != caller.id ==> i in mid.handlers && last.handlers[i] == mid.handlers[i]
  {
    OneRegistered(c, mid, caller, now, peers, b);
    last := OneFailed(c, mid, caller, peers, b, text);
  }

  /** A failed install needs no overlap: the older handshake is over before the newer one is accepted, and still
      the registry has the newer session and the interface the older psk. */
  lemma FailedInstallKeepsOldPsk(c: Context, w: World, older: Caller, newer: Caller, t1: int, t2: int, text: seq<Byte>)
    returns (mid: World, last: World)
    requires c.settings.Valid() && w.handlers == map[] && SamePeer(c, older, newer)
    requires older.hello.clientWgPubkey in w.peers || |w.peers| < c.settings.maxPeers
    ensures Reaches(c, w, mid) && mid.handlers.Keys == {older.id} && mid.handlers[older.id].Installed?
    ensures Reaches(c, mid, last) && LeftBehind(c, last, older, newer)
  {
    var ip, peers1, peers2 := RegisterTwice(c, w, older, newer, t1, t2);
    mid := GoesThrough(c, w, older, t1, peers1, PeerSlot(older.freshId, ip));
    last := Fizzles(c, mid, newer, t2, peers2, PeerSlot(newer.freshId, ip), text);
  }
}
