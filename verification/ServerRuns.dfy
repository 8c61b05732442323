/** What every interleaving of connection handlers keeps: the interface agrees with the registry, nothing is
    removed, and a key is installed only for a client that proved it holds it. */
module ServerRuns {
  import opened Bytes
  import opened Wire
  import opened Handshake
  import opened PeerRegistry
  import opened Server

  // ---- the interface agrees with the registry -----------------------------------------------

  /** Peers only join, and keep their addresses. */
  predicate Grows(a: Peers, b: Peers) {
    forall k :: k in a ==> k in b && b[k].assignedIp == a[k].assignedIp
  }

  /** Every installed peer is registered, and its allowed-ip is its registry address. */
  predicate Agrees(peers: Peers, wg: WgPeers) {
    forall k :: k in wg ==> k in peers && wg[k].allowedIp == peers[k].assignedIp
  }

  /** A handler that holds a slot holds the registry's address for its peer. */
  predicate HoldsSlot(peers: Peers, h: Handler) {
    HoldsRegistration(h) ==>
      h.pending.hello.clientWgPubkey in peers
      && peers[h.pending.hello.clientWgPubkey].assignedIp == h.slot.assignedIp
  }

  predicate SlotsHeld(peers: Peers, handlers: map<nat, Handler>) {
    forall i :: i in handlers ==> HoldsSlot(peers, handlers[i])
  }

  predicate WorldInv(w: World) {
    Agrees(w.peers, w.wg) && SlotsHeld(w.peers, w.handlers) && Grows(w.saved, w.peers)
  }

  /** Where a run begins: no handlers, the interface and the registry file in line with the registry. */
  predicate CleanStart(w: World) {
    WorldInv(w) && w.handlers == map[]
  }

  lemma RegistryCallGrows(c: Context, peers: Peers, pending: Pending, now: int)
    ensures var (peers', answer) := RegistryCall(c, peers, pending, now);
      && Grows(peers, peers')
      && (answer.Ok? ==>
            pending.hello.clientWgPubkey in peers'
            && peers'[pending.hello.clientWgPubkey].assignedIp == answer.value.assignedIp)
  {
  }

  lemma GrowthKeepsWorld(a: Peers, b: Peers, wg: WgPeers, handlers: map<nat, Handler>)
    requires Grows(a, b) && Agrees(a, wg) && SlotsHeld(a, handlers)
    ensures Agrees(b, wg) && SlotsHeld(b, handlers)
  {
    forall i | i in handlers ensures HoldsSlot(b, handlers[i]) {
      assert HoldsSlot(a, handlers[i]);
    }
  }

  lemma StepGrows(c: Context, w: World, a: Action)
    requires Enabled(w, a)
    ensures Grows(w.peers, Step(c, w, a).peers)
    ensures Grows(w.saved, w.peers) ==> Grows(w.saved, Step(c, w, a).saved)
    ensures w.wg.Keys <= Step(c, w, a).wg.Keys
  {
    if a.Register? {
      RegistryCallGrows(c, w.peers, w.handlers[a.id].pending, a.now);
    }
  }

  lemma MoverHoldsSlot(c: Context, w: World, a: Action)
    requires Enabled(w, a) && SlotsHeld(w.peers, w.handlers)
    ensures var w' := Step(c, w, a); a.id in w'.handlers && HoldsSlot(w'.peers, w'.handlers[a.id])
  {
    match a
    case First(id, read, ioText, freshId, random, wire) => FirstTurn(c, read, ioText, freshId, random, wire);
    case Second(id, read, wire) => SecondTurn(c, w.handlers[id].pending, read, wire);
    case Register(id, now, wire) =>
      RegisterTurn(c, w.peers, w.handlers[id].pending, now, wire);
      RegistryCallGrows(c, w.peers, w.handlers[id].pending, now);
    case Accept(id) =>
    case _ => assert HoldsSlot(w.peers, w.handlers[a.id]);
  }

  lemma StepKeepsTables(c: Context, w: World, a: Action)
    requires Enabled(w, a) && WorldInv(w)
    ensures var w' := Step(c, w, a); Agrees(w'.peers, w'.wg) && Grows(w'.saved, w'.peers)
  {
    if a.Register? {
      RegistryCallGrows(c, w.peers, w.handlers[a.id].pending, a.now);
      GrowthKeepsWorld(w.peers, Step(c, w, a).peers, w.wg, w.handlers);
    } else if a.Install? {
      assert HoldsSlot(w.peers, w.handlers[a.id]);
    }
  }

  lemma StepKeepsWorld(c: Context, w: World, a: Action)
    requires Enabled(w, a) && WorldInv(w)
    ensures WorldInv(Step(c, w, a))
  {
    var w' := Step(c, w, a);
    StepKeepsTables(c, w, a);
    StepGrows(c, w, a);
    GrowthKeepsWorld(w.peers, w'.peers, w.wg, w.handlers);
    forall i | i in w'.handlers ensures HoldsSlot(w'.peers, w'.handlers[i]) {
      if i == a.id {
        MoverHoldsSlot(c, w, a);
      } else {
        OtherHandlersKept(c, w, a, i);
      }
    }
  }

  /** Under every interleaving the interface agrees with the registry at every moment; no handler removes a
      peer from either; and no registered address ever changes. */
  lemma {:induction false} InterfaceAgreesWithRegistry(c: Context, worlds: seq<World>, actions: seq<Action>, m: nat, n: nat)
    requires IsRun(c, worlds, actions) && m <= n < |worlds|
    requires CleanStart(worlds[0])
    ensures WorldInv(worlds[n])
    ensures Grows(worlds[m].peers, worlds[n].peers) && worlds[m].wg.Keys <= worlds[n].wg.Keys
    ensures Grows(worlds[m].saved, worlds[n].saved)
    decreases n
  {
    if n > 0 {
      var prev := n - 1;
      InterfaceAgreesWithRegistry(c, worlds, actions, if m < n then m else prev, prev);
      assert StepAt(c, worlds, actions, prev);
      StepKeepsWorld(c, worlds[prev], actions[prev]);
      StepGrows(c, worlds[prev], actions[prev]);
    }
  }

  lemma StepKeepsDistinct(c: Context, w: World, a: Action)
    requires Enabled(w, a) && c.settings.Valid() && Distinct(w.peers)
    ensures Distinct(Step(c, w, a).peers)
  {
    if a.Register? {
      RegistryCallKeepsDistinct(c, w.peers, w.handlers[a.id].pending, a.now);
    }
  }

  lemma RegistryCallKeepsDistinct(c: Context, peers: Peers, pending: Pending, now: int)
    requires c.settings.Valid() && Distinct(peers)
    ensures Distinct(RegistryCall(c, peers, pending, now).0)
  {
    var key := pending.hello.clientWgPubkey;
    var peers' := RegistryCall(c, peers, pending, now).0;
    if pending.rekeyOf.None? && key !in peers && |peers| < c.settings.maxPeers {
      NewPeerGetsLowestFreeHost(c.settings, peers, key, pending.hello.algo, pending.sessionId, now);
      InsertKeepsDistinct(peers, key, peers'[key]);
    } else if key in peers {
      InsertKeepsDistinct(peers, key, peers'[key]);
      assert peers' == peers[key := peers'[key]];
    }
  }

  /** Starting from distinct addresses, no two installed peers ever share one. */
  lemma {:induction false} InstalledAddressesDistinct(c: Context, worlds: seq<World>, actions: seq<Action>, n: nat)
    requires IsRun(c, worlds, actions) && n < |worlds| && c.settings.Valid()
    requires CleanStart(worlds[0]) && Distinct(worlds[0].peers)
    ensures Distinct(worlds[n].peers)
    ensures forall j, k :: j in worlds[n].wg && k in worlds[n].wg && j != k ==>
      worlds[n].wg[j].allowedIp != worlds[n].wg[k].allowedIp
    decreases n
  {
    if n > 0 {
      InstalledAddressesDistinct(c, worlds, actions, n - 1);
      assert StepAt(c, worlds, actions, n - 1);
      StepKeepsDistinct(c, worlds[n - 1], actions[n - 1]);
    }
    InterfaceAgreesWithRegistry(c, worlds, actions, n, n);
  }

  // ---- building runs --------------------------------------------------------------------------

  /** `actions` takes the machine from `w` to `w'`. */
  predicate Path(c: Context, w: World, w': World, worlds: seq<World>, actions: seq<Action>) {
    IsRun(c, worlds, actions) && worlds[0] == w && worlds[|worlds| - 1] == w'
  }

  /** One more step. */
  lemma Extend(c: Context, w: World, last: World, worlds: seq<World>, actions: seq<Action>, a: Action, next: World)
    returns (worlds': seq<World>, actions': seq<Action>)
    requires Path(c, w, last, worlds, actions) && Enabled(last, a) && Step(c, last, a) == next
    ensures Path(c, w, next, worlds', actions') && worlds' == worlds + [next] && actions' == actions + [a]
  {
    worlds', actions' := worlds + [next], actions + [a];
    forall n: nat | n < |actions'| ensures StepAt(c, worlds', actions', n) {
      assert n < |actions| ==> StepAt(c, worlds, actions, n);
    }
  }

  /** A client's hello at handler `id`, what the server's random source contributes to answering it, and the answer. */
  datatype Caller = Caller(id: nat, hello: ClientHello, freshId: Bytes16, random: ServerRandom, outcome: Outcome) {
    /** What the handler then holds. */
    function Pending(): Server.Pending {
      Server.Pending.Pending(hello, None, freshId, outcome)
    }
  }

  /** `respond` answers the caller, with a ServerHello of the protocol's sizes. */
  predicate Answered(c: Context, caller: Caller) {
    && Respond(c.p, c.identity, caller.hello, caller.freshId, caller.random) == Ok(caller.outcome)
    && caller.outcome.serverHello.WellFormed()
  }

  /** The steps that take an answered caller's handler to a verified tag. */
  function FirstOf(caller: Caller): Action {
    First(caller.id, Got(MClientHello(caller.hello), []), [], caller.freshId, caller.random, true)
  }

  function SecondOf(c: Context, caller: Caller): Action {
    var p := caller.Pending();
    var tag := ClientTag(c.p, p.outcome.keys.confirmKey, p.outcome.transcript);
    Second(caller.id, Got(MClientFinish(ClientFinish(p.sessionId, tag)), []), true)
  }

  /** Some run takes the machine from `w` to `w'`. */
  ghost predicate Reaches(c: Context, w: World, w': World) {
    exists worlds, actions :: Path(c, w, w', worlds, actions)
  }

  lemma ReachesItself(c: Context, w: World)
    ensures Reaches(c, w, w)
  {
    assert Path(c, w, w, [w], []);
  }

  lemma ReachesNext(c: Context, w: World, last: World, a: Action)
    requires Reaches(c, w, last) && Enabled(last, a)
    ensures Reaches(c, w, Step(c, last, a))
  {
    var worlds, actions :| Path(c, w, last, worlds, actions);
    var worlds', actions' := Extend(c, w, last, worlds, actions, a, Step(c, last, a));
  }

  /** `w` with handler `i` at `h`. */
  function With(w: World, i: nat, h: Handler): World {
    w.(handlers := w.handlers[i := h])
  }

  lemma FirstStep(c: Context, w: World, caller: Caller)
    requires Answered(c, caller)
    ensures Step(c, With(w, caller.id, Reading), FirstOf(caller)) == With(w, caller.id, AwaitingFinish(caller.Pending()))
  {
    assert |Payload(MServerHello(caller.outcome.serverHello))| <= MAX_PAYLOAD;
  }

  lemma SecondStep(c: Context, w: World, caller: Caller)
    ensures Step(c, With(w, caller.id, AwaitingFinish(caller.Pending())), SecondOf(c, caller))
      == With(w, caller.id, Confirmed(caller.Pending()))
  {
  }

  /** An answered caller can get its tag verified. */
  lemma ReachesConfirmed(c: Context, start: World, w: World, caller: Caller)
    requires Answered(c, caller) && caller.id !in w.handlers && Reaches(c, start, w)
    ensures Reaches(c, start, With(w, caller.id, Confirmed(caller.Pending())))
  {
    ReachesNext(c, start, w, Accept(caller.id));
    ReachesNext(c, start, With(w, caller.id, Reading), FirstOf(caller));
    FirstStep(c, w, caller);
    ReachesNext(c, start, With(w, caller.id, AwaitingFinish(caller.Pending())), SecondOf(c, caller));
    SecondStep(c, w, caller);
  }

  lemma ReachesRegistered(c: Context, start: World, w: World, i: nat, p: Pending, now: int, peers: Peers, slot: PeerSlot)
    requires Reaches(c, start, w) && i in w.handlers && w.handlers[i] == Confirmed(p)
    requires RegistryCall(c, w.peers, p, now) == (peers, Ok(slot))
    ensures Reaches(c, start, With(w.(peers := peers), i, Registered(p, slot)))
  {
    ReachesNext(c, start, w, Register(i, now, true));
  }

  lemma ReachesInstalled(c: Context, start: World, w: World, i: nat, p: Pending, slot: PeerSlot)
    requires Reaches(c, start, w) && i in w.handlers && w.handlers[i] == Registered(p, slot)
    ensures Reaches(c, start, With(w.(wg := w.wg[p.hello.clientWgPubkey := WgPeer(p.outcome.keys.psk, slot.assignedIp)]),
                                   i, Installed(p, slot)))
  {
    ReachesNext(c, start, w, Install(i, Installs, true));
  }

  // ---- an install comes last -------------------------------------------------------------------

  /** At step `m` handler `i` read message 1 and computed `pending` with `respond`. */
  predicate Responded(c: Context, actions: seq<Action>, m: nat, i: nat, pending: Pending)
  {
    m < |actions| && actions[m].First? && actions[m].id == i
    && actions[m].read.Got?
    && (match pending.rekeyOf
        case None => actions[m].read.msg == MClientHello(pending.hello) && pending.sessionId == actions[m].freshId
        case Some(sid) =>
          actions[m].read.msg == MRekeyRequest(Wire.RekeyRequest(sid, pending.hello)) && pending.sessionId == sid)
    && Respond(c.p, c.identity, pending.hello, pending.sessionId, actions[m].random) == Ok(pending.outcome)
  }

  /** At step `m` handler `i` read a ClientFinish whose tag verified. */
  predicate TagVerified(c: Context, actions: seq<Action>, m: nat, i: nat, pending: Pending) {
    m < |actions| && actions[m].Second? && actions[m].id == i
    && actions[m].read.Got? && actions[m].read.msg.MClientFinish?
    && TagVerifies(c, pending, actions[m].read.msg.cf)
  }

  /** At step `m` the registry accepted handler `i`'s session and gave it `slot`. */
  predicate RegistryAccepted(c: Context, worlds: seq<World>, actions: seq<Action>, m: nat, i: nat, pending: Pending, slot: PeerSlot) {
    m < |actions| && m < |worlds| && actions[m].Register? && actions[m].id == i
    && RegistryCall(c, worlds[m].peers, pending, actions[m].now).1 == Ok(slot)
  }

  /** A successful install by handler `i`. */
  predicate Installing(a: Action, i: nat) {
    a.Install? && a.id == i && a.outcome.Installs?
  }

  predicate HasPending(h: Handler) {
    h.AwaitingFinish? || h.Confirmed? || h.Registered? || h.Installed? || h.Saved?
  }

  predicate HoldsRegistration(h: Handler) {
    h.Registered? || h.Installed? || h.Saved?
  }

  /** A step of another handler leaves handler `i` as it was. */
  lemma OtherHandlersKept(c: Context, w: World, a: Action, i: nat)
    requires Enabled(w, a) && a.id != i
    ensures i in Step(c, w, a).handlers <==> i in w.handlers
    ensures i in w.handlers ==> Step(c, w, a).handlers[i] == w.handlers[i]
  {
  }

  /** Where each turn that writes can lead. */
  lemma FirstTurn(c: Context, read: ReadOutcome, ioText: seq<Byte>, freshId: Bytes16, random: ServerRandom, wire: bool)
    ensures var h := OnFirst(c, read, ioText, freshId, random).After(wire);
      h.Closed? || (h.AwaitingFinish? && forall i :: Responded(c, [First(i, read, ioText, freshId, random, wire)], 0, i, h.pending))
  {
  }

  lemma SecondTurn(c: Context, pending: Pending, read: ReadOutcome, wire: bool)
    ensures var h := OnSecond(c, pending, read).After(wire);
      h.Closed? || (h == Confirmed(pending) && forall i :: TagVerified(c, [Second(i, read, wire)], 0, i, pending))
  {
  }

  lemma RegisterTurn(c: Context, peers: Peers, pending: Pending, now: int, wire: bool)
    ensures var (peers', t) := OnRegister(c, peers, pending, now);
      var answer := RegistryCall(c, peers, pending, now).1;
      var h := t.After(wire);
      h.Closed? || (answer.Ok? && h == Registered(pending, answer.value))
  {
  }

  /** How a handler came to hold what it holds, when the step was its own. */
  lemma OwnStep(c: Context, w: World, a: Action, h: Handler)
    requires Enabled(w, a) && a.id in Step(c, w, a).handlers && h == Step(c, w, a).handlers[a.id] && HasPending(h)
    ensures match h
      case AwaitingFinish(pending) => a.First? && Responded(c, [a], 0, a.id, pending)
      case Confirmed(pending) =>
        TagVerified(c, [a], 0, a.id, pending) && w.handlers[a.id] == AwaitingFinish(pending)
      case Registered(pending, slot) =>
        RegistryAccepted(c, [w], [a], 0, a.id, pending, slot) && w.handlers[a.id] == Confirmed(pending)
      case Installed(pending, slot) => Installing(a, a.id) && w.handlers[a.id] == Registered(pending, slot)
      case Saved(pending, slot) => a.Persist? && w.handlers[a.id] == Installed(pending, slot)
      case _ => false
  {
    match a
    case First(id, read, ioText, freshId, random, wire) => FirstTurn(c, read, ioText, freshId, random, wire);
    case Second(id, read, wire) => SecondTurn(c, w.handlers[id].pending, read, wire);
    case Register(id, now, wire) => RegisterTurn(c, w.peers, w.handlers[id].pending, now, wire);
    case Install(id, outcome, wire) =>
    case _ =>
  }

  lemma {:induction false} FindResponse(c: Context, worlds: seq<World>, actions: seq<Action>, n: nat, i: nat) returns (m: nat)
    requires IsRun(c, worlds, actions) && n < |worlds| && worlds[0].handlers == map[]
    requires i in worlds[n].handlers && HasPending(worlds[n].handlers[i])
    ensures m < n && Responded(c, actions, m, i, worlds[n].handlers[i].pending)
    decreases n
  {
    var w, a := worlds[n - 1], actions[n - 1];
    assert StepAt(c, worlds, actions, n - 1);
    if a.id != i {
      OtherHandlersKept(c, w, a, i);
      m := FindResponse(c, worlds, actions, n - 1, i);
    } else {
      OwnStep(c, w, a, worlds[n].handlers[i]);
      if worlds[n].handlers[i].AwaitingFinish? {
        m := n - 1;
      } else {
        m := FindResponse(c, worlds, actions, n - 1, i);
      }
    }
  }

  lemma {:induction false} FindTag(c: Context, worlds: seq<World>, actions: seq<Action>, n: nat, i: nat) returns (m: nat)
    requires IsRun(c, worlds, actions) && n < |worlds| && worlds[0].handlers == map[]
    requires i in worlds[n].handlers && HasPending(worlds[n].handlers[i]) && !worlds[n].handlers[i].AwaitingFinish?
    ensures m < n && TagVerified(c, actions, m, i, worlds[n].handlers[i].pending)
    ensures i in worlds[m].handlers && worlds[m].handlers[i] == AwaitingFinish(worlds[n].handlers[i].pending)
    decreases n
  {
    var w, a := worlds[n - 1], actions[n - 1];
    assert StepAt(c, worlds, actions, n - 1);
    if a.id != i {
      OtherHandlersKept(c, w, a, i);
      m := FindTag(c, worlds, actions, n - 1, i);
    } else {
      OwnStep(c, w, a, worlds[n].handlers[i]);
      if worlds[n].handlers[i].Confirmed? {
        m := n - 1;
      } else {
        m := FindTag(c, worlds, actions, n - 1, i);
      }
    }
  }

  lemma {:induction false} FindRegistration(c: Context, worlds: seq<World>, actions: seq<Action>, n: nat, i: nat) returns (m: nat)
    requires IsRun(c, worlds, actions) && n < |worlds| && worlds[0].handlers == map[]
    requires i in worlds[n].handlers && HoldsRegistration(worlds[n].handlers[i])
    ensures m < n
    ensures RegistryAccepted(c, worlds, actions, m, i, worlds[n].handlers[i].pending, worlds[n].handlers[i].slot)
    ensures i in worlds[m].handlers && worlds[m].handlers[i] == Confirmed(worlds[n].handlers[i].pending)
    decreases n
  {
    var w, a := worlds[n - 1], actions[n - 1];
    assert StepAt(c, worlds, actions, n - 1);
    if a.id != i {
      OtherHandlersKept(c, w, a, i);
      m := FindRegistration(c, worlds, actions, n - 1, i);
    } else {
      OwnStep(c, w, a, worlds[n].handlers[i]);
      if worlds[n].handlers[i].Registered? {
        m := n - 1;
      } else {
        m := FindRegistration(c, worlds, actions, n - 1, i);
      }
    }
  }

  lemma {:induction false} FindOwnInstall(c: Context, worlds: seq<World>, actions: seq<Action>, n: nat, i: nat) returns (m: nat)
    requires IsRun(c, worlds, actions) && n < |worlds| && worlds[0].handlers == map[]
    requires i in worlds[n].handlers && (worlds[n].handlers[i].Installed? || worlds[n].handlers[i].Saved?)
    ensures m < n && Installing(actions[m], i)
    ensures i in worlds[m].handlers
      && worlds[m].handlers[i] == Registered(worlds[n].handlers[i].pending, worlds[n].handlers[i].slot)
    decreases n
  {
    var w, a := worlds[n - 1], actions[n - 1];
    assert StepAt(c, worlds, actions, n - 1);
    if a.id != i {
      OtherHandlersKept(c, w, a, i);
      m := FindOwnInstall(c, worlds, actions, n - 1, i);
    } else {
      OwnStep(c, w, a, worlds[n].handlers[i]);
      if worlds[n].handlers[i].Installed? {
        m := n - 1;
      } else {
        m := FindOwnInstall(c, worlds, actions, n - 1, i);
      }
    }
  }

  /** What a handler that has installed its key did before, and in which order. */
  lemma InstalledHistory(c: Context, worlds: seq<World>, actions: seq<Action>, n: nat, i: nat)
    returns (m1: nat, m2: nat, m3: nat, m4: nat)
    requires IsRun(c, worlds, actions) && n < |worlds| && worlds[0].handlers == map[]
    requires i in worlds[n].handlers && (worlds[n].handlers[i].Installed? || worlds[n].handlers[i].Saved?)
    ensures m1 < m2 < m3 < m4 < n
    ensures var h := worlds[n].handlers[i];
      && Responded(c, actions, m1, i, h.pending)
      && TagVerified(c, actions, m2, i, h.pending)
      && RegistryAccepted(c, worlds, actions, m3, i, h.pending, h.slot)
      && Installing(actions[m4], i)
      && h.pending.hello.clientWgPubkey in worlds[m4 + 1].wg
      && worlds[m4 + 1].wg[h.pending.hello.clientWgPubkey] == WgPeer(h.pending.outcome.keys.psk, h.slot.assignedIp)
  {
    m4 := FindOwnInstall(c, worlds, actions, n, i);
    assert StepAt(c, worlds, actions, m4);
    m3 := FindRegistration(c, worlds, actions, m4, i);
    m2 := FindTag(c, worlds, actions, m3, i);
    m1 := FindResponse(c, worlds, actions, m2, i);
  }

  /** An interface entry that was not there at the start was put there by some handler's install step. */
  lemma {:induction false} FindInstall(c: Context, worlds: seq<World>, actions: seq<Action>, n: nat, key: Bytes32) returns (m: nat)
    requires IsRun(c, worlds, actions) && n < |worlds|
    requires key in worlds[n].wg && !(key in worlds[0].wg && worlds[0].wg[key] == worlds[n].wg[key])
    ensures m < n && Installing(actions[m], actions[m].id)
    ensures var h := Mover(c, worlds, actions, m);
      h.pending.hello.clientWgPubkey == key
      && worlds[n].wg[key] == WgPeer(h.pending.outcome.keys.psk, h.slot.assignedIp)
    decreases n
  {
    var w, a := worlds[n - 1], actions[n - 1];
    assert StepAt(c, worlds, actions, n - 1);
    if key in w.wg && w.wg[key] == worlds[n].wg[key] {
      m := FindInstall(c, worlds, actions, n - 1, key);
    } else {
      m := n - 1;
    }
  }

  /** Every key on the interface at any moment of any interleaving was either there at the start, or is the
      psk of one `respond` call, installed with the address the registry assigned, by a handler that first
      answered the hello, then verified the client's tag, then was accepted by the registry. */
  lemma InstalledKeysAreConfirmed(c: Context, worlds: seq<World>, actions: seq<Action>, n: nat, key: Bytes32)
    returns (i: nat, pending: Pending, slot: PeerSlot, m1: nat, m2: nat, m3: nat, m4: nat)
    requires IsRun(c, worlds, actions) && n < |worlds| && worlds[0].handlers == map[]
    requires key in worlds[n].wg && !(key in worlds[0].wg && worlds[0].wg[key] == worlds[n].wg[key])
    ensures m1 < m2 < m3 < m4 < n
    ensures Responded(c, actions, m1, i, pending)
    ensures TagVerified(c, actions, m2, i, pending)
    ensures RegistryAccepted(c, worlds, actions, m3, i, pending, slot)
    ensures Installing(actions[m4], i)
    ensures pending.hello.clientWgPubkey == key && worlds[n].wg[key] == WgPeer(pending.outcome.keys.psk, slot.assignedIp)
  {
    m4 := FindInstall(c, worlds, actions, n, key);
    i := actions[m4].id;
    pending, slot := Mover(c, worlds, actions, m4).pending, Mover(c, worlds, actions, m4).slot;
    m3 := FindRegistration(c, worlds, actions, m4, i);
    m2 := FindTag(c, worlds, actions, m3, i);
    m1 := FindResponse(c, worlds, actions, m2, i);
  }

  // ---- refusals ---------------------------------------------------------------------------------

  predicate Refused(t: Turn, code: Byte) {
    t.next == Closed(Ok(Rejected(code))) && t.reply.Some? && t.reply.value.MError? && t.reply.value.err.code == code
  }

  /** What each refusal tells the client, as the protocol's error table has it: CAPACITY exactly for a new peer
      beyond the limit, UNKNOWN_SESSION exactly for a rekey outside the peer's current session, ALGO_MISMATCH
      exactly for a weaker algorithm inside it; a handler with none of these is registered, INTERNAL is never
      sent here, and a refusal leaves the registry as it was. */
  lemma RefusalCodes(c: Context, peers: Peers, pending: Pending, now: int)
    requires c.settings.Valid()
    ensures var (peers', t) := OnRegister(c, peers, pending, now);
      var key := pending.hello.clientWgPubkey;
      var current := pending.rekeyOf.Some? && key in peers && peers[key].sessionId == pending.rekeyOf.value;
      && (Refused(t, 0x09) <==> pending.rekeyOf.None? && key !in peers && |peers| >= c.settings.maxPeers)
      && (Refused(t, 0x04) <==> pending.rekeyOf.Some? && !current)
      && (Refused(t, 0x05) <==> current && pending.hello.algo.WeakerThan(peers[key].algo))
      && (t.next.Registered? <==> !(Refused(t, 0x09) || Refused(t, 0x04) || Refused(t, 0x05)))
      && !Refused(t, 0x08)
      && (!t.next.Registered? ==> peers' == peers)
  {
    if pending.rekeyOf.None? {
      NeverExhausted(c.settings, peers, pending.hello.clientWgPubkey, pending.hello.algo, pending.sessionId, now);
    }
  }

  // ---- the registry sees one sequence of calls -----------------------------------------------------

  /** The registry calls of a run, in the order the lock let them in. */
  function Calls(c: Context, worlds: seq<World>, actions: seq<Action>, n: nat): seq<Op>
    requires IsRun(c, worlds, actions) && n < |worlds|
  {
    if n == 0 then []
    else if actions[n - 1].Register? then
      Calls(c, worlds, actions, n - 1) + [CallOf(Mover(c, worlds, actions, n - 1).pending, actions[n - 1].now)]
    else Calls(c, worlds, actions, n - 1)
  }

  function CallOf(pending: Pending, now: int): Op {
    match pending.rekeyOf
    case Some(sid) => Op.RekeyRequest(pending.hello.clientWgPubkey, sid, pending.hello.algo, now)
    case None => Op.Hello(pending.hello.clientWgPubkey, pending.hello.algo, pending.sessionId, now)
  }

  /** Only registry steps change the registry, each by its call. */
  lemma PeersStep(c: Context, worlds: seq<World>, actions: seq<Action>, m: nat)
    requires IsRun(c, worlds, actions) && m < |actions|
    ensures worlds[m + 1].peers
      == if actions[m].Register?
         then Apply(c.settings, worlds[m].peers, CallOf(Mover(c, worlds, actions, m).pending, actions[m].now)).0
         else worlds[m].peers
  {
    assert StepAt(c, worlds, actions, m);
  }

  lemma {:induction false} RunSnoc(s: Settings, peers: Peers, ops: seq<Op>, op: Op)
    ensures Run(s, peers, ops + [op]) == Apply(s, Run(s, peers, ops), op).0
    decreases |ops|
  {
    if ops == [] {
      assert ([] + [op])[1..] == [];
    } else {
      assert (ops + [op])[1..] == ops[1..] + [op];
      RunSnoc(s, Apply(s, peers, ops[0]).0, ops[1..], op);
    }
  }

  /** Handlers interleave freely, but the registry goes through one sequential history of calls, with one
      call for each registry step of the run; so every law of such histories holds of concurrent runs. */
  lemma {:induction false} RegistryIsSequential(c: Context, worlds: seq<World>, actions: seq<Action>, n: nat)
    requires IsRun(c, worlds, actions) && n < |worlds|
    ensures worlds[n].peers == Run(c.settings, worlds[0].peers, Calls(c, worlds, actions, n))
    ensures forall op :: op in Calls(c, worlds, actions, n) ==> op.Hello? || op.RekeyRequest?
    decreases n
  {
    if n > 0 {
      RegistryIsSequential(c, worlds, actions, n - 1);
      PeersStep(c, worlds, actions, n - 1);
      var a := actions[n - 1];
      if a.Register? {
        RunSnoc(c.settings, worlds[0].peers, Calls(c, worlds, actions, n - 1),
          CallOf(Mover(c, worlds, actions, n - 1).pending, a.now));
      }
    }
  }

  /** Hence a registered session survives any run in which its peer sends no new hello: same session id and
      address, never a weaker algorithm, and `rekeys` up by its accepted rekeys. */
  lemma SessionSurvivesInterleaving(c: Context, worlds: seq<World>, actions: seq<Action>, n: nat, key: Bytes32)
    requires IsRun(c, worlds, actions) && n < |worlds| && key in worlds[0].peers
    requires forall op :: op in Calls(c, worlds, actions, n) ==> !(op.Hello? && op.key == key)
    ensures key in worlds[n].peers
    ensures worlds[n].peers[key].sessionId == worlds[0].peers[key].sessionId
    ensures worlds[n].peers[key].assignedIp == worlds[0].peers[key].assignedIp
    ensures !worlds[n].peers[key].algo.WeakerThan(worlds[0].peers[key].algo)
    ensures worlds[n].peers[key].rekeys
      == Wrapped(worlds[0].peers[key].rekeys, AcceptedRekeys(c.settings, worlds[0].peers, Calls(c, worlds, actions, n), key))
  {
    RegistryIsSequential(c, worlds, actions, n);
    SessionHistory(c.settings, worlds[0].peers, Calls(c, worlds, actions, n), key);
  }
}
