/** Client driver and connection handler together: an undisturbed handshake, byte for byte. */
module EndToEnd {
  import opened Bytes
  import opened Kem
  import opened Wire
  import opened WireRoundTrip
  import opened Handshake
  import opened PeerRegistry
  import opened Server
  import opened ServerRuns
  import opened Connection
  import Transport

  lemma ReadTwo(m1: Message, m2: Message, utf8: Utf8)
    requires utf8.Laws() && m1.WellFormed(utf8) && m2.WellFormed(utf8)
    ensures var read1 := ReadFrame(WriteAll([m1, m2]), utf8);
      read1.Got? && read1.msg == m1
      && ReadFrame(read1.rest, utf8) == Got(m2, [])
  {
    Transport.WriteAllTwo(m1, m2);
    ReadOfWrite(m1, Frame(m2).value, utf8);
    ReadOfWrite(m2, [], utf8);
    AppendNothing(Frame(m2).value);
  }

  /** The four messages of a handshake that goes through. */
  datatype Exchange = Exchange(hello: Message, serverHello: Message, finish: Message, serverFinish: Message)

  function Undisturbed(c: Context, client: ClientHandshake, out: Outcome, slot: PeerSlot): Exchange {
    Exchange(
      MClientHello(client.hello),
      MServerHello(out.serverHello),
      MClientFinish(ClientFinish(out.serverHello.sessionId, ClientTag(c.p, out.keys.confirmKey, out.transcript))),
      MServerFinish(ServerFinish(slot.sessionId, ServerTag(c.p, out.keys.confirmKey, out.transcript),
        c.serverWgPubkey, slot.assignedIp, c.wgPort)))
  }

  /** What the server does with the client's half of the exchange. */
  lemma ServerHalf(c: Context, utf8: Utf8, peers: Peers, wg: WgPeers, saved: Peers, env: Environment, client: ClientHandshake,
                   out: Outcome, slot: PeerSlot, writable: nat)
    requires utf8.Laws() && client.hello.WellFormed() && out.serverHello.WellFormed() && env.install.Installs? && writable >= 2
    requires Respond(c.p, c.identity, client.hello, env.freshId, env.random) == Ok(out)
    requires Upsert(c.settings, peers, client.hello.clientWgPubkey, client.hello.algo, env.freshId, env.now).1 == Ok(slot)
    ensures var x := Undisturbed(c, client, out, slot);
      Serve(c, utf8, peers, wg, saved, WriteAll([x.hello, x.finish]), env, writable)
      == Talk(
           Upsert(c.settings, peers, client.hello.clientWgPubkey, client.hello.algo, env.freshId, env.now).0,
           wg[client.hello.clientWgPubkey := WgPeer(out.keys.psk, slot.assignedIp)],
           if env.persists then Upsert(c.settings, peers, client.hello.clientWgPubkey, client.hello.algo, env.freshId, env.now).0
           else saved,
           [x.serverHello, x.serverFinish],
           Ok(HandshakeDone(slot.sessionId)))
  {
    var x := Undisturbed(c, client, out, slot);
    ReadTwo(x.hello, x.finish, utf8);
    var read1 := ReadFrame(WriteAll([x.hello, x.finish]), utf8);
    PayloadFits(x.serverHello, utf8);
    ServerHalfReads(c, peers, wg, saved, env, client, out, slot, read1, ReadFrame(read1.rest, utf8), writable);
  }

  lemma ServerHalfReads(c: Context, peers: Peers, wg: WgPeers, saved: Peers, env: Environment, client: ClientHandshake,
                        out: Outcome, slot: PeerSlot, read1: ReadOutcome, read2: ReadOutcome, writable: nat)
    requires env.install.Installs? && writable >= 2 && Frame(MServerHello(out.serverHello)).Some?
    requires Respond(c.p, c.identity, client.hello, env.freshId, env.random) == Ok(out)
    requires Upsert(c.settings, peers, client.hello.clientWgPubkey, client.hello.algo, env.freshId, env.now).1 == Ok(slot)
    requires read1.Got? && read1.msg == Undisturbed(c, client, out, slot).hello
    requires read2.Got? && read2.msg == Undisturbed(c, client, out, slot).finish
    ensures var x := Undisturbed(c, client, out, slot);
      ServeReads(c, peers, wg, saved, read1, read2, env, writable)
      == Talk(
           Upsert(c.settings, peers, client.hello.clientWgPubkey, client.hello.algo, env.freshId, env.now).0,
           wg[client.hello.clientWgPubkey := WgPeer(out.keys.psk, slot.assignedIp)],
           if env.persists then Upsert(c.settings, peers, client.hello.clientWgPubkey, client.hello.algo, env.freshId, env.now).0
           else saved,
           [x.serverHello, x.serverFinish],
           Ok(HandshakeDone(slot.sessionId)))
  {
  }

  /** What the client does with the server's half. */
  lemma ClientHalf(c: Context, utf8: Utf8, client: ClientHandshake, out: Outcome, slot: PeerSlot,
                   link: Transport.Link)
    requires link.writable >= 2
    requires utf8.Laws() && client.hello.WellFormed() && out.serverHello.WellFormed()
    requires slot.sessionId == out.serverHello.sessionId
    requires Finish(c.p, client, out.serverHello, c.p.verifyingKey(c.identity)) == Ok(Finished(out.keys,
      ClientFinish(out.serverHello.sessionId, ClientTag(c.p, out.keys.confirmKey, out.transcript)), out.transcript))
    ensures var x := Undisturbed(c, client, out, slot);
      Transport.Connect(c.p, utf8, client, c.p.verifyingKey(c.identity), link, WriteAll([x.serverHello, x.serverFinish]))
      == Transport.Dialogue([x.hello, x.finish],
           Ok(Transport.TunnelConfig(slot.assignedIp, c.serverWgPubkey, Transport.Endpoint(link.peerIp, c.wgPort), out.keys.psk)))
  {
    var x := Undisturbed(c, client, out, slot);
    PayloadFits(x.hello, utf8);
    ReadTwo(x.serverHello, x.serverFinish, utf8);
  }

  /** An undisturbed handshake: fed each other's bytes, each driver writes exactly what the other one reads;
      both accept; and the tunnel the client gets carries the psk and address the server installed and
      registered. It needs only that the server has room for the peer, that encapsulation and `wg` succeed, and
      that each socket takes its two frames. */
  lemma UndisturbedHandshake(c: Context, utf8: Utf8, peers: Peers, wg: WgPeers, saved: Peers, env: Environment,
                             algo: Level, key: Bytes32, nonce: Bytes32, xPrivate: Bytes32, kemPrivate: seq<Byte>,
                             out: Outcome, writable: nat, link: Transport.Link)
    returns (x: Exchange)
    requires c.p.Laws() && utf8.Laws() && c.settings.Valid() && env.install.Installs? && writable >= 2 && link.writable >= 2
    requires key in peers || |peers| < c.settings.maxPeers
    requires var hello := Start(c.p, algo, key, nonce, xPrivate, kemPrivate).hello;
      Respond(c.p, c.identity, hello, env.freshId, env.random) == Ok(out)
    ensures var client := Start(c.p, algo, key, nonce, xPrivate, kemPrivate);
      var served := Serve(c, utf8, peers, wg, saved, WriteAll([x.hello, x.finish]), env, writable);
      var connected := Transport.Connect(c.p, utf8, client, c.p.verifyingKey(c.identity), link,
                                         WriteAll([x.serverHello, x.serverFinish]));
      && served.sent == [x.serverHello, x.serverFinish] && connected.sent == [x.hello, x.finish]
      && served.result == Ok(HandshakeDone(env.freshId)) && connected.result.Ok?
      && key in served.wg && key in served.peers
      && connected.result.value.psk == served.wg[key].psk == out.keys.psk
      && connected.result.value.assignedIp == served.wg[key].allowedIp == served.peers[key].assignedIp
      && connected.result.value.serverWgPubkey == c.serverWgPubkey
      && connected.result.value.endpoint == Transport.Endpoint(link.peerIp, c.wgPort)
      && served.peers[key].sessionId == env.freshId && served.peers[key].algo == algo
      && served.peers[key].lastActivity == env.now && served.peers[key].rekeys == 0
      && served.wg == wg[key := served.wg[key]] && served.peers == peers[key := served.peers[key]]
      && served.saved == (if env.persists then served.peers else saved)
  {
    var client := Start(c.p, algo, key, nonce, xPrivate, kemPrivate);
    if key !in peers {
      NewPeerGetsLowestFreeHost(c.settings, peers, key, algo, env.freshId, env.now);
    }
    var slot := Upsert(c.settings, peers, key, algo, env.freshId, env.now).1.value;
    x := Undisturbed(c, client, out, slot);
    HonestAnswerAccepted(c.p, c.identity, algo, key, nonce, xPrivate, kemPrivate, env.freshId, env.random, out);
    ServerHalf(c, utf8, peers, wg, saved, env, client, out, slot, writable);
    ClientHalf(c, utf8, client, out, slot, link);
  }

  // ---- an undisturbed rekey ---------------------------------------------------------------------

  /** What the server does with an honest client's rekey. */
  lemma RekeyHalf(c: Context, utf8: Utf8, peers: Peers, wg: WgPeers, saved: Peers, env: Environment, hello: ClientHello,
                  sid: Bytes16, fin: ClientFinish, out: Outcome, slot: PeerSlot, writable: nat)
    requires utf8.Laws() && hello.WellFormed() && out.serverHello.WellFormed() && env.install.Installs? && writable >= 2
    requires Respond(c.p, c.identity, hello, sid, env.random) == Ok(out)
    requires Rekey(peers, hello.clientWgPubkey, sid, hello.algo, env.now).1 == Ok(slot)
    requires fin == ClientFinish(sid, ClientTag(c.p, out.keys.confirmKey, out.transcript))
    ensures var peers' := Rekey(peers, hello.clientWgPubkey, sid, hello.algo, env.now).0;
      var tag := ServerTag(c.p, out.keys.confirmKey, out.transcript);
      Serve(c, utf8, peers, wg, saved, WriteAll([MRekeyRequest(Wire.RekeyRequest(sid, hello)), MClientFinish(fin)]), env, writable)
      == Talk(
           peers',
           wg[hello.clientWgPubkey := WgPeer(out.keys.psk, slot.assignedIp)],
           if env.persists then peers' else saved,
           [MServerHello(out.serverHello),
            MServerFinish(ServerFinish(slot.sessionId, tag, c.serverWgPubkey, slot.assignedIp, c.wgPort))],
           Ok(RekeyDone(slot.sessionId)))
  {
    var m1, m2 := MRekeyRequest(Wire.RekeyRequest(sid, hello)), MClientFinish(fin);
    ReadTwo(m1, m2, utf8);
    PayloadFits(MServerHello(out.serverHello), utf8);
    var read1 := ReadFrame(WriteAll([m1, m2]), utf8);
    RekeyHalfReads(c, peers, wg, saved, env, hello, sid, fin, out, slot, read1, ReadFrame(read1.rest, utf8), writable);
  }

  lemma RekeyHalfReads(c: Context, peers: Peers, wg: WgPeers, saved: Peers, env: Environment, hello: ClientHello,
                       sid: Bytes16, fin: ClientFinish, out: Outcome, slot: PeerSlot, read1: ReadOutcome, read2: ReadOutcome,
                       writable: nat)
    requires env.install.Installs? && writable >= 2 && Frame(MServerHello(out.serverHello)).Some?
    requires Respond(c.p, c.identity, hello, sid, env.random) == Ok(out)
    requires Rekey(peers, hello.clientWgPubkey, sid, hello.algo, env.now).1 == Ok(slot)
    requires fin == ClientFinish(sid, ClientTag(c.p, out.keys.confirmKey, out.transcript))
    requires read1.Got? && read1.msg == MRekeyRequest(Wire.RekeyRequest(sid, hello))
    requires read2.Got? && read2.msg == MClientFinish(fin)
    ensures var peers' := Rekey(peers, hello.clientWgPubkey, sid, hello.algo, env.now).0;
      var tag := ServerTag(c.p, out.keys.confirmKey, out.transcript);
      ServeReads(c, peers, wg, saved, read1, read2, env, writable)
      == Talk(
           peers',
           wg[hello.clientWgPubkey := WgPeer(out.keys.psk, slot.assignedIp)],
           if env.persists then peers' else saved,
           [MServerHello(out.serverHello),
            MServerFinish(ServerFinish(slot.sessionId, tag, c.serverWgPubkey, slot.assignedIp, c.wgPort))],
           Ok(RekeyDone(slot.sessionId)))
  {
    var pending := Pending(hello, Some(sid), sid, out);
    RekeyRest(c, peers, wg, saved, env, pending, fin, slot, read2, writable - 1);
  }

  lemma RekeyRest(c: Context, peers: Peers, wg: WgPeers, saved: Peers, env: Environment, pending: Pending, fin: ClientFinish,
                  slot: PeerSlot, read2: ReadOutcome, writable: nat)
    requires env.install.Installs? && writable >= 1 && pending.rekeyOf == Some(pending.sessionId)
    requires Rekey(peers, pending.hello.clientWgPubkey, pending.sessionId, pending.hello.algo, env.now).1 == Ok(slot)
    requires fin == ClientFinish(pending.sessionId, ClientTag(c.p, pending.outcome.keys.confirmKey, pending.outcome.transcript))
    requires read2.Got? && read2.msg == MClientFinish(fin)
    ensures var peers' := Rekey(peers, pending.hello.clientWgPubkey, pending.sessionId, pending.hello.algo, env.now).0;
      var tag := ServerTag(c.p, pending.outcome.keys.confirmKey, pending.outcome.transcript);
      ServeRest(c, peers, wg, saved, read2, pending, env, writable)
      == Talk(
           peers',
           wg[pending.hello.clientWgPubkey := WgPeer(pending.outcome.keys.psk, slot.assignedIp)],
           if env.persists then peers' else saved,
           [MServerFinish(ServerFinish(slot.sessionId, tag, c.serverWgPubkey, slot.assignedIp, c.wgPort))],
           Ok(RekeyDone(slot.sessionId)))
  {
  }

  /** An undisturbed rekey, byte for byte: a registered peer that names its current session and no weaker algorithm,
      and finishes as the client does, gets a ServerHello it accepts, for the same session, and a ServerFinish it
      accepts. The tunnel has the new psk the server installed, the address the peer has had all along, and the
      server's key and port; the registry keeps session and address, and counts one more rekey. */
  lemma UndisturbedRekey(c: Context, utf8: Utf8, peers: Peers, wg: WgPeers, saved: Peers, env: Environment,
                         algo: Level, key: Bytes32, nonce: Bytes32, xPrivate: Bytes32, kemPrivate: seq<Byte>,
                         sid: Bytes16, out: Outcome, writable: nat, peerIp: seq<Byte>)
    returns (f: Finished, sh: ServerHello, sf: ServerFinish, tunnel: Transport.TunnelConfig)
    requires c.p.Laws() && utf8.Laws() && env.install.Installs? && writable >= 2
    requires key in peers && peers[key].sessionId == sid && !algo.WeakerThan(peers[key].algo)
    requires Respond(c.p, c.identity, Start(c.p, algo, key, nonce, xPrivate, kemPrivate).hello, sid, env.random) == Ok(out)
    ensures var client := Start(c.p, algo, key, nonce, xPrivate, kemPrivate);
      var served := Serve(c, utf8, peers, wg, saved,
        WriteAll([MRekeyRequest(Wire.RekeyRequest(sid, client.hello)), MClientFinish(f.finish)]), env, writable);
      && served.sent == [MServerHello(sh), MServerFinish(sf)] && served.result == Ok(RekeyDone(sid))
      && Finish(c.p, client, sh, c.p.verifyingKey(c.identity)) == Ok(f) && sh.sessionId == sid
      && sf.sessionId == f.finish.sessionId
      && sf.serverTag == c.p.hmac(f.keys.confirmKey, Ascii("server finished") + f.transcript)
      && Transport.Accept(c.p, peerIp, f, sf) == Ok(tunnel)
      && key in served.wg && key in served.peers
      && tunnel.psk == served.wg[key].psk == out.keys.psk
      && tunnel.assignedIp == served.wg[key].allowedIp == served.peers[key].assignedIp == peers[key].assignedIp
      && tunnel.serverWgPubkey == c.serverWgPubkey && tunnel.endpoint == Transport.Endpoint(peerIp, c.wgPort)
      && served.peers == peers[key := peers[key].(algo := algo, rekeys := Wrapped(peers[key].rekeys, 1), lastActivity := env.now)]
      && served.wg == wg[key := served.wg[key]]
      && served.saved == if env.persists then served.peers else saved
  {
    var client := Start(c.p, algo, key, nonce, xPrivate, kemPrivate);
    HonestAnswerAccepted(c.p, c.identity, algo, key, nonce, xPrivate, kemPrivate, sid, env.random, out);
    f := Finish(c.p, client, out.serverHello, c.p.verifyingKey(c.identity)).value;
    var slot := PeerSlot(sid, peers[key].assignedIp);
    IncrementWraps(peers[key].rekeys, 0);
    RekeyHalf(c, utf8, peers, wg, saved, env, client.hello, sid, f.finish, out, slot, writable);
    sh := out.serverHello;
    sf := ServerFinish(sid, ServerTag(c.p, out.keys.confirmKey, out.transcript), c.serverWgPubkey, slot.assignedIp, c.wgPort);
    tunnel := Transport.TunnelConfig(slot.assignedIp, c.serverWgPubkey, Transport.Endpoint(peerIp, c.wgPort), out.keys.psk);
  }

  // ---- key confirmation over the interleaved server ---------------------------------------------

  /** The `respond` calls of a run. */
  function RespondCalls(c: Context, actions: seq<Action>): set<Call> {
    if actions == [] then {}
    else
      var last := |actions| - 1;
      RespondCalls(c, actions[..last]) + match CallAt(actions[last])
        case Some(call) => {call}
        case None => {}
  }

  /** The `respond` call of a step, if it makes one. */
  function CallAt(a: Action): Option<Call> {
    if !(a.First? && a.read.Got?) then None
    else match a.read.msg
      case MClientHello(h) => Some(Call(h, a.freshId, a.random))
      case MRekeyRequest(r) => Some(Call(r.hello, r.sessionId, a.random))
      case _ => None
  }

  predicate Finishes(c: Context, worlds: seq<World>, actions: seq<Action>, m: nat, confirmKey: Bytes32, transcript: seq<Byte>)
    requires IsRun(c, worlds, actions) && m < |actions|
  {
    actions[m].Reply? && actions[m].wire
    && var out := Mover(c, worlds, actions, m).pending.outcome;
       out.keys.confirmKey == confirmKey && out.transcript == transcript
  }

  /** HMAC is unforgeable under the run's own keys: a server tag that verifies under a confirm key some `respond`
      call of the run derived was sent by a handler of the run, under that key and over that transcript. */
  ghost predicate TagNotForged(c: Context, worlds: seq<World>, actions: seq<Action>, confirmKey: Bytes32,
                               transcript: seq<Byte>, tag: Bytes32)
    requires IsRun(c, worlds, actions)
  {
    (exists call :: call in RespondCalls(c, actions) && Derives(c, call, confirmKey)) && tag == ServerTag(c.p, confirmKey, transcript) ==>
      exists m: nat :: m < |actions| && Finishes(c, worlds, actions, m, confirmKey, transcript)
  }

  predicate Derives(c: Context, call: Call, confirmKey: Bytes32) {
    var r := call.Result(c.p, c.identity);
    r.Ok? && r.value.keys.confirmKey == confirmKey
  }

  /** The server's side of a handshake a client has finished and got a server tag for. */
  lemma ConfirmedMeansInstalled(c: Context, worlds: seq<World>, actions: seq<Action>, vk: seq<Byte>,
                                algo: Level, wg: Bytes32, nonce: Bytes32, xPrivate: Bytes32, kemPrivate: seq<Byte>,
                                sh: ServerHello, f: Finished, tag: Bytes32)
    returns (i: nat, pending: Pending, slot: PeerSlot, m1: nat, m2: nat, m3: nat, m4: nat, m5: nat)
    requires c.p.Laws() && IsRun(c, worlds, actions) && worlds[0].handlers == map[]
    requires Finish(c.p, Start(c.p, algo, wg, nonce, xPrivate, kemPrivate), sh, vk) == Ok(f)
    requires NotForged(c.p, c.identity, vk, RespondCalls(c, actions), f.transcript, sh.signature)
    requires tag == ServerTag(c.p, f.keys.confirmKey, f.transcript)
    requires TagNotForged(c, worlds, actions, f.keys.confirmKey, f.transcript, tag)
    ensures m1 < m2 < m3 < m4 < m5 < |actions|
    ensures Responded(c, actions, m1, i, pending) && TagVerified(c, actions, m2, i, pending)
    ensures RegistryAccepted(c, worlds, actions, m3, i, pending, slot)
    ensures Installing(actions[m4], i) && actions[m5] == Action.Reply(i, true)
    ensures var key := pending.hello.clientWgPubkey;
      key in worlds[m4 + 1].wg && worlds[m4 + 1].wg[key] == WgPeer(f.keys.psk, slot.assignedIp)
    ensures pending.hello.algo == algo && pending.hello.clientNonce == nonce
    ensures pending.hello.clientX25519Pub == c.p.xPublic(xPrivate) && pending.hello.clientMlkemPub == c.p.kemPublic(algo, kemPrivate)
  {
    var call := Agreement(c.p, c.identity, vk, RespondCalls(c, actions), algo, wg, nonce, xPrivate, kemPrivate, sh, f);
    assert Derives(c, call, f.keys.confirmKey);
    m5 :| m5 < |actions| && Finishes(c, worlds, actions, m5, f.keys.confirmKey, f.transcript);
    i := actions[m5].id;
    pending, slot := worlds[m5].handlers[i].pending, worlds[m5].handlers[i].slot;
    m1, m2, m3, m4 := InstalledHistory(c, worlds, actions, m5, i);
    SameTranscriptSameKeys(c.p, c.identity, Call(pending.hello, pending.sessionId, actions[m1].random),
      algo, wg, nonce, xPrivate, kemPrivate, sh, vk, f);
  }

  /** Whatever bytes reach the client and however the handlers interleave: if `connect` hands back a tunnel, then
      one handler of the server answered this very hello, verified the client's tag, was accepted by the
      registry, put the tunnel's psk on the interface, and only then sent its ServerFinish. */
  lemma TunnelMeansInstalled(c: Context, utf8: Utf8, worlds: seq<World>, actions: seq<Action>, vk: seq<Byte>,
                             algo: Level, wg: Bytes32, nonce: Bytes32, xPrivate: Bytes32, kemPrivate: seq<Byte>,
                             link: Transport.Link, input: seq<Byte>, tunnel: Transport.TunnelConfig)
    returns (i: nat, pending: Pending, slot: PeerSlot, m1: nat, m2: nat, m3: nat, m4: nat, m5: nat)
    requires c.p.Laws() && IsRun(c, worlds, actions) && worlds[0].handlers == map[]
    requires Transport.Connect(c.p, utf8, Start(c.p, algo, wg, nonce, xPrivate, kemPrivate), vk, link, input).result == Ok(tunnel)
    requires Transport.SignatureGenuine(c.p, utf8, Start(c.p, algo, wg, nonce, xPrivate, kemPrivate), c.identity, vk,
      RespondCalls(c, actions), input)
    requires TagGenuine(c, utf8, worlds, actions, Start(c.p, algo, wg, nonce, xPrivate, kemPrivate), vk, input)
    ensures m1 < m2 < m3 < m4 < m5 < |actions|
    ensures Responded(c, actions, m1, i, pending) && TagVerified(c, actions, m2, i, pending)
    ensures RegistryAccepted(c, worlds, actions, m3, i, pending, slot)
    ensures Installing(actions[m4], i) && actions[m5] == Action.Reply(i, true)
    ensures var key := pending.hello.clientWgPubkey;
      key in worlds[m4 + 1].wg && worlds[m4 + 1].wg[key] == WgPeer(tunnel.psk, slot.assignedIp)
    ensures pending.hello.algo == algo && pending.hello.clientNonce == nonce
    ensures pending.hello.clientX25519Pub == c.p.xPublic(xPrivate) && pending.hello.clientMlkemPub == c.p.kemPublic(algo, kemPrivate)
  {
    var sh, f, sf := Transport.TunnelMessages(c.p, utf8, Start(c.p, algo, wg, nonce, xPrivate, kemPrivate), vk, link, input, tunnel);
    i, pending, slot, m1, m2, m3, m4, m5 := ConfirmedMeansInstalled(c, worlds, actions, vk, algo, wg, nonce, xPrivate, kemPrivate,
      sh, f, sf.serverTag);
  }

  /** The server tag the client reads from `input`, under the keys it finished with, is not a forgery. */
  ghost predicate TagGenuine(c: Context, utf8: Utf8, worlds: seq<World>, actions: seq<Action>, client: ClientHandshake,
                             vk: seq<Byte>, input: seq<Byte>)
    requires IsRun(c, worlds, actions)
  {
    forall sh: ServerHello, f: Finished, sf: ServerFinish ::
      Transport.Receives(c.p, utf8, client, vk, input, sh, f, sf) ==>
        TagNotForged(c, worlds, actions, f.keys.confirmKey, f.transcript, sf.serverTag)
  }

  lemma SameTranscriptSameKeys(p: Primitives, identity: seq<Byte>, call: Call, algo: Level, wg: Bytes32, nonce: Bytes32,
                               xPrivate: Bytes32, kemPrivate: seq<Byte>, sh: ServerHello, vk: seq<Byte>, f: Finished)
    requires p.Laws() && Finish(p, Start(p, algo, wg, nonce, xPrivate, kemPrivate), sh, vk) == Ok(f)
    requires call.Result(p, identity).Ok? && call.Result(p, identity).value.transcript == f.transcript
    ensures Matches(p, identity, call, Start(p, algo, wg, nonce, xPrivate, kemPrivate), sh, f)
  {
    var call' := Agreement(p, identity, vk, {call}, algo, wg, nonce, xPrivate, kemPrivate, sh, f);
  }

  // ---- a connection on its own is a run of the machine -----------------------------------------

  /** A path whose steps are all handler `id`'s. */
  predicate OwnPath(c: Context, w: World, w': World, worlds: seq<World>, actions: seq<Action>, id: nat) {
    Path(c, w, w', worlds, actions) && forall n :: 0 <= n < |actions| ==> actions[n].id == id
  }

  lemma ExtendOwn(c: Context, w: World, last: World, worlds: seq<World>, actions: seq<Action>, a: Action, next: World)
    returns (worlds': seq<World>, actions': seq<Action>)
    requires OwnPath(c, w, last, worlds, actions, a.id) && Enabled(last, a) && Step(c, last, a) == next
    ensures OwnPath(c, w, next, worlds', actions', a.id)
  {
    worlds', actions' := Extend(c, w, last, worlds, actions, a, next);
  }

  /** What `handle_connection` does to the registry, the interface and the file is a run of the interleaved
      machine, so every law of the machine holds of it. */
  lemma ConnectionIsRun(c: Context, w: World, read1: ReadOutcome, read2: ReadOutcome, env: Environment, writable: nat, id: nat)
    returns (worlds: seq<World>, actions: seq<Action>)
    requires id !in w.handlers
    ensures var t := ServeReads(c, w.peers, w.wg, w.saved, read1, read2, env, writable);
      OwnPath(c, w, World(t.peers, t.wg, t.saved, w.handlers[id := Closed(t.result)]), worlds, actions, id)
  {
    var wire := writable > 0;
    worlds, actions := [w], [];
    var w1 := w.(handlers := w.handlers[id := Reading]);
    worlds, actions := ExtendOwn(c, w, w, worlds, actions, Accept(id), w1);
    var t1 := OnFirst(c, read1, env.ioText, env.freshId, env.random).After(wire);
    assert w1.handlers[id := t1] == w.handlers[id := t1];
    var w2 := w.(handlers := w.handlers[id := t1]);
    worlds, actions := ExtendOwn(c, w, w1, worlds, actions,
      First(id, read1, env.ioText, env.freshId, env.random, wire), w2);
    if !t1.Closed? {
      worlds, actions := RestIsRun(c, w, w, read2, env, if wire then writable - 1 else 0, id, t1.pending, worlds, actions);
    }
  }

  /** `start` is where the run began; `w` is the world around a handler that has written ServerHello. */
  lemma RestIsRun(c: Context, start: World, w: World, read2: ReadOutcome, env: Environment, writable: nat, id: nat,
                  pending: Pending, worlds0: seq<World>, actions0: seq<Action>)
    returns (worlds: seq<World>, actions: seq<Action>)
    requires OwnPath(c, start, w.(handlers := w.handlers[id := AwaitingFinish(pending)]), worlds0, actions0, id)
    ensures var t := ServeRest(c, w.peers, w.wg, w.saved, read2, pending, env, writable);
      OwnPath(c, start, World(t.peers, t.wg, t.saved, w.handlers[id := Closed(t.result)]), worlds, actions, id)
  {
    var wire := writable > 0;
    SecondTurn(c, pending, read2, wire);
    var t2 := OnSecond(c, pending, read2).After(wire);
    var w2 := w.(handlers := w.handlers[id := AwaitingFinish(pending)]);
    var w3 := w.(handlers := w.handlers[id := t2]);
    assert w2.handlers[id := t2] == w3.handlers;
    worlds, actions := ExtendOwn(c, start, w2, worlds0, actions0, Second(id, read2, wire), w3);
    if !t2.Closed? {
      worlds, actions := ConfirmedIsRun(c, start, w, env, wire, id, pending, worlds, actions);
    }
  }

  lemma ConfirmedIsRun(c: Context, start: World, w: World, env: Environment, wire: bool, id: nat, pending: Pending,
                       worlds0: seq<World>, actions0: seq<Action>)
    returns (worlds: seq<World>, actions: seq<Action>)
    requires OwnPath(c, start, w.(handlers := w.handlers[id := Confirmed(pending)]), worlds0, actions0, id)
    ensures var t := ServeConfirmed(c, w.peers, w.wg, w.saved, pending, env, wire);
      OwnPath(c, start, World(t.peers, t.wg, t.saved, w.handlers[id := Closed(t.result)]), worlds, actions, id)
  {
    RegisterTurn(c, w.peers, pending, env.now, wire);
    var (peers, t) := OnRegister(c, w.peers, pending, env.now);
    var t3 := t.After(wire);
    var w3 := w.(handlers := w.handlers[id := Confirmed(pending)]);
    var w4 := World(peers, w.wg, w.saved, w.handlers[id := t3]);
    assert w3.handlers[id := t3] == w4.handlers;
    worlds, actions := ExtendOwn(c, start, w3, worlds0, actions0, Register(id, env.now, wire), w4);
    if !t3.Closed? {
      worlds, actions := RegisteredIsRun(c, start, w.(peers := peers), env, wire, id, pending, t3.slot, worlds, actions);
    }
  }

  lemma RegisteredIsRun(c: Context, start: World, w: World, env: Environment, wire: bool, id: nat, pending: Pending,
                        slot: PeerSlot, worlds0: seq<World>, actions0: seq<Action>)
    returns (worlds: seq<World>, actions: seq<Action>)
    requires OwnPath(c, start, w.(handlers := w.handlers[id := Registered(pending, slot)]), worlds0, actions0, id)
    ensures var t := ServeRegistered(c, w.peers, w.wg, w.saved, pending, slot, env, wire);
      OwnPath(c, start, World(t.peers, t.wg, t.saved, w.handlers[id := Closed(t.result)]), worlds, actions, id)
  {
    var (wg, t) := OnInstall(w.wg, pending, slot, env.install);
    var t4 := t.After(wire);
    var w4 := w.(handlers := w.handlers[id := Registered(pending, slot)]);
    var w5 := World(w.peers, wg, w.saved, w.handlers[id := t4]);
    assert w4.handlers[id := t4] == w5.handlers;
    worlds, actions := ExtendOwn(c, start, w4, worlds0, actions0, Install(id, env.install, wire), w5);
    if !t4.Closed? {
      worlds, actions := InstalledIsRun(c, start, w.(wg := wg), env, wire, id, pending, slot, worlds, actions);
    }
  }

  lemma InstalledIsRun(c: Context, start: World, w: World, env: Environment, wire: bool, id: nat, pending: Pending,
                       slot: PeerSlot, worlds0: seq<World>, actions0: seq<Action>)
    returns (worlds: seq<World>, actions: seq<Action>)
    requires OwnPath(c, start, w.(handlers := w.handlers[id := Installed(pending, slot)]), worlds0, actions0, id)
    ensures var saved := if env.persists then w.peers else w.saved;
      OwnPath(c, start, World(w.peers, w.wg, saved, w.handlers[id := OnFinish(c, pending, slot).After(wire)]), worlds, actions, id)
  {
    var saved := if env.persists then w.peers else w.saved;
    var done := OnFinish(c, pending, slot).After(wire);
    var w5 := w.(handlers := w.handlers[id := Installed(pending, slot)]);
    var w6 := w.(saved := saved, handlers := w.handlers[id := Saved(pending, slot)]);
    assert w5.handlers[id := Saved(pending, slot)] == w6.handlers;
    worlds, actions := ExtendOwn(c, start, w5, worlds0, actions0, Action.Persist(id, env.persists), w6);
    assert w6.handlers[id := done] == w.handlers[id := done];
    worlds, actions := ExtendOwn(c, start, w6, worlds, actions, Action.Reply(id, wire), w6.(handlers := w.handlers[id := done]));
  }
}
