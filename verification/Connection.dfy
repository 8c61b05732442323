/** `handle_connection` as the server runs it: one stream, the registry, the interface and the registry file,
    step after step. */
module Connection {
  import opened Bytes
  import opened Wire
  import opened WireCodec
  import opened WireRoundTrip
  import opened Handshake
  import opened PeerRegistry
  import opened Server

  /** The WireGuard interface. Whether a `wg` command succeeds is decided outside. */
  class Interface {
    var peers: WgPeers

    constructor (peers: WgPeers)
      ensures this.peers == peers
    {
      this.peers := peers;
    }

    method Install(key: Bytes32, psk: Bytes32, ip: Bytes4, outcome: InstallOutcome) returns (r: InstallOutcome)
      modifies this
      ensures r == outcome
      ensures peers == if r.Installs? then old(peers)[key := WgPeer(psk, ip)] else old(peers)
    {
      if outcome.Installs? {
        peers := peers[key := WgPeer(psk, ip)];
      }
      return outcome;
    }

    method RemovePeer(key: Bytes32, succeeds: bool) returns (ok: bool)
      modifies this
      ensures ok == succeeds
      ensures peers == if ok then old(peers) - {key} else old(peers)
    {
      if succeeds {
        peers := peers - {key};
      }
      return succeeds;
    }
  }

  /** The registry file, as the peers last written to it. Whether a write succeeds is decided outside. */
  class RegistryDisk {
    var saved: Peers

    constructor (saved: Peers)
      ensures this.saved == saved
    {
      this.saved := saved;
    }

    method Save(registry: Registry, succeeds: bool)
      modifies this
      ensures saved == if succeeds then registry.peers else old(saved)
    {
      if succeeds {
        saved := registry.peers;
      }
    }
  }

  // ---- one connection, start to end -----------------------------------------------------------

  /** What the random source, the clock, `wg`, the disk and the operating system give one connection. */
  datatype Environment = Environment(
    freshId: Bytes16, random: ServerRandom, now: int, install: InstallOutcome, persists: bool, ioText: seq<Byte>)

  datatype Talk = Talk(peers: Peers, wg: WgPeers, saved: Peers, sent: seq<Message>, result: Result<ConnResult, ConnError>)

  /** From message 3 on, on a socket that takes `writable` more frames. */
  function ServeRest(c: Context, peers: Peers, wg: WgPeers, saved: Peers, read2: ReadOutcome, pending: Pending,
                     env: Environment, writable: nat): Talk
  {
    var wire := writable > 0;
    var t2 := OnSecond(c, pending, read2);
    if t2.After(wire).Closed? then Talk(peers, wg, saved, t2.Sent(wire), t2.After(wire).result)
    else ServeConfirmed(c, peers, wg, saved, pending, env, wire)
  }

  function ServeConfirmed(c: Context, peers: Peers, wg: WgPeers, saved: Peers, pending: Pending, env: Environment, wire: bool)
    : Talk
  {
    var (peers', t3) := OnRegister(c, peers, pending, env.now);
    if t3.After(wire).Closed? then Talk(peers', wg, saved, t3.Sent(wire), t3.After(wire).result)
    else ServeRegistered(c, peers', wg, saved, pending, t3.After(wire).slot, env, wire)
  }

  function ServeRegistered(c: Context, peers: Peers, wg: WgPeers, saved: Peers, pending: Pending, slot: PeerSlot,
                           env: Environment, wire: bool): Talk
  {
    var (wg', t4) := OnInstall(wg, pending, slot, env.install);
    if t4.After(wire).Closed? then Talk(peers, wg', saved, t4.Sent(wire), t4.After(wire).result)
    else
      var (saved', _) := OnPersist(peers, saved, pending, slot, env.persists);
      var t5 := OnFinish(c, pending, slot);
      Talk(peers, wg', saved', t5.Sent(wire), t5.After(wire).result)
  }

  function ServeReads(c: Context, peers: Peers, wg: WgPeers, saved: Peers, read1: ReadOutcome, read2: ReadOutcome,
                      env: Environment, writable: nat): Talk
  {
    var wire := writable > 0;
    var t1 := OnFirst(c, read1, env.ioText, env.freshId, env.random);
    if t1.After(wire).Closed? then Talk(peers, wg, saved, t1.Sent(wire), t1.After(wire).result)
    else
      var left := if wire then writable - 1 else 0;
      var rest := ServeRest(c, peers, wg, saved, read2, t1.After(wire).pending, env, left);
      rest.(sent := t1.Sent(wire) + rest.sent)
  }

  /** The second read starts where the first one stopped. */
  function SecondRead(read1: ReadOutcome, utf8: Utf8): ReadOutcome {
    if read1.Got? then ReadFrame(read1.rest, utf8) else Eof
  }

  /** The whole exchange as a function of the bytes that arrive. */
  function Serve(c: Context, utf8: Utf8, peers: Peers, wg: WgPeers, saved: Peers, input: seq<Byte>, env: Environment,
                 writable: nat): Talk
  {
    var read1 := ReadFrame(input, utf8);
    ServeReads(c, peers, wg, saved, read1, SecondRead(read1, utf8), env, writable)
  }

  lemma {:induction false} WriteAllAppends(ms: seq<Message>, ns: seq<Message>)
    ensures WriteAll(ms + ns) == WriteAll(ms) + WriteAll(ns)
  {
    if ms == [] {
      assert [] + ns == ns;
    } else {
      assert (ms + ns)[1..] == ms[1..] + ns;
      WriteAllAppends(ms[1..], ns);
    }
  }

  /** The stream took turn `t`, which left the handler at `h`. */
  twostate predicate Took(stream: Stream, t: Turn, h: Handler)
    reads stream
  {
    var wire := old(stream.writable) > 0;
    && h == t.After(wire)
    && stream.output == old(stream.output) + WriteAll(t.Sent(wire))
    && stream.writable == old(stream.writable) - if t.Delivers(wire) then 1 else 0
  }

  /** Writes a turn's message, if the socket takes it. */
  method Send(stream: Stream, m: Message) returns (ok: bool)
    modifies stream`output, stream`writable
    ensures forall next: Handler, unsent: Handler :: Took(stream, Turn(next, Some(m), unsent), if ok then next else unsent)
  {
    ok := stream.Write(m);
    AppendNothing(old(stream.output));
    if ok {
      WriteOne(m);
    }
  }

  /** `reject`, and what a handler that propagates its failure ends with. */
  method SendReject(stream: Stream, code: Byte, text: seq<Byte>, result: Result<ConnResult, ConnError>) returns (h: Handler)
    modifies stream`output, stream`writable
    ensures Took(stream, Refuse(code, text, result), h)
  {
    var ok := Send(stream, MError(ErrorMsg(code, text)));
    h := if ok then Closed(result) else Closed(Err(Io));
  }

  /** `let _ = reject(...)`. */
  method SendUnreadable(stream: Stream, text: seq<Byte>, e: FrameError) returns (h: Handler)
    modifies stream`output, stream`writable
    ensures Took(stream, Unreadable(text, e), h)
  {
    var _ := Send(stream, MError(ErrorMsg(0x02, text)));
    h := Closed(Err(BadFrame(e)));
  }

  method ReceiveFirst(c: Context, utf8: Utf8, stream: Stream, ioText: seq<Byte>, freshId: Bytes16, random: ServerRandom)
    returns (h: Handler)
    modifies stream
    ensures Took(stream, OnFirst(c, ReadFrame(old(stream.input), utf8), ioText, freshId, random), h)
    ensures h.AwaitingFinish? ==> stream.input == SecondInput(old(stream.input), utf8)
  {
    var read := stream.Read(utf8);
    match read
    case Eof => h := SendUnreadable(stream, Ascii("transport error: ") + ioText, FrameIo);
    case Bad(e) => h := SendUnreadable(stream, Ascii(WireErrorDisplay(e)), FrameWire(e));
    case Got(m, _) => h := SendAnswer(c, stream, m, freshId, random);
  }

  method SendAnswer(c: Context, stream: Stream, m: Message, freshId: Bytes16, random: ServerRandom) returns (h: Handler)
    modifies stream`output, stream`writable
    ensures Took(stream, AnswerFirst(c, m, freshId, random), h)
  {
    match m
    case MClientHello(q) => h := SendHello(c, stream, q, None, freshId, random);
    case MRekeyRequest(q) => h := SendHello(c, stream, q.hello, Some(q.sessionId), q.sessionId, random);
    case _ => h := SendReject(stream, 0x02, Ascii("expected ClientHello or RekeyRequest"), Err(Protocol));
  }

  /** The bytes after the first frame. */
  function SecondInput(input: seq<Byte>, utf8: Utf8): seq<Byte> {
    if ReadFrame(input, utf8).Got? then ReadFrame(input, utf8).rest else []
  }

  method SendHello(c: Context, stream: Stream, hello: ClientHello, rekeyOf: Option<Bytes16>, sessionId: Bytes16, random: ServerRandom)
    returns (h: Handler)
    modifies stream`output, stream`writable
    ensures Took(stream, AnswerHello(c, hello, rekeyOf, sessionId, random), h)
  {
    match Respond(c.p, c.identity, hello, sessionId, random)
    case Err(e) =>
      h := SendReject(stream, ProtocolCode(e), Ascii(ErrorDisplay(e)), Ok(Rejected(ProtocolCode(e))));
    case Ok(out) =>
      var ok := Send(stream, MServerHello(out.serverHello));
      h := if ok then AwaitingFinish(Pending(hello, rekeyOf, sessionId, out)) else Closed(Err(Io));
  }

  method ReceiveFinish(c: Context, utf8: Utf8, stream: Stream, pending: Pending) returns (h: Handler)
    modifies stream
    ensures Took(stream, OnSecond(c, pending, ReadFrame(old(stream.input), utf8)), h)
  {
    var read := stream.Read(utf8);
    AppendNothing(stream.output);
    match read
    case Eof => return Closed(Err(BadFrame(FrameIo)));
    case Bad(e) => return Closed(Err(BadFrame(FrameWire(e))));
    case Got(m, _) =>
      if !m.MClientFinish? {
        h := SendReject(stream, 0x02, Ascii("expected ClientFinish"), Err(Protocol));
        return;
      }
      if m.cf.sessionId != pending.sessionId
         || m.cf.clientTag != ClientTag(c.p, pending.outcome.keys.confirmKey, pending.outcome.transcript) {
        h := SendReject(stream, 0x06, Ascii("client finish tag did not verify"), Ok(Rejected(0x06)));
        return;
      }
      return Confirmed(pending);
  }

  method RegisterPeer(c: Context, stream: Stream, registry: Registry, pending: Pending, now: int) returns (h: Handler)
    requires registry.Valid() && registry.settings == c.settings
    modifies stream`output, stream`writable, registry
    ensures var (peers, t) := OnRegister(c, old(registry.peers), pending, now);
      registry.peers == peers && Took(stream, t, h)
  {
    var key := pending.hello.clientWgPubkey;
    var answer;
    if pending.rekeyOf.Some? {
      answer := registry.RekeySession(key, pending.rekeyOf.value, pending.hello.algo, now);
    } else {
      answer := registry.UpsertHandshake(key, pending.hello.algo, pending.sessionId, now);
    }
    AppendNothing(stream.output);
    match answer
    case Ok(slot) => return Registered(pending, slot);
    case Err(e) => h := SendReject(stream, RejectCode(e), Ascii(RejectText(e)), Ok(Rejected(RejectCode(e))));
  }

  method InstallPsk(stream: Stream, wg: Interface, pending: Pending, slot: PeerSlot, outcome: InstallOutcome) returns (h: Handler)
    modifies stream`output, stream`writable, wg
    ensures var (peers, t) := OnInstall(old(wg.peers), pending, slot, outcome);
      wg.peers == peers && Took(stream, t, h)
  {
    var r := wg.Install(pending.hello.clientWgPubkey, pending.outcome.keys.psk, slot.assignedIp, outcome);
    AppendNothing(stream.output);
    match r
    case Installs => return Installed(pending, slot);
    case Fails(text) => h := SendReject(stream, 0x08, text, Err(InstallFailed));
  }

  method SendFinish(c: Context, stream: Stream, pending: Pending, slot: PeerSlot) returns (h: Handler)
    modifies stream`output, stream`writable
    ensures Took(stream, OnFinish(c, pending, slot), h)
  {
    var tag := ServerTag(c.p, pending.outcome.keys.confirmKey, pending.outcome.transcript);
    var ok := Send(stream, MServerFinish(ServerFinish(slot.sessionId, tag, c.serverWgPubkey, slot.assignedIp, c.wgPort)));
    if !ok {
      return Closed(Err(Io));
    }
    return Closed(Ok(if pending.rekeyOf.Some? then RekeyDone(slot.sessionId) else HandshakeDone(slot.sessionId)));
  }

  /** Messages 3 and 4, once ServerHello is out. */
  method FinishConnection(c: Context, utf8: Utf8, stream: Stream, registry: Registry, wg: Interface, disk: RegistryDisk,
                          pending: Pending, env: Environment)
    returns (r: Result<ConnResult, ConnError>, ghost sent: seq<Message>)
    requires registry.Valid() && registry.settings == c.settings
    modifies stream, registry, wg, disk
    ensures stream.output == old(stream.output) + WriteAll(sent)
    ensures Talk(registry.peers, wg.peers, disk.saved, sent, r)
      == ServeRest(c, old(registry.peers), old(wg.peers), old(disk.saved), ReadFrame(old(stream.input), utf8), pending, env,
           old(stream.writable))
  {
    ghost var t2 := OnSecond(c, pending, ReadFrame(stream.input, utf8));
    ghost var wire := stream.writable > 0;
    AppendNothing(stream.output);
    var h := ReceiveFinish(c, utf8, stream, pending);
    if h.Closed? {
      return h.result, t2.Sent(wire);
    }
    r, sent := CompleteConnection(c, stream, registry, wg, disk, pending, env);
  }

  /** From the verified tag on: registry, interface, file, ServerFinish. */
  method CompleteConnection(c: Context, stream: Stream, registry: Registry, wg: Interface, disk: RegistryDisk,
                            pending: Pending, env: Environment)
    returns (r: Result<ConnResult, ConnError>, ghost sent: seq<Message>)
    requires registry.Valid() && registry.settings == c.settings
    modifies stream, registry, wg, disk
    ensures stream.output == old(stream.output) + WriteAll(sent)
    ensures Talk(registry.peers, wg.peers, disk.saved, sent, r)
      == ServeConfirmed(c, old(registry.peers), old(wg.peers), old(disk.saved), pending, env, old(stream.writable) > 0)
  {
    ghost var wire := stream.writable > 0;
    AppendNothing(stream.output);
    ghost var t3 := OnRegister(c, registry.peers, pending, env.now).1;
    var h := RegisterPeer(c, stream, registry, pending, env.now);
    if h.Closed? {
      return h.result, t3.Sent(wire);
    }
    var slot := h.slot;
    ghost var t4 := OnInstall(wg.peers, pending, slot, env.install).1;
    h := InstallPsk(stream, wg, pending, slot, env.install);
    if h.Closed? {
      return h.result, t4.Sent(wire);
    }
    disk.Save(registry, env.persists);
    h := SendFinish(c, stream, pending, slot);
    return h.result, OnFinish(c, pending, slot).Sent(wire);
  }

  /** `handle_connection`: what it reads, writes, records, installs and saves, and what it returns. */
  method HandleConnection(c: Context, utf8: Utf8, stream: Stream, registry: Registry, wg: Interface, disk: RegistryDisk,
                          env: Environment)
    returns (r: Result<ConnResult, ConnError>)
    requires registry.Valid() && registry.settings == c.settings
    modifies stream, registry, wg, disk
    ensures var t := Serve(c, utf8, old(registry.peers), old(wg.peers), old(disk.saved), old(stream.input), env,
                           old(stream.writable));
      registry.peers == t.peers && wg.peers == t.wg && disk.saved == t.saved && r == t.result
      && stream.output == old(stream.output) + WriteAll(t.sent)
  {
    ghost var wire := stream.writable > 0;
    ghost var t1 := OnFirst(c, ReadFrame(stream.input, utf8), env.ioText, env.freshId, env.random);
    var h := ReceiveFirst(c, utf8, stream, env.ioText, env.freshId, env.random);
    if h.Closed? {
      return h.result;
    }
    assert t1.Delivers(wire);
    ghost var sent;
    r, sent := FinishConnection(c, utf8, stream, registry, wg, disk, h.pending, env);
    WriteAllAppends(t1.Sent(wire), sent);
    Assoc(old(stream.output), WriteAll(t1.Sent(wire)), WriteAll(sent));
  }
}
