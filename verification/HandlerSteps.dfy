/** Exactly when a handler goes on, and what it says either way: each stage on every input, in terms of the
    messages and the primitives. */
module HandlerSteps {
  import opened Bytes
  import opened Wire
  import opened Handshake
  import opened PeerRegistry
  import opened Server

  /** The turn of a handler that refuses: one Error, and the result it then returns. */
  predicate Says(t: Turn, code: Byte, text: string, result: Result<ConnResult, ConnError>) {
    t == Turn(Closed(result), Some(MError(ErrorMsg(code, Ascii(text)))), Closed(Err(Io)))
  }

  /** The hello of a first message and the session it is for: a hello gets the fresh session id, a rekey keeps the
      one it names. */
  predicate Asks(m: Message, freshId: Bytes16, hello: ClientHello, rekeyOf: Option<Bytes16>, sessionId: Bytes16) {
    || (m == MClientHello(hello) && rekeyOf == None && sessionId == freshId)
    || (m == MRekeyRequest(Wire.RekeyRequest(sessionId, hello)) && rekeyOf == Some(sessionId))
  }

  /** Message 1: a hello or rekey that `respond` answers is answered with its ServerHello; one it fails on gets
      INTERNAL; any other message MALFORMED. */
  lemma FirstExactly(c: Context, m: Message, rest: seq<Byte>, ioText: seq<Byte>, freshId: Bytes16, random: ServerRandom)
    ensures var t := OnFirst(c, Got(m, rest), ioText, freshId, random);
      && (t.next.AwaitingFinish? <==>
            exists hello, rekeyOf, sid :: Asks(m, freshId, hello, rekeyOf, sid) && Respond(c.p, c.identity, hello, sid, random).Ok?)
      && (!m.MClientHello? && !m.MRekeyRequest? ==>
            Says(t, 0x02, "expected ClientHello or RekeyRequest", Err(Protocol)))
      && forall hello, rekeyOf, sid :: Asks(m, freshId, hello, rekeyOf, sid) ==>
           var r := Respond(c.p, c.identity, hello, sid, random);
           if r.Ok? then
             t == Turn(AwaitingFinish(Pending(hello, rekeyOf, sid, r.value)), Some(MServerHello(r.value.serverHello)), Closed(Err(Io)))
           else r.error.Crypto? && Says(t, 0x08, "crypto error: " + r.error.what, Ok(Rejected(0x08)))
  {
    match m
    case MClientHello(h) => assert Asks(m, freshId, h, None, freshId);
    case MRekeyRequest(r) => assert Asks(m, freshId, r.hello, Some(r.sessionId), r.sessionId);
    case _ =>
  }

  /** Message 3: a handler goes on exactly for a ClientFinish that names its session and carries the HMAC, under its
      confirm key, of "client finished" and its transcript. */
  lemma SecondExactly(c: Context, pending: Pending, m: Message, rest: seq<Byte>)
    ensures var t := OnSecond(c, pending, Got(m, rest));
      var good := m.MClientFinish? && m.cf.sessionId == pending.sessionId
        && m.cf.clientTag == c.p.hmac(pending.outcome.keys.confirmKey, Ascii("client finished") + pending.outcome.transcript);
      && (good ==> t == Turn(Confirmed(pending), None, Confirmed(pending)))
      && (m.MClientFinish? && !good ==> Says(t, 0x06, "client finish tag did not verify", Ok(Rejected(0x06))))
      && (!m.MClientFinish? ==> Says(t, 0x02, "expected ClientFinish", Err(Protocol)))
  {
  }

  /** A read that fails ends the handler with its error: on message 1 after one MALFORMED with the error's text, which
      need not arrive; on message 3 without a word. */
  lemma UnreadableExactly(c: Context, pending: Pending, e: WireError, ioText: seq<Byte>, freshId: Bytes16, random: ServerRandom)
    ensures var text := match e {
        case UnsupportedVersion(v) => "unsupported protocol version " + HexByte(v)
        case UnknownMsgType(t) => "unknown message type " + HexByte(t)
        case LengthOutOfRange => "declared length out of range"
        case Truncated => "message truncated"
        case Invalid(what) => "invalid " + what
      };
      var end := Closed(Err(BadFrame(FrameWire(e))));
      OnFirst(c, Bad(e), ioText, freshId, random) == Turn(end, Some(MError(ErrorMsg(0x02, Ascii(text)))), end)
      && OnSecond(c, pending, Bad(e)) == Turn(end, None, end)
    ensures var end := Closed(Err(BadFrame(FrameIo)));
      OnFirst(c, Eof, ioText, freshId, random) == Turn(end, Some(MError(ErrorMsg(0x02, Ascii("transport error: ") + ioText))), end)
      && OnSecond(c, pending, Eof) == Turn(end, None, end)
  {
  }

  /** The registry step, with the texts of its refusals: exactly one of these four happens. */
  lemma RegisterExactly(c: Context, peers: Peers, pending: Pending, now: int)
    requires c.settings.Valid()
    ensures var (peers', t) := OnRegister(c, peers, pending, now);
      var key := pending.hello.clientWgPubkey;
      var current := pending.rekeyOf.Some? && key in peers && peers[key].sessionId == pending.rekeyOf.value;
      if pending.rekeyOf.None? && key !in peers && |peers| >= c.settings.maxPeers then
        peers' == peers && Says(t, 0x09, "server at peer capacity", Ok(Rejected(0x09)))
      else if pending.rekeyOf.Some? && !current then
        peers' == peers && Says(t, 0x04, "unknown session for this peer", Ok(Rejected(0x04)))
      else if current && pending.hello.algo.WireCode() < peers[key].algo.WireCode() then
        peers' == peers && Says(t, 0x05, "rekey may not downgrade the algorithm", Ok(Rejected(0x05)))
      else
        && key in peers' && peers'.Keys == peers.Keys + {key} && (forall k :: k in peers && k != key ==> peers'[k] == peers[k])
        && t == Turn(Registered(pending, PeerSlot(peers'[key].sessionId, peers'[key].assignedIp)), None,
                     Registered(pending, PeerSlot(peers'[key].sessionId, peers'[key].assignedIp)))
  {
    if pending.rekeyOf.None? {
      NeverExhausted(c.settings, peers, pending.hello.clientWgPubkey, pending.hello.algo, pending.sessionId, now);
    }
    if RegistryCall(c, peers, pending, now).1.Ok? {
      AcceptedKeys(c, peers, pending, now);
    }
  }

  lemma AcceptedKeys(c: Context, peers: Peers, pending: Pending, now: int)
    requires c.settings.Valid() && RegistryCall(c, peers, pending, now).1.Ok?
    ensures var (peers', answer) := RegistryCall(c, peers, pending, now);
      var key := pending.hello.clientWgPubkey;
      && key in peers' && peers'.Keys == peers.Keys + {key} && (forall k :: k in peers && k != key ==> peers'[k] == peers[k])
      && answer.value == PeerSlot(peers'[key].sessionId, peers'[key].assignedIp)
  {
    var key, algo := pending.hello.clientWgPubkey, pending.hello.algo;
    AcceptedRecords(c.settings, peers, match pending.rekeyOf
      case Some(sid) => PeerRegistry.RekeyRequest(key, sid, algo, now)
      case None => Hello(key, algo, pending.sessionId, now));
  }

  /** Message 4 carries the HMAC of "server finished" and the transcript, on a handshake and on a rekey alike, and the
      slot the registry gave; only the result tells the two apart. */
  lemma LastExactly(c: Context, pending: Pending, slot: PeerSlot)
    ensures var tag := c.p.hmac(pending.outcome.keys.confirmKey, Ascii("server finished") + pending.outcome.transcript);
      OnFinish(c, pending, slot) == Turn(
        Closed(Ok(match pending.rekeyOf { case None => HandshakeDone(slot.sessionId) case Some(_) => RekeyDone(slot.sessionId) })),
        Some(MServerFinish(ServerFinish(slot.sessionId, tag, c.serverWgPubkey, slot.assignedIp, c.wgPort))),
        Closed(Err(Io)))
  {
  }
}
