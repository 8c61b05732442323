/** The connection handler as atomic steps, and the machine of many handlers interleaved over one registry,
    one WireGuard interface and one registry file. */
module Server {
  import opened Bytes
  import opened Wire
  import opened Handshake
  import opened PeerRegistry

  /** A peer configured on the interface. */
  datatype WgPeer = WgPeer(psk: Bytes32, allowedIp: Bytes4)

  type WgPeers = map<Bytes32, WgPeer>

  /** What every handler shares and none changes. */
  datatype Context = Context(p: Primitives, identity: seq<Byte>, settings: Settings, serverWgPubkey: Bytes32, wgPort: U16)

  // ---- one handler, step by step ----------------------------------------------------------

  /** What a handler holds once it has answered message 1. */
  datatype Pending = Pending(hello: ClientHello, rekeyOf: Option<Bytes16>, sessionId: Bytes16, outcome: Outcome)

  datatype ConnResult = HandshakeDone(sessionId: Bytes16) | RekeyDone(sessionId: Bytes16) | Rejected(code: Byte)

  datatype FrameError = FrameIo | FrameWire(error: WireError)

  datatype ConnError = Io | BadFrame(error: FrameError) | Protocol | InstallFailed

  datatype Handler =
    | Reading
    | AwaitingFinish(pending: Pending)
    | Confirmed(pending: Pending)
    | Registered(pending: Pending, slot: PeerSlot)
    | Installed(pending: Pending, slot: PeerSlot)
    | Saved(pending: Pending, slot: PeerSlot)
    | Closed(result: Result<ConnResult, ConnError>)

  /** What a handler does next: at most one message, and its next state according to whether the message could
      be written. `wire` says whether the socket takes it; an over-long frame never gets that far. */
  datatype Turn = Turn(next: Handler, reply: Option<Message>, unsent: Handler) {
    predicate Delivers(wire: bool) {
      wire && reply.Some? && Frame(reply.value).Some?
    }

    function After(wire: bool): Handler {
      if reply.None? || Delivers(wire) then next else unsent
    }

    function Sent(wire: bool): seq<Message> {
      if Delivers(wire) then [reply.value] else []
    }
  }

  function Silent(next: Handler): Turn {
    Turn(next, None, next)
  }

  function Says(next: Handler, m: Message): Turn {
    Turn(next, Some(m), Closed(Err(Io)))
  }

  /** `reject(...)?` and then a return. */
  function Refuse(code: Byte, text: seq<Byte>, result: Result<ConnResult, ConnError>): Turn {
    Says(Closed(result), MError(ErrorMsg(code, text)))
  }

  function ProtocolCode(e: HandshakeError): Byte {
    match e
    case AlgoMismatch => 0x05
    case AuthFailed => 0x06
    case Crypto(_) => 0x08
  }

  function ErrorDisplay(e: HandshakeError): string {
    match e
    case AlgoMismatch => "rekey algorithm mismatch"
    case AuthFailed => "client authentication failed"
    case Crypto(what) => "crypto error: " + what
  }

  /** A byte as `{:#04x}` prints it. */
  function HexByte(b: Byte): string {
    var digits := "0123456789abcdef";
    "0x" + [digits[b / 16], digits[b % 16]]
  }

  function WireErrorDisplay(e: WireError): string {
    match e
    case UnsupportedVersion(v) => "unsupported protocol version " + HexByte(v)
    case UnknownMsgType(t) => "unknown message type " + HexByte(t)
    case LengthOutOfRange => "declared length out of range"
    case Truncated => "message truncated"
    case Invalid(what) => "invalid " + what
  }

  function AnswerHello(c: Context, hello: ClientHello, rekeyOf: Option<Bytes16>, sessionId: Bytes16, random: ServerRandom): Turn {
    match Respond(c.p, c.identity, hello, sessionId, random)
    case Ok(out) => Says(AwaitingFinish(Pending(hello, rekeyOf, sessionId, out)), MServerHello(out.serverHello))
    case Err(e) => Refuse(ProtocolCode(e), Ascii(ErrorDisplay(e)), Ok(Rejected(ProtocolCode(e))))
  }

  /** A rekey keeps the session id it names; a hello gets the fresh one. */
  function AnswerFirst(c: Context, m: Message, freshId: Bytes16, random: ServerRandom): Turn {
    match m
    case MClientHello(h) => AnswerHello(c, h, None, freshId, random)
    case MRekeyRequest(r) => AnswerHello(c, r.hello, Some(r.sessionId), r.sessionId, random)
    case _ => Refuse(0x02, Ascii("expected ClientHello or RekeyRequest"), Err(Protocol))
  }

  /** An unreadable message 1: a reply whose own failure is ignored. */
  function Unreadable(text: seq<Byte>, e: FrameError): Turn {
    Turn(Closed(Err(BadFrame(e))), Some(MError(ErrorMsg(0x02, text))), Closed(Err(BadFrame(e))))
  }

  /** Message 1. `ioText` is the operating system's text for a read that failed. */
  function OnFirst(c: Context, read: ReadOutcome, ioText: seq<Byte>, freshId: Bytes16, random: ServerRandom): (t: Turn)
    ensures (t.next.AwaitingFinish? || t.next.Closed?) && t.unsent.Closed?
  {
    match read
    case Got(m, _) => AnswerFirst(c, m, freshId, random)
    case Eof => Unreadable(Ascii("transport error: ") + ioText, FrameIo)
    case Bad(e) => Unreadable(Ascii(WireErrorDisplay(e)), FrameWire(e))
  }

  predicate TagVerifies(c: Context, pending: Pending, fin: ClientFinish) {
    fin.sessionId == pending.sessionId
    && fin.clientTag == ClientTag(c.p, pending.outcome.keys.confirmKey, pending.outcome.transcript)
  }

  /** Message 3. */
  function OnSecond(c: Context, pending: Pending, read: ReadOutcome): Turn {
    match read
    case Got(m, _) =>
      (match m
       case MClientFinish(fin) =>
         if TagVerifies(c, pending, fin) then Silent(Confirmed(pending))
         else Refuse(0x06, Ascii("client finish tag did not verify"), Ok(Rejected(0x06)))
       case _ => Refuse(0x02, Ascii("expected ClientFinish"), Err(Protocol)))
    case Eof => Silent(Closed(Err(BadFrame(FrameIo))))
    case Bad(e) => Silent(Closed(Err(BadFrame(FrameWire(e)))))
  }

  function RejectCode(e: RegistryError): Byte {
    match e
    case AtCapacity => 0x09
    case UnknownPeer => 0x04
    case SessionMismatch => 0x04
    case Downgrade => 0x05
    case AddressPoolExhausted => 0x08
  }

  function RejectText(e: RegistryError): string {
    match e
    case AtCapacity => "server at peer capacity"
    case UnknownPeer => "unknown session for this peer"
    case SessionMismatch => "unknown session for this peer"
    case Downgrade => "rekey may not downgrade the algorithm"
    case AddressPoolExhausted => "tunnel address pool exhausted"
  }

  /** The registry call a confirmed handler makes. */
  function RegistryCall(c: Context, peers: Peers, pending: Pending, now: int): (Peers, Answer) {
    match pending.rekeyOf
    case Some(sid) => Rekey(peers, pending.hello.clientWgPubkey, sid, pending.hello.algo, now)
    case None => Upsert(c.settings, peers, pending.hello.clientWgPubkey, pending.hello.algo, pending.sessionId, now)
  }

  function OnRegister(c: Context, peers: Peers, pending: Pending, now: int): (Peers, Turn) {
    var (peers', answer) := RegistryCall(c, peers, pending, now);
    match answer
    case Ok(slot) => (peers', Silent(Registered(pending, slot)))
    case Err(e) => (peers', Refuse(RejectCode(e), Ascii(RejectText(e)), Ok(Rejected(RejectCode(e)))))
  }

  /** What the `wg` command did; `text` is the display text of its error. */
  datatype InstallOutcome = Installs | Fails(text: seq<Byte>)

  function OnInstall(wg: WgPeers, pending: Pending, slot: PeerSlot, outcome: InstallOutcome): (WgPeers, Turn) {
    match outcome
    case Installs =>
      (wg[pending.hello.clientWgPubkey := WgPeer(pending.outcome.keys.psk, slot.assignedIp)],
       Silent(Installed(pending, slot)))
    case Fails(text) => (wg, Refuse(0x08, text, Err(InstallFailed)))
  }

  /** Writing the registry file. A failure is logged and the handshake goes on. */
  function OnPersist(peers: Peers, saved: Peers, pending: Pending, slot: PeerSlot, ok: bool): (Peers, Turn) {
    (if ok then peers else saved, Silent(Saved(pending, slot)))
  }

  /** Message 4. */
  function OnFinish(c: Context, pending: Pending, slot: PeerSlot): Turn {
    var tag := ServerTag(c.p, pending.outcome.keys.confirmKey, pending.outcome.transcript);
    Says(
      Closed(Ok(if pending.rekeyOf.Some? then RekeyDone(slot.sessionId) else HandshakeDone(slot.sessionId))),
      MServerFinish(ServerFinish(slot.sessionId, tag, c.serverWgPubkey, slot.assignedIp, c.wgPort)))
  }

  // ---- many handlers, interleaved ------------------------------------------------------------

  /** `saved` is the peer map last written to the registry file. */
  datatype World = World(peers: Peers, wg: WgPeers, saved: Peers, handlers: map<nat, Handler>)

  /** One atomic step of one handler, with whatever the network, the random source, the clock, `wg` and the
      disk contributed to it. `wire` is whether the socket takes the message the step writes, if it writes one;
      `Abort` is a connection whose timeouts cannot be set. */
  datatype Action =
    | Accept(id: nat)
    | Abort(id: nat)
    | First(id: nat, read: ReadOutcome, ioText: seq<Byte>, freshId: Bytes16, random: ServerRandom, wire: bool)
    | Second(id: nat, read: ReadOutcome, wire: bool)
    | Register(id: nat, now: int, wire: bool)
    | Install(id: nat, outcome: InstallOutcome, wire: bool)
    | Persist(id: nat, ok: bool)
    | Reply(id: nat, wire: bool)

  predicate Enabled(w: World, a: Action) {
    match a
    case Accept(id) => id !in w.handlers
    case Abort(id) => id in w.handlers && w.handlers[id].Reading?
    case First(id, _, _, _, _, _) => id in w.handlers && w.handlers[id].Reading?
    case Second(id, _, _) => id in w.handlers && w.handlers[id].AwaitingFinish?
    case Register(id, _, _) => id in w.handlers && w.handlers[id].Confirmed?
    case Install(id, _, _) => id in w.handlers && w.handlers[id].Registered?
    case Persist(id, _) => id in w.handlers && w.handlers[id].Installed?
    case Reply(id, _) => id in w.handlers && w.handlers[id].Saved?
  }

  function Step(c: Context, w: World, a: Action): World
    requires Enabled(w, a)
  {
    match a
    case Accept(id) => w.(handlers := w.handlers[id := Reading])
    case Abort(id) => w.(handlers := w.handlers[id := Closed(Err(Io))])
    case First(id, read, ioText, freshId, random, wire) =>
      w.(handlers := w.handlers[id := OnFirst(c, read, ioText, freshId, random).After(wire)])
    case Second(id, read, wire) =>
      w.(handlers := w.handlers[id := OnSecond(c, w.handlers[id].pending, read).After(wire)])
    case Register(id, now, wire) =>
      var (peers, turn) := OnRegister(c, w.peers, w.handlers[id].pending, now);
      w.(peers := peers, handlers := w.handlers[id := turn.After(wire)])
    case Install(id, outcome, wire) =>
      var (wg, turn) := OnInstall(w.wg, w.handlers[id].pending, w.handlers[id].slot, outcome);
      w.(wg := wg, handlers := w.handlers[id := turn.After(wire)])
    case Persist(id, ok) =>
      var (saved, turn) := OnPersist(w.peers, w.saved, w.handlers[id].pending, w.handlers[id].slot, ok);
      w.(saved := saved, handlers := w.handlers[id := turn.next])
    case Reply(id, wire) =>
      w.(handlers := w.handlers[id := OnFinish(c, w.handlers[id].pending, w.handlers[id].slot).After(wire)])
  }

  /** The worlds a run passes through: any interleaving of any number of handlers. */
  predicate IsRun(c: Context, worlds: seq<World>, actions: seq<Action>) {
    |worlds| == |actions| + 1 && forall n: nat :: n < |actions| ==> StepAt(c, worlds, actions, n)
  }

  predicate StepAt(c: Context, worlds: seq<World>, actions: seq<Action>, n: nat)
    requires n < |actions| && |worlds| == |actions| + 1
  {
    Enabled(worlds[n], actions[n]) && worlds[n + 1] == Step(c, worlds[n], actions[n])
  }

  /** The handler that takes step `n`, as it takes it. */
  function Mover(c: Context, worlds: seq<World>, actions: seq<Action>, n: nat): (h: Handler)
    requires IsRun(c, worlds, actions) && n < |actions| && !actions[n].Accept?
    ensures actions[n].id in worlds[n].handlers && h == worlds[n].handlers[actions[n].id]
    ensures match actions[n]
      case Second(_, _, _) => h.AwaitingFinish?
      case Register(_, _, _) => h.Confirmed?
      case Install(_, _, _) => h.Registered?
      case Persist(_, _) => h.Installed?
      case Reply(_, _) => h.Saved?
      case _ => h.Reading?
  {
    assert StepAt(c, worlds, actions, n);
    worlds[n].handlers[actions[n].id]
  }
}
