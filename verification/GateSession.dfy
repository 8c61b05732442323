/** The gate driving a client against the registry: what it asks for is never refused. */
module GateSession {
  import opened Bytes
  import opened Kem
  import opened Gate
  import opened PeerRegistry

  /** One tick of the whole system: what other peers did to the registry since the last tick, the policy's
      output, and the session id and time the server would use. */
  datatype Tick = Tick(others: seq<Op>, probs: Probs, freshId: Bytes16, now: int)

  /** The client's gate and the session id of its last ServerFinish, and the server's registry. */
  datatype Session = Session(gate: State, sessionId: Bytes16, peers: Peers)

  /** What a decision makes the client send: a new handshake for a change, a RekeyRequest for a rekey, each
      at the algorithm now in force. */
  function Request(d: Decision, key: Bytes32, sessionId: Bytes16, t: Tick): Option<Op> {
    if d.changeAlgorithm then Some(Hello(key, d.inForce, t.freshId, t.now))
    else if d.rekey then Some(RekeyRequest(key, sessionId, d.inForce, t.now))
    else None
  }

  /** A tick in which every handshake the gate asks for completes. */
  function TickStep(g: Params, s: Settings, key: Bytes32, x: Session, t: Tick): (Session, Option<Answer>) {
    var peers := Run(s, x.peers, t.others);
    var (gate, d) := Step(g, x.gate, t.probs);
    match Request(d, key, x.sessionId, t)
    case None => (Session(gate, x.sessionId, peers), None)
    case Some(op) =>
      var (peers', answer) := Apply(s, peers, op);
      var sessionId := if answer.value.Ok? then answer.value.value.sessionId else x.sessionId;
      (Session(gate, sessionId, peers'), answer)
  }

  function RunSession(g: Params, s: Settings, key: Bytes32, x: Session, ticks: seq<Tick>): Session
    decreases |ticks|
  {
    if ticks == [] then x else RunSession(g, s, key, TickStep(g, s, key, x, ticks[0]).0, ticks[1..])
  }

  function SessionAnswers(g: Params, s: Settings, key: Bytes32, x: Session, ticks: seq<Tick>): seq<Option<Answer>>
    decreases |ticks|
  {
    if ticks == [] then []
    else
      var (x', answer) := TickStep(g, s, key, x, ticks[0]);
      [answer] + SessionAnswers(g, s, key, x', ticks[1..])
  }

  /** Client and server agree on the session and on the algorithm in force. */
  predicate InStep(key: Bytes32, x: Session) {
    key in x.peers && x.peers[key].algo == x.gate.inForce && x.peers[key].sessionId == x.sessionId
  }

  predicate Elsewhere(others: seq<Op>, key: Bytes32) {
    forall op :: op in others ==> op.key != key
  }

  lemma {:induction false} OthersLeaveAlone(s: Settings, peers: Peers, others: seq<Op>, key: Bytes32)
    requires key in peers && Elsewhere(others, key)
    ensures key in Run(s, peers, others) && Run(s, peers, others)[key] == peers[key]
    decreases |others|
  {
    if others != [] {
      assert others[0] in others;
      OthersLeaveAlone(s, Apply(s, peers, others[0]).0, others[1..], key);
    }
  }

  lemma TickKeepsInStep(g: Params, s: Settings, key: Bytes32, x: Session, t: Tick)
    requires InStep(key, x) && Elsewhere(t.others, key)
    ensures var (x', answer) := TickStep(g, s, key, x, t);
      var d := Step(g, x.gate, t.probs).1;
      && InStep(key, x') && (answer.None? || answer.value.Ok?)
      && (answer.Some? <==> d.changeAlgorithm || d.rekey)
      && x'.sessionId == (if d.changeAlgorithm then t.freshId else x.sessionId)
      && (d.rekey ==> x'.peers[key].rekeys == Wrapped(x.peers[key].rekeys, 1))
      && (d.changeAlgorithm ==> x'.peers[key].rekeys == 0)
  {
    OthersLeaveAlone(s, x.peers, t.others, key);
  }

  /** On every run, whatever the policy outputs and the other peers do, as long as handshakes complete and the
      peer is not evicted: the server accepts every request, so it never answers Downgrade; and after every
      tick its record of the algorithm and session is the client's. */
  lemma {:induction false} ServerNeverRefuses(g: Params, s: Settings, key: Bytes32, x: Session, ticks: seq<Tick>)
    requires InStep(key, x) && forall t :: t in ticks ==> Elsewhere(t.others, key)
    ensures InStep(key, RunSession(g, s, key, x, ticks))
    ensures forall a :: a in SessionAnswers(g, s, key, x, ticks) ==> a.None? || a.value.Ok?
    decreases |ticks|
  {
    if ticks != [] {
      assert ticks[0] in ticks;
      TickKeepsInStep(g, s, key, x, ticks[0]);
      ServerNeverRefuses(g, s, key, TickStep(g, s, key, x, ticks[0]).0, ticks[1..]);
    }
  }

  /** The same from the first handshake: a fresh gate, and a server with room for the peer. */
  lemma FirstHandshakeOn(g: Params, s: Settings, peers: Peers, key: Bytes32, initial: Level, freshId: Bytes16, now: int,
                         ticks: seq<Tick>)
    requires s.Valid() && (key in peers || |peers| < s.maxPeers)
    requires forall t :: t in ticks ==> Elsewhere(t.others, key)
    ensures var (peers', answer) := Upsert(s, peers, key, initial, freshId, now);
      var x := Session(Fresh(initial), freshId, peers');
      && answer.Ok?
      && InStep(key, RunSession(g, s, key, x, ticks))
      && forall a :: a in SessionAnswers(g, s, key, x, ticks) ==> a.None? || a.value.Ok?
  {
    if key !in peers {
      NewPeerGetsLowestFreeHost(s, peers, key, initial, freshId, now);
    }
    ServerNeverRefuses(g, s, key, Session(Fresh(initial), freshId, Upsert(s, peers, key, initial, freshId, now).0), ticks);
  }
}
