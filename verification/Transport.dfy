/** The client's driver: four messages over one stream, then a tunnel configuration. */
module Transport {
  import opened Bytes
  import opened Kem
  import opened Wire
  import opened WireCodec
  import opened WireRoundTrip
  import opened Handshake

  /** `ip` is the address of the server's end of the connection. */
  datatype Endpoint = Endpoint(ip: seq<Byte>, port: U16)

  datatype TunnelConfig = TunnelConfig(assignedIp: Bytes4, serverWgPubkey: Bytes32, endpoint: Endpoint, psk: Bytes32)

  datatype ProtocolError =
    | Io
    | BadWire(error: WireError)
    | BadHandshake(reason: HandshakeError)
    | Server(code: Byte, message: seq<Byte>)
    | UnexpectedMessage(what: string)

  /** The messages the client sends, and what `connect` returns. */
  datatype Dialogue = Dialogue(sent: seq<Message>, result: Result<TunnelConfig, ProtocolError>)

  /** Why a read that did not give the expected message ends the handshake. */
  function Refusal(read: ReadOutcome, what: string): ProtocolError {
    match read
    case Eof => Io
    case Bad(e) => BadWire(e)
    case Got(m, _) =>
      match m
      case MError(e) => Server(e.code, e.message)
      case _ => UnexpectedMessage(what)
  }

  function Accept(p: Primitives, peerIp: seq<Byte>, f: Finished, sf: ServerFinish): Result<TunnelConfig, ProtocolError> {
    if sf.sessionId != f.finish.sessionId then
      Err(UnexpectedMessage("ServerFinish session id did not match ClientFinish"))
    else if sf.serverTag != ServerTag(p, f.keys.confirmKey, f.transcript) then Err(BadHandshake(AuthFailed))
    else Ok(TunnelConfig(sf.assignedIp, sf.serverWgPubkey, Endpoint(peerIp, sf.wgPort), f.keys.psk))
  }

  /** The server's address and how many frames the socket takes before it breaks. */
  datatype Link = Link(peerIp: seq<Byte>, writable: nat)

  /** `connect` as a function of the bytes that arrive. */
  function Connect(p: Primitives, utf8: Utf8, c: ClientHandshake, vk: seq<Byte>, link: Link, input: seq<Byte>): Dialogue {
    var hello := MClientHello(c.hello);
    if Frame(hello).None? || link.writable == 0 then Dialogue([], Err(Io))
    else
      var read1 := ReadFrame(input, utf8);
      if !(read1.Got? && read1.msg.MServerHello?) then Dialogue([hello], Err(Refusal(read1, "expected ServerHello")))
      else match Finish(p, c, read1.msg.sh, vk)
        case Err(e) => Dialogue([hello], Err(BadHandshake(e)))
        case Ok(f) =>
          var sent := [hello, MClientFinish(f.finish)];
          var read2 := ReadFrame(read1.rest, utf8);
          if link.writable == 1 then Dialogue([hello], Err(Io))
          else if !(read2.Got? && read2.msg.MServerFinish?) then Dialogue(sent, Err(Refusal(read2, "expected ServerFinish")))
          else Dialogue(sent, Accept(p, link.peerIp, f, read2.msg.sf))
  }

  method ConnectOver(p: Primitives, utf8: Utf8, c: ClientHandshake, vk: seq<Byte>, peerIp: seq<Byte>, stream: Stream)
    returns (r: Result<TunnelConfig, ProtocolError>)
    modifies stream
    ensures var d := Connect(p, utf8, c, vk, Link(peerIp, old(stream.writable)), old(stream.input));
      r == d.result && stream.output == old(stream.output) + WriteAll(d.sent)
  {
    var hello := MClientHello(c.hello);
    var ok := stream.Write(hello);
    AppendNothing(old(stream.output));
    if !ok {
      return Err(Io);
    }
    WriteOne(hello);
    var read1 := stream.Read(utf8);
    if !(read1.Got? && read1.msg.MServerHello?) {
      return Err(Refusal(read1, "expected ServerHello"));
    }
    var finished := Finish(p, c, read1.msg.sh, vk);
    if finished.Err? {
      return Err(BadHandshake(finished.error));
    }
    var f := finished.value;
    var finish := MClientFinish(f.finish);
    ok := stream.Write(finish);
    if !ok {
      return Err(Io);
    }
    WriteAllTwo(hello, finish);
    Assoc(old(stream.output), Frame(hello).value, Frame(finish).value);
    var read2 := stream.Read(utf8);
    if !(read2.Got? && read2.msg.MServerFinish?) {
      return Err(Refusal(read2, "expected ServerFinish"));
    }
    var sf := read2.msg.sf;
    if sf.sessionId != f.finish.sessionId {
      return Err(UnexpectedMessage("ServerFinish session id did not match ClientFinish"));
    }
    if sf.serverTag != ServerTag(p, f.keys.confirmKey, f.transcript) {
      return Err(BadHandshake(AuthFailed));
    }
    return Ok(TunnelConfig(sf.assignedIp, sf.serverWgPubkey, Endpoint(peerIp, sf.wgPort), f.keys.psk));
  }

  lemma WriteAllTwo(m1: Message, m2: Message)
    requires Frame(m1).Some? && Frame(m2).Some?
    ensures WriteAll([m1, m2]) == Frame(m1).value + Frame(m2).value
  {
    assert [m1, m2][1..] == [m2];
    WriteOne(m2);
  }

  /** Every way `connect` can end, one after the other, and what it has then sent: a socket that breaks at once; a first message that is no ServerHello;
      a ServerHello that `finish` refuses; a socket that breaks then; a second message that is no ServerFinish; one for another session; one whose
      tag is not the HMAC of "server finished" and the transcript under the confirm key; and success. */
  lemma ConnectExactly(p: Primitives, utf8: Utf8, c: ClientHandshake, vk: seq<Byte>, link: Link, input: seq<Byte>)
    requires c.hello.WellFormed()
    ensures var sent, read1 := Connect(p, utf8, c, vk, link, input).sent, ReadFrame(input, utf8);
      if link.writable == 0 then sent == []
      else if link.writable >= 2 && read1.Got? && read1.msg.MServerHello? && Finish(p, c, read1.msg.sh, vk).Ok? then
        sent == [MClientHello(c.hello), MClientFinish(Finish(p, c, read1.msg.sh, vk).value.finish)]
      else sent == [MClientHello(c.hello)]
    ensures var r := Connect(p, utf8, c, vk, link, input).result;
      var read1 := ReadFrame(input, utf8);
      if link.writable == 0 then r == Err(Io)
      else if !read1.Got? || !read1.msg.MServerHello? then r == Err(EndsWith(read1, "expected ServerHello"))
      else match Finish(p, c, read1.msg.sh, vk)
        case Err(e) => r == Err(BadHandshake(e))
        case Ok(f) =>
          var read2 := ReadFrame(read1.rest, utf8);
          if link.writable == 1 then r == Err(Io)
          else if !read2.Got? || !read2.msg.MServerFinish? then r == Err(EndsWith(read2, "expected ServerFinish"))
          else
            var sf := read2.msg.sf;
            if sf.sessionId != read1.msg.sh.sessionId then
              r == Err(UnexpectedMessage("ServerFinish session id did not match ClientFinish"))
            else if sf.serverTag != p.hmac(f.keys.confirmKey, Ascii("server finished") + f.transcript) then
              r == Err(BadHandshake(AuthFailed))
            else
              r == Ok(TunnelConfig(sf.assignedIp, sf.serverWgPubkey, Endpoint(link.peerIp, sf.wgPort), f.keys.psk))
  {
    PayloadFits(MClientHello(c.hello), utf8);
    var read1 := ReadFrame(input, utf8);
    if read1.Got? && read1.msg.MServerHello? && Finish(p, c, read1.msg.sh, vk).Ok? {
      assert Finish(p, c, read1.msg.sh, vk).value.finish.sessionId == read1.msg.sh.sessionId;
    }
  }

  /** What the client makes of a read that did not give what it waits for: the server's own error, if it sent one. */
  function EndsWith(read: ReadOutcome, waitedFor: string): ProtocolError {
    if read.Eof? then Io
    else if read.Bad? then BadWire(read.error)
    else if read.msg.MError? then Server(read.msg.err.code, read.msg.err.message)
    else UnexpectedMessage(waitedFor)
  }

  /** The client finished with the ServerHello at the front of `input`, and read the ServerFinish after it. */
  predicate Receives(p: Primitives, utf8: Utf8, c: ClientHandshake, vk: seq<Byte>, input: seq<Byte>,
                     sh: ServerHello, f: Finished, sf: ServerFinish)
  {
    var read1 := ReadFrame(input, utf8);
    && read1.Got? && read1.msg == MServerHello(sh)
    && Finish(p, c, sh, vk) == Ok(f)
    && var read2 := ReadFrame(read1.rest, utf8); read2.Got? && read2.msg == MServerFinish(sf)
  }

  /** The signature of the ServerHello at the front of `input` is not a forgery. */
  ghost predicate SignatureGenuine(p: Primitives, utf8: Utf8, c: ClientHandshake, identity: seq<Byte>, vk: seq<Byte>,
                                   calls: set<Call>, input: seq<Byte>)
  {
    forall sh: ServerHello, rest: seq<Byte> :: ReadFrame(input, utf8) == Got(MServerHello(sh), rest) ==>
      NotForged(p, identity, vk, calls, ClientTranscript(c.hello, sh), sh.signature)
  }

  /** The messages behind a tunnel: a ServerHello the client finished with, and a ServerFinish whose tag verified. */
  lemma TunnelMessages(p: Primitives, utf8: Utf8, c: ClientHandshake, vk: seq<Byte>, link: Link, input: seq<Byte>,
                       tunnel: TunnelConfig)
    returns (sh: ServerHello, f: Finished, sf: ServerFinish)
    requires Connect(p, utf8, c, vk, link, input).result == Ok(tunnel)
    ensures Receives(p, utf8, c, vk, input, sh, f, sf)
    ensures ReadFrame(input, utf8) == Got(MServerHello(sh), ReadFrame(input, utf8).rest)
    ensures f.transcript == ClientTranscript(c.hello, sh)
    ensures sf.serverTag == ServerTag(p, f.keys.confirmKey, f.transcript) && sf.sessionId == sh.sessionId
    ensures tunnel == TunnelConfig(sf.assignedIp, sf.serverWgPubkey, Endpoint(link.peerIp, sf.wgPort), f.keys.psk)
  {
    var read1 := ReadFrame(input, utf8);
    sh := read1.msg.sh;
    f := Finish(p, c, sh, vk).value;
    sf := ReadFrame(read1.rest, utf8).msg.sf;
  }

  /** Whatever bytes arrive: if `connect` hands back a tunnel, its psk is the one a call of the server's
      `respond` derived for this very hello, and the ServerFinish was tagged with that call's confirm key. */
  lemma TunnelIsAgreed(p: Primitives, utf8: Utf8, identity: seq<Byte>, vk: seq<Byte>, calls: set<Call>,
                       algo: Level, wg: Bytes32, nonce: Bytes32, xPrivate: Bytes32, kemPrivate: seq<Byte>,
                       link: Link, input: seq<Byte>, tunnel: TunnelConfig)
    returns (call: Call, out: Outcome, sf: ServerFinish)
    requires p.Laws()
    requires Connect(p, utf8, Start(p, algo, wg, nonce, xPrivate, kemPrivate), vk, link, input).result == Ok(tunnel)
    requires SignatureGenuine(p, utf8, Start(p, algo, wg, nonce, xPrivate, kemPrivate), identity, vk, calls, input)
    ensures call in calls && call.Result(p, identity) == Ok(out)
    ensures call.hello.algo == algo && call.hello.clientNonce == nonce
    ensures call.hello.clientX25519Pub == p.xPublic(xPrivate) && call.hello.clientMlkemPub == p.kemPublic(algo, kemPrivate)
    ensures sf.serverTag == ServerTag(p, out.keys.confirmKey, out.transcript)
    ensures tunnel == TunnelConfig(sf.assignedIp, sf.serverWgPubkey, Endpoint(link.peerIp, sf.wgPort), out.keys.psk)
  {
    var sh, f;
    sh, f, sf := TunnelMessages(p, utf8, Start(p, algo, wg, nonce, xPrivate, kemPrivate), vk, link, input, tunnel);
    call := Agreement(p, identity, vk, calls, algo, wg, nonce, xPrivate, kemPrivate, sh, f);
    out := call.Result(p, identity).value;
  }
}
