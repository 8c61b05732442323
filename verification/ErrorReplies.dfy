/** What a client is told when the server cannot go on, against what the protocol document says it is told. */
module ErrorReplies {
  import opened Bytes
  import opened Kem
  import opened Wire
  import opened WireLayout
  import opened WireRoundTrip
  import opened Handshake
  import opened PeerRegistry
  import opened Server
  import opened Connection
  import Transport

  /** The document's limit on error text. */
  const TEXT_LIMIT: nat := 256

  /** `WireError::protocol_code`, which the handler never asks for. */
  function WireErrorCode(e: WireError): Byte {
    if e.UnsupportedVersion? then 0x01 else 0x02
  }

  // ---- unreadable frames --------------------------------------------------------------------------

  /** What a payload can be refused for. */
  predicate Short(e: WireError) {
    e.Invalid? ==> |e.what| <= 40
  }

  predicate FailsShort<T>(p: Parse<T>) {
    p.Failed? ==> Short(p.error)
  }

  lemma FieldFailsShort(b: seq<Byte>, n: nat, what: string)
    requires |what| <= 40
    ensures FailsShort(TakeArr(b, n, what)) && FailsShort(TakeSized(b, n, what))
  {
  }

  lemma HelloFailsShort(b: seq<Byte>)
    ensures FailsShort(ParseHello(b))
  {
    if TakeAlgo(b).Parsed? {
      var Parsed(algo, b1) := TakeAlgo(b);
      FieldFailsShort(b1, 32, "client_nonce");
      if |b1| >= 64 {
        FieldFailsShort(b1[32..][32..], 32, "client_x25519_pub length");
        var p := TakeSized(b1[32..][32..], 32, "client_x25519_pub length");
        if p.Parsed? {
          FieldFailsShort(p.rest, algo.PubLen(), "client_mlkem_pub length");
        }
      }
    }
  }

  lemma ServerHelloFailsShort(b: seq<Byte>)
    ensures FailsShort(ParseServerHello(b))
  {
    if TakeAlgo(b).Parsed? {
      var Parsed(algo, b1) := TakeAlgo(b);
      if |b1| >= 48 {
        ServerHelloTailFailsShort(b1[16..][32..], algo);
      }
    }
  }

  lemma ServerHelloTailFailsShort(b: seq<Byte>, algo: Level)
    ensures var x := TakeSized(b, 32, "server_x25519_pub length");
      FailsShort(x)
      && (x.Parsed? ==>
            var ct := TakeSized(x.rest, algo.CiphertextLen(), "mlkem_ciphertext length");
            FailsShort(ct) && (ct.Parsed? ==> FailsShort(TakeSized(ct.rest, SIGNATURE_LEN, "signature length"))))
  {
    FieldFailsShort(b, 32, "server_x25519_pub length");
    var x := TakeSized(b, 32, "server_x25519_pub length");
    if x.Parsed? {
      FieldFailsShort(x.rest, algo.CiphertextLen(), "mlkem_ciphertext length");
      var ct := TakeSized(x.rest, algo.CiphertextLen(), "mlkem_ciphertext length");
      if ct.Parsed? {
        FieldFailsShort(ct.rest, SIGNATURE_LEN, "signature length");
      }
    }
  }

  lemma BodyFailsShort(ty: MsgType, b: seq<Byte>, utf8: Utf8)
    ensures FailsShort(ParseBody(ty, b, utf8))
  {
    match ty
    case TClientHello => HelloFailsShort(b);
    case TServerHello => ServerHelloFailsShort(b);
    case TRekeyRequest => if |b| >= 16 { HelloFailsShort(b[16..]); }
    case _ =>
  }

  /** The display text of every frame the reader refuses is short. */
  lemma BadFramesReadShort(s: seq<Byte>, utf8: Utf8)
    requires ReadFrame(s, utf8).Bad?
    ensures |WireErrorDisplay(ReadFrame(s, utf8).error)| <= 50
  {
    if |s| >= 4 && s[0] == PROTOCOL_VERSION && MsgTypeFrom(s[1]).Some? {
      var len := FromBe16(s[2], s[3]);
      if len <= MAX_PAYLOAD && 4 + len <= |s| {
        BodyFailsShort(MsgTypeFrom(s[1]).value, s[4..4 + len], utf8);
      }
    }
  }

  lemma ErrorFits(e: ErrorMsg)
    ensures Frame(MError(e)).Some? <==> |e.message| + 3 <= MAX_PAYLOAD
  {
  }

  /** A first frame the reader refuses gets one reply, MALFORMED, whatever was wrong with it. That is the code the
      document and `protocol_code` give the error exactly when the version byte was right. */
  lemma UnreadableReply(c: Context, utf8: Utf8, peers: Peers, wg: WgPeers, saved: Peers, input: seq<Byte>, env: Environment,
                        writable: nat, e: WireError)
    requires ReadFrame(input, utf8) == Bad(e) && writable > 0
    ensures var t := Serve(c, utf8, peers, wg, saved, input, env, writable);
      && t == Talk(peers, wg, saved, [MError(ErrorMsg(0x02, Ascii(WireErrorDisplay(e))))], Err(BadFrame(FrameWire(e))))
      && (t.sent[0].err.code == WireErrorCode(e) <==> input[0] == PROTOCOL_VERSION)
  {
    BadFramesReadShort(input, utf8);
    UnreadableTurn(c, peers, wg, saved, env, writable, e);
    VersionChecked(input, utf8);
  }

  lemma UnreadableTurn(c: Context, peers: Peers, wg: WgPeers, saved: Peers, env: Environment, writable: nat, e: WireError)
    requires |WireErrorDisplay(e)| <= 50 && writable > 0
    ensures forall read2 ::
      ServeReads(c, peers, wg, saved, Bad(e), read2, env, writable)
        == Talk(peers, wg, saved, [MError(ErrorMsg(0x02, Ascii(WireErrorDisplay(e))))], Err(BadFrame(FrameWire(e))))
  {
    ErrorFits(ErrorMsg(0x02, Ascii(WireErrorDisplay(e))));
  }

  lemma VersionChecked(s: seq<Byte>, utf8: Utf8)
    requires ReadFrame(s, utf8).Bad?
    ensures |s| >= 4 && (ReadFrame(s, utf8).error.UnsupportedVersion? <==> s[0] != PROTOCOL_VERSION)
  {
    HeaderDecides(s, utf8);
  }

  /** The document promises UNSUPPORTED_VERSION (0x01) to the shortest frame of version 2; it gets 0x02. */
  lemma VersionTwoIsMalformed(c: Context, utf8: Utf8, peers: Peers, wg: WgPeers, saved: Peers, env: Environment)
    ensures ReadFrame([2, 1, 0, 0], utf8) == Bad(UnsupportedVersion(2)) && WireErrorCode(UnsupportedVersion(2)) == 0x01
    ensures Serve(c, utf8, peers, wg, saved, [2, 1, 0, 0], env, 1).sent
      == [MError(ErrorMsg(0x02, Ascii("unsupported protocol version 0x02")))]
  {
    assert HexByte(2) == "0x02";
    assert WireErrorDisplay(UnsupportedVersion(2)) == "unsupported protocol version 0x02";
    assert [2, 1, 0, 0][0] == 2;
    UnreadableReply(c, utf8, peers, wg, saved, [2, 1, 0, 0], env, 1, UnsupportedVersion(2));
  }

  /** A message 3 that cannot be read, of another version or for any other reason, gets no reply at all. */
  lemma UnreadableFinishIsSilent(c: Context, utf8: Utf8, peers: Peers, wg: WgPeers, saved: Peers, input: seq<Byte>,
                                 env: Environment, writable: nat)
    requires ReadFrame(input, utf8).Got? && !ReadFrame(ReadFrame(input, utf8).rest, utf8).Got?
    requires OnFirst(c, ReadFrame(input, utf8), env.ioText, env.freshId, env.random).After(writable > 0).AwaitingFinish?
    ensures var t := Serve(c, utf8, peers, wg, saved, input, env, writable);
      && t.result.Err? && t.result.error.BadFrame?
      && |t.sent| == 1 && t.sent[0].MServerHello?
      && t.peers == peers && t.wg == wg && t.saved == saved
  {
    AnswersWithServerHello(c, ReadFrame(input, utf8), env.ioText, env.freshId, env.random, writable > 0);
  }

  lemma AnswersWithServerHello(c: Context, read: ReadOutcome, ioText: seq<Byte>, freshId: Bytes16, random: ServerRandom, wire: bool)
    requires OnFirst(c, read, ioText, freshId, random).After(wire).AwaitingFinish?
    ensures var t := OnFirst(c, read, ioText, freshId, random);
      wire && t.Delivers(wire) && t.reply.value.MServerHello?
  {
  }

  // ---- long error texts ----------------------------------------------------------------------------

  /** An error text of any length up to the frame limit is written and read back, so the document's limit is kept
      by neither side. */
  lemma LongTextTravels(utf8: Utf8, code: Byte, n: nat, rest: seq<Byte>)
    requires utf8.Laws() && utf8.AcceptsAscii() && n + 3 <= MAX_PAYLOAD
    ensures var m := MError(ErrorMsg(code, seq(n, _ => 120)));
      Frame(m).Some? && ReadFrame(Frame(m).value + rest, utf8) == Got(m, rest)
  {
    var text: seq<Byte> := seq(n, _ => 120);
    assert utf8.valid(text);
    ReadOfWrite(MError(ErrorMsg(code, text)), rest, utf8);
  }

  /** One byte over the limit, for instance. */
  lemma OverTheTextLimit(utf8: Utf8, code: Byte)
    requires utf8.Laws() && utf8.AcceptsAscii()
    ensures var text: seq<Byte> := seq(257, _ => 120);
      |text| > TEXT_LIMIT && Frame(MError(ErrorMsg(code, text))).Some?
      && ReadFrame(Frame(MError(ErrorMsg(code, text))).value + [], utf8) == Got(MError(ErrorMsg(code, text)), [])
  {
    LongTextTravels(utf8, code, 257, []);
  }

  predicate Long(m: Message) {
    m.MError? && |m.err.message| > TEXT_LIMIT
  }

  /** The connection gets as far as the `wg` command. */
  predicate ReachesInstall(c: Context, peers: Peers, read1: ReadOutcome, read2: ReadOutcome, env: Environment, writable: nat) {
    var h1 := OnFirst(c, read1, env.ioText, env.freshId, env.random).After(writable > 0);
    && h1.AwaitingFinish?
    && OnSecond(c, h1.pending, read2).After(writable > 1).Confirmed?
    && OnRegister(c, peers, h1.pending, env.now).1.After(writable > 1).Registered?
  }

  /** What the connection ends with when the command fails: the failure, if its text can be sent; otherwise the
      failed reply hides it. Either way the registry keeps the session and the interface does not change. */
  lemma FailedInstallEnds(c: Context, peers: Peers, wg: WgPeers, saved: Peers, read1: ReadOutcome, read2: ReadOutcome,
                          env: Environment, writable: nat)
    requires ReachesInstall(c, peers, read1, read2, env, writable) && env.install.Fails?
    ensures var t := ServeReads(c, peers, wg, saved, read1, read2, env, writable);
      var told := writable > 1 && |env.install.text| + 3 <= MAX_PAYLOAD;
      && t.result == (if told then Err(InstallFailed) else Err(Io))
      && |t.sent| == (if told then 2 else 1) && t.sent[0].MServerHello?
      && (told ==> t.sent[1] == MError(ErrorMsg(0x08, env.install.text)))
      && t.wg == wg && t.saved == saved
  {
    AnswersWithServerHello(c, read1, env.ioText, env.freshId, env.random, writable > 0);
    ErrorFits(ErrorMsg(0x08, env.install.text));
  }

  lemma RespondFailsShort(p: Primitives, identity: seq<Byte>, hello: ClientHello, sessionId: Bytes16, random: ServerRandom)
    requires Respond(p, identity, hello, sessionId, random).Err?
    ensures |ErrorDisplay(Respond(p, identity, hello, sessionId, random).error)| <= 100
  {
  }

  /** What can be long in the reply to message 1: only the operating system's text. */
  lemma FirstReplyShort(c: Context, read: ReadOutcome, ioText: seq<Byte>, freshId: Bytes16, random: ServerRandom, wire: bool)
    requires read.Bad? ==> |WireErrorDisplay(read.error)| <= 50
    ensures var t := OnFirst(c, read, ioText, freshId, random);
      (exists m :: m in t.Sent(wire) && Long(m))
      <==> read.Eof? && wire && TEXT_LIMIT < |ioText| + 17 && |ioText| + 20 <= MAX_PAYLOAD
  {
    var t := OnFirst(c, read, ioText, freshId, random);
    if t.reply.Some? && t.reply.value.MError? {
      ErrorFits(t.reply.value.err);
    }
    if read.Eof? {
      assert t.reply.value.err.message == Ascii("transport error: ") + ioText;
      if t.Delivers(wire) && |ioText| + 17 > TEXT_LIMIT {
        assert t.reply.value in t.Sent(wire) && Long(t.reply.value);
      }
    } else if read.Got? {
      ShortAnswer(c, read.msg, freshId, random);
    }
  }

  lemma ShortAnswer(c: Context, m: Message, freshId: Bytes16, random: ServerRandom)
    ensures var t := AnswerFirst(c, m, freshId, random); t.reply.Some? ==> !Long(t.reply.value)
  {
    match m
    case MClientHello(h) =>
      if Respond(c.p, c.identity, h, freshId, random).Err? { RespondFailsShort(c.p, c.identity, h, freshId, random); }
    case MRekeyRequest(r) =>
      if Respond(c.p, c.identity, r.hello, r.sessionId, random).Err? {
        RespondFailsShort(c.p, c.identity, r.hello, r.sessionId, random);
      }
    case _ =>
  }

  lemma RegisteredReplyShort(c: Context, peers: Peers, wg: WgPeers, saved: Peers, pending: Pending, slot: PeerSlot,
                             env: Environment, wire: bool)
    ensures (exists m :: m in ServeRegistered(c, peers, wg, saved, pending, slot, env, wire).sent && Long(m))
      <==> env.install.Fails? && wire && TEXT_LIMIT < |env.install.text| && |env.install.text| + 3 <= MAX_PAYLOAD
  {
    var t := ServeRegistered(c, peers, wg, saved, pending, slot, env, wire);
    if env.install.Fails? {
      ErrorFits(ErrorMsg(0x08, env.install.text));
      if |t.sent| > 0 {
        assert t.sent[0] in t.sent;
      }
    }
  }

  lemma ConfirmedReplyShort(c: Context, peers: Peers, wg: WgPeers, saved: Peers, pending: Pending, env: Environment, wire: bool)
    ensures (exists m :: m in ServeConfirmed(c, peers, wg, saved, pending, env, wire).sent && Long(m))
      <==> OnRegister(c, peers, pending, env.now).1.After(wire).Registered?
           && env.install.Fails? && wire && TEXT_LIMIT < |env.install.text| && |env.install.text| + 3 <= MAX_PAYLOAD
  {
    var (peers', t3) := OnRegister(c, peers, pending, env.now);
    if t3.After(wire).Registered? {
      RegisteredReplyShort(c, peers', wg, saved, pending, t3.After(wire).slot, env, wire);
    } else {
      RefusalShort(c, peers, pending, env.now);
    }
  }

  lemma RefusalShort(c: Context, peers: Peers, pending: Pending, now: int)
    ensures var t := OnRegister(c, peers, pending, now).1; t.reply.Some? ==> !Long(t.reply.value)
  {
  }

  lemma SecondShort(c: Context, pending: Pending, read: ReadOutcome)
    ensures var t := OnSecond(c, pending, read); t.reply.Some? ==> !Long(t.reply.value)
  {
  }

  /** From message 3 on only the text of a failed install can be long. */
  lemma LaterReplyShort(c: Context, peers: Peers, wg: WgPeers, saved: Peers, read2: ReadOutcome, pending: Pending,
                        env: Environment, writable: nat)
    ensures (exists m :: m in ServeRest(c, peers, wg, saved, read2, pending, env, writable).sent && Long(m))
      <==> OnSecond(c, pending, read2).After(writable > 0).Confirmed?
           && OnRegister(c, peers, pending, env.now).1.After(writable > 0).Registered?
           && env.install.Fails? && writable > 0 && TEXT_LIMIT < |env.install.text| && |env.install.text| + 3 <= MAX_PAYLOAD
  {
    SecondShort(c, pending, read2);
    ConfirmedReplyShort(c, peers, wg, saved, pending, env, writable > 0);
  }

  /** The handler sends an error text over the document's limit in exactly two cases: the operating system's text
      for a failed first read, and the `wg` command's for a failed install, when they are long and still fit a frame. */
  lemma LongRepliesExactly(c: Context, utf8: Utf8, peers: Peers, wg: WgPeers, saved: Peers, input: seq<Byte>,
                           env: Environment, writable: nat)
    ensures var t := Serve(c, utf8, peers, wg, saved, input, env, writable);
      var read1 := ReadFrame(input, utf8);
      (exists m :: m in t.sent && Long(m))
      <==> (read1.Eof? && writable > 0 && TEXT_LIMIT < |env.ioText| + 17 && |env.ioText| + 20 <= MAX_PAYLOAD)
           || (ReachesInstall(c, peers, read1, SecondRead(read1, utf8), env, writable) && env.install.Fails? && writable > 1
               && TEXT_LIMIT < |env.install.text| && |env.install.text| + 3 <= MAX_PAYLOAD)
  {
    var read1 := ReadFrame(input, utf8);
    var t1 := OnFirst(c, read1, env.ioText, env.freshId, env.random);
    var wire := writable > 0;
    if read1.Bad? {
      BadFramesReadShort(input, utf8);
    }
    FirstReplyShort(c, read1, env.ioText, env.freshId, env.random, wire);
    if t1.After(wire).AwaitingFinish? {
      AnswersWithServerHello(c, read1, env.ioText, env.freshId, env.random, wire);
      var read2 := SecondRead(read1, utf8);
      LaterReplyShort(c, peers, wg, saved, read2, t1.After(wire).pending, env, writable - 1);
      var rest := ServeRest(c, peers, wg, saved, read2, t1.After(wire).pending, env, writable - 1);
      assert Serve(c, utf8, peers, wg, saved, input, env, writable).sent == t1.Sent(wire) + rest.sent;
    }
  }

  /** The client never tells the server of an error: whatever it cannot read or refuses, it only hangs up. */
  lemma ClientSendsNoErrors(p: Primitives, utf8: Utf8, c: ClientHandshake, vk: seq<Byte>, link: Transport.Link, input: seq<Byte>)
    ensures forall m :: m in Transport.Connect(p, utf8, c, vk, link, input).sent ==> m.MClientHello? || m.MClientFinish?
  {
  }
}
