/** Round trips of the frame format, in both directions, and the arithmetic of its length prefixes. */
module WireRoundTrip {
  import opened Bytes
  import opened Kem
  import opened Wire

  /** Reassociates a concatenation of six fields. */
  lemma Flatten(a: seq<Byte>, b: seq<Byte>, c: seq<Byte>, d: seq<Byte>, e: seq<Byte>, f: seq<Byte>)
    ensures a + (b + (c + (d + (e + f)))) == a + b + c + d + e + f
  {
    Assoc(a + b + c + d, e, f);
    Assoc(a + b + c, d, e + f);
    Assoc(a + b, c, d + (e + f));
    Assoc(a, b, c + (d + (e + f)));
  }

  lemma Be16RoundTrip(n: U16, hi: Byte, lo: Byte)
    ensures FromBe16(Be16(n)[0], Be16(n)[1]) == n
    ensures Be16(FromBe16(hi, lo)) == [hi, lo]
  {
  }

  lemma TakeOfAppend(v: seq<Byte>, rest: seq<Byte>)
    ensures Take(v + rest, |v|) == Parsed(v, rest)
    ensures forall what :: TakeArr(v + rest, |v|, what) == Parsed(v, rest)
  {
    assert (v + rest)[..|v|] == v && (v + rest)[|v|..] == rest;
  }

  lemma TakeU16OfAppend(n: U16, rest: seq<Byte>)
    ensures TakeU16(Be16(n) + rest) == Parsed(n, rest)
  {
    TakeOfAppend(Be16(n), rest);
    Be16RoundTrip(n, 0, 0);
  }

  lemma TakeLvOfAppend(v: seq<Byte>, rest: seq<Byte>)
    requires |v| <= MAX_PAYLOAD
    ensures TakeLv(Lv(v) + rest) == Parsed(v, rest)
    ensures forall what :: TakeSized(Lv(v) + rest, |v|, what) == Parsed(v, rest)
  {
    assert Lv(v) + rest == Be16(|v|) + (v + rest);
    TakeU16OfAppend(|v|, v + rest);
    TakeOfAppend(v, rest);
  }

  lemma TakeAlgoOfAppend(l: Level, rest: seq<Byte>)
    ensures TakeAlgo([l.WireCode()] + rest) == Parsed(l, rest)
  {
    TakeOfAppend([l.WireCode()], rest);
  }

  // ---- writing then reading, field by field ---------------------------------------

  /** The encoding followed by `rest`, bracketed the way a cursor walks it. */
  lemma HelloLayout(h: ClientHello, rest: seq<Byte>)
    ensures HelloBytes(h) + rest == [h.algo.WireCode()]
      + (h.clientNonce + (h.clientWgPubkey + (Lv(h.clientX25519Pub) + (Lv(h.clientMlkemPub) + rest))))
  {
    Flatten([h.algo.WireCode()], h.clientNonce, h.clientWgPubkey,
      Lv(h.clientX25519Pub), Lv(h.clientMlkemPub), rest);
  }

  lemma ServerHelloLayout(h: ServerHello, rest: seq<Byte>)
    ensures ServerHelloBytes(h) + rest == [h.algo.WireCode()]
      + (h.sessionId + (h.serverNonce + (Lv(h.serverX25519Pub) + (Lv(h.mlkemCiphertext) + (Lv(h.signature) + rest)))))
  {
    Flatten([h.algo.WireCode()], h.sessionId, h.serverNonce,
      Lv(h.serverX25519Pub), Lv(h.mlkemCiphertext), Lv(h.signature) + rest);
    Assoc([h.algo.WireCode()] + h.sessionId + h.serverNonce + Lv(h.serverX25519Pub) + Lv(h.mlkemCiphertext),
      Lv(h.signature), rest);
  }

  lemma HelloRoundTrip(h: ClientHello, rest: seq<Byte>)
    requires h.WellFormed()
    ensures ParseHello(HelloBytes(h) + rest) == Parsed(h, rest)
  {
    var b4 := Lv(h.clientMlkemPub) + rest;
    var b3 := Lv(h.clientX25519Pub) + b4;
    var b2 := h.clientWgPubkey + b3;
    var b1 := h.clientNonce + b2;
    HelloLayout(h, rest);
    TakeAlgoOfAppend(h.algo, b1);
    TakeOfAppend(h.clientNonce, b2);
    TakeOfAppend(h.clientWgPubkey, b3);
    TakeLvOfAppend(h.clientX25519Pub, b4);
    TakeLvOfAppend(h.clientMlkemPub, rest);
  }

  lemma ServerHelloRoundTrip(h: ServerHello, rest: seq<Byte>)
    requires h.WellFormed()
    ensures ParseServerHello(ServerHelloBytes(h) + rest) == Parsed(h, rest)
  {
    var b5 := Lv(h.signature) + rest;
    var b4 := Lv(h.mlkemCiphertext) + b5;
    var b3 := Lv(h.serverX25519Pub) + b4;
    var b2 := h.serverNonce + b3;
    var b1 := h.sessionId + b2;
    ServerHelloLayout(h, rest);
    TakeAlgoOfAppend(h.algo, b1);
    TakeOfAppend(h.sessionId, b2);
    TakeOfAppend(h.serverNonce, b3);
    TakeLvOfAppend(h.serverX25519Pub, b4);
    TakeLvOfAppend(h.mlkemCiphertext, b5);
    TakeLvOfAppend(h.signature, rest);
  }

  lemma ServerFinishRoundTrip(f: ServerFinish, utf8: Utf8)
    ensures ParseBody(TServerFinish, Payload(MServerFinish(f)), utf8) == Parsed(MServerFinish(f), [])
  {
    var b4 := Be16(f.wgPort) + [];
    var b3 := f.assignedIp + b4;
    var b2 := f.serverWgPubkey + b3;
    var b1 := f.serverTag + b2;
    assert Payload(MServerFinish(f)) == f.sessionId + b1;
    TakeOfAppend(f.sessionId, b1);
    TakeOfAppend(f.serverTag, b2);
    TakeOfAppend(f.serverWgPubkey, b3);
    TakeOfAppend(f.assignedIp, b4);
    TakeU16OfAppend(f.wgPort, []);
  }

  lemma AppendNothing(v: seq<Byte>)
    ensures v + [] == v
  {
  }

  lemma ClientFinishRoundTrip(f: ClientFinish, utf8: Utf8)
    ensures ParseBody(TClientFinish, f.sessionId + f.clientTag, utf8) == Parsed(MClientFinish(f), [])
  {
    TakeOfAppend(f.sessionId, f.clientTag);
    AppendNothing(f.clientTag);
    TakeOfAppend(f.clientTag, []);
  }

  lemma RekeyRoundTrip(r: RekeyRequest, utf8: Utf8)
    requires r.hello.WellFormed()
    ensures ParseBody(TRekeyRequest, r.sessionId + HelloBytes(r.hello), utf8) == Parsed(MRekeyRequest(r), [])
  {
    TakeOfAppend(r.sessionId, HelloBytes(r.hello));
    HelloRoundTrip(r.hello, []);
    AppendNothing(HelloBytes(r.hello));
  }

  lemma ErrorRoundTrip(e: ErrorMsg, utf8: Utf8)
    requires utf8.Laws() && utf8.valid(e.message) && |e.message| <= MAX_PAYLOAD
    ensures ParseBody(TError, [e.code] + Lv(e.message), utf8) == Parsed(MError(e), [])
  {
    TakeOfAppend([e.code], Lv(e.message));
    AppendNothing(Lv(e.message));
    TakeLvOfAppend(e.message, []);
  }

  /** `decode_payload` inverts `encode_payload` on every well-formed message. */
  lemma DecodeOfPayload(m: Message, utf8: Utf8)
    requires utf8.Laws() && m.WellFormed(utf8)
    ensures Decode(m.Type(), Payload(m), utf8) == Ok(m)
  {
    match m
    case MClientHello(h) =>
      HelloRoundTrip(h, []);
      AppendNothing(Payload(m));
    case MServerHello(h) =>
      ServerHelloRoundTrip(h, []);
      AppendNothing(Payload(m));
    case MClientFinish(f) => ClientFinishRoundTrip(f, utf8);
    case MServerFinish(f) => ServerFinishRoundTrip(f, utf8);
    case MRekeyRequest(r) => RekeyRoundTrip(r, utf8);
    case MError(e) => ErrorRoundTrip(e, utf8);
  }

  // ---- reading then writing: accepted bytes are canonical ---------------------------

  lemma TakeU16Canonical(b: seq<Byte>)
    requires TakeU16(b).Parsed?
    ensures b == Be16(TakeU16(b).value) + TakeU16(b).rest
  {
    var hi, lo := b[0], b[1];
    assert Be16(TakeU16(b).value) == [hi, lo] by {
      Be16RoundTrip(0, hi, lo);
    }
    assert b[..2] == [hi, lo];
    assert b == b[..2] + b[2..];
  }

  lemma TakeLvCanonical(b: seq<Byte>, v: seq<Byte>, rest: seq<Byte>)
    requires TakeLv(b) == Parsed(v, rest)
    ensures b == Lv(v) + rest && |v| <= MAX_PAYLOAD
  {
    TakeU16Canonical(b);
    var Parsed(n, c) := TakeU16(b);
    assert |v| == n && c == v + rest;
    Assoc(Be16(n), v, rest);
  }

  lemma TakeAlgoCanonical(b: seq<Byte>, l: Level, rest: seq<Byte>)
    requires TakeAlgo(b) == Parsed(l, rest)
    ensures b == [l.WireCode()] + rest
  {
    assert b == b[..1] + b[1..];
  }

  lemma HelloTail(b: seq<Byte>, algo: Level)
    requires TakeSized(b, 32, "client_x25519_pub length").Parsed?
    requires TakeSized(TakeLv(b).rest, algo.PubLen(), "client_mlkem_pub length").Parsed?
    ensures var Parsed(x, b4) := TakeLv(b);
      var Parsed(mk, b5) := TakeLv(b4);
      b == Lv(x) + (Lv(mk) + b5)
  {
    var Parsed(x, b4) := TakeLv(b);
    var Parsed(mk, b5) := TakeLv(b4);
    TakeLvCanonical(b, x, b4);
    TakeLvCanonical(b4, mk, b5);
  }

  lemma HelloCanonical(b: seq<Byte>)
    requires ParseHello(b).Parsed?
    ensures ParseHello(b).value.WellFormed()
    ensures b == HelloBytes(ParseHello(b).value) + ParseHello(b).rest
  {
    var Parsed(algo, b1) := TakeAlgo(b);
    var Parsed(nonce, b2) := TakeArr(b1, 32, "client_nonce");
    var Parsed(wg, b3) := TakeArr(b2, 32, "client_wg_pubkey");
    HelloTail(b3, algo);
    var Parsed(x, b4) := TakeLv(b3);
    var Parsed(mk, b5) := TakeLv(b4);
    HelloParts(b, ClientHello(algo, nonce, wg, x, mk), b1, b2, b3, b5);
  }

  /** A ClientHello put back together from where the cursor stood between its fields. */
  lemma HelloParts(b: seq<Byte>, h: ClientHello, b1: seq<Byte>, b2: seq<Byte>, b3: seq<Byte>, rest: seq<Byte>)
    requires TakeAlgo(b) == Parsed(h.algo, b1)
    requires b1 == h.clientNonce + b2 && b2 == h.clientWgPubkey + b3
    requires b3 == Lv(h.clientX25519Pub) + (Lv(h.clientMlkemPub) + rest)
    ensures b == HelloBytes(h) + rest
  {
    TakeAlgoCanonical(b, h.algo, b1);
    HelloLayout(h, rest);
  }

  lemma ServerHelloTail(b: seq<Byte>, algo: Level)
    requires TakeSized(b, 32, "server_x25519_pub length").Parsed?
    requires var b4 := TakeLv(b).rest;
      TakeSized(b4, algo.CiphertextLen(), "mlkem_ciphertext length").Parsed?
      && TakeSized(TakeLv(b4).rest, SIGNATURE_LEN, "signature length").Parsed?
    ensures var Parsed(x, b4) := TakeLv(b);
      var Parsed(ct, b5) := TakeLv(b4);
      var Parsed(sig, b6) := TakeLv(b5);
      b == Lv(x) + (Lv(ct) + (Lv(sig) + b6))
  {
    var Parsed(x, b4) := TakeLv(b);
    var Parsed(ct, b5) := TakeLv(b4);
    var Parsed(sig, b6) := TakeLv(b5);
    TakeLvCanonical(b, x, b4);
    TakeLvCanonical(b4, ct, b5);
    TakeLvCanonical(b5, sig, b6);
  }

  /** A ServerHello put back together from where the cursor stood between its fields. */
  lemma ServerHelloParts(b: seq<Byte>, h: ServerHello, b1: seq<Byte>, b2: seq<Byte>, b3: seq<Byte>, rest: seq<Byte>)
    requires TakeAlgo(b) == Parsed(h.algo, b1)
    requires b1 == h.sessionId + b2 && b2 == h.serverNonce + b3
    requires b3 == Lv(h.serverX25519Pub) + (Lv(h.mlkemCiphertext) + (Lv(h.signature) + rest))
    ensures b == ServerHelloBytes(h) + rest
  {
    TakeAlgoCanonical(b, h.algo, b1);
    ServerHelloLayout(h, rest);
  }

  lemma ServerHelloCanonical(b: seq<Byte>)
    requires ParseServerHello(b).Parsed?
    ensures ParseServerHello(b).value.WellFormed()
    ensures b == ServerHelloBytes(ParseServerHello(b).value) + ParseServerHello(b).rest
  {
    var Parsed(algo, b1) := TakeAlgo(b);
    var Parsed(sid, b2) := TakeArr(b1, 16, "session_id");
    var Parsed(nonce, b3) := TakeArr(b2, 32, "server_nonce");
    ServerHelloTail(b3, algo);
    var Parsed(x, b4) := TakeLv(b3);
    var Parsed(ct, b5) := TakeLv(b4);
    var Parsed(sig, b6) := TakeLv(b5);
    ServerHelloParts(b, ServerHello(algo, sid, nonce, x, ct, sig), b1, b2, b3, b6);
  }

  /** What `decode_payload` accepts is the encoding of its result: no other bytes decode to it. */
  lemma PayloadOfDecode(ty: MsgType, payload: seq<Byte>, utf8: Utf8)
    requires !ty.TError? && Decode(ty, payload, utf8).Ok?
    ensures var m := Decode(ty, payload, utf8).value;
      m.WellFormed(utf8) && Payload(m) == payload
  {
    match ty
    case TClientHello => HelloCanonical(payload);
    case TServerHello => ServerHelloCanonical(payload);
    case TServerFinish => ServerFinishCanonical(payload, utf8);
    case TClientFinish => assert payload == payload[..16] + payload[16..48];
    case TRekeyRequest =>
      var Parsed(sid, b) := TakeArr(payload, 16, "session_id");
      HelloCanonical(b);
  }

  /** An Error payload is its code and raw text; the decoded text is the lossy conversion. */
  lemma ErrorPayloadOfDecode(payload: seq<Byte>, utf8: Utf8)
    requires Decode(TError, payload, utf8).Ok?
    ensures var m := Decode(TError, payload, utf8).value;
      var text := TakeLv(payload[1..]).value;
      payload == [m.err.code] + Lv(text) && m.err.message == utf8.lossy(text)
  {
    var Parsed(code, b) := TakeU8(payload);
    TakeLvCanonical(b, TakeLv(b).value, TakeLv(b).rest);
    assert payload == payload[..1] + payload[1..];
  }

  lemma ServerFinishParts(payload: seq<Byte>, f: ServerFinish, b1: seq<Byte>, b2: seq<Byte>, b3: seq<Byte>, b4: seq<Byte>,
                          rest: seq<Byte>)
    requires payload == f.sessionId + b1 && b1 == f.serverTag + b2 && b2 == f.serverWgPubkey + b3
    requires b3 == f.assignedIp + b4 && TakeU16(b4) == Parsed(f.wgPort, rest)
    ensures payload == Payload(MServerFinish(f)) + rest
  {
    TakeU16Canonical(b4);
    Flatten(f.sessionId, f.serverTag, f.serverWgPubkey, f.assignedIp, Be16(f.wgPort), rest);
  }

  lemma ServerFinishCanonical(payload: seq<Byte>, utf8: Utf8)
    requires Decode(TServerFinish, payload, utf8).Ok?
    ensures var m := Decode(TServerFinish, payload, utf8).value;
      m.MServerFinish? && Payload(m) == payload
  {
    var Parsed(sid, b1) := TakeArr(payload, 16, "session_id");
    var Parsed(tag, b2) := TakeArr(b1, 32, "server_tag");
    var Parsed(wg, b3) := TakeArr(b2, 32, "server_wg_pubkey");
    var Parsed(ip, b4) := TakeArr(b3, 4, "assigned_ip");
    var Parsed(port, b5) := TakeU16(b4);
    ServerFinishParts(payload, ServerFinish(sid, tag, wg, ip, port), b1, b2, b3, b4, b5);
  }

  // ---- frames -------------------------------------------------------------------------

  /** The laws of UTF-8 are consistent. */
  lemma Utf8IsConsistent() returns (utf8: Utf8)
    ensures utf8.Laws() && utf8.AcceptsAscii()
  {
    utf8 := Utf8((b: seq<Byte>) => true, (b: seq<Byte>) => b);
  }

  /** Frame round trip with exact consumption. */
  lemma ReadOfWrite(m: Message, rest: seq<Byte>, utf8: Utf8)
    requires utf8.Laws() && m.WellFormed(utf8)
    ensures Frame(m).Some? && ReadFrame(Frame(m).value + rest, utf8) == Got(m, rest)
  {
    PayloadFits(m, utf8);
    DecodeOfPayload(m, utf8);
    FrameOf(m, Payload(m));
    ReadOfFrame(m.Type(), m, Payload(m), rest, utf8);
  }

  lemma ReadOfFrame(ty: MsgType, m: Message, payload: seq<Byte>, rest: seq<Byte>, utf8: Utf8)
    requires |payload| <= MAX_PAYLOAD && Decode(ty, payload, utf8) == Ok(m)
    ensures ReadFrame([PROTOCOL_VERSION, ty.Code()] + Be16(|payload|) + payload + rest, utf8) == Got(m, rest)
  {
    var s := [PROTOCOL_VERSION, ty.Code()] + Be16(|payload|) + payload + rest;
    var b := Be16(|payload|);
    assert s[0] == PROTOCOL_VERSION && s[1] == ty.Code() && s[2] == b[0] && s[3] == b[1];
    Be16RoundTrip(|payload|, 0, 0);
    assert MsgTypeFrom(s[1]) == Some(ty) && FromBe16(s[2], s[3]) == |payload|;
    assert |s| == 4 + |payload| + |rest|;
    assert s[4..4 + |payload|] == payload;
    assert s[4 + |payload|..] == rest;
  }

  /** What a successful `read` says about the bytes it took. */
  lemma ReadShape(s: seq<Byte>, utf8: Utf8)
    requires ReadFrame(s, utf8).Got?
    ensures var Got(m, rest) := ReadFrame(s, utf8);
      && |s| >= 4 && var len := FromBe16(s[2], s[3]);
      && len <= MAX_PAYLOAD && 4 + len <= |s|
      && Decode(m.Type(), s[4..4 + len], utf8) == Ok(m)
      && s == [PROTOCOL_VERSION, m.Type().Code()] + Be16(len) + s[4..4 + len] + rest
  {
    FrameSplit(s, FromBe16(s[2], s[3]));
  }

  lemma FrameSplit(s: seq<Byte>, len: nat)
    requires 4 + len <= |s| && len == FromBe16(s[2], s[3])
    ensures s == [s[0], s[1]] + Be16(len) + s[4..4 + len] + s[4 + len..]
  {
    HeaderSplit(s);
    assert s == s[..4] + s[4..4 + len] + s[4 + len..];
  }

  lemma HeaderSplit(s: seq<Byte>)
    requires |s| >= 4
    ensures s[..4] == [s[0], s[1]] + Be16(FromBe16(s[2], s[3]))
  {
    var hi, lo := s[2], s[3];
    assert Be16(FromBe16(hi, lo)) == [hi, lo];
  }

  /** Accepted bytes are canonical: `read` took exactly the frame `write` would emit. */
  lemma WriteOfRead(s: seq<Byte>, utf8: Utf8)
    requires utf8.Laws() && ReadFrame(s, utf8).Got? && !ReadFrame(s, utf8).msg.MError?
    ensures var Got(m, rest) := ReadFrame(s, utf8);
      m.WellFormed(utf8) && Frame(m).Some? && s == Frame(m).value + rest
  {
    var Got(m, rest) := ReadFrame(s, utf8);
    var payload := s[4..4 + FromBe16(s[2], s[3])];
    ReadShape(s, utf8);
    PayloadOfDecode(m.Type(), payload, utf8);
    FrameOf(m, payload);
  }

  lemma FrameOf(m: Message, payload: seq<Byte>)
    requires Payload(m) == payload && |payload| <= MAX_PAYLOAD
    ensures Frame(m) == Some([PROTOCOL_VERSION, m.Type().Code()] + Be16(|payload|) + payload)
  {
  }

  /** The raw text of the Error payload that `read` accepted at the front of `s`. */
  ghost function ErrorText(s: seq<Byte>, utf8: Utf8): seq<Byte>
    requires ReadFrame(s, utf8).Got? && ReadFrame(s, utf8).msg.MError?
  {
    TakeLv(s[4..4 + FromBe16(s[2], s[3])][1..]).value
  }

  /** An accepted Error frame is canonical exactly when its text is valid UTF-8. */
  lemma WriteOfReadError(s: seq<Byte>, utf8: Utf8)
    requires utf8.Laws() && ReadFrame(s, utf8).Got? && ReadFrame(s, utf8).msg.MError?
    ensures var Got(m, rest) := ReadFrame(s, utf8);
      utf8.valid(ErrorText(s, utf8)) <==> Frame(m).Some? && s == Frame(m).value + rest
  {
    var Got(m, rest) := ReadFrame(s, utf8);
    var payload := s[4..4 + FromBe16(s[2], s[3])];
    ReadShape(s, utf8);
    ErrorPayloadOfDecode(payload, utf8);
    ErrorFrameCanonical(s, m, payload, rest, ErrorText(s, utf8), utf8);
  }

  lemma ErrorFrameCanonical(s: seq<Byte>, m: Message, payload: seq<Byte>, rest: seq<Byte>, text: seq<Byte>, utf8: Utf8)
    requires utf8.Laws() && m.MError? && |payload| <= MAX_PAYLOAD
    requires s == [PROTOCOL_VERSION, m.Type().Code()] + Be16(|payload|) + payload + rest
    requires payload == [m.err.code] + Lv(text) && m.err.message == utf8.lossy(text)
    ensures utf8.valid(text) <==> Frame(m).Some? && s == Frame(m).value + rest
  {
    if utf8.valid(text) {
      FrameOf(m, payload);
    } else if Frame(m).Some? && s == Frame(m).value + rest {
      FrameOf(m, Payload(m));
      SameSuffix(s, [PROTOCOL_VERSION, m.Type().Code()] + Be16(|payload|), payload,
        [PROTOCOL_VERSION, m.Type().Code()] + Be16(|Payload(m)|), Payload(m), rest);
      LvInjective(m.err.code, text, m.err.message);
    }
  }

  lemma SameSuffix(s: seq<Byte>, h1: seq<Byte>, p1: seq<Byte>, h2: seq<Byte>, p2: seq<Byte>, rest: seq<Byte>)
    requires |h1| == |h2| && s == h1 + p1 + rest && s == h2 + p2 + rest
    ensures p1 == p2
  {
    assert |p1| == |p2|;
    assert p1 == s[|h1|..|h1| + |p1|] && p2 == s[|h2|..|h2| + |p2|];
  }

  lemma LvInjective(code: Byte, v: seq<Byte>, w: seq<Byte>)
    requires [code] + Lv(v) == [code] + Lv(w)
    ensures v == w
  {
    assert v == ([code] + Lv(v))[3..] && w == ([code] + Lv(w))[3..];
  }

  /** Well-formed payloads fit: at most 4964 bytes unless the message is an Error. */
  lemma PayloadFits(m: Message, utf8: Utf8)
    requires m.WellFormed(utf8)
    ensures |Payload(m)| <= MAX_PAYLOAD
    ensures !m.MError? ==> |Payload(m)| <= 4964
    ensures Frame(m).Some?
  {
  }

  /** `decode_payload` accepts a payload, and returns `m` for it, exactly when `m` is well-formed, has
      the announced type, and encodes to that payload. */
  lemma DecodeExactly(ty: MsgType, payload: seq<Byte>, m: Message, utf8: Utf8)
    requires utf8.Laws() && !ty.TError?
    ensures Decode(ty, payload, utf8) == Ok(m)
      <==> m.WellFormed(utf8) && m.Type() == ty && Payload(m) == payload
  {
    if m.WellFormed(utf8) && m.Type() == ty && Payload(m) == payload {
      DecodeOfPayload(m, utf8);
    }
    if Decode(ty, payload, utf8) == Ok(m) {
      PayloadOfDecode(ty, payload, utf8);
    }
  }

  // ---- length prefixes ------------------------------------------------------------------

  /** The fields `encode_payload` writes behind a `u16` prefix. */
  function PrefixedFields(m: Message): seq<seq<Byte>> {
    match m
    case MClientHello(h) => [h.clientX25519Pub, h.clientMlkemPub]
    case MServerHello(h) => [h.serverX25519Pub, h.mlkemCiphertext, h.signature]
    case MRekeyRequest(r) => [r.hello.clientX25519Pub, r.hello.clientMlkemPub]
    case MError(e) => [e.message]
    case _ => []
  }

  /** Whenever `write` emits a frame, on any message at all, no `as u16` cast in it lost anything:
      each inner prefix and the header's LENGTH are the true lengths. */
  lemma EmittedPrefixesAreTrue(m: Message)
    requires Frame(m).Some?
    ensures forall f :: f in PrefixedFields(m) ==> |f| < 0x1_0000 && Lv(f) == Be16(|f|) + f
    ensures var frame := Frame(m).value;
      FromBe16(frame[2], frame[3]) == |Payload(m)| == |frame| - 4
  {
    FieldsFitPayload(m);
    FrameOf(m, Payload(m));
    assert Frame(m).value[2] == Be16(|Payload(m)|)[0] && Frame(m).value[3] == Be16(|Payload(m)|)[1];
    Be16RoundTrip(|Payload(m)|, 0, 0);
  }

  lemma FieldsFitPayload(m: Message)
    ensures forall f :: f in PrefixedFields(m) ==> |f| <= |Payload(m)|
  {
  }

  /** The size check is what makes it so: past 65535 bytes the announced length is `k`, the excess. */
  lemma OversizedPrefixWraps(v: seq<Byte>, k: nat)
    requires |v| == 0x1_0000 + k && k <= MAX_PAYLOAD
    ensures TakeLv(Lv(v)) == Parsed(v[..k], v[k..])
  {
    assert AsU16(|v|) == k;
    TakeU16OfAppend(k, v);
  }

  // ---- streams of frames ------------------------------------------------------------------

  /** Repeated `read` until one fails: the messages, and the bytes left over. */
  function ReadAll(s: seq<Byte>, utf8: Utf8): (seq<Message>, seq<Byte>)
    decreases |s|
  {
    match ReadFrame(s, utf8)
    case Got(m, rest) =>
      var (ms, tail) := ReadAll(rest, utf8);
      ([m] + ms, tail)
    case _ => ([], s)
  }

  /** Consecutive `write`s. */
  function WriteAll(ms: seq<Message>): seq<Byte> {
    if ms == [] then []
    else match Frame(ms[0])
      case Some(f) => f + WriteAll(ms[1..])
      case None => WriteAll(ms[1..])
  }

  lemma ReadAllOfFrame(m: Message, rest: seq<Byte>, utf8: Utf8)
    requires utf8.Laws() && m.WellFormed(utf8) && Frame(m).Some?
    ensures ReadAll(Frame(m).value + rest, utf8) == ([m] + ReadAll(rest, utf8).0, ReadAll(rest, utf8).1)
  {
    ReadOfWrite(m, rest, utf8);
  }

  lemma WriteOne(m: Message)
    requires Frame(m).Some?
    ensures WriteAll([m]) == Frame(m).value
  {
    assert [m][1..] == [];
    AppendNothing(Frame(m).value);
  }

  /** A reader recovers exactly the messages written, in order, and stops exactly where they end. */
  lemma {:induction false} ReadAllOfWriteAll(ms: seq<Message>, tail: seq<Byte>, utf8: Utf8)
    requires utf8.Laws() && forall m :: m in ms ==> m.WellFormed(utf8)
    requires !ReadFrame(tail, utf8).Got?
    ensures ReadAll(WriteAll(ms) + tail, utf8) == (ms, tail)
  {
    if ms == [] {
      assert WriteAll(ms) + tail == tail;
    } else {
      var m, rest := ms[0], WriteAll(ms[1..]) + tail;
      ReadAllOfWriteAll(ms[1..], tail, utf8);
      PayloadFits(m, utf8);
      Assoc(Frame(m).value, WriteAll(ms[1..]), tail);
      ReadAllOfFrame(m, rest, utf8);
      assert ms == [m] + ms[1..];
    }
  }

  /** Conversely a stream that reads as `ms` is the concatenation of their frames. */
  lemma {:induction false} WriteAllOfReadAll(s: seq<Byte>, utf8: Utf8)
    requires utf8.Laws()
    requires forall m :: m in ReadAll(s, utf8).0 ==> !m.MError?
    ensures var (ms, tail) := ReadAll(s, utf8); s == WriteAll(ms) + tail
    decreases |s|
  {
    match ReadFrame(s, utf8)
    case Got(m, rest) =>
      var (ms, tail) := ReadAll(rest, utf8);
      assert ReadAll(s, utf8).0 == [m] + ms;
      assert m in ReadAll(s, utf8).0;
      assert forall x :: x in ms ==> x in ReadAll(s, utf8).0;
      WriteAllOfReadAll(rest, utf8);
      WriteOfRead(s, utf8);
      assert ([m] + ms)[1..] == ms;
      Assoc(Frame(m).value, WriteAll(ms), tail);
    case _ =>
  }
}
