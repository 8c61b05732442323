/** The frame format of the handshake protocol: what `write` emits and what `read` accepts,
    as functions on byte strings. The cursor and buffer that compute them are in WireCodec. */
module Wire {
  import opened Bytes
  import opened Kem

  const PROTOCOL_VERSION: Byte := 1
  const MAX_PAYLOAD: nat := 8192
  const SIGNATURE_LEN: nat := 3309

  datatype WireError =
    | UnsupportedVersion(version: Byte)
    | UnknownMsgType(ty: Byte)
    | LengthOutOfRange
    | Truncated
    | Invalid(what: string)

  // ---- messages -------------------------------------------------------------

  datatype ClientHello = ClientHello(
    algo: Level, clientNonce: Bytes32, clientWgPubkey: Bytes32,
    clientX25519Pub: Bytes32, clientMlkemPub: seq<Byte>)
  {
    predicate WellFormed() {
      |clientMlkemPub| == algo.PubLen()
    }
  }

  datatype ServerHello = ServerHello(
    algo: Level, sessionId: Bytes16, serverNonce: Bytes32,
    serverX25519Pub: Bytes32, mlkemCiphertext: seq<Byte>, signature: seq<Byte>)
  {
    predicate WellFormed() {
      |mlkemCiphertext| == algo.CiphertextLen() && |signature| == SIGNATURE_LEN
    }
  }

  datatype ClientFinish = ClientFinish(sessionId: Bytes16, clientTag: Bytes32)

  datatype ServerFinish = ServerFinish(
    sessionId: Bytes16, serverTag: Bytes32, serverWgPubkey: Bytes32, assignedIp: Bytes4, wgPort: U16)

  datatype RekeyRequest = RekeyRequest(sessionId: Bytes16, hello: ClientHello)

  /** `message` is the UTF-8 encoding of the text. */
  datatype ErrorMsg = ErrorMsg(code: Byte, message: seq<Byte>)

  datatype Message =
    | MClientHello(ch: ClientHello)
    | MServerHello(sh: ServerHello)
    | MClientFinish(cf: ClientFinish)
    | MServerFinish(sf: ServerFinish)
    | MRekeyRequest(rr: RekeyRequest)
    | MError(err: ErrorMsg)
  {
    function Type(): MsgType {
      match this
      case MClientHello(_) => TClientHello
      case MServerHello(_) => TServerHello
      case MClientFinish(_) => TClientFinish
      case MServerFinish(_) => TServerFinish
      case MRekeyRequest(_) => TRekeyRequest
      case MError(_) => TError
    }

    /** Every variable-length field has the length its reader insists on; error text is valid UTF-8. */
    predicate WellFormed(utf8: Utf8) {
      match this
      case MClientHello(h) => h.WellFormed()
      case MServerHello(h) => h.WellFormed()
      case MRekeyRequest(r) => r.hello.WellFormed()
      case MError(e) => |e.message| + 3 <= MAX_PAYLOAD && utf8.valid(e.message)
      case _ => true
    }
  }

  datatype MsgType = TClientHello | TServerHello | TClientFinish | TServerFinish | TRekeyRequest | TError {
    function Code(): Byte {
      match this
      case TClientHello => 0x01
      case TServerHello => 0x02
      case TClientFinish => 0x03
      case TServerFinish => 0x04
      case TRekeyRequest => 0x05
      case TError => 0xEE
    }
  }

  function MsgTypeFrom(b: Byte): (r: Option<MsgType>)
    ensures forall t: MsgType :: r == Some(t) <==> t.Code() == b
  {
    if b == 0x01 then Some(TClientHello)
    else if b == 0x02 then Some(TServerHello)
    else if b == 0x03 then Some(TClientFinish)
    else if b == 0x04 then Some(TServerFinish)
    else if b == 0x05 then Some(TRekeyRequest)
    else if b == 0xEE then Some(TError)
    else None
  }

  /** UTF-8 as the standard library provides it: a validity test and the lossy conversion. */
  datatype Utf8 = Utf8(valid: seq<Byte> -> bool, lossy: seq<Byte> -> seq<Byte>) {
    ghost predicate Laws() {
      forall b: seq<Byte> :: valid(lossy(b)) && (valid(b) ==> lossy(b) == b)
    }

    ghost predicate AcceptsAscii() {
      forall b: seq<Byte> :: (forall i :: 0 <= i < |b| ==> b[i] < 128) ==> valid(b)
    }
  }

  // ---- what a writer emits ----------------------------------------------------

  /** A `u16` length prefix, then the bytes. The `as u16` cast keeps the low 16 bits of the length. */
  function Lv(v: seq<Byte>): seq<Byte> {
    Be16(AsU16(|v|)) + v
  }

  function HelloBytes(h: ClientHello): seq<Byte> {
    [h.algo.WireCode()] + h.clientNonce + h.clientWgPubkey + Lv(h.clientX25519Pub) + Lv(h.clientMlkemPub)
  }

  function ServerHelloBytes(h: ServerHello): seq<Byte> {
    [h.algo.WireCode()] + h.sessionId + h.serverNonce
    + Lv(h.serverX25519Pub) + Lv(h.mlkemCiphertext) + Lv(h.signature)
  }

  function Payload(m: Message): seq<Byte> {
    match m
    case MClientHello(h) => HelloBytes(h)
    case MServerHello(h) => ServerHelloBytes(h)
    case MClientFinish(f) => f.sessionId + f.clientTag
    case MServerFinish(f) => f.sessionId + f.serverTag + f.serverWgPubkey + f.assignedIp + Be16(f.wgPort)
    case MRekeyRequest(r) => r.sessionId + HelloBytes(r.hello)
    case MError(e) => [e.code] + Lv(e.message)
  }

  /** The frame `write` puts on the wire, or none when the payload is over the limit. */
  function Frame(m: Message): Option<seq<Byte>> {
    var payload := Payload(m);
    if |payload| > MAX_PAYLOAD then None
    else Some([PROTOCOL_VERSION, m.Type().Code()] + Be16(AsU16(|payload|)) + payload)
  }

  // ---- what a reader accepts ----------------------------------------------------

  /** A parse either fails or yields a value and the bytes after it. */
  datatype Parse<+T> = Parsed(value: T, rest: seq<Byte>) | Failed(error: WireError) {
    predicate IsFailure() { Failed? }
    function PropagateFailure<U>(): Parse<U> requires Failed? { Failed(error) }
    function Extract(): (T, seq<Byte>) requires Parsed? { (value, rest) }
  }

  function Take(b: seq<Byte>, n: nat): Parse<seq<Byte>> {
    if |b| < n then Failed(Truncated) else Parsed(b[..n], b[n..])
  }

  function TakeU8(b: seq<Byte>): Parse<Byte> {
    var (s, rest) :- Take(b, 1);
    Parsed(s[0], rest)
  }

  function TakeU16(b: seq<Byte>): Parse<U16> {
    var (s, rest) :- Take(b, 2);
    Parsed(FromBe16(s[0], s[1]), rest)
  }

  function TakeArr(b: seq<Byte>, n: nat, what: string): (p: Parse<seq<Byte>>)
    ensures p.Parsed? ==> |p.value| == n
  {
    if |b| < n then Failed(Invalid(what)) else Parsed(b[..n], b[n..])
  }

  function TakeLv(b: seq<Byte>): Parse<seq<Byte>> {
    var (n, rest) :- TakeU16(b);
    if n > MAX_PAYLOAD then Failed(LengthOutOfRange) else Take(rest, n)
  }

  /** A length-prefixed field that must have exactly `n` bytes. */
  function TakeSized(b: seq<Byte>, n: nat, what: string): (p: Parse<seq<Byte>>)
    ensures p.Parsed? ==> |p.value| == n
  {
    var (v, rest) :- TakeLv(b);
    if |v| != n then Failed(Invalid(what)) else Parsed(v, rest)
  }

  function TakeAlgo(b: seq<Byte>): Parse<Level> {
    var (code, rest) :- TakeU8(b);
    match FromWireCode(code)
    case Some(level) => Parsed(level, rest)
    case None => Failed(Invalid("algorithm code"))
  }

  function ParseHello(b: seq<Byte>): Parse<ClientHello> {
    var (algo, b) :- TakeAlgo(b);
    var (nonce, b) :- TakeArr(b, 32, "client_nonce");
    var (wg, b) :- TakeArr(b, 32, "client_wg_pubkey");
    var (x, b) :- TakeSized(b, 32, "client_x25519_pub length");
    var (mk, b) :- TakeSized(b, algo.PubLen(), "client_mlkem_pub length");
    Parsed(ClientHello(algo, nonce, wg, x, mk), b)
  }

  function ParseServerHello(b: seq<Byte>): Parse<ServerHello> {
    var (algo, b) :- TakeAlgo(b);
    var (sid, b) :- TakeArr(b, 16, "session_id");
    var (nonce, b) :- TakeArr(b, 32, "server_nonce");
    var (x, b) :- TakeSized(b, 32, "server_x25519_pub length");
    var (ct, b) :- TakeSized(b, algo.CiphertextLen(), "mlkem_ciphertext length");
    var (sig, b) :- TakeSized(b, SIGNATURE_LEN, "signature length");
    Parsed(ServerHello(algo, sid, nonce, x, ct, sig), b)
  }

  function ParseClientFinish(b: seq<Byte>): Parse<ClientFinish> {
    var (sid, b) :- TakeArr(b, 16, "session_id");
    var (tag, b) :- TakeArr(b, 32, "client_tag");
    Parsed(ClientFinish(sid, tag), b)
  }

  function ParseRekey(b: seq<Byte>): Parse<RekeyRequest> {
    var (sid, b) :- TakeArr(b, 16, "session_id");
    var (h, b) :- ParseHello(b);
    Parsed(RekeyRequest(sid, h), b)
  }

  function ParseError(b: seq<Byte>, utf8: Utf8): Parse<ErrorMsg> {
    var (code, b) :- TakeU8(b);
    var (text, b) :- TakeLv(b);
    Parsed(ErrorMsg(code, utf8.lossy(text)), b)
  }

  function ParseServerFinish(b: seq<Byte>): Parse<ServerFinish> {
    var (sid, b) :- TakeArr(b, 16, "session_id");
    var (tag, b) :- TakeArr(b, 32, "server_tag");
    var (wg, b) :- TakeArr(b, 32, "server_wg_pubkey");
    var (ip, b) :- TakeArr(b, 4, "assigned_ip");
    var (port, b) :- TakeU16(b);
    Parsed(ServerFinish(sid, tag, wg, ip, port), b)
  }

  function ParseBody(ty: MsgType, b: seq<Byte>, utf8: Utf8): (p: Parse<Message>)
    ensures p.Parsed? ==> p.value.Type() == ty
  {
    match ty
    case TClientHello =>
      var (h, b) :- ParseHello(b);
      Parsed(MClientHello(h), b)
    case TServerHello =>
      var (h, b) :- ParseServerHello(b);
      Parsed(MServerHello(h), b)
    case TClientFinish =>
      var (f, b) :- ParseClientFinish(b);
      Parsed(MClientFinish(f), b)
    case TServerFinish =>
      var (f, b) :- ParseServerFinish(b);
      Parsed(MServerFinish(f), b)
    case TRekeyRequest =>
      var (r, b) :- ParseRekey(b);
      Parsed(MRekeyRequest(r), b)
    case TError =>
      var (e, b) :- ParseError(b, utf8);
      Parsed(MError(e), b)
  }

  /** `decode_payload`: the body, and nothing after it. */
  function Decode(ty: MsgType, payload: seq<Byte>, utf8: Utf8): (r: Result<Message, WireError>)
    ensures r.Ok? ==> r.value.Type() == ty
  {
    match ParseBody(ty, payload, utf8)
    case Failed(e) => Err(e)
    case Parsed(m, rest) => if rest == [] then Ok(m) else Err(Invalid("trailing bytes"))
  }

  /** One `read` on a byte stream. `Eof` is `read_exact` running out of bytes. */
  datatype ReadOutcome = Got(msg: Message, rest: seq<Byte>) | Eof | Bad(error: WireError)

  function ReadFrame(s: seq<Byte>, utf8: Utf8): (r: ReadOutcome)
    ensures r.Got? ==> |r.rest| < |s|
  {
    if |s| < 4 then Eof
    else if s[0] != PROTOCOL_VERSION then Bad(UnsupportedVersion(s[0]))
    else match MsgTypeFrom(s[1])
      case None => Bad(UnknownMsgType(s[1]))
      case Some(ty) =>
        var len := FromBe16(s[2], s[3]);
        if len > MAX_PAYLOAD then Bad(LengthOutOfRange)
        else if |s| < 4 + len then Eof
        else match Decode(ty, s[4..4 + len], utf8)
          case Err(e) => Bad(e)
          case Ok(m) => Got(m, s[4 + len..])
  }
}
