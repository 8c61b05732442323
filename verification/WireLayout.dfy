/** The message tables of sections 3 and 4 of the protocol document, byte by byte, and what a reader refuses. */
module WireLayout {
  import opened Bytes
  import opened Kem
  import opened Wire
  import opened WireRoundTrip

  // ---- where every field is ------------------------------------------------------------------------

  /** Section 3: version, type, payload length, payload. */
  lemma FrameLayout(m: Message)
    requires Frame(m).Some?
    ensures var f := Frame(m).value;
      && |f| >= 4 && f[0] == 1 && f[2] as int * 256 + f[3] as int == |f| - 4 <= 8192
      && f[1] == (match m
           case MClientHello(_) => 0x01 case MServerHello(_) => 0x02 case MClientFinish(_) => 0x03
           case MServerFinish(_) => 0x04 case MRekeyRequest(_) => 0x05 case MError(_) => 0xEE)
      && f[4..] == Payload(m)
  {
    FrameOf(m, Payload(m));
    HeaderBytes(m.Type().Code(), Payload(m));
  }

  lemma HeaderBytes(code: Byte, payload: seq<Byte>)
    requires |payload| <= 8192
    ensures var f := [PROTOCOL_VERSION, code] + Be16(|payload|) + payload;
      && |f| == 4 + |payload| && f[0] == 1 && f[1] == code && f[2] as int * 256 + f[3] as int == |payload|
      && f[4..] == payload
  {
  }

  /** Section 4.1. */
  function AlgoByte(l: Level): Byte {
    match l case MlKem512 => 0 case MlKem768 => 1 case MlKem1024 => 2
  }

  function KeyLen(l: Level): nat {
    match l case MlKem512 => 800 case MlKem768 => 1184 case MlKem1024 => 1568
  }

  function CipherLen(l: Level): nat {
    match l case MlKem512 => 768 case MlKem768 => 1088 case MlKem1024 => 1568
  }

  /** Section 4.2. */
  lemma ClientHelloLayout(h: ClientHello)
    requires h.WellFormed()
    ensures var b := Payload(MClientHello(h));
      && |b| == 101 + KeyLen(h.algo)
      && b[0] == AlgoByte(h.algo) && b[1..33] == h.clientNonce && b[33..65] == h.clientWgPubkey
      && b[65] == 0 && b[66] == 32 && b[67..99] == h.clientX25519Pub
      && b[99] as int * 256 + b[100] as int == KeyLen(h.algo) && b[101..] == h.clientMlkemPub
  {
    var b := Payload(MClientHello(h));
    var head := [h.algo.WireCode()] + h.clientNonce + h.clientWgPubkey;
    var x, mk := Lv(h.clientX25519Pub), Lv(h.clientMlkemPub);
    LvParts(h.clientX25519Pub);
    LvParts(h.clientMlkemPub);
    assert b == head + x + mk && |head| == 65 && |x| == 34;
    assert b[..65] == head && b[65..99] == x && b[99..] == mk;
    assert b[1..33] == head[1..33] && b[33..65] == head[33..65];
    assert b[67..99] == x[2..] && b[101..] == mk[2..];
  }

  lemma LvParts(v: seq<Byte>)
    requires |v| < 0x1_0000
    ensures |Lv(v)| == 2 + |v| && Lv(v)[0] as int * 256 + Lv(v)[1] as int == |v| && Lv(v)[2..] == v
  {
  }

  /** Section 4.3. */
  lemma ServerHelloTable(h: ServerHello)
    requires h.WellFormed()
    ensures var b := Payload(MServerHello(h));
      var n := CipherLen(h.algo);
      && |b| == 87 + n + 3309
      && b[0] == AlgoByte(h.algo) && b[1..17] == h.sessionId && b[17..49] == h.serverNonce
      && b[49] == 0 && b[50] == 32 && b[51..83] == h.serverX25519Pub
      && b[83] as int * 256 + b[84] as int == n && b[85..85 + n] == h.mlkemCiphertext
      && b[85 + n] as int * 256 + b[86 + n] as int == 3309 && b[87 + n..] == h.signature
  {
    LvParts(h.serverX25519Pub);
    LvParts(h.mlkemCiphertext);
    LvParts(h.signature);
    var head := [h.algo.WireCode()] + h.sessionId + h.serverNonce + Lv(h.serverX25519Pub);
    assert |head| == 83;
    var b := Payload(MServerHello(h));
    assert b == head + Lv(h.mlkemCiphertext) + Lv(h.signature);
    var n := |h.mlkemCiphertext|;
    assert b[83..85 + n] == Lv(h.mlkemCiphertext);
    assert b[85 + n..] == Lv(h.signature);
    assert b[85..85 + n] == b[83..85 + n][2..];
    assert b[87 + n..] == b[85 + n..][2..];
  }

  /** Sections 4.4 to 4.7. */
  lemma OtherLayouts(m: Message)
    ensures var b := Payload(m);
      match m
      case MClientFinish(f) => |b| == 48 && b[..16] == f.sessionId && b[16..] == f.clientTag
      case MServerFinish(f) =>
        && |b| == 86 && b[..16] == f.sessionId && b[16..48] == f.serverTag && b[48..80] == f.serverWgPubkey
        && b[80..84] == f.assignedIp && b[84] as int * 256 + b[85] as int == f.wgPort
      case MRekeyRequest(r) => |b| >= 16 && b[..16] == r.sessionId && b[16..] == Payload(MClientHello(r.hello))
      case MError(e) =>
        |e.message| < 0x1_0000 ==>
          && |b| == 3 + |e.message| && b[0] == e.code
          && b[1] as int * 256 + b[2] as int == |e.message| && b[3..] == e.message
      case _ => true
  {
    match m
    case MError(e) =>
      if |e.message| < 0x1_0000 {
        LvParts(e.message);
        assert Payload(m)[1..] == Lv(e.message);
      }
    case _ =>
  }

  // ---- what a reader refuses -------------------------------------------------------------------------

  /** The header checks in their order, with the outcome of each; a frame that passes them is for its payload to decide. */
  lemma HeaderDecides(s: seq<Byte>, utf8: Utf8)
    ensures var r := ReadFrame(s, utf8);
      if |s| < 4 then r == Eof
      else if s[0] != 1 then r == Bad(UnsupportedVersion(s[0]))
      else if s[1] !in {0x01, 0x02, 0x03, 0x04, 0x05, 0xEE} then r == Bad(UnknownMsgType(s[1]))
      else
        var len := s[2] as int * 256 + s[3] as int;
        if len > 8192 then r == Bad(LengthOutOfRange)
        else if |s| < 4 + len then r == Eof
        else r.Got? || (r.Bad? && !r.error.UnsupportedVersion? && !r.error.UnknownMsgType?)
  {
    if |s| >= 4 && s[0] == 1 && MsgTypeFrom(s[1]).Some? {
      var len := FromBe16(s[2], s[3]);
      if len <= 8192 && |s| >= 4 + len {
        BodyErrors(MsgTypeFrom(s[1]).value, s[4..4 + len], utf8);
      }
    }
  }

  predicate InBody(e: WireError) {
    !e.UnsupportedVersion? && !e.UnknownMsgType?
  }

  lemma BodyErrors(ty: MsgType, b: seq<Byte>, utf8: Utf8)
    ensures ParseBody(ty, b, utf8).Failed? ==> InBody(ParseBody(ty, b, utf8).error)
  {
    match ty
    case TClientHello => HelloErrors(b);
    case TServerHello => ServerHelloErrors(b);
    case TRekeyRequest => if |b| >= 16 { HelloErrors(b[16..]); }
    case _ =>
  }

  lemma HelloErrors(b: seq<Byte>)
    ensures ParseHello(b).Failed? ==> InBody(ParseHello(b).error)
  {
  }

  lemma ServerHelloErrors(b: seq<Byte>)
    ensures ParseServerHello(b).Failed? ==> InBody(ParseServerHello(b).error)
  {
    if TakeAlgo(b).Parsed? && |TakeAlgo(b).rest| >= 48 {
      FieldErrors(TakeAlgo(b).rest[16..][32..], TakeAlgo(b).value);
    }
  }

  lemma FieldErrors(b: seq<Byte>, algo: Level)
    ensures var x := TakeSized(b, 32, "server_x25519_pub length");
      (x.Failed? ==> InBody(x.error))
      && (x.Parsed? ==>
            var ct := TakeSized(x.rest, algo.CiphertextLen(), "mlkem_ciphertext length");
            (ct.Failed? ==> InBody(ct.error))
            && (ct.Parsed? ==>
                  var sig := TakeSized(ct.rest, SIGNATURE_LEN, "signature length"); sig.Failed? ==> InBody(sig.error)))
  {
    var x := SizedInBody(b, 32, "server_x25519_pub length");
    if x.Parsed? {
      var ct := SizedInBody(x.rest, algo.CiphertextLen(), "mlkem_ciphertext length");
      if ct.Parsed? {
        var _ := SizedInBody(ct.rest, SIGNATURE_LEN, "signature length");
      }
    }
  }

  lemma SizedInBody(b: seq<Byte>, n: nat, what: string) returns (p: Parse<seq<Byte>>)
    ensures p == TakeSized(b, n, what) && (p.Failed? ==> InBody(p.error))
  {
    p := TakeSized(b, n, what);
  }

  /** A length-prefixed field of a fixed size: which of its checks fails first. */
  lemma SizedExactly(b: seq<Byte>, n: nat, what: string)
    ensures var p := TakeSized(b, n, what);
      if |b| < 2 then p == Failed(Truncated)
      else
        var len := b[0] as int * 256 + b[1] as int;
        if len > 8192 then p == Failed(LengthOutOfRange)
        else if |b| < 2 + len then p == Failed(Truncated)
        else if len != n then p == Failed(Invalid(what))
        else p == Parsed(b[2..2 + n], b[2 + n..])
  {
    if |b| >= 2 {
      var len := FromBe16(b[0], b[1]);
      assert TakeU16(b) == Parsed(len, b[2..]);
      if len <= 8192 && |b| >= 2 + len {
        assert b[2..][..len] == b[2..2 + len] && b[2..][len..] == b[2 + len..];
      }
    }
  }

  /** Messages of fixed fields are accepted by length alone; a short one is refused for the field it stops in. */
  lemma FixedFieldsExactly(b: seq<Byte>, utf8: Utf8)
    ensures var r := Decode(TClientFinish, b, utf8);
      if |b| == 48 then r.Ok?
      else r == Err(Invalid(if |b| < 16 then "session_id" else if |b| < 48 then "client_tag" else "trailing bytes"))
    ensures var r := Decode(TServerFinish, b, utf8);
      if |b| == 86 then r.Ok?
      else if 84 <= |b| < 86 then r == Err(Truncated)
      else r == Err(Invalid(
        if |b| < 16 then "session_id" else if |b| < 48 then "server_tag" else if |b| < 80 then "server_wg_pubkey"
        else if |b| < 84 then "assigned_ip" else "trailing bytes"))
    ensures |b| < 16 ==> Decode(TRekeyRequest, b, utf8) == Err(Invalid("session_id"))
  {
  }

  /** A ClientHello is read and refused in field order. */
  lemma HelloExactly(b: seq<Byte>)
    ensures var p := ParseHello(b);
      if |b| == 0 then p == Failed(Truncated)
      else if b[0] > 2 then p == Failed(Invalid("algorithm code"))
      else if |b| < 33 then p == Failed(Invalid("client_nonce"))
      else if |b| < 65 then p == Failed(Invalid("client_wg_pubkey"))
      else
        var level := if b[0] == 0 then MlKem512 else if b[0] == 1 then MlKem768 else MlKem1024;
        var x := TakeSized(b[65..], 32, "client_x25519_pub length");
        if x.Failed? then p == Failed(x.error)
        else
          var mk := TakeSized(x.rest, KeyLen(level), "client_mlkem_pub length");
          if mk.Failed? then p == Failed(mk.error)
          else p == Parsed(ClientHello(level, b[1..33], b[33..65], x.value, mk.value), mk.rest)
  {
    if |b| >= 65 && b[0] <= 2 {
      assert b[1..][32..][32..] == b[65..];
      assert b[1..][..32] == b[1..33] && b[1..][32..][..32] == b[33..65];
    }
  }

  /** The same for ServerHello. */
  lemma ServerHelloExactly(b: seq<Byte>)
    ensures var p := ParseServerHello(b);
      if |b| == 0 then p == Failed(Truncated)
      else if b[0] > 2 then p == Failed(Invalid("algorithm code"))
      else if |b| < 17 then p == Failed(Invalid("session_id"))
      else if |b| < 49 then p == Failed(Invalid("server_nonce"))
      else
        var level := if b[0] == 0 then MlKem512 else if b[0] == 1 then MlKem768 else MlKem1024;
        var x := TakeSized(b[49..], 32, "server_x25519_pub length");
        if x.Failed? then p == Failed(x.error)
        else
          var ct := TakeSized(x.rest, CipherLen(level), "mlkem_ciphertext length");
          if ct.Failed? then p == Failed(ct.error)
          else
            var sig := TakeSized(ct.rest, 3309, "signature length");
            if sig.Failed? then p == Failed(sig.error)
            else p == Parsed(ServerHello(level, b[1..17], b[17..49], x.value, ct.value, sig.value), sig.rest)
  {
    if |b| >= 49 && b[0] <= 2 {
      assert b[1..][16..][32..] == b[49..];
      assert b[1..][..16] == b[1..17] && b[1..][16..][..32] == b[17..49];
    }
  }

  /** Exact length: a well-formed payload with anything after it is refused for its trailing bytes. */
  lemma TrailingRefused(m: Message, extra: seq<Byte>, utf8: Utf8)
    requires utf8.Laws() && m.WellFormed(utf8) && extra != []
    ensures Decode(m.Type(), Payload(m) + extra, utf8) == Err(Invalid("trailing bytes"))
  {
    BodyThenRest(m, extra, utf8);
  }

  lemma BodyThenRest(m: Message, rest: seq<Byte>, utf8: Utf8)
    requires utf8.Laws() && m.WellFormed(utf8)
    ensures ParseBody(m.Type(), Payload(m) + rest, utf8) == Parsed(m, rest)
  {
    match m {
      case MClientHello(h) => HelloRoundTrip(h, rest);
      case MServerHello(h) => ServerHelloRoundTrip(h, rest);
      case MClientFinish(f) => FieldsTaken(f, rest);
      case MServerFinish(f) => FinishTaken(f, rest);
      case MRekeyRequest(r) => RekeyTaken(r, rest);
      case MError(e) => ErrorTaken(e, rest, utf8);
    }
    BodyOf(m, Payload(m) + rest, rest, utf8);
  }

  lemma BodyOf(m: Message, b: seq<Byte>, rest: seq<Byte>, utf8: Utf8)
    requires match m
      case MClientHello(h) => ParseHello(b) == Parsed(h, rest)
      case MServerHello(h) => ParseServerHello(b) == Parsed(h, rest)
      case MClientFinish(f) => ParseClientFinish(b) == Parsed(f, rest)
      case MServerFinish(f) => ParseServerFinish(b) == Parsed(f, rest)
      case MRekeyRequest(r) => ParseRekey(b) == Parsed(r, rest)
      case MError(e) => ParseError(b, utf8) == Parsed(e, rest)
    ensures ParseBody(m.Type(), b, utf8) == Parsed(m, rest)
  {
  }

  lemma RekeyTaken(r: RekeyRequest, rest: seq<Byte>)
    requires r.hello.WellFormed()
    ensures ParseRekey(r.sessionId + HelloBytes(r.hello) + rest) == Parsed(r, rest)
  {
    Assoc(r.sessionId, HelloBytes(r.hello), rest);
    TakeOfAppend(r.sessionId, HelloBytes(r.hello) + rest);
    HelloRoundTrip(r.hello, rest);
  }

  lemma ErrorTaken(e: ErrorMsg, rest: seq<Byte>, utf8: Utf8)
    requires utf8.Laws() && MError(e).WellFormed(utf8)
    ensures ParseError([e.code] + Lv(e.message) + rest, utf8) == Parsed(e, rest)
  {
    Assoc([e.code], Lv(e.message), rest);
    TakeOfAppend([e.code], Lv(e.message) + rest);
    TakeLvOfAppend(e.message, rest);
  }

  lemma FieldsTaken(f: ClientFinish, rest: seq<Byte>)
    ensures ParseClientFinish(f.sessionId + f.clientTag + rest) == Parsed(f, rest)
  {
    Assoc(f.sessionId, f.clientTag, rest);
    TakeOfAppend(f.sessionId, f.clientTag + rest);
    TakeOfAppend(f.clientTag, rest);
  }

  lemma FinishTaken(f: ServerFinish, rest: seq<Byte>)
    ensures ParseServerFinish(Payload(MServerFinish(f)) + rest) == Parsed(f, rest)
  {
    Flatten(f.sessionId, f.serverTag, f.serverWgPubkey, f.assignedIp, Be16(f.wgPort), rest);
    TakeOfAppend(f.sessionId, f.serverTag + (f.serverWgPubkey + (f.assignedIp + (Be16(f.wgPort) + rest))));
    TakeOfAppend(f.serverTag, f.serverWgPubkey + (f.assignedIp + (Be16(f.wgPort) + rest)));
    TakeOfAppend(f.serverWgPubkey, f.assignedIp + (Be16(f.wgPort) + rest));
    TakeOfAppend(f.assignedIp, Be16(f.wgPort) + rest);
    TakeU16OfAppend(f.wgPort, rest);
  }

  /** No well-formed payload is a proper prefix of another of its type: a message cut short is never another message. */
  lemma PrefixFree(m: Message, m': Message, extra: seq<Byte>, utf8: Utf8)
    requires utf8.Laws() && m.WellFormed(utf8) && m'.WellFormed(utf8) && m.Type() == m'.Type()
    requires Payload(m') == Payload(m) + extra
    ensures extra == [] && m == m'
  {
    BodyThenRest(m, extra, utf8);
    BodyThenRest(m', [], utf8);
    AppendNothing(Payload(m'));
  }
}
