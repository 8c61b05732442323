/** The appending writer, the cursor reader, and the message codecs that drive them, each proved to
    compute what module Wire specifies. */
module WireCodec {
  import opened Bytes
  import opened Kem
  import opened Wire

  class Writer {
    var buf: seq<Byte>

    constructor ()
      ensures buf == []
    {
      buf := [];
    }

    method U8(v: Byte)
      modifies this
      ensures buf == old(buf) + [v]
    {
      buf := buf + [v];
    }

    method Bytes(v: seq<Byte>)
      modifies this
      ensures buf == old(buf) + v
    {
      buf := buf + v;
    }

    method LengthPrefixed(v: seq<Byte>)
      modifies this
      ensures buf == old(buf) + Lv(v)
    {
      buf := buf + Be16(AsU16(|v|));
      buf := buf + v;
    }

    method Hello(h: ClientHello)
      modifies this
      ensures buf == old(buf) + HelloBytes(h)
    {
      U8(h.algo.WireCode());
      Bytes(h.clientNonce);
      Bytes(h.clientWgPubkey);
      LengthPrefixed(h.clientX25519Pub);
      LengthPrefixed(h.clientMlkemPub);
    }

    method ServerHello(h: Wire.ServerHello)
      modifies this
      ensures buf == old(buf) + ServerHelloBytes(h)
    {
      U8(h.algo.WireCode());
      Bytes(h.sessionId);
      Bytes(h.serverNonce);
      LengthPrefixed(h.serverX25519Pub);
      LengthPrefixed(h.mlkemCiphertext);
      LengthPrefixed(h.signature);
    }

    method ServerFinish(f: Wire.ServerFinish)
      modifies this
      ensures buf == old(buf) + Payload(MServerFinish(f))
    {
      Bytes(f.sessionId);
      Bytes(f.serverTag);
      Bytes(f.serverWgPubkey);
      Bytes(f.assignedIp);
      Bytes(Be16(f.wgPort));
    }
  }

  method EncodePayload(m: Message) returns (payload: seq<Byte>)
    ensures payload == Payload(m)
  {
    var w := new Writer();
    match m {
      case MClientHello(h) =>
        w.Hello(h);
      case MServerHello(h) =>
        w.ServerHello(h);
      case MClientFinish(f) =>
        w.Bytes(f.sessionId);
        w.Bytes(f.clientTag);
      case MServerFinish(f) =>
        w.ServerFinish(f);
      case MRekeyRequest(r) =>
        w.Bytes(r.sessionId);
        w.Hello(r.hello);
      case MError(e) =>
        w.U8(e.code);
        w.LengthPrefixed(e.message);
    }
    payload := w.buf;
  }

  class Reader {
    const buf: seq<Byte>
    var pos: nat

    ghost predicate Valid()
      reads this
    {
      pos <= |buf|
    }

    /** The bytes not yet taken. */
    ghost function Rest(): seq<Byte>
      reads this
      requires Valid()
    {
      buf[pos..]
    }

    /** The outcome of a step that started at `before`: what the parse `p` of those bytes says, with the
        cursor on the first byte after what it consumed. */
    ghost predicate Yields<T>(r: Result<T, WireError>, p: Parse<T>)
      reads this
    {
      Valid() && match r
        case Ok(v) => p == Parsed(v, Rest())
        case Err(e) => p == Failed(e)
    }

    constructor (buf: seq<Byte>)
      ensures Valid() && Rest() == buf
    {
      this.buf := buf;
      pos := 0;
    }

    method TakeN(n: nat) returns (r: Result<seq<Byte>, WireError>)
      requires Valid()
      modifies this
      ensures Yields(r, Take(old(Rest()), n))
      ensures r.Err? ==> pos == old(pos)
    {
      if |buf| - pos < n {
        return Err(Truncated);
      }
      var s := buf[pos..pos + n];
      assert Rest()[..n] == s && Rest()[n..] == buf[pos + n..];
      pos := pos + n;
      return Ok(s);
    }

    method TakeByte() returns (r: Result<Byte, WireError>)
      requires Valid()
      modifies this
      ensures Yields(r, TakeU8(old(Rest())))
    {
      var s := TakeN(1);
      match s
      case Err(e) => return Err(e);
      case Ok(v) => return Ok(v[0]);
    }

    method TakeWord() returns (r: Result<U16, WireError>)
      requires Valid()
      modifies this
      ensures Yields(r, TakeU16(old(Rest())))
    {
      var s := TakeN(2);
      match s
      case Err(e) => return Err(e);
      case Ok(v) => return Ok(FromBe16(v[0], v[1]));
    }

    method TakeArray(n: nat, what: string) returns (r: Result<seq<Byte>, WireError>)
      requires Valid()
      modifies this
      ensures Yields(r, TakeArr(old(Rest()), n, what))
      ensures r.Ok? ==> |r.value| == n
    {
      var s := TakeN(n);
      match s
      case Err(_) => return Err(Invalid(what));
      case Ok(v) => return Ok(v);
    }

    method TakePrefixed() returns (r: Result<seq<Byte>, WireError>)
      requires Valid()
      modifies this
      ensures Yields(r, TakeLv(old(Rest())))
    {
      var n := TakeWord();
      if n.Err? {
        return Err(n.error);
      }
      if n.value > MAX_PAYLOAD {
        return Err(LengthOutOfRange);
      }
      r := TakeN(n.value);
    }

    method TakePrefixedOf(n: nat, what: string) returns (r: Result<seq<Byte>, WireError>)
      requires Valid()
      modifies this
      ensures Yields(r, TakeSized(old(Rest()), n, what))
      ensures r.Ok? ==> |r.value| == n
    {
      r := TakePrefixed();
      if r.Ok? && |r.value| != n {
        r := Err(Invalid(what));
      }
    }

    method TakeLevel() returns (r: Result<Level, WireError>)
      requires Valid()
      modifies this
      ensures Yields(r, TakeAlgo(old(Rest())))
    {
      var code := TakeByte();
      if code.Err? {
        return Err(code.error);
      }
      match FromWireCode(code.value)
      case Some(level) => return Ok(level);
      case None => return Err(Invalid("algorithm code"));
    }

    method DecodeHello() returns (r: Result<ClientHello, WireError>)
      requires Valid()
      modifies this
      ensures Yields(r, ParseHello(old(Rest())))
    {
      var algo := TakeLevel();
      if algo.Err? { return Err(algo.error); }
      var nonce := TakeArray(32, "client_nonce");
      if nonce.Err? { return Err(nonce.error); }
      var wg := TakeArray(32, "client_wg_pubkey");
      if wg.Err? { return Err(wg.error); }
      var x := TakePrefixedOf(32, "client_x25519_pub length");
      if x.Err? { return Err(x.error); }
      var mk := TakePrefixedOf(algo.value.PubLen(), "client_mlkem_pub length");
      if mk.Err? { return Err(mk.error); }
      return Ok(ClientHello(algo.value, nonce.value, wg.value, x.value, mk.value));
    }

    method DecodeServerHello() returns (r: Result<Wire.ServerHello, WireError>)
      requires Valid()
      modifies this
      ensures Yields(r, ParseServerHello(old(Rest())))
    {
      var algo := TakeLevel();
      if algo.Err? { return Err(algo.error); }
      var sid := TakeArray(16, "session_id");
      if sid.Err? { return Err(sid.error); }
      var nonce := TakeArray(32, "server_nonce");
      if nonce.Err? { return Err(nonce.error); }
      var x := TakePrefixedOf(32, "server_x25519_pub length");
      if x.Err? { return Err(x.error); }
      var ct := TakePrefixedOf(algo.value.CiphertextLen(), "mlkem_ciphertext length");
      if ct.Err? { return Err(ct.error); }
      var sig := TakePrefixedOf(SIGNATURE_LEN, "signature length");
      if sig.Err? { return Err(sig.error); }
      return Ok(Wire.ServerHello(algo.value, sid.value, nonce.value, x.value, ct.value, sig.value));
    }

    method DecodeServerFinish() returns (r: Result<Wire.ServerFinish, WireError>)
      requires Valid()
      modifies this
      ensures Yields(r, ParseServerFinish(old(Rest())))
    {
      var sid := TakeArray(16, "session_id");
      if sid.Err? { return Err(sid.error); }
      var tag := TakeArray(32, "server_tag");
      if tag.Err? { return Err(tag.error); }
      var wg := TakeArray(32, "server_wg_pubkey");
      if wg.Err? { return Err(wg.error); }
      var ip := TakeArray(4, "assigned_ip");
      if ip.Err? { return Err(ip.error); }
      var port := TakeWord();
      if port.Err? { return Err(port.error); }
      return Ok(ServerFinish(sid.value, tag.value, wg.value, ip.value, port.value));
    }

    /** The body of `decode_payload`, before `expect_end`. */
    method DecodeBody(ty: MsgType, utf8: Utf8) returns (r: Result<Message, WireError>)
      requires Valid()
      modifies this
      ensures Yields(r, ParseBody(ty, old(Rest()), utf8))
    {
      match ty
      case TClientHello =>
        var h := DecodeHello();
        if h.Err? { return Err(h.error); }
        return Ok(MClientHello(h.value));
      case TServerHello =>
        var h := DecodeServerHello();
        if h.Err? { return Err(h.error); }
        return Ok(MServerHello(h.value));
      case TClientFinish =>
        var sid := TakeArray(16, "session_id");
        if sid.Err? { return Err(sid.error); }
        var tag := TakeArray(32, "client_tag");
        if tag.Err? { return Err(tag.error); }
        return Ok(MClientFinish(ClientFinish(sid.value, tag.value)));
      case TServerFinish =>
        var f := DecodeServerFinish();
        if f.Err? { return Err(f.error); }
        return Ok(MServerFinish(f.value));
      case TRekeyRequest =>
        var sid := TakeArray(16, "session_id");
        if sid.Err? { return Err(sid.error); }
        var h := DecodeHello();
        if h.Err? { return Err(h.error); }
        return Ok(MRekeyRequest(RekeyRequest(sid.value, h.value)));
      case TError =>
        var code := TakeByte();
        if code.Err? { return Err(code.error); }
        var text := TakePrefixed();
        if text.Err? { return Err(text.error); }
        return Ok(MError(ErrorMsg(code.value, utf8.lossy(text.value))));
    }
  }

  method DecodePayload(ty: MsgType, payload: seq<Byte>, utf8: Utf8) returns (r: Result<Message, WireError>)
    ensures r == Decode(ty, payload, utf8)
  {
    var reader := new Reader(payload);
    r := reader.DecodeBody(ty, utf8);
    if r.Ok? && reader.pos != |reader.buf| {
      r := Err(Invalid("trailing bytes"));
    }
  }

  /** A connection: the bytes still to arrive, the frames sent so far, and how many more frames the socket
      takes before it breaks. */
  class Stream {
    var input: seq<Byte>
    var output: seq<Byte>
    var writable: nat

    constructor (input: seq<Byte>, writable: nat)
      ensures this.input == input && output == [] && this.writable == writable
    {
      this.input, this.output, this.writable := input, [], writable;
    }

    method ReadExact(n: nat) returns (r: Option<seq<Byte>>)
      modifies this`input
      ensures r == if |old(input)| < n then None else Some(old(input)[..n])
      ensures r.Some? ==> input == old(input)[n..]
    {
      if |input| < n {
        input := [];
        return None;
      }
      r := Some(input[..n]);
      input := input[n..];
    }

    method Write(m: Message) returns (ok: bool)
      modifies this`output, this`writable
      ensures ok <==> Frame(m).Some? && old(writable) > 0
      ensures output == if ok then old(output) + Frame(m).value else old(output)
      ensures writable == old(writable) - if ok then 1 else 0
    {
      var payload := EncodePayload(m);
      if |payload| > MAX_PAYLOAD {
        return false;
      }
      if writable == 0 {
        return false;
      }
      writable := writable - 1;
      output := output + ([PROTOCOL_VERSION, m.Type().Code()] + Be16(AsU16(|payload|)) + payload);
      return true;
    }

    method Read(utf8: Utf8) returns (r: ReadOutcome)
      modifies this`input
      ensures r == ReadFrame(old(input), utf8)
      ensures r.Got? ==> input == r.rest
    {
      var header := ReadExact(4);
      if header.None? {
        return Eof;
      }
      var h := header.value;
      if h[0] != PROTOCOL_VERSION {
        return Bad(UnsupportedVersion(h[0]));
      }
      var ty := MsgTypeFrom(h[1]);
      if ty.None? {
        return Bad(UnknownMsgType(h[1]));
      }
      var len := FromBe16(h[2], h[3]);
      if len > MAX_PAYLOAD {
        return Bad(LengthOutOfRange);
      }
      var payload := ReadExact(len);
      if payload.None? {
        return Eof;
      }
      assert payload.value == old(input)[4..4 + len];
      var m := DecodePayload(ty.value, payload.value, utf8);
      match m
      case Err(e) => return Bad(e);
      case Ok(v) => return Got(v, input);
    }
  }
}
