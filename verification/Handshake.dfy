/** Both halves of the handshake, over abstract primitives, and the agreement between them. */
module Handshake {
  import opened Bytes
  import opened Kem
  import opened Wire
  import Transcript

  const VERIFYING_KEY_LEN: nat := 1952

  // ---- primitives ---------------------------------------------------------------------

  datatype Encapsulation = Encapsulation(ciphertext: seq<Byte>, secret: seq<Byte>)

  /** The library calls. Randomness is an argument; a call that can fail returns an Option. */
  datatype Primitives = Primitives(
    xPublic: Bytes32 -> Bytes32,
    diffieHellman: (Bytes32, Bytes32) -> Bytes32,
    kemPublic: (Level, seq<Byte>) -> seq<Byte>,
    encapsulate: (Level, seq<Byte>, seq<Byte>) -> Option<Encapsulation>,
    decapsulate: (Level, seq<Byte>, seq<Byte>) -> Option<seq<Byte>>,
    sha256: seq<Byte> -> Bytes32,
    hkdf: (seq<Byte>, seq<Byte>, seq<Byte>) -> Bytes32,
    hmac: (seq<Byte>, seq<Byte>) -> Bytes32,
    verifyingKey: seq<Byte> -> seq<Byte>,
    sign: (seq<Byte>, seq<Byte>) -> seq<Byte>,
    verify: (seq<Byte>, seq<Byte>, seq<Byte>) -> bool)
  {
    /** X25519 commutes (section 6.1 of RFC 7748); ML-KEM decapsulation inverts encapsulation, with the
        sizes of section 8 of FIPS 203; an ML-DSA-65 signature verifies under its own key (FIPS 204). */
    ghost predicate Laws() {
      && (forall a: Bytes32, b: Bytes32 :: diffieHellman(a, xPublic(b)) == diffieHellman(b, xPublic(a)))
      && (forall l: Level, dk: seq<Byte> :: |kemPublic(l, dk)| == l.PubLen())
      && (forall l: Level, ek: seq<Byte>, coins: seq<Byte> :: encapsulate(l, ek, coins).Some? ==>
           |encapsulate(l, ek, coins).value.ciphertext| == l.CiphertextLen())
      && (forall l: Level, dk: seq<Byte>, coins: seq<Byte> ::
           var e := encapsulate(l, kemPublic(l, dk), coins);
           e.Some? ==> decapsulate(l, dk, e.value.ciphertext) == Some(e.value.secret))
      && (forall sk: seq<Byte> :: |verifyingKey(sk)| == VERIFYING_KEY_LEN)
      && (forall sk: seq<Byte>, m: seq<Byte> ::
           |sign(sk, m)| == SIGNATURE_LEN && verify(verifyingKey(sk), m, sign(sk, m)))
    }
  }

  // ---- key schedule ---------------------------------------------------------------------

  /** The client side of a hybrid exchange. */
  function ClientDecapsulate(p: Primitives, level: Level, xPrivate: Bytes32, kemPrivate: seq<Byte>, serverX: Bytes32,
                             ciphertext: seq<Byte>): Option<Bytes32>
  {
    match p.decapsulate(level, kemPrivate, ciphertext)
    case None => None
    case Some(kemSecret) => Some(CombineSharedSecrets(p, p.diffieHellman(xPrivate, serverX), kemSecret))
  }

  /** What one call of `respond` drew at random. */
  datatype ServerRandom = ServerRandom(nonce: Bytes32, xPrivate: Bytes32, coins: seq<Byte>)

  datatype ServerEncapsulation = ServerEncapsulation(serverX: Bytes32, ciphertext: seq<Byte>, hybridSecret: Bytes32)

  /** The server side. */
  function ServerEncapsulate(p: Primitives, level: Level, clientX: Bytes32, clientMlkem: seq<Byte>, random: ServerRandom)
    : Option<ServerEncapsulation>
  {
    match p.encapsulate(level, clientMlkem, random.coins)
    case None => None
    case Some(e) =>
      Some(ServerEncapsulation(p.xPublic(random.xPrivate), e.ciphertext,
        CombineSharedSecrets(p, p.diffieHellman(random.xPrivate, clientX), e.secret)))
  }

  /** Both ends of a hybrid exchange compute the same secret. */
  lemma SameSecret(p: Primitives, level: Level, xPrivate: Bytes32, kemPrivate: seq<Byte>, random: ServerRandom)
    requires p.Laws()
    ensures match ServerEncapsulate(p, level, p.xPublic(xPrivate), p.kemPublic(level, kemPrivate), random)
      case None => true
      case Some(e) =>
        |e.ciphertext| == level.CiphertextLen()
        && ClientDecapsulate(p, level, xPrivate, kemPrivate, e.serverX, e.ciphertext) == Some(e.hybridSecret)
  {
  }

  datatype SessionKeys = SessionKeys(psk: Bytes32, confirmKey: Bytes32)

  function CombineSharedSecrets(p: Primitives, x25519: seq<Byte>, mlkem: seq<Byte>): Bytes32 {
    p.sha256(x25519 + mlkem)
  }

  function DeriveSessionKeys(p: Primitives, secret: Bytes32, clientNonce: Bytes32, serverNonce: Bytes32): SessionKeys {
    var salt := clientNonce + serverNonce;
    SessionKeys(p.hkdf(secret, salt, Ascii("pqc-vpn wg psk")), p.hkdf(secret, salt, Ascii("pqc-vpn confirm")))
  }

  function ClientTag(p: Primitives, confirmKey: Bytes32, transcript: seq<Byte>): Bytes32 {
    p.hmac(confirmKey, Ascii("client finished") + transcript)
  }

  function ServerTag(p: Primitives, confirmKey: Bytes32, transcript: seq<Byte>): Bytes32 {
    p.hmac(confirmKey, Ascii("server finished") + transcript)
  }

  /** Domain separation: no client tag is computed over a message any server tag is computed over, on any two
      transcripts, and the two keys of a session come from different HKDF infos. */
  lemma DomainsSeparate(t1: seq<Byte>, t2: seq<Byte>)
    ensures Ascii("client finished") + t1 != Ascii("server finished") + t2
    ensures Ascii("client finished") + t1 == Ascii("client finished") + t2 ==> t1 == t2
    ensures Ascii("pqc-vpn wg psk") != Ascii("pqc-vpn confirm")
  {
    assert (Ascii("client finished") + t1)[0] == 'c' as int && (Ascii("server finished") + t2)[0] == 's' as int;
    assert t1 == (Ascii("client finished") + t1)[15..] && t2 == (Ascii("client finished") + t2)[15..];
    assert |Ascii("pqc-vpn wg psk")| == 14 && |Ascii("pqc-vpn confirm")| == 15;
  }

  datatype HandshakeError = AlgoMismatch | AuthFailed | Crypto(what: string)

  // ---- client ---------------------------------------------------------------------------

  /** A client mid-handshake. `level` is the variant that holds the keys. */
  datatype ClientHandshake = ClientHandshake(level: Level, xPrivate: Bytes32, kemPrivate: seq<Byte>, hello: ClientHello)

  function Start(p: Primitives, algo: Level, wgPubkey: Bytes32, nonce: Bytes32, xPrivate: Bytes32, kemPrivate: seq<Byte>)
    : ClientHandshake
  {
    ClientHandshake(algo, xPrivate, kemPrivate,
      ClientHello(algo, nonce, wgPubkey, p.xPublic(xPrivate), p.kemPublic(algo, kemPrivate)))
  }

  function VerifyServerSignature(p: Primitives, vk: seq<Byte>, message: seq<Byte>, signature: seq<Byte>): bool {
    |vk| == VERIFYING_KEY_LEN && |signature| == SIGNATURE_LEN && p.verify(vk, message, signature)
  }

  function ClientTranscript(hello: ClientHello, sh: ServerHello): seq<Byte> {
    Transcript.Encode(Transcript.Inputs(hello.algo, hello.clientNonce, sh.serverNonce, hello.clientX25519Pub,
      hello.clientMlkemPub, sh.serverX25519Pub, sh.mlkemCiphertext))
  }

  datatype Finished = Finished(keys: SessionKeys, finish: ClientFinish, transcript: seq<Byte>)

  function Finish(p: Primitives, c: ClientHandshake, sh: ServerHello, vk: seq<Byte>): Result<Finished, HandshakeError> {
    if sh.algo != c.hello.algo then Err(AlgoMismatch)
    else
      var transcript := ClientTranscript(c.hello, sh);
      if !VerifyServerSignature(p, vk, transcript, sh.signature) then Err(AuthFailed)
      else if |sh.mlkemCiphertext| != c.level.CiphertextLen() then
        Err(Crypto("server ciphertext has the wrong length"))
      else match ClientDecapsulate(p, c.level, c.xPrivate, c.kemPrivate, sh.serverX25519Pub, sh.mlkemCiphertext)
        case None => Err(Crypto("ML-KEM decapsulation failed"))
        case Some(secret) =>
          var keys := DeriveSessionKeys(p, secret, c.hello.clientNonce, sh.serverNonce);
          Ok(Finished(keys, ClientFinish(sh.sessionId, ClientTag(p, keys.confirmKey, transcript)), transcript))
  }

  // ---- server ---------------------------------------------------------------------------

  datatype Outcome = Outcome(serverHello: ServerHello, keys: SessionKeys, transcript: seq<Byte>)

  function Respond(p: Primitives, identity: seq<Byte>, hello: ClientHello, sessionId: Bytes16, random: ServerRandom)
    : Result<Outcome, HandshakeError>
  {
    if |hello.clientMlkemPub| != hello.algo.PubLen() then Err(Crypto("client ML-KEM public key wrong length"))
    else match ServerEncapsulate(p, hello.algo, hello.clientX25519Pub, hello.clientMlkemPub, random)
      case None => Err(Crypto("ML-KEM encapsulation failed"))
      case Some(e) =>
        var transcript := Transcript.Encode(Transcript.Inputs(hello.algo, hello.clientNonce, random.nonce,
          hello.clientX25519Pub, hello.clientMlkemPub, e.serverX, e.ciphertext));
        Ok(Outcome(
          ServerHello(hello.algo, sessionId, random.nonce, e.serverX, e.ciphertext, p.sign(identity, transcript)),
          DeriveSessionKeys(p, e.hybridSecret, hello.clientNonce, random.nonce),
          transcript))
  }

  // ---- agreement --------------------------------------------------------------------------

  /** One call of `respond` in the server's lifetime. */
  datatype Call = Call(hello: ClientHello, sessionId: Bytes16, random: ServerRandom) {
    function Result(p: Primitives, identity: seq<Byte>): Result<Outcome, HandshakeError> {
      Respond(p, identity, hello, sessionId, random)
    }
  }

  /** This signature on this message is not a forgery: if it verifies, the message is the transcript of
      one of the server's calls. */
  ghost predicate NotForged(p: Primitives, identity: seq<Byte>, vk: seq<Byte>, calls: set<Call>, m: seq<Byte>, sig: seq<Byte>) {
    p.verify(vk, m, sig) ==>
      exists c :: c in calls && c.Result(p, identity).Ok? && c.Result(p, identity).value.transcript == m
  }

  /** `call` is the server's end of the handshake that `c` finished with `sh`: same algorithm, nonces and
      public values on both sides, and the same keys. */
  predicate Matches(p: Primitives, identity: seq<Byte>, call: Call, c: ClientHandshake, sh: ServerHello, f: Finished) {
    match call.Result(p, identity)
    case Err(_) => false
    case Ok(out) =>
      && call.hello.algo == c.hello.algo == out.serverHello.algo == sh.algo
      && call.hello.clientNonce == c.hello.clientNonce
      && call.hello.clientX25519Pub == c.hello.clientX25519Pub
      && call.hello.clientMlkemPub == c.hello.clientMlkemPub
      && out.serverHello.serverNonce == sh.serverNonce
      && out.serverHello.serverX25519Pub == sh.serverX25519Pub
      && out.serverHello.mlkemCiphertext == sh.mlkemCiphertext
      && out.transcript == f.transcript
      && out.keys == f.keys
  }

  /** Agreement: a client that accepts any ServerHello at all shares its keys with a call of `respond`
      that saw the client's own values. */
  lemma Agreement(p: Primitives, identity: seq<Byte>, vk: seq<Byte>, calls: set<Call>,
                  algo: Level, wg: Bytes32, nonce: Bytes32, xPrivate: Bytes32, kemPrivate: seq<Byte>,
                  sh: ServerHello, f: Finished)
    returns (call: Call)
    requires p.Laws()
    requires NotForged(p, identity, vk, calls,
      ClientTranscript(Start(p, algo, wg, nonce, xPrivate, kemPrivate).hello, sh), sh.signature)
    requires Finish(p, Start(p, algo, wg, nonce, xPrivate, kemPrivate), sh, vk) == Ok(f)
    ensures call in calls
    ensures Matches(p, identity, call, Start(p, algo, wg, nonce, xPrivate, kemPrivate), sh, f)
  {
    var c := Start(p, algo, wg, nonce, xPrivate, kemPrivate);
    call :| call in calls && call.Result(p, identity).Ok?
      && call.Result(p, identity).value.transcript == f.transcript;
    var out := call.Result(p, identity).value;
    Transcript.TranscriptInjective(
      Transcript.Inputs(c.hello.algo, c.hello.clientNonce, sh.serverNonce, c.hello.clientX25519Pub,
        c.hello.clientMlkemPub, sh.serverX25519Pub, sh.mlkemCiphertext),
      Transcript.Inputs(call.hello.algo, call.hello.clientNonce, call.random.nonce, call.hello.clientX25519Pub,
        call.hello.clientMlkemPub, out.serverHello.serverX25519Pub, out.serverHello.mlkemCiphertext));
    SameSecret(p, algo, xPrivate, kemPrivate, call.random);
  }

  /** A client that gets the answer to its own hello accepts it, and derives the server's keys; the tag
      it sends is the one the server expects. */
  lemma HonestAnswerAccepted(p: Primitives, identity: seq<Byte>,
                             algo: Level, wg: Bytes32, nonce: Bytes32, xPrivate: Bytes32, kemPrivate: seq<Byte>,
                             sessionId: Bytes16, random: ServerRandom, out: Outcome)
    requires p.Laws()
    requires Respond(p, identity, Start(p, algo, wg, nonce, xPrivate, kemPrivate).hello, sessionId, random) == Ok(out)
    ensures Finish(p, Start(p, algo, wg, nonce, xPrivate, kemPrivate), out.serverHello, p.verifyingKey(identity))
      == Ok(Finished(out.keys, ClientFinish(sessionId, ClientTag(p, out.keys.confirmKey, out.transcript)), out.transcript))
    ensures out.serverHello.WellFormed()
  {
    SameSecret(p, algo, xPrivate, kemPrivate, random);
  }

  /** The laws are consistent: primitives that forget their inputs satisfy them. */
  lemma LawsAreConsistent() returns (p: Primitives)
    ensures p.Laws()
  {
    var zero32: Bytes32 := seq(32, _ => 0);
    p := Primitives(
      (a: Bytes32) => zero32,
      (a: Bytes32, b: Bytes32) => zero32,
      (l: Level, dk: seq<Byte>) => seq(l.PubLen(), _ => 0 as Byte),
      (l: Level, ek: seq<Byte>, coins: seq<Byte>) => Some(Encapsulation(seq(l.CiphertextLen(), _ => 0 as Byte), [])),
      (l: Level, dk: seq<Byte>, ct: seq<Byte>) => Some([]),
      (m: seq<Byte>) => zero32,
      (ikm: seq<Byte>, salt: seq<Byte>, info: seq<Byte>) => zero32,
      (key: seq<Byte>, m: seq<Byte>) => zero32,
      (sk: seq<Byte>) => seq(VERIFYING_KEY_LEN, _ => 0 as Byte),
      (sk: seq<Byte>, m: seq<Byte>) => seq(SIGNATURE_LEN, _ => 0 as Byte),
      (vk: seq<Byte>, m: seq<Byte>, sig: seq<Byte>) => true);
  }
}
