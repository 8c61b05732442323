/** The handshake's formulas, written out over the primitives: what both halves compute and send, exactly when
    each accepts, and what the session keys depend on. */
module KeySchedule {
  import opened Bytes
  import opened Wire
  import opened Handshake

  // ---- the server ------------------------------------------------------------------------------

  /** `respond` answers exactly the hellos whose ML-KEM key has the level's length and can be encapsulated to;
      its one kind of error is a crypto error. */
  lemma RespondExactly(p: Primitives, identity: seq<Byte>, hello: ClientHello, sessionId: Bytes16, random: ServerRandom)
    ensures var r := Respond(p, identity, hello, sessionId, random);
      && (r.Ok? <==> |hello.clientMlkemPub| == hello.algo.PubLen()
                     && p.encapsulate(hello.algo, hello.clientMlkemPub, random.coins).Some?)
      && (r.Err? ==> r.error == Crypto(if |hello.clientMlkemPub| != hello.algo.PubLen()
                                       then "client ML-KEM public key wrong length" else "ML-KEM encapsulation failed"))
  {
  }

  /** What `respond` computes, as section 5 of the protocol document writes it: the transcript, its signature, and
      two keys from a secret that mixes X25519 and ML-KEM. */
  lemma RespondFormulas(p: Primitives, identity: seq<Byte>, hello: ClientHello, sessionId: Bytes16, random: ServerRandom,
                        out: Outcome)
    requires Respond(p, identity, hello, sessionId, random) == Ok(out)
    ensures var e := p.encapsulate(hello.algo, hello.clientMlkemPub, random.coins).value;
      var serverX := p.xPublic(random.xPrivate);
      var transcript := Ascii("PQC-VPN-HANDSHAKE-v1") + Ascii(hello.algo.Name()) + hello.clientNonce + random.nonce
        + hello.clientX25519Pub + hello.clientMlkemPub + serverX + e.ciphertext;
      var secret := p.sha256(p.diffieHellman(random.xPrivate, hello.clientX25519Pub) + e.secret);
      var salt := hello.clientNonce + random.nonce;
      && out.transcript == transcript
      && out.serverHello
         == ServerHello(hello.algo, sessionId, random.nonce, serverX, e.ciphertext, p.sign(identity, transcript))
      && out.keys.psk == p.hkdf(secret, salt, Ascii("pqc-vpn wg psk"))
      && out.keys.confirmKey == p.hkdf(secret, salt, Ascii("pqc-vpn confirm"))
  {
  }

  // ---- the client ------------------------------------------------------------------------------

  /** `finish` checks in this order: the algorithm, the signature over the client's own transcript under a key and
      of a length the scheme has, the ciphertext. It accepts exactly when all of them hold. */
  lemma FinishExactly(p: Primitives, c: ClientHandshake, sh: ServerHello, vk: seq<Byte>)
    ensures var r := Finish(p, c, sh, vk);
      var transcript := Ascii("PQC-VPN-HANDSHAKE-v1") + Ascii(c.hello.algo.Name()) + c.hello.clientNonce + sh.serverNonce
        + c.hello.clientX25519Pub + c.hello.clientMlkemPub + sh.serverX25519Pub + sh.mlkemCiphertext;
      var signed := |vk| == 1952 && |sh.signature| == 3309 && p.verify(vk, transcript, sh.signature);
      && (r == Err(AlgoMismatch) <==> sh.algo != c.hello.algo)
      && (r == Err(AuthFailed) <==> sh.algo == c.hello.algo && !signed)
      && (r.Ok? <==> sh.algo == c.hello.algo && signed && |sh.mlkemCiphertext| == c.level.CiphertextLen()
                     && p.decapsulate(c.level, c.kemPrivate, sh.mlkemCiphertext).Some?)
      && (r.Err? && r.error.Crypto? ==>
            r.error == Crypto(if |sh.mlkemCiphertext| != c.level.CiphertextLen()
                              then "server ciphertext has the wrong length" else "ML-KEM decapsulation failed"))
  {
  }

  /** What `finish` computes when it accepts. */
  lemma FinishFormulas(p: Primitives, c: ClientHandshake, sh: ServerHello, vk: seq<Byte>, f: Finished)
    requires Finish(p, c, sh, vk) == Ok(f)
    ensures var kemSecret := p.decapsulate(c.level, c.kemPrivate, sh.mlkemCiphertext).value;
      var transcript := Ascii("PQC-VPN-HANDSHAKE-v1") + Ascii(c.hello.algo.Name()) + c.hello.clientNonce + sh.serverNonce
        + c.hello.clientX25519Pub + c.hello.clientMlkemPub + sh.serverX25519Pub + sh.mlkemCiphertext;
      var secret := p.sha256(p.diffieHellman(c.xPrivate, sh.serverX25519Pub) + kemSecret);
      var salt := c.hello.clientNonce + sh.serverNonce;
      && f.transcript == transcript
      && f.keys.psk == p.hkdf(secret, salt, Ascii("pqc-vpn wg psk"))
      && f.keys.confirmKey == p.hkdf(secret, salt, Ascii("pqc-vpn confirm"))
      && f.finish == ClientFinish(sh.sessionId, p.hmac(f.keys.confirmKey, Ascii("client finished") + transcript))
  {
  }

  // ---- what the keys depend on -------------------------------------------------------------------

  /** The two secrets and the two nonces that go into a session's keys. */
  datatype Ingredients = Ingredients(x25519: Bytes32, mlkem: seq<Byte>, clientNonce: Bytes32, serverNonce: Bytes32)

  function IngredientsOf(p: Primitives, call: Call): Ingredients
    requires p.encapsulate(call.hello.algo, call.hello.clientMlkemPub, call.random.coins).Some?
  {
    Ingredients(p.diffieHellman(call.random.xPrivate, call.hello.clientX25519Pub),
      p.encapsulate(call.hello.algo, call.hello.clientMlkemPub, call.random.coins).value.secret,
      call.hello.clientNonce, call.random.nonce)
  }

  /** SHA-256 does not collide on these two messages. */
  predicate Sha256Tells(p: Primitives, a: seq<Byte>, b: seq<Byte>) {
    p.sha256(a) == p.sha256(b) ==> a == b
  }

  datatype HkdfInput = HkdfInput(ikm: seq<Byte>, salt: seq<Byte>, info: seq<Byte>)

  /** HKDF does not collide on these two inputs. */
  predicate HkdfTells(p: Primitives, a: HkdfInput, b: HkdfInput) {
    p.hkdf(a.ikm, a.salt, a.info) == p.hkdf(b.ikm, b.salt, b.info) ==> a == b
  }

  /** HMAC does not collide on these two keys and messages. */
  predicate HmacTells(p: Primitives, k1: seq<Byte>, m1: seq<Byte>, k2: seq<Byte>, m2: seq<Byte>) {
    p.hmac(k1, m1) == p.hmac(k2, m2) ==> k1 == k2 && m1 == m2
  }

  function KeyInput(p: Primitives, i: Ingredients, info: string): HkdfInput {
    HkdfInput(p.sha256(i.x25519 + i.mlkem), i.clientNonce + i.serverNonce, Ascii(info))
  }

  lemma SplitPair(a: Bytes32, b: seq<Byte>, a': Bytes32, b': seq<Byte>)
    ensures a + b == a' + b' <==> a == a' && b == b'
  {
    assert (a + b)[..32] == a && (a + b)[32..] == b;
    assert (a' + b')[..32] == a' && (a' + b')[32..] == b';
  }

  /** The session keys of a `respond` call are HKDF of its ingredients. */
  lemma KeysOfIngredients(p: Primitives, identity: seq<Byte>, call: Call)
    requires call.Result(p, identity).Ok?
    ensures var keys := call.Result(p, identity).value.keys;
      var psk := KeyInput(p, IngredientsOf(p, call), "pqc-vpn wg psk");
      var confirm := KeyInput(p, IngredientsOf(p, call), "pqc-vpn confirm");
      keys.psk == p.hkdf(psk.ikm, psk.salt, psk.info) && keys.confirmKey == p.hkdf(confirm.ikm, confirm.salt, confirm.info)
  {
    RespondFormulas(p, identity, call.hello, call.sessionId, call.random, call.Result(p, identity).value);
  }

  /** Where the hashes do not collide, two sessions have the same psk exactly when they agree in the X25519 secret, in
      the ML-KEM secret and in both nonces: each of the four counts. */
  lemma PskDependsOnAll(p: Primitives, identity: seq<Byte>, a: Call, b: Call)
    requires a.Result(p, identity).Ok? && b.Result(p, identity).Ok?
    requires var i, j := IngredientsOf(p, a), IngredientsOf(p, b);
      && Sha256Tells(p, i.x25519 + i.mlkem, j.x25519 + j.mlkem)
      && HkdfTells(p, KeyInput(p, i, "pqc-vpn wg psk"), KeyInput(p, j, "pqc-vpn wg psk"))
    ensures a.Result(p, identity).value.keys.psk == b.Result(p, identity).value.keys.psk
      <==> IngredientsOf(p, a) == IngredientsOf(p, b)
  {
    var i, j := IngredientsOf(p, a), IngredientsOf(p, b);
    KeysOfIngredients(p, identity, a);
    KeysOfIngredients(p, identity, b);
    SplitPair(i.x25519, i.mlkem, j.x25519, j.mlkem);
    SplitPair(i.clientNonce, i.serverNonce, j.clientNonce, j.serverNonce);
  }

  /** And no psk is any session's confirm key. */
  lemma PskIsNoConfirmKey(p: Primitives, identity: seq<Byte>, a: Call, b: Call)
    requires a.Result(p, identity).Ok? && b.Result(p, identity).Ok?
    requires HkdfTells(p, KeyInput(p, IngredientsOf(p, a), "pqc-vpn wg psk"), KeyInput(p, IngredientsOf(p, b), "pqc-vpn confirm"))
    ensures a.Result(p, identity).value.keys.psk != b.Result(p, identity).value.keys.confirmKey
  {
    KeysOfIngredients(p, identity, a);
    KeysOfIngredients(p, identity, b);
    DomainsSeparate([], []);
  }

  /** No client tag is a server tag, under any two keys and over any two transcripts: neither side's tag can be sent
      back to it. */
  lemma TagsDiffer(p: Primitives, k1: Bytes32, t1: seq<Byte>, k2: Bytes32, t2: seq<Byte>)
    requires HmacTells(p, k1, Ascii("client finished") + t1, k2, Ascii("server finished") + t2)
    ensures ClientTag(p, k1, t1) != ServerTag(p, k2, t2)
  {
    DomainsSeparate(t1, t2);
  }
}
