/** The byte string the server signs. No field in it carries a length; it is injective all the same. */
module Transcript {
  import opened Bytes
  import opened Kem

  const LABEL := "PQC-VPN-HANDSHAKE-v1"

  datatype Inputs = Inputs(
    algo: Level, clientNonce: Bytes32, serverNonce: Bytes32, clientX25519Pub: Bytes32,
    clientMlkemPub: seq<Byte>, serverX25519Pub: Bytes32, ciphertext: seq<Byte>)

  function Encode(i: Inputs): seq<Byte> {
    Ascii(LABEL) + Ascii(i.algo.Name()) + i.clientNonce + i.serverNonce + i.clientX25519Pub
    + i.clientMlkemPub + i.serverX25519Pub + i.ciphertext
  }

  method Build(algorithmName: seq<Byte>, clientNonce: Bytes32, serverNonce: Bytes32, clientX25519Pub: Bytes32,
               clientMlkemPub: seq<Byte>, serverX25519Pub: Bytes32, ciphertext: seq<Byte>)
    returns (transcript: seq<Byte>)
    ensures forall algo: Level :: algorithmName == Ascii(algo.Name()) ==>
      transcript == Encode(Inputs(algo, clientNonce, serverNonce, clientX25519Pub, clientMlkemPub, serverX25519Pub, ciphertext))
  {
    transcript := Ascii(LABEL);
    transcript := transcript + algorithmName;
    transcript := transcript + clientNonce;
    transcript := transcript + serverNonce;
    transcript := transcript + clientX25519Pub;
    transcript := transcript + clientMlkemPub;
    transcript := transcript + serverX25519Pub;
    transcript := transcript + ciphertext;
  }

  /** Everything after the algorithm name. */
  function Tail(i: Inputs): seq<Byte> {
    i.clientNonce + (i.serverNonce + (i.clientX25519Pub + (i.clientMlkemPub + (i.serverX25519Pub + i.ciphertext))))
  }

  lemma EncodeSplits(i: Inputs)
    ensures Encode(i) == Ascii(LABEL) + Ascii(i.algo.Name()) + Tail(i)
  {
    var h := Ascii(LABEL) + Ascii(i.algo.Name());
    var a, b, c, d, e, f :=
      i.clientNonce, i.serverNonce, i.clientX25519Pub, i.clientMlkemPub, i.serverX25519Pub, i.ciphertext;
    Assoc(h + a + b + c + d, e, f);
    Assoc(h + a + b + c, d, e + f);
    Assoc(h + a + b, c, d + (e + f));
    Assoc(h + a, b, c + (d + (e + f)));
    Assoc(h, a, b + (c + (d + (e + f))));
  }

  lemma Peel(u: seq<Byte>, v: seq<Byte>, u': seq<Byte>, v': seq<Byte>)
    requires u + v == u' + v' && |u| == |u'|
    ensures u == u' && v == v'
  {
    assert u == (u + v)[..|u|] && v == (u + v)[|u|..];
    assert u' == (u' + v')[..|u'|] && v' == (u' + v')[|u'|..];
  }

  /** The layout of section 5.1 of the protocol document, field by field: where each one starts and ends. */
  lemma TranscriptLayout(i: Inputs)
    ensures var t := Encode(i);
      var name := match i.algo { case MlKem512 => 10 case MlKem768 => 10 case MlKem1024 => 11 };
      var key := 20 + name + 96;
      var end := key + |i.clientMlkemPub|;
      && |t| == end + 32 + |i.ciphertext|
      && t[..20] == Ascii("PQC-VPN-HANDSHAKE-v1")
      && t[20..20 + name] == Ascii(match i.algo { case MlKem512 => "ML-KEM-512" case MlKem768 => "ML-KEM-768" case MlKem1024 => "ML-KEM-1024" })
      && t[20 + name..52 + name] == i.clientNonce
      && t[52 + name..84 + name] == i.serverNonce
      && t[84 + name..key] == i.clientX25519Pub
      && t[key..end] == i.clientMlkemPub
      && t[end..end + 32] == i.serverX25519Pub
      && t[end + 32..] == i.ciphertext
  {
    EncodeSplits(i);
    var head := Ascii(LABEL) + Ascii(i.algo.Name());
    var n := |head|;
    assert Encode(i)[..20] == head[..20] == Ascii(LABEL);
    assert Encode(i)[20..n] == head[20..] == Ascii(i.algo.Name());
    assert Encode(i)[n..] == Tail(i);
    TailLayout(i);
    forall from: nat, to: nat | from <= to <= |Tail(i)| ensures Encode(i)[n + from..n + to] == Tail(i)[from..to] {
    }
  }

  lemma TailLayout(i: Inputs)
    ensures var t := Tail(i);
      var end := 96 + |i.clientMlkemPub|;
      && |t| == end + 32 + |i.ciphertext|
      && t[..32] == i.clientNonce && t[32..64] == i.serverNonce && t[64..96] == i.clientX25519Pub
      && t[96..end] == i.clientMlkemPub && t[end..end + 32] == i.serverX25519Pub && t[end + 32..] == i.ciphertext
  {
  }

  /** The three names differ in their eighth character, byte 27 of the transcript. */
  lemma AlgoAtByte27(i: Inputs)
    ensures |Encode(i)| > 27
    ensures Encode(i)[27] == match i.algo { case MlKem512 => 53 case MlKem768 => 55 case MlKem1024 => 49 }
  {
    EncodeSplits(i);
    assert |LABEL| == 20;
    assert Encode(i)[27] == Ascii(i.algo.Name())[7];
    assert i.algo.Name()[7] == match i.algo { case MlKem512 => '5' case MlKem768 => '7' case MlKem1024 => '1' };
    assert '5' as int == 53 && '7' as int == 55 && '1' as int == 49;
  }

  /** Two inputs are equal exactly when their transcripts are and their ML-KEM keys have equal length. */
  lemma TranscriptDetermines(a: Inputs, b: Inputs)
    ensures a == b <==> Encode(a) == Encode(b) && |a.clientMlkemPub| == |b.clientMlkemPub|
  {
    if Encode(a) == Encode(b) && |a.clientMlkemPub| == |b.clientMlkemPub| {
      AlgoAtByte27(a);
      AlgoAtByte27(b);
      assert a.algo == b.algo;
      EncodeSplits(a);
      EncodeSplits(b);
      Peel(Ascii(LABEL) + Ascii(a.algo.Name()), Tail(a), Ascii(LABEL) + Ascii(b.algo.Name()), Tail(b));
      TailDetermines(a, b);
    }
  }

  lemma TailDetermines(a: Inputs, b: Inputs)
    requires a.algo == b.algo && Tail(a) == Tail(b) && |a.clientMlkemPub| == |b.clientMlkemPub|
    ensures a == b
  {
    var a5, b5 := a.serverX25519Pub + a.ciphertext, b.serverX25519Pub + b.ciphertext;
    var a4, b4 := a.clientMlkemPub + a5, b.clientMlkemPub + b5;
    var a3, b3 := a.clientX25519Pub + a4, b.clientX25519Pub + b4;
    var a2, b2 := a.serverNonce + a3, b.serverNonce + b3;
    Peel(a.clientNonce, a2, b.clientNonce, b2);
    Peel(a.serverNonce, a3, b.serverNonce, b3);
    Peel(a.clientX25519Pub, a4, b.clientX25519Pub, b4);
    Peel(a.clientMlkemPub, a5, b.clientMlkemPub, b5);
    Peel(a.serverX25519Pub, a.ciphertext, b.serverX25519Pub, b.ciphertext);
  }

  /** Injectivity on the inputs the protocol admits: a key of the length its algorithm prescribes. */
  lemma TranscriptInjective(a: Inputs, b: Inputs)
    requires |a.clientMlkemPub| == a.algo.PubLen() && |b.clientMlkemPub| == b.algo.PubLen()
    requires Encode(a) == Encode(b)
    ensures a == b
  {
    AlgoAtByte27(a);
    AlgoAtByte27(b);
    TranscriptDetermines(a, b);
  }

  /** Without that length rule the layout is ambiguous: the boundary between the key and what follows
      it can slide by one byte. */
  lemma AmbiguousWithoutLengths(a: Inputs, b: Inputs)
    requires |a.ciphertext| > 0
    requires b == a.(clientMlkemPub := a.clientMlkemPub + [a.serverX25519Pub[0]],
                     serverX25519Pub := a.serverX25519Pub[1..] + [a.ciphertext[0]],
                     ciphertext := a.ciphertext[1..])
    ensures a != b && Encode(a) == Encode(b)
  {
    assert |a.clientMlkemPub| != |b.clientMlkemPub|;
    EncodeSplits(a);
    EncodeSplits(b);
    assert a.clientMlkemPub + (a.serverX25519Pub + a.ciphertext)
        == b.clientMlkemPub + (b.serverX25519Pub + b.ciphertext);
  }
}
