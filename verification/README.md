# Verified model of the handshake, registry, decision gate and detectors

A Dafny model of the parts of this repository whose guarantees are about whole runs: the post-quantum handshake
between client and server, the server's peer registry under concurrent connections, the gate that turns policy output
into handshakes, and the anomaly detectors and reward oracle of the RL agent. `dafny verify dfyconfig.toml` checks it.

## What is modelled

- **Frames** (`Wire`, `WireCodec`, `WireRoundTrip`, `WireLayout`). The wire format as functions on byte strings, the
  appending `Writer` and the cursor `Reader` as classes proved to compute them, round trips in both directions, and the
  protocol document's tables offset by offset, and what a reader refuses. The client and the server carry the same
  codec twice (`core/src/protocol/wire.rs`, `server/handshake-server/src/wire.rs`); one model stands for both, since
  their tables and branches are identical.
- **Handshake** (`Transcript`, `Handshake`, `KeySchedule`, `Transport`). Both halves over abstract primitives, their
  formulas written out, what the session keys depend on, transcript injectivity, and the agreement that follows from
  it.
- **Registry** (`PeerRegistry`, `RegistryStore`). The locked map as a class, its operations as functions of the old
  map, invariants and histories over every operation sequence, and its backing file.
- **Server** (`Server`, `HandlerSteps`, `ServerRuns`, `PskRuns`, `Connection`, `EndToEnd`, `ErrorReplies`, `Restart`,
  `Housekeeping`, `SweepRuns`). `handle_connection` as atomic steps - read and respond, check the tag, registry call,
  install, persist, finish - with exactly when each goes on and what it says, interleaved by any number of handlers
  over one registry, one interface and one file, with every read, write, command and disk failure as a choice of the
  step; the same handler as one method over a byte stream; a proof that the second is a run of the first; whose psk is
  on the interface; what a refused client is told; crash recovery; reconciliation; and the idle sweep, alone and
  interleaved with the handlers.
- **Gate** (`Gate`, `GateHistory`, `PyGate`, `GateRefinement`, `GateSession`). The Rust gate, what its counters mean as
  statements about tick histories, the Python gate it was ported from, the refinement between them, and the gate
  composed with the registry's no-downgrade rule.
- **Detectors** (`Anomaly`, `AnomalyHistory`) and **oracle** (`Oracle`, `VpnEnv`).

## Assumptions

- The cryptographic primitives are a record of functions whose laws are hypotheses of the lemmas that need them: X25519
  commutes (section 6.1 of RFC 7748), ML-KEM decapsulation inverts encapsulation with the sizes of section 8 of FIPS 203,
  an ML-DSA-65 signature verifies under its own key (FIPS 204). HKDF (RFC 5869), HMAC (RFC 2104) and SHA-256 are functions
  with no law; a hasher or MAC fed in pieces is the function of the concatenation. Randomness is an argument. What the keys
  depend on is proved where the hashes do not collide on the inputs compared (`KeySchedule.Sha256Tells`, `HkdfTells`,
  `HmacTells`): no function into 32 bytes is injective on all of them.
- Unforgeability is a hypothesis about the one signature and the one tag a client accepts. `Handshake.NotForged`: if the
  signature verifies, its message is the transcript of a `respond` call. `EndToEnd.TagNotForged`: if the tag verifies under
  a confirm key some `respond` call derived, a handler sent it.
- `PskRuns.PskIsLatestExactly` needs, for its "only if", that the session's psk differs from the key's other ones.
- Base64, hex, dotted quads and JSON are inverse pairs (`RegistryStore.Codecs`); UTF-8 is a validity test with a lossy
  conversion that is the identity on valid text.
- The standard deviation of a window is a parameter that is not negative (`AnomalyHistory.NotNegative`); where its square is
  the variance, `AnomalyHistory.FarOffInSquares` says without a root what Layer 1 fires on.
- Probabilities, rewards, scores and measurements are exact reals: rounding and NaN are abstracted. Times are integers in
  nanoseconds. The `u32` rekey counter wraps, as in a release build.
- The clock, the random source, the network, the `wg` command and the disk are arguments: each step takes what they gave
  it, failures included.

## What the code does not keep

- **Version errors.** `server/PROTOCOL.md:97` promises `UNSUPPORTED_VERSION` (0x01) for a frame of another version, and
  `WireError::protocol_code` maps it so, but the handler does not ask: every refused first frame gets 0x02, and a
  refused message 3 gets nothing. `ErrorReplies.VersionTwoIsMalformed` is the shortest such frame,
  `ErrorReplies.UnreadableReply` says for which frames the code is the promised one,
  `ErrorReplies.UnreadableFinishIsSilent` covers message 3.
- **Error text.** `server/PROTOCOL.md:219` limits it to 256 bytes; neither reader nor writer does.
  `ErrorReplies.ErrorFits` has the limit that holds, `ErrorReplies.LongRepliesExactly` the two replies that can exceed
  256.
- **The psk of the latest session.** Two handshakes of one peer can register in one order and install in the other, and
  an install can fail (`PskRuns.PskRace`, `PskRuns.FailedInstallKeepsOldPsk`). `PskRuns.PskIsLatestExactly` is the
  condition.
- **Agreement under the idle sweep.** A peer can be evicted between a handshake's registration and its install
  (`SweepRuns.SweepRace`). `SweepRuns.AgreesExactly` is the condition, `SweepRuns.EvictionInWindow` when it can fail.
- A gate with `confirm_ticks = 0` confirms on the first winning tick, as with 1; `Gate.Params.Need` says so and every
  history lemma covers it.
- `AddressPoolExhausted` and its INTERNAL reply exist in the code but cannot happen (`PeerRegistry.NeverExhausted`).

## Model

| member | source | states |
|---|---|---|
| `Kem.FromWireCode` | core/src/crypto/algorithm.rs:28-44 | the wire codes name exactly the three levels, and decoding inverts encoding |
| `Kem.FromName` | server/handshake-server/src/wire.rs:92-107 | the registry file's algorithm names decode exactly to the level that bears them |
| `Wire.MsgTypeFrom` | core/src/protocol/wire.rs:101-125 | a type byte decodes to a message type exactly when it is that type's byte |
| `WireCodec.Writer.LengthPrefixed` | core/src/protocol/wire.rs:142-146 | appends a `u16` prefix holding the low 16 bits of the length, then the bytes |
| `WireCodec.Writer.Hello` | core/src/protocol/wire.rs:220-226 | appends the ClientHello layout |
| `WireCodec.Writer.ServerHello` | core/src/protocol/wire.rs:262-269 | appends the ServerHello layout |
| `WireCodec.EncodePayload` | core/src/protocol/wire.rs:359-385 | the appending writer computes the payload layout of every message |
| `WireCodec.Reader.TakeN` | core/src/protocol/wire.rs:164-171 | the next `n` bytes, leaving the cursor after them; on failure the cursor does not move |
| `WireCodec.Reader.TakeArray` | core/src/protocol/wire.rs:179-185 | a fixed-size field, or `Invalid` naming it |
| `WireCodec.Reader.TakePrefixed` | core/src/protocol/wire.rs:186-192 | a length-prefixed field, refused above the payload limit |
| `WireCodec.Reader.DecodeHello` | core/src/protocol/wire.rs:227-248 | the cursor computes the ClientHello grammar and stops on the first byte after it |
| `WireCodec.Reader.DecodeServerHello` | core/src/protocol/wire.rs:270-297 | the same for ServerHello |
| `WireCodec.Reader.DecodeBody` | core/src/protocol/wire.rs:387-414 | the same for every message type |
| `WireCodec.DecodePayload` | core/src/protocol/wire.rs:387-416 | `decode_payload` accepts a body and nothing after it |
| `WireCodec.Stream.Write` | core/src/protocol/wire.rs:419-433 | appends the frame, or fails and appends nothing exactly when the payload is over the limit or the socket is broken |
| `WireCodec.Stream.Read` | core/src/protocol/wire.rs:437-451 | reads one frame, consuming its bytes exactly, with the error of the first check that fails |
| `WireRoundTrip.ReadOfWrite` | core/src/protocol/wire.rs:419-451 | for every well-formed message and any trailing bytes, reading the written frame gives the message back and leaves exactly the rest |
| `WireRoundTrip.DecodeOfPayload` | core/src/protocol/wire.rs:359-416 | `decode_payload` inverts `encode_payload` on every well-formed message |
| `WireRoundTrip.DecodeExactly` | core/src/protocol/wire.rs:359-416 | a non-Error payload decodes to a message if and only if that message is well-formed, of that type and encodes to that payload |
| `WireRoundTrip.PayloadOfDecode` | core/src/protocol/wire.rs:387-416 | an accepted non-Error payload is the encoding of a message that meets every length rule |
| `WireRoundTrip.ErrorPayloadOfDecode` | core/src/protocol/wire.rs:403-416 | an accepted Error payload is its code and raw text; the message carries the lossy conversion |
| `WireRoundTrip.ReadShape` | core/src/protocol/wire.rs:437-451 | what an accepted frame looks like, byte for byte |
| `WireRoundTrip.WriteOfRead` | core/src/protocol/wire.rs:437-451 | accepted bytes are canonical: the bytes a read consumed are what writing its result emits |
| `WireRoundTrip.WriteOfReadError` | core/src/protocol/wire.rs:403-451 | an accepted Error frame is canonical if and only if its text is valid UTF-8 |
| `WireRoundTrip.PayloadFits` | core/src/protocol/wire.rs:419-427 | a well-formed message always fits the frame limit; a non-Error payload is at most 4964 bytes |
| `WireRoundTrip.EmittedPrefixesAreTrue` | core/src/protocol/wire.rs:142-146 | whenever a write succeeds, on any message at all, every inner prefix and the header length are the true lengths |
| `WireRoundTrip.OversizedPrefixWraps` | core/src/protocol/wire.rs:142-146 | without that size check a field over 65535 bytes would announce its excess and be read as a shorter field |
| `WireRoundTrip.ReadAllOfWriteAll` | core/src/protocol/wire.rs:419-451 | repeated reads of concatenated frames recover the whole message list and stop exactly where it ends |
| `WireRoundTrip.WriteAllOfReadAll` | core/src/protocol/wire.rs:419-451 | conversely a stream that reads as a list of non-Error messages is the concatenation of their frames |
| `WireRoundTrip.Utf8IsConsistent` | core/src/protocol/wire.rs:403-407 | the laws assumed of UTF-8 can hold together |
| `WireLayout.FrameLayout` | server/PROTOCOL.md:84-117 | byte 0 is 1, byte 1 the type code, bytes 2 and 3 the payload length high byte first, then the payload of at most 8192 bytes |
| `WireLayout.ClientHelloLayout` | server/PROTOCOL.md:121-145 | the offset of every field of a ClientHello, with its length bytes and the key size of each level |
| `WireLayout.ServerHelloTable` | server/PROTOCOL.md:146-156 | the same for ServerHello, whose ciphertext size depends on the level |
| `WireLayout.OtherLayouts` | server/PROTOCOL.md:157-233 | the same for ClientFinish, ServerFinish, RekeyRequest and Error |
| `WireLayout.HeaderDecides` | core/src/protocol/wire.rs:437-451 | the header checks in order: which frames are cut short, of another version, of no known type, or over the limit; only what passes all four is decided by its payload |
| `WireLayout.SizedExactly` | core/src/protocol/wire.rs:186-192 | a prefixed field of a fixed size: short, over the limit, cut off, of another size, or its bytes |
| `WireLayout.FixedFieldsExactly` | core/src/protocol/wire.rs:387-416 | ClientFinish and ServerFinish are accepted by length alone, and refused for the field they stop in |
| `WireLayout.HelloExactly` | core/src/protocol/wire.rs:227-248 | a ClientHello is refused in field order, each field with its error, or has these values |
| `WireLayout.ServerHelloExactly` | core/src/protocol/wire.rs:270-297 | the same for ServerHello |
| `WireLayout.TrailingRefused` | core/src/protocol/wire.rs:387-416 | a well-formed payload of any type with anything after it is refused for trailing bytes |
| `WireLayout.PrefixFree` | core/src/protocol/wire.rs:359-416 | no well-formed payload is a proper prefix of another of its type |
| `Transcript.Build` | core/src/crypto/hybrid_kem.rs:254-288 | the buffer built by appending the label and seven fields is the transcript |
| `Transcript.TranscriptLayout` | server/PROTOCOL.md:237-253 | where each of the eight parts of a transcript starts and ends, for each level |
| `Transcript.AlgoAtByte27` | core/src/crypto/hybrid_kem.rs:254-288 | byte 27 of a transcript alone tells the algorithm: the names are prefix-free |
| `Transcript.TranscriptDetermines` | core/src/crypto/hybrid_kem.rs:254-288 | two inputs are equal if and only if their transcripts are and their ML-KEM keys have equal length |
| `Transcript.TranscriptInjective` | server/PROTOCOL.md:237-253 | with keys of the length their algorithm prescribes, equal transcripts force all seven inputs equal |
| `Transcript.AmbiguousWithoutLengths` | core/src/crypto/hybrid_kem.rs:254-288 | without that length rule every transcript has a second reading: a field boundary can slide by a byte |
| `Handshake.DomainsSeparate` | core/src/protocol/tags.rs:22-44 | client and server tags are never computed over the same message, and the two session keys come from different HKDF infos |
| `Handshake.SameSecret` | core/src/crypto/hybrid_kem.rs:98-213 | what `client_decapsulate` returns is the hybrid secret `server_encapsulate` returned, on every key, with a ciphertext of the level's size |
| `Handshake.Agreement` | core/src/protocol/client.rs:109-163 | if `finish` accepts a ServerHello whose signature is not forged, some `respond` call had the same algorithm, nonces, keys and ciphertext, and derived the same psk and confirm key |
| `Handshake.HonestAnswerAccepted` | server/handshake-server/src/handshake.rs:28-67 | the answer to a client's own hello is accepted by that client, with the server's keys and the tag the server expects |
| `Handshake.LawsAreConsistent` | server/handshake-server/src/handshake.rs:28-89 | the laws assumed of the primitives can all hold together |
| `KeySchedule.RespondExactly` | server/handshake-server/src/handshake.rs:28-67 | the server answers a hello if and only if its ML-KEM key has the level's length and can be encapsulated to |
| `KeySchedule.RespondFormulas` | server/handshake-server/src/handshake.rs:28-67 | transcript, signature, ServerHello, psk and confirm key written over the primitives: HKDF of SHA-256 of both component secrets, salted with both nonces |
| `KeySchedule.FinishExactly` | core/src/protocol/client.rs:109-163 | the client accepts if and only if algorithm, signature over its own transcript, and ciphertext are right, and its errors come in that order |
| `KeySchedule.FinishFormulas` | core/src/protocol/client.rs:109-163 | the client's psk, confirm key and tag written over the primitives |
| `KeySchedule.PskDependsOnAll` | server/PROTOCOL.md:267-283 | where the hashes do not collide, two sessions share a psk if and only if the X25519 secret, the ML-KEM secret and both nonces are equal |
| `KeySchedule.PskIsNoConfirmKey` | core/src/crypto/kdf.rs:30-68 | where HKDF does not collide, no psk is any session's confirm key |
| `KeySchedule.TagsDiffer` | core/src/protocol/tags.rs:22-44 | where HMAC does not collide, no client tag is a server tag, under any keys and transcripts |
| `Transport.ConnectOver` | core/src/protocol/transport.rs:98-150 | the four-message driver writes and returns, on every incoming byte string and wherever the socket breaks, what its specification says, error paths included |
| `Transport.ConnectExactly` | core/src/protocol/transport.rs:98-150 | every outcome with its exact condition, error and messages sent: broken socket, wrong first message, refused ServerHello, wrong second message, another session, a tag that is not the HMAC of "server finished" and the transcript, success |
| `Transport.TunnelIsAgreed` | core/src/protocol/transport.rs:98-150 | whatever bytes arrive, a tunnel handed back carries the psk of a `respond` call for this very hello, confirmed by a tag under its confirm key |
| `PeerRegistry.Clamped` | server/handshake-server/src/registry.rs:72-79 | the capacity asked for, or 253 if that is less; the subnet as given |
| `PeerRegistry.FirstFree` | server/handshake-server/src/registry.rs:175-184 | the first host not taken, or none only if all are taken |
| `PeerRegistry.Registry.constructor` | server/handshake-server/src/registry.rs:72-105 | starts from the given peers with the capacity clamped |
| `PeerRegistry.Registry.AllocIp` | server/handshake-server/src/registry.rs:175-184 | the search loop returns the lowest free host's address |
| `PeerRegistry.Registry.UpsertHandshake` | server/handshake-server/src/registry.rs:111-148 | new registry and answer of a fresh hello, known peer, new peer and refusal; never `AddressPoolExhausted` |
| `PeerRegistry.Registry.RekeySession` | server/handshake-server/src/registry.rs:152-173 | new registry and answer of a rekey, with its three refusals in the order checked |
| `PeerRegistry.Registry.Remove` | server/handshake-server/src/registry.rs:194-196 | removes the peer and returns it |
| `PeerRegistry.Registry.TouchPeer` | server/handshake-server/src/registry.rs:206-210 | refreshes a known peer's activity, ignores an unknown one |
| `PeerRegistry.Registry.IdlePeers` | server/handshake-server/src/registry.rs:213-221 | a peer is idle if and only if now minus its last activity exceeds the timeout |
| `PeerRegistry.TakenAtMostPeers` | server/handshake-server/src/registry.rs:175-176 | no more hosts are taken than there are peers, even when addresses collide |
| `PeerRegistry.PoolNeverRunsOut` | server/handshake-server/src/registry.rs:175-184 | pigeonhole: fewer than 253 peers leave a free host, whatever addresses a file gave them |
| `PeerRegistry.NeverExhausted` | server/handshake-server/src/registry.rs:131-147 | `AddressPoolExhausted` is unreachable from any registry contents |
| `PeerRegistry.NewPeerGetsLowestFreeHost` | server/handshake-server/src/registry.rs:131-147 | a new peer gets the lowest host no peer holds, in the pool, so an address nobody else has |
| `PeerRegistry.AcceptedRecords` | server/handshake-server/src/registry.rs:111-173 | every field an accepted hello or rekey leaves on record, for a known and for a new peer; every other peer stays as it was |
| `PeerRegistry.AnswersExactly` | server/handshake-server/src/registry.rs:111-173 | each refusal of a hello and of a rekey with its exact condition |
| `PeerRegistry.RefusalChangesNothing` | server/handshake-server/src/registry.rs:111-173 | a refused hello or rekey leaves the registry as it was |
| `PeerRegistry.ApplyKeepsInv` | server/handshake-server/src/registry.rs:111-210 | every operation keeps records under their own keys, addresses distinct and in the pool, and the capacity |
| `PeerRegistry.ReachableInv` | server/handshake-server/src/registry.rs:72-210 | hence every state reachable from an empty registry satisfies them |
| `PeerRegistry.StepKeepsSession` | server/handshake-server/src/registry.rs:111-173 | what one operation does to a peer it does not replace |
| `PeerRegistry.SessionHistory` | server/handshake-server/src/registry.rs:111-173 | until its next hello or eviction a peer keeps session and address, never weakens, and `rekeys` counts its accepted rekeys modulo 2^32 |
| `PeerRegistry.SessionSinceHello` | server/handshake-server/src/registry.rs:111-173 | the same counted from the hello that opened the session |
| `PeerRegistry.AddressStable` | server/handshake-server/src/registry.rs:108-148 | from insertion to eviction the address never changes, across any hellos and rekeys |
| `RegistryStore.Epoch` | server/handshake-server/src/registry.rs:258-260 | the whole seconds of a time; 0 before 1970 |
| `RegistryStore.Load` | server/handshake-server/src/registry.rs:82-106 | a missing file is empty, an unparsable one an error, and bad records are skipped with later records for a key winning |
| `RegistryStore.Persist` | server/handshake-server/src/registry.rs:224-236 | whatever fails, the registry file is as it was or holds the whole registry; the outcome for an in-memory registry, a failed write and a failed rename |
| `RegistryStore.RecordReads` | server/handshake-server/src/registry.rs:275-296 | a record is readable if and only if its key has 32 bytes, its session id 16, its address and its algorithm parse; and the peer read from it |
| `RegistryStore.LoadExactly` | server/handshake-server/src/registry.rs:86-103 | for any list of records a key is loaded if and only if one of its records is readable, and then from the last such record |
| `RegistryStore.Render` | server/handshake-server/src/registry.rs:227-231 | the rendered file holds every peer exactly once, in some iteration order |
| `RegistryStore.RecordRoundTrip` | server/handshake-server/src/registry.rs:262-297 | a record read back is the peer with times cut to whole seconds |
| `RegistryStore.PersistThenLoad` | server/handshake-server/src/registry.rs:82-106 | persist then load gives back the same peer map for any iteration order, times cut to whole seconds |
| `RegistryStore.RenderedLoads` | server/handshake-server/src/registry.rs:224-236 | any file `persist` writes has schema version 1, holds each key once, and loads as the same peer map |
| `RegistryStore.LoadIsKeyed` | server/handshake-server/src/registry.rs:88-95 | whatever the file holds, loaded peers are filed under their own keys |
| `RegistryStore.CodecsAreConsistent` | server/handshake-server/src/registry.rs:262-297 | the laws assumed of the text encodings can hold together, given that distinct files have distinct texts |
| `RegistryStore.AnswersIgnoreTimes` | server/handshake-server/src/registry.rs:111-210 | timestamps influence no answer to hellos, rekeys, evictions and refreshes |
| `RegistryStore.RestartIsInvisible` | server/handshake-server/src/registry.rs:82-210 | after persist and load, every later sequence of hellos, rekeys, evictions and refreshes gets the answers it would have got without the restart |
| `ServerRuns.StepKeepsWorld` | server/handshake-server/src/server.rs:132-240 | each atomic step of any handler keeps interface, registry and registry file in agreement |
| `ServerRuns.InterfaceAgreesWithRegistry` | server/handshake-server/src/server.rs:132-240 | under every interleaving every installed allowed-ip is the registry address, no handler removes a peer, and no address ever changes |
| `ServerRuns.InstalledAddressesDistinct` | server/handshake-server/src/server.rs:132-240 | under every interleaving no two installed peers share an address |
| `ServerRuns.OwnStep` | server/handshake-server/src/server.rs:132-240 | a handler reaches each stage only by its own preceding step having succeeded |
| `ServerRuns.InstalledHistory` | server/handshake-server/src/server.rs:132-212 | a handler that has installed its key responded, then verified the tag, then was accepted by the registry, then installed that psk and address |
| `ServerRuns.FindInstall` | server/handshake-server/src/server.rs:200-209 | an interface entry that was not there at the start was put there by some handler's install |
| `ServerRuns.InstalledKeysAreConfirmed` | server/handshake-server/src/server.rs:132-212 | every key on the interface at any moment was there at the start, or was installed after hello, verified tag and registry acceptance, in that order |
| `ServerRuns.RefusalCodes` | server/PROTOCOL.md:197-231 | which registry refusal the client is told, as an if-and-only-if for each error code; INTERNAL is never sent for one |
| `ServerRuns.RegistryIsSequential` | server/handshake-server/src/server.rs:179-198 | the registry of any interleaved run goes through one sequential history of calls |
| `ServerRuns.SessionSurvivesInterleaving` | server/handshake-server/src/registry.rs:152-173 | a session survives any concurrent run in which its peer sends no new hello, and `rekeys` goes up by its accepted rekeys |
| `PskRuns.LatestIsTheRegistrys` | server/handshake-server/src/registry.rs:111-173 | the last accepted registration of a key is the session the registry has |
| `PskRuns.InstallsWhatItRegistered` | server/handshake-server/src/server.rs:179-209 | behind every install is one earlier registration, the same handler's, with the same keys |
| `PskRuns.PskIsLatestExactly` | server/handshake-server/src/server.rs:179-209 | the interface has the psk of the registry's latest session if and only if that session's handler was the last to install the key |
| `PskRuns.SeparateWindowsKeepLatest` | server/handshake-server/src/server.rs:179-209 | if a key's registration-to-install windows do not overlap and its installs succeed, the interface has the latest psk whenever no window is open |
| `PskRuns.PskRace` | server/handshake-server/src/server.rs:179-209 | any two handshakes of one peer have a run in which both go through and the interface keeps the older psk |
| `PskRuns.FailedInstallKeepsOldPsk` | server/handshake-server/src/server.rs:200-209 | a failed install leaves the older psk under the newer session even when nothing overlaps |
| `Connection.Interface.Install` | server/handshake-server/src/server.rs:200-206 | sets psk and allowed-ip of the key, or nothing when the command fails |
| `Connection.ReceiveFirst` | server/handshake-server/src/server.rs:136-162 | message 1 and its reply, refusals included, whether or not the reply can be written |
| `Connection.ReceiveFinish` | server/handshake-server/src/server.rs:164-177 | message 3: unreadable, unexpected, wrong session, wrong tag, or confirmed |
| `Connection.RegisterPeer` | server/handshake-server/src/server.rs:179-198 | the registry call and the reply to its refusals |
| `Connection.InstallPsk` | server/handshake-server/src/server.rs:200-209 | the install, and on failure a reply with the command's own text, or `Io` when that reply fails |
| `Connection.SendFinish` | server/handshake-server/src/server.rs:224-239 | message 4 and the result returned |
| `Connection.FinishConnection` | server/handshake-server/src/server.rs:164-239 | messages 3 and 4 with everything between them, in order |
| `Connection.CompleteConnection` | server/handshake-server/src/server.rs:179-239 | registry, interface, file and message 4, in order |
| `Connection.HandleConnection` | server/handshake-server/src/server.rs:132-240 | what one connection reads, writes, records, installs and saves, and returns, for every incoming byte string and wherever its socket breaks |
| `HandlerSteps.FirstExactly` | server/handshake-server/src/server.rs:136-162 | a handler goes on after message 1 if and only if it is a hello or rekey that `respond` answers; what it says on each message; a rekey keeps the session it names |
| `HandlerSteps.SecondExactly` | server/handshake-server/src/server.rs:164-177 | it goes on after message 3 if and only if that is a ClientFinish for its session with the HMAC of "client finished" and its transcript |
| `HandlerSteps.UnreadableExactly` | server/handshake-server/src/server.rs:136-165 | an unreadable message 1 gets one MALFORMED with the text of its error, an unreadable message 3 nothing |
| `HandlerSteps.RegisterExactly` | server/handshake-server/src/server.rs:179-198 | the registry's decision on a confirmed handler in the records themselves, with the code and text of each refusal |
| `HandlerSteps.LastExactly` | server/handshake-server/src/server.rs:224-239 | message 4 with every field: its tag is the HMAC of "server finished" and the transcript, for a hello and for a rekey |
| `EndToEnd.ServerHalf` | server/handshake-server/src/server.rs:132-240 | what the server does with the bytes of an honest client |
| `EndToEnd.ClientHalf` | core/src/protocol/transport.rs:98-150 | what the client does with the bytes of an honest server |
| `EndToEnd.UndisturbedHandshake` | core/src/protocol/transport.rs:98-150 | fed each other's bytes, both drivers write what the other reads and accept, and the client's tunnel has the psk and address the server installed, registered and saved, and the server's key and endpoint; no other peer is touched |
| `EndToEnd.RekeyHalf` | server/handshake-server/src/server.rs:132-240 | what the server does with the bytes of an honest client's rekey |
| `EndToEnd.UndisturbedRekey` | server/handshake-server/src/server.rs:132-240 | a registered peer's rekey, byte for byte: the client accepts both answers, the psk is the one installed, address, session, server key and port are right, and `rekeys` goes up by one |
| `EndToEnd.ConnectionIsRun` | server/handshake-server/src/server.rs:132-240 | one connection run start to end is a run of the interleaved machine, so every law of the machine holds of it |
| `EndToEnd.TunnelMeansInstalled` | core/src/protocol/transport.rs:134-149 | under any interleaving, a tunnel handed back means a handler answered this hello, verified the client, registered it and put this psk on the interface before it sent ServerFinish |
| `ErrorReplies.UnreadableReply` | server/handshake-server/src/server.rs:144-147 | a refused first frame gets one MALFORMED reply with the error's text; that is the code `protocol_code` gives it if and only if the version byte was right |
| `ErrorReplies.VersionTwoIsMalformed` | server/handshake-server/src/error.rs:20-28 | the shortest frame of version 2, which `protocol_code` maps to 0x01, is answered with 0x02 |
| `ErrorReplies.UnreadableFinishIsSilent` | server/handshake-server/src/server.rs:165 | an unreadable message 3 gets no reply and changes nothing |
| `ErrorReplies.BadFramesReadShort` | server/handshake-server/src/error.rs:30-40 | the display text of every frame the reader refuses is at most 50 bytes |
| `ErrorReplies.ErrorFits` | server/handshake-server/src/wire.rs:417-431 | an Error is written if and only if its text leaves room for code and prefix in the largest payload |
| `ErrorReplies.LongTextTravels` | server/PROTOCOL.md:214-219 | an error text of any length up to the frame limit is written and read back |
| `ErrorReplies.OverTheTextLimit` | server/PROTOCOL.md:214-219 | for instance one of 257 bytes |
| `ErrorReplies.LongRepliesExactly` | server/handshake-server/src/server.rs:132-240 | the handler sends a text over 256 bytes if and only if it is the operating system's for a failed first read or the `wg` command's for a failed install, and fits a frame |
| `ErrorReplies.FailedInstallEnds` | server/handshake-server/src/server.rs:206-209 | a failed install ends in `Install` if its text can be sent, otherwise in `Io` with nothing sent |
| `ErrorReplies.ClientSendsNoErrors` | core/src/protocol/transport.rs:112-142 | the client never sends an Error, whatever it reads |
| `Restart.Boot` | server/handshake-server/src/main.rs:79-115 | startup: what `load` builds and what reconciliation leaves on the interface |
| `Restart.CrashRecovers` | server/handshake-server/src/main.rs:79-115 | after a crash at any step of any run, what `load` builds from the file in any record order, and reconcile leaves on the interface, is a server that may start again, if and only if no forgotten peer is stuck on the interface |
| `Restart.SavedPeersSurvive` | server/handshake-server/src/server.rs:210-212 | a peer whose handler persisted is in every later restart, at the address its ServerFinish carried |
| `Restart.RestartBringsIdleForward` | server/handshake-server/src/registry.rs:213-221 | a restart can bring an eviction forward by less than a second and never delays it, for activity since 1970 |
| `Housekeeping.Reconcile` | server/handshake-server/src/server.rs:41-67 | removes exactly the unknown removable peers and counts them and the absent ones; nothing when the interface cannot be listed |
| `Housekeeping.RemoveUnknown` | server/handshake-server/src/server.rs:52-60 | the removal loop over the listing |
| `Housekeeping.ReconcileAgrees` | server/handshake-server/src/server.rs:38-67 | a peer is taken off if and only if the registry does not know it and `wg` can remove it; the interface then agrees with the registry if and only if no unknown peer was stuck |
| `Housekeeping.SweepOnce` | server/handshake-server/src/server.rs:71-95 | one round of the sweep with nobody beside it: idle peers with a live tunnel are refreshed, the other idle ones leave registry and interface, and the file is written if any left |
| `Housekeeping.SweepIsExact` | server/handshake-server/src/server.rs:69-90 | a peer is gone if and only if its last activity is more than the timeout ago and no listed handshake is within the timeout; one kept for its handshake alone has the clock as activity, any other is unchanged; a second sweep at that moment does nothing |
| `Housekeeping.SweepKeepsInv` | server/handshake-server/src/server.rs:77-90 | a sweep keeps every invariant of the registry |
| `Housekeeping.SweepKeepsAgreement` | server/handshake-server/src/server.rs:86-87 | interface and registry agree after a sweep if and only if no evicted peer is stuck |
| `SweepRuns.HandlersAlone` | server/handshake-server/src/server.rs:98-112 | a run of the handlers is a run of the system in which the sweep rests |
| `SweepRuns.SweepOnceIsRun` | server/handshake-server/src/server.rs:71-95 | a round with nobody beside it, as `SweepOnce` runs it, is a run of the system |
| `SweepRuns.HeldExactly` | server/handshake-server/src/registry.rs:111-196 | a key keeps its place in the registry if and only if it is not evicted, or is admitted again at the same address after its last eviction |
| `SweepRuns.AgreesExactly` | server/handshake-server/src/server.rs:71-95 | with the sweep beside any number of handlers, interface and registry agree if and only if no entry's key was evicted after the registration the entry came from, except those admitted again at the same address |
| `SweepRuns.SeparateSweepsAgree` | server/handshake-server/src/server.rs:71-95 | if no key is evicted between a registration and its install, and removals succeed, they agree whenever no removal is pending |
| `SweepRuns.EvictionInWindow` | server/handshake-server/src/server.rs:74-90 | an eviction falls into such a window only if the snapshot came before the registration or the handler has waited for longer than the idle timeout |
| `SweepRuns.SweepRace` | server/handshake-server/src/server.rs:74-90 | whenever the sweep would evict a peer, some run evicts it between a handshake's registration and its install, which leaves it on the interface and unknown to the registry |
| `Gate.ArgMax` | core/src/rl/gate.rs:226-234 | the first index of the largest value in the range |
| `Gate.FindArgMax` | core/src/rl/gate.rs:226-234 | the search loop computes it |
| `Gate.DecisionGate.constructor` | core/src/rl/gate.rs:132-149 | starts with no candidate, no streak and no cooldown |
| `Gate.DecisionGate.Update` | core/src/rl/gate.rs:158-212 | new state and decision of one tick; the `u32` streak never overflows |
| `GateHistory.StreakIsHistory` | core/src/rl/gate.rs:164-179 | the streak has reached k on a KEM if and only if that KEM won each of the last k ticks against the same in-force level |
| `GateHistory.ConfirmedExactly` | core/src/rl/gate.rs:198-210 | a tick changes the algorithm if and only if its KEM has won the last `confirm_ticks` ticks by the margin against one unchanged level |
| `GateHistory.WeakensOnlyWhenConfirmed` | client/rl_agent/decision_gate.py:79-101 | the level in force moves only on a confirmed change or a rekey, and weakens only on a confirmed change |
| `GateHistory.CooldownIsHistory` | core/src/rl/gate.rs:159-186 | the cooldown counter as a statement about when rekeys fired |
| `GateHistory.SuppressedExactly` | core/src/rl/gate.rs:181-186 | a rekey tick is suppressed if and only if one fired within the previous cooldown - 1 ticks |
| `GateHistory.DecisionExactly` | core/src/rl/gate.rs:158-212 | every decision of every run, with its reason, from the masses of the tick, the level in force and the history before it: suppressed, escalated, rekeyed, agreed, under the margin, confirmed or on streak |
| `GateHistory.HandshakeBudget` | core/src/rl/gate.rs:158-212 | over n ticks confirm_ticks * changes + rekeys + streak <= n, and cooldown * rekeys <= n + cooldown - 1 |
| `PyGate.MaxKey` | client/rl_agent/decision_gate.py:158 | the Python maximum by key is the first of the indices with the largest value |
| `PyGate.PyDecisionGate.Update` | client/rl_agent/decision_gate.py:149-207 | new state and decision of one tick of the Python gate |
| `GateRefinement.SameTop` | core/src/rl/gate.rs:224-234 | both searches pick the same index, ties included |
| `GateRefinement.SameOrder` | client/rl_agent/decision_gate.py:189 | security ranks order the KEMs as the Rust enumeration does |
| `GateRefinement.StepRefines` | core/src/rl/gate.rs:158-212 | related states go to related states with equal decisions |
| `GateRefinement.RustGateRefinesPython` | client/rl_agent/decision_gate.py:131-207 | for all parameters, initial KEM and tick sequence both gates emit the same decisions, reasons included |
| `GateSession.TickKeepsInStep` | server/handshake-server/src/registry.rs:152-173 | one tick keeps the server's session, algorithm and rekey count in step with the client's decisions, and is answered if and only if the gate asked |
| `GateSession.ServerNeverRefuses` | server/PROTOCOL.md:206-212 | on every run in which handshakes complete and the peer is not evicted, the server's record follows the gate and no request is refused |
| `GateSession.FirstHandshakeOn` | server/PROTOCOL.md:206-212 | the same from the first handshake on a server with room |
| `Anomaly.RatioScore` | client/rl_agent/anomaly_detector.py:91-100 | the value in units of twice the line, cut to [0, 1]; at least 1/2 if and only if the value is at or over the line |
| `Anomaly.ZScoreBaseline.Update` | client/rl_agent/anomaly_detector.py:53-78 | scores the sample against the history before it, then extends the window |
| `Anomaly.RetransmissionSpikeSignature.Update` | client/rl_agent/anomaly_detector.py:157-168 | new streak and reading |
| `Anomaly.MitMLatencySignature.Update` | client/rl_agent/anomaly_detector.py:196-213 | new window, streak and reading |
| `Anomaly.BandwidthExfiltrationSignature.Update` | client/rl_agent/anomaly_detector.py:240-254 | new streak and reading |
| `Anomaly.DnsServerChangeSignature.Update` | client/rl_agent/anomaly_detector.py:274-290 | new last server and reading |
| `Anomaly.AnomalyCombiner.Update` | client/rl_agent/anomaly_detector.py:330-402 | new detector states, the readings of the layers that ran, and their combination |
| `AnomalyHistory.GatingIsFiltering` | client/rl_agent/anomaly_detector.py:346-351 | each Layer 2 detector in the combiner is in the state it would reach alone on just the ticks under the CPU gate; Layer 1 never notices the gate |
| `AnomalyHistory.RetransStreak` | client/rl_agent/anomaly_detector.py:148-162 | the streak counts the latest ticks in a row over the line |
| `AnomalyHistory.ExfilStreak` | client/rl_agent/anomaly_detector.py:230-245 | the same for upload asymmetry |
| `AnomalyHistory.WindowIsSuffix` | client/rl_agent/anomaly_detector.py:189-200 | the deque holds the latest latencies, at most a window of them |
| `AnomalyHistory.SpreadIsGap` | client/rl_agent/anomaly_detector.py:202 | max minus min reaches a gap if and only if two entries are that far apart |
| `AnomalyHistory.MitmStreak` | client/rl_agent/anomaly_detector.py:196-207 | the jitter streak counts the latest ticks in a row whose window held two latencies that far apart |
| `AnomalyHistory.Layer1Ready` | client/rl_agent/anomaly_detector.py:355-356 | the combined reading is ready if and only if a window of ticks has been seen, gated or not |
| `AnomalyHistory.BaselineIsSuffix` | client/rl_agent/anomaly_detector.py:35-41 | on every run, gated or not, each Layer 1 deque holds the last `window` values of its metric |
| `AnomalyHistory.SumAdds` | client/rl_agent/anomaly_detector.py:47 | the sum behind the mean is additive over concatenation and counts each value once |
| `AnomalyHistory.MeanTimesCount` | client/rl_agent/anomaly_detector.py:47 | the mean times the count is the sum |
| `AnomalyHistory.FarOffInSquares` | client/rl_agent/anomaly_detector.py:43-51 | three deviations off the mean, without a root: the squared distance exceeds nine variances |
| `AnomalyHistory.Layer1FiresExactly` | client/rl_agent/anomaly_detector.py:43-78 | on every run, Layer 1 is anomalous if and only if a metric is more than three deviations above or below the mean of its last `window` values, of which there are two at least and with a deviation other than 0; its score is the largest distance in units of six deviations, capped at 1 |
| `AnomalyHistory.FiresExactly` | client/rl_agent/anomaly_detector.py:346-386 | on every run, each detector fires on an active tick if and only if its last active ticks all crossed its line, or the DNS server changed since the last one |
| `AnomalyHistory.Layer2Scores` | client/rl_agent/anomaly_detector.py:120-290 | the score of each Layer 2 rule on an active tick: its measure on the scale of its line, the smaller of two where a rule has two |
| `AnomalyHistory.RatiosAreQuotients` | client/rl_agent/anomaly_detector.py:120-254 | the two ratios: failed over all attempts, 0 without attempts; upload over download, counted as at least 1 |
| `AnomalyHistory.JitterScored` | client/rl_agent/anomaly_detector.py:196-213 | on every run, the jitter scored is the largest gap among the last three active latencies |
| `AnomalyHistory.ReadyExactly` | client/rl_agent/anomaly_detector.py:346-386 | on every run, from which tick each layer's score counts: Layer 1 after a window of ticks, jitter after three active ones, DNS after two, the others at once |
| `AnomalyHistory.CombinedFiresExactly` | client/rl_agent/anomaly_detector.py:387-397 | on every run, the combined verdict is anomalous if and only if a window of ticks has been seen and a metric is far off its recent mean, or the CPU load is below 0.70 and there is a scan, two crossing ticks in a row of one rule, or a DNS change: all in the measurements and the thresholds |
| `AnomalyHistory.LayersCalibrated` | client/rl_agent/anomaly_detector.py:91-97 | every layer scores in [0, 1], at least 1/2 when anomalous, in any state |
| `AnomalyHistory.TopScoreBounds` | client/rl_agent/anomaly_detector.py:387-391 | the combined score is the largest among the ready layers, 0 if none is |
| `AnomalyHistory.CombinedCalibrated` | client/rl_agent/anomaly_detector.py:387-402 | on every run the combined score is in [0, 1] and an anomaly means at least 1/2 |
| `Oracle.Need` | client/rl_agent/vpn_env.py:79-85 | security need is in [0, 1] for any state, and on the unit box nothing is cut off the weighted sum |
| `Oracle.Pressure` | client/rl_agent/vpn_env.py:86-88 | resource pressure is in [0, 1] for any state, and on the unit box the mean of CPU load and used memory |
| `Oracle.ActionRewards` | client/rl_agent/vpn_env.py:115-120 | one reward per action |
| `Oracle.OptimalAction` | client/rl_agent/vpn_env.py:202-211 | the first action with the largest reward; on the unit box the one the seven coordinates give |
| `Oracle.ActionRewardsBatch` | client/rl_agent/vpn_env.py:149-173 | the batched form gives every state the rewards of the one-state form |
| `Oracle.BandsAreArgmax` | client/rl_agent/vpn_env.py:68-112 | a KEM is the argmax over the KEMs if and only if the three-band rule picks it: need <= 0.70 + pressure/18, need <= 0.85 + pressure/9 |
| `Oracle.OracleClosedForm` | client/rl_agent/vpn_env.py:202-211 | an action is the oracle's if and only if the closed form picks it |
| `Oracle.BandsMonotone` | client/rl_agent/vpn_env.py:68-112 | more need never picks a weaker KEM, more pressure never a stronger one |
| `Oracle.RekeyNeedsPressure` | client/rl_agent/vpn_env.py:90-99 | rekey-now is the oracle's choice somewhere in the unit box at a pressure if and only if that pressure is above 0.45 |
| `Oracle.RewardsInCoordinates` | client/rl_agent/vpn_env.py:68-112 | the four rewards on the whole unit box in the observed coordinates |
| `Oracle.OracleInCoordinates` | client/rl_agent/vpn_env.py:68-112 | on the whole unit box, the best KEM and the oracle's choice in the observed coordinates, as if-and-only-ifs |
| `VpnEnv.Env.Reset` | client/rl_agent/vpn_env.py:341-348 | the drawn state, time zero, and the CPU baseline of that state |
| `VpnEnv.Env.EvolveState` | client/rl_agent/vpn_env.py:299-336 | editing the copied array in place computes the transition |
| `VpnEnv.Env.TakeStep` | client/rl_agent/vpn_env.py:365-375 | observation, reward of the state left, the two end flags and the algorithm name |
| `VpnEnv.EpisodeStaysInBox` | client/rl_agent/vpn_env.py:299-336 | every state of every episode is in the unit box, whatever the generator draws; after the first action even from outside it |
| `VpnEnv.RekeyRelieves` | client/rl_agent/vpn_env.py:330-334 | against any other action with the same draws, a rekey clears the timer, takes half a unit off the threat and lowers need and urgency |
| `VpnEnv.EvolveInCoordinates` | client/rl_agent/vpn_env.py:299-336 | what one tick does to each of the seven readings, with the CPU load closing its share of the gap to the baseline |

## Left out

- Error text is modelled as bytes rather than a `String`; what is not UTF-8 appears as its lossy conversion.
- PeerRegistry.SessionHistory: counts rekeys modulo 2^32; a build with overflow checks would panic instead of wrapping.
- Connection.HandleConnection: what a failing socket write leaves on the wire is not part of the output; setting the
  socket's timeouts is only the `Abort` step of the machine.
- PskRuns.PskIsLatestExactly: is about the handlers, with the sweep off, which is the default.
- Restart.CrashRecovers: is about runs of the handlers, with the sweep off. The file as bytes is `RegistryStore.Persist`'s;
  the machine keeps the peer map last written.
- EndToEnd.TunnelMeansInstalled: says nothing about the session id, the WireGuard keys, the address or the port in
  ServerFinish, since neither the transcript nor the tags cover them.
- Transport.ConnectOver: leaves out connecting and timeouts, which end in `Io` before or instead of a read.
- RegistryStore.Load: leaves out the panic of a timestamp too large for the platform's clock type.
- GateSession.ServerNeverRefuses: supposes that each requested handshake completes and that RekeyRequests carry the session
  id of the last ServerFinish. The client driver for RekeyRequest is not part of the repository's core library.
- PyGate.PyDecisionGate.Update: fixes the number of actions at four, where the Python code takes any length.
- Anomaly.ZScoreBaseline.Update: takes the standard deviation of a history as a parameter instead of computing the root,
  and leaves out the per-metric scores it reports.
- Anomaly.AnomalyCombiner.Update: leaves out the `detail` dictionaries, and fixes the detectors' constructor arguments at
  the defaults the combiner uses.
- VpnEnv.Env.Reset: takes the drawn state; seeding, the initial-state distributions and the Gymnasium spaces are not
  modelled.
- Key zeroization, constant-time comparison and the `debug_assert` on prefixed lengths are not modelled.
- The softmax that feeds the gate is floating-point exponentials; the gate takes any four reals instead.
- The state pipeline clamps sensor readings, the key store holds secrets in memory, and the Python crypto reference repeats
  the client's key schedule; none of them takes part in a handshake, a registry call or a gate decision.
- Layer 3 (Isolation Forest) and its simulator, PPO training, ONNX export and the evaluation scripts are statistical.
- The accept loop, sockets, `wg` subprocesses, argument parsing, logging, the desktop app and the dashboard are I/O.
