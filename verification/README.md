# Blockchain VPN: a verified model

This project models the stateful cores of the Blockchain VPN and proves what they are for.

* **Noise IK sessions** (`crypto`, `noise_ik`, `replay_window`, `session`, `handshake`). Cryptography is a free term
  algebra: collision freedom and AEAD integrity are constructor injectivity, and X25519 is the one primitive with an
  equation of its own. `NoiseIK` is the handshake and transport state machine on values, after sections 5.1 to 5.3 and
  7.5 of the Noise Protocol Framework, revision 34, as the code carries them out. `NoiseSession.Session` is the session
  object, whose methods update its fields in place; each is proved against the machine on values. The 64-bit replay
  window works on real 64-bit words and is proved to be the plain set of accepted nonces.
* **Runs of sessions** (`receiver_runs`, `session_runs`, `network`, `authentication`). One receiver over any sequence of
  frames; one session over any sequence of calls, including misuse; and any number of honest sessions on a network run
  by an active adversary who sees, drops, replays, reorders, computes and owns the private keys it has corrupted.
* **The datagram codec** (`wire`), on bytes.
* **The server** (`session_table`, `sessman`, `tun_server`, `tun_server_worker`, `server_sealing`, `server_scenarios`).
  The session table on values and as three mutable maps over shared entry objects, the datagram handlers and the TUN
  loop in both forms, every run of the server, and two runs written out.
* **The private hash chain** (`json_grammar`, `stable_json`, `hash_chain`, `chain_appends`, `chain_provenance`). The
  canonical JSON printer on UTF-16 code units against a reader of the JSON grammar, the verifier's loop, and appends as
  two separate statements that any number of callers interleave.
* **The lease allocator** (`lease_pool`, `lease_spellings`). The control-plane's map from client ids to addresses, which
  it treats as strings, and what the strings mean as addresses.

## Reading the model

Where a session, the table or the allocator changes state in place, a class does so here. Its methods are proved
against a function on values, and the theorems about runs are about those functions. Ghost numbers give table entries
an identity in the order of their creation; entries are dropped from the indexes but never forgotten.

Time, randomness and the network are parameters: fresh ephemeral keys, generated client ids, timestamps, the allowlist
at the moment it is asked, whether a reply could be sent, which row the latest-row query returns, the order of keys in
which the database gives a payload back, and whether a statement is lost.

A few results are exact conditions for something that does not always hold:

* `SessionTable.PutKeepsInv`: `Put` alone keeps the table consistent exactly when the peer has no session at another
  endpoint. The handshake handler removes that session first, and so always keeps it.
* `SessionTable.BindKeepsExact`: a binding makes the address index exact for its address exactly when it takes the
  address from nobody. `TakeoverHidesLoser` shows what happens otherwise: the loser stays bound in its own record and is
  not found.
* `SessionTable.RemoveKeepsRoutes`, `BindKeepsRoutes`, `AdmitKeepsRoutes`: an entry that is removed or moves drops its
  old address from the index without asking whose it is there, so it leaves the other routes alone exactly when nobody
  has taken that address over. `WinnerIsStranded` and `ServerScenarios.SessionIsStranded` show the other case.
* `Authentication.InitiatorAuthenticated`: message A alone authenticates the initiator only to a responder whose own key
  is uncorrupted; `Impersonation` is the run that shows it. From the first accepted frame on it makes no difference.
* `Handshake.Completeness`: a message is read exactly when its payload is at most 65519 bytes; the writer accepts up to
  65535, so for the sixteen sizes in between the handshake cannot complete.
* `TunServer.ReplyReachesSender`: replies to a sender reach it exactly when it held its address in the index already or
  has just bound it. A session that lost its place in the index, by a takeover or because another entry dropped the
  address, does not win it back by sending from that address again; `RegainedByMoving` says that it has to be bound to
  another address first, in every run.
* `LeasePool.LeaseSafety` is about strings. As addresses, number by number, leases are distinct in every run whose
  requests and gateway are written without leading zeros (`LeaseSpellings.AddressesDistinct`), and every usable request
  with a leading zero leads to two clients on one address (`TwoSpellings`, `DefaultSpellings`).
* `LeasePool.GrantIsRecorded`: a grant is on record afterwards exactly when the client id is not `__proto__`.
* `Wire.SurvivesExactly`: a message that can be marshalled survives the wire exactly when it has the shape of an IK
  message.
* `ChainAppends.AppendSucceeds`: an append is inserted exactly when its block is still the next one, an index is left,
  its texts fit their columns and no row has its hash. `SecondReaderLoses` is the race that fails.

## Where the code and its comments differ

The model follows the code.

* `recvLast` is the largest nonce presented since the handshake, not the largest accepted
  (protocol/udp/internal/noise/api.go:69), and `recvAny` is set by the first frame presented, also a forged one.
* The message counter advances when a handshake message fails to authenticate
  (protocol/udp/internal/noise/noise_ik.go:530), so a session counts as complete after a rejected message B. Every
  authentication result here is about reads that returned no error.
* The handshake state, and with it the peer's static key, is wiped at the second message.
* The check at protocol/udp/internal/noise/noise_ik.go:428 is made on the encrypted static key, which has 48 bytes, and
  never fails; a low-order static key is not refused there.
* The package comment names the curve 25758; the protocol name that is hashed says 25519.
* The server's header promises that a session follows its client to a new endpoint
  (protocol/udp/cmd/tun-server/main.go:18-20). No code does so: a frame from an unknown endpoint is dropped.
* "IPv4 in our tunnel CIDR" (protocol/udp/cmd/tun-server/main.go:368-369): the address is not compared with any range.
* A requested lease address is compared as a string and checked for its last number only, so a lease may lie outside
  the subnet, and two spellings of one address are two leases: "10.99.0.02" and "10.99.0.2".

## Model

| member | source | states |
|---|---|---|
| `Handshake.Agreement` | protocol/udp/internal/noise/noise_ik.go:335-451 | If the initiator reads without error a message whose ciphertext this responder wrote after reading some message A without error, then, whatever was done to the messages, prologues are equal, the pin is the responder's key, the responder learned the initiator's static and ephemeral keys and payload, both messages arrived unchanged, and both ends hold the same `h`, `cs1` and `cs2`. |
| `Handshake.AgreementA` | protocol/udp/internal/noise/noise_ik.go:357-434 | A message A that is read without error and whose ciphertext an initiator wrote is that initiator's whole message, and both transcripts were equal before it. |
| `Handshake.AgreementB` | protocol/udp/internal/noise/noise_ik.go:381-451 | The same for message B: equal symmetric state afterwards, equal payload, equal chaining key and transcript before. |
| `Handshake.Completeness` | protocol/udp/internal/noise/noise_ik.go:335-532 | With valid key pairs, equal prologues and the right pin, each message is read exactly when its payload is at most 65519 bytes; both payloads arrive, the responder has the initiator's key, and `cs1`, `cs2`, `h` are equal with zero nonces. |
| `Handshake.Transcript` | protocol/udp/internal/noise/noise_ik.go:335-451 | Every honest handshake written out: both messages seal by seal, the final `h` from the protocol name, prologue, responder key, ephemerals and ciphertexts in this order, and both transport keys from the exchanges es, ss, ee, se. |
| `Handshake.ProtocolHash` | protocol/udp/internal/noise/noise_ik.go:187-195 | The 33 characters of the protocol name are hashed, not padded. |
| `Handshake.EveryMessageCounts` | protocol/udp/internal/noise/noise_ik.go:479-532 | Every handshake call that is not refused advances the message counter, also a reading that fails; and which refusal is reported when. |
| `Handshake.EphemeralIsChecked` | protocol/udp/internal/noise/noise_ik.go:413-419 | A responder takes over the ephemeral key of message A unless it is one of the refused points, and then keeps the zero key. |
| `Crypto.ForbiddenExactly` | protocol/udp/internal/noise/noise_ik.go:74-127 | The twelve refused encodings are exactly those of the coordinates 0, 1, -1 and the two of order 8 modulo 2^255-19, reduced or not. |
| `Handshake.OpenStep` | protocol/udp/internal/noise/noise_ik.go:242-324 | A handshake ciphertext is accepted exactly when it is what the peer seals in the same state, and reading then leaves the writer's state. |
| `Handshake.WroteA` | protocol/udp/internal/noise/noise_ik.go:357-379 | Message A in closed form: which key, nonce, transcript and content each of its two seals has, and the state it leaves. |
| `Handshake.WroteB` | protocol/udp/internal/noise/noise_ik.go:381-399 | Message B in closed form. |
| `Handshake.ReadA` | protocol/udp/internal/noise/noise_ik.go:413-434 | What a successful reading of message A proves about how the message was sealed, and the state it leaves. |
| `Handshake.ReadB` | protocol/udp/internal/noise/noise_ik.go:436-451 | What a successful reading of message B proves about how the message was sealed. |
| `Handshake.MessageLengths` | protocol/udp/internal/noise/noise_ik.go:479-504 | Writing succeeds exactly up to 65535 bytes of payload, and the lengths of all three parts of the message. |
| `Handshake.MessagesFitWire` | protocol/udp/internal/noise/wire.go:36-66 | An initiator's first message has the 48-byte static blob, and both messages the 32-byte ephemeral key, that the wire format demands. |
| `ReplayWindow.WindowOpens` | protocol/udp/internal/noise/api.go:221-229 | The first frame sets the word to exactly that frame. |
| `ReplayWindow.WindowSlides` | protocol/udp/internal/noise/api.go:230-240 | Shifting the word for a nonce less than 64 ahead represents the plain receiver after that nonce. |
| `ReplayWindow.WindowJumps` | protocol/udp/internal/noise/api.go:230-240 | Resetting the word for a nonce 64 or more ahead does. |
| `ReplayWindow.WindowTests` | protocol/udp/internal/noise/api.go:241-247 | The tested bit is set exactly when that nonce was accepted. |
| `ReplayWindow.WindowMarks` | protocol/udp/internal/noise/api.go:241-248 | Setting the bit accepts that nonce and no other. |
| `ReplayWindow.WindowUnmarks` | protocol/udp/internal/noise/api.go:253-269 | Clearing the bit withdraws that nonce and no other. |
| `ReplayWindow.WithdrawUndoes` | protocol/udp/internal/noise/api.go:173-190 | Accepting before decryption and withdrawing on a forgery leaves what a check after decryption would leave; only the maximum remembers the forgery. |
| `ReplayWindow.MarkedAfterShift` | protocol/udp/internal/noise/api.go:230-240 | Which bits a 64-bit left shift followed by setting bit 0 leaves set. |
| `ReceiverRuns.RunMeaning` | protocol/udp/internal/noise/api.go:173-190 | After any sequence of frames, forgeries included, the maximum is the largest nonce presented, and the accepted set is exactly the nonces of accepted frames. |
| `ReceiverRuns.FreshExactly` | protocol/udp/internal/noise/api.go:221-249 | A nonce passes the check exactly when nothing 64 or more ahead of it was presented before and it was not accepted before. |
| `ReceiverRuns.AcceptedOnce` | protocol/udp/internal/noise/api.go:173-190 | No run accepts one nonce twice. |
| `ReceiverRuns.ReorderTolerance` | protocol/udp/internal/noise/api.go:173-190 | If no frame is overtaken by one 64 or more ahead, then, whatever is lost, duplicated or forged, the first genuine copy of each frame is accepted and no other copy is. |
| `NoiseSession.Session.Initiator` | protocol/udp/internal/noise/api.go:88-91 | A new initiator session, its window empty. |
| `NoiseSession.Session.Responder` | protocol/udp/internal/noise/api.go:95-99 | A new responder session, its window empty. |
| `NoiseSession.Session.MixKey` | protocol/udp/internal/noise/noise_ik.go:270-275 | Refines the value-level step. |
| `NoiseSession.Session.MixHash` | protocol/udp/internal/noise/noise_ik.go:277-280 | Refines the value-level step. |
| `NoiseSession.Session.EncryptAndHash` | protocol/udp/internal/noise/noise_ik.go:295-308 | Refines the value-level step, also when the nonce is exhausted. |
| `NoiseSession.Session.DecryptAndHash` | protocol/udp/internal/noise/noise_ik.go:310-324 | Refines the value-level step: the nonce advances only for an authentic ciphertext, the transcript always. |
| `NoiseSession.Session.WriteMessageA` | protocol/udp/internal/noise/noise_ik.go:357-379 | The in-place steps amount to the value-level message A. |
| `NoiseSession.Session.WriteMessageB` | protocol/udp/internal/noise/noise_ik.go:381-399 | The in-place steps amount to the value-level message B. |
| `NoiseSession.Session.ReadMessageA` | protocol/udp/internal/noise/noise_ik.go:413-434 | The in-place steps, rejected keys included, amount to the value-level reading. |
| `NoiseSession.Session.ReadMessageB` | protocol/udp/internal/noise/noise_ik.go:436-451 | The in-place steps amount to the value-level reading. |
| `NoiseSession.Session.Finish` | protocol/udp/internal/noise/noise_ik.go:491-497 | Transport keys are derived with zero nonces and every handshake secret is zeroed. |
| `NoiseSession.Session.WriteHandshake` | protocol/udp/internal/noise/api.go:119-132 | New state and result are the value-level ones, errors included; the window stays sound. |
| `NoiseSession.Session.ReadHandshake` | protocol/udp/internal/noise/api.go:137-150 | New state and result are the value-level ones; a failed reading still advances the counter. |
| `NoiseSession.Session.Encrypt` | protocol/udp/internal/noise/api.go:156-168 | New state and result are the value-level ones, errors included. |
| `NoiseSession.Session.Decrypt` | protocol/udp/internal/noise/api.go:173-190 | The word, checked before decryption and repaired after a forgery, does what the plain set of accepted nonces does. |
| `NoiseSession.Session.ReplayCheck` | protocol/udp/internal/noise/api.go:221-249 | Accepts exactly the fresh nonces of the plain receiver, and represents it afterwards. |
| `NoiseSession.Session.ReplayUndo` | protocol/udp/internal/noise/api.go:253-269 | Withdraws exactly one acceptance. |
| `SessionRuns.RunShape` | protocol/udp/internal/noise/noise_ik.go:479-532 | In every state that any sequence of calls reaches, the counter is at most 2, and at 2 the handshake state and its private keys are all zero. |
| `SessionRuns.NothingIsLeft` | protocol/udp/internal/noise/noise_ik.go:479-532 | At 2 both private keys are zero, and every key, hash and counter of the handshake state. |
| `SessionRuns.KeysNeverChange` | protocol/udp/internal/noise/api.go:110-190 | Once complete, a session keeps `h` and both transport keys, which differ, whatever is called on it. |
| `SessionRuns.CallsByPhase` | protocol/udp/internal/noise/api.go:119-190 | Transport calls are refused exactly before the second message, handshake calls exactly after it, and a refused call changes nothing. |
| `SessionRuns.NoKeyNonceReuse` | protocol/udp/internal/noise/api.go:156-168 | Over the whole life of a session, handshake and transport, however it is driven, no seal uses nonce 2^64-1, and no two seals share key and nonce. |
| `SessionRuns.ReceiverOfRun` | protocol/udp/internal/noise/api.go:173-190 | Whatever else is called, the session's receiver is the plain receiver run over exactly the frames given to Decrypt after completion. |
| `SessionRuns.DeliveredExactly` | protocol/udp/internal/noise/api.go:173-190 | In any reachable complete state a genuine frame is delivered with its plaintext exactly when nothing 64 or more ahead came before it and its nonce was not accepted before. |
| `SessionRuns.DecryptsExactly` | protocol/udp/internal/noise/api.go:173-190 | In any reachable complete state any frame is delivered exactly when it is genuine and passes the window, and is refused as unauthentic otherwise. |
| `SessionRuns.EncryptsExactly` | protocol/udp/internal/noise/api.go:156-168 | A complete session seals with its counter as the nonce and advances it, until the counter is 2^64-1; then it refuses and nothing changes. |
| `Network.DerivableIsSafe` | protocol/udp/internal/noise/noise_ik.go:142-211 | Whatever the adversary computes from the wire contains no key shared by two uncorrupted private keys and no seal of its own under a key that contains one. |
| `Network.RunOk` | protocol/udp/cmd/tun-client/main.go:189-234 | In every run of the network, each honest party's state is what its two handshake calls gave it, its frames are numbered without gaps, and every seal on the wire was made by an honest party or is within the adversary's means. |
| `Authentication.TransportKeysSecret` | protocol/udp/internal/noise/noise_ik.go:326-331 | The adversary can compute neither transport key of a session whose peer key is uncorrupted, also when the session's own static key is corrupted. |
| `Authentication.ForwardSecrecy` | protocol/udp/internal/noise/noise_ik.go:357-451 | Once a session has completed with an uncorrupted peer (a responder whose own key is corrupted: once it has accepted a frame), an adversary that later gets any static keys, both parties' own included, still cannot compute its transport keys. |
| `Authentication.ResponderAuthenticated` | protocol/udp/cmd/tun-client/main.go:189-234 | In every run, an initiator that completed with an uncorrupted pinned key agrees with a responder session holding that key on prologue, identities, payloads, transcript and keys. |
| `Authentication.InitiatorAuthenticated` | protocol/udp/cmd/tun-server/main.go:310-346 | In every run, a responder whose own static key is uncorrupted and that accepted message A from an uncorrupted static key read what an initiator session holding that key wrote for it. |
| `Authentication.Impersonation` | protocol/udp/internal/noise/noise_ik.go:413-434 | The condition on the responder's own key is needed: for every corrupted responder key and every uncorrupted key there is a run in which the responder accepts message A from that key although nobody holding it took part. |
| `Authentication.ImpersonationLosesKeys` | protocol/udp/internal/noise/noise_ik.go:381-399 | In that state, corrupting the impersonated key afterwards gives the adversary both transport keys: the condition of forward secrecy is needed too. |
| `Authentication.FrameConfirms` | protocol/udp/internal/noise/api.go:173-190 | A responder with an uncorrupted peer that has accepted a frame agrees on everything with an initiator that completed with this very responder, also when the responder's own key is corrupted. |
| `Authentication.EndToEnd` | protocol/udp/internal/noise/api.go:156-190 | In every run the frames that a session with an uncorrupted peer accepts are frames that peer sent, with the content it sealed under that number, each at most once, and nothing else. An initiator, and a responder that has accepted a frame, agrees with the peer on everything; a responder with an uncorrupted key shares the start of the handshake with it before that. |
| `Authentication.AgreementIsInjective` | protocol/udp/internal/noise/noise_ik.go:335-451 | No two initiator sessions agree with one responder session. |
| `Authentication.UndisturbedRun` | protocol/udp/internal/noise/noise_ik.go:357-451 | Between an initiator and a responder whose messages are just passed on, both agree and a packet is delivered: the guarantees are not empty. |
| `Wire.ParseAfterMarshal` | protocol/udp/internal/noise/wire.go:41-128 | Reading back a message of IK shape gives the same message and type, the 64-bit nonce included. |
| `Wire.MarshalAfterParse` | protocol/udp/internal/noise/wire.go:41-128 | Every buffer that parses is exactly what its message marshals to, and the message has IK shape. |
| `Wire.CodecIsBijective` | protocol/udp/internal/noise/wire.go:41-128 | A buffer parses to a message if and only if the message has IK shape and marshals to the buffer. |
| `Wire.SurvivesExactly` | protocol/udp/internal/noise/wire.go:41-128 | A message that can be marshalled parses back if and only if it has IK shape. |
| `Wire.Layout` | protocol/udp/internal/noise/wire.go:18-83 | Every part of a marshalled datagram by position: version 1, type 0, 1 or 2, and the parts of the message; nonce byte i, at 2+i, is nonce / 256^i mod 256. |
| `Wire.RefusedExactly` | protocol/udp/internal/noise/wire.go:87-128 | Which buffers are refused as short, of an unknown version, or of an unknown type. |
| `Wire.MarshalledExactly` | protocol/udp/internal/noise/wire.go:41-47 | Marshalling a message A panics exactly when its static part does not have 48 bytes. |
| `SessionTable.PutKeepsInv` | protocol/udp/internal/sessman/manager.go:53-73 | Put alone keeps the UDP and peer indexes mutually inverse if and only if the peer has no session at another endpoint. |
| `SessionTable.RemoveKeepsInv` | protocol/udp/internal/sessman/manager.go:135-146 | Removing a live entry keeps the table consistent and forgets exactly its peer and endpoint. |
| `SessionTable.RemoveLive` | protocol/udp/internal/sessman/manager.go:135-146 | Exactly the removed entry stops being live, and for each address the index stays exact if it was. |
| `SessionTable.BindKeepsInv` | protocol/udp/internal/sessman/manager.go:105-116 | Binding an address, also one that another entry holds, keeps the table consistent and changes no entry's liveness. |
| `SessionTable.AdmitKeepsInv` | protocol/udp/cmd/tun-server/main.go:340-344 | Evicting the peer's session before Put always keeps the table consistent; live afterwards are the new entry and those of other peers at other endpoints. |
| `SessionTable.OneSessionPerPeer` | protocol/udp/internal/sessman/manager.go:24-31 | Two live entries with one peer key or one endpoint are one entry. |
| `SessionTable.CountIsPeers` | protocol/udp/internal/sessman/manager.go:149-153 | The number of sessions is the number of peers. |
| `SessionTable.LookupIsSearch` | protocol/udp/internal/sessman/manager.go:89-93 | Where the index is exact for an address, looking it up is searching all live entries for it. |
| `SessionTable.BindKeepsExact` | protocol/udp/internal/sessman/manager.go:105-116 | A binding makes the index exact for its address if and only if no other live entry is bound to it, and keeps it exact for every other address. |
| `SessionTable.TakeoverHidesLoser` | protocol/udp/internal/sessman/manager.go:105-116 | After a takeover the loser is live and still bound in its own record, but the address finds the winner. |
| `SessionTable.RemoveKeepsRoutes` | protocol/udp/internal/sessman/manager.go:135-146 | Removing an entry leaves the routes to all other entries alone if and only if the index has no other entry under its address. |
| `SessionTable.BindKeepsRoutes` | protocol/udp/internal/sessman/manager.go:105-116 | A binding leaves the routes to all other entries alone if and only if the index has no other entry under the old address, and none under the new one. |
| `SessionTable.AdmitKeepsRoutes` | protocol/udp/cmd/tun-server/main.go:340-344 | A new session leaves the routes to all sessions that go on alone if and only if none of them has taken over the address of an entry it replaces. |
| `SessionTable.WinnerIsStranded` | protocol/udp/internal/sessman/manager.go:105-146 | When the loser of a takeover is removed or moves to another address, the winner is live and bound in its own record, but its address finds nobody. |
| `SessMan.Manager.constructor` | protocol/udp/internal/sessman/manager.go:42-48 | An empty table. |
| `SessMan.Manager.Put` | protocol/udp/internal/sessman/manager.go:53-73 | The three maps and the entry objects end as the value-level table does, an evicted entry of the same endpoint included. |
| `SessMan.Manager.LookupByUDP` | protocol/udp/internal/sessman/manager.go:77-85 | Finds the indexed entry, and nil exactly when there is none. |
| `SessMan.Manager.LookupByTunIP` | protocol/udp/internal/sessman/manager.go:89-93 | Finds the indexed entry, and nil exactly when there is none. |
| `SessMan.Manager.LookupByPeer` | protocol/udp/internal/sessman/manager.go:97-101 | Finds the indexed entry, and nil exactly when there is none. |
| `SessMan.Manager.BindTunIP` | protocol/udp/internal/sessman/manager.go:105-116 | The maps and the entry's own field end as the value-level table does; an invalid address changes nothing. |
| `SessMan.Manager.Remove` | protocol/udp/internal/sessman/manager.go:135-146 | The maps end as the value-level table does; nil changes nothing. |
| `SessMan.Manager.Count` | protocol/udp/internal/sessman/manager.go:149-153 | In a consistent table the count is the number of peers. |
| `TunServer.EndpointsLayout` | protocol/udp/cmd/tun-server/main.go:455-490 | A packet has a source and a destination if and only if its version nibble is 4 or 6 and they stand side by side where that header has them. |
| `TunServer.SourceIs` | protocol/udp/cmd/tun-server/main.go:366-373 | The source that the server binds is what stands at the source position of the packet's header. |
| `TunServer.DestinationIs` | protocol/udp/cmd/tun-server/main.go:403-406 | The destination that the server routes by is what stands at the destination position of the packet's header. |
| `TunServer.RouteByHeader` | protocol/udp/cmd/tun-server/main.go:403-411 | A packet is routed to the index's entry under the destination in its header, and dropped if it has no whole header. |
| `TunServer.AcceptedExactly` | protocol/udp/cmd/tun-server/main.go:355-365 | A frame is accepted exactly when its endpoint has a session and it is genuine and fresh for that session; its plaintext goes to the TUN device, and no other session changes. |
| `TunServer.BindsHeaderSource` | protocol/udp/cmd/tun-server/main.go:366-379 | An accepted packet binds its entry to the source in its header: always for IPv4, otherwise only while there is no IPv4 binding; without a whole header nothing is bound. |
| `TunServer.TableInvariant` | protocol/udp/cmd/tun-server/main.go:310-385 | In every run the UDP and peer indexes are two views of one set of live sessions, one per peer, and every indexed address is a live entry's own. |
| `TunServer.RouteIsLive` | protocol/udp/cmd/tun-server/main.go:403-411 | The entry a packet is routed to is live and bound to the packet's destination. |
| `TunServer.RoutingSafety` | protocol/udp/cmd/tun-server/main.go:323-419 | In every run a packet is sealed only under a session to which it was routed before, while the session was live and bound to the address that the packet's header names as its destination; before that the session was opened for a peer the allowlist named at that moment, and itself had decrypted a packet whose header names that address as its source. |
| `TunServer.RunSound` | protocol/udp/cmd/tun-server/main.go:310-419 | The invariant behind it, over every interleaving of handshakes, frames, TUN reads and sends. |
| `ServerSealing.SealedPackets` | protocol/udp/cmd/tun-server/main.go:413-418 | In every run each frame sealed for an entry holds exactly the packet it was sealed for, under the sending key of the entry's session, and no two frames of one entry share a nonce. |
| `ServerSealing.RunReady` | protocol/udp/cmd/tun-server/main.go:310-346 | In every run every session of the table has completed its handshake. |
| `ServerSealing.AcceptedInRuns` | protocol/udp/cmd/tun-server/main.go:348-385 | In every run a frame is accepted if and only if its endpoint has a session for which it is genuine and fresh, and what goes to the TUN device is its plaintext. |
| `TunServer.ReplyReachesSender` | protocol/udp/cmd/tun-server/main.go:366-411 | After a packet from an inner address was accepted, replies to it go to the sending session if and only if the session already held the address in the index or has just bound it; a session bound in its own record only does not get the address back by sending from it again. |
| `TunServer.RegainedByMoving` | protocol/udp/cmd/tun-server/main.go:366-379 | In every run, an entry bound to an address in its own record only is found under the address again only after it was bound to another address and then to this one again. |
| `TunServer.MessageAIsReplayable` | protocol/udp/cmd/tun-server/main.go:310-346 | In every run, a message A that was admitted once is admitted again from any endpoint if and only if its peer is still on the allowlist, and the peer's live session ends then; otherwise nothing changes. |
| `TunServer.AnsweredExactly` | protocol/udp/cmd/tun-server/main.go:310-338 | A message A is answered if and only if it can be read and its peer is on the allowlist; an answer that cannot be sent leaves the server as it was. |
| `ServerScenarios.ReplyIsSealed` | protocol/udp/cmd/tun-server/main.go:310-419 | A run from the start in which a client connects and sends a packet, and a reply to the packet's source is sealed; the client's own session decrypts exactly that reply. |
| `ServerScenarios.AnswerCompletes` | protocol/udp/cmd/tun-server/main.go:310-338 | The server's answer to an allowed client is what the client's session reads, and both end with equal `h`, `cs1` and `cs2`. |
| `ServerScenarios.SessionIsStranded` | protocol/udp/cmd/tun-server/main.go:310-411 | A run from the start, for any two clients and any packet, that ends with a session live and bound to the source of a packet it has just sent, and replies to that packet find nobody. |
| `ServerScenarios.FrameIsTheClients` | protocol/udp/internal/noise/api.go:156-168 | What the connecting client's own session seals as its n-th packet, for every n, is frame n of these runs. |
| `TunServer.BindingIsPreferred` | protocol/udp/cmd/tun-server/main.go:366-379 | In every run an entry is bound to an address if and only if that is the header source of the latest IPv4 packet it decrypted, or of the latest other packet if there was no IPv4 one. |
| `TunServer.RunExact` | protocol/udp/cmd/tun-server/main.go:310-385 | In every run, for each address that was not bound for two peers, the address index misses no live entry. |
| `TunServer.LookupByTunIP` | protocol/udp/internal/sessman/manager.go:89-116 | In every run, an address that was not bound for two peers finds exactly the live entry bound to it, and nothing exactly when there is none. |
| `TunServerWorker.Worker.HandleHandshakeA` | protocol/udp/cmd/tun-server/main.go:310-346 | On the shared objects the handler does what the value-level step does, on every error path. |
| `TunServerWorker.Worker.Admit` | protocol/udp/cmd/tun-server/main.go:340-344 | Evicting and putting on the shared maps is the value-level admission. |
| `TunServerWorker.Worker.Observe` | protocol/udp/cmd/tun-server/main.go:366-379 | Rebinds the shared entry by the value-level rule. |
| `TunServerWorker.Worker.DecryptFor` | protocol/udp/cmd/tun-server/main.go:361-365 | Decrypting changes this entry's session and no other's. |
| `TunServerWorker.Worker.HandleTransport` | protocol/udp/cmd/tun-server/main.go:348-385 | On the shared objects the handler does what the value-level step does. |
| `TunServerWorker.Worker.Route` | protocol/udp/cmd/tun-server/main.go:403-411 | The TUN loop's lookup is the value-level choice. |
| `TunServerWorker.Worker.SealPacket` | protocol/udp/cmd/tun-server/main.go:413-418 | Sealing changes this entry's session and no other's, and gives the value-level frame. |
| `StableJson.Canonical` | webui/services/blockchainService.js:6-17 | Two values print to one text if and only if they are equal up to the order of object keys. |
| `StableJson.TextReadsBack` | webui/services/blockchainService.js:6-17 | A reader of the JSON grammar (RFC 8259), written without the printer, reads every printed text, with or without white space allowed between tokens, as a value that is the same up to key order, its keys ascending by their first differing code unit, a proper prefix first. |
| `StableJson.ReadsBack` | webui/services/blockchainService.js:6-17 | The same inside a longer text: literals, numbers, strings, arrays and objects, each up to its own end. |
| `StableJson.NumberReadsBack` | webui/services/blockchainService.js:16 | Every printed integer reads back as that integer. |
| `StableJson.EscapesAreMinimal` | webui/services/blockchainService.js:13-16 | Which code units are escaped and how: by a letter, by four lower-case digits, or not at all. |
| `StableJson.PrintInjective` | webui/services/blockchainService.js:6-17 | A printed value is recognised inside a longer text: delimiters, escapes and number ends are unambiguous. |
| `StableJson.SamePrintsAlike` | webui/services/blockchainService.js:10-15 | Values equal up to key order print alike at every depth. |
| `StableJson.SortedKeysSame` | webui/services/blockchainService.js:11-12 | Objects with the same keys in any order sort them alike. |
| `StableJson.QuotedReadsBack` | webui/services/blockchainService.js:13-16 | Every printed string reads back by the grammar of section 7 of RFC 8259 as the string, whatever follows it. |
| `StableJson.NumberInjective` | webui/services/blockchainService.js:16 | A printed integer is recognised before any text that can follow a value, although integers are not prefix-free. |
| `StableJson.TextIsUnicode` | webui/services/blockchainService.js:6-21 | No printed text holds an unpaired surrogate, so that encoding it for the hash loses nothing. |
| `HashChain.TextDeterminesBlock` | webui/services/blockchainService.js:34-45 | Two blocks are hashed as one text if and only if they agree in every hashed field, the payload up to key order. |
| `HashChain.HashedProperties` | webui/services/blockchainService.js:34-45 | The six hashed properties by name, and which field each one carries. |
| `HashChain.VerifyBlockchain` | webui/services/blockchainService.js:171-209 | Valid if and only if every row fits, with the last hash; otherwise the reported row is the first that does not fit. |
| `HashChain.LastHashDeterminesChain` | webui/services/blockchainService.js:34-45 | Two chains that verify and end in one hash are equal row by row and in length, unless they exhibit a hash collision. |
| `ChainAppends.StoredHash` | webui/services/blockchainService.js:117-133 | A payload the database gives back with its keys reordered hashes as it did when it was stored. |
| `ChainAppends.InsertOk` | webui/services/blockchainService.js:51-59 | Inserting a block that fits keeps the table a chain and all other rows, whether the unique columns accept it or not. |
| `ChainAppends.PayloadProperties` | webui/services/blockchainService.js:124-126 | A user's block has the payload's properties and the private member id, which a member id in the payload overrides; without a user the payload is taken as it is. |
| `ChainAppends.KeptProperties` | webui/services/blockchainService.js:117-144 | The database's copy of a composed payload has the same properties, key by key. |
| `ChainAppends.PayloadWellFormed` | webui/services/blockchainService.js:124-126 | The composed payload has each key once. |
| `ChainAppends.ChainSafety` | webui/services/blockchainService.js:63-147 | For every interleaving of any number of appends and initialisations, lost statements included, the stored indices are exactly 0 to n-1 and the rows in order verify. |
| `ChainProvenance.RowsComeFromCalls` | webui/services/blockchainService.js:63-147 | In every run row 0 is the genesis row of an initialisation, and every later row is the block of an append of that run: timestamp, user id, event type and composed payload are the call's, the previous hash and index follow from the row it read. |
| `ChainProvenance.GenesisFields` | webui/services/blockchainService.js:71-82 | The genesis row field by field, with its texts spelled out. |
| `ChainProvenance.InitialisedOnce` | webui/services/blockchainService.js:63-69 | In every run with a row, initialisation does nothing. |
| `ChainAppends.CharactersOfText` | webui/services/blockchainService.js:53-54 | The width of a text that the columns limit is its number of characters, a surrogate pair counting once. |
| `ChainAppends.AppendOnly` | webui/services/blockchainService.js:63-147 | What a run has stored, every longer run still has, unchanged. |
| `ChainAppends.AppendSucceeds` | webui/services/blockchainService.js:51-144 | In every reachable state, whatever else is in flight, an insert that is not lost succeeds if and only if its block is still the next one, an index is left, user id and event type have at most 16 and 64 characters, and no row has its hash; otherwise the table is unchanged. |
| `ChainAppends.SecondReaderLoses` | webui/services/blockchainService.js:103-144 | After every run with a genesis row and an index left, two appends can both read the same latest row; when the first insert succeeds, the second is rejected and the table is as if only the first had been made. |
| `ChainAppends.Initialised` | webui/services/blockchainService.js:63-101 | The shortest such run: initialisation leaves exactly the genesis row. |
| `ChainAppends.Ledger.InsertBlock` | webui/services/blockchainService.js:130-144 | The statement on the table: what is inserted and when, the chain kept. |
| `ChainAppends.Ledger.InitPrivateBlockchain` | webui/services/blockchainService.js:63-101 | Writes the genesis row once; a repeated call changes nothing. |
| `ChainAppends.Ledger.CreateBlock` | webui/services/blockchainService.js:103-147 | Fails without a row to follow; otherwise inserts one row, whose index, timestamp, user id, event type, payload, previous hash and hash are given field by field from the call and the row read, or reports that the insert was rejected and changes nothing. |
| `ChainAppends.Ledger.Verify` | webui/services/blockchainService.js:171-209 | The verifier, run over the rows of a table that only these statements changed, says valid with the last hash. |
| `LeasePool.AllocationExactness` | backend/control-plane/daemon.js:254-273 | For a new client, allocation fails if and only if its request is unusable and every host in range is the gateway's or taken; an automatic choice is the lowest free host. |
| `LeaseSpellings.RequestExactly` | backend/control-plane/daemon.js:223-260 | A new client is given the address it asks for exactly when, trimmed, it is four groups of one to three digits, the last number in range, and neither leased nor the gateway's string; otherwise it is treated as if it had not asked. |
| `LeasePool.AllocationTouchesOne` | backend/control-plane/daemon.js:229-295 | An allocation changes no other client's lease, and a failed one nothing at all. |
| `LeasePool.ReleaseFrees` | backend/control-plane/daemon.js:421-429 | After a release the client has no lease, every other client has what it had, and the answer is true exactly for a client with a lease or a name that every object inherits. |
| `LeasePool.ReleasedCanBeHad` | backend/control-plane/daemon.js:229-295 | In every run a released address is free: the next client that requests it gets it if its host is in range, and it counts as free for an automatic choice. |
| `LeasePool.ClientIsTrimmed` | backend/control-plane/daemon.js:218-221 | A client id with white space around it names the trimmed client, for allocation and for release. |
| `LeasePool.NoClient` | backend/control-plane/daemon.js:218-231 | A blank client id is given a generated one on allocation and names nobody on release. |
| `LeasePool.FirstFreeIsLowest` | backend/control-plane/daemon.js:265-271 | The search fails if and only if no host is free, and otherwise gives the lowest. |
| `LeasePool.GatewayIsRefused` | backend/control-plane/daemon.js:260-262 | A new client without a usable request is refused for an invalid gateway exactly when the gateway has not three dots. |
| `LeasePool.PoolNotExhausted` | backend/control-plane/daemon.js:254-273 | While there are fewer leases than hosts, no allocation fails, whatever addresses the leases are for. |
| `LeasePool.GrantIsRecorded` | backend/control-plane/daemon.js:275-284 | What a client is granted is on record for it if and only if its id is not `__proto__`. |
| `LeasePool.LeaseSafety` | backend/control-plane/daemon.js:229-295 | In every state reached by allocations and releases distinct clients hold distinct addresses as strings, and none holds the gateway's string. |
| `LeaseSpellings.AddressesDistinct` | backend/control-plane/daemon.js:202-295 | In every run in which the gateway and all requests are written without leading zeros, distinct clients hold distinct addresses number by number, and none holds the gateway's. |
| `LeaseSpellings.TwoSpellings` | backend/control-plane/daemon.js:223-260 | After every run, each usable request with a leading zero whose plain spelling is neither taken nor the gateway leads two clients to one address. |
| `LeaseSpellings.SecondSpellingIsAutomatic` | backend/control-plane/daemon.js:254-273 | In the gateway's subnet, with the lower hosts taken, the plain spelling is what the next client without a request is given. |
| `LeaseSpellings.FirstHostTwice` | backend/control-plane/daemon.js:254-284 | For every configuration with a plain gateway, the first host requested with a leading zero and then one allocation without a request put two clients on that host. |
| `LeaseSpellings.DefaultSpellings` | backend/control-plane/daemon.js:24-28 | With the default configuration: "10.99.0.02" is leased to one client, and "10.99.0.2" to the next. |
| `LeaseSpellings.GatewayIsLeased` | backend/control-plane/daemon.js:254-268 | If the gateway is written with a leading zero and its host is in range, a request for its plain spelling leases the gateway's address. |
| `LeaseSpellings.PlainSpellingIs` | backend/control-plane/daemon.js:202-227 | Dropping the leading zeros gives a spelling of the same address that has none, and changes nothing exactly when there were none. |
| `LeaseSpellings.PlainInjective` | backend/control-plane/daemon.js:202-227 | Two spellings of one address without leading zeros are one string. |
| `LeasePool.LeaseStable` | backend/control-plane/daemon.js:229-295 | A client's address stays the same until that client is released. |
| `LeasePool.CandidateInjective` | backend/control-plane/daemon.js:263-266 | Different host numbers give different addresses. |
| `LeasePool.HostOfCandidate` | backend/control-plane/daemon.js:202-206 | The host number of the candidate for host i is i. |
| `LeasePool.TrimExactly` | backend/control-plane/daemon.js:218-221 | What trimming removes: white space at both ends, all of it, and nothing else. |
| `LeasePool.SpaceExactly` | backend/control-plane/daemon.js:218-227 | The characters that trimming removes. |
| `LeasePool.SplitExactly` | backend/control-plane/daemon.js:261-263 | Splitting at dots cuts at every dot and loses nothing. |
| `LeasePool.LeaseStore.AllocateTunnelLease` | backend/control-plane/daemon.js:229-295 | The first-fit loop over the mutable map gives the value-level allocation, errors included. |
| `LeasePool.LeaseStore.ReleaseTunnelLease` | backend/control-plane/daemon.js:421-429 | Removes the normalised client's lease and no other, and says whether there was one. |

## Left out

- The inside of X25519, ChaCha20-Poly1305, BLAKE2s, HKDF and SHA-256, and entropy: terms stand for their results. Of the algebra of X25519 only the exchange between two known public keys and the low-order points are modelled.
- `Crypto.Forbidden` and `Crypto.LowOrder` differ: the last five of the twelve refused encodings are compared with their top bit set, which X25519 ignores.
- The unused preshared-key field, `reKey` and `mixKeyAndHash`, and the transport branches of `SendMessage` and `RecvMessage`, which the session interface never reaches.
- The bytes of terms: sessions exchange terms, the codec is on bytes, and the two are connected by lengths only. The server's dispatch of a datagram by version and type is `Wire.Parse`; it ignores message B, and the client ignores message A.
- Packets inside transport frames that are not literal bytes have no endpoints; the adversary may send them, and they bind nothing.
- The network model drops a session whose handshake read failed and gives every session a new ephemeral key that is nobody's static key and is never corrupted; keys are corrupted before the run or, for `Authentication.ForwardSecrecy`, at one point of it.
- Sockets, TUN devices, routes, logs, timers, the times of creation and last use, and address-range configuration.
- `RebindUDP`, which has no caller.
- The server's two loops run as interleaved steps; the unlocked reads of an entry's `TunIP` while the other loop runs are single steps here.
- JSON numbers that are not integers or are beyond 2^53, and `undefined`: the callers pass strings.
- A text that is too long for its column only by trailing spaces, which PostgreSQL cuts off: the model refuses it like any other that is too long.
- The database is taken to give back equal JSON values and the same timestamp, to enforce its unique columns, and to lose a statement at any time.
- Reading the chain for one user, the summaries, wallet checks and the tables around the chain.
- The metadata of a lease (platform, device name, times) and the lease file, which is read and written whole; requests are strings, as any value is after conversion.
- The claim that every lease lies in the configured subnet: false for a requested address.
- The older device-slot service, wallet nonces, the allowlist file, bridge spools, installers, and all browser, mobile and desktop code.
