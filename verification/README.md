# A model of ZK-ARCHE

ZK-ARCHE authenticates devices to a server with zero-knowledge proofs. It is written twice, in C
over libsodium and in Rust over dalek, and the two lanes must agree byte for byte. These Dafny
files model both lanes and prove what the protocol relies on:

- the proof algebra: Schnorr proofs, rerandomized commitments and the CDS-OR role-set proof, with
  completeness, extraction, binding and witness independence (`Field`, `Suite`, `RoleSet`,
  `RoleHiding`, `ChallengeBinding`, `FiatShamir`, `Soundness`), and the prover and verifier loops of both
  lanes against it (`RoleSetLanes`);
- transcripts, key derivation and the canonical codecs (`Transcript`, `AuthV3`, `Hkdf`, `Context`,
  `ContextLanes`, `IotCore`, `Payloads`, `TypedPayloads`, `Packets`, `Hello`, `Layouts`);
- the AUTH exchange from device to server and back, in Rust, in C and across the lanes
  (`AuthCrypto`, `Derivations`, `AuthExchange`, `ClientLane`, `LookupAgreement`);
- the two servers: the Rust one as a state machine over whole runs (`Setup`, `ServerRuns`,
  `ServerHistory`, `ServerLoop`, `HonestDispatch`), the C one with its replay cache, session table, guarded registry
  scan and the interleavings of its handlers (`ReplayCache`, `SessionTable`, `SlotOwnership`,
  `GuardedScan`);
- the LINEAGE_REPLACE commit with its authorization chain, ordered storage steps and recovery
  (`LineageAuthorization`, `VerifiedCommit`).

`dafny verify dfyconfig.toml` checks everything.

## How the system is modelled

- The group has an arbitrary prime order q with 2^64 < q < 2^256. `Suite.Realizable` shows that
  every such prime fits the requirements. A point is written as its
  multiple of g, so g is 1 and h is an arbitrary nonzero eta. Nothing in the proofs computes a
  logarithm except where a theorem says so. Inverses are computed and proved, not assumed.
- SHA-256, SHA-512 and HMAC are arbitrary functions with the right output length. Where a statement
  needs the absence of a collision, it names the very inputs that must not collide. Point
  compression and decompression are inverse on valid encodings. That a hash or MAC covers an input is
  stated by giving one under which a change of that input changes the result.
- Randomness, clocks, hash-map iteration order and the outcome of the registry flush are inputs.
- Code that changes state is modelled by classes and methods whose contracts give the whole new
  state as a function of the old one; the theorems are then about those functions.
- libsodium's multiplication fails on an identity result, and dalek's does not. Every C contract
  carries that failure, and the agreement theorems state exactly when it happens.

## What the proofs brought out

- An allowed-role list containing role 0 works in Rust and never in C (`RoleSetLanes.RoleZeroDiverges`).
- The Rust transcript writes the low 32 bits of a message length without a check, so the framing is
  injective exactly for messages below 2^32 bytes (`Transcript.InjectiveBelowExactly`). No caller
  comes near that.
- A packet holds 2024 payload bytes, so the Rust client panics in `build_packet` when 19 or more roles
  are allowed (`AuthExchange.ClientCanSend`).
- Under an entry limit the two ZKCTX parsers can name different first errors, and
  `Context.LanesAgree` says exactly when.
- The C SETUP_3 and AUTH_3 handlers release their slot by index after dropping the lock. That is
  sound exactly when no second finisher is in flight for the slot (`SlotOwnership.RuleIsExact`);
  otherwise the run can always be continued so that a worker's activation is refused
  (`SlotOwnership.SecondFinisherHarms`, and `StaleReleaseLosesSession` for a concrete run).
- The recovery classifier of LINEAGE_REPLACE can be fooled by storage that reports success
  without durability; `VerifiedCommit.RecoverySoundExactly` says exactly when.
- The C HELLO decoder's comment says over-long vendor and model values are truncated; the code
  drops them, and so does `Hello.Apply`.
- The C device keeps a derived session key in its context even when the server's tag is wrong
  (`ClientLane.Device.HandleAuth2`).

## Model

| member | source | states |
|---|---|---|
| Suite.SchnorrExact | rust/crates/proto/src/crypto.rs:271-311 | A response computed for x is accepted against X only if X is base*x, except under challenge zero; both directions |
| Suite.SchnorrComplete | c/src/crypto/proofs.c:271-332 | The response of a prover who knows x always passes the verification equation |
| Suite.SchnorrExtract | rust/crates/proto/src/crypto.rs:422-443 | Two accepting answers to one commitment under different challenges compute the witness |
| RoleSet.ProverAcceptedExactly | rust/crates/proto/src/crypto.rs:469-588 | The verifier accepts the prover's branches if and only if the blinding opens the true statement or the true branch got challenge zero |
| RoleSet.RoleSetComplete | rust/crates/proto/src/crypto.rs:469-588 | For every role list, index and randomness, the branches proved for an honest commitment are accepted |
| RoleSet.WitnessIndependence | c/src/crypto/proofs.c:662-717 | For any accepting proof and any index k: exactly one blinding opens branch k, and exactly one choice of w and simulated (c_j, s_j) makes the prover with true index k output that very proof |
| RoleSet.CoinsForUnique | c/src/crypto/proofs.c:662-717 | The randomness behind a given proof at a given index is determined by the proof |
| RoleHiding.Auth1HidesRole | rust/crates/proto/src/proto/auth.rs:54-92 | For every message accepted for a device and every allowed role there is exactly one client of that device with that role, its credential opening the same commitment, and its randomness, that sends that very message: the whole of AUTH_1 hides the role |
| RoleHiding.ClientCouldHaveSent | rust/crates/proto/src/proto/auth.rs:54-92 | The existence half: the constructed credential is consistent and its AUTH_1 is the message |
| RoleHiding.SenderUnique | rust/crates/proto/src/proto/auth.rs:54-92 | The uniqueness half: two clients of one device and role that send the same message are the same in every secret and draw |
| RoleHiding.RespondInverts | rust/crates/proto/src/crypto.rs:271-311 | An accepted Schnorr answer of a prover who knows x is reproduced from the randomness it determines |
| RoleSet.RoleSetExtract | rust/crates/proto/src/crypto.rs:545-590 | Two accepting branch lists with equal A_i under different master challenges differ in some branch, whose opening is then computed |
| RoleSet.ExtractStoredRole | rust/crates/proto/src/crypto.rs:422-443 | Together with two accepting rerandomization proofs this gives b with stored_c = g*r + h*b for an allowed role r |
| RoleSet.TwoOpeningsGiveLog | rust/crates/proto/src/crypto.rs:545-590 | Opening one commitment to two different 64-bit roles yields log_g(h), by an explicit quotient |
| RoleSet.SumUpdate | c/src/crypto/proofs.c:701-717 | Replacing the zero in the true position by the split challenge adds exactly that challenge to the sum |
| ChallengeBinding.AcceptedExtracts | rust/crates/proto/src/proto/auth.rs:210-266 | Special soundness of a whole AUTH_1: if the three proofs of a device are accepted for the same commitments under two hash functions giving different challenges, its secret key and an opening of its enrolled commitment to an allowed role are computed |
| ChallengeBinding.ClientFrameBinds | rust/crates/proto/src/crypto.rs:271-292 | Equal client transcripts mean equal key, commitment, pid, nonce and ephemeral |
| ChallengeBinding.RerandFrameBinds | rust/crates/proto/src/crypto.rs:393-419 | Equal rerandomization transcripts mean equal session, stored and rerandomized commitment and proof commitment |
| ChallengeBinding.RoleSetFrameBinds | c/src/crypto/proofs.c:575-610 | Equal role-set transcripts mean the same role list, session, C' and list of A_i, for any number of roles below 65536 |
| ChallengeBinding.DomainsSeparate | rust/crates/proto/src/transcript.rs:116-126 | Transcripts of two different proofs never coincide, whatever their fields |
| FiatShamir.ChallengesSeparate | rust/crates/proto/src/crypto.rs:134-590 | For any two different statements of the six proofs, differing in a key, a commitment, a nonce, a role, an A_i or in the proof they belong to, there is a hash under which their challenges differ: every challenge covers its whole statement and all commitments |
| FiatShamir.FrameOfInjective | rust/crates/proto/src/crypto.rs:134-590 | Equal transcripts belong to the same proof, statement and commitments |
| FiatShamir.ChallengeHashesFrame | rust/crates/proto/src/transcript.rs:64-70 | Each challenge is the hash of that transcript reduced modulo q, for every hash |
| Soundness.ServerExtracts | rust/crates/proto/src/crypto.rs:347-365 | Two server identity proofs for one session and commitment under different challenges give away the server's secret key |
| Soundness.Auth2Extracts | rust/crates/proto/src/proto/auth.rs:107-132 | Whoever makes a device accept AUTH_2 for one commitment, nonce and ephemeral under two challenges knows the secret of the pinned server key |
| Soundness.AcceptedAuth2 | rust/crates/proto/src/proto/auth.rs:107-168 | A device that accepts AUTH_2 has checked the pinned key, the server's proof for this nonce and ephemeral, and the finished tag |
| Soundness.AcceptedAuth2InC | c/src/proto/proto.c:252-320 | The C device checks the same |
| Soundness.SetupClientExtracts | rust/crates/proto/src/crypto.rs:170-193 | Two SETUP_3 proofs for one binding and commitment under different challenges give away the device's secret key |
| Soundness.SetupServerExtracts | rust/crates/proto/src/crypto.rs:234-257 | The same for the server's setup proof |
| Soundness.EnrolledKeyIsKnown | rust/crates/proto/src/proto/setup.rs:231-258 | Whoever gets a pending record confirmed knows the secret of the key that is enrolled |
| Soundness.AcceptedSetup2 | rust/crates/proto/src/proto/setup.rs:93-126 | An enrolling client that goes on has checked the pin and the server's proof, and its own proof verifies |
| RoleSetLanes.ScalarMultFails | c/src/crypto/crypto.c:80-99 | A libsodium multiplication fails exactly when the scalar is zero or the point is the identity |
| RoleSetLanes.WideOffsetInside | c/src/crypto/proofs.c:636-694 | The 64- and 128-byte reads of the prover loop are adjacent, in bounds, and end at exactly 64 + 128*(n-1) |
| RoleSetLanes.WideCoinsOnto | c/src/crypto/proofs.c:656-694 | Every choice of true nonce and simulated challenges and responses is read from some block of the required length: no byte is used twice |
| RoleSetLanes.StreamCoinsOnto | rust/crates/proto/src/crypto.rs:499-511 | Every choice of coins is drawn from some stream of 2n-1 scalars |
| RoleSetLanes.MasterChallengeC | c/src/crypto/proofs.c:575-610 | Within eight roles the C transcript never overflows its buffer and the challenge equals the unbounded one |
| RoleSetLanes.StatementsC | c/src/crypto/proofs.c:645-654 | Y_i = C' - g*r_i for every i; fails exactly when some role is 0 |
| RoleSetLanes.FindRole | c/src/crypto/proofs.c:629-634 | The first index carrying the role, or n |
| RoleSetLanes.CommitBranchC | c/src/crypto/proofs.c:666-694 | One pass of the commitment loop writes only branch i, with the values of the abstract prover, or fails on an identity result |
| RoleSetLanes.CommitC | c/src/crypto/proofs.c:656-694 | The commitment loop fills the array with the abstract prover's A_i, c_j, s_j, stops at the first identity, and consumes exactly the required bytes |
| RoleSetLanes.AnswerC | c/src/crypto/proofs.c:696-726 | Splits the master challenge and completes the true branch: the array then holds the abstract proof, the rest of it is untouched |
| RoleSetLanes.ProveC | c/src/crypto/proofs.c:612-727 | The whole C prover: which error in which case, exact byte consumption, and on success the abstract proof in the caller's array |
| RoleSetLanes.ProvesExactly | c/src/crypto/proofs.c:624-638 | The C prover succeeds exactly for one to eight roles with the role among them, enough bytes and no identity; it answers ROLE_NOT_PERMITTED exactly when the role is not among them |
| RoleSetLanes.VerifyC | c/src/crypto/proofs.c:751-798 | The C verifier accepts exactly when the abstract verifier does, the list has 1 to 8 roles and no multiplication gives the identity |
| RoleSetLanes.CompleteInC | c/src/crypto/proofs.c:612-798 | If no prover multiplication meets the identity, the C verifier accepts the honest proof if and only if blinding, challenge and response of the true branch are nonzero |
| RoleSetLanes.RoleZeroDiverges | c/src/crypto/proofs.c:645-654 | Role 0 in the allowed list: the honest proof is accepted by Rust, and the C verifier accepts no proof at all |
| RoleSetLanes.SumChallenges | rust/crates/proto/src/crypto.rs:579-582 | The verifier's running sum is the modular sum of all branch challenges |
| RoleSetLanes.VerifyRust | rust/crates/proto/src/crypto.rs:545-590 | The Rust loop accepts exactly by the abstract verifier, without any identity condition |
| RoleSetLanes.CommitRust | rust/crates/proto/src/crypto.rs:494-511 | The Rust loop over three vectors produces the abstract commitments and simulated pairs and draws exactly 2n-1 scalars |
| RoleSetLanes.ProveRust | rust/crates/proto/src/crypto.rs:469-543 | The Rust prover returns the abstract proof of its draws, at the first index of its role |
| Transcript.FramingInjective | rust/crates/proto/src/transcript.rs:30-45 | Equal framings mean equal domain and equal field lists, for labels up to 255 bytes and messages below 2^32 |
| Transcript.OverlongMessageCollides | rust/crates/proto/src/transcript.rs:38-45 | A message of exactly 2^32 bytes that is itself a framed field frames to the same bytes as an empty field followed by that field |
| Transcript.InjectiveBelowExactly | rust/crates/proto/src/transcript.rs:30-45 | The framing is injective on messages shorter than n if and only if n is at most 2^32 |
| Layouts.TranscriptVector | rust/test-vectors/0x0001/transcript.json:1-21 | The published transcript bytes |
| Layouts.FieldLayout | rust/crates/proto/src/transcript.rs:38-45 | The bytes of a framed field |
| Transcript.CTranscript.constructor | c/src/crypto/transcript.c:45-60 | A fresh transcript holds exactly the framed domain |
| Transcript.CTranscript.AppendBytes | c/src/crypto/transcript.c:32-43 | Copies all bytes or none; a copy that does not fit latches the overflow |
| Transcript.CTranscript.Append | c/src/crypto/transcript.c:62-85 | Appends one framed field, refuses illegal arguments without any change, and reports an overflow exactly when the unbounded framing has outgrown the buffer |
| Transcript.CTranscript.Digest | c/src/crypto/transcript.c:125-144 | A challenge or hash comes out exactly when no append overflowed, and equals that of the unbounded framing |
| AuthV3.KcTranscriptLength | c/src/proto/auth_v3.c:88-147 | The AUTH v3 transcript is 726 bytes for all inputs, below the 768-byte buffer |
| AuthV3.KcTranscriptBinds | c/src/proto/auth_v3.c:88-147 | Equal transcripts mean equal context and equal proof parts |
| AuthV3.AppendField | c/src/proto/auth_v3.c:50-77 | Extends the framing by one field or fails exactly when it does not fit |
| AuthV3.BuildKcTranscript | c/src/proto/auth_v3.c:88-147 | Fails exactly for buffers below 726 bytes; otherwise the buffer holds the framing of all 18 fields |
| Hkdf.HkdfC | c/src/crypto/crypto.c:197-249 | For every length from 1 to 8160 the loop writes the first L bytes of T(1)||T(2)||... (sections 2.2 and 2.3 of RFC 5869); other lengths are refused and nothing is written; the one-byte counter has no wrapped value in use |
| Hkdf.ExpandByte | c/src/crypto/crypto.c:197-249 | Output byte i is byte i mod 32 of block i/32 + 1 |
| Hkdf.ExpandPrefix | c/src/crypto/crypto.c:197-249 | A shorter output is a prefix of a longer one |
| Derivations.HkdfIsTwoHmacs | c/src/crypto/crypto.c:197-249 | A 32-byte output is hmac(hmac(salt, ikm), info || 1), with 32 zero bytes for an empty salt |
| Context.CanonicalMeaning | c/src/proto/auth_v3_context.c:8-55 | The recursive notion of canonical entries means: every id legal, every value length in range, ids strictly increasing |
| Context.ParserExact | c/src/proto/auth_v3_context_parser.c:8-101 | Both parsers accept a byte string exactly when it encodes a legal (kind, entries) within the limit, and return that value |
| Context.EncodingInjective | c/src/proto/auth_v3_context.c:57-100 | Two legal values with the same encoding are equal |
| Context.AcceptedReencodes | rust/crates/proto/src/auth_v3_context_parser.rs:39-108 | Accepted bytes re-encode to themselves |
| Context.LanesAgree | rust/crates/proto/src/auth_v3_context_parser.rs:39-104 | On every input C and Rust accept the same with the same entries; their first errors differ exactly when the count exceeds both the limit and what the input can hold |
| Context.LanesDisagreeExample | c/src/proto/auth_v3_context_parser.c:38-43 | The smallest input on which the two lanes name different errors |
| Layouts.EmptyContextVectors | rust/test-vectors/auth-v3/context-encoding-v1.json:6-26 | The published encodings of the empty contexts |
| Layouts.CriticalContextVector | rust/test-vectors/auth-v3/context-encoding-v1.json:38-47 | A published encoding with two entries |
| Layouts.ContextEntryLayout | rust/crates/proto/src/auth_v3_context.rs:64-85 | The bytes of an entry |
| ContextLanes.ParseImplC | c/src/proto/auth_v3_context_parser.c:8-101 | The C offset loop computes the specified parse, including its first error, and fills the caller's entry array |
| ContextLanes.ParseImplRust | rust/crates/proto/src/auth_v3_context_parser.rs:39-108 | The Rust loop computes the specified parse, including its first error |
| ContextLanes.NoFaultIsCanonical | rust/crates/proto/src/auth_v3_context.rs:35-62 | The validation finds no fault exactly for canonical entries |
| ContextLanes.Validate | c/src/proto/auth_v3_context.c:8-55 | Returns the first fault in entry order, and otherwise the exact encoded length |
| ContextLanes.EncodeRust | rust/crates/proto/src/auth_v3_context.rs:64-85 | Succeeds exactly for encodable entries, with the canonical bytes; a failure names the first fault |
| ContextLanes.EncodeC | c/src/proto/auth_v3_context.c:57-100 | Fails exactly for entries that are not encodable, reports a short buffer exactly when it is short, and otherwise writes the canonical bytes |
| ContextLanes.HashC | c/src/proto/auth_v3_context.c:102-142 | The incremental hash over the entries is the hash of the canonical bytes |
| IotCore.DecodeExact | rust/crates/proto/src/auth_v3_iot_core_authz.rs:213-288 | Decoding accepts exactly the encodings of valid contexts, which are always 148 bytes |
| IotCore.EncodingDecodes | rust/crates/proto/src/auth_v3_iot_core_authz.rs:213-222 | A valid context encodes to 148 bytes that decode to it |
| IotCore.DecodedEncodes | rust/crates/proto/src/auth_v3_iot_core_authz.rs:239-287 | An accepted input is the encoding of a valid context |
| Layouts.IotCoreVector | rust/test-vectors/auth-v3/iot-core-authorization-v1.txt:1-9 | The published iot-core encoding, for any holder and audience |
| IotCore.DecodeC | c/src/proto/auth_v3_iot_core_authz.c:165-228 | The C decoder accepts what the Rust decoder accepts, with the same context; only parse failures are named differently |
| IotCore.HashBoth | c/src/proto/auth_v3_iot_core_authz.c:141-248 | Hashing the entries incrementally and hashing the raw encoding give the same digest |
| IotCore.AllZeroC | c/src/proto/auth_v3_iot_core_authz.c:9-16 | The OR-accumulator is zero exactly when every byte is |
| IotCore.Resolve | c/src/proto/auth_v3_iot_core_authz.c:250-293 | Resolves to i exactly when i is the only record with the reference and carries the expected peer and authorization; each refusal is exact |
| Payloads.DecodeRawExact | c/src/wire/payloads.c:158-216 | The raw AUTH_1 decoder accepts exactly the encodings of well-shaped messages within the branch bound; no trailing or missing bytes |
| Payloads.TruncatedOrExtended | c/src/wire/payloads.c:188-216 | A message cut short anywhere is PAYLOAD_TOO_SHORT, and one with anything behind it MALFORMED_PACKET |
| Payloads.Auth1Layout | rust/crates/proto/src/proto/payloads.rs:205-218 | Where every field and branch of AUTH_1 lies |
| Payloads.DecodeAuth1C | c/src/wire/payloads.c:188-216 | The C decoder computes that decoding with bound 8, with the same error in every case |
| Payloads.EncodeAuth1C | c/src/wire/payloads.c:158-186 | Fails exactly for more than 8 branches or a short buffer; otherwise writes the encoding and its length |
| TypedPayloads.DecodeAuth1Exact | rust/crates/proto/src/proto/payloads.rs:230-297 | The Rust decoder accepts exactly the encodings of sendable messages: canonical scalars, no identity point, up to 65535 branches, nothing trailing |
| TypedPayloads.TakePointExact | rust/crates/proto/src/proto/payloads.rs:35-41 | A point field reads back exactly from its compressed form, unless it is the identity |
| TypedPayloads.TakePointRefuses | rust/crates/proto/src/crypto.rs:71-87 | Too short, the identity's encoding, or no point's encoding: each refusal exactly |
| TypedPayloads.TakeScalarExact | rust/crates/proto/src/proto/payloads.rs:43-46 | A scalar field reads back exactly from its canonical form |
| TypedPayloads.LanesReadAlike | c/src/wire/payloads.c:188-216 | What Rust accepts with at most eight branches, C decodes to the raw form of the same message |
| TypedPayloads.ReadAuth1 | rust/crates/proto/src/proto/payloads.rs:250-297 | The Rust branch loop computes the specified decoding, including its first error |
| TypedPayloads.DecodeAuth2Exact | rust/crates/proto/src/proto/payloads.rs:311-338 | AUTH_2 decoding accepts exactly the encodings of sendable messages |
| Layouts.Auth2Layout | rust/crates/proto/src/proto/payloads.rs:302-320 | Where every field of AUTH_2 lies |
| Layouts.Setup1Layout | rust/crates/proto/src/proto/payloads.rs:59-68 | Where every field of SETUP_1 lies |
| Layouts.Setup2Layout | rust/crates/proto/src/proto/payloads.rs:138-145 | Where every field of SETUP_2 lies |
| Packets.PacketRoundTrip | rust/crates/proto/src/wire.rs:100-174 | A packet is built if and only if its payload is at most 2024 bytes, and then parses back to itself |
| Layouts.PacketLayout | rust/crates/proto/src/wire.rs:110-116 | The bytes of a packet, field by field |
| Hello.WalkExact | rust/crates/proto/src/wire.rs:230-252 | The TLV walk reads exactly the concatenations of well-formed TLVs, each in one way only |
| Hello.ReadsBounded | rust/crates/proto/src/wire.rs:230-252 | The TLV walk ends on every input: at most one read for every four bytes begun, and a successful walk makes exactly one read for each TLV it returns |
| Hello.AbsorbMerges | rust/crates/proto/src/wire.rs:330-366 | Applying the TLVs fails exactly when a MIN_VERSION or MTU_HINT has the wrong length; otherwise the last usable value of each tag wins |
| Hello.RoundTrip | rust/crates/proto/src/wire.rs:281-375 | An encoded HELLO followed by any well-formed unknown-tag TLVs decodes to the original, in either lane |
| Hello.DecodeExact | rust/crates/proto/src/wire.rs:305-375 | A decoder accepts b as h if and only if b is a head followed by well-formed TLVs that merge into h |
| Hello.LanesAgree | c/src/wire/wire.c:258-324 | On every input C accepts exactly what Rust accepts with at most 8 suites, and both decode the same HELLO if and only if Rust's has at most 8 suites, 16 vendor bytes and 64 model bytes |
| Hello.DecodeRust | rust/crates/proto/src/wire.rs:305-375 | The Rust decoder with its shrinking slice computes the specified decoding, including its first error |
| Hello.DecodeC | c/src/wire/wire.c:258-324 | The C decoder computes the specified decoding with C's capacities: 8 suites, 16 vendor bytes, 64 model bytes |
| Hello.ReadTlvC | c/src/wire/wire.c:183-200 | One C step at an offset is the specified TLV step on the remaining bytes |
| Hello.WriteTlv | c/src/wire/wire.c:164-181 | Writes one TLV or reports which limit it exceeds, leaving the offset |
| Hello.EncodeC | c/src/wire/wire.c:204-256 | Too many suites, too small a buffer, or the common encoding with empty vendor and model left out; each case exactly |
| Hello.RoundTripC | c/src/wire/wire.c:204-324 | The C codec round-trips its own structure, unknown extensions or not |
| Layouts.HelloLayout | rust/crates/proto/src/wire.rs:281-303 | Where the fields of the HELLO head lie, and that MIN_VERSION comes first |
| Layouts.TlvLayout | rust/crates/proto/src/wire.rs:205-217 | The bytes of a TLV |
| ReplayCache.RingCache.Contains | c/src/store/replay.c:30-40 | Membership in the window |
| ReplayCache.RingCache.Insert | c/src/store/replay.c:42-58 | One push of the FIFO window, in a ring of slots; refuses exactly the keys present |
| ReplayCache.SetCache.Contains | rust/crates/proto/src/store/fs.rs:416-418 | Membership in the window |
| ReplayCache.SetCache.Insert | rust/crates/proto/src/store/fs.rs:388-414 | The same push on a set beside a queue, which stay in step |
| ReplayCache.RingOverwrite | c/src/store/replay.c:50-57 | Overwriting the eviction slot and advancing it drops the oldest key and appends the new one |
| ReplayCache.RunBoth | rust/crates/proto/src/store/fs.rs:387-419 | Driven through any sequence of inserts and queries, ring and set+queue of equal capacity answer identically |
| ReplayCache.WindowHoldsLastAccepted | c/src/store/replay.c:42-58 | After any run the window is exactly the last N accepted keys, oldest first |
| ReplayCache.ReacceptanceNeedsCapOthers | c/src/store/replay.c:42-58 | A key is accepted a second time only after at least N other acceptances |
| ReplayCache.StaysInWindow | c/src/store/replay.c:42-58 | A key just accepted stays in the window until N further keys have been accepted |
| ReplayCache.ZeroCapacityAcceptsAll | rust/crates/proto/src/store/fs.rs:388-414 | With capacity zero the Rust cache accepts everything and remembers nothing |
| AuthCrypto.ClientComplete | rust/crates/proto/src/crypto.rs:261-311 | The client identity proof verifies for the key it was made with |
| AuthCrypto.ServerComplete | rust/crates/proto/src/crypto.rs:314-365 | The server identity proof verifies for the key it was made with |
| AuthCrypto.RerandComplete | rust/crates/proto/src/crypto.rs:381-443 | The rerandomization proof for C' = C + h*delta verifies |
| AuthCrypto.RerandomizeKeepsRole | rust/crates/proto/src/crypto.rs:371-379 | Rerandomizing commits to the same role under blinding + delta |
| AuthCrypto.KcFrameBinds | rust/crates/proto/src/crypto.rs:642-667 | The key-confirmation frame determines pid, both proofs, both nonces, both ephemerals and the server key |
| AuthCrypto.PidBindsKey | rust/crates/proto/src/transcript.rs:131-147 | The hashed pid input determines the device key |
| AuthCrypto.SharedAgrees | rust/crates/proto/src/crypto.rs:596-606 | Both sides compute the same Diffie-Hellman point |
| Derivations.SessionKeySeparates | rust/crates/proto/src/crypto.rs:596-622 | Change the shared secret, a nonce, the pid or an ephemeral, and some HMAC gives another session key: the key covers all of them |
| Derivations.SessionKeyFormula | rust/crates/proto/src/crypto.rs:596-622 | The session key as two HMACs, keyed by both nonces over the Diffie-Hellman point |
| Derivations.KeyIsDiffieHellman | rust/crates/proto/src/crypto.rs:596-622 | Both sides derive their key from g to the product of the two ephemeral secrets |
| Derivations.ConfirmSeparates | rust/crates/proto/src/crypto.rs:669-685 | The two finished tags differ from each other and from those of any other session key or transcript hash, under some HMAC |
| Derivations.ConfirmFormula | rust/crates/proto/src/crypto.rs:669-685 | The two tags as HMACs under their own direction keys |
| Derivations.KcHashSeparates | rust/crates/proto/src/crypto.rs:642-667 | The transcript hash covers every part of the run |
| Derivations.PidSeparates | rust/crates/proto/src/transcript.rs:131-147 | The pid covers device key, nonce, ephemeral and server key |
| Derivations.ReplayKeySeparates | rust/crates/proto/src/store/fs.rs:424-434 | Messages that differ in pid, nonce or ephemeral have different replay keys under some hash |
| Derivations.RawKeySeparates | c/src/store/replay.c:8-22 | The same for the C replay key on raw fields |
| AuthExchange.ServeAuth1 | rust/crates/proto/src/proto/auth.rs:187-322 | The handler over the mutable replay cache returns and leaves exactly what its specification says: decode, replay check, pid lookup, three proofs, reply, insert on acceptance only |
| AuthExchange.LookUp | rust/crates/proto/src/proto/auth.rs:210-222 | The scan stops at the first record whose key explains the pid |
| AuthExchange.Auth1Verdict | rust/crates/proto/src/proto/auth.rs:210-266 | Whom an AUTH_1 authenticates, exactly: the first record explaining its pid when all three proofs verify, UNKNOWN_DEVICE when no record does, and otherwise the error of the first failing proof |
| AuthExchange.Auth1Answer | rust/crates/proto/src/proto/auth.rs:196-322 | The answer to a decoded AUTH_1 with a new key is that verdict, and only acceptance touches the replay window |
| AuthExchange.ClientProofsVerify | rust/crates/proto/src/proto/auth.rs:66-92 | An enrolled device's three proofs pass all checks of the server |
| AuthExchange.ClientMessageSendable | rust/crates/proto/src/proto/auth.rs:94-103 | The honest AUTH_1 decodes to what was encoded |
| AuthExchange.HonestRun | rust/crates/proto/src/proto/auth.rs:54-338 | Honest run: the client can send its AUTH_1 if and only if at most 18 roles are allowed; then it is parsed and accepted as the enrolled device and its key remembered, the answer can be sent, AUTH_2 and AUTH_3 are accepted, session keys and transcript hashes are equal |
| AuthExchange.ClientCanSend | rust/crates/proto/src/wire.rs:157-174 | An honest AUTH_1 fits a packet if and only if at most 18 roles are allowed |
| AuthExchange.ReplyCanBeSent | rust/crates/proto/src/proto/auth.rs:301-308 | The server's AUTH_2 always fits a packet and parses back |
| AuthExchange.ReplayRefused | rust/crates/proto/src/proto/auth.rs:199-205 | An AUTH_1 whose key is in the window, for any window, registry and session, is refused as a replay and changes nothing |
| AuthExchange.ReplayRefusedForN | rust/crates/proto/src/proto/auth.rs:199-313 | An accepted AUTH_1 delivered again is refused as a replay for as long as fewer than N other keys have been accepted since |
| AuthExchange.SameTranscriptSameKey | rust/crates/proto/src/proto/auth.rs:134-159 | Equal transcript hashes of frames that do not collide mean that the two sides have seen the same pid, nonces, ephemerals, proofs and server key, and hold the same session key |
| ClientLane.Device.BuildAuth1 | c/src/proto/proto.c:186-250 | Which error in which case; on success the payload is byte for byte that of the Rust device with the same credential and draw, and the context is in that session |
| ClientLane.BuildsExactly | c/src/proto/proto.c:186-250 | AUTH_1 is built exactly for a pinned server, an allowed role, one to eight roles and arithmetic without identities |
| ClientLane.Device.HandleAuth2 | c/src/proto/proto.c:252-320 | The checks on AUTH_2 in order; key, hash and tag key are overwritten once derived, even if the final tag is wrong |
| ClientLane.Device.BuildAuth3 | c/src/proto/proto.c:322-340 | AUTH_3 carries the tag of the keys in the context, whether or not AUTH_2 was accepted |
| ClientLane.DevicesAgree | c/src/proto/proto.c:252-320 | On an AUTH_2 Rust can decode, the C device succeeds exactly when the Rust device does and the server's response and challenge are nonzero |
| ClientLane.HonestDeviceC | c/src/proto/proto.c:186-340 | A C device against a Rust server: AUTH_1 is accepted; AUTH_2 is accepted if and only if the server's response and challenge are nonzero; session keys and hashes are equal; the device's AUTH_3 is accepted |
| ClientLane.HonestScan | c/bin/server.c:142-205 | The C server accepts the honest AUTH_1 as that device if and only if none of its multiplications gives the identity, unless another scan inserted its key on the way |
| SessionTable.Table.Reserve | c/src/store/session_table.c:16-27 | Takes the lowest free slot, or reports none and changes nothing |
| SessionTable.Table.Activate | c/src/store/session_table.c:29-53 | Succeeds exactly for a reserved slot, and changes only that slot |
| SessionTable.Table.FindSetup | c/src/store/session_table.c:55-69 | The first setup slot with the session id, or -1 |
| SessionTable.Table.FindAuth | c/src/store/session_table.c:71-85 | The first auth slot with the session id, or -1 |
| SessionTable.Table.Release | c/src/store/session_table.c:87-92 | Frees exactly the named slot |
| SlotOwnership.OwnershipOverRuns | c/bin/server.c:209-310 | In every reachable state with at most one finisher per slot: activations succeed, a finisher's slot still holds its record, no two workers share a slot |
| SlotOwnership.UntouchedByOthers | c/bin/server.c:254-306 | Over any run under the one-finisher rule in which a worker takes no step, its job and the content of its slot stay as they were, whatever the others release |
| SlotOwnership.RuleIsExact | c/bin/server.c:254-306 | After a step from an owned state, every continuation under the one-finisher rule keeps every activation working if and only if that step respected the rule |
| SlotOwnership.SecondFinisherHarms | c/bin/server.c:254-306 | From every owned state, a second finisher on a slot in flight can be continued, without breaking the rule again, to a state in which some worker's activation is refused |
| SlotOwnership.StaleReleaseLosesSession | c/bin/server.c:254-306 | Without the rule, a concrete interleaving frees a slot that another worker has reserved, and its activation is refused |
| GuardedScan.VerifyEntryC | c/src/proto/proto.c:540-564 | Client proof, pid, rerandomization, role set: the first that fails determines the error, and the C identity failures count as failures |
| GuardedScan.ReplyC | c/src/proto/proto.c:566-645 | The reply path fails exactly when a multiplication by g gives the identity; otherwise pending record and AUTH_2 are those of the Rust lane |
| GuardedScan.Guarded | c/src/proto/replay_guard.c:5-58 | Contains, verify, insert as one call: the exact error, the window unchanged unless accepted, and the insert after verification never fails |
| GuardedScan.ScanExact | c/bin/server.c:161-198 | The scan accepts entry i exactly when the reply is possible, i is the first entry passing all checks, and at every visit up to it the message was well-formed and its key not in the window of that moment |
| GuardedScan.ScanEnds | c/bin/server.c:161-198 | A scan ends at the first visit whose error is neither PROOF_VERIFY nor ROLE_NOT_PERMITTED, with that error, and otherwise with the last visit's error |
| GuardedScan.OvertakenIsReplay | c/src/proto/replay_guard.c:27-33 | The scan ends at entry i as a replay if and only if the key is in that visit's window, was in none before, and no earlier entry passed |
| GuardedScan.UndisturbedWindow | c/bin/server.c:161-198 | If no other scan is accepted meanwhile, every visit sees the window the scan began with, and a refusal leaves it |
| GuardedScan.Scanner.Interfere | c/bin/server.c:161-179 | What other handlers do between two guarded calls: their keys are pushed and the registry changes |
| GuardedScan.Scanner.ScanRegistry | c/bin/server.c:161-198 | With arbitrary accepted keys and registry changes by others before every guarded call, the loop computes the scan of what it visits; a refusal leaves the window as the others left it |
| GuardedScan.Scanner.TryHandleAuth1 | c/bin/server.c:142-205 | No free slot: nothing is looked at. Refusal: the slot is free again and the window is as the others left it. Acceptance: the key is cached; the slot, if still reserved, holds the session of the visited entry, and otherwise activation is refused, the slot freed and the message lost. All this with other handlers at work on registry, window and table between the critical sections |
| GuardedScan.ReservationSurvives | c/bin/server.c:179-192 | Under the one-finisher rule a worker's reservation survives any run of the others, so an accepted message is not lost |
| LookupAgreement.EntryVerdicts | c/src/proto/proto.c:540-564 | C passes an entry exactly when Rust's pid match and proofs do and no C multiplication fails |
| LookupAgreement.EntryOkExactly | c/src/proto/proto.c:540-564 | For any raw message C passes an entry exactly when its points can be read, pid and proofs are right by the Rust verdict, and no multiplication fails |
| LookupAgreement.GuardAcceptsExactly | c/src/proto/replay_guard.c:5-58 | The guarded call accepts any payload exactly when it decodes, its key is not cached, its points are valid and its ephemeral is not the identity, pid and proofs are right, and no multiplication gives the identity |
| LookupAgreement.LookupsAgree | rust/crates/proto/src/proto/auth.rs:210-266 | With distinct pids the C scan and the Rust lookup accept the same messages and select the same device, exactly when the key was in no window visited and no C multiplication gives the identity |
| LookupAgreement.DistinctKeysDistinctPids | rust/crates/proto/src/transcript.rs:131-147 | Distinct device keys have distinct pids unless the hash collides |
| LookupAgreement.NoDoubleAcceptance | c/src/proto/replay_guard.c:23-58 | However guarded calls interleave, a key is accepted twice only with at least N other acceptances between |
| Setup.SetupComplete | rust/crates/proto/src/crypto.rs:134-257 | Both enrollment proofs of an honest setup verify |
| Setup.DecodeSetup1Exact | rust/crates/proto/src/proto/payloads.rs:77-136 | SETUP_1 decoding accepts exactly the encodings of sendable messages |
| Setup.DecodeSetup2Exact | rust/crates/proto/src/proto/payloads.rs:153-180 | SETUP_2 decoding accepts exactly the encodings of sendable messages |
| Setup.DecodeSetup3Exact | rust/crates/proto/src/proto/payloads.rs:187-202 | SETUP_3 decoding accepts exactly the encodings of proofs the wire can carry |
| Setup.Setup1AcceptedExactly | rust/crates/proto/src/proto/setup.rs:160-181 | SETUP_1 is accepted exactly for sendable messages with the configured token, if one is configured; a wrong token is refused as such |
| Setup.HonestEnrollment | rust/crates/proto/src/proto/setup.rs:32-144 | An honest enrollment goes through on both sides, and the pending record holds the client's own key and commitment |
| ServerHistory.RunsAreExplained | rust/crates/proto/src/proto/setup.rs:223-260 | Over every run: the registry is the initial one with the run's enrolments written over it, each from a SETUP_3 verified against a record that an earlier SETUP_1 with a valid token opened; each session, and each AUTH_3 acknowledged with its tag, comes from an earlier AUTH_1 whose three proofs verified against the key and commitment the device was enrolled with at that moment |
| ServerHistory.EntriesHaveOrigin | rust/crates/proto/src/proto/setup.rs:252-258 | Every registry entry a history leaves is an initial one or was enrolled in it with that very key and commitment |
| ServerHistory.AcceptedKeysAreEnrolled | rust/crates/proto/src/proto/auth.rs:210-266 | Every accepted AUTH_1 verified against a key and commitment that are initial or were enrolled, by proof, before it |
| ServerHistory.SessionBudget | rust/crates/server/src/main.rs:194-306 | Open auth sessions plus fresh AUTH_ACKs never exceed the accepted AUTH_1s |
| ServerHistory.SessionBudgetPerId | rust/crates/server/src/main.rs:249-277 | The same for every single session id |
| ServerHistory.RegistryOnlyBySetup3 | rust/crates/server/src/main.rs:211-277 | Only an enrolling SETUP_3 changes the registry; AUTH packets never do |
| ServerHistory.WindowTracksHistory | rust/crates/proto/src/proto/auth.rs:199-313 | Over every run the replay window is that of the accepted AUTH_1s, none of which was in it |
| ServerHistory.RunsRefuseReplays | rust/crates/proto/src/proto/auth.rs:199-313 | Over a whole run a replay key is accepted twice only N acceptances apart |
| ServerHistory.RetransmitIdempotent | rust/crates/server/src/main.rs:203-210 | Repeating a packet from the same peer repeats the answer and changes nothing |
| ServerHistory.CacheIsAddressed | rust/crates/server/src/main.rs:286-305 | Every cached answer carries the session id and sequence number it is filed under |
| ServerLoop.ServerState.DispatchPacket | rust/crates/server/src/main.rs:194-306 | The method over the mutable maps returns and leaves exactly what the step function says |
| ServerLoop.ServerState.Route | rust/crates/server/src/main.rs:213-284 | Each packet type is handled by its handler, with the session maps updated only on success |
| ServerLoop.ServerState.FinishSetup | rust/crates/proto/src/proto/setup.rs:223-260 | The registry is written before the flush; a failed flush keeps the setup session |
| ServerLoop.ServerState.GcIfDue | rust/crates/server/src/main.rs:317-343 | At most every five seconds; expired answers go and each session map is cut to exactly the smaller of its size and the cap, survivors unchanged |
| HonestDispatch.HonestAuth1 | rust/crates/server/src/main.rs:249-264 | From any state ready for it, the honest AUTH_1 datagram is answered by the dispatcher with an AUTH_2 in its own session that the client accepts, and the session is open |
| HonestDispatch.HonestAuth3 | rust/crates/server/src/main.rs:266-278 | In any later state with the session open, the client's AUTH_3 is acknowledged and the session closed |
| HonestDispatch.HonestSetup1 | rust/crates/server/src/main.rs:213-226 | From any state the honest SETUP_1 is answered with a SETUP_2 the client accepts, and its record is pending |
| HonestDispatch.HonestSetup3 | rust/crates/server/src/main.rs:228-247 | In any later state with the record pending, SETUP_3 is acknowledged and the registry holds the device's own key and commitment |
| HonestDispatch.EnrollThenAuthenticate | rust/crates/server/src/main.rs:194-306 | From an empty server, four honest datagrams enroll and authenticate a device: every answer is accepted, and both sides end with one session key |
| HonestDispatch.CacheIsPerPeer | rust/crates/server/src/main.rs:203-210 | A peer never gets an answer cached for another: its packet is handled afresh |
| LineageAuthorization.AuthorizedExactly | rust/crates/proto/src/lineage_replace_bound_auth_context.rs:64-106 | The chain of classifiers authorizes exactly when both possession proofs carry the authenticated session id, the session is bound, the attribution is for this context, peer and predecessor, and only the one scope is requested |
| LineageAuthorization.RefusalIsFirstClosed | rust/crates/proto/src/lineage_replace.rs:39-65 | The reported refusal is that of the first closed gate, each gate stated by itself; missing evidence or expectation comes first |
| LineageAuthorization.DecisionIsFirstClosed | rust/crates/proto/src/lineage_replace.rs:125-154 | The lifecycle decision is the refusal of the first closed gate, or acceptance when all nine are open |
| LineageAuthorization.BindingIsFirstMismatch | rust/crates/proto/src/lineage_replace_session_binding.rs:26-55 | The session binding is refused for the first mismatch, and bound when there is none |
| LineageAuthorization.AuthorityIsDerived | rust/crates/proto/src/lineage_replace.rs:125-164 | The caller's authority bit has no influence: acceptance is authorization plus clear lifecycle facts |
| VerifiedCommit.ExecuteTransaction | rust/crates/proto/src/lineage_replace_storage_transaction.rs:40-69 | For every adapter in every state: an incomplete plan invokes nothing; otherwise the invoked steps are the fixed order up to the first that reports failure, and the result names that step |
| VerifiedCommit.CutTable | rust/crates/proto/src/lineage_replace_faults.rs:20-71 | The record with exactly the first n steps durable is the write-cut table's |
| VerifiedCommit.RecoveryForAnyAdapter | rust/crates/proto/src/lineage_replace_recovery.rs:21-45 | For every adapter, honest or not, after every number of invocations: recovery reports the successor iff steps 2 to 4 are durable and the marker was never kept or cleared again, the predecessor iff none of steps 2 to 4 is and the same holds of the marker |
| VerifiedCommit.RecoverySoundExactly | rust/crates/proto/src/lineage_replace_recovery.rs:21-45 | Recovery reports the successor only with all five steps durable and the predecessor only with none, if and only if neither were steps 2 to 4 kept without the marker nor the marker cleared with none of them kept |
| VerifiedCommit.HonestRecovery | rust/crates/proto/src/lineage_replace_recovery.rs:21-45 | When reported success means durable, at any moment of a transaction: the durable steps are a prefix of the order, the record is the write-cut table's, and recovery is the successor exactly for all five, the predecessor exactly for none, even if a step reported as failed became durable |
| VerifiedCommit.ExecuteVerifiedCommit | rust/crates/proto/src/lineage_replace_verified_commit.rs:39-112 | For every adapter in every state: it is invoked exactly when every gate accepts, in the fixed order up to the first failure; each phase of the result is characterised |

## Left out

- Sockets, framing loops over TCP, argument parsing, threads, file formats and permissions of the stores.
- The internals of the hashes, of ristretto255, of random number generation, zeroization and constant-time comparison.
- Byte-level validation: a C scalar field is read as its residue modulo q. libsodium masks the top bit in multiplications only, so for non-canonical scalars, which Rust refuses and C does not check, the C lane may behave differently.
- Buffers of the C handlers that always suffice: the payload, packet and response buffers of `proto.c` are taken to be large enough. Lengths are unbounded integers, as with a 64-bit `size_t`.
- GuardedScan.Scanner.TryHandleAuth1: other handlers act between the critical sections, not inside them.
- ServerRuns: an error answer is the error code with session id and sequence number; its text and the number of the code are not modelled. The server key is taken to exist.
- ServerRuns.Collect: any choice of surviving sessions is allowed in a run; how many survive is stated by `ServerLoop.ServerState.GcIfDue`.
- ClientLane.Device.HandleAuth2: starts from the payload; the packet type and session id checks before it are not modelled, nor are AUTH_ACK and the setup half of the C device.
- AuthExchange.ReplayRefusedForN: says nothing about a server whose replay capacity is zero, which remembers nothing (`ReplayCache.ZeroCapacityAcceptsAll`).
- FiatShamir.ChallengesSeparate: says that every transcript binds its fields; the labels under which they are appended, and their order, are given by the definitions.
- Version, suite and capability negotiation, the error-code table, the SETUP codecs and handlers of the C lane, and the derivations from the device root.
- The AUTH v3 key schedule and completion tags beyond the transcript they hash.
- The stand-alone LINEAGE_REPLACE classifiers (convergence, attempt, storage capability, reconciliation, freshness, replay continuity): finite tables with no caller in the modelled code.
- VerifiedCommit.RecoveryForAnyAdapter: starts from a clean predecessor record, and a storage step is durable as a whole or not at all.
