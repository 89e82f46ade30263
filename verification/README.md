# SP1 TEE integrity proofs: a verified model

An SP1 program is executed inside a Nitro enclave, which signs the program's verifying key and its public values.
A contract accepts an SP1 proof only inside an envelope that carries such a signature by a registered signer, and a
setup program registers the addresses of enclaves from their attestation documents. This project models that chain
of trust, from the bytes on the wire to the contract, and proves what it is for: an accepted proof is backed by an
execution inside a measured enclave, and a signed output of a registered enclave is accepted.

`dafny verify dfyconfig.toml` checks everything (Dafny 4.11).

## Files

| file | subject |
|---|---|
| ByteStrings.dfy, Addresses.dfy, Crypto.dfy | bytes, addresses, the signed message, key-to-address derivation |
| SignersMap.dfy, TeeVerifier.dfy | the contract's storage: iterable signer map, ownership, event log |
| Envelope.dfy, Gateway.dfy | the proof envelope, and verification through the recursive gateway |
| Framing.dfy, HostStream.dfy, Session.dfy | length-prefixed messages over a byte stream that may break; the host's stream and its last message; the enclave's loop over one session |
| Enclave.dfy, EnclaveRuns.dfy, Progress.dfy | the enclave server as a machine of interleaved steps; its runs; how it comes to rest |
| Host.dfy, HostRuns.dfy | a host with its mutex, its saving task and futures that may be dropped; its runs |
| HostMutex.dfy, HostProgress.dfy, HostSessions.dfy | when the mutex keeps execution requests apart; how a host finishes them; how sessions end |
| Hex.dfy, Utf8.dfy, Attestations.dfy, Setup.dfy | checking attestations, validating a contract's signers, registering signers |
| Freshness.dfy | how often the stored attestation is renewed |
| EndToEnd.dfy | enclaves, registration and contract composed: safety and completeness over every run, and a run that succeeds |
| Fleet.dfy | the deployed system, with hosts and the bucket: it simulates the world of EndToEnd.dfy, and serves its callers |

## Assumptions

Hashing, signing, recovery, the prover and the validation of attestation documents are function parameters
(`CryptoModel.Crypto`, `Enclaves.Platform`), about which nothing is assumed except where a lemma says so:

- Hashing. No injectivity is assumed, which no hash with 32-byte outputs could meet. `DigestBinds` names the colliding
  pair instead, and the safety theorems ask that the message at hand collides with none that an enclave signed
  (`EndToEnd.NoCollision`).
- Signatures. `EndToEnd.NotForged` asks, of the one signature presented, that what recovers to an enclave's address
  was signed by that enclave. Signatures need not be unique for a message. Completeness asks that signing and
  recovering fit together (`EndToEnd.SignaturesRecover`).
- Attestation. `EndToEnd.Authentic`: a trusted document with the measured PCR0 was issued to a booted enclave with that
  PCR0. Documents with any other PCR0 may say anything.
- Bucket. Anyone may write any object under any address, as long as the attestation is `Authentic`.
- Serialization. `Framing.RoundTrips`: what deserializes after serializing is the same message.
- Keys. Booting enclaves have different addresses (`EndToEnd.FreshKey`). Transactions are not sent by address zero
  (`TeeVerifiers.RenouncedIsFinal` only).

## Where the code falls short of its intent

Each is proved, with the exact condition under which the intent is met.

- The envelope reserves a byte for the length of the version, but `70 + version_len` is checked `uint8` arithmetic, so
  versions of 186 to 255 bytes always revert. The printer truncates the length of a longer one to a byte, so that its
  envelope is not parsed as printed either (`Envelopes.ParseOfPrintedIff`, `Envelopes.ParsesIff`).
- The comment at host/bin/server.rs:160 says that the host runs one program at a time. Its mutex keeps the execution
  requests of a run apart exactly when none is sent, to a handler that can receive it, while an earlier one, whose
  future was dropped or failed between sending and receiving, is still in flight. That holds in two readings, where a
  request is in flight until its program has run, or until it is answered; in both, one whose handler has ended is not
  (`HostMutexes.RequestsKeptApartIff`, `HostMutexes.SendOverlapsIff`). One dropped future is enough
  (`HostMutexes.MutexDefeatedByOneDrop`). The enclave's own guard needs no such condition
  (`EnclaveRuns.MutualExclusion`).
- Setup and the validator compare PCR0 differently: an upper-case argument passes setup only, an argument with `0x`
  passes the validator only (`HexText.ChecksAgreeIff`, `HexText.ChecksDisagree`).
- The validator means to skip signers of other versions, but builds an error message for which the four version bytes
  must be UTF-8. A signer of version 128 makes it panic (`Attestations.OtherVersionSkippedIff`,
  `Attestations.ToleratedIff`, `Attestations.PanicIff`).
- Recovery ids 2 and 3 become 29 and 30, which the contract rejects (`Fleets.CallersProofVerifiesIff`,
  `EndToEnd.RepliedOutputVerifiesIff`).
- Registration is safe exactly when it is off, or when every trusted document that setup lets through has the measured
  PCR0 (`EndToEnd.RegistrationIsSafeIff`). Once a trusted document of foreign code exists, it is not safe without
  `--pcr0`, and not with an argument that decodes to the foreign PCR0; it is with one that decodes to the measured PCR0
  (`EndToEnd.RegistrationNeedsPcr0`).
- A document expires three hours after the enclave issued it, which can be at the start of the attempt that stores it.
  With at most F failures in a row and attempts of at most D, every stored attestation is replaced in time exactly when
  max(30 min, D) + F(D + 5 s) + D is at most three hours (`Freshness.FreshIff`).

## Model

| member | source | states |
|---|---|---|
| ByteStrings.BigEndianRoundTrip | common/src/communication.rs:42-57 | the length that the header carries is read back, for every length that fits |
| ByteStrings.LittleEndianInjective | host/src/attestations.rs:283-289 | comparing version bytes compares versions |
| ByteStrings.LittleEndianDigits | enclave/src/server.rs:293 | byte i of the version bytes is the digit of weight 256^i, for every version |
| ByteStrings.BigEndianDigits | common/src/communication.rs:42 | the mirrored order for the length header |
| ByteStrings.FourBytes | host/src/attestations.rs:289 | both in figures, for four bytes |
| Addresses.DistinctAddressesFit | contracts/src/SignersMap.sol:25-31 | by pigeonhole a list without repetition holds at most 2^160 signers, so pushes and `uint256` indices cannot overflow |
| SignersMaps.SignersMap.AddSigner | contracts/src/SignersMap.sol:19-32 | appends the signer and keeps list, membership map and index map in step; reverts exactly for a present signer and then changes nothing |
| SignersMaps.SignersMap.RemoveSigner | contracts/src/SignersMap.sol:34-65 | swap-and-pop removal keeps the three fields in step with no failing access or subtraction; reverts exactly for an absent signer |
| SignersMaps.SignersMap.IsSigner | contracts/src/SignersMap.sol:67-69 | the membership map answers membership of the listed set |
| SignersMaps.SignersMap.GetSigners | contracts/src/SignersMap.sol:71-73 | the list, without repetition |
| SignersMaps.SwapRemoveEffect | contracts/src/SignersMap.sol:48-64 | one removal takes away exactly one signer and moves at most one other, the last, into its place |
| SignersMaps.RefinesSet | contracts/src/SignersMap.sol:19-65 | addition and removal act on the set of signers, and succeed exactly when they change it |
| SignersMaps.RemoveUndoesAdd | contracts/src/SignersMap.sol:19-65 | removing a signer just added restores the exact list |
| SignersMaps.AddUndoesRemoveOnlyAtTheEnd | contracts/src/SignersMap.sol:34-65 | adding back a removed signer restores the list exactly when it was the last one |
| SignersMaps.RemovalInAnyOrder | contracts/test/IterableMap.t.sol:70-84 | removing distinct signers in any order succeeds exactly when all are present, and leaves exactly the others |
| SignersMaps.DrainAnyPermutation | contracts/test/IterableMap.t.sol:80-86 | removing any permutation of a snapshot never reverts and ends with the empty list |
| TeeVerifiers.TeeVerifier.Deploy | contracts/src/SimpleOwnable.sol:17-25 | deployment reverts for a zero owner, and otherwise starts with that owner, no signers and the one event from zero to it |
| TeeVerifiers.TeeVerifier.AddSigner | contracts/src/SP1TeeVerifier.sol:58-65 | the whole state after the call, event included, or the unchanged state with the first reason to revert |
| TeeVerifiers.TeeVerifier.RemoveSigner | contracts/src/SP1TeeVerifier.sol:70-74 | the same for removal |
| TeeVerifiers.TeeVerifier.TransferOwnership | contracts/src/SimpleOwnable.sol:39-49 | the same for a transfer, which a zero new owner reverts |
| TeeVerifiers.TeeVerifier.RenounceOwnership | contracts/src/SimpleOwnable.sol:54-60 | the same for renouncing |
| TeeVerifiers.TransactionSucceedsIff | contracts/src/SP1TeeVerifier.sol:58-74 | when a transaction succeeds, exactly; a revert is the same as no change at all |
| TeeVerifiers.TransactionEffect | contracts/src/SP1TeeVerifier.sol:58-74 | owner, signers in their order, and event after each successful call, transfer and renouncing included |
| TeeVerifiers.RevertReasons | contracts/src/SP1TeeVerifier.sol:58-74 | which message each failing call reverts with, exactly |
| TeeVerifiers.TransactionKeepsConsistency | contracts/src/SP1TeeVerifier.sol:58-74 | every transaction keeps the state in agreement with its event log |
| TeeVerifiers.EveryRunIsConsistent | contracts/src/SP1TeeVerifier.sol:49-74 | in every run replaying the log gives the signer set and the owner, each address's events alternate starting with an addition, zero is never a signer, and the list fits |
| TeeVerifiers.RenouncedIsFinal | contracts/src/SimpleOwnable.sol:28-60 | once ownership is renounced no sequence of transactions changes the contract |
| TeeVerifiers.RenouncingIsFinal | contracts/src/SimpleOwnable.sol:54-60 | renouncing gives up ownership, keeps the signers, and no later sequence of transactions changes anything |
| CryptoModel.SameMessage | enclave/src/server.rs:286-304 | enclave and contract hash the same 96 bytes for the same version, key and public values |
| CryptoModel.DigestBinds | contracts/src/SP1TeeVerifier.sol:129-134 | equal digests have equal version, key and public values, or exhibit a hash collision, although two of the parts vary in length |
| CryptoModel.DerivationsAgree | host/src/lib.rs:68-98 | both address derivations agree on encoded points, and exactly uncompressed points have an address |
| CryptoModel.AddressIff | host/src/lib.rs:76-98 | the address is the number of the last 20 bytes of the hash of the 64 bytes after the tag 4, and nothing else has one |
| CryptoModel.MessageLayout | contracts/src/SP1TeeVerifier.sol:129-134 | for versions of any length the message is the hash of 96 bytes: version hash, key, hash of the public values |
| Envelopes.ParseOfPrintedIff | contracts/test/Verifier.t.sol:90-108 | parsing a printed envelope gives back its parts exactly when the version has at most 185 bytes |
| Envelopes.PrintOfParsed | contracts/src/SP1TeeVerifier.sol:109-127 | printing what was parsed gives back the bytes, so the decomposition is unique |
| Envelopes.ParsesIffPrinted | contracts/src/SP1TeeVerifier.sol:109-127 | the byte strings that parse are exactly the printed envelopes with a short enough version |
| Envelopes.ParsesIff | contracts/src/SP1TeeVerifier.sol:109-127 | decoding succeeds exactly for 70 bytes, the right selector, a length byte of at most 185 and enough bytes; a larger length byte is an arithmetic panic |
| Gateways.VerifyProofIff | contracts/src/SP1TeeVerifier.sol:108-156 | the verifier accepts exactly a printed envelope signed by a registered signer over this key and these public values, around what the gateway accepts |
| Gateways.DecodingErrors | contracts/src/SP1TeeVerifier.sol:93-127 | from the raw hash and the raw bytes, each decoding error in the order of the checks; the selector is the first four bytes of the hash of the verifier's name |
| Gateways.VerifiesDecoded | contracts/src/SP1TeeVerifier.sol:120-155 | for bytes that decode, the verdict in terms of their positions, the three hashes, the recovered signer and the rest of the bytes |
| Gateways.RejectionReasons | contracts/src/SP1TeeVerifier.sol:136-155 | a bad recovery id is reported before the signer, an unregistered signer is reported by address, and a signed layer leaves the verdict to the gateway |
| Gateways.AcceptedIffLayered | contracts/test/Verifier.t.sol:37-51 | through any recursion of the gateway, a proof is accepted exactly when it is an accepted base proof inside envelopes that are all signed over the same key and public values |
| Gateways.LayeringIsUnique | contracts/src/SP1TeeVerifier.sol:108-156 | the layers of an accepted proof are determined by its bytes, and each takes at least 70 of them |
| Framing.VsockStream.Send | common/src/communication.rs:35-48 | writes one frame, or nothing when the message does not serialize or its length does not fit 32 bits, or the part of the frame that gets through before the connection breaks; each with its error |
| Framing.VsockStream.ReadExact | common/src/communication.rs:54-63 | fills the buffer from however many pieces arrive, and fails exactly when the stream ends too early |
| Framing.VsockStream.Recv | common/src/communication.rs:50-67 | takes the first whole message and leaves exactly the bytes after it; an error for an early end, and another for a message that does not deserialize |
| Framing.MessagesOfFrames | common/src/communication.rs:35-67 | received messages are the sent ones in order, whatever follows them |
| Framing.FrameBytes | common/src/communication.rs:42-45 | the bytes of a frame, in figures |
| Framing.UnframeIff | common/src/communication.rs:50-63 | a stream begins with a message exactly when it begins with its frame |
| Framing.DecodedPrefix | common/src/communication.rs:66 | what is received is the longest start of the messages that deserialize |
| Framing.FramesUnambiguous | common/src/communication.rs:35-67 | no sequence of messages reads as another, nor as the start of a different one |
| Framing.TruncationYieldsStrictPrefix | common/src/communication.rs:50-67 | a stream cut anywhere yields a strict prefix of whole messages |
| Framing.DeliveredAsSent | common/src/communication.rs:35-67 | sent messages are delivered as sent for every cutting of the stream into pieces, also when a last frame broke off |
| HostStreams.HostStream.Send | host/src/server/stream.rs:21-27 | the bytes on the wire are whole frames of the requests sent so far and at most one broken-off frame; a request succeeds exactly when it has a frame and that gets through |
| HostStreams.HostStream.Recv | host/src/server/stream.rs:30-36 | receives the next reply, leaves the bytes after it, and keeps the stream open |
| HostStreams.HostStream.Drop | host/src/server/stream.rs:39-52 | dropping takes the stream and sends `CloseSession` as the last request, if it still gets through |
| Sessions.HandleMessage | enclave/src/server.rs:122-204 | any message but `CloseSession` is answered with one frame, and a failed send is a panic |
| Sessions.HandleConnection | enclave/src/server.rs:99-115 | the loop answers the received requests in order up to the first `CloseSession`, and closes exactly when it comes to that; it stops early only at an answer without a frame or at a broken connection |
| Sessions.DroppedSessionIsRead | host/src/server/stream.rs:39-52 | from the bytes of a dropped stream, in any pieces, the enclave receives its requests in order and then `CloseSession` |
| Sessions.DroppedSessionIsServed | enclave/src/server.rs:99-204 | and it closes after one response per request, which is what the host reads, when all answers have frames that get through |
| Sessions.LoopFollowsMachine | enclave/src/server.rs:99-204 | for any connection of any reachable enclave, the loop on the bytes of its requests receives just these, and handed the same answers it carries the replies of the connection in order, and no others where the handler has closed |
| HexText.DecodeOfEncoded | host/src/attestations.rs:274 | decoding encoded bytes gives them back, and the encoding is lower case |
| HexText.DecodesIffHex | host/bin/setup.rs:208 | text decodes exactly when it is hexadecimal of even length, and encoding gives it back exactly when it is lower case |
| HexText.EncodedDigits | host/src/attestations.rs:274 | which two digits of the lower-case alphabet each byte becomes |
| HexText.DecodingIgnoresCase | host/bin/setup.rs:208 | encoding what any hexadecimal text decodes to gives that text with each upper-case digit lowered |
| HexText.PrefixesGoAnywhere | host/src/attestations.rs:275 | every `0x` is dropped, at the start or inside |
| HexText.OtherTextStays | host/src/attestations.rs:275 | text without `0x` stays as it is |
| HexText.ChecksAgreeIff | host/src/attestations.rs:273-280 | the two PCR0 checks accept the same documents exactly for plain lower-case arguments and for those that are hexadecimal for neither |
| HexText.ChecksDisagree | host/bin/setup.rs:207-217 | every prefixed argument passes the validator only, and every argument with an upper-case digit passes setup only |
| Attestations.ValidIff | host/src/attestations.rs:247-313 | a signer validates exactly when the stored document is trusted and binds it to the PCR0 and the version |
| Attestations.NeverValidOtherwise | host/src/attestations.rs:273-280 | an argument that does not spell lower-case hexadecimal validates no signer |
| Attestations.PanicIff | host/src/attestations.rs:270-295 | for all inputs, checking a stored document panics exactly without a PCR0, or when it is measured but of another version that is not UTF-8 |
| Attestations.ToleratedIff | host/bin/validate_signers.rs:70-92 | validation goes on after a signer exactly when its document binds it, or is measured and of another version that is UTF-8 |
| Attestations.ErrorsIff | host/src/attestations.rs:247-313 | for all inputs, what each reported error and its arguments say about the stored document |
| Utf8.Utf8Iff | host/src/attestations.rs:293 | the check for UTF-8 accepts exactly the encodings of sequences of Unicode scalar values |
| Attestations.WalkSigners | host/bin/validate_signers.rs:70-92 | the walk sorts all signers into valid and skipped, or panics at the first that is neither |
| Attestations.ValidateContract | host/bin/validate_signers.rs:57-93 | validation ends without a panic exactly when every signer is valid or of another version, and reports exactly the valid ones as such |
| Attestations.OtherVersionSkippedIff | host/src/attestations.rs:282-295 | a signer of another version is skipped exactly when that version's bytes are UTF-8; below 128 they are, at 128 the validator panics |
| Attestations.ListingIsExact | host/bin/server.rs:77-94 | a listing holds exactly the addresses of the trusted documents of the host's version |
| Attestations.ListingSucceedsIff | host/bin/server.rs:77-94 | the listing succeeds exactly when no trusted document lacks the fields that it insists on |
| Attestations.ListingOfParts | host/bin/server.rs:77-94 | the listing keeps the order of the attestations, and the first that fails decides the outcome |
| Attestations.ListingOfOne | host/bin/server.rs:77-94 | a single attestation is listed, left out or a panic exactly by its fields |
| Setup.RegisterSigners | host/bin/setup.rs:187-259 | the loop on the contract object computes the specified final state and result, panics included |
| Setup.IterationMeaning | host/bin/setup.rs:194-258 | one iteration passes exactly for an untrusted document or a verifying one whose address may be registered, and then registers just that |
| Setup.PanicReasons | host/bin/setup.rs:207-232 | what each panic says about the argument and the document, in the order of the checks |
| Setup.SetupMeaning | host/bin/setup.rs:187-259 | the signers end up as the old ones plus the verified addresses before the first item that does not pass; the run completes exactly when there is none; "Signer already exists" never occurs |
| Setup.SetupIsIdempotent | host/bin/setup.rs:234-243 | a second run completes and changes neither signers nor log |
| Setup.ListedSignersGetRegistered | host/bin/server.rs:77-94 | every signer that the host lists is registered after a completed run |
| Setup.ValidatorConfirmsSetup | host/src/attestations.rs:247-313 | under one lower-case PCR0 the validator accepts exactly what setup accepts, provided the version matches |
| Enclaves.StepExtends | enclave/src/server.rs:33-48 | no step changes the key, the version or the PCR0, loses a record, or touches another connection |
| Enclaves.StepKeepsInv | enclave/src/server.rs:122-323 | every step of every connection keeps queues, handlers, guard and records in agreement |
| Enclaves.RunKeepsInv | enclave/src/server.rs:67-115 | so does every run |
| EnclaveRuns.MutualExclusion | enclave/src/server.rs:261-270 | in every reachable state at most one execution is in the guarded section, and the guard is taken only by it |
| EnclaveRuns.GuardIsAlwaysReleased | enclave/src/server.rs:169-184 | finishing and panicking are always possible and both release the guard to any waiting execution |
| EnclaveRuns.HandlersAreNeverStuck | enclave/src/server.rs:99-204 | a handler with something to do can take a step, unless it waits for an execution that can finish |
| EnclaveRuns.PanicBecomesOneError | enclave/src/server.rs:169-184 | a panicking execution becomes one error reply to its own request and the connection goes on |
| EnclaveRuns.OverLimitNeverRuns | enclave/src/server.rs:261-270 | an execution over 2^32 - 1 cycles is answered with the error for that and never waits for or holds the guard |
| EnclaveRuns.SessionCorrespondence | enclave/src/server.rs:99-204 | under every interleaving the k-th reply answers the k-th request, with an error to an execution only for its own reason, replies never outnumber requests, and nothing from `CloseSession` on is answered |
| EnclaveRuns.OneKeyForAll | enclave/src/server.rs:186-238 | every public key, attestation and signature replied in a run belongs to the key that the enclave booted with |
| EnclaveRuns.ExecutionIsAnswered | enclave/src/server.rs:261-322 | an execution within the limit whose program has an output is answered with exactly the signed output, and recorded |
| EnclaveRuns.AttestationIsAnswered | enclave/src/server.rs:226-256 | a request for an attestation is answered with the issued document, and recorded |
| Progress.RunsAreBounded | enclave/src/server.rs:99-204 | without new connections and requests the server takes at most as many steps as the work that is there, failures included |
| Progress.AtRestIff | enclave/src/server.rs:99-204 | it can do nothing more exactly when the guard is free and every handler has ended or has answered all its requests |
| Progress.EverythingCanBeAnswered | enclave/src/server.rs:169-184 | from any reachable state it can come to rest with no further crash and every request on an open session answered |
| Hosts.HostStepKeepsInv | host/bin/server.rs:216-303 | every step of a host, drops and failures included, keeps mutex, conversations and stored objects in order |
| Hosts.HostRunKeepsInv | host/bin/server.rs:216-303 | so does every run |
| HostSessions.SessionEndsIff | host/src/server/stream.rs:39-52 | in every reachable state a session has ended, with one `CloseSession` as its last request, exactly when no task works on it any more |
| HostRuns.StoredUnderTheAttestedAddress | host/src/attestations.rs:109-141 | every stored object attests the enclave's key under the address of that key, and the address that the host tells its callers agrees |
| HostRuns.CallersGetTheirOwnResult | host/bin/server.rs:273-287 | a successful caller gets the signed output of its own program and input, with 27 added to the recovery id |
| HostRuns.CallersLearnWhy | host/bin/server.rs:288-301 | a caller without a result has the enclave's own reason for its own program, or an error of the connection; an unexpected response never occurs |
| HostRuns.ReplyReachesCaller | host/bin/server.rs:273-301 | what every possible response makes of the request that reads it |
| HostRuns.GivingUpReachesCaller | host/bin/server.rs:222-263 | what a failure and a drop leave of task, mutex and abandoned connections |
| HostMutexes.OneRequestAtATime | host/bin/server.rs:220-263 | in every reachable state all but at most one unanswered execution request were given up, so at most one is unanswered in a run that gives none up |
| HostMutexes.SendOverlapsIff | host/bin/server.rs:220-246 | sending an execution request to a handler that has not ended puts two in flight exactly when one that was given up is still in flight; sending one to an ended handler puts none in flight; each for both readings of being in flight |
| HostMutexes.RequestsKeptApartIff | host/bin/server.rs:158-263 | a run keeps execution requests apart in all its states exactly when it sends none, to a handler that has not ended, while one that was given up is in flight; for both readings |
| HostMutexes.FreeMutexOverlapsIff | host/bin/server.rs:220-246 | in particular for a new request that finds the mutex free |
| HostMutexes.MutexDefeatedByOneDrop | host/bin/server.rs:158-222 | after dropping one future two execution requests are in flight at once, in both readings, for any two jobs |
| HostMutexes.OneExecutionAtATime | enclave/src/server.rs:39-45 | whatever is dropped, one execution at a time runs |
| HostRuns.SaveCanStore | host/src/attestations.rs:95-144 | from any state a new save can store any attestation issued to the enclave under its address, and leaves everything else as it was |
| HostRuns.AddressCanBeAnswered | host/bin/server.rs:99-156 | from any state a request for the address can be answered with the enclave's, and leaves everything else as it was |
| HostRuns.FailureCanReturn | host/bin/server.rs:288-293 | the caller of a program over the limit or without an output can be told that reason |
| HostRuns.ExecutionCanReturn | host/bin/server.rs:216-287 | while mutex and guard are free, a new request can return the signed output of its program, whatever else is going on, and leaves everything else as it was |
| HostProgress.EveryExecutionCanFinish | host/bin/server.rs:216-303 | from every reachable state, without drops, every execution request that waits for the mutex, holds it or waits for its reply can finish with an answer to its own job, unless its handler had crashed; mutex and guard are free then, and other tasks unchanged |
| Freshness.AttestationTask | host/src/server.rs:289-317 | the loop computes the specified save times for any sequence of attempts |
| Freshness.FirstSave | host/src/server.rs:292-309 | the first save begins five seconds after the start, and five after each failure before it |
| Freshness.TicksAreRegular | host/src/server.rs:300-314 | the ticks are half an hour apart however late one is, and no attempt begins before the last save and its tick |
| Freshness.TaskStaysClose | host/src/server.rs:292-314 | consecutive saves are at most 30 minutes, the failed attempts with their pauses and one success apart; from the start of an attempt to the replacement of its document it is the same with the longest attempt in place of the 30 minutes when that is more |
| Freshness.SlowestSchedule | host/src/server.rs:292-314 | the bound between saves is reached |
| Freshness.OldestAttestation | host/src/server.rs:292-314 | the bound from the start of an attempt is reached by attempts longer than 30 minutes too |
| Freshness.FreshIff | host/src/attestations.rs:18-19 | with at most F failures in a row and attempts of at most D, every schedule replaces each attestation within three hours of its creation, as early as that can be, exactly when max(30 min, D) + F(D + 5 s) + D is at most three hours |
| EndToEnd.RegistrationKeepsInv | host/bin/setup.rs:207-244 | registration adds only addresses of enclaves with the PCR0, if setup lets only documents with it through |
| EndToEnd.RunKeepsWorldInv | host/bin/setup.rs:187-259 | so every signer in every run is the address of such an enclave |
| EndToEnd.SignedLayerIsJustified | enclave/src/server.rs:261-320 | a layer signed by a registered signer is backed by an execution in an enclave with the PCR0 |
| EndToEnd.AcceptedProofsAreJustified | contracts/src/SP1TeeVerifier.sol:108-156 | safety: an accepted proof means that an enclave with the PCR0 completed an execution with this key, exactly these public values and a cycle limit of at most 2^32 - 1, and the version is that enclave's |
| EndToEnd.EveryLayerIsJustified | contracts/src/SP1TeeVerifier.sol:155 | the same for every layer of a nested proof |
| EndToEnd.RepliedOutputVerifiesIff | host/bin/server.rs:280-286 | completeness: a replied output in its envelope is accepted exactly for recovery ids 0 and 1, a registered address and an accepted inner proof |
| EndToEnd.StoredAttestationsGetRegistered | host/src/attestations.rs:126-141 | what a host stores passes setup and validator under its PCR0, so a completed registration makes the enclave a signer |
| EndToEnd.ChainCanSucceed | contracts/src/SP1TeeVerifier.sol:108-156 | for any program, output, key and attestation there is a run from deployment to a registered enclave whose output the contract accepts |
| EndToEnd.ForeignSignerGetsIn | host/bin/setup.rs:206-244 | a foreign document that setup lets through makes its address a signer in some run |
| EndToEnd.RegistrationIsSafeIff | host/bin/setup.rs:206-244 | every run registers only enclaves with the PCR0 exactly when registration is off or setup lets only documents with that PCR0 through |
| EndToEnd.RegistrationNeedsPcr0 | host/bin/setup.rs:206-217 | once there is a trusted document of foreign code: unsafe without `--pcr0`, safe with the measured PCR0 or an argument that does not decode, unsafe with the foreign PCR0 |
| Fleets.FleetSimulatesWorld | host/src/attestations.rs:95-144 | every run of hosts, bucket, setup and contract is a run of enclaves and contract; hosts stay in order and no stored object fakes the measured code |
| Fleets.BucketHoldsLatest | host/src/attestations.rs:132-141 | the bucket has under each address what was put there last |
| Fleets.FleetProofsAreJustified | contracts/src/SP1TeeVerifier.sol:108-156 | safety for the deployed system: an accepted proof is backed by an execution at some site |
| Fleets.CallersProofVerifiesIff | host/bin/server.rs:273-287 | completeness for callers: the proof built from a returned response is accepted exactly for recovery ids 0 and 1, a registered enclave and an accepted inner proof |
| Fleets.FleetCanDeliver | host/bin/server.rs:216-287 | from any reachable state, busy or not, a site can execute, answer, be attested, stored in the bucket and registered, so that the contract accepts the caller's proof; other sites and signers stay, and executions from before get their own answers |
| Fleets.FirstSiteCanDeliver | contracts/src/SP1TeeVerifier.sol:58-65 | the same from deployment, after the first site has booted |

## Left out

- The hash, ECDSA, `ecrecover`, COSE and X.509 validation, the NSM driver, and the SP1 setup and executor are parameters; the expiry of a document's certificates over time is not part of `validate`.
- bincode, serde, SSE and the hexadecimal event encoding: serialization and deserialization are parameters of the streams.
- In Enclave.dfy the handler's end on a bad or missing message is one step, `RecvFails`, and on a failed answer another, `ReplyFails`; Session.dfy says which bytes lead there.
- Host futures dropped in the middle of writing a frame; drops happen between whole messages.
- The enclave and host servers are machines over values, not classes, since their subject is the interleaving of many connections; the streams below them and the contract are classes.
- The close request of a dropped stream is queued at once, while the code sends it from another spawned job; nothing else is sent on that connection in between.
- The gateway contract is not part of the repository; it is a map from selectors to base verifiers and the TEE verifier, without route administration or frozen routes.
- `validate_signers` for one signer, the printed messages, and the whitelist client.
- The `debug-mode` build, whose print branch does not await its reply (enclave/src/server.rs:128-133).
- S3 is the sequence of all objects written to it, and the bucket what that leaves under each address; listing it page by page and keys that are not addresses are left out.
- Deployment, AWS configuration, HTTP routing, scripts and the unused C binding under enclave/src/ffi.
- Gas, and transactions that are mined but reverted after being sent successfully; setup is alone with the contract in Setup.dfy, and interleaved with everything else in EndToEnd.dfy.
