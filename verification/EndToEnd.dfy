/**
 * The whole chain of trust: enclaves under arbitrary hosts, the registration of their addresses, and the contract.
 * What a verified proof says about an execution inside an enclave, and the converse.
 */
module EndToEnd {
  import opened ByteStrings
  import opened Addresses
  import opened SignersMaps
  import opened TeeVerifiers
  import opened CryptoModel
  import opened HexText
  import opened Attestations
  import Setup
  import opened Enclaves
  import EnclaveRuns
  import opened Hosts
  import HostRuns
  import opened Envelopes
  import opened Gateways

  /** The measured enclaves that ever booted, and the contract. */
  datatype World = World(enclaves: map<nat, Enclave>, contract: Contract)

  /** `RegistrationStep` is one iteration of the setup program's loop, with other steps in between. */
  datatype Move =
    | Boot(id: nat, key: Bytes, version: nat, pcr0: Bytes)
    | EnclaveMove(id: nat, step: Step)
    | RegistrationStep(raw: RawAttestation)
    | TransactionStep(tx: Transaction)

  function InitialWorld(owner: Address): World {
    World(map[], Deployed(owner))
  }

  function AddressOf(p: Platform, e: Enclave): Option<Address> {
    AddressFromSec1(p.crypto.keccak, e.key)
  }

  function TrustOf(p: Platform): Attestations.Trust {
    Trust(p.crypto.keccak, p.validate)
  }

  ghost predicate Measures(doc: Document, pcr0: Bytes) {
    0 in doc.pcrs && doc.pcrs[0] == pcr0
  }

  /**
   * Ideal attestation: a trusted document with the measured PCR0 was issued to a booted enclave that has it.
   * Documents with any other PCR0 may say anything.
   */
  ghost predicate Authentic(p: Platform, w: World, pcr0: Bytes, attestation: Bytes) {
    var parsed := p.validate(attestation);
    parsed.Some? && Measures(parsed.value, pcr0) ==>
      exists id :: id in w.enclaves && parsed.value in w.enclaves[id].issued
  }

  /** Random keys: a booting enclave's address is not one that another enclave has. */
  ghost predicate FreshKey(p: Platform, w: World, key: Bytes) {
    && AddressFromSec1(p.crypto.keccak, key).Some?
    && forall id | id in w.enclaves :: AddressOf(p, w.enclaves[id]) != AddressFromSec1(p.crypto.keccak, key)
  }

  /** Signers are added through the setup program only, which the owner runs with `--pcr0`. */
  ghost predicate Allowed(p: Platform, cfg: Setup.Config, pcr0: Bytes, w: World, move: Move) {
    match move
    case Boot(id, key, _, _) => id !in w.enclaves && FreshKey(p, w, key)
    case EnclaveMove(id, step) => id in w.enclaves && Enabled(p, w.enclaves[id], step)
    case RegistrationStep(raw) => Authentic(p, w, pcr0, raw.attestation)
    case TransactionStep(tx) => tx.call.AddSigner? ==> tx.sender != w.contract.owner
  }

  function Next(p: Platform, cfg: Setup.Config, w: World, move: Move): World {
    match move
    case Boot(id, key, version, pcr0) => w.(enclaves := w.enclaves[id := Booted(key, version, pcr0)])
    case EnclaveMove(id, step) =>
      if id in w.enclaves then w.(enclaves := w.enclaves[id := Apply(p, w.enclaves[id], step)]) else w
    case RegistrationStep(raw) => w.(contract := Setup.Iteration(TrustOf(p), cfg, w.contract, raw).0)
    case TransactionStep(tx) => w.(contract := Transact(w.contract, tx).0)
  }

  ghost predicate AllowedRun(p: Platform, cfg: Setup.Config, pcr0: Bytes, w: World, moves: seq<Move>)
    decreases |moves|
  {
    moves == [] ||
    (Allowed(p, cfg, pcr0, w, moves[0]) && AllowedRun(p, cfg, pcr0, Next(p, cfg, w, moves[0]), moves[1..]))
  }

  function AfterRun(p: Platform, cfg: Setup.Config, w: World, moves: seq<Move>): World
    decreases |moves|
  {
    if moves == [] then w else AfterRun(p, cfg, Next(p, cfg, w, moves[0]), moves[1..])
  }

  // ----- The invariant -----

  /** A registered signer is the address of an enclave with the demanded PCR0. */
  ghost predicate SignerOfEnclave(p: Platform, w: World, pcr0: Bytes, signer: Address) {
    exists id :: id in w.enclaves && w.enclaves[id].pcr0 == pcr0 && AddressOf(p, w.enclaves[id]) == Some(signer)
  }

  ghost predicate OnlyEnclavesRegistered(p: Platform, pcr0: Bytes, w: World) {
    forall signer | signer in w.contract.signers :: SignerOfEnclave(p, w, pcr0, signer)
  }

  ghost predicate WorldInv(p: Platform, pcr0: Bytes, w: World) {
    && Consistent(w.contract)
    && (forall id | id in w.enclaves :: EnclaveInv(p, w.enclaves[id]))
    && (forall id, id' | id in w.enclaves && id' in w.enclaves && id != id' ::
          AddressOf(p, w.enclaves[id]) != AddressOf(p, w.enclaves[id']))
    && OnlyEnclavesRegistered(p, pcr0, w)
  }

  lemma SignerPersists(p: Platform, w: World, w': World, pcr0: Bytes, signer: Address)
    requires SignerOfEnclave(p, w, pcr0, signer)
    requires forall id | id in w.enclaves :: id in w'.enclaves && Extends(w.enclaves[id], w'.enclaves[id])
    ensures SignerOfEnclave(p, w', pcr0, signer)
  {
    var id :| id in w.enclaves && w.enclaves[id].pcr0 == pcr0 && AddressOf(p, w.enclaves[id]) == Some(signer);
    assert w'.enclaves[id].pcr0 == pcr0;
  }

  lemma BootKeepsInv(p: Platform, cfg: Setup.Config, pcr0: Bytes, w: World, move: Move)
    requires WorldInv(p, pcr0, w) && Allowed(p, cfg, pcr0, w, move) && move.Boot?
    ensures WorldInv(p, pcr0, Next(p, cfg, w, move))
  {
    var w' := Next(p, cfg, w, move);
    forall signer | signer in w'.contract.signers ensures SignerOfEnclave(p, w', pcr0, signer) {
      SignerPersists(p, w, w', pcr0, signer);
    }
  }

  lemma EnclaveChangeKeepsInv(p: Platform, pcr0: Bytes, w: World, id: nat, e': Enclave)
    requires WorldInv(p, pcr0, w) && id in w.enclaves && EnclaveInv(p, e') && Extends(w.enclaves[id], e')
    ensures WorldInv(p, pcr0, w.(enclaves := w.enclaves[id := e']))
  {
    var w' := w.(enclaves := w.enclaves[id := e']);
    forall signer | signer in w'.contract.signers ensures SignerOfEnclave(p, w', pcr0, signer) {
      SignerPersists(p, w, w', pcr0, signer);
    }
  }

  lemma EnclaveMoveKeepsInv(p: Platform, cfg: Setup.Config, pcr0: Bytes, w: World, move: Move)
    requires WorldInv(p, pcr0, w) && Allowed(p, cfg, pcr0, w, move) && move.EnclaveMove?
    ensures WorldInv(p, pcr0, Next(p, cfg, w, move))
  {
    var e := w.enclaves[move.id];
    StepKeepsInv(p, e, move.step);
    StepExtends(p, e, move.step);
    EnclaveChangeKeepsInv(p, pcr0, w, move.id, Apply(p, e, move.step));
  }

  /** Whatever document setup lets through, except for address zero, which the contract refuses, has this PCR0. */
  ghost predicate AdmitsOnlyMeasured(p: Platform, cfg: Setup.Config, pcr0: Bytes) {
    forall raw | Setup.Verifies(TrustOf(p), cfg, raw) && raw.address != ZERO ::
      Measures(p.validate(raw.attestation).value, pcr0)
  }

  /** The key in a measured document is an enclave's, and so is the address that it derives to. */
  lemma MeasuredSignerIsEnclave(p: Platform, cfg: Setup.Config, pcr0: Bytes, w: World, raw: RawAttestation)
    requires forall id | id in w.enclaves :: EnclaveInv(p, w.enclaves[id])
    requires Setup.Verifies(TrustOf(p), cfg, raw) && Measures(p.validate(raw.attestation).value, pcr0)
    requires Authentic(p, w, pcr0, raw.attestation)
    ensures SignerOfEnclave(p, w, pcr0, raw.address)
  {
    var doc := p.validate(raw.attestation).value;
    var id :| id in w.enclaves && doc in w.enclaves[id].issued;
    assert RecordsInv(p, w.enclaves[id]);
    assert OwnDocument(w.enclaves[id], doc);
  }

  /** What registration adds is the address of an enclave: the document names its key, and the PCR0 its code. */
  lemma RegistrationKeepsInv(p: Platform, cfg: Setup.Config, pcr0: Bytes, w: World, raw: RawAttestation)
    requires WorldInv(p, pcr0, w) && Allowed(p, cfg, pcr0, w, RegistrationStep(raw))
    requires !cfg.registerSigners || AdmitsOnlyMeasured(p, cfg, pcr0)
    ensures WorldInv(p, pcr0, Next(p, cfg, w, RegistrationStep(raw)))
  {
    var w' := Next(p, cfg, w, RegistrationStep(raw));
    Setup.IterationMeaning(TrustOf(p), cfg, w.contract, raw);
    forall signer | signer in w'.contract.signers ensures SignerOfEnclave(p, w', pcr0, signer) {
      if signer in w.contract.signers {
        SignerPersists(p, w, w', pcr0, signer);
      } else {
        MeasuredSignerIsEnclave(p, cfg, pcr0, w', raw);
      }
    }
  }

  lemma MeasuredArgumentAdmits(p: Platform, cfg: Setup.Config, pcr0: Bytes)
    requires cfg.pcr0.Some? && Decode(cfg.pcr0.value) == Some(pcr0)
    ensures AdmitsOnlyMeasured(p, cfg, pcr0)
  {
  }

  lemma TransactionKeepsInv(p: Platform, cfg: Setup.Config, pcr0: Bytes, w: World, move: Move)
    requires WorldInv(p, pcr0, w) && Allowed(p, cfg, pcr0, w, move) && move.TransactionStep?
    ensures WorldInv(p, pcr0, Next(p, cfg, w, move))
  {
    var w' := Next(p, cfg, w, move);
    TransactionKeepsConsistency(w.contract, move.tx);
    if move.tx.call.RemoveSigner? {
      RefinesSet(w.contract.signers, move.tx.call.signer);
    }
    forall signer | signer in w'.contract.signers ensures SignerOfEnclave(p, w', pcr0, signer) {
      assert signer in ToSet(w'.contract.signers) && ToSet(w'.contract.signers) <= ToSet(w.contract.signers);
      SignerPersists(p, w, w', pcr0, signer);
    }
  }

  lemma {:induction false} RunKeepsWorldInv(p: Platform, cfg: Setup.Config, pcr0: Bytes, w: World, moves: seq<Move>)
    requires WorldInv(p, pcr0, w) && AllowedRun(p, cfg, pcr0, w, moves)
    requires !cfg.registerSigners || AdmitsOnlyMeasured(p, cfg, pcr0)
    ensures WorldInv(p, pcr0, AfterRun(p, cfg, w, moves))
    decreases |moves|
  {
    if moves == [] {
    } else {
      match moves[0] {
        case Boot(_, _, _, _) => BootKeepsInv(p, cfg, pcr0, w, moves[0]);
        case EnclaveMove(_, _) => EnclaveMoveKeepsInv(p, cfg, pcr0, w, moves[0]);
        case RegistrationStep(raw) => RegistrationKeepsInv(p, cfg, pcr0, w, raw);
        case TransactionStep(_) => TransactionKeepsInv(p, cfg, pcr0, w, moves[0]);
      }
      RunKeepsWorldInv(p, cfg, pcr0, Next(p, cfg, w, moves[0]), moves[1..]);
    }
  }

  /** Whatever setup is run with, the contract stays consistent with its log. */
  lemma {:induction false} RunKeepsContract(p: Platform, cfg: Setup.Config, w: World, moves: seq<Move>)
    requires Consistent(w.contract)
    ensures Consistent(AfterRun(p, cfg, w, moves).contract)
    decreases |moves|
  {
    if moves == [] {
    } else {
      match moves[0] {
        case RegistrationStep(raw) => Setup.IterationMeaning(TrustOf(p), cfg, w.contract, raw);
        case TransactionStep(tx) => TransactionKeepsConsistency(w.contract, tx);
        case _ =>
      }
      RunKeepsContract(p, cfg, Next(p, cfg, w, moves[0]), moves[1..]);
    }
  }

  /** The worlds that runs of the system from deployment lead to. */
  ghost predicate ReachableWorld(p: Platform, cfg: Setup.Config, pcr0: Bytes, w: World) {
    && cfg.pcr0.Some? && Decode(cfg.pcr0.value) == Some(pcr0)
    && exists owner, moves ::
         AllowedRun(p, cfg, pcr0, InitialWorld(owner), moves) && AfterRun(p, cfg, InitialWorld(owner), moves) == w
  }

  lemma ReachableWorldInv(p: Platform, cfg: Setup.Config, pcr0: Bytes, w: World)
    requires ReachableWorld(p, cfg, pcr0, w)
    ensures WorldInv(p, pcr0, w)
  {
    var owner, moves :|
      AllowedRun(p, cfg, pcr0, InitialWorld(owner), moves) && AfterRun(p, cfg, InitialWorld(owner), moves) == w;
    EveryRunIsConsistent(owner, []);
    MeasuredArgumentAdmits(p, cfg, pcr0);
    RunKeepsWorldInv(p, cfg, pcr0, InitialWorld(owner), moves);
  }

  lemma EnclaveInReachableWorld(p: Platform, cfg: Setup.Config, pcr0: Bytes, w: World, id: nat)
    requires ReachableWorld(p, cfg, pcr0, w) && id in w.enclaves
    ensures EnclaveInv(p, w.enclaves[id]) && ZERO !in w.contract.signers
  {
    ReachableWorldInv(p, cfg, pcr0, w);
  }

  // ----- Safety -----

  /** The gateway's and the contract's view of the world. */
  function ContextOf(p: Platform, routes: map<Bytes4, Route>, w: World): Context {
    Context(p.crypto, routes, ToSet(w.contract.signers))
  }

  function LayerDigest(p: Platform, vkey: Bytes32, publicValues: Bytes, layer: Layer): Bytes32 {
    MessageHash(p.crypto.keccak, layer.version, vkey, publicValues)
  }

  /** Ideal signatures, for the one presented in this layer: what recovers to an enclave's address, it signed. */
  ghost predicate NotForged(p: Platform, w: World, vkey: Bytes32, publicValues: Bytes, layer: Layer) {
    var digest := LayerDigest(p, vkey, publicValues, layer);
    forall id | id in w.enclaves ::
      AddressOf(p, w.enclaves[id]) == Some(p.crypto.ecrecover(digest, layer.v, layer.r, layer.s)) ==>
        digest in w.enclaves[id].signed
  }

  /** No hash collision between this layer's message and a message that some enclave signed. */
  ghost predicate NoCollision(p: Platform, w: World, vkey: Bytes32, publicValues: Bytes, layer: Layer) {
    forall id, x | id in w.enclaves && x in w.enclaves[id].executions ::
      !MessagesCollide(p.crypto.keccak,
                       layer.version, vkey, publicValues,
                       LittleEndian(w.enclaves[id].version, 4), p.vkeyOf(x.job.program), x.publicValues)
  }

  /** The enclave has completed an execution of this program with this output, within the cycle limit. */
  ghost predicate ExecutedIn(p: Platform, e: Enclave, pcr0: Bytes, vkey: Bytes32, publicValues: Bytes,
                             version: Bytes, x: Execution)
  {
    && e.pcr0 == pcr0
    && x in e.executions
    && p.vkeyOf(x.job.program) == vkey
    && x.publicValues == publicValues
    && p.run(x.job.program, x.job.stdin, x.job.cycleLimit) == Some(publicValues)
    && x.job.cycleLimit <= 0xFFFF_FFFF
    && version == LittleEndian(e.version, 4)
  }

  ghost predicate Justified(p: Platform, w: World, pcr0: Bytes, vkey: Bytes32, publicValues: Bytes, version: Bytes) {
    exists id, x :: id in w.enclaves && ExecutedIn(p, w.enclaves[id], pcr0, vkey, publicValues, version, x)
  }

  lemma SignedLayerIsJustified(p: Platform, cfg: Setup.Config, pcr0: Bytes, w: World, routes: map<Bytes4, Route>,
                               vkey: Bytes32, publicValues: Bytes, layer: Layer)
    requires ReachableWorld(p, cfg, pcr0, w)
    requires SignedLayer(ContextOf(p, routes, w), vkey, publicValues, layer)
    requires NotForged(p, w, vkey, publicValues, layer) && NoCollision(p, w, vkey, publicValues, layer)
    ensures Justified(p, w, pcr0, vkey, publicValues, layer.version)
  {
    ReachableWorldInv(p, cfg, pcr0, w);
    var digest := LayerDigest(p, vkey, publicValues, layer);
    var signer := p.crypto.ecrecover(digest, layer.v, layer.r, layer.s);
    assert SignerOfEnclave(p, w, pcr0, signer);
    var id :| id in w.enclaves && w.enclaves[id].pcr0 == pcr0 && AddressOf(p, w.enclaves[id]) == Some(signer);
    var e := w.enclaves[id];
    assert EnclaveInv(p, e) && digest in e.signed;
    var x :| x in e.executions && digest == SignedDigest(p, e, x.job.program, x.publicValues);
    SameMessage(p.crypto.keccak, e.version, p.vkeyOf(x.job.program), x.publicValues);
    DigestBinds(p.crypto.keccak, layer.version, vkey, publicValues,
                LittleEndian(e.version, 4), p.vkeyOf(x.job.program), x.publicValues);
    assert ExecutedIn(p, e, pcr0, vkey, publicValues, layer.version, x);
  }

  /**
   * Safety, end to end and over every run: when the verifier accepts a proof, some enclave with the PCR0 given to
   * setup has earlier completed an execution of a program with this verifying key, within the cycle limit and with
   * exactly these public values, and the version in the proof is that enclave's.
   */
  lemma AcceptedProofsAreJustified(p: Platform, cfg: Setup.Config, pcr0: Bytes, w: World, routes: map<Bytes4, Route>,
                                   vkey: Bytes32, publicValues: Bytes, proof: Bytes)
    requires ReachableWorld(p, cfg, pcr0, w)
    requires VerifyProof(ContextOf(p, routes, w), vkey, publicValues, proof).Accepted?
    requires var layer := Parse(TeeSelector(p.crypto.keccak), proof).layer;
             NotForged(p, w, vkey, publicValues, layer) && NoCollision(p, w, vkey, publicValues, layer)
    ensures Justified(p, w, pcr0, vkey, publicValues, Parse(TeeSelector(p.crypto.keccak), proof).layer.version)
  {
    var parsed := Parse(TeeSelector(p.crypto.keccak), proof);
    ParsesIffPrinted(TeeSelector(p.crypto.keccak), proof, parsed.layer, parsed.inner);
    SignedLayerIsJustified(p, cfg, pcr0, w, routes, vkey, publicValues, parsed.layer);
  }

  /** The same for every layer of a proof that the gateway accepts, however deep they are nested. */
  lemma EveryLayerIsJustified(p: Platform, cfg: Setup.Config, pcr0: Bytes, w: World, routes: map<Bytes4, Route>,
                              vkey: Bytes32, publicValues: Bytes, proof: Bytes)
    returns (layers: seq<Layer>, base: Bytes)
    requires ReachableWorld(p, cfg, pcr0, w)
    requires VerifyAtGateway(ContextOf(p, routes, w), vkey, publicValues, proof).Accepted?
    ensures IsLayering(ContextOf(p, routes, w), vkey, publicValues, proof, layers, base)
    ensures forall i | 0 <= i < |layers| ::
              NotForged(p, w, vkey, publicValues, layers[i]) && NoCollision(p, w, vkey, publicValues, layers[i]) ==>
                Justified(p, w, pcr0, vkey, publicValues, layers[i].version)
  {
    layers, base := AcceptedIsLayered(ContextOf(p, routes, w), vkey, publicValues, proof);
    forall i | 0 <= i < |layers|
               && NotForged(p, w, vkey, publicValues, layers[i]) && NoCollision(p, w, vkey, publicValues, layers[i])
      ensures Justified(p, w, pcr0, vkey, publicValues, layers[i].version)
    {
      SignedLayerIsJustified(p, cfg, pcr0, w, routes, vkey, publicValues, layers[i]);
    }
  }

  // ----- Completeness -----

  /** Signing and recovering fit together for recovery ids 0 and 1. */
  ghost predicate SignaturesRecover(p: Platform, key: Bytes) {
    forall digest, signature ::
      p.crypto.sign(key, digest) == Some(signature) && signature.recoveryId <= 1 ==>
        Some(p.crypto.ecrecover(digest, signature.recoveryId + 27, signature.r, signature.s))
          == AddressFromSec1(p.crypto.keccak, key)
  }

  /** The envelope that a client builds from the host's answer and the enclave's version. */
  function ClientEnvelope(p: Platform, e: Enclave, signature: Signature, inner: Bytes): Bytes {
    SignedProofBytes(TeeSelector(p.crypto.keccak),
                     Layer(EthereumV(signature.recoveryId), signature.r, signature.s, LittleEndian(e.version, 4)),
                     inner)
  }

  /** What a signed reply carries: the enclave's signature over the contract's message for its own version. */
  lemma ReplySignsContractMessage(p: Platform, e: Enclave, c: nat, k: nat)
    requires EnclaveInv(p, e) && c in e.connections && k < |e.connections[c].replies|
    requires e.connections[c].replies[k].SignedPublicValues?
    ensures var reply := e.connections[c].replies[k];
            p.crypto.sign(e.key, MessageHash(p.crypto.keccak, LittleEndian(e.version, 4),
                                             reply.vkey, reply.publicValues))
              == Some(reply.signature)
  {
    var conn := e.connections[c];
    assert ConnectionInv(p, e, conn);
    var reply := conn.replies[k];
    assert Answers(p, e, conn.sent[k], reply);
    SameMessage(p.crypto.keccak, e.version, reply.vkey, reply.publicValues);
  }

  lemma SignedEnvelopeVerifiesIff(p: Platform, e: Enclave, x: Context, vkey: Bytes32, publicValues: Bytes,
                                  signature: Signature, address: Address, inner: Bytes)
    requires x.crypto == p.crypto && ZERO !in x.signers
    requires SignaturesRecover(p, e.key) && AddressOf(p, e) == Some(address) && signature.recoveryId <= 3
    requires p.crypto.sign(e.key, MessageHash(p.crypto.keccak, LittleEndian(e.version, 4), vkey, publicValues))
          == Some(signature)
    ensures var verdict := VerifyProof(x, vkey, publicValues, ClientEnvelope(p, e, signature, inner));
            && (verdict.Accepted? <==>
                  && signature.recoveryId <= 1 && address in x.signers
                  && VerifyAtGateway(x, vkey, publicValues, inner).Accepted?)
            && (signature.recoveryId >= 2 ==> verdict == Rejected(InvalidRecoveryId(signature.recoveryId + 27)))
  {
    var layer := Layer(EthereumV(signature.recoveryId), signature.r, signature.s, LittleEndian(e.version, 4));
    RejectionReasons(x, vkey, publicValues, layer, inner);
  }

  /**
   * Completeness: a signed output that an enclave replied with, put into an envelope by its caller, is accepted
   * exactly when its recovery id is 0 or 1, the enclave's address is registered, and the gateway accepts the inner
   * proof. The two other possible recovery ids map to values that the contract rejects.
   */
  lemma RepliedOutputVerifiesIff(p: Platform, cfg: Setup.Config, pcr0: Bytes, w: World, routes: map<Bytes4, Route>,
                                 id: nat, c: nat, k: nat, reply: Response, address: Address, inner: Bytes)
    requires ReachableWorld(p, cfg, pcr0, w) && id in w.enclaves && c in w.enclaves[id].connections
    requires k < |w.enclaves[id].connections[c].replies| && reply == w.enclaves[id].connections[c].replies[k]
    requires reply.SignedPublicValues? && reply.signature.recoveryId <= 3
    requires SignaturesRecover(p, w.enclaves[id].key) && AddressOf(p, w.enclaves[id]) == Some(address)
    ensures var x := ContextOf(p, routes, w);
            var verdict := VerifyProof(x, reply.vkey, reply.publicValues,
                                       ClientEnvelope(p, w.enclaves[id], reply.signature, inner));
            && (verdict.Accepted? <==>
                  && reply.signature.recoveryId <= 1 && address in w.contract.signers
                  && VerifyAtGateway(x, reply.vkey, reply.publicValues, inner).Accepted?)
            && (reply.signature.recoveryId >= 2 ==>
                  verdict == Rejected(InvalidRecoveryId(reply.signature.recoveryId + 27)))
  {
    EnclaveInReachableWorld(p, cfg, pcr0, w, id);
    ReplySignsContractMessage(p, w.enclaves[id], c, k);
    SignedEnvelopeVerifiesIff(p, w.enclaves[id], ContextOf(p, routes, w), reply.vkey, reply.publicValues,
                              reply.signature, address, inner);
  }

  // ----- From a host to the registry -----

  /**
   * Whatever a host stores passes the checks of setup and of the validator under its enclave's PCR0, and is
   * authentic in any world with that enclave; so a completed registration makes the enclave's address a signer.
   */
  lemma StoredAttestationsGetRegistered(p: Platform, cfg: Setup.Config, key: Bytes, version: nat, pcr0: Bytes,
                                        s: System, put: Put, c: Contract, raws: seq<RawAttestation>)
    requires HostRuns.HostReachable(p, Booted(key, version, pcr0), s) && put in s.puts
    requires cfg.pcr0.Some? && Decode(cfg.pcr0.value) == Some(pcr0)
    ensures var raw := RawAttestation(put.address, put.attestation);
            && Setup.Verifies(TrustOf(p), cfg, raw)
            && Binds(TrustOf(p), put.attestation, put.address, version, pcr0)
            && (forall w: World, id | id in w.enclaves && w.enclaves[id] == s.enclave ::
                  Authentic(p, w, pcr0, put.attestation))
            && (raw in raws && Consistent(c) && cfg.registerSigners
                && Setup.SetupRun(TrustOf(p), cfg, c, raws, |raws|).1.Completed? ==>
                  put.address in Setup.SetupRun(TrustOf(p), cfg, c, raws, |raws|).0.signers)
  {
    HostRuns.HostReachableInv(p, key, version, pcr0, s);
    assert RightfulPut(p, s.enclave, put);
    var raw := RawAttestation(put.address, put.attestation);
    if raw in raws && Consistent(c) && cfg.registerSigners
       && Setup.SetupRun(TrustOf(p), cfg, c, raws, |raws|).1.Completed?
    {
      Setup.VerifiedGetsRegistered(TrustOf(p), cfg, c, raws, raw);
    }
  }

  // ----- A whole run that succeeds -----

  ghost predicate ReachedFrom(p: Platform, cfg: Setup.Config, pcr0: Bytes, owner: Address, w: World) {
    exists moves ::
      AllowedRun(p, cfg, pcr0, InitialWorld(owner), moves) && AfterRun(p, cfg, InitialWorld(owner), moves) == w
  }

  lemma ReachedInitially(p: Platform, cfg: Setup.Config, pcr0: Bytes, owner: Address)
    ensures ReachedFrom(p, cfg, pcr0, owner, InitialWorld(owner))
  {
    var none: seq<Move> := [];
    var start := InitialWorld(owner);
    assert AllowedRun(p, cfg, pcr0, start, none) && AfterRun(p, cfg, start, none) == start;
  }

  lemma ReachedContract(p: Platform, cfg: Setup.Config, pcr0: Bytes, owner: Address, w: World)
    requires ReachedFrom(p, cfg, pcr0, owner, w)
    ensures Consistent(w.contract)
  {
    var moves :|
      AllowedRun(p, cfg, pcr0, InitialWorld(owner), moves) && AfterRun(p, cfg, InitialWorld(owner), moves) == w;
    EveryRunIsConsistent(owner, []);
    RunKeepsContract(p, cfg, InitialWorld(owner), moves);
  }

  lemma {:induction false} OneMoreMove(p: Platform, cfg: Setup.Config, pcr0: Bytes, w: World, moves: seq<Move>,
                                       move: Move)
    requires AllowedRun(p, cfg, pcr0, w, moves) && Allowed(p, cfg, pcr0, AfterRun(p, cfg, w, moves), move)
    ensures AllowedRun(p, cfg, pcr0, w, moves + [move])
    ensures AfterRun(p, cfg, w, moves + [move]) == Next(p, cfg, AfterRun(p, cfg, w, moves), move)
    decreases |moves|
  {
    if moves == [] {
      assert [move][1..] == [];
    } else {
      OneMoreMove(p, cfg, pcr0, Next(p, cfg, w, moves[0]), moves[1..], move);
      assert (moves + [move])[1..] == moves[1..] + [move];
    }
  }

  lemma MoveOnce(p: Platform, cfg: Setup.Config, pcr0: Bytes, owner: Address, w: World, move: Move) returns (w': World)
    requires ReachedFrom(p, cfg, pcr0, owner, w) && Allowed(p, cfg, pcr0, w, move)
    ensures w' == Next(p, cfg, w, move) && ReachedFrom(p, cfg, pcr0, owner, w')
  {
    var moves :|
      AllowedRun(p, cfg, pcr0, InitialWorld(owner), moves) && AfterRun(p, cfg, InitialWorld(owner), moves) == w;
    OneMoreMove(p, cfg, pcr0, InitialWorld(owner), moves, move);
    w' := Next(p, cfg, w, move);
  }

  /** What one enclave can do by itself, it can do in the world. */
  lemma {:induction false} EnclaveRunsInWorld(p: Platform, cfg: Setup.Config, pcr0: Bytes, owner: Address, w: World,
                                              id: nat, steps: seq<Step>)
    requires ReachedFrom(p, cfg, pcr0, owner, w) && id in w.enclaves && Possible(p, w.enclaves[id], steps)
    ensures ReachedFrom(p, cfg, pcr0, owner, w.(enclaves := w.enclaves[id := After(p, w.enclaves[id], steps)]))
    decreases |steps|
  {
    if steps == [] {
      assert w.enclaves[id := w.enclaves[id]] == w.enclaves;
    } else {
      var w' := MoveOnce(p, cfg, pcr0, owner, w, EnclaveMove(id, steps[0]));
      EnclaveRunsInWorld(p, cfg, pcr0, owner, w', id, steps[1..]);
      var last := After(p, w.enclaves[id], steps);
      assert w'.enclaves[id := last] == w.enclaves[id := last];
    }
  }

  lemma LeadInWorld(p: Platform, cfg: Setup.Config, pcr0: Bytes, owner: Address, w: World, id: nat, e': Enclave)
    returns (w': World)
    requires ReachedFrom(p, cfg, pcr0, owner, w) && id in w.enclaves && EnclaveRuns.Leads(p, w.enclaves[id], e')
    ensures w' == w.(enclaves := w.enclaves[id := e']) && ReachedFrom(p, cfg, pcr0, owner, w')
  {
    var steps :| Possible(p, w.enclaves[id], steps) && After(p, w.enclaves[id], steps) == e';
    EnclaveRunsInWorld(p, cfg, pcr0, owner, w, id, steps);
    w' := w.(enclaves := w.enclaves[id := e']);
  }

  /** An enclave boots, executes a job and gets itself attested. */
  lemma EnclaveWorks(p: Platform, cfg: Setup.Config, pcr0: Bytes, owner: Address, key: Bytes, version: nat,
                     attestation: Bytes, job: Job, publicValues: Bytes, signature: Signature)
    returns (w: World)
    requires AddressFromSec1(p.crypto.keccak, key).Some?
    requires OwnAttestation(p, Booted(key, version, pcr0), attestation)
    requires job.cycleLimit <= 0xFFFF_FFFF
    requires p.run(job.program, job.stdin, job.cycleLimit) == Some(publicValues)
    requires p.crypto.sign(key, SignedDigest(p, Booted(key, version, pcr0), job.program, publicValues))
          == Some(signature)
    ensures ReachedFrom(p, cfg, pcr0, owner, w) && w.contract == Deployed(owner) && 0 in w.enclaves
    ensures var e := w.enclaves[0];
            && e.key == key && e.version == version && e.pcr0 == pcr0
            && p.validate(attestation).value in e.issued
            && 0 in e.connections
            && e.connections[0].replies == [SignedPublicValues(p.vkeyOf(job.program), publicValues, signature)]
  {
    ReachedInitially(p, cfg, pcr0, owner);
    var e0 := Booted(key, version, pcr0);
    var w0 := MoveOnce(p, cfg, pcr0, owner, InitialWorld(owner), Boot(0, key, version, pcr0));
    var e1 := EnclaveRuns.ExecutionIsAnswered(p, e0, 0, job, publicValues, signature);
    var w1 := LeadInWorld(p, cfg, pcr0, owner, w0, 0, e1);
    var e2 := EnclaveRuns.AttestationIsAnswered(p, e1, 1, attestation);
    w := LeadInWorld(p, cfg, pcr0, owner, w1, 0, e2);
  }

  /**
   * The chain works: whatever the program, its output, the key and the attestation, there is a run from deployment
   * in which an enclave boots, executes, is attested and registered, and the contract then accepts its output.
   */
  lemma ChainCanSucceed(p: Platform, argument: string, pcr0: Bytes, owner: Address, key: Bytes, version: nat,
                        attestation: Bytes, job: Job, publicValues: Bytes, signature: Signature,
                        routes: map<Bytes4, Route>, inner: Bytes)
    returns (w: World)
    requires Decode(argument) == Some(pcr0)
    requires AddressFromSec1(p.crypto.keccak, key).Some? && AddressFromSec1(p.crypto.keccak, key).value != ZERO
    requires OwnAttestation(p, Booted(key, version, pcr0), attestation)
    requires job.cycleLimit <= 0xFFFF_FFFF
    requires p.run(job.program, job.stdin, job.cycleLimit) == Some(publicValues)
    requires p.crypto.sign(key, SignedDigest(p, Booted(key, version, pcr0), job.program, publicValues))
          == Some(signature)
    requires SignaturesRecover(p, key) && signature.recoveryId <= 1
    requires BaseProof(Context(p.crypto, routes, {}), p.vkeyOf(job.program), publicValues, inner)
    ensures ReachableWorld(p, Setup.Config(Some(argument), true, owner), pcr0, w) && 0 in w.enclaves
    ensures VerifyProof(ContextOf(p, routes, w), p.vkeyOf(job.program), publicValues,
                        ClientEnvelope(p, w.enclaves[0], signature, inner)).Accepted?
  {
    var cfg := Setup.Config(Some(argument), true, owner);
    var address := AddressFromSec1(p.crypto.keccak, key).value;
    var raw := RawAttestation(address, attestation);
    var before := EnclaveWorks(p, cfg, pcr0, owner, key, version, attestation, job, publicValues, signature);
    assert Authentic(p, before, pcr0, attestation);
    EveryRunIsConsistent(owner, []);
    Setup.IterationMeaning(TrustOf(p), cfg, before.contract, raw);
    w := MoveOnce(p, cfg, pcr0, owner, before, RegistrationStep(raw));
    assert Setup.Verifies(TrustOf(p), cfg, raw);
    assert address in w.contract.signers;
    var reply := w.enclaves[0].connections[0].replies[0];
    RepliedOutputVerifiesIff(p, cfg, pcr0, w, routes, 0, 0, 0, reply, address, inner);
  }

  // ----- What setup's PCR0 argument is for -----

  /** In every run from deployment, every registered signer is the address of an enclave with the PCR0. */
  ghost predicate RegistersOnlyEnclaves(p: Platform, cfg: Setup.Config, pcr0: Bytes, owner: Address) {
    forall moves | AllowedRun(p, cfg, pcr0, InitialWorld(owner), moves) ::
      OnlyEnclavesRegistered(p, pcr0, AfterRun(p, cfg, InitialWorld(owner), moves))
  }

  /** The account of setup becomes the owner, unless it is, and registers one document. */
  function TakeoverMoves(cfg: Setup.Config, owner: Address, raw: RawAttestation): seq<Move> {
    (if cfg.sender == owner then [] else [TransactionStep(Transaction(owner, TransferOwnership(cfg.sender)))])
    + [RegistrationStep(raw)]
  }

  lemma RegisterOnce(p: Platform, cfg: Setup.Config, pcr0: Bytes, w: World, raw: RawAttestation)
    requires Consistent(w.contract) && w.contract.owner == cfg.sender && cfg.registerSigners && raw.address != ZERO
    requires Setup.Verifies(TrustOf(p), cfg, raw) && Authentic(p, w, pcr0, raw.attestation)
    ensures AllowedRun(p, cfg, pcr0, w, [RegistrationStep(raw)])
    ensures var after := AfterRun(p, cfg, w, [RegistrationStep(raw)]);
            after.enclaves == w.enclaves && raw.address in after.contract.signers
  {
    assert [RegistrationStep(raw)][1..] == [];
    Setup.IterationMeaning(TrustOf(p), cfg, w.contract, raw);
  }

  /** A document of foreign code that setup lets through makes its address a signer, with no enclave at all. */
  lemma ForeignSignerGetsIn(p: Platform, cfg: Setup.Config, pcr0: Bytes, owner: Address, raw: RawAttestation)
    requires owner != ZERO && cfg.sender != ZERO && cfg.registerSigners && raw.address != ZERO
    requires Setup.Verifies(TrustOf(p), cfg, raw) && !Measures(p.validate(raw.attestation).value, pcr0)
    ensures var moves := TakeoverMoves(cfg, owner, raw);
            && AllowedRun(p, cfg, pcr0, InitialWorld(owner), moves)
            && var w := AfterRun(p, cfg, InitialWorld(owner), moves);
               && w.enclaves == map[] && raw.address in w.contract.signers
               && !OnlyEnclavesRegistered(p, pcr0, w)
  {
    var moves, start := TakeoverMoves(cfg, owner, raw), InitialWorld(owner);
    EveryRunIsConsistent(owner, []);
    var w := if cfg.sender == owner then start else Next(p, cfg, start, moves[0]);
    if cfg.sender != owner {
      TransactionKeepsConsistency(start.contract, moves[0].tx);
      assert moves[1..] == [RegistrationStep(raw)];
    } else {
      assert moves == [RegistrationStep(raw)];
    }
    RegisterOnce(p, cfg, pcr0, w, raw);
    assert !SignerOfEnclave(p, AfterRun(p, cfg, w, [RegistrationStep(raw)]), pcr0, raw.address);
  }

  /**
   * Registration is safe exactly when it is off, or setup lets only documents with the measured PCR0 through:
   * then every run registers enclaves only, and otherwise some run does not.
   */
  lemma RegistrationIsSafeIff(p: Platform, cfg: Setup.Config, pcr0: Bytes, owner: Address)
    requires owner != ZERO && cfg.sender != ZERO
    ensures RegistersOnlyEnclaves(p, cfg, pcr0, owner) <==> !cfg.registerSigners || AdmitsOnlyMeasured(p, cfg, pcr0)
  {
    if !cfg.registerSigners || AdmitsOnlyMeasured(p, cfg, pcr0) {
      EveryRunIsConsistent(owner, []);
      forall moves | AllowedRun(p, cfg, pcr0, InitialWorld(owner), moves)
        ensures OnlyEnclavesRegistered(p, pcr0, AfterRun(p, cfg, InitialWorld(owner), moves))
      {
        RunKeepsWorldInv(p, cfg, pcr0, InitialWorld(owner), moves);
      }
    } else {
      var raw :| Setup.Verifies(TrustOf(p), cfg, raw) && raw.address != ZERO
                 && !Measures(p.validate(raw.attestation).value, pcr0);
      ForeignSignerGetsIn(p, cfg, pcr0, owner, raw);
    }
  }

  /** A trusted document of foreign code, stored under the address of its key. */
  ghost predicate Foreign(p: Platform, pcr0: Bytes, raw: RawAttestation) {
    var parsed := p.validate(raw.attestation);
    && parsed.Some? && !Measures(parsed.value, pcr0)
    && parsed.value.publicKey.Some? && raw.address != ZERO
    && AddressFromSec1(p.crypto.keccak, parsed.value.publicKey.value) == Some(raw.address)
  }

  /**
   * The same in terms of the argument, once there is a trusted document of foreign code. Without the argument
   * registration is not safe; with one that decodes to the measured PCR0 it is, and trivially so with one that
   * does not decode; with one that decodes to the PCR0 of the foreign code it is not safe either.
   */
  lemma RegistrationNeedsPcr0(p: Platform, cfg: Setup.Config, pcr0: Bytes, owner: Address, raw: RawAttestation)
    requires owner != ZERO && cfg.sender != ZERO && cfg.registerSigners && Foreign(p, pcr0, raw)
    ensures (cfg.pcr0.Some? ==> Decode(cfg.pcr0.value) == Some(pcr0)) ==>
              (RegistersOnlyEnclaves(p, cfg, pcr0, owner) <==> cfg.pcr0.Some?)
    ensures cfg.pcr0.Some? && Decode(cfg.pcr0.value).None? ==> RegistersOnlyEnclaves(p, cfg, pcr0, owner)
    ensures cfg.pcr0.Some? && Decode(cfg.pcr0.value).Some?
            && Measures(p.validate(raw.attestation).value, Decode(cfg.pcr0.value).value) ==>
              !RegistersOnlyEnclaves(p, cfg, pcr0, owner)
  {
    RegistrationIsSafeIff(p, cfg, pcr0, owner);
    assert AdmitsOnlyMeasured(p, cfg, pcr0) ==> !Setup.Verifies(TrustOf(p), cfg, raw);
  }
}
