/**
 * The deployed system: hosts with their enclaves, the bucket that they store attestations in, setup and the contract.
 * It simulates the world of enclaves and contract, so that what holds there holds here, for the hosts' callers too.
 */
module Fleets {
  import opened ByteStrings
  import opened Addresses
  import opened TeeVerifiers
  import opened CryptoModel
  import opened HexText
  import opened Attestations
  import Setup
  import opened Enclaves
  import EnclaveRuns
  import opened Hosts
  import HostRuns
  import HostProgress
  import opened Progress
  import opened Envelopes
  import opened Gateways
  import opened EndToEnd

  /** `stored` are all objects ever written to the bucket, in order; a listing may be older than the last of them. */
  datatype Fleet = Fleet(sites: map<nat, System>, stored: seq<Put>, contract: Contract)

  datatype FleetMove =
    | BootSite(id: nat, key: Bytes, version: nat, pcr0: Bytes)
    | SiteStep(id: nat, step: HostStep)
    | ForeignPut(put: Put)
    | RegisterStored(put: Put)
    | Transaction(tx: TeeVerifiers.Transaction)

  function InitialFleet(owner: Address): Fleet {
    Fleet(map[], [], Deployed(owner))
  }

  /** The bucket's content: a later object replaces an earlier one under the same address. */
  function Bucket(stored: seq<Put>): map<Address, Bytes> {
    if stored == [] then map[]
    else
      var last := stored[|stored| - 1];
      Bucket(stored[..|stored| - 1])[last.address := last.attestation]
  }

  /** The put at index `i` stored this, and no later one is to the same address. */
  ghost predicate PutLast(stored: seq<Put>, i: int, address: Address, attestation: Bytes) {
    && 0 <= i < |stored| && stored[i] == Put(address, attestation)
    && forall j | i < j < |stored| :: stored[j].address != address
  }

  lemma PutLastBefore(stored: seq<Put>, last: Put, i: int, address: Address, attestation: Bytes)
    requires last.address != address
    ensures PutLast(stored + [last], i, address, attestation) <==> PutLast(stored, i, address, attestation)
  {
    var more := stored + [last];
    assert forall j | 0 <= j < |stored| :: more[j] == stored[j];
    if PutLast(stored, i, address, attestation) {
      assert forall j | i < j < |more| :: j < |stored| || more[j] == last;
    } else if 0 <= i < |stored| && stored[i] == Put(address, attestation) {
      var j :| i < j < |stored| && stored[j].address == address;
      assert more[j].address == address;
    }
  }

  /** An address has the attestation that was put there last. */
  lemma {:induction false} BucketHoldsLatest(stored: seq<Put>, address: Address, attestation: Bytes)
    ensures address in Bucket(stored) && Bucket(stored)[address] == attestation <==>
              exists i :: PutLast(stored, i, address, attestation)
    decreases |stored|
  {
    if stored == [] {
    } else {
      var n := |stored| - 1;
      var front, last := stored[..n], stored[n];
      assert stored == front + [last];
      if last.address == address {
        assert last == Put(address, last.attestation);
        assert PutLast(stored, n, address, last.attestation);
        forall i ensures PutLast(stored, i, address, attestation) ==> i == n {
          assert i < n ==> !PutLast(stored, i, address, attestation);
        }
      } else {
        BucketHoldsLatest(front, address, attestation);
        forall i ensures PutLast(stored, i, address, attestation) <==> PutLast(front, i, address, attestation) {
          PutLastBefore(front, last, i, address, attestation);
        }
      }
    }
  }

  /** What is left when hosts and bucket are taken away. */
  function WorldOf(f: Fleet): World {
    World(map id | id in f.sites :: f.sites[id].enclave, f.contract)
  }

  /** Anyone may write any object, under any address, that does not fake the measured code. */
  ghost predicate AllowedMove(p: Platform, pcr0: Bytes, f: Fleet, move: FleetMove) {
    match move
    case BootSite(id, key, _, _) => id !in f.sites && FreshKey(p, WorldOf(f), key)
    case SiteStep(id, step) => id in f.sites && HostEnabled(p, f.sites[id], step)
    case ForeignPut(put) => Authentic(p, WorldOf(f), pcr0, put.attestation)
    case RegisterStored(put) => put in f.stored
    case Transaction(tx) => tx.call.AddSigner? ==> tx.sender != f.contract.owner
  }

  /** A host becomes `s`, and what it has put since is in the bucket. */
  function WithSite(f: Fleet, id: nat, s: System): Fleet
    requires id in f.sites && |f.sites[id].puts| <= |s.puts|
  {
    f.(sites := f.sites[id := s], stored := f.stored + s.puts[|f.sites[id].puts|..])
  }

  function RawOf(put: Put): RawAttestation {
    RawAttestation(put.address, put.attestation)
  }

  ghost function Moves(p: Platform, cfg: Setup.Config, pcr0: Bytes, f: Fleet, move: FleetMove): Fleet
    requires AllowedMove(p, pcr0, f, move)
  {
    match move
    case BootSite(id, key, version, pcr) => f.(sites := f.sites[id := Initial(Booted(key, version, pcr))])
    case SiteStep(id, step) => WithSite(f, id, HostApply(p, f.sites[id], step))
    case ForeignPut(put) => f.(stored := f.stored + [put])
    case RegisterStored(put) => f.(contract := Setup.Iteration(TrustOf(p), cfg, f.contract, RawOf(put)).0)
    case Transaction(tx) => f.(contract := Transact(f.contract, tx).0)
  }

  ghost predicate FleetRun(p: Platform, cfg: Setup.Config, pcr0: Bytes, f: Fleet, moves: seq<FleetMove>)
    decreases |moves|
  {
    moves == [] ||
    (AllowedMove(p, pcr0, f, moves[0]) && FleetRun(p, cfg, pcr0, Moves(p, cfg, pcr0, f, moves[0]), moves[1..]))
  }

  ghost function FleetAfter(p: Platform, cfg: Setup.Config, pcr0: Bytes, f: Fleet, moves: seq<FleetMove>): Fleet
    requires FleetRun(p, cfg, pcr0, f, moves)
    decreases |moves|
  {
    if moves == [] then f else FleetAfter(p, cfg, pcr0, Moves(p, cfg, pcr0, f, moves[0]), moves[1..])
  }

  ghost predicate FleetReached(p: Platform, cfg: Setup.Config, pcr0: Bytes, owner: Address, f: Fleet) {
    exists moves ::
      && FleetRun(p, cfg, pcr0, InitialFleet(owner), moves)
      && FleetAfter(p, cfg, pcr0, InitialFleet(owner), moves) == f
  }

  // ----- A host's step is a short run of its enclave -----

  lemma ClosingLeads(p: Platform, from: Enclave, e: Enclave, task: HostTask, next: HostTask)
    requires EnclaveRuns.Leads(p, from, e) && (OnConnection(task) ==> task.c in e.connections)
    ensures EnclaveRuns.Leads(p, from, Closing(p, e, task, next))
  {
    if OnConnection(task) && !OnConnection(next) {
      var e' := EnclaveRuns.LeadOneMore(p, from, e, HostSend(task.c, CloseSession));
    }
  }

  lemma HostStepLeads(p: Platform, s: System, step: HostStep)
    requires HostInv(p, s) && HostEnabled(p, s, step)
    ensures EnclaveRuns.Leads(p, s.enclave, HostApply(p, s, step).enclave)
  {
    var e := s.enclave;
    EnclaveRuns.LeadsToItself(p, e);
    match step
    case ServerStep(inner) =>
      var e' := EnclaveRuns.LeadOneMore(p, e, e, inner);
    case Connect(_, c) =>
      var e' := EnclaveRuns.LeadOneMore(p, e, e, Accept(c));
    case Send(t) =>
      assert Conversation(p, e, s.tasks[t]);
      var e' := EnclaveRuns.LeadOneMore(p, e, e, HostSend(s.tasks[t].c, NextRequest(s.tasks[t]).value.0));
    case Receive(t) =>
      var read := EnclaveRuns.LeadOneMore(p, e, e, HostRecv(s.tasks[t].c));
      ClosingLeads(p, e, read, s.tasks[t], HostApply(p, s, step).tasks[t]);
    case PutObject(t) =>
      assert Conversation(p, e, s.tasks[t]);
      ClosingLeads(p, e, e, s.tasks[t], Saved);
    case Fail(t) =>
      assert Conversation(p, e, s.tasks[t]);
      ClosingLeads(p, e, e, s.tasks[t], AfterFailure(s.tasks[t]));
    case Drop(t) =>
      assert Conversation(p, e, s.tasks[t]);
      ClosingLeads(p, e, e, s.tasks[t], Dropped);
    case _ =>
  }

  // ----- The simulation -----

  /** Hosts are in order, and no stored object, whoever stored it, fakes the measured code. */
  ghost predicate FleetInv(p: Platform, pcr0: Bytes, f: Fleet) {
    && (forall id | id in f.sites :: SystemInv(p, f.sites[id]))
    && (forall put | put in f.stored :: Authentic(p, WorldOf(f), pcr0, put.attestation))
  }

  ghost predicate EnclavesExtend(w: World, w': World) {
    forall id | id in w.enclaves :: id in w'.enclaves && w.enclaves[id].issued <= w'.enclaves[id].issued
  }

  lemma AuthenticPersists(p: Platform, w: World, w': World, pcr0: Bytes, attestation: Bytes)
    requires Authentic(p, w, pcr0, attestation) && EnclavesExtend(w, w')
    ensures Authentic(p, w', pcr0, attestation)
  {
    if p.validate(attestation).Some? && Measures(p.validate(attestation).value, pcr0) {
      var id :| id in w.enclaves && p.validate(attestation).value in w.enclaves[id].issued;
      assert id in w'.enclaves && p.validate(attestation).value in w'.enclaves[id].issued;
    }
  }

  lemma StoredStaysAuthentic(p: Platform, pcr0: Bytes, f: Fleet, f': Fleet)
    requires FleetInv(p, pcr0, f) && EnclavesExtend(WorldOf(f), WorldOf(f'))
    requires forall put | put in f'.stored ::
               put in f.stored || Authentic(p, WorldOf(f'), pcr0, put.attestation)
    ensures forall put | put in f'.stored :: Authentic(p, WorldOf(f'), pcr0, put.attestation)
  {
    forall put | put in f'.stored ensures Authentic(p, WorldOf(f'), pcr0, put.attestation) {
      if put in f.stored {
        AuthenticPersists(p, WorldOf(f), WorldOf(f'), pcr0, put.attestation);
      }
    }
  }

  /** What a host of the fleet has put is authentic, wherever it is listed. */
  lemma OwnPutIsAuthentic(p: Platform, pcr0: Bytes, f: Fleet, id: nat, put: Put)
    requires id in f.sites && HostInv(p, f.sites[id]) && put in f.sites[id].puts
    ensures Authentic(p, WorldOf(f), pcr0, put.attestation)
  {
    assert RightfulPut(p, f.sites[id].enclave, put);
    assert id in WorldOf(f).enclaves && p.validate(put.attestation).value in WorldOf(f).enclaves[id].issued;
  }

  lemma PutsGrow(p: Platform, s: System, step: HostStep)
    requires HostEnabled(p, s, step)
    ensures s.puts <= HostApply(p, s, step).puts
  {
  }

  lemma WorldOfOneMore(f: Fleet, f': Fleet, id: nat, s: System)
    requires f'.sites == f.sites[id := s] && f'.contract == f.contract
    ensures WorldOf(f') == WorldOf(f).(enclaves := WorldOf(f).enclaves[id := s.enclave])
  {
  }

  lemma SiteStepKeepsInv(p: Platform, pcr0: Bytes, f: Fleet, id: nat, s': System)
    requires FleetInv(p, pcr0, f) && id in f.sites && f.sites[id].puts <= s'.puts
    requires SystemInv(p, s') && Extends(f.sites[id].enclave, s'.enclave)
    ensures FleetInv(p, pcr0, WithSite(f, id, s'))
  {
    var f' := WithSite(f, id, s');
    forall put | put in f'.stored && put !in f.stored ensures Authentic(p, WorldOf(f'), pcr0, put.attestation) {
      OwnPutIsAuthentic(p, pcr0, f', id, put);
    }
    StoredStaysAuthentic(p, pcr0, f, f');
  }

  lemma SiteStepSimulates(p: Platform, cfg: Setup.Config, pcr0: Bytes, owner: Address, f: Fleet, id: nat, s': System)
    requires ReachedFrom(p, cfg, pcr0, owner, WorldOf(f)) && id in f.sites && f.sites[id].puts <= s'.puts
    requires EnclaveRuns.Leads(p, f.sites[id].enclave, s'.enclave)
    ensures ReachedFrom(p, cfg, pcr0, owner, WorldOf(WithSite(f, id, s')))
  {
    var w' := LeadInWorld(p, cfg, pcr0, owner, WorldOf(f), id, s'.enclave);
    WorldOfOneMore(f, WithSite(f, id, s'), id, s');
  }

  lemma InitialIsInOrder(p: Platform, key: Bytes, version: nat, pcr0: Bytes)
    ensures SystemInv(p, Initial(Booted(key, version, pcr0)))
  {
  }

  lemma BootKeepsFleetInv(p: Platform, pcr0: Bytes, f: Fleet, id: nat, s: System)
    requires FleetInv(p, pcr0, f) && id !in f.sites && SystemInv(p, s)
    ensures FleetInv(p, pcr0, f.(sites := f.sites[id := s]))
  {
    StoredStaysAuthentic(p, pcr0, f, f.(sites := f.sites[id := s]));
  }

  lemma BootSimulates(p: Platform, cfg: Setup.Config, pcr0: Bytes, owner: Address, f: Fleet, move: FleetMove)
    requires FleetInv(p, pcr0, f) && ReachedFrom(p, cfg, pcr0, owner, WorldOf(f))
    requires AllowedMove(p, pcr0, f, move) && move.BootSite?
    ensures FleetInv(p, pcr0, Moves(p, cfg, pcr0, f, move))
    ensures ReachedFrom(p, cfg, pcr0, owner, WorldOf(Moves(p, cfg, pcr0, f, move)))
  {
    var f', s := Moves(p, cfg, pcr0, f, move), Initial(Booted(move.key, move.version, move.pcr0));
    var w' := MoveOnce(p, cfg, pcr0, owner, WorldOf(f), Boot(move.id, move.key, move.version, move.pcr0));
    WorldOfOneMore(f, f', move.id, s);
    InitialIsInOrder(p, move.key, move.version, move.pcr0);
    BootKeepsFleetInv(p, pcr0, f, move.id, s);
  }

  lemma ContractMoveSimulates(p: Platform, cfg: Setup.Config, pcr0: Bytes, owner: Address, f: Fleet, move: FleetMove)
    requires FleetInv(p, pcr0, f) && ReachedFrom(p, cfg, pcr0, owner, WorldOf(f))
    requires AllowedMove(p, pcr0, f, move) && (move.RegisterStored? || move.Transaction? || move.ForeignPut?)
    ensures FleetInv(p, pcr0, Moves(p, cfg, pcr0, f, move))
    ensures ReachedFrom(p, cfg, pcr0, owner, WorldOf(Moves(p, cfg, pcr0, f, move)))
  {
    var f' := Moves(p, cfg, pcr0, f, move);
    if move.RegisterStored? {
      var w' := MoveOnce(p, cfg, pcr0, owner, WorldOf(f), RegistrationStep(RawOf(move.put)));
      assert WorldOf(f') == w';
    } else if move.Transaction? {
      var w' := MoveOnce(p, cfg, pcr0, owner, WorldOf(f), TransactionStep(move.tx));
      assert WorldOf(f') == w';
    } else {
      assert WorldOf(f') == WorldOf(f);
    }
    StoredStaysAuthentic(p, pcr0, f, f');
  }

  lemma MoveSimulates(p: Platform, cfg: Setup.Config, pcr0: Bytes, owner: Address, f: Fleet, move: FleetMove)
    requires FleetInv(p, pcr0, f) && ReachedFrom(p, cfg, pcr0, owner, WorldOf(f)) && AllowedMove(p, pcr0, f, move)
    ensures FleetInv(p, pcr0, Moves(p, cfg, pcr0, f, move))
    ensures ReachedFrom(p, cfg, pcr0, owner, WorldOf(Moves(p, cfg, pcr0, f, move)))
  {
    match move
    case BootSite(_, _, _, _) => BootSimulates(p, cfg, pcr0, owner, f, move);
    case SiteStep(id, step) =>
      HostStepLeads(p, f.sites[id], step);
      HostStepKeepsInv(p, f.sites[id], step);
      PutsGrow(p, f.sites[id], step);
      SiteStepKeepsInv(p, pcr0, f, id, HostApply(p, f.sites[id], step));
      SiteStepSimulates(p, cfg, pcr0, owner, f, id, HostApply(p, f.sites[id], step));
    case _ => ContractMoveSimulates(p, cfg, pcr0, owner, f, move);
  }

  lemma {:induction false} RunSimulates(p: Platform, cfg: Setup.Config, pcr0: Bytes, owner: Address, f: Fleet,
                                        moves: seq<FleetMove>)
    requires FleetInv(p, pcr0, f) && ReachedFrom(p, cfg, pcr0, owner, WorldOf(f))
    requires FleetRun(p, cfg, pcr0, f, moves)
    ensures FleetInv(p, pcr0, FleetAfter(p, cfg, pcr0, f, moves))
    ensures ReachedFrom(p, cfg, pcr0, owner, WorldOf(FleetAfter(p, cfg, pcr0, f, moves)))
    decreases |moves|
  {
    if moves == [] {
    } else {
      MoveSimulates(p, cfg, pcr0, owner, f, moves[0]);
      RunSimulates(p, cfg, pcr0, owner, Moves(p, cfg, pcr0, f, moves[0]), moves[1..]);
    }
  }

  /**
   * Every run of the fleet is a run of the world: each host is in order, no stored object fakes the measured code
   * though anyone may store objects, and so whatever holds in all runs of the world holds in all runs of the fleet.
   */
  lemma FleetSimulatesWorld(p: Platform, cfg: Setup.Config, pcr0: Bytes, owner: Address, f: Fleet)
    requires FleetReached(p, cfg, pcr0, owner, f)
    ensures FleetInv(p, pcr0, f) && ReachedFrom(p, cfg, pcr0, owner, WorldOf(f))
  {
    var moves :|
      && FleetRun(p, cfg, pcr0, InitialFleet(owner), moves)
      && FleetAfter(p, cfg, pcr0, InitialFleet(owner), moves) == f;
    ReachedInitially(p, cfg, pcr0, owner);
    assert WorldOf(InitialFleet(owner)) == InitialWorld(owner);
    RunSimulates(p, cfg, pcr0, owner, InitialFleet(owner), moves);
  }

  /** Safety, for the fleet: an accepted proof is backed by an execution in the enclave of some site. */
  lemma FleetProofsAreJustified(p: Platform, cfg: Setup.Config, pcr0: Bytes, owner: Address, f: Fleet,
                                routes: map<Bytes4, Route>, vkey: Bytes32, publicValues: Bytes, proof: Bytes)
    requires FleetReached(p, cfg, pcr0, owner, f) && cfg.pcr0.Some? && Decode(cfg.pcr0.value) == Some(pcr0)
    requires VerifyProof(ContextOf(p, routes, WorldOf(f)), vkey, publicValues, proof).Accepted?
    requires var layer := Parse(TeeSelector(p.crypto.keccak), proof).layer;
             && NotForged(p, WorldOf(f), vkey, publicValues, layer)
             && NoCollision(p, WorldOf(f), vkey, publicValues, layer)
    ensures var version := Parse(TeeSelector(p.crypto.keccak), proof).layer.version;
            exists id, x :: id in f.sites && ExecutedIn(p, f.sites[id].enclave, pcr0, vkey, publicValues, version, x)
  {
    FleetSimulatesWorld(p, cfg, pcr0, owner, f);
    AcceptedProofsAreJustified(p, cfg, pcr0, WorldOf(f), routes, vkey, publicValues, proof);
    var version := Parse(TeeSelector(p.crypto.keccak), proof).layer.version;
    var id, x :| id in WorldOf(f).enclaves
                 && ExecutedIn(p, WorldOf(f).enclaves[id], pcr0, vkey, publicValues, version, x);
    assert ExecutedIn(p, f.sites[id].enclave, pcr0, vkey, publicValues, version, x);
  }

  // ----- What a caller can do with its reply -----

  /** The envelope that a caller builds from the reply as it is and the enclave's version. */
  function CallersProof(p: Platform, e: Enclave, reply: Reply, inner: Bytes): Bytes
    requires reply.TeeResponse?
  {
    SignedProofBytes(TeeSelector(p.crypto.keccak),
                     Layer(reply.v, reply.signature.r, reply.signature.s, LittleEndian(e.version, 4)), inner)
  }

  lemma CallersReplyIsSigned(p: Platform, e: Enclave, job: Job, reply: Reply)
    requires Results(p, e, Finished(job, reply)) && reply.TeeResponse?
    ensures reply.v == EthereumV(reply.signature.recoveryId)
    ensures p.crypto.sign(e.key, MessageHash(p.crypto.keccak, LittleEndian(e.version, 4),
                                             reply.vkey, reply.publicValues))
         == Some(reply.signature)
  {
    var response :| reply == ReplyTo(response) && Answers(p, e, Execute(job), response);
    SameMessage(p.crypto.keccak, e.version, reply.vkey, reply.publicValues);
  }

  /**
   * Completeness, for every caller of every host in every run: the proof that a caller builds from what it got is
   * accepted exactly when the recovery id is 0 or 1, the address of that host's enclave is registered, and the
   * gateway accepts the inner proof.
   */
  lemma CallersProofVerifiesIff(p: Platform, cfg: Setup.Config, pcr0: Bytes, owner: Address, f: Fleet,
                                routes: map<Bytes4, Route>, id: nat, t: nat, address: Address, inner: Bytes)
    requires FleetReached(p, cfg, pcr0, owner, f) && id in f.sites && t in f.sites[id].tasks
    requires f.sites[id].tasks[t].Finished? && f.sites[id].tasks[t].reply.TeeResponse?
    requires f.sites[id].tasks[t].reply.signature.recoveryId <= 3
    requires SignaturesRecover(p, f.sites[id].enclave.key) && AddressOf(p, f.sites[id].enclave) == Some(address)
    ensures var reply, x := f.sites[id].tasks[t].reply, ContextOf(p, routes, WorldOf(f));
            var proof := CallersProof(p, f.sites[id].enclave, reply, inner);
            VerifyProof(x, reply.vkey, reply.publicValues, proof).Accepted? <==>
              && reply.signature.recoveryId <= 1 && address in f.contract.signers
              && VerifyAtGateway(x, reply.vkey, reply.publicValues, inner).Accepted?
  {
    var task, e := f.sites[id].tasks[t], f.sites[id].enclave;
    assert Results(p, e, task) by {
      FleetSimulatesWorld(p, cfg, pcr0, owner, f);
      assert HostInv(p, f.sites[id]);
    }
    assert Consistent(f.contract) by {
      FleetSimulatesWorld(p, cfg, pcr0, owner, f);
      ReachedContract(p, cfg, pcr0, owner, WorldOf(f));
    }
    CallersReplyIsSigned(p, e, task.job, task.reply);
    SignedEnvelopeVerifiesIff(p, e, ContextOf(p, routes, WorldOf(f)), task.reply.vkey, task.reply.publicValues,
                              task.reply.signature, address, inner);
  }

  // ----- A whole run that succeeds -----

  lemma {:induction false} OneMoreFleetMove(p: Platform, cfg: Setup.Config, pcr0: Bytes, f: Fleet,
                                            moves: seq<FleetMove>, move: FleetMove)
    requires FleetRun(p, cfg, pcr0, f, moves) && AllowedMove(p, pcr0, FleetAfter(p, cfg, pcr0, f, moves), move)
    ensures FleetRun(p, cfg, pcr0, f, moves + [move])
    ensures FleetAfter(p, cfg, pcr0, f, moves + [move])
         == Moves(p, cfg, pcr0, FleetAfter(p, cfg, pcr0, f, moves), move)
    decreases |moves|
  {
    if moves == [] {
      assert [move][1..] == [];
    } else {
      OneMoreFleetMove(p, cfg, pcr0, Moves(p, cfg, pcr0, f, moves[0]), moves[1..], move);
      assert (moves + [move])[1..] == moves[1..] + [move];
    }
  }

  lemma MoveFleet(p: Platform, cfg: Setup.Config, pcr0: Bytes, owner: Address, f: Fleet, move: FleetMove)
    requires FleetReached(p, cfg, pcr0, owner, f) && AllowedMove(p, pcr0, f, move)
    ensures FleetReached(p, cfg, pcr0, owner, Moves(p, cfg, pcr0, f, move))
  {
    var moves :|
      && FleetRun(p, cfg, pcr0, InitialFleet(owner), moves)
      && FleetAfter(p, cfg, pcr0, InitialFleet(owner), moves) == f;
    OneMoreFleetMove(p, cfg, pcr0, InitialFleet(owner), moves, move);
  }

  lemma WithSiteTwice(f: Fleet, id: nat, s: System, s': System)
    requires id in f.sites && f.sites[id].puts <= s.puts <= s'.puts
    ensures WithSite(WithSite(f, id, s), id, s') == WithSite(f, id, s')
  {
    var n := |f.sites[id].puts|;
    assert s.puts[n..] + s'.puts[|s.puts|..] == s'.puts[n..];
    assert f.sites[id := s][id := s'] == f.sites[id := s'];
  }

  /** What one host can do by itself, it can do in the fleet. */
  lemma {:induction false} SiteRunsInFleet(p: Platform, cfg: Setup.Config, pcr0: Bytes, owner: Address, f: Fleet,
                                           id: nat, steps: seq<HostStep>)
    requires FleetReached(p, cfg, pcr0, owner, f) && id in f.sites && HostPossible(p, f.sites[id], steps)
    ensures f.sites[id].puts <= HostAfter(p, f.sites[id], steps).puts
    ensures FleetReached(p, cfg, pcr0, owner, WithSite(f, id, HostAfter(p, f.sites[id], steps)))
    decreases |steps|
  {
    var s := f.sites[id];
    if steps == [] {
      assert f.sites[id := s] == f.sites && f.stored + [] == f.stored;
      assert WithSite(f, id, s) == f;
    } else {
      var s' := HostApply(p, s, steps[0]);
      PutsGrow(p, s, steps[0]);
      MoveFleet(p, cfg, pcr0, owner, f, SiteStep(id, steps[0]));
      SiteRunsInFleet(p, cfg, pcr0, owner, WithSite(f, id, s'), id, steps[1..]);
      WithSiteTwice(f, id, s', HostAfter(p, s', steps[1..]));
    }
  }

  lemma LeadInFleet(p: Platform, cfg: Setup.Config, pcr0: Bytes, owner: Address, f: Fleet, id: nat, s': System)
    returns (f': Fleet)
    requires FleetReached(p, cfg, pcr0, owner, f) && id in f.sites && HostRuns.HostLeads(p, f.sites[id], s')
    ensures f.sites[id].puts <= s'.puts && f' == WithSite(f, id, s') && FleetReached(p, cfg, pcr0, owner, f')
  {
    var steps :| HostPossible(p, f.sites[id], steps) && HostAfter(p, f.sites[id], steps) == s';
    SiteRunsInFleet(p, cfg, pcr0, owner, f, id, steps);
    f' := WithSite(f, id, s');
  }

  /** A new execution and a new save at one site. */
  datatype Errand = Errand(execution: nat, save: nat, x: Execution, signature: Signature, put: Put)

  /** The program has an output that the enclave signs, and the enclave can be attested; nothing else is asked. */
  ghost predicate CanRun(p: Platform, s: System, r: Errand) {
    && r.execution !in s.tasks && r.save !in s.tasks && r.execution != r.save
    && HostRuns.CanSign(p, s.enclave, r.x, r.signature)
    && OwnAttestation(p, s.enclave, r.put.attestation)
    && AddressOf(p, s.enclave) == Some(r.put.address)
  }

  function ReplyOf(p: Platform, x: Execution, signature: Signature): Reply {
    TeeResponse(p.vkeyOf(x.job.program), x.publicValues, signature, EthereumV(signature.recoveryId))
  }

  /** The errand is run, and every execution that was there before has ended with its own answer, unless lost. */
  ghost predicate ErrandDone(p: Platform, s: System, s': System, r: Errand) {
    && s'.puts == s.puts + [r.put] && s'.tasks.Keys == s.tasks.Keys + {r.execution, r.save}
    && s'.tasks[r.execution] == Finished(r.x.job, ReplyOf(p, r.x, r.signature)) && s'.tasks[r.save] == Saved
    && (forall t | t in s.tasks :: HostProgress.Ends(p, s, s', t))
    && s'.enclave.key == s.enclave.key && s'.enclave.version == s.enclave.version
    && s'.enclave.pcr0 == s.enclave.pcr0
  }

  lemma ExecuteAndSave(p: Platform, from: System, s: System, r: Errand) returns (s': System)
    requires HostRuns.HostLeads(p, from, s) && CanRun(p, s, r) && s.mutex.None? && s.enclave.guard.None?
    ensures HostRuns.HostLeads(p, from, s') && Extends(s.enclave, s'.enclave) && s'.puts == s.puts + [r.put]
    ensures s'.tasks == s.tasks[r.execution := Finished(r.x.job, ReplyOf(p, r.x, r.signature))][r.save := Saved]
  {
    var c := NumbersAreBounded(s.enclave.connections.Keys);
    var s1 := HostRuns.ExecutionCanReturn(p, from, s, r.execution, c, r.x, r.signature);
    s' := HostRuns.SaveCanStore(p, from, s1, r.save, c + 1, r.put);
  }

  /** Whatever is going on, the site first finishes it, and then runs the errand. */
  lemma RunErrand(p: Platform, s: System, r: Errand) returns (s': System)
    requires SystemInv(p, s) && CanRun(p, s, r)
    ensures HostRuns.HostLeads(p, s, s') && ErrandDone(p, s, s', r)
  {
    var settled := HostProgress.SettleAll(p, s);
    s' := ExecuteAndSave(p, s, settled, r);
    forall t | t in s.tasks ensures HostProgress.Ends(p, s, s', t) {
      assert HostProgress.Ends(p, s, settled, t) && s'.tasks[t] == settled.tasks[t];
      if HostProgress.HasAnswer(p, settled.enclave, settled.tasks[t]) {
        AnswerPersists(p, settled.enclave, s'.enclave, settled.tasks[t]);
      }
    }
  }

  lemma AnswerPersists(p: Platform, e: Enclave, e': Enclave, task: HostTask)
    requires HostProgress.HasAnswer(p, e, task) && Extends(e, e')
    ensures HostProgress.HasAnswer(p, e', task)
  {
  }

  lemma RegisterFromBucket(p: Platform, cfg: Setup.Config, pcr0: Bytes, owner: Address, f: Fleet, put: Put)
    returns (f': Fleet)
    requires FleetReached(p, cfg, pcr0, owner, f) && put in f.stored && put.address != ZERO
    requires cfg.registerSigners && cfg.sender == f.contract.owner && Setup.Verifies(TrustOf(p), cfg, RawOf(put))
    ensures FleetReached(p, cfg, pcr0, owner, f') && f' == f.(contract := f'.contract)
    ensures put.address in f'.contract.signers && f.contract.signers <= f'.contract.signers
  {
    FleetSimulatesWorld(p, cfg, pcr0, owner, f);
    ReachedContract(p, cfg, pcr0, owner, WorldOf(f));
    Setup.IterationMeaning(TrustOf(p), cfg, f.contract, RawOf(put));
    MoveFleet(p, cfg, pcr0, owner, f, RegisterStored(put));
    f' := Moves(p, cfg, pcr0, f, RegisterStored(put));
  }

  /**
   * The whole system works, at any time: from every state that a run can reach, whatever else is going on, a site can
   * take an execution from its caller and return the output, have its enclave attested, and store the attestation;
   * setup registers it from the bucket; and the contract accepts what the caller builds. Nobody is worse off: other
   * sites and registered signers stay as they were, and executions that were there before have their own answers.
   */
  lemma FleetCanDeliver(p: Platform, cfg: Setup.Config, pcr0: Bytes, owner: Address, f: Fleet, id: nat, r: Errand,
                        routes: map<Bytes4, Route>, inner: Bytes)
    returns (f': Fleet)
    requires FleetReached(p, cfg, pcr0, owner, f) && id in f.sites && CanRun(p, f.sites[id], r)
    requires f.sites[id].enclave.pcr0 == pcr0 && r.put.address != ZERO
    requires cfg.registerSigners && cfg.sender == f.contract.owner
    requires cfg.pcr0.Some? && Decode(cfg.pcr0.value) == Some(pcr0)
    requires SignaturesRecover(p, f.sites[id].enclave.key) && r.signature.recoveryId <= 1
    requires BaseProof(Context(p.crypto, routes, {}), p.vkeyOf(r.x.job.program), r.x.publicValues, inner)
    ensures FleetReached(p, cfg, pcr0, owner, f') && id in f'.sites
    ensures f'.sites == f.sites[id := f'.sites[id]] && f.contract.signers <= f'.contract.signers
    ensures ErrandDone(p, f.sites[id], f'.sites[id], r)
    ensures r.put.address in Bucket(f'.stored) && Bucket(f'.stored)[r.put.address] == r.put.attestation
    ensures VerifyProof(ContextOf(p, routes, WorldOf(f')), p.vkeyOf(r.x.job.program), r.x.publicValues,
                        CallersProof(p, f'.sites[id].enclave, ReplyOf(p, r.x, r.signature), inner)).Accepted?
  {
    FleetSimulatesWorld(p, cfg, pcr0, owner, f);
    var s' := RunErrand(p, f.sites[id], r);
    var f1 := LeadInFleet(p, cfg, pcr0, owner, f, id, s');
    assert f1.stored[|f1.stored| - 1] == r.put;
    f' := RegisterFromBucket(p, cfg, pcr0, owner, f1, r.put);
    CallersProofVerifiesIff(p, cfg, pcr0, owner, f', routes, id, r.execution, r.put.address, inner);
  }

  /** In particular from deployment, once the first site has booted. */
  lemma FirstSiteCanDeliver(p: Platform, cfg: Setup.Config, pcr0: Bytes, owner: Address, key: Bytes, version: nat,
                            r: Errand, routes: map<Bytes4, Route>, inner: Bytes)
    returns (f: Fleet)
    requires CanRun(p, Initial(Booted(key, version, pcr0)), r) && r.put.address != ZERO
    requires cfg == Setup.Config(cfg.pcr0, true, owner) && cfg.pcr0.Some? && Decode(cfg.pcr0.value) == Some(pcr0)
    requires SignaturesRecover(p, key) && r.signature.recoveryId <= 1
    requires BaseProof(Context(p.crypto, routes, {}), p.vkeyOf(r.x.job.program), r.x.publicValues, inner)
    ensures FleetReached(p, cfg, pcr0, owner, f) && 0 in f.sites && f.sites[0].enclave.key == key
    ensures VerifyProof(ContextOf(p, routes, WorldOf(f)), p.vkeyOf(r.x.job.program), r.x.publicValues,
                        CallersProof(p, f.sites[0].enclave, ReplyOf(p, r.x, r.signature), inner)).Accepted?
  {
    var start, none: seq<FleetMove> := InitialFleet(owner), [];
    assert FleetRun(p, cfg, pcr0, start, none) && FleetAfter(p, cfg, pcr0, start, none) == start;
    MoveFleet(p, cfg, pcr0, owner, start, BootSite(0, key, version, pcr0));
    var booted := Moves(p, cfg, pcr0, start, BootSite(0, key, version, pcr0));
    f := FleetCanDeliver(p, cfg, pcr0, owner, booted, 0, r, routes, inner);
  }
}
