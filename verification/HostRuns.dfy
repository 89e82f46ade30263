/** What holds in every run of a host with its enclave. */
module HostRuns {
  import opened ByteStrings
  import opened Addresses
  import opened CryptoModel
  import opened Enclaves
  import opened Hosts

  /** Some run leads from one state to the other. */
  ghost predicate HostLeads(p: Platform, s: System, s': System) {
    exists steps :: HostPossible(p, s, steps) && HostAfter(p, s, steps) == s'
  }

  ghost predicate HostReachable(p: Platform, e: Enclave, s: System) {
    HostLeads(p, Initial(e), s)
  }

  lemma HostReachableInv(p: Platform, key: Bytes, version: nat, pcr0: Bytes, s: System)
    requires HostReachable(p, Booted(key, version, pcr0), s)
    ensures SystemInv(p, s) && Extends(Booted(key, version, pcr0), s.enclave)
  {
    var e := Booted(key, version, pcr0);
    var steps :| HostPossible(p, Initial(e), steps) && HostAfter(p, Initial(e), steps) == s;
    HostRunKeepsInv(p, Initial(e), steps);
  }

  lemma LeadsToItself(p: Platform, s: System)
    ensures HostLeads(p, s, s)
  {
    var none: seq<HostStep> := [];
    assert HostPossible(p, s, none) && HostAfter(p, s, none) == s;
  }

  lemma {:induction false} OneMoreStep(p: Platform, s: System, steps: seq<HostStep>, step: HostStep)
    requires HostPossible(p, s, steps) && HostEnabled(p, HostAfter(p, s, steps), step)
    ensures HostPossible(p, s, steps + [step])
    ensures HostAfter(p, s, steps + [step]) == HostApply(p, HostAfter(p, s, steps), step)
    decreases |steps|
  {
    if steps == [] {
      assert [step][1..] == [];
    } else {
      OneMoreStep(p, HostApply(p, s, steps[0]), steps[1..], step);
      assert (steps + [step])[1..] == steps[1..] + [step];
    }
  }

  lemma LeadOneMore(p: Platform, from: System, s: System, step: HostStep)
    requires HostLeads(p, from, s) && HostEnabled(p, s, step)
    ensures HostLeads(p, from, HostApply(p, s, step))
  {
    var steps :| HostPossible(p, from, steps) && HostAfter(p, from, steps) == s;
    OneMoreStep(p, from, steps, step);
  }

  // ----- What hosts store and answer -----

  /**
   * Every object that saving tasks of this host ever store, pipelined requests and concurrent sessions included,
   * is an attestation of the enclave's own key, stored under the address that this key derives to; and that is
   * also the address that the host tells its callers.
   */
  lemma StoredUnderTheAttestedAddress(p: Platform, key: Bytes, version: nat, pcr0: Bytes, s: System, put: Put)
    requires HostReachable(p, Booted(key, version, pcr0), s) && put in s.puts
    ensures p.validate(put.attestation).Some?
    ensures var doc := p.validate(put.attestation).value;
            && doc.publicKey == Some(key)
            && AddressFromSec1(p.crypto.keccak, doc.publicKey.value) == Some(put.address)
    ensures forall t | t in s.tasks && s.tasks[t].Answered? :: s.tasks[t].address == put.address
    ensures forall other | other in s.puts :: other.address == put.address
  {
    HostReachableInv(p, key, version, pcr0, s);
    assert RightfulPut(p, s.enclave, put);
    forall other | other in s.puts ensures other.address == put.address {
      assert RightfulPut(p, s.enclave, other);
    }
    forall t | t in s.tasks && s.tasks[t].Answered? ensures s.tasks[t].address == put.address {
      assert Results(p, s.enclave, s.tasks[t]);
    }
  }

  /** A caller that gets signed public values gets those of its own program and input, with 27 added to the id. */
  lemma CallersGetTheirOwnResult(p: Platform, key: Bytes, version: nat, pcr0: Bytes, s: System, t: nat)
    requires HostReachable(p, Booted(key, version, pcr0), s) && t in s.tasks
    requires s.tasks[t].Finished? && s.tasks[t].reply.TeeResponse?
    ensures var job, reply := s.tasks[t].job, s.tasks[t].reply;
            && job.cycleLimit <= 0xFFFF_FFFF
            && reply.vkey == p.vkeyOf(job.program)
            && p.run(job.program, job.stdin, job.cycleLimit) == Some(reply.publicValues)
            && p.crypto.sign(key, SignedDigest(p, s.enclave, job.program, reply.publicValues)) == Some(reply.signature)
            && reply.v == (reply.signature.recoveryId + 27) % 256
            && Execution(job, reply.publicValues) in s.enclave.executions
  {
    HostReachableInv(p, key, version, pcr0, s);
    assert Results(p, s.enclave, s.tasks[t]);
  }

  /**
   * What a caller is told: its own signed output, or the enclave's reason for having none, or that the connection
   * failed; a response of another kind never comes.
   */
  lemma CallersLearnWhy(p: Platform, key: Bytes, version: nat, pcr0: Bytes, s: System, t: nat)
    requires HostReachable(p, Booted(key, version, pcr0), s) && t in s.tasks && s.tasks[t].Finished?
    ensures s.tasks[t].reply != UnexpectedResponse
    ensures s.tasks[t].reply.EnclaveError? ==> RightfulError(p, s.enclave, s.tasks[t].job, s.tasks[t].reply.reason)
  {
    HostReachableInv(p, key, version, pcr0, s);
    assert Results(p, s.enclave, s.tasks[t]);
  }

  /** What the next reply on its connection makes of a task that waits for it, whatever the reply is. */
  lemma ReplyReachesCaller(p: Platform, s: System, t: nat)
    requires HostEnabled(p, s, Receive(t)) && s.tasks[t].Sent?
    ensures var job, response := s.tasks[t].job, s.enclave.connections[s.tasks[t].c].toHost[0];
            var after := HostApply(p, s, Receive(t));
            && t in after.tasks && after.tasks[t].Finished? && after.tasks[t].job == job
            && after.tasks[t].reply
                 == (match response
                     case SignedPublicValues(vkey, publicValues, signature) =>
                       TeeResponse(vkey, publicValues, signature, (signature.recoveryId + 27) % 256)
                     case Error(reason) => EnclaveError(reason)
                     case _ => UnexpectedResponse)
            && (s.mutex == Some(t) ==> after.mutex.None?)
  {
  }

  /** What a failure or a drop leaves: the caller's error, a free mutex, and what was given up on the connection. */
  lemma GivingUpReachesCaller(p: Platform, s: System, t: nat)
    requires HostEnabled(p, s, Fail(t)) && MutexInv(s)
    ensures var task, failed, dropped := s.tasks[t], HostApply(p, s, Fail(t)), HostApply(p, s, Drop(t));
            && t in failed.tasks && t in dropped.tasks && dropped.tasks[t] == Dropped
            && failed.tasks[t]
                 == (match task
                     case Locked(job) => Finished(job, IoError)
                     case Connected(job, _) => Finished(job, IoError)
                     case Sent(job, _) => Finished(job, IoError)
                     case _ => Failed)
            && failed.mutex == dropped.mutex && failed.mutex != Some(t)
            && (s.mutex != Some(t) ==> failed.mutex == s.mutex)
            && failed.abandoned == dropped.abandoned
            && failed.abandoned == s.abandoned + (if task.Sent? then {task.c} else {})
            && failed.puts == dropped.puts == s.puts
  {
  }

  // ----- What tasks can achieve -----

  /** The system with one task and one connection replaced. */
  function With(s: System, t: nat, task: HostTask, c: nat, conn: Connection): System {
    s.(tasks := s.tasks[t := task], enclave := s.enclave.(connections := s.enclave.connections[c := conn]))
  }

  lemma WithTwice(s: System, t: nat, task: HostTask, task': HostTask, c: nat, conn: Connection, conn': Connection)
    ensures With(With(s, t, task, c, conn), t, task', c, conn') == With(s, t, task', c, conn')
  {
    assert s.tasks[t := task][t := task'] == s.tasks[t := task'];
    assert s.enclave.connections[c := conn][c := conn'] == s.enclave.connections[c := conn'];
  }

  /** A connection on which only the host has been active so far. */
  function Pending(requests: seq<Request>): Connection {
    Connection(requests, [], Receiving, requests, [])
  }

  /** A task connects on a new connection. */
  lemma Connects(p: Platform, from: System, s: System, t: nat, c: nat, next: HostTask) returns (s': System)
    requires HostLeads(p, from, s) && HostEnabled(p, s, Connect(t, c))
    requires s.tasks[t].Locked? ==> next == Connected(s.tasks[t].job, c)
    requires s.tasks[t].Saving? ==> next == SaveConnected(c)
    requires s.tasks[t].Asking? ==> next == AskConnected(c)
    ensures HostLeads(p, from, s') && s' == With(s, t, next, c, Pending([]))
  {
    LeadOneMore(p, from, s, Connect(t, c));
    s' := HostApply(p, s, Connect(t, c));
  }

  /** A task sends its next request. */
  lemma Sends(p: Platform, from: System, s: System, t: nat, request: Request, next: HostTask) returns (s': System)
    requires HostLeads(p, from, s) && t in s.tasks && NextRequest(s.tasks[t]) == Some((request, next))
    requires s.tasks[t].c in s.enclave.connections
    ensures HostLeads(p, from, s')
    ensures var c := s.tasks[t].c;
            var conn := s.enclave.connections[c];
            s' == With(s, t, next, c, conn.(toEnclave := conn.toEnclave + [request], sent := conn.sent + [request]))
  {
    LeadOneMore(p, from, s, Send(t));
    s' := HostApply(p, s, Send(t));
  }

  /** The same on a connection where the enclave has not yet reacted, with all requests so far. */
  lemma SendsAlso(p: Platform, from: System, s: System, t: nat, task: HostTask, c: nat, requests: seq<Request>,
                  request: Request, next: HostTask)
    returns (s': System)
    requires HostLeads(p, from, With(s, t, task, c, Pending(requests)))
    requires OnConnection(task) && task.c == c && NextRequest(task) == Some((request, next))
    ensures HostLeads(p, from, s') && s' == With(s, t, next, c, Pending(requests + [request]))
  {
    s' := Sends(p, from, With(s, t, task, c, Pending(requests)), t, request, next);
    WithTwice(s, t, task, next, c, Pending(requests), Pending(requests + [request]));
  }

  lemma Serves(p: Platform, from: System, s: System, step: Step) returns (s': System)
    requires HostLeads(p, from, s) && IsServerStep(step) && Enabled(p, s.enclave, step)
    ensures HostLeads(p, from, s') && s' == s.(enclave := Apply(p, s.enclave, step))
  {
    LeadOneMore(p, from, s, ServerStep(step));
    s' := HostApply(p, s, ServerStep(step));
  }

  lemma LockExecution(p: Platform, from: System, s: System, t: nat, job: Job) returns (s': System)
    requires HostLeads(p, from, s) && t !in s.tasks && s.mutex.None?
    ensures HostLeads(p, from, s') && s' == s.(tasks := s.tasks[t := Locked(job)], mutex := Some(t))
  {
    LeadOneMore(p, from, s, SpawnExecution(t, job));
    var s1 := HostApply(p, s, SpawnExecution(t, job));
    LeadOneMore(p, from, s1, Lock(t));
    s' := HostApply(p, s1, Lock(t));
    assert s.tasks[t := Queued(job)][t := Locked(job)] == s.tasks[t := Locked(job)];
  }

  /** An execution request that finds the mutex free, up to the point where it waits for its reply. */
  lemma SendExecution(p: Platform, from: System, s: System, t: nat, c: nat, job: Job) returns (s': System)
    requires HostLeads(p, from, s) && t !in s.tasks && c !in s.enclave.connections && s.mutex.None?
    ensures HostLeads(p, from, s')
    ensures s' == With(s, t, Sent(job, c), c, Pending([Execute(job)])).(mutex := Some(t))
  {
    var locked := LockExecution(p, from, s, t, job);
    var connected := Connects(p, from, locked, t, c, Connected(job, c));
    s' := SendsAlso(p, from, locked, t, Connected(job, c), c, [], Execute(job), Sent(job, c));
    assert [] + [Execute(job)] == [Execute(job)];
    assert locked.tasks[t := Sent(job, c)] == s.tasks[t := Sent(job, c)];
  }

  lemma StartSave(p: Platform, from: System, s: System, t: nat, c: nat) returns (s': System)
    requires HostLeads(p, from, s) && t !in s.tasks && c !in s.enclave.connections
    ensures HostLeads(p, from, s') && s' == With(s, t, SaveConnected(c), c, Pending([]))
  {
    LeadOneMore(p, from, s, SpawnSave(t));
    var saving := HostApply(p, s, SpawnSave(t));
    s' := Connects(p, from, saving, t, c, SaveConnected(c));
    assert saving.tasks[t := SaveConnected(c)] == s.tasks[t := SaveConnected(c)];
  }

  /** A saving task sends both of its requests before it reads a reply. */
  lemma SaveIsPipelined(p: Platform, from: System, s: System, t: nat, c: nat) returns (s': System)
    requires HostLeads(p, from, s) && t !in s.tasks && c !in s.enclave.connections
    ensures HostLeads(p, from, s')
    ensures s' == With(s, t, SentBoth(c), c, Pending([AttestSigningKey, GetPublicKey]))
  {
    var connected := StartSave(p, from, s, t, c);
    var one := SendsAlso(p, from, s, t, SaveConnected(c), c, [], AttestSigningKey, SentAttest(c));
    assert [] + [AttestSigningKey] == [AttestSigningKey];
    s' := SendsAlso(p, from, s, t, SentAttest(c), c, [AttestSigningKey], GetPublicKey, SentBoth(c));
    assert [AttestSigningKey] + [GetPublicKey] == [AttestSigningKey, GetPublicKey];
  }

  /** The states of a saving task's connection while both of its requests are served. */
  function Serving(toEnclave: seq<Request>, toHost: seq<Response>, task: Task, replies: seq<Response>): Connection {
    Connection(toEnclave, toHost, task, [AttestSigningKey, GetPublicKey], replies)
  }

  lemma SaveIsAttested(p: Platform, from: System, s: System, c: nat, attestation: Bytes) returns (s': System)
    requires HostLeads(p, from, s) && c in s.enclave.connections && OwnAttestation(p, s.enclave, attestation)
    requires s.enclave.connections[c] == Pending([AttestSigningKey, GetPublicKey])
    ensures HostLeads(p, from, s') && s' == s.(enclave := s'.enclave)
    ensures var reply := SigningKeyAttestation(attestation);
            var served := Serving([GetPublicKey], [reply], Receiving, [reply]);
            s'.enclave == s.enclave.(connections := s.enclave.connections[c := served],
                                     issued := s.enclave.issued + {p.validate(attestation).value})
  {
    var reply := SigningKeyAttestation(attestation);
    var s1 := Serves(p, from, s, Recv(c));
    assert s1.enclave.connections[c] == Serving([GetPublicKey], [], Attesting, []);
    var s2 := Serves(p, from, s1, AttestEnds(c, Attested(attestation)));
    assert s2.enclave.connections[c] == Serving([GetPublicKey], [], Replying(reply), []);
    s' := Serves(p, from, s2, Reply(c));
    assert s'.enclave.connections[c] == Serving([GetPublicKey], [reply], Receiving, [reply]);
    assert s'.enclave.connections == s.enclave.connections[c := s'.enclave.connections[c]];
  }

  lemma SaveIsIdentified(p: Platform, from: System, s: System, c: nat, reply: Response) returns (s': System)
    requires HostLeads(p, from, s) && c in s.enclave.connections
    requires s.enclave.connections[c] == Serving([GetPublicKey], [reply], Receiving, [reply])
    ensures HostLeads(p, from, s') && s' == s.(enclave := s'.enclave)
    ensures var replies := [reply, PublicKey(s.enclave.key)];
            var served := Serving([], replies, Receiving, replies);
            s'.enclave == s.enclave.(connections := s.enclave.connections[c := served])
  {
    var key := PublicKey(s.enclave.key);
    var s1 := Serves(p, from, s, Recv(c));
    assert s1.enclave.connections[c] == Serving([], [reply], Replying(key), [reply]);
    s' := Serves(p, from, s1, Reply(c));
    assert [reply] + [key] == [reply, key];
    assert s'.enclave.connections[c] == Serving([], [reply, key], Receiving, [reply, key]);
    assert s'.enclave.connections == s.enclave.connections[c := s'.enclave.connections[c]];
  }

  /** The enclave's side of a save: both replies, and the record of the document that was issued. */
  lemma SaveIsServed(p: Platform, from: System, s: System, c: nat, attestation: Bytes) returns (s': System)
    requires HostLeads(p, from, s) && c in s.enclave.connections && OwnAttestation(p, s.enclave, attestation)
    requires s.enclave.connections[c] == Pending([AttestSigningKey, GetPublicKey])
    ensures HostLeads(p, from, s') && s' == s.(enclave := s'.enclave)
    ensures var replies := [SigningKeyAttestation(attestation), PublicKey(s.enclave.key)];
            var served := Serving([], replies, Receiving, replies);
            s'.enclave == s.enclave.(connections := s.enclave.connections[c := served],
                                     issued := s.enclave.issued + {p.validate(attestation).value})
  {
    var s1 := SaveIsAttested(p, from, s, c, attestation);
    s' := SaveIsIdentified(p, from, s1, c, SigningKeyAttestation(attestation));
    assert s'.enclave.connections == s.enclave.connections[c := s'.enclave.connections[c]];
  }

  /** A task reads its next reply and stays on its connection, which the mutex does not protect. */
  lemma Reads(p: Platform, from: System, s: System, t: nat, next: HostTask) returns (s': System)
    requires HostLeads(p, from, s) && HostEnabled(p, s, Receive(t)) && s.mutex != Some(t)
    requires next == AfterReply(p.crypto.keccak, s.tasks[t], s.enclave.connections[s.tasks[t].c].toHost[0])
    requires OnConnection(next)
    ensures HostLeads(p, from, s')
    ensures var c := s.tasks[t].c;
            var conn := s.enclave.connections[c];
            s' == With(s, t, next, c, conn.(toHost := conn.toHost[1..]))
  {
    LeadOneMore(p, from, s, Receive(t));
    s' := HostApply(p, s, Receive(t));
  }

  lemma Stores(p: Platform, from: System, s: System, t: nat, c: nat, put: Put) returns (s': System)
    requires HostLeads(p, from, s) && t in s.tasks && s.tasks[t] == Storing(c, put.address, put.attestation)
    requires c in s.enclave.connections && s.mutex != Some(t)
    ensures HostLeads(p, from, s')
    ensures var conn := s.enclave.connections[c];
            var closed := conn.(toEnclave := conn.toEnclave + [CloseSession], sent := conn.sent + [CloseSession]);
            s' == With(s, t, Saved, c, closed).(puts := s.puts + [put])
  {
    LeadOneMore(p, from, s, PutObject(t));
    s' := HostApply(p, s, PutObject(t));
  }

  /** The first reply is the attestation. */
  lemma AttestationIsRead(p: Platform, from: System, s: System, t: nat, c: nat, attestation: Bytes, key: Bytes)
    returns (s': System, conn: Connection)
    requires HostLeads(p, from, s) && t in s.tasks && s.tasks[t] == SentBoth(c) && s.mutex != Some(t)
    requires c in s.enclave.connections
    requires s.enclave.connections[c].toHost == [SigningKeyAttestation(attestation), PublicKey(key)]
    ensures HostLeads(p, from, s') && conn.toHost == [PublicKey(key)]
    ensures s' == With(s, t, GotAttestation(c, attestation), c, conn)
  {
    s' := Reads(p, from, s, t, GotAttestation(c, attestation));
    conn := s'.enclave.connections[c];
  }

  /** The second is the key, whose address is where the attestation goes. */
  lemma KeyIsRead(p: Platform, from: System, s: System, t: nat, c: nat, put: Put)
    returns (s': System, conn: Connection)
    requires HostLeads(p, from, s) && t in s.tasks && s.tasks[t] == GotAttestation(c, put.attestation)
    requires s.mutex != Some(t) && c in s.enclave.connections
    requires s.enclave.connections[c].toHost == [PublicKey(s.enclave.key)]
    requires AddressFromSec1(p.crypto.keccak, s.enclave.key) == Some(put.address)
    ensures HostLeads(p, from, s') && s' == With(s, t, Storing(c, put.address, put.attestation), c, conn)
  {
    s' := Reads(p, from, s, t, Storing(c, put.address, put.attestation));
    conn := s'.enclave.connections[c];
  }

  lemma RepliesAreRead(p: Platform, from: System, s: System, t: nat, c: nat, put: Put)
    returns (s': System, conn: Connection)
    requires HostLeads(p, from, s) && t in s.tasks && s.tasks[t] == SentBoth(c) && s.mutex != Some(t)
    requires c in s.enclave.connections && AddressFromSec1(p.crypto.keccak, s.enclave.key) == Some(put.address)
    requires s.enclave.connections[c].toHost == [SigningKeyAttestation(put.attestation), PublicKey(s.enclave.key)]
    ensures HostLeads(p, from, s') && s' == With(s, t, Storing(c, put.address, put.attestation), c, conn)
  {
    var s1, one := AttestationIsRead(p, from, s, t, c, put.attestation, s.enclave.key);
    s', conn := KeyIsRead(p, from, s1, t, c, put);
    WithTwice(s, t, GotAttestation(c, put.attestation), Storing(c, put.address, put.attestation), c, one, conn);
  }

  /** A saving task whose two replies have arrived stores the attestation under the address of the key. */
  lemma RepliesAreStored(p: Platform, from: System, s: System, t: nat, c: nat, put: Put) returns (s': System)
    requires HostLeads(p, from, s) && t in s.tasks && s.tasks[t] == SentBoth(c) && s.mutex != Some(t)
    requires c in s.enclave.connections && AddressFromSec1(p.crypto.keccak, s.enclave.key) == Some(put.address)
    requires s.enclave.connections[c].toHost == [SigningKeyAttestation(put.attestation), PublicKey(s.enclave.key)]
    ensures HostLeads(p, from, s') && c in s'.enclave.connections
    ensures s' == With(s, t, Saved, c, s'.enclave.connections[c]).(puts := s.puts + [put])
  {
    var read, conn := RepliesAreRead(p, from, s, t, c, put);
    s' := Stores(p, from, read, t, c, put);
    WithTwice(s, t, Storing(c, put.address, put.attestation), Saved, c, conn, s'.enclave.connections[c]);
  }

  /**
   * From any state a new saving task can store whatever attestation the security module issues to the enclave,
   * under the enclave's address, regardless of what other tasks and connections are doing and without disturbing them.
   */
  lemma SaveCanStore(p: Platform, from: System, s: System, t: nat, c: nat, put: Put) returns (s': System)
    requires HostLeads(p, from, s) && t !in s.tasks && c !in s.enclave.connections && s.mutex != Some(t)
    requires OwnAttestation(p, s.enclave, put.attestation)
    requires AddressFromSec1(p.crypto.keccak, s.enclave.key) == Some(put.address)
    ensures HostLeads(p, from, s') && s'.puts == s.puts + [put] && s'.tasks == s.tasks[t := Saved]
    ensures s' == s.(enclave := s'.enclave, puts := s'.puts, tasks := s'.tasks) && c in s'.enclave.connections
    ensures s'.enclave == s.enclave.(connections := s.enclave.connections[c := s'.enclave.connections[c]],
                                     issued := s.enclave.issued + {p.validate(put.attestation).value})
  {
    var s1 := SaveIsPipelined(p, from, s, t, c);
    var s2 := SaveIsServed(p, from, s1, c, put.attestation);
    s' := RepliesAreStored(p, from, s2, t, c, put);
    assert s'.tasks == s.tasks[t := Saved];
    assert s'.enclave.connections == s.enclave.connections[c := s'.enclave.connections[c]];
  }

  /** Within the limit, the program has this output, and the enclave signs it like this. */
  ghost predicate CanSign(p: Platform, e: Enclave, x: Execution, signature: Signature) {
    && x.job.cycleLimit <= 0xFFFF_FFFF
    && p.run(x.job.program, x.job.stdin, x.job.cycleLimit) == Some(x.publicValues)
    && p.crypto.sign(e.key, SignedDigest(p, e, x.job.program, x.publicValues)) == Some(signature)
  }

  /** The records of an enclave that has completed this execution. */
  function Recorded(p: Platform, e: Enclave, x: Execution): Enclave {
    e.(executions := e.executions + [x],
       signed := e.signed + {SignedDigest(p, e, x.job.program, x.publicValues)})
  }

  lemma CanSignAnywhere(p: Platform, e: Enclave, e': Enclave, x: Execution, signature: Signature)
    requires CanSign(p, e, x, signature) && e' == e.(connections := e'.connections)
    ensures CanSign(p, e', x, signature) && Recorded(p, e', x) == Recorded(p, e, x).(connections := e'.connections)
  {
  }

  /** The enclave's side of an execution whose program has an output. */
  lemma ExecutionIsServed(p: Platform, from: System, s: System, c: nat, x: Execution, signature: Signature)
    returns (s': System)
    requires HostLeads(p, from, s) && c in s.enclave.connections && s.enclave.guard.None?
    requires s.enclave.connections[c] == Pending([Execute(x.job)]) && CanSign(p, s.enclave, x, signature)
    ensures HostLeads(p, from, s') && s' == s.(enclave := s'.enclave)
    ensures var response := SignedPublicValues(p.vkeyOf(x.job.program), x.publicValues, signature);
            var answered := Connection([], [response], Receiving, [Execute(x.job)], [response]);
            s'.enclave == Recorded(p, s.enclave, x).(connections := s.enclave.connections[c := answered])
  {
    var response := SignedPublicValues(p.vkeyOf(x.job.program), x.publicValues, signature);
    var s1 := Serves(p, from, s, Recv(c));
    assert s1.enclave.connections[c] == Connection([], [], Checking(x.job), [Execute(x.job)], []);
    var s2 := Serves(p, from, s1, CheckLimit(c));
    var s3 := Serves(p, from, s2, TakeGuard(c));
    assert s3.enclave.connections[c] == Connection([], [], Running(x.job), [Execute(x.job)], []);
    s' := ExecutionIsFinished(p, from, s3, c, x, signature);
    assert s'.enclave.connections == s.enclave.connections[c := s'.enclave.connections[c]];
  }

  lemma ExecutionIsFinished(p: Platform, from: System, s: System, c: nat, x: Execution, signature: Signature)
    returns (s': System)
    requires HostLeads(p, from, s) && c in s.enclave.connections && CanSign(p, s.enclave, x, signature)
    requires s.enclave.connections[c] == Connection([], [], Running(x.job), [Execute(x.job)], [])
    ensures HostLeads(p, from, s') && s' == s.(enclave := s'.enclave)
    ensures var response := SignedPublicValues(p.vkeyOf(x.job.program), x.publicValues, signature);
            var answered := Connection([], [response], Receiving, [Execute(x.job)], [response]);
            s'.enclave == Recorded(p, s.enclave, x).(guard := None, connections := s.enclave.connections[c := answered])
  {
    var response := SignedPublicValues(p.vkeyOf(x.job.program), x.publicValues, signature);
    var s1 := Serves(p, from, s, Finish(c));
    assert s1.enclave.connections[c] == Connection([], [], Replying(response), [Execute(x.job)], []);
    s' := Serves(p, from, s1, Reply(c));
    assert s'.enclave.connections[c] == Connection([], [response], Receiving, [Execute(x.job)], [response]);
    assert s'.enclave.connections == s.enclave.connections[c := s'.enclave.connections[c]];
  }

  lemma ReplyIsReturned(p: Platform, from: System, s: System, t: nat, c: nat, job: Job, response: Response)
    returns (s': System)
    requires HostLeads(p, from, s) && t in s.tasks && s.tasks[t] == Sent(job, c) && s.mutex == Some(t)
    requires c in s.enclave.connections && s.enclave.connections[c].toHost == [response]
    ensures HostLeads(p, from, s') && c in s'.enclave.connections
    ensures s' == With(s, t, Finished(job, ReplyTo(response)), c, s'.enclave.connections[c]).(mutex := None)
  {
    LeadOneMore(p, from, s, Receive(t));
    s' := HostApply(p, s, Receive(t));
    assert s'.enclave.connections == s.enclave.connections[c := s'.enclave.connections[c]];
  }

  /** An execution request up to the point where its reply has arrived. */
  lemma ExecutionIsAnswered(p: Platform, from: System, s: System, t: nat, c: nat, x: Execution, signature: Signature)
    returns (s': System)
    requires HostLeads(p, from, s) && t !in s.tasks && c !in s.enclave.connections
    requires s.mutex.None? && s.enclave.guard.None? && CanSign(p, s.enclave, x, signature)
    ensures HostLeads(p, from, s')
    ensures var response := SignedPublicValues(p.vkeyOf(x.job.program), x.publicValues, signature);
            var answered := Connection([], [response], Receiving, [Execute(x.job)], [response]);
            s' == s.(tasks := s.tasks[t := Sent(x.job, c)], mutex := Some(t),
                     enclave := Recorded(p, s.enclave, x).(connections := s.enclave.connections[c := answered]))
  {
    var s1 := SendExecution(p, from, s, t, c, x.job);
    CanSignAnywhere(p, s.enclave, s1.enclave, x, signature);
    s' := ExecutionIsServed(p, from, s1, c, x, signature);
    assert s'.enclave.connections == s.enclave.connections[c := s'.enclave.connections[c]];
  }

  /**
   * While mutex and guard are free, a new execution request within the limit can return the signed output of its
   * program to its caller, whatever else is going on; both are free again then, and nothing else has changed.
   */
  lemma ExecutionCanReturn(p: Platform, from: System, s: System, t: nat, c: nat, x: Execution, signature: Signature)
    returns (s': System)
    requires HostLeads(p, from, s) && t !in s.tasks && c !in s.enclave.connections
    requires s.mutex.None? && s.enclave.guard.None? && CanSign(p, s.enclave, x, signature)
    ensures HostLeads(p, from, s') && c in s'.enclave.connections
    ensures s' == s.(enclave := s'.enclave, tasks := s'.tasks)
    ensures var reply := TeeResponse(p.vkeyOf(x.job.program), x.publicValues, signature,
                                     (signature.recoveryId + 27) % 256);
            s'.tasks == s.tasks[t := Finished(x.job, reply)]
    ensures s'.enclave
         == Recorded(p, s.enclave, x).(connections := s.enclave.connections[c := s'.enclave.connections[c]])
  {
    var response := SignedPublicValues(p.vkeyOf(x.job.program), x.publicValues, signature);
    var s1 := ExecutionIsAnswered(p, from, s, t, c, x, signature);
    s' := ReplyIsReturned(p, from, s1, t, c, x.job, s1.enclave.connections[c].toHost[0]);
    assert s'.tasks == s.tasks[t := s'.tasks[t]];
    assert s'.enclave.connections == s.enclave.connections[c := s'.enclave.connections[c]];
  }

  /** Why an execution within or over the limit has no output. */
  ghost predicate FailsFor(p: Platform, job: Job, reason: string) {
    if job.cycleLimit > 0xFFFF_FFFF then reason == "Cycle limit is too high"
    else p.run(job.program, job.stdin, job.cycleLimit).None? && reason == "Failed to execute program"
  }

  /** The enclave's side of an execution that has no output. */
  lemma FailureIsServed(p: Platform, from: System, s: System, c: nat, job: Job, reason: string)
    returns (s': System)
    requires HostLeads(p, from, s) && c in s.enclave.connections && s.enclave.guard.None? && FailsFor(p, job, reason)
    requires s.enclave.connections[c] == Pending([Execute(job)])
    ensures HostLeads(p, from, s')
    ensures var answered := Connection([], [Error(reason)], Receiving, [Execute(job)], [Error(reason)]);
            s' == s.(enclave := s.enclave.(connections := s.enclave.connections[c := answered]))
  {
    var s1 := Serves(p, from, s, Recv(c));
    assert s1.enclave.connections[c] == Connection([], [], Checking(job), [Execute(job)], []);
    var s2 := Serves(p, from, s1, CheckLimit(c));
    if job.cycleLimit <= 0xFFFF_FFFF {
      s2 := FailingRun(p, from, s2, c, job);
    }
    assert s2.enclave.connections[c] == Connection([], [], Replying(Error(reason)), [Execute(job)], []);
    s' := Serves(p, from, s2, Reply(c));
    assert s'.enclave.connections[c] == Connection([], [Error(reason)], Receiving, [Execute(job)], [Error(reason)]);
    assert s'.enclave.connections == s.enclave.connections[c := s'.enclave.connections[c]];
  }

  lemma FailingRun(p: Platform, from: System, s: System, c: nat, job: Job) returns (s': System)
    requires HostLeads(p, from, s) && c in s.enclave.connections && s.enclave.guard.None?
    requires s.enclave.connections[c] == Connection([], [], Waiting(job), [Execute(job)], [])
    requires p.run(job.program, job.stdin, job.cycleLimit).None?
    ensures HostLeads(p, from, s')
    ensures var failed := Connection([], [], Replying(Error("Failed to execute program")), [Execute(job)], []);
            s' == s.(enclave := s.enclave.(connections := s.enclave.connections[c := failed]))
  {
    var s1 := Serves(p, from, s, TakeGuard(c));
    s' := Serves(p, from, s1, Finish(c));
    assert s'.enclave.connections == s.enclave.connections[c := s'.enclave.connections[c]];
  }

  /** While mutex and guard are free, the caller of a program without an output can be told the reason. */
  lemma FailureCanReturn(p: Platform, from: System, s: System, t: nat, c: nat, job: Job, reason: string)
    returns (s': System)
    requires HostLeads(p, from, s) && t !in s.tasks && c !in s.enclave.connections
    requires s.mutex.None? && s.enclave.guard.None? && FailsFor(p, job, reason)
    ensures HostLeads(p, from, s') && s'.mutex.None? && s'.enclave.guard.None?
    ensures s'.tasks == s.tasks[t := Finished(job, EnclaveError(reason))] && s'.puts == s.puts
  {
    var s1 := SendExecution(p, from, s, t, c, job);
    var s2 := FailureIsServed(p, from, s1, c, job, reason);
    s' := ReplyIsReturned(p, from, s2, t, c, job, Error(reason));
    assert s'.tasks == s.tasks[t := Finished(job, EnclaveError(reason))];
  }

  // ----- Answering the address -----

  lemma StartAsking(p: Platform, from: System, s: System, t: nat, c: nat) returns (s': System)
    requires HostLeads(p, from, s) && t !in s.tasks && c !in s.enclave.connections
    ensures HostLeads(p, from, s') && s' == With(s, t, Asked(c), c, Pending([GetPublicKey]))
  {
    LeadOneMore(p, from, s, SpawnAddress(t));
    var asking := HostApply(p, s, SpawnAddress(t));
    var connected := Connects(p, from, asking, t, c, AskConnected(c));
    s' := SendsAlso(p, from, asking, t, AskConnected(c), c, [], GetPublicKey, Asked(c));
    assert [] + [GetPublicKey] == [GetPublicKey];
    assert asking.tasks[t := Asked(c)] == s.tasks[t := Asked(c)];
  }

  lemma KeyIsServed(p: Platform, from: System, s: System, c: nat) returns (s': System)
    requires HostLeads(p, from, s) && c in s.enclave.connections
    requires s.enclave.connections[c] == Pending([GetPublicKey])
    ensures HostLeads(p, from, s')
    ensures var key := PublicKey(s.enclave.key);
            var answered := Connection([], [key], Receiving, [GetPublicKey], [key]);
            s' == s.(enclave := s.enclave.(connections := s.enclave.connections[c := answered]))
  {
    var key := PublicKey(s.enclave.key);
    var s1 := Serves(p, from, s, Recv(c));
    assert s1.enclave.connections[c] == Connection([], [], Replying(key), [GetPublicKey], []);
    s' := Serves(p, from, s1, Reply(c));
    assert s'.enclave.connections[c] == Connection([], [key], Receiving, [GetPublicKey], [key]);
    assert s'.enclave.connections == s.enclave.connections[c := s'.enclave.connections[c]];
  }

  lemma AddressIsReturned(p: Platform, from: System, s: System, t: nat, c: nat, address: Address) returns (s': System)
    requires HostLeads(p, from, s) && t in s.tasks && s.tasks[t] == Asked(c) && s.mutex != Some(t)
    requires c in s.enclave.connections && s.enclave.connections[c].toHost == [PublicKey(s.enclave.key)]
    requires AddressFromSec1(p.crypto.keccak, s.enclave.key) == Some(address)
    ensures HostLeads(p, from, s') && c in s'.enclave.connections
    ensures s' == With(s, t, Answered(address), c, s'.enclave.connections[c])
  {
    LeadOneMore(p, from, s, Receive(t));
    s' := HostApply(p, s, Receive(t));
    assert s'.enclave.connections == s.enclave.connections[c := s'.enclave.connections[c]];
  }

  /** From any state a request for the enclave's address can be answered, without disturbing anything else. */
  lemma AddressCanBeAnswered(p: Platform, from: System, s: System, t: nat, c: nat, address: Address)
    returns (s': System)
    requires HostLeads(p, from, s) && t !in s.tasks && c !in s.enclave.connections && s.mutex != Some(t)
    requires AddressFromSec1(p.crypto.keccak, s.enclave.key) == Some(address)
    ensures HostLeads(p, from, s') && s'.tasks == s.tasks[t := Answered(address)]
    ensures s' == s.(enclave := s'.enclave, tasks := s'.tasks) && c in s'.enclave.connections
    ensures s'.enclave == s.enclave.(connections := s.enclave.connections[c := s'.enclave.connections[c]])
  {
    var s1 := StartAsking(p, from, s, t, c);
    var s2 := KeyIsServed(p, from, s1, c);
    s' := AddressIsReturned(p, from, s2, t, c, address);
    assert s'.tasks == s.tasks[t := Answered(address)];
    assert s'.enclave.connections == s.enclave.connections[c := s'.enclave.connections[c]];
  }
}
