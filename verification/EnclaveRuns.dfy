/** What holds in every run of the enclave server, whatever the hosts on its connections do. */
module EnclaveRuns {
  import opened ByteStrings
  import opened CryptoModel
  import opened Enclaves

  ghost predicate Reachable(p: Platform, e: Enclave) {
    exists key, version, pcr0, steps ::
      Possible(p, Booted(key, version, pcr0), steps) && After(p, Booted(key, version, pcr0), steps) == e
  }

  lemma ReachableKeepsInv(p: Platform, e: Enclave)
    requires Reachable(p, e)
    ensures EnclaveInv(p, e)
  {
    var key, version, pcr0, steps :|
      Possible(p, Booted(key, version, pcr0), steps) && After(p, Booted(key, version, pcr0), steps) == e;
    RunKeepsInv(p, Booted(key, version, pcr0), steps);
  }

  // ----- Mutual exclusion -----

  /** The connections whose execution is between taking the guard and leaving the section. */
  function RunningOn(e: Enclave): set<nat> {
    set c | c in e.connections && e.connections[c].task.Running?
  }

  /** At most one execution is in the guarded section, and the guard is taken only while one is. */
  lemma MutualExclusion(p: Platform, e: Enclave)
    requires Reachable(p, e)
    ensures |RunningOn(e)| <= 1
    ensures e.guard.None? <==> RunningOn(e) == {}
    ensures forall c | c in RunningOn(e) :: e.guard == Some(c)
  {
    ReachableKeepsInv(p, e);
    assert RunningOn(e) == if e.guard.Some? then {e.guard.value} else {};
  }

  /** Whoever holds the guard can leave, by finishing or by panicking; either way the next one in line gets it. */
  lemma GuardIsAlwaysReleased(p: Platform, e: Enclave, c: nat, exit: Step)
    requires Reachable(p, e) && e.guard == Some(c)
    requires exit == Finish(c) || exit == ExecutionPanics(c)
    ensures Enabled(p, e, exit) && Apply(p, e, exit).guard.None?
    ensures forall d | d in e.connections && e.connections[d].task.Waiting? ::
              && !Enabled(p, e, TakeGuard(d))
              && Enabled(p, Apply(p, e, exit), TakeGuard(d))
  {
    assert GuardInv(e) by {
      ReachableKeepsInv(p, e);
    }
  }

  /** A handler with something to do can always take a step, except for waiting until the guard is released. */
  lemma HandlersAreNeverStuck(p: Platform, e: Enclave, c: nat)
    requires Reachable(p, e) && c in e.connections
    requires var conn := e.connections[c];
             !conn.task.Closed? && !conn.task.Crashed? && (conn.task.Receiving? ==> conn.toEnclave != [])
    ensures || (exists step: Step :: step.c == c && !step.HostSend? && !step.HostRecv? && Enabled(p, e, step))
            || (e.connections[c].task.Waiting? && e.guard.Some? && Enabled(p, e, Finish(e.guard.value)))
  {
    ReachableKeepsInv(p, e);
    match e.connections[c].task
    case Receiving => assert Enabled(p, e, Recv(c));
    case Attesting => assert Enabled(p, e, AttestEnds(c, NsmFailure));
    case Checking(_) => assert Enabled(p, e, CheckLimit(c));
    case Waiting(_) => assert e.guard.None? ==> Enabled(p, e, TakeGuard(c));
    case Running(_) => assert Enabled(p, e, Finish(c));
    case Replying(_) => assert Enabled(p, e, Reply(c));
    case _ =>
  }

  /** A panicking execution becomes one error reply, and the connection goes on. */
  lemma PanicBecomesOneError(p: Platform, e: Enclave, c: nat)
    requires Reachable(p, e) && c in RunningOn(e)
    ensures var panicked := Apply(p, e, ExecutionPanics(c));
            && Enabled(p, e, ExecutionPanics(c)) && Enabled(p, panicked, Reply(c))
            && var conn, conn' := e.connections[c], Apply(p, panicked, Reply(c)).connections[c];
               && |conn'.replies| == |conn.replies| + 1 == Taken(conn') && conn.replies <= conn'.replies
               && conn'.replies[|conn.replies|].Error? && conn'.task.Receiving?
  {
    ReachableKeepsInv(p, e);
    assert ConnectionInv(p, e, e.connections[c]);
  }

  /** An execution over the limit gets an error reply without ever waiting for or holding the guard. */
  lemma OverLimitNeverRuns(p: Platform, e: Enclave, c: nat, k: nat)
    requires Reachable(p, e) && c in e.connections
    requires k < |e.connections[c].sent| && e.connections[c].sent[k].Execute?
    requires e.connections[c].sent[k].job.cycleLimit > 0xFFFF_FFFF
    ensures var conn := e.connections[c];
            && (k < |conn.replies| ==> conn.replies[k] == Error("Cycle limit is too high"))
            && (k == |conn.replies| ==> !conn.task.Waiting? && !conn.task.Running?)
  {
    ReachableKeepsInv(p, e);
    assert ConnectionInv(p, e, e.connections[c]);
  }

  // ----- Sessions -----

  /**
   * On every connection, under every interleaving, the k-th reply answers the k-th request, replies never
   * outnumber the requests taken, and no request from the first `CloseSession` on is answered.
   */
  lemma SessionCorrespondence(p: Platform, e: Enclave, c: nat)
    requires Reachable(p, e) && c in e.connections
    ensures var conn := e.connections[c];
            && |conn.replies| <= Taken(conn) <= |conn.sent|
            && (forall k | 0 <= k < |conn.replies| :: Answers(p, e, conn.sent[k], conn.replies[k]))
            && (forall k | 0 <= k < |conn.replies| :: conn.sent[k] != CloseSession)
            && (conn.task.Closed? ==> forall k | 0 <= k < Taken(conn) - 1 :: conn.sent[k] != CloseSession)
            && FifoQueues(conn)
  {
    ReachableKeepsInv(p, e);
    var conn := e.connections[c];
    assert ConnectionInv(p, e, conn);
    forall k | 0 <= k < |conn.replies| ensures conn.sent[k] != CloseSession {
      assert Answers(p, e, conn.sent[k], conn.replies[k]);
    }
  }

  // ----- One identity -----

  ghost predicate Replied(e: Enclave, response: Response) {
    exists c, k :: c in e.connections && 0 <= k < |e.connections[c].replies| && e.connections[c].replies[k] == response
  }

  /** The response names or was made with this key. */
  ghost predicate UsesKey(p: Platform, e: Enclave, key: Bytes, response: Response) {
    match response
    case PublicKey(k) => k == key
    case SigningKeyAttestation(attestation) =>
      p.validate(attestation).Some? && p.validate(attestation).value.publicKey == Some(key)
    case SignedPublicValues(vkey, publicValues, signature) =>
      exists x ::
        && x in e.executions && vkey == p.vkeyOf(x.job.program) && publicValues == x.publicValues
        && p.crypto.sign(key, SignedDigest(p, e, x.job.program, publicValues)) == Some(signature)
    case EncryptedSigningKey(_) => false
    case Error(_) => true
    case Ack => true
  }

  /**
   * Over a whole run the key never changes, so every public key, attestation and signature that the enclave ever
   * replied with, on any connection and at any time, belongs to the one key it booted with.
   */
  lemma OneKeyForAll(p: Platform, key: Bytes, version: nat, pcr0: Bytes, steps: seq<Step>, response: Response)
    requires Possible(p, Booted(key, version, pcr0), steps)
    requires Replied(After(p, Booted(key, version, pcr0), steps), response)
    ensures UsesKey(p, After(p, Booted(key, version, pcr0), steps), key, response)
  {
    var e := After(p, Booted(key, version, pcr0), steps);
    RunKeepsInv(p, Booted(key, version, pcr0), steps);
    var c, k :| c in e.connections && 0 <= k < |e.connections[c].replies| && e.connections[c].replies[k] == response;
    var conn := e.connections[c];
    assert ConnectionInv(p, e, conn);
    assert Answers(p, e, conn.sent[k], response);
    if response.SignedPublicValues? {
      var x := Execution(conn.sent[k].job, response.publicValues);
      assert x in e.executions;
    }
  }

  // ----- What requests can achieve -----

  /** Some run leads from one state to the other. */
  ghost predicate Leads(p: Platform, e: Enclave, e': Enclave) {
    exists steps :: Possible(p, e, steps) && After(p, e, steps) == e'
  }

  lemma LeadsToItself(p: Platform, e: Enclave)
    ensures Leads(p, e, e)
  {
    var none: seq<Step> := [];
    assert Possible(p, e, none) && After(p, e, none) == e;
  }

  lemma {:induction false} OneMoreStep(p: Platform, e: Enclave, steps: seq<Step>, step: Step)
    requires Possible(p, e, steps) && Enabled(p, After(p, e, steps), step)
    ensures Possible(p, e, steps + [step]) && After(p, e, steps + [step]) == Apply(p, After(p, e, steps), step)
    decreases |steps|
  {
    if steps == [] {
      assert [step][1..] == [];
    } else {
      OneMoreStep(p, Apply(p, e, steps[0]), steps[1..], step);
      assert (steps + [step])[1..] == steps[1..] + [step];
    }
  }

  lemma {:induction false} RunsCompose(p: Platform, e: Enclave, first: seq<Step>, second: seq<Step>)
    requires Possible(p, e, first) && Possible(p, After(p, e, first), second)
    ensures Possible(p, e, first + second)
    ensures After(p, e, first + second) == After(p, After(p, e, first), second)
    decreases |first|
  {
    if first == [] {
      assert first + second == second;
    } else {
      RunsCompose(p, Apply(p, e, first[0]), first[1..], second);
      assert (first + second)[1..] == first[1..] + second;
    }
  }

  lemma ReachableLater(p: Platform, e: Enclave, e': Enclave)
    requires Reachable(p, e) && Leads(p, e, e')
    ensures Reachable(p, e')
  {
    var key, version, pcr0, first :|
      Possible(p, Booted(key, version, pcr0), first) && After(p, Booted(key, version, pcr0), first) == e;
    var second :| Possible(p, e, second) && After(p, e, second) == e';
    RunsCompose(p, Booted(key, version, pcr0), first, second);
  }

  lemma LeadOneMore(p: Platform, e: Enclave, e': Enclave, step: Step) returns (after: Enclave)
    requires Leads(p, e, e') && Enabled(p, e', step)
    ensures after == Apply(p, e', step) && Leads(p, e, after)
  {
    var steps :| Possible(p, e, steps) && After(p, e, steps) == e';
    OneMoreStep(p, e, steps, step);
    after := Apply(p, e', step);
  }

  /** A request on a new connection reaches its handler. */
  lemma RequestArrives(p: Platform, e: Enclave, c: nat, request: Request) returns (e': Enclave)
    requires c !in e.connections
    ensures Leads(p, e, e')
    ensures e' == e.(connections := e.connections[c := Connection([], [], Dispatch(e, request), [request], [])])
  {
    LeadsToItself(p, e);
    var e1 := LeadOneMore(p, e, e, Accept(c));
    var e2 := LeadOneMore(p, e, e1, HostSend(c, request));
    assert e2.connections[c] == Connection([request], [], Receiving, [request], []);
    e' := LeadOneMore(p, e, e2, Recv(c));
    assert e'.connections[c] == Connection([], [], Dispatch(e, request), [request], []);
    assert e'.connections == e.connections[c := e'.connections[c]];
  }

  /** A handler with a response sends it. */
  lemma ResponseIsSent(p: Platform, e: Enclave, e': Enclave, c: nat, request: Request, response: Response)
    returns (after: Enclave)
    requires Leads(p, e, e') && c in e'.connections
    requires e'.connections[c] == Connection([], [], Replying(response), [request], [])
    ensures Leads(p, e, after)
    ensures after
         == e'.(connections := e'.connections[c := Connection([], [response], Receiving, [request], [response])])
  {
    after := LeadOneMore(p, e, e', Reply(c));
    assert after.connections[c].toHost == [response] && after.connections[c].replies == [response];
  }

  /** An execution within the limit gets the guard when that is free. */
  lemma ExecutionStarts(p: Platform, e: Enclave, c: nat, job: Job) returns (e': Enclave)
    requires c !in e.connections && e.guard.None? && job.cycleLimit <= 0xFFFF_FFFF
    ensures Leads(p, e, e')
    ensures e' == e.(guard := Some(c),
                     connections := e.connections[c := Connection([], [], Running(job), [Execute(job)], [])])
  {
    var e1 := RequestArrives(p, e, c, Execute(job));
    var e2 := LeadOneMore(p, e, e1, CheckLimit(c));
    assert e2.connections[c] == Connection([], [], Waiting(job), [Execute(job)], []);
    e' := LeadOneMore(p, e, e2, TakeGuard(c));
    assert e'.connections == e.connections[c := e'.connections[c]];
  }

  /**
   * An execution within the limit whose program has an output is answered, once the guard is free, with the signed
   * output and nothing else; it is recorded together with its digest.
   */
  lemma ExecutionIsAnswered(p: Platform, e: Enclave, c: nat, job: Job, publicValues: Bytes, signature: Signature)
    returns (e': Enclave)
    requires c !in e.connections && e.guard.None? && job.cycleLimit <= 0xFFFF_FFFF
    requires p.run(job.program, job.stdin, job.cycleLimit) == Some(publicValues)
    requires p.crypto.sign(e.key, SignedDigest(p, e, job.program, publicValues)) == Some(signature)
    ensures Leads(p, e, e')
    ensures var response := SignedPublicValues(p.vkeyOf(job.program), publicValues, signature);
            var answered := Connection([], [response], Receiving, [Execute(job)], [response]);
            e' == e.(connections := e.connections[c := answered],
                     executions := e.executions + [Execution(job, publicValues)],
                     signed := e.signed + {SignedDigest(p, e, job.program, publicValues)})
  {
    var response := SignedPublicValues(p.vkeyOf(job.program), publicValues, signature);
    var e1 := ExecutionStarts(p, e, c, job);
    var e2 := LeadOneMore(p, e, e1, Finish(c));
    assert e2.connections[c] == Connection([], [], Replying(response), [Execute(job)], []);
    e' := ResponseIsSent(p, e, e2, c, Execute(job), response);
    assert e'.connections == e.connections[c := e'.connections[c]];
  }

  /** A request for an attestation can be answered with any document that the security module issues. */
  lemma AttestationIsAnswered(p: Platform, e: Enclave, c: nat, attestation: Bytes) returns (e': Enclave)
    requires c !in e.connections && OwnAttestation(p, e, attestation)
    ensures Leads(p, e, e')
    ensures var response := SigningKeyAttestation(attestation);
            var answered := Connection([], [response], Receiving, [AttestSigningKey], [response]);
            e' == e.(connections := e.connections[c := answered],
                     issued := e.issued + {p.validate(attestation).value})
  {
    var response := SigningKeyAttestation(attestation);
    var e1 := RequestArrives(p, e, c, AttestSigningKey);
    var e2 := LeadOneMore(p, e, e1, AttestEnds(c, Attested(attestation)));
    assert e2.connections[c] == Connection([], [], Replying(response), [AttestSigningKey], []);
    e' := ResponseIsSent(p, e, e2, c, AttestSigningKey, response);
    assert e'.connections == e.connections[c := e'.connections[c]];
  }
}
