/** The enclave server: any number of connections, interleaved step by step, and one execution guard. */
module Enclaves {
  import opened ByteStrings
  import opened CryptoModel
  import opened Attestations

  const MAX_ALLOWED_CYCLES: nat := U32_MAX

  type U64 = n: nat | n <= 0xFFFF_FFFF_FFFF_FFFF

  datatype Job = Job(stdin: Bytes, program: Bytes, cycleLimit: U64)

  datatype Request =
    | Print(message: string)
    | GetPublicKey
    | GetEncryptedSigningKey
    | AttestSigningKey
    | Execute(job: Job)
    | SetSigningKey(ciphertext: Bytes)
    | CloseSession

  datatype Response =
    | PublicKey(key: Bytes)
    | EncryptedSigningKey(encrypted: Bytes)
    | SigningKeyAttestation(attestation: Bytes)
    | SignedPublicValues(vkey: Bytes32, publicValues: Bytes, signature: Signature)
    | Error(reason: string)
    | Ack

  /** The primitives, attestation validation, and the prover: a program's verifying key and its outputs. */
  datatype Platform = Platform(
    crypto: Crypto,
    validate: Bytes -> Option<Document>,
    vkeyOf: Bytes -> Bytes32,
    run: (Bytes, Bytes, U64) -> Option<Bytes>)

  /** A completed execution whose output the enclave signed. */
  datatype Execution = Execution(job: Job, publicValues: Bytes)

  /** Where a connection's handler is. An execution job checks its limit, waits for the guard, and runs. */
  datatype Task =
    | Receiving
    | Attesting
    | Checking(job: Job)
    | Waiting(job: Job)
    | Running(job: Job)
    | Replying(response: Response)
    | Closed
    | Crashed

  /** Messages in flight in both directions, the handler, and all that was ever sent and replied. */
  datatype Connection = Connection(
    toEnclave: seq<Request>, toHost: seq<Response>, task: Task, sent: seq<Request>, replies: seq<Response>)

  datatype Enclave = Enclave(
    key: Bytes, version: nat, pcr0: Bytes,
    guard: Option<nat>, connections: map<nat, Connection>,
    executions: seq<Execution>, signed: set<Bytes32>, issued: set<Document>)

  function Booted(key: Bytes, version: nat, pcr0: Bytes): Enclave {
    Enclave(key, version, pcr0, None, map[], [], {}, {})
  }

  datatype AttestOutcome = Attested(attestation: Bytes) | NsmFailure | AttestPanic

  /** `HostSend` and `HostRecv` are the host's side of a connection, here unconstrained. */
  datatype Step =
    | Accept(c: nat)
    | HostSend(c: nat, request: Request)
    | HostRecv(c: nat)
    | Recv(c: nat)
    | RecvFails(c: nat)
    | AttestEnds(c: nat, outcome: AttestOutcome)
    | CheckLimit(c: nat)
    | TakeGuard(c: nat)
    | Finish(c: nat)
    | ExecutionPanics(c: nat)
    | Reply(c: nat)
    | ReplyFails(c: nat)

  /** The steps that the enclave takes by itself. */
  predicate IsServerStep(step: Step) {
    !step.Accept? && !step.HostSend? && !step.HostRecv?
  }

  /** The document that the security module issues to this enclave. */
  ghost predicate OwnDocument(e: Enclave, doc: Document) {
    && 0 in doc.pcrs && doc.pcrs[0] == e.pcr0
    && doc.userData == Some(LittleEndian(e.version, 4))
    && doc.publicKey == Some(e.key)
  }

  ghost predicate OwnAttestation(p: Platform, e: Enclave, attestation: Bytes) {
    p.validate(attestation).Some? && OwnDocument(e, p.validate(attestation).value)
  }

  /** An attestation of this enclave that it has really been issued. */
  ghost predicate IssuedAttestation(p: Platform, e: Enclave, attestation: Bytes) {
    OwnAttestation(p, e, attestation) && p.validate(attestation).value in e.issued
  }

  ghost predicate Enabled(p: Platform, e: Enclave, step: Step) {
    if step.Accept? then step.c !in e.connections
    else
      && step.c in e.connections
      && var conn := e.connections[step.c];
      match step
      case Accept(_) => true
      case HostSend(_, _) => true
      case HostRecv(_) => conn.toHost != []
      case Recv(_) => conn.task.Receiving? && conn.toEnclave != []
      case RecvFails(_) => conn.task.Receiving?
      case AttestEnds(_, outcome) =>
        conn.task.Attesting? && (outcome.Attested? ==> OwnAttestation(p, e, outcome.attestation))
      case CheckLimit(_) => conn.task.Checking?
      case TakeGuard(_) => conn.task.Waiting? && e.guard.None?
      case Finish(_) => conn.task.Running?
      case ExecutionPanics(_) => conn.task.Running?
      case Reply(_) => conn.task.Replying?
      case ReplyFails(_) => conn.task.Replying?
  }

  /** What the handler does with a message; requests that need no other thread are answered at once. */
  function Dispatch(e: Enclave, message: Request): Task {
    match message
    case Print(_) => Replying(Ack)
    case GetPublicKey => Replying(PublicKey(e.key))
    case AttestSigningKey => Attesting
    case Execute(job) => Checking(job)
    case GetEncryptedSigningKey => Replying(Error("Not implemented"))
    case SetSigningKey(_) => Replying(Error("Not implemented"))
    case CloseSession => Closed
  }

  function AttestResponse(outcome: AttestOutcome): Response {
    match outcome
    case Attested(attestation) => SigningKeyAttestation(attestation)
    case NsmFailure => Error("No attestation from the NSM")
    case AttestPanic => Error("Join error when attesting signing key")
  }

  function LimitChecked(job: Job): Task {
    if job.cycleLimit > MAX_ALLOWED_CYCLES then Replying(Error("Cycle limit is too high")) else Waiting(job)
  }

  /** What the enclave signs for an output of a program. */
  function SignedDigest(p: Platform, e: Enclave, program: Bytes, publicValues: Bytes): Bytes32 {
    p.crypto.keccak(ToSign(p.crypto.keccak, e.version, p.vkeyOf(program), publicValues))
  }

  /** The guarded section: setup, execution and signing; with the response, what it adds to the records. */
  function Executed(p: Platform, e: Enclave, job: Job): (Response, seq<Execution>, set<Bytes32>) {
    var vkey := p.vkeyOf(job.program);
    match p.run(job.program, job.stdin, job.cycleLimit)
    case None => (Error("Failed to execute program"), [], {})
    case Some(publicValues) =>
      var digest := SignedDigest(p, e, job.program, publicValues);
      match p.crypto.sign(e.key, digest)
      case None => (Error("Failed to sign public values, this is a bug."), [], {})
      case Some(signature) =>
        (SignedPublicValues(vkey, publicValues, signature),
         [Execution(job, publicValues)],
         {digest})
  }

  /** The connection's part of a step. */
  function NextConnection(p: Platform, e: Enclave, conn: Connection, step: Step): Connection {
    match step
    case Accept(_) => conn
    case HostSend(_, request) => conn.(toEnclave := conn.toEnclave + [request], sent := conn.sent + [request])
    case HostRecv(_) => if conn.toHost == [] then conn else conn.(toHost := conn.toHost[1..])
    case Recv(_) =>
      if conn.toEnclave == [] then conn
      else conn.(toEnclave := conn.toEnclave[1..], task := Dispatch(e, conn.toEnclave[0]))
    case Reply(_) =>
      if conn.task.Replying? then
        var response := conn.task.response;
        conn.(toHost := conn.toHost + [response], replies := conn.replies + [response], task := Receiving)
      else conn
    case _ => conn.(task := NextTask(p, e, conn.task, step))
  }

  /** The handler's part of the steps that leave both queues alone. */
  function NextTask(p: Platform, e: Enclave, task: Task, step: Step): Task {
    match (step, task)
    case (RecvFails(_), Receiving) => Crashed
    case (ReplyFails(_), Replying(_)) => Crashed
    case (AttestEnds(_, outcome), Attesting) => Replying(AttestResponse(outcome))
    case (CheckLimit(_), Checking(job)) => LimitChecked(job)
    case (TakeGuard(_), Waiting(job)) => Running(job)
    case (Finish(_), Running(job)) => Replying(Executed(p, e, job).0)
    case (ExecutionPanics(_), Running(_)) => Replying(Error("Join error when executing program"))
    case _ => task
  }

  /** One step of the whole server; the guard is free again as soon as the section is left in any way. */
  function Apply(p: Platform, e: Enclave, step: Step): Enclave {
    var c := step.c;
    if step.Accept? then e.(connections := e.connections[c := Connection([], [], Receiving, [], [])])
    else if c !in e.connections then e
    else
      var conn := e.connections[c];
      var after := e.(connections := e.connections[c := NextConnection(p, e, conn, step)]);
      match (step, conn.task)
      case (AttestEnds(_, Attested(attestation)), Attesting) =>
        if p.validate(attestation).Some? then after.(issued := e.issued + {p.validate(attestation).value}) else after
      case (TakeGuard(_), _) => after.(guard := Some(c))
      case (Finish(_), Running(job)) =>
        var (_, executions, digests) := Executed(p, e, job);
        after.(guard := None, executions := e.executions + executions, signed := e.signed + digests)
      case (ExecutionPanics(_), _) => after.(guard := None)
      case _ => after
  }

  // ----- What replies mean -----

  /** Why an execution is answered with an error: over the limit, which is 2^32 - 1, or no output, or a panic. */
  ghost predicate RightfulError(p: Platform, e: Enclave, job: Job, reason: string) {
    if job.cycleLimit > 0xFFFF_FFFF then reason == "Cycle limit is too high"
    else
      || reason == "Join error when executing program"
      || match p.run(job.program, job.stdin, job.cycleLimit)
         case None => reason == "Failed to execute program"
         case Some(publicValues) =>
           && reason == "Failed to sign public values, this is a bug."
           && p.crypto.sign(e.key, SignedDigest(p, e, job.program, publicValues)).None?
  }

  /** The response is one that this enclave may give to this request. */
  ghost predicate Answers(p: Platform, e: Enclave, request: Request, response: Response) {
    match request
    case Print(_) => response.Ack?
    case GetPublicKey => response == PublicKey(e.key)
    case AttestSigningKey =>
      response.Error? || (response.SigningKeyAttestation? && IssuedAttestation(p, e, response.attestation))
    case Execute(job) =>
      || (response.Error? && RightfulError(p, e, job, response.reason))
      || (response.SignedPublicValues?
          && job.cycleLimit <= 0xFFFF_FFFF
          && response.vkey == p.vkeyOf(job.program)
          && p.run(job.program, job.stdin, job.cycleLimit) == Some(response.publicValues)
          && p.crypto.sign(e.key, SignedDigest(p, e, job.program, response.publicValues)) == Some(response.signature)
          && Execution(job, response.publicValues) in e.executions
          && SignedDigest(p, e, job.program, response.publicValues) in e.signed)
    case GetEncryptedSigningKey => response == Error("Not implemented")
    case SetSigningKey(_) => response == Error("Not implemented")
    case CloseSession => false
  }

  /** How many requests the handler has taken. */
  function Taken(conn: Connection): int {
    |conn.sent| - |conn.toEnclave|
  }

  ghost predicate FifoQueues(conn: Connection) {
    && |conn.toEnclave| <= |conn.sent| && conn.toEnclave == conn.sent[|conn.sent| - |conn.toEnclave|..]
    && |conn.toHost| <= |conn.replies| && conn.toHost == conn.replies[|conn.replies| - |conn.toHost|..]
  }

  /** At most the last request taken is unanswered, and the handler is working on just that one. */
  ghost predicate TaskMatches(p: Platform, e: Enclave, conn: Connection)
    requires FifoQueues(conn)
  {
    var taken, replied := Taken(conn), |conn.replies|;
    match conn.task
    case Receiving => taken == replied
    case Crashed => replied <= taken <= replied + 1
    case Attesting => taken == replied + 1 && conn.sent[taken - 1].AttestSigningKey?
    case Checking(job) => taken == replied + 1 && conn.sent[taken - 1] == Execute(job)
    case Waiting(job) =>
      taken == replied + 1 && conn.sent[taken - 1] == Execute(job) && job.cycleLimit <= MAX_ALLOWED_CYCLES
    case Running(job) =>
      taken == replied + 1 && conn.sent[taken - 1] == Execute(job) && job.cycleLimit <= MAX_ALLOWED_CYCLES
    case Replying(response) => taken == replied + 1 && Answers(p, e, conn.sent[taken - 1], response)
    case Closed => taken == replied + 1 && conn.sent[taken - 1].CloseSession?
  }

  /** The k-th reply answers the k-th request. */
  ghost predicate Corresponds(p: Platform, e: Enclave, conn: Connection) {
    && |conn.replies| <= |conn.sent|
    && forall k | 0 <= k < |conn.replies| :: Answers(p, e, conn.sent[k], conn.replies[k])
  }

  ghost predicate ConnectionInv(p: Platform, e: Enclave, conn: Connection) {
    FifoQueues(conn) && TaskMatches(p, e, conn) && Corresponds(p, e, conn)
  }

  ghost predicate GuardInv(e: Enclave) {
    && (e.guard.Some? ==> e.guard.value in e.connections)
    && forall c | c in e.connections :: e.connections[c].task.Running? <==> e.guard == Some(c)
  }

  /** The record of completed executions is truthful, and nothing else was ever signed or attested. */
  ghost predicate RecordsInv(p: Platform, e: Enclave) {
    && (forall x | x in e.executions ::
          && x.job.cycleLimit <= 0xFFFF_FFFF
          && p.run(x.job.program, x.job.stdin, x.job.cycleLimit) == Some(x.publicValues))
    && (forall digest | digest in e.signed ::
          exists x :: x in e.executions && digest == SignedDigest(p, e, x.job.program, x.publicValues))
    && (forall doc | doc in e.issued :: OwnDocument(e, doc))
  }

  ghost predicate EnclaveInv(p: Platform, e: Enclave) {
    && (forall c | c in e.connections :: ConnectionInv(p, e, e.connections[c]))
    && GuardInv(e)
    && RecordsInv(p, e)
  }

  /** Nothing that replies depend on is ever lost: identity is constant and the records only grow. */
  ghost predicate Extends(e: Enclave, e': Enclave) {
    && e'.key == e.key && e'.version == e.version && e'.pcr0 == e.pcr0
    && e.executions <= e'.executions && e.signed <= e'.signed && e.issued <= e'.issued
  }

  lemma StepExtends(p: Platform, e: Enclave, step: Step)
    requires Enabled(p, e, step)
    ensures Extends(e, Apply(p, e, step))
    ensures forall d | d in e.connections && d != step.c ::
              d in Apply(p, e, step).connections && Apply(p, e, step).connections[d] == e.connections[d]
  {
  }

  lemma AnswersPersist(p: Platform, e: Enclave, e': Enclave, request: Request, response: Response)
    requires Extends(e, e') && Answers(p, e, request, response)
    ensures Answers(p, e', request, response)
  {
    if request.Execute? && response.SignedPublicValues? {
      var x := Execution(request.job, response.publicValues);
      assert x in e'.executions[..|e.executions|];
    }
  }

  lemma ConnectionPersists(p: Platform, e: Enclave, e': Enclave, conn: Connection)
    requires Extends(e, e') && ConnectionInv(p, e, conn)
    ensures ConnectionInv(p, e', conn)
  {
    forall k | 0 <= k < |conn.replies| ensures Answers(p, e', conn.sent[k], conn.replies[k]) {
      AnswersPersist(p, e, e', conn.sent[k], conn.replies[k]);
    }
    if conn.task.Replying? {
      AnswersPersist(p, e, e', conn.sent[Taken(conn) - 1], conn.task.response);
    }
  }

  lemma HostSendKeeps(p: Platform, e: Enclave, conn: Connection, request: Request)
    requires ConnectionInv(p, e, conn)
    ensures ConnectionInv(p, e, conn.(toEnclave := conn.toEnclave + [request], sent := conn.sent + [request]))
  {
    var conn' := conn.(toEnclave := conn.toEnclave + [request], sent := conn.sent + [request]);
    assert forall k | 0 <= k < |conn.sent| :: conn'.sent[k] == conn.sent[k];
    assert Taken(conn') == Taken(conn);
  }

  lemma RecvKeeps(p: Platform, e: Enclave, conn: Connection)
    requires ConnectionInv(p, e, conn) && conn.task.Receiving? && conn.toEnclave != []
    ensures ConnectionInv(p, e, conn.(toEnclave := conn.toEnclave[1..], task := Dispatch(e, conn.toEnclave[0])))
  {
    assert conn.toEnclave[0] == conn.sent[Taken(conn)];
  }

  lemma ReplyKeeps(p: Platform, e: Enclave, conn: Connection)
    requires ConnectionInv(p, e, conn) && conn.task.Replying?
    ensures ConnectionInv(p, e, conn.(toHost := conn.toHost + [conn.task.response],
                                      replies := conn.replies + [conn.task.response], task := Receiving))
  {
    var response := conn.task.response;
    var conn' := conn.(toHost := conn.toHost + [response], replies := conn.replies + [response], task := Receiving);
    forall k | 0 <= k < |conn'.replies| ensures Answers(p, e, conn'.sent[k], conn'.replies[k]) {
      if k < |conn.replies| {
        assert conn'.replies[k] == conn.replies[k];
      }
    }
  }

  lemma QueueStepKeeps(p: Platform, e: Enclave, conn: Connection, step: Step)
    requires ConnectionInv(p, e, conn)
    requires step.HostSend? || step.HostRecv? || (step.Recv? && conn.task.Receiving?) || step.Reply?
    ensures ConnectionInv(p, e, NextConnection(p, e, conn, step))
  {
    if step.HostSend? {
      HostSendKeeps(p, e, conn, step.request);
    } else if step.Recv? && conn.toEnclave != [] {
      RecvKeeps(p, e, conn);
    } else if step.Reply? && conn.task.Replying? {
      ReplyKeeps(p, e, conn);
    }
  }

  lemma ExecutedAnswers(p: Platform, e: Enclave, job: Job, e': Enclave)
    requires job.cycleLimit <= MAX_ALLOWED_CYCLES && Extends(e, e')
    requires e'.executions == e.executions + Executed(p, e, job).1
    requires e'.signed == e.signed + Executed(p, e, job).2
    ensures Answers(p, e', Execute(job), Executed(p, e, job).0)
  {
  }

  lemma TaskStepKeeps(p: Platform, e: Enclave, e': Enclave, conn: Connection, step: Step)
    requires Extends(e, e') && ConnectionInv(p, e', conn)
    requires step.AttestEnds? && step.outcome.Attested? && conn.task.Attesting? ==>
               IssuedAttestation(p, e', step.outcome.attestation)
    requires step.Finish? && conn.task.Running? ==>
               && e'.executions == e.executions + Executed(p, e, conn.task.job).1
               && e'.signed == e.signed + Executed(p, e, conn.task.job).2
    ensures ConnectionInv(p, e', conn.(task := NextTask(p, e, conn.task, step)))
  {
    if step.Finish? && conn.task.Running? {
      ExecutedAnswers(p, e, conn.task.job, e');
    }
  }

  lemma StepKeepsConnection(p: Platform, e: Enclave, step: Step)
    requires EnclaveInv(p, e) && Enabled(p, e, step)
    ensures ConnectionInv(p, Apply(p, e, step), Apply(p, e, step).connections[step.c])
  {
    StepExtends(p, e, step);
    var e' := Apply(p, e, step);
    if !step.Accept? {
      var conn := e.connections[step.c];
      ConnectionPersists(p, e, e', conn);
      if step.HostSend? || step.HostRecv? || step.Recv? || step.Reply? {
        QueueStepKeeps(p, e', conn, step);
      } else {
        TaskStepKeeps(p, e, e', conn, step);
      }
    }
  }

  lemma FinishKeepsRecords(p: Platform, e: Enclave, job: Job, e': Enclave)
    requires RecordsInv(p, e) && job.cycleLimit <= MAX_ALLOWED_CYCLES && Extends(e, e')
    requires e'.executions == e.executions + Executed(p, e, job).1
    requires e'.signed == e.signed + Executed(p, e, job).2 && e'.issued == e.issued
    ensures RecordsInv(p, e')
  {
    forall digest | digest in e'.signed
      ensures exists x :: x in e'.executions && digest == SignedDigest(p, e', x.job.program, x.publicValues)
    {
      if digest in e.signed {
        var x :| x in e.executions && digest == SignedDigest(p, e, x.job.program, x.publicValues);
        assert x in e'.executions;
      } else {
        assert Executed(p, e, job).1[0] in e'.executions;
      }
    }
  }

  lemma RunningIsWithinLimit(p: Platform, e: Enclave, conn: Connection)
    requires FifoQueues(conn) && TaskMatches(p, e, conn) && conn.task.Running?
    ensures conn.task.job.cycleLimit <= MAX_ALLOWED_CYCLES
  {
  }

  lemma StepKeepsRecords(p: Platform, e: Enclave, step: Step)
    requires RecordsInv(p, e) && Enabled(p, e, step)
    requires step.Finish? ==> e.connections[step.c].task.job.cycleLimit <= MAX_ALLOWED_CYCLES
    ensures RecordsInv(p, Apply(p, e, step))
  {
    var e' := Apply(p, e, step);
    StepExtends(p, e, step);
    if step.Finish? {
      FinishKeepsRecords(p, e, e.connections[step.c].task.job, e');
    } else {
      assert e'.executions == e.executions && e'.signed == e.signed;
    }
  }

  lemma StepKeepsGuard(p: Platform, e: Enclave, step: Step)
    requires GuardInv(e) && Enabled(p, e, step)
    ensures GuardInv(Apply(p, e, step))
  {
  }

  lemma StepKeepsInv(p: Platform, e: Enclave, step: Step)
    requires EnclaveInv(p, e) && Enabled(p, e, step)
    ensures EnclaveInv(p, Apply(p, e, step))
  {
    var e' := Apply(p, e, step);
    StepExtends(p, e, step);
    StepKeepsConnection(p, e, step);
    if step.Finish? {
      assert ConnectionInv(p, e, e.connections[step.c]);
      RunningIsWithinLimit(p, e, e.connections[step.c]);
    }
    StepKeepsRecords(p, e, step);
    StepKeepsGuard(p, e, step);
    forall c | c in e'.connections ensures ConnectionInv(p, e', e'.connections[c]) {
      if c != step.c {
        ConnectionPersists(p, e, e', e.connections[c]);
      }
    }
  }

  // ----- Whole runs -----

  ghost predicate Possible(p: Platform, e: Enclave, steps: seq<Step>)
    decreases |steps|
  {
    steps == [] || (Enabled(p, e, steps[0]) && Possible(p, Apply(p, e, steps[0]), steps[1..]))
  }

  function After(p: Platform, e: Enclave, steps: seq<Step>): Enclave
    requires Possible(p, e, steps)
    decreases |steps|
  {
    if steps == [] then e else After(p, Apply(p, e, steps[0]), steps[1..])
  }

  lemma {:induction false} RunKeepsInv(p: Platform, e: Enclave, steps: seq<Step>)
    requires EnclaveInv(p, e) && Possible(p, e, steps)
    ensures EnclaveInv(p, After(p, e, steps)) && Extends(e, After(p, e, steps))
    decreases |steps|
  {
    if steps == [] {
    } else {
      StepKeepsInv(p, e, steps[0]);
      StepExtends(p, e, steps[0]);
      RunKeepsInv(p, Apply(p, e, steps[0]), steps[1..]);
    }
  }
}
