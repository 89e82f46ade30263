/**
 * One host and its enclave: execution requests behind the host's mutex, and the saving of attestations.
 * Any host future may be dropped between two of its steps.
 */
module Hosts {
  import opened ByteStrings
  import opened Addresses
  import opened CryptoModel
  import opened Enclaves

  /** What the caller of an execution gets; `v` is the recovery id in Ethereum's numbering. */
  datatype Reply =
    | TeeResponse(vkey: Bytes32, publicValues: Bytes, signature: Signature, v: Byte)
    | EnclaveError(reason: string)
    | UnexpectedResponse
    | IoError

  datatype HostTask =
    // An execution request: it waits for the mutex and holds it until it ends.
    | Queued(job: Job)
    | Locked(job: Job)
    | Connected(job: Job, c: nat)
    | Sent(job: Job, c: nat)
    | Finished(job: Job, reply: Reply)
    // Saving an attestation: both requests are sent before the first reply is read.
    | Saving
    | SaveConnected(c: nat)
    | SentAttest(c: nat)
    | SentBoth(c: nat)
    | GotAttestation(c: nat, attestation: Bytes)
    | Storing(c: nat, address: Address, attestation: Bytes)
    | Saved
    // Answering a request for the enclave's address.
    | Asking
    | AskConnected(c: nat)
    | Asked(c: nat)
    | Answered(address: Address)
    // The end of a failed save or answer, and of any task that is dropped.
    | Failed
    | Dropped

  datatype Put = Put(address: Address, attestation: Bytes)

  /** `abandoned` are the connections given up between sending an execution request and receiving its reply. */
  datatype System = System(
    enclave: Enclave, mutex: Option<nat>, tasks: map<nat, HostTask>, puts: seq<Put>, abandoned: set<nat>)

  datatype HostStep =
    | ServerStep(step: Step)
    | SpawnExecution(t: nat, job: Job)
    | SpawnSave(t: nat)
    | SpawnAddress(t: nat)
    | Lock(t: nat)
    | Connect(t: nat, c: nat)
    | Send(t: nat)
    | Receive(t: nat)
    | PutObject(t: nat)
    | Fail(t: nat)
    | Drop(t: nat)

  function Initial(e: Enclave): System {
    System(e, None, map[], [], {})
  }

  predicate OnConnection(task: HostTask) {
    || task.Connected? || task.Sent?
    || task.SaveConnected? || task.SentAttest? || task.SentBoth? || task.GotAttestation? || task.Storing?
    || task.AskConnected? || task.Asked?
  }

  predicate HoldsMutex(task: HostTask) {
    task.Locked? || task.Connected? || task.Sent?
  }

  predicate Ended(task: HostTask) {
    task.Finished? || task.Saved? || task.Answered? || task.Failed? || task.Dropped?
  }

  /** The recovery id in Ethereum's numbering, as a `u8`. */
  function EthereumV(recoveryId: Byte): Byte {
    (recoveryId + 27) % 256
  }

  function ReplyTo(response: Response): Reply {
    match response
    case SignedPublicValues(vkey, publicValues, signature) =>
      TeeResponse(vkey, publicValues, signature, EthereumV(signature.recoveryId))
    case Error(reason) => EnclaveError(reason)
    case _ => UnexpectedResponse
  }

  /** What a task sends next on its connection, and where that leaves it. */
  function NextRequest(task: HostTask): Option<(Request, HostTask)> {
    match task
    case Connected(job, c) => Some((Execute(job), Sent(job, c)))
    case SaveConnected(c) => Some((AttestSigningKey, SentAttest(c)))
    case SentAttest(c) => Some((GetPublicKey, SentBoth(c)))
    case AskConnected(c) => Some((GetPublicKey, Asked(c)))
    case _ => None
  }

  /** The address of the public key in a reply, if it is one and uncompressed. */
  function AddressIn(keccak: Bytes -> Bytes32, response: Response): Option<Address> {
    if response.PublicKey? && response.key != [] then AddressFromEncodedPoint(keccak, response.key) else None
  }

  /** What a task makes of the next reply. */
  function AfterReply(keccak: Bytes -> Bytes32, task: HostTask, response: Response): HostTask {
    match task
    case Sent(job, _) => Finished(job, ReplyTo(response))
    case SentBoth(c) =>
      if response.SigningKeyAttestation? then GotAttestation(c, response.attestation) else Failed
    case GotAttestation(c, attestation) =>
      var address := AddressIn(keccak, response);
      if address.Some? then Storing(c, address.value, attestation) else Failed
    case Asked(_) =>
      var address := AddressIn(keccak, response);
      if address.Some? then Answered(address.value) else Failed
    case _ => task
  }

  /** Dropping a stream sends `CloseSession` on it. */
  function Closing(p: Platform, e: Enclave, task: HostTask, next: HostTask): Enclave {
    if OnConnection(task) && !OnConnection(next) then Apply(p, e, HostSend(task.c, CloseSession)) else e
  }

  /** A task becomes `next`: leaving its connection closes it, and leaving the guarded part frees the mutex. */
  function Moved(p: Platform, s: System, t: nat, next: HostTask): System
    requires t in s.tasks
  {
    s.(tasks := s.tasks[t := next],
       enclave := Closing(p, s.enclave, s.tasks[t], next),
       mutex := if s.mutex == Some(t) && !HoldsMutex(next) then None else s.mutex)
  }

  /** A task fails or is dropped, maybe with a request still being executed. */
  function GivenUp(p: Platform, s: System, t: nat, next: HostTask): System
    requires t in s.tasks
  {
    var task := s.tasks[t];
    var after := Moved(p, s, t, next);
    if task.Sent? then after.(abandoned := s.abandoned + {task.c}) else after
  }

  function AfterFailure(task: HostTask): HostTask {
    if HoldsMutex(task) then Finished(task.job, IoError) else Failed
  }

  predicate AwaitsReply(task: HostTask) {
    task.Sent? || task.SentBoth? || task.GotAttestation? || task.Asked?
  }

  ghost predicate HostEnabled(p: Platform, s: System, step: HostStep) {
    match step
    case ServerStep(inner) => IsServerStep(inner) && Enabled(p, s.enclave, inner)
    case SpawnExecution(t, _) => t !in s.tasks
    case SpawnSave(t) => t !in s.tasks
    case SpawnAddress(t) => t !in s.tasks
    case Lock(t) => t in s.tasks && s.tasks[t].Queued? && s.mutex.None?
    case Connect(t, c) =>
      t in s.tasks && (s.tasks[t].Locked? || s.tasks[t].Saving? || s.tasks[t].Asking?) && c !in s.enclave.connections
    case Send(t) => t in s.tasks && NextRequest(s.tasks[t]).Some?
    case Receive(t) =>
      && t in s.tasks && AwaitsReply(s.tasks[t])
      && s.tasks[t].c in s.enclave.connections && s.enclave.connections[s.tasks[t].c].toHost != []
    case PutObject(t) => t in s.tasks && s.tasks[t].Storing?
    case Fail(t) => t in s.tasks && !s.tasks[t].Queued? && !Ended(s.tasks[t])
    case Drop(t) => t in s.tasks && !Ended(s.tasks[t])
  }

  ghost function HostApply(p: Platform, s: System, step: HostStep): System
    requires HostEnabled(p, s, step)
  {
    match step
    case ServerStep(inner) => s.(enclave := Apply(p, s.enclave, inner))
    case SpawnExecution(t, job) => s.(tasks := s.tasks[t := Queued(job)])
    case SpawnSave(t) => s.(tasks := s.tasks[t := Saving])
    case SpawnAddress(t) => s.(tasks := s.tasks[t := Asking])
    case Lock(t) => s.(tasks := s.tasks[t := Locked(s.tasks[t].job)], mutex := Some(t))
    case Connect(t, c) =>
      var next := match s.tasks[t]
                  case Locked(job) => Connected(job, c)
                  case Saving => SaveConnected(c)
                  case _ => AskConnected(c);
      s.(tasks := s.tasks[t := next], enclave := Apply(p, s.enclave, Accept(c)))
    case Send(t) =>
      var (request, next) := NextRequest(s.tasks[t]).value;
      s.(tasks := s.tasks[t := next], enclave := Apply(p, s.enclave, HostSend(s.tasks[t].c, request)))
    case Receive(t) =>
      var c := s.tasks[t].c;
      var response := s.enclave.connections[c].toHost[0];
      var read := s.(enclave := Apply(p, s.enclave, HostRecv(c)));
      Moved(p, read, t, AfterReply(p.crypto.keccak, s.tasks[t], response))
    case PutObject(t) =>
      Moved(p, s, t, Saved).(puts := s.puts + [Put(s.tasks[t].address, s.tasks[t].attestation)])
    case Fail(t) => GivenUp(p, s, t, AfterFailure(s.tasks[t]))
    case Drop(t) => GivenUp(p, s, t, Dropped)
  }

  // ----- The invariant -----

  /** How far the conversation on a task's connection has come. */
  ghost predicate Conversation(p: Platform, e: Enclave, task: HostTask) {
    OnConnection(task) ==>
      && task.c in e.connections
      && var conn := e.connections[task.c];
         match task
         case Connected(_, _) => conn.sent == [] && conn.replies == conn.toHost
         case Sent(job, _) => conn.sent == [Execute(job)] && conn.replies == conn.toHost
         case SaveConnected(_) => conn.sent == [] && conn.replies == conn.toHost
         case SentAttest(_) => conn.sent == [AttestSigningKey] && conn.replies == conn.toHost
         case SentBoth(_) => conn.sent == [AttestSigningKey, GetPublicKey] && conn.replies == conn.toHost
         case GotAttestation(_, attestation) =>
           && conn.sent == [AttestSigningKey, GetPublicKey]
           && |conn.replies| == |conn.toHost| + 1
           && IssuedAttestation(p, e, attestation)
         case Storing(_, _, _) => conn.sent == [AttestSigningKey, GetPublicKey]
         case AskConnected(_) => conn.sent == [] && conn.replies == conn.toHost
         case Asked(_) => conn.sent == [GetPublicKey] && conn.replies == conn.toHost
         case _ => true
  }

  /** A stored object: an attestation of this enclave, under the address of the key that it attests. */
  ghost predicate RightfulPut(p: Platform, e: Enclave, put: Put) {
    && IssuedAttestation(p, e, put.attestation)
    && AddressFromSec1(p.crypto.keccak, e.key) == Some(put.address)
  }

  /** What a task has in hand comes from its own enclave and answers its own request. */
  ghost predicate Results(p: Platform, e: Enclave, task: HostTask) {
    match task
    case Finished(job, reply) =>
      reply == IoError || exists response :: reply == ReplyTo(response) && Answers(p, e, Execute(job), response)
    case Storing(_, address, attestation) => RightfulPut(p, e, Put(address, attestation))
    case Answered(address) => AddressFromSec1(p.crypto.keccak, e.key) == Some(address)
    case _ => true
  }

  ghost predicate MutexInv(s: System) {
    && (s.mutex.Some? ==> s.mutex.value in s.tasks)
    && forall t | t in s.tasks :: HoldsMutex(s.tasks[t]) <==> s.mutex == Some(t)
  }

  ghost predicate DistinctConnections(s: System) {
    forall t, t' | t in s.tasks && t' in s.tasks && t != t' ::
      OnConnection(s.tasks[t]) && OnConnection(s.tasks[t']) ==> s.tasks[t].c != s.tasks[t'].c
  }

  /** An execution request was sent on the connection and no reply to it yet. */
  ghost predicate Outstanding(conn: Connection) {
    exists k :: |conn.replies| <= k < |conn.sent| && conn.sent[k].Execute?
  }

  ghost predicate SentOn(s: System, c: nat) {
    exists t :: t in s.tasks && s.tasks[t].Sent? && s.tasks[t].c == c
  }

  ghost predicate OutstandingInv(s: System) {
    forall c | c in s.enclave.connections && Outstanding(s.enclave.connections[c]) :: c in s.abandoned || SentOn(s, c)
  }

  ghost predicate HostInv(p: Platform, s: System) {
    && MutexInv(s)
    && DistinctConnections(s)
    && OutstandingInv(s)
    && (forall t | t in s.tasks :: Conversation(p, s.enclave, s.tasks[t]) && Results(p, s.enclave, s.tasks[t]))
    && (forall put | put in s.puts :: RightfulPut(p, s.enclave, put))
  }

  // ----- Steps of the enclave -----

  /** Between the two states the enclave changed on the given connections only. */
  ghost predicate OthersKept(e: Enclave, e': Enclave, own: set<nat>) {
    && (forall d | d in e.connections && d !in own :: d in e'.connections && e'.connections[d] == e.connections[d])
    && (forall d | d in e'.connections && d !in own :: d in e.connections)
  }

  lemma StepIsLocal(p: Platform, e: Enclave, step: Step)
    requires Enabled(p, e, step)
    ensures var e' := Apply(p, e, step);
            && Extends(e, e') && OthersKept(e, e', {step.c}) && step.c in e'.connections
            && (!step.Accept? ==> e'.connections[step.c] == NextConnection(p, e, e.connections[step.c], step))
  {
    StepExtends(p, e, step);
  }

  /** The server by itself changes no `sent`, and appends to both reply queues alike. */
  lemma ServerStepEffect(p: Platform, e: Enclave, step: Step, d: nat)
    requires Enabled(p, e, step) && IsServerStep(step) && d in e.connections
    ensures d in Apply(p, e, step).connections
    ensures var conn, conn' := e.connections[d], Apply(p, e, step).connections[d];
            && conn'.sent == conn.sent
            && ((conn'.replies == conn.replies && conn'.toHost == conn.toHost)
                || (exists r :: conn'.replies == conn.replies + [r] && conn'.toHost == conn.toHost + [r]))
  {
    var conn := e.connections[d];
    if step.Reply? && d == step.c {
      assert Apply(p, e, step).connections[d].replies == conn.replies + [conn.task.response];
    }
  }

  lemma ResultsPersist(p: Platform, e: Enclave, e': Enclave, task: HostTask)
    requires Extends(e, e') && Results(p, e, task)
    ensures Results(p, e', task)
  {
    if task.Finished? && task.reply != IoError {
      var response :| task.reply == ReplyTo(response) && Answers(p, e, Execute(task.job), response);
      AnswersPersist(p, e, e', Execute(task.job), response);
    }
  }

  lemma ConversationPersists(p: Platform, e: Enclave, e': Enclave, task: HostTask, own: set<nat>)
    requires Extends(e, e') && OthersKept(e, e', own) && Conversation(p, e, task)
    requires OnConnection(task) ==> task.c !in own
    ensures Conversation(p, e', task)
  {
  }

  lemma ServerStepKeepsConversation(p: Platform, e: Enclave, step: Step, task: HostTask)
    requires Enabled(p, e, step) && IsServerStep(step) && Conversation(p, e, task)
    ensures Conversation(p, Apply(p, e, step), task)
  {
    StepExtends(p, e, step);
    if OnConnection(task) {
      ServerStepEffect(p, e, step, task.c);
    }
  }

  lemma ServerStepOutstanding(p: Platform, e: Enclave, step: Step, c: nat)
    requires Enabled(p, e, step) && IsServerStep(step) && c in Apply(p, e, step).connections
    requires Outstanding(Apply(p, e, step).connections[c])
    ensures c in e.connections && Outstanding(e.connections[c])
  {
    ServerStepEffect(p, e, step, c);
    var conn, conn' := e.connections[c], Apply(p, e, step).connections[c];
    var k :| |conn'.replies| <= k < |conn'.sent| && conn'.sent[k].Execute?;
    assert |conn.replies| <= k < |conn.sent| && conn.sent[k].Execute?;
  }

  lemma ServerStepKeepsInv(p: Platform, s: System, step: Step)
    requires HostInv(p, s) && HostEnabled(p, s, ServerStep(step))
    ensures HostInv(p, HostApply(p, s, ServerStep(step)))
  {
    var e, s' := s.enclave, HostApply(p, s, ServerStep(step));
    StepExtends(p, e, step);
    forall t | t in s.tasks
      ensures Conversation(p, s'.enclave, s.tasks[t]) && Results(p, s'.enclave, s.tasks[t])
    {
      ServerStepKeepsConversation(p, e, step, s.tasks[t]);
      ResultsPersist(p, e, s'.enclave, s.tasks[t]);
    }
    forall c | c in s'.enclave.connections && Outstanding(s'.enclave.connections[c])
      ensures c in s'.abandoned || SentOn(s', c)
    {
      ServerStepOutstanding(p, e, step, c);
      assert s'.tasks == s.tasks && (SentOn(s, c) ==> SentOn(s', c));
    }
  }

  // ----- Steps of a task -----

  lemma OutstandingKept(s: System, s': System, t: nat, own: set<nat>)
    requires OutstandingInv(s) && OthersKept(s.enclave, s'.enclave, own) && s.abandoned <= s'.abandoned
    requires t in s'.tasks && s'.tasks == s.tasks[t := s'.tasks[t]]
    requires t in s.tasks && s.tasks[t].Sent? ==> s.tasks[t].c in own
    requires forall c | c in own && c in s'.enclave.connections && Outstanding(s'.enclave.connections[c]) ::
               c in s'.abandoned || (s'.tasks[t].Sent? && s'.tasks[t].c == c)
    ensures OutstandingInv(s')
  {
    forall c | c in s'.enclave.connections && Outstanding(s'.enclave.connections[c]) && c !in s'.abandoned
      ensures SentOn(s', c)
    {
      if c !in own {
        var u :| u in s.tasks && s.tasks[u].Sent? && s.tasks[u].c == c;
        assert s'.tasks[u] == s.tasks[u];
      }
    }
  }

  /** What a step of task `t` may change: itself, its own connection, and the records of the system. */
  ghost predicate TaskStep(p: Platform, s: System, s': System, t: nat, own: set<nat>) {
    && Extends(s.enclave, s'.enclave) && OthersKept(s.enclave, s'.enclave, own) && s.abandoned <= s'.abandoned
    && t in s'.tasks && s'.tasks == s.tasks[t := s'.tasks[t]]
    && (t in s.tasks && OnConnection(s.tasks[t]) ==> s.tasks[t].c in own)
    && (OnConnection(s'.tasks[t]) ==> s'.tasks[t].c in own)
    && (forall u | u in s.tasks && u != t && OnConnection(s.tasks[u]) :: s.tasks[u].c !in own)
  }

  /** The effect on the mutex: it is taken when free, kept, or given back by its holder. */
  ghost predicate MutexStep(s: System, s': System, t: nat)
    requires t in s'.tasks
  {
    if HoldsMutex(s'.tasks[t]) then s'.mutex == Some(t) && (s.mutex.None? || s.mutex == Some(t))
    else s'.mutex == if s.mutex == Some(t) then None else s.mutex
  }

  lemma TaskStepKeepsInv(p: Platform, s: System, s': System, t: nat, own: set<nat>)
    requires HostInv(p, s) && TaskStep(p, s, s', t, own) && MutexStep(s, s', t)
    requires Conversation(p, s'.enclave, s'.tasks[t]) && Results(p, s'.enclave, s'.tasks[t])
    requires forall put | put in s'.puts :: put in s.puts || RightfulPut(p, s'.enclave, put)
    requires forall c | c in own && c in s'.enclave.connections && Outstanding(s'.enclave.connections[c]) ::
               c in s'.abandoned || (s'.tasks[t].Sent? && s'.tasks[t].c == c)
    ensures HostInv(p, s')
  {
    OutstandingKept(s, s', t, own);
    forall u | u in s'.tasks
      ensures Conversation(p, s'.enclave, s'.tasks[u]) && Results(p, s'.enclave, s'.tasks[u])
    {
      if u != t {
        ConversationPersists(p, s.enclave, s'.enclave, s.tasks[u], own);
        ResultsPersist(p, s.enclave, s'.enclave, s.tasks[u]);
      }
    }
    forall put | put in s'.puts ensures RightfulPut(p, s'.enclave, put) {
      assert put in s.puts ==> RightfulPut(p, s.enclave, put);
    }
  }

  lemma SpawnOrLockKeepsInv(p: Platform, s: System, step: HostStep)
    requires HostInv(p, s) && HostEnabled(p, s, step)
    requires step.SpawnExecution? || step.SpawnSave? || step.SpawnAddress? || step.Lock?
    ensures HostInv(p, HostApply(p, s, step))
  {
    TaskStepKeepsInv(p, s, HostApply(p, s, step), step.t, {});
  }

  lemma ConnectKeepsInv(p: Platform, s: System, t: nat, c: nat)
    requires HostInv(p, s) && HostEnabled(p, s, Connect(t, c))
    ensures HostInv(p, HostApply(p, s, Connect(t, c)))
  {
    var s' := HostApply(p, s, Connect(t, c));
    StepIsLocal(p, s.enclave, Accept(c));
    forall u | u in s.tasks && OnConnection(s.tasks[u]) ensures s.tasks[u].c != c {
      assert Conversation(p, s.enclave, s.tasks[u]);
    }
    TaskStepKeepsInv(p, s, s', t, {c});
  }

  lemma SendKeepsInv(p: Platform, s: System, t: nat)
    requires HostInv(p, s) && HostEnabled(p, s, Send(t))
    ensures HostInv(p, HostApply(p, s, Send(t)))
  {
    var s', c := HostApply(p, s, Send(t)), s.tasks[t].c;
    assert Conversation(p, s.enclave, s.tasks[t]);
    StepIsLocal(p, s.enclave, HostSend(c, NextRequest(s.tasks[t]).value.0));
    TaskStepKeepsInv(p, s, s', t, {c});
  }

  // ----- Receiving and leaving -----

  lemma NextReplyAnswers(p: Platform, e: Enclave, conn: Connection)
    requires ConnectionInv(p, e, conn) && conn.toHost != []
    ensures var i := |conn.replies| - |conn.toHost|;
            0 <= i < |conn.replies| <= |conn.sent| && Answers(p, e, conn.sent[i], conn.toHost[0])
  {
  }

  lemma ClosingEffect(p: Platform, e: Enclave, task: HostTask, next: HostTask)
    requires OnConnection(task) ==> task.c in e.connections
    ensures var e' := Closing(p, e, task, next);
            && Extends(e, e') && OthersKept(e, e', if OnConnection(task) then {task.c} else {})
            && (OnConnection(task) ==>
                  && task.c in e'.connections
                  && var conn, conn' := e.connections[task.c], e'.connections[task.c];
                     && conn'.replies == conn.replies && conn'.toHost == conn.toHost
                     && conn'.sent == (if OnConnection(next) then conn.sent else conn.sent + [CloseSession]))
  {
    if OnConnection(task) {
      StepIsLocal(p, e, HostSend(task.c, CloseSession));
    }
  }

  lemma OutstandingBeforeClose(conn: Connection, conn': Connection)
    requires conn'.replies == conn.replies && (conn'.sent == conn.sent || conn'.sent == conn.sent + [CloseSession])
    requires Outstanding(conn')
    ensures Outstanding(conn)
  {
    var k :| |conn'.replies| <= k < |conn'.sent| && conn'.sent[k].Execute?;
    assert |conn.replies| <= k < |conn.sent| && conn.sent[k].Execute?;
  }

  /** A request still outstanding on a connection that no `Sent` task owns has been abandoned. */
  lemma OutstandingIsAbandoned(p: Platform, s: System, t: nat)
    requires HostInv(p, s) && t in s.tasks && OnConnection(s.tasks[t]) && !s.tasks[t].Sent?
    requires s.tasks[t].c in s.enclave.connections && Outstanding(s.enclave.connections[s.tasks[t].c])
    ensures s.tasks[t].c in s.abandoned
  {
  }

  lemma GivenUpKeepsInv(p: Platform, s: System, t: nat, next: HostTask)
    requires HostInv(p, s) && t in s.tasks && !OnConnection(next) && !HoldsMutex(next)
    requires Results(p, s.enclave, next)
    ensures HostInv(p, GivenUp(p, s, t, next))
  {
    var s', task := GivenUp(p, s, t, next), s.tasks[t];
    assert Conversation(p, s.enclave, task);
    ClosingEffect(p, s.enclave, task, next);
    ResultsPersist(p, s.enclave, s'.enclave, next);
    if OnConnection(task) {
      var c := task.c;
      if Outstanding(s'.enclave.connections[c]) && !task.Sent? {
        OutstandingBeforeClose(s.enclave.connections[c], s'.enclave.connections[c]);
        OutstandingIsAbandoned(p, s, t);
      }
    }
    TaskStepKeepsInv(p, s, s', t, if OnConnection(task) then {task.c} else {});
  }

  lemma PutKeepsInv(p: Platform, s: System, t: nat)
    requires HostInv(p, s) && HostEnabled(p, s, PutObject(t))
    ensures HostInv(p, HostApply(p, s, PutObject(t)))
  {
    GivenUpKeepsInv(p, s, t, Saved);
    var closed, put := GivenUp(p, s, t, Saved), Put(s.tasks[t].address, s.tasks[t].attestation);
    assert RightfulPut(p, closed.enclave, put) by {
      assert Results(p, s.enclave, s.tasks[t]) && Conversation(p, s.enclave, s.tasks[t]);
      ClosingEffect(p, s.enclave, s.tasks[t], Saved);
    }
    OneMorePutKeepsInv(p, closed, put);
    assert HostApply(p, s, PutObject(t)) == closed.(puts := closed.puts + [put]);
  }

  lemma OneMorePutKeepsInv(p: Platform, s: System, put: Put)
    requires HostInv(p, s) && RightfulPut(p, s.enclave, put)
    ensures HostInv(p, s.(puts := s.puts + [put]))
  {
    forall c | c in s.enclave.connections && Outstanding(s.enclave.connections[c])
      ensures c in s.abandoned || SentOn(s.(puts := s.puts + [put]), c)
    {
      if SentOn(s, c) {
        var t :| t in s.tasks && s.tasks[t].Sent? && s.tasks[t].c == c;
        assert t in s.(puts := s.puts + [put]).tasks;
      }
    }
  }

  /** The request whose reply a task reads next. */
  function AwaitedRequest(task: HostTask): Request
    requires AwaitsReply(task)
  {
    match task
    case Sent(job, _) => Execute(job)
    case SentBoth(_) => AttestSigningKey
    case _ => GetPublicKey
  }

  lemma AwaitedIsNext(p: Platform, e: Enclave, task: HostTask)
    requires Conversation(p, e, task) && AwaitsReply(task) && e.connections[task.c].toHost != []
    requires |e.connections[task.c].toHost| <= |e.connections[task.c].replies| <= |e.connections[task.c].sent|
    ensures var conn := e.connections[task.c];
            conn.sent[|conn.replies| - |conn.toHost|] == AwaitedRequest(task)
  {
  }

  lemma AwaitedReply(p: Platform, e: Enclave, task: HostTask)
    requires Conversation(p, e, task) && AwaitsReply(task)
    requires ConnectionInv(p, e, e.connections[task.c]) && e.connections[task.c].toHost != []
    ensures Answers(p, e, AwaitedRequest(task), e.connections[task.c].toHost[0])
  {
    NextReplyAnswers(p, e, e.connections[task.c]);
    AwaitedIsNext(p, e, task);
  }

  /** What a task makes of the reply is justified: the reply answers the request that it stands for. */
  lemma ReplyIsUsedRightly(p: Platform, e: Enclave, task: HostTask, response: Response)
    requires AwaitsReply(task) && Answers(p, e, AwaitedRequest(task), response)
    requires task.GotAttestation? ==> IssuedAttestation(p, e, task.attestation)
    ensures var next := AfterReply(p.crypto.keccak, task, response);
            && Results(p, e, next)
            && (next.GotAttestation? ==>
                  task.SentBoth? && next.c == task.c && IssuedAttestation(p, e, next.attestation))
            && (OnConnection(next) ==> (next.GotAttestation? || next.Storing?) && next.c == task.c)
  {
  }

  /** Reading one reply and, if nothing is left to do, leaving the connection. */
  ghost predicate Received(p: Platform, s: System, s': System, t: nat)
    requires HostEnabled(p, s, Receive(t))
  {
    var c := s.tasks[t].c;
    && Extends(s.enclave, s'.enclave) && OthersKept(s.enclave, s'.enclave, {c}) && c in s'.enclave.connections
    && t in s'.tasks && s'.tasks == s.tasks[t := s'.tasks[t]] && MutexStep(s, s', t)
    && s'.puts == s.puts && s'.abandoned == s.abandoned
    && var conn, conn', next := s.enclave.connections[c], s'.enclave.connections[c], s'.tasks[t];
       && conn'.replies == conn.replies && conn'.toHost == conn.toHost[1..]
       && conn'.sent == (if OnConnection(next) then conn.sent else conn.sent + [CloseSession])
       && next == AfterReply(p.crypto.keccak, s.tasks[t], conn.toHost[0])
  }

  lemma ReceiveEffect(p: Platform, s: System, t: nat)
    requires HostInv(p, s) && HostEnabled(p, s, Receive(t))
    ensures Received(p, s, HostApply(p, s, Receive(t)), t)
  {
    var e, c := s.enclave, s.tasks[t].c;
    StepIsLocal(p, e, HostRecv(c));
    ClosingEffect(p, Apply(p, e, HostRecv(c)), s.tasks[t], HostApply(p, s, Receive(t)).tasks[t]);
  }

  lemma ReceivedTask(p: Platform, s: System, t: nat, s': System)
    requires HostEnabled(p, s, Receive(t)) && Received(p, s, s', t) && Conversation(p, s.enclave, s.tasks[t])
    requires Answers(p, s.enclave, AwaitedRequest(s.tasks[t]), s.enclave.connections[s.tasks[t].c].toHost[0])
    ensures Conversation(p, s'.enclave, s'.tasks[t]) && Results(p, s'.enclave, s'.tasks[t])
    ensures OnConnection(s'.tasks[t]) ==> s'.tasks[t].c == s.tasks[t].c
    ensures HoldsMutex(s'.tasks[t]) ==> HoldsMutex(s.tasks[t])
    ensures !Outstanding(s'.enclave.connections[s.tasks[t].c])
  {
    var e, c := s.enclave, s.tasks[t].c;
    ReplyIsUsedRightly(p, e, s.tasks[t], e.connections[c].toHost[0]);
    ResultsPersist(p, e, s'.enclave, s'.tasks[t]);
    if Outstanding(s'.enclave.connections[c]) {
      OutstandingBeforeClose(e.connections[c], s'.enclave.connections[c]);
      NoneOutstanding(e.connections[c]);
    }
  }

  lemma ReceiveKeepsInv(p: Platform, s: System, t: nat, s': System)
    requires HostInv(p, s) && HostEnabled(p, s, Receive(t)) && Received(p, s, s', t)
    requires Answers(p, s.enclave, AwaitedRequest(s.tasks[t]), s.enclave.connections[s.tasks[t].c].toHost[0])
    ensures HostInv(p, s')
  {
    assert Conversation(p, s.enclave, s.tasks[t]);
    ReceivedTask(p, s, t, s');
    TaskStepKeepsInv(p, s, s', t, {s.tasks[t].c});
  }

  lemma NoneOutstanding(conn: Connection)
    requires (|conn.sent| == 1 && conn.replies != []) || conn.sent == [AttestSigningKey, GetPublicKey]
    ensures !Outstanding(conn)
  {
  }

  // ----- All steps and runs -----

  ghost predicate SystemInv(p: Platform, s: System) {
    EnclaveInv(p, s.enclave) && HostInv(p, s)
  }

  lemma HostStepKeepsEnclave(p: Platform, s: System, step: HostStep)
    requires EnclaveInv(p, s.enclave) && HostInv(p, s) && HostEnabled(p, s, step)
    ensures EnclaveInv(p, HostApply(p, s, step).enclave) && Extends(s.enclave, HostApply(p, s, step).enclave)
  {
    match step
    case ServerStep(inner) => EnclaveMove(p, s.enclave, inner);
    case Connect(_, c) => EnclaveMove(p, s.enclave, Accept(c));
    case Send(t) =>
      assert Conversation(p, s.enclave, s.tasks[t]);
      EnclaveMove(p, s.enclave, HostSend(s.tasks[t].c, NextRequest(s.tasks[t]).value.0));
    case Receive(t) =>
      EnclaveMove(p, s.enclave, HostRecv(s.tasks[t].c));
      ClosingKeepsEnclave(p, Apply(p, s.enclave, HostRecv(s.tasks[t].c)), s.tasks[t], HostApply(p, s, step).tasks[t]);
    case PutObject(t) =>
      assert Conversation(p, s.enclave, s.tasks[t]);
      ClosingKeepsEnclave(p, s.enclave, s.tasks[t], Saved);
    case Fail(t) =>
      assert Conversation(p, s.enclave, s.tasks[t]);
      ClosingKeepsEnclave(p, s.enclave, s.tasks[t], AfterFailure(s.tasks[t]));
    case Drop(t) =>
      assert Conversation(p, s.enclave, s.tasks[t]);
      ClosingKeepsEnclave(p, s.enclave, s.tasks[t], Dropped);
    case _ =>
  }

  lemma EnclaveMove(p: Platform, e: Enclave, step: Step)
    requires EnclaveInv(p, e) && Enabled(p, e, step)
    ensures EnclaveInv(p, Apply(p, e, step)) && Extends(e, Apply(p, e, step))
    ensures step.c in Apply(p, e, step).connections
  {
    StepKeepsInv(p, e, step);
    StepExtends(p, e, step);
  }

  lemma ClosingKeepsEnclave(p: Platform, e: Enclave, task: HostTask, next: HostTask)
    requires EnclaveInv(p, e) && (OnConnection(task) ==> task.c in e.connections)
    ensures EnclaveInv(p, Closing(p, e, task, next)) && Extends(e, Closing(p, e, task, next))
  {
    if OnConnection(task) && !OnConnection(next) {
      EnclaveMove(p, e, HostSend(task.c, CloseSession));
    }
  }

  lemma HostStepKeepsInv(p: Platform, s: System, step: HostStep)
    requires SystemInv(p, s) && HostEnabled(p, s, step)
    ensures SystemInv(p, HostApply(p, s, step)) && Extends(s.enclave, HostApply(p, s, step).enclave)
  {
    HostStepKeepsEnclave(p, s, step);
    match step
    case ServerStep(inner) => ServerStepKeepsInv(p, s, inner);
    case Connect(t, c) => ConnectKeepsInv(p, s, t, c);
    case Send(t) => SendKeepsInv(p, s, t);
    case Receive(t) =>
      ReceiveEffect(p, s, t);
      AwaitedReply(p, s.enclave, s.tasks[t]);
      ReceiveKeepsInv(p, s, t, HostApply(p, s, step));
    case PutObject(t) => PutKeepsInv(p, s, t);
    case Fail(t) => GivenUpKeepsInv(p, s, t, AfterFailure(s.tasks[t]));
    case Drop(t) => GivenUpKeepsInv(p, s, t, Dropped);
    case _ => SpawnOrLockKeepsInv(p, s, step);
  }

  ghost predicate HostPossible(p: Platform, s: System, steps: seq<HostStep>)
    decreases |steps|
  {
    steps == [] || (HostEnabled(p, s, steps[0]) && HostPossible(p, HostApply(p, s, steps[0]), steps[1..]))
  }

  ghost function HostAfter(p: Platform, s: System, steps: seq<HostStep>): System
    requires HostPossible(p, s, steps)
    decreases |steps|
  {
    if steps == [] then s else HostAfter(p, HostApply(p, s, steps[0]), steps[1..])
  }

  lemma {:induction false} HostRunKeepsInv(p: Platform, s: System, steps: seq<HostStep>)
    requires SystemInv(p, s) && HostPossible(p, s, steps)
    ensures SystemInv(p, HostAfter(p, s, steps)) && Extends(s.enclave, HostAfter(p, s, steps).enclave)
    decreases |steps|
  {
    if steps == [] {
    } else {
      HostStepKeepsInv(p, s, steps[0]);
      HostRunKeepsInv(p, HostApply(p, s, steps[0]), steps[1..]);
    }
  }
}
