/** A host finishes what it has begun: every execution request can be answered, however many others there are. */
module HostProgress {
  import opened ByteStrings
  import opened CryptoModel
  import opened Enclaves
  import opened Progress
  import opened Hosts
  import opened HostRuns

  predicate Unfinished(task: HostTask) {
    task.Queued? || task.Locked? || task.Connected? || task.Sent?
  }

  /** How many steps an execution request has still to take. */
  function TaskRank(task: HostTask): nat {
    match task
    case Queued(_) => 4
    case Locked(_) => 3
    case Connected(_, _) => 2
    case Sent(_, _) => 1
    case _ => 0
  }

  /** The request's handler in the enclave has crashed, so that no reply will come. */
  predicate Lost(s: System, t: nat)
    requires t in s.tasks
  {
    var task := s.tasks[t];
    && (task.Connected? || task.Sent?)
    && task.c in s.enclave.connections && s.enclave.connections[task.c].task.Crashed?
  }

  /** Steps of execution requests and of the enclave in which nothing goes wrong; only lost requests fail. */
  predicate IsOrderlyHostStep(s: System, step: HostStep) {
    match step
    case ServerStep(inner) => IsOrderly(inner)
    case Lock(_) => true
    case Connect(t, _) => t in s.tasks && s.tasks[t].Locked?
    case Send(t) => t in s.tasks && s.tasks[t].Connected?
    case Receive(t) => t in s.tasks && s.tasks[t].Sent?
    case Fail(t) => t in s.tasks && s.tasks[t].Sent? && Lost(s, t)
    case _ => false
  }

  // ----- What orderly steps keep -----

  ghost predicate NoNewCrash(e: Enclave, e': Enclave) {
    forall c | c in e'.connections && e'.connections[c].task.Crashed? ::
      c in e.connections && e.connections[c].task.Crashed?
  }

  lemma OnlyFailuresCrash(p: Platform, e: Enclave, step: Step)
    requires Enabled(p, e, step) && !step.RecvFails? && !step.ReplyFails?
    ensures NoNewCrash(e, Apply(p, e, step))
  {
  }

  /** A request goes on with its own job, is not lost by it, and fails only when it was lost; nothing else changes. */
  ghost predicate TaskProceeds(s: System, s': System, t: nat)
    requires t in s.tasks && t in s'.tasks
  {
    var task, next := s.tasks[t], s'.tasks[t];
    if Unfinished(task) then
      && (Unfinished(next) || next.Finished?) && next.job == task.job
      && (Lost(s', t) || (next.Finished? && next.reply == IoError) ==> Lost(s, t))
    else next == task
  }

  ghost predicate Proceeds(s: System, s': System) {
    && s'.tasks.Keys == s.tasks.Keys && s'.puts == s.puts && NoNewCrash(s.enclave, s'.enclave)
    && forall t | t in s.tasks :: TaskProceeds(s, s', t)
  }

  lemma ProceedsOn(s: System, s': System, s'': System)
    requires Proceeds(s, s') && Proceeds(s', s'')
    ensures Proceeds(s, s'')
  {
    forall t | t in s.tasks ensures TaskProceeds(s, s'', t) {
      assert TaskProceeds(s, s', t) && TaskProceeds(s', s'', t);
    }
  }

  /** The task's own part of a step: one less to go. */
  ghost predicate OneStepOn(s: System, s': System, t: nat) {
    && t in s.tasks && t in s'.tasks && s'.tasks == s.tasks[t := s'.tasks[t]] && s'.puts == s.puts
    && NoNewCrash(s.enclave, s'.enclave)
    && Unfinished(s.tasks[t]) && TaskRank(s'.tasks[t]) < TaskRank(s.tasks[t])
    && TaskProceeds(s, s', t)
  }

  lemma OneStepProceeds(s: System, s': System, t: nat)
    requires OneStepOn(s, s', t)
    ensures Proceeds(s, s')
  {
    forall u | u in s.tasks ensures TaskProceeds(s, s', u) {
      if u != t {
        assert s'.tasks[u] == s.tasks[u];
      }
    }
  }

  lemma ClosingCrashesNothing(p: Platform, e: Enclave, task: HostTask, next: HostTask)
    requires OnConnection(task) ==> task.c in e.connections
    ensures NoNewCrash(e, Closing(p, e, task, next))
  {
    if OnConnection(task) && !OnConnection(next) {
      OnlyFailuresCrash(p, e, HostSend(task.c, CloseSession));
    }
  }

  lemma ConnectOrSendGoesOn(p: Platform, s: System, step: HostStep)
    requires HostEnabled(p, s, step) && IsOrderlyHostStep(s, step) && (step.Lock? || step.Connect? || step.Send?)
    requires Conversation(p, s.enclave, s.tasks[step.t])
    ensures OneStepOn(s, HostApply(p, s, step), step.t)
  {
    if step.Connect? {
      OnlyFailuresCrash(p, s.enclave, Accept(step.c));
    } else if step.Send? {
      OnlyFailuresCrash(p, s.enclave, HostSend(s.tasks[step.t].c, NextRequest(s.tasks[step.t]).value.0));
    }
  }

  lemma ReceiveGoesOn(p: Platform, s: System, t: nat)
    requires HostEnabled(p, s, Receive(t)) && s.tasks[t].Sent? && Conversation(p, s.enclave, s.tasks[t])
    ensures OneStepOn(s, HostApply(p, s, Receive(t)), t)
  {
    var task, s' := s.tasks[t], HostApply(p, s, Receive(t));
    OnlyFailuresCrash(p, s.enclave, HostRecv(task.c));
    ClosingCrashesNothing(p, Apply(p, s.enclave, HostRecv(task.c)), task, s'.tasks[t]);
  }

  lemma FailGoesOn(p: Platform, s: System, t: nat)
    requires HostEnabled(p, s, Fail(t)) && s.tasks[t].Sent? && Lost(s, t)
    ensures OneStepOn(s, HostApply(p, s, Fail(t)), t)
  {
    ClosingCrashesNothing(p, s.enclave, s.tasks[t], AfterFailure(s.tasks[t]));
  }

  lemma TaskStepGoesOn(p: Platform, s: System, step: HostStep)
    requires SystemInv(p, s) && HostEnabled(p, s, step) && IsOrderlyHostStep(s, step) && !step.ServerStep?
    ensures OneStepOn(s, HostApply(p, s, step), step.t)
  {
    assert Conversation(p, s.enclave, s.tasks[step.t]);
    match step
    case Receive(t) => ReceiveGoesOn(p, s, t);
    case Fail(t) => FailGoesOn(p, s, t);
    case _ => ConnectOrSendGoesOn(p, s, step);
  }

  // ----- Where nothing more can be done -----

  ghost predicate Settled(p: Platform, s: System) {
    forall step | IsOrderlyHostStep(s, step) :: !HostEnabled(p, s, step)
  }

  lemma SettledServerRests(p: Platform, s: System)
    requires EnclaveInv(p, s.enclave) && Settled(p, s)
    ensures s.enclave.guard.None? && forall c | c in s.enclave.connections :: Idle(s.enclave.connections[c])
  {
    forall inner | IsOrderly(inner) ensures !Enabled(p, s.enclave, inner) {
      assert !HostEnabled(p, s, ServerStep(inner));
    }
    OrderlyOrAtRest(p, s.enclave);
    RestIff(p, s.enclave);
  }

  lemma SentCanGoOn(p: Platform, s: System, t: nat)
    requires t in s.tasks && s.tasks[t].Sent? && Conversation(p, s.enclave, s.tasks[t])
    requires Idle(s.enclave.connections[s.tasks[t].c])
    requires s.enclave.connections[s.tasks[t].c].task.Closed? ==>
               exists request :: request in s.enclave.connections[s.tasks[t].c].sent && request.CloseSession?
    ensures !Settled(p, s)
  {
    if Lost(s, t) {
      assert HostEnabled(p, s, Fail(t));
    } else {
      assert HostEnabled(p, s, Receive(t));
    }
  }

  lemma ClosedByRequest(p: Platform, e: Enclave, conn: Connection)
    requires FifoQueues(conn) && TaskMatches(p, e, conn) && conn.task.Closed?
    ensures exists request :: request in conn.sent && request.CloseSession?
  {
    assert conn.sent[Taken(conn) - 1] in conn.sent;
  }

  lemma SettledHasNoSent(p: Platform, s: System, t: nat)
    requires SystemInv(p, s) && Settled(p, s) && t in s.tasks
    ensures !s.tasks[t].Sent?
  {
    SettledServerRests(p, s);
    if s.tasks[t].Sent? {
      assert Conversation(p, s.enclave, s.tasks[t]);
      var conn := s.enclave.connections[s.tasks[t].c];
      if conn.task.Closed? {
        assert ConnectionInv(p, s.enclave, conn);
        ClosedByRequest(p, s.enclave, conn);
      }
      SentCanGoOn(p, s, t);
    }
  }

  /** Then every execution request has been dealt with, and mutex and guard are free. */
  lemma SettledIsFinished(p: Platform, s: System)
    requires SystemInv(p, s) && Settled(p, s)
    ensures s.mutex.None? && s.enclave.guard.None?
    ensures forall t | t in s.tasks :: !Unfinished(s.tasks[t])
  {
    SettledServerRests(p, s);
    var c := NumbersAreBounded(s.enclave.connections.Keys);
    forall t | t in s.tasks ensures !HoldsMutex(s.tasks[t]) {
      SettledHasNoSent(p, s, t);
      assert s.tasks[t].Locked? ==> HostEnabled(p, s, Connect(t, c));
      assert s.tasks[t].Connected? ==> HostEnabled(p, s, Send(t));
    }
    assert s.mutex.None?;
    forall t | t in s.tasks ensures !Unfinished(s.tasks[t]) {
      assert s.tasks[t].Queued? ==> HostEnabled(p, s, Lock(t));
    }
  }

  // ----- Getting there -----

  lemma ServerStepSettles(p: Platform, s: System, inner: Step, n: nat)
    requires IsOrderly(inner) && Enabled(p, s.enclave, inner) && NumberedBelow(s.enclave.connections, n)
    ensures var next := s.(enclave := Apply(p, s.enclave, inner));
            && Proceeds(s, next) && NumberedBelow(next.enclave.connections, n)
            && Work(next.enclave.connections, n) < Work(s.enclave.connections, n)
  {
    OnlyFailuresCrash(p, s.enclave, inner);
    StepTakesWork(p, s.enclave, inner);
    TotalChanges(Weight, s.enclave.connections, inner.c, Apply(p, s.enclave, inner).connections[inner.c], n);
  }

  lemma TaskStepSettles(p: Platform, s: System, step: HostStep, m: nat)
    requires SystemInv(p, s) && HostEnabled(p, s, step) && IsOrderlyHostStep(s, step) && !step.ServerStep?
    requires forall t | t in s.tasks :: t < m
    ensures var next := HostApply(p, s, step);
            Proceeds(s, next) && Total(TaskRank, next.tasks, m) < Total(TaskRank, s.tasks, m)
  {
    var next := HostApply(p, s, step);
    TaskStepGoesOn(p, s, step);
    OneStepProceeds(s, next, step.t);
    TotalChanges(TaskRank, s.tasks, step.t, next.tasks[step.t], m);
  }

  lemma {:induction false} Settle(p: Platform, from: System, s: System, m: nat, n: nat) returns (s': System)
    requires HostLeads(p, from, s) && SystemInv(p, s)
    requires (forall t | t in s.tasks :: t < m) && NumberedBelow(s.enclave.connections, n)
    ensures HostLeads(p, from, s') && SystemInv(p, s') && Settled(p, s')
    ensures Proceeds(s, s') && Extends(s.enclave, s'.enclave)
    decreases Total(TaskRank, s.tasks, m), Work(s.enclave.connections, n)
  {
    if step :| IsOrderlyHostStep(s, step) && HostEnabled(p, s, step) {
      var next := HostApply(p, s, step);
      LeadOneMore(p, from, s, step);
      HostStepKeepsInv(p, s, step);
      if step.ServerStep? {
        ServerStepSettles(p, s, step.step, n);
        s' := Settle(p, from, next, m, n);
      } else {
        TaskStepSettles(p, s, step, m);
        var n' := NumbersAreBounded(next.enclave.connections.Keys);
        s' := Settle(p, from, next, m, n');
      }
      ProceedsOn(s, next, s');
    } else {
      s' := s;
    }
  }

  /** The caller has an answer of the enclave to its own request: its signed output, or the reason for none. */
  ghost predicate HasAnswer(p: Platform, e: Enclave, task: HostTask) {
    && task.Finished?
    && var job := task.job;
       match task.reply
       case TeeResponse(vkey, publicValues, signature, v) =>
         && job.cycleLimit <= 0xFFFF_FFFF && vkey == p.vkeyOf(job.program)
         && p.run(job.program, job.stdin, job.cycleLimit) == Some(publicValues)
         && p.crypto.sign(e.key, SignedDigest(p, e, job.program, publicValues)) == Some(signature)
         && v == (signature.recoveryId + 27) % 256
       case EnclaveError(reason) => RightfulError(p, e, job, reason)
       case _ => false
  }

  /** What becomes of a task: an unfinished execution ends with its answer, unless it was lost; others do not change. */
  ghost predicate Ends(p: Platform, s: System, s': System, t: nat)
    requires t in s.tasks && t in s'.tasks
  {
    if Unfinished(s.tasks[t]) then
      && s'.tasks[t].Finished? && s'.tasks[t].job == s.tasks[t].job
      && (!Lost(s, t) ==> HasAnswer(p, s'.enclave, s'.tasks[t]))
    else s'.tasks[t] == s.tasks[t]
  }

  lemma ResultIsAnswer(p: Platform, e: Enclave, task: HostTask)
    requires Results(p, e, task) && task.Finished? && task.reply != IoError
    ensures HasAnswer(p, e, task)
  {
  }

  lemma SettleAll(p: Platform, s: System) returns (s': System)
    requires SystemInv(p, s)
    ensures HostLeads(p, s, s') && SystemInv(p, s') && Extends(s.enclave, s'.enclave)
    ensures s'.mutex.None? && s'.enclave.guard.None? && s'.puts == s.puts && s'.tasks.Keys == s.tasks.Keys
    ensures forall t | t in s.tasks :: Ends(p, s, s', t)
  {
    var m := NumbersAreBounded(s.tasks.Keys);
    var n := NumbersAreBounded(s.enclave.connections.Keys);
    LeadsToItself(p, s);
    s' := Settle(p, s, s, m, n);
    SettledIsFinished(p, s');
    forall t | t in s.tasks ensures Ends(p, s, s', t) {
      assert TaskProceeds(s, s', t);
      if Unfinished(s.tasks[t]) && !Lost(s, t) {
        assert Results(p, s'.enclave, s'.tasks[t]);
        ResultIsAnswer(p, s'.enclave, s'.tasks[t]);
      }
    }
  }

  /**
   * From every reachable state of a host, without a drop and without any failure but of requests whose handler has
   * crashed before, every execution request that waits for the mutex, holds it, or waits for its reply can be
   * finished with an answer to its own job. Mutex and guard are free then, and all other tasks are as they were.
   */
  lemma EveryExecutionCanFinish(p: Platform, key: Bytes, version: nat, pcr0: Bytes, s: System) returns (s': System)
    requires HostReachable(p, Booted(key, version, pcr0), s)
    ensures HostLeads(p, s, s') && s'.mutex.None? && s'.enclave.guard.None?
    ensures s'.puts == s.puts && s'.tasks.Keys == s.tasks.Keys
    ensures forall t | t in s.tasks :: Ends(p, s, s', t)
  {
    HostReachableInv(p, key, version, pcr0, s);
    s' := SettleAll(p, s);
  }
}
