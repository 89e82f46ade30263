/** Every session of a host ends with `CloseSession`, however its task ends. */
module HostSessions {
  import opened ByteStrings
  import opened Enclaves
  import opened Hosts
  import opened HostRuns

  /** Some task still works on the connection. */
  ghost predicate Owned(s: System, c: nat) {
    exists t :: t in s.tasks && OnConnection(s.tasks[t]) && s.tasks[t].c == c
  }

  /** `CloseSession` is the last request sent, and only the last. */
  ghost predicate EndsSession(sent: seq<Request>) {
    && sent != [] && sent[|sent| - 1].CloseSession?
    && forall i | 0 <= i < |sent| - 1 :: !sent[i].CloseSession?
  }

  ghost predicate SessionsEnd(s: System) {
    forall c | c in s.enclave.connections && !Owned(s, c) :: EndsSession(s.enclave.connections[c].sent)
  }

  /** A step of task `t` that leaves all connections but its own alone. */
  ghost predicate OwnStep(s: System, s': System, t: nat, own: set<nat>) {
    && OthersKept(s.enclave, s'.enclave, own)
    && t in s'.tasks && s'.tasks == s.tasks[t := s'.tasks[t]]
    && (t in s.tasks && OnConnection(s.tasks[t]) ==> s.tasks[t].c in own)
  }

  lemma OwnersStay(s: System, s': System, c: nat)
    requires Owned(s, c)
    requires forall u | u in s.tasks && OnConnection(s.tasks[u]) && s.tasks[u].c == c ::
               u in s'.tasks && s'.tasks[u] == s.tasks[u]
    ensures Owned(s', c)
  {
    var u :| u in s.tasks && OnConnection(s.tasks[u]) && s.tasks[u].c == c;
    assert s'.tasks[u] == s.tasks[u];
  }

  lemma OwnStepKeeps(s: System, s': System, t: nat, own: set<nat>)
    requires SessionsEnd(s) && OwnStep(s, s', t, own)
    requires forall c | c in own && c in s'.enclave.connections ::
               (OnConnection(s'.tasks[t]) && s'.tasks[t].c == c) || EndsSession(s'.enclave.connections[c].sent)
    ensures SessionsEnd(s')
  {
    forall c | c !in own && Owned(s, c) ensures Owned(s', c) {
      OwnersStay(s, s', c);
    }
  }

  lemma ServerStepKeeps(p: Platform, s: System, step: Step)
    requires SessionsEnd(s) && HostEnabled(p, s, ServerStep(step))
    ensures SessionsEnd(HostApply(p, s, ServerStep(step)))
  {
    var s' := HostApply(p, s, ServerStep(step));
    StepIsLocal(p, s.enclave, step);
    forall c | Owned(s, c) ensures Owned(s', c) {
      OwnersStay(s, s', c);
    }
    forall c | c in s'.enclave.connections && !Owned(s', c) ensures EndsSession(s'.enclave.connections[c].sent) {
      ServerStepEffect(p, s.enclave, step, c);
    }
  }

  lemma StartingStepKeeps(p: Platform, s: System, step: HostStep)
    requires SessionsEnd(s) && HostEnabled(p, s, step)
    requires step.SpawnExecution? || step.SpawnSave? || step.SpawnAddress? || step.Lock? || step.Connect?
    ensures SessionsEnd(HostApply(p, s, step))
  {
    if step.Connect? {
      StepIsLocal(p, s.enclave, Accept(step.c));
      OwnStepKeeps(s, HostApply(p, s, step), step.t, {step.c});
    } else {
      OwnStepKeeps(s, HostApply(p, s, step), step.t, {});
    }
  }

  lemma SendKeeps(p: Platform, s: System, t: nat)
    requires SessionsEnd(s) && HostEnabled(p, s, Send(t)) && Conversation(p, s.enclave, s.tasks[t])
    ensures SessionsEnd(HostApply(p, s, Send(t)))
  {
    var c := s.tasks[t].c;
    StepIsLocal(p, s.enclave, HostSend(c, NextRequest(s.tasks[t]).value.0));
    OwnStepKeeps(s, HostApply(p, s, Send(t)), t, {c});
  }

  /** While a task works on its connection, it has not closed the session. */
  lemma ConversationIsOpen(p: Platform, e: Enclave, task: HostTask)
    requires OnConnection(task) && Conversation(p, e, task)
    ensures var sent := e.connections[task.c].sent;
            (forall i | 0 <= i < |sent| :: !sent[i].CloseSession?) && !EndsSession(sent)
  {
  }

  lemma CloseEnds(sent: seq<Request>)
    requires forall i | 0 <= i < |sent| :: !sent[i].CloseSession?
    ensures EndsSession(sent + [CloseSession])
  {
    assert forall i | 0 <= i < |sent| :: (sent + [CloseSession])[i] == sent[i];
  }

  /** Leaving a connection on which a conversation was going on ends its session. */
  lemma LeavingEnds(p: Platform, e: Enclave, task: HostTask, next: HostTask)
    requires OnConnection(task) && Conversation(p, e, task)
    ensures var e' := Closing(p, e, task, next);
            && task.c in e'.connections && OthersKept(e, e', {task.c})
            && (OnConnection(next) || EndsSession(e'.connections[task.c].sent))
  {
    ClosingEffect(p, e, task, next);
    ConversationIsOpen(p, e, task);
    CloseEnds(e.connections[task.c].sent);
  }

  lemma GivenUpEnds(p: Platform, s: System, t: nat, next: HostTask)
    requires SessionsEnd(s) && t in s.tasks && Conversation(p, s.enclave, s.tasks[t]) && !OnConnection(next)
    ensures SessionsEnd(GivenUp(p, s, t, next))
  {
    if OnConnection(s.tasks[t]) {
      LeavingEnds(p, s.enclave, s.tasks[t], next);
      OwnStepKeeps(s, GivenUp(p, s, t, next), t, {s.tasks[t].c});
    } else {
      OwnStepKeeps(s, GivenUp(p, s, t, next), t, {});
    }
  }

  lemma PutEnds(p: Platform, s: System, t: nat)
    requires SessionsEnd(s) && HostEnabled(p, s, PutObject(t)) && Conversation(p, s.enclave, s.tasks[t])
    ensures SessionsEnd(HostApply(p, s, PutObject(t)))
  {
    LeavingEnds(p, s.enclave, s.tasks[t], Saved);
    OwnStepKeeps(s, HostApply(p, s, PutObject(t)), t, {s.tasks[t].c});
  }

  lemma NextKeepsConnection(keccak: Bytes -> Bytes32, task: HostTask, response: Response)
    requires AwaitsReply(task) && OnConnection(AfterReply(keccak, task, response))
    ensures AfterReply(keccak, task, response).c == task.c
  {
  }

  lemma ReceivedKeeps(p: Platform, s: System, t: nat, s': System)
    requires SessionsEnd(s) && HostEnabled(p, s, Receive(t)) && Received(p, s, s', t)
    requires Conversation(p, s.enclave, s.tasks[t])
    ensures SessionsEnd(s')
  {
    var c, response := s.tasks[t].c, s.enclave.connections[s.tasks[t].c].toHost[0];
    if OnConnection(s'.tasks[t]) {
      NextKeepsConnection(p.crypto.keccak, s.tasks[t], response);
    } else {
      ConversationIsOpen(p, s.enclave, s.tasks[t]);
      CloseEnds(s.enclave.connections[c].sent);
    }
    OwnStepKeeps(s, s', t, {c});
  }

  lemma StepKeeps(p: Platform, s: System, step: HostStep)
    requires SystemInv(p, s) && SessionsEnd(s) && HostEnabled(p, s, step)
    ensures SessionsEnd(HostApply(p, s, step))
  {
    match step
    case ServerStep(inner) => ServerStepKeeps(p, s, inner);
    case Send(t) =>
      assert Conversation(p, s.enclave, s.tasks[t]);
      SendKeeps(p, s, t);
    case Receive(t) =>
      assert Conversation(p, s.enclave, s.tasks[t]);
      ReceiveEffect(p, s, t);
      ReceivedKeeps(p, s, t, HostApply(p, s, step));
    case PutObject(t) =>
      assert Conversation(p, s.enclave, s.tasks[t]);
      PutEnds(p, s, t);
    case Fail(t) =>
      assert Conversation(p, s.enclave, s.tasks[t]);
      GivenUpEnds(p, s, t, AfterFailure(s.tasks[t]));
    case Drop(t) =>
      assert Conversation(p, s.enclave, s.tasks[t]);
      GivenUpEnds(p, s, t, Dropped);
    case _ => StartingStepKeeps(p, s, step);
  }

  lemma {:induction false} RunKeeps(p: Platform, s: System, steps: seq<HostStep>)
    requires SystemInv(p, s) && SessionsEnd(s) && HostPossible(p, s, steps)
    ensures SessionsEnd(HostAfter(p, s, steps))
    decreases |steps|
  {
    if steps == [] {
    } else {
      HostStepKeepsInv(p, s, steps[0]);
      StepKeeps(p, s, steps[0]);
      RunKeeps(p, HostApply(p, s, steps[0]), steps[1..]);
    }
  }

  /**
   * In every reachable state a session has ended exactly when no task works on it any more: whether its task has
   * finished, failed or been dropped, `CloseSession` was then sent, once and last.
   */
  lemma SessionEndsIff(p: Platform, key: Bytes, version: nat, pcr0: Bytes, s: System, c: nat)
    requires HostReachable(p, Booted(key, version, pcr0), s) && c in s.enclave.connections
    ensures EndsSession(s.enclave.connections[c].sent) <==> !Owned(s, c)
  {
    assert SessionsEnd(s) by {
      var start := Initial(Booted(key, version, pcr0));
      var steps :| HostPossible(p, start, steps) && HostAfter(p, start, steps) == s;
      LeadsToItself(p, start);
      HostReachableInv(p, key, version, pcr0, start);
      RunKeeps(p, start, steps);
    }
    if Owned(s, c) {
      var t :| t in s.tasks && OnConnection(s.tasks[t]) && s.tasks[t].c == c;
      assert Conversation(p, s.enclave, s.tasks[t]) by {
        HostReachableInv(p, key, version, pcr0, s);
      }
      ConversationIsOpen(p, s.enclave, s.tasks[t]);
    }
  }
}
