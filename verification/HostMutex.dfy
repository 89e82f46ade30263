/** What the host's mutex does, and does not, ensure: execution requests are kept apart, unless callers give up. */
module HostMutexes {
  import opened CryptoModel
  import opened Enclaves
  import EnclaveRuns
  import opened Hosts
  import opened HostRuns
  import opened ByteStrings

  /** The connections with an execution request that was not answered. */
  ghost function OutstandingOn(s: System): set<nat> {
    set c | c in s.enclave.connections && Outstanding(s.enclave.connections[c])
  }

  /**
   * The host's mutex alone keeps execution requests apart, one at a time, as long as no request was given up
   * between being sent and being answered; otherwise all but one of the outstanding ones were given up.
   */
  lemma OneRequestAtATime(p: Platform, key: Bytes, version: nat, pcr0: Bytes, s: System)
    requires HostReachable(p, Booted(key, version, pcr0), s)
    ensures |OutstandingOn(s) - s.abandoned| <= 1
    ensures s.abandoned == {} ==> |OutstandingOn(s)| <= 1
  {
    HostReachableInv(p, key, version, pcr0, s);
    var others := OutstandingOn(s) - s.abandoned;
    forall c | c in others ensures s.mutex.Some? && s.mutex.value in s.tasks && s.tasks[s.mutex.value].Sent?
                                   && c == s.tasks[s.mutex.value].c {
      assert SentOn(s, c);
    }
    if others != {} {
      assert others <= {s.tasks[s.mutex.value].c};
      SubsetOfOne(others, s.tasks[s.mutex.value].c);
    }
    assert s.abandoned == {} ==> others == OutstandingOn(s);
  }

  lemma SubsetOfOne(xs: set<nat>, x: nat)
    requires xs <= {x}
    ensures |xs| <= 1
  {
    assert xs == {} || xs == {x};
  }

  /** Whatever is dropped, only one execution at a time runs in the enclave. */
  lemma OneExecutionAtATime(p: Platform, key: Bytes, version: nat, pcr0: Bytes, s: System)
    requires HostReachable(p, Booted(key, version, pcr0), s)
    ensures |EnclaveRuns.RunningOn(s.enclave)| <= 1
  {
    HostReachableInv(p, key, version, pcr0, s);
    assert GuardInv(s.enclave);
    assert EnclaveRuns.RunningOn(s.enclave) == if s.enclave.guard.Some? then {s.enclave.guard.value} else {};
  }

  // ----- Requests in flight -----

  /** Two readings of "one program at a time": a request counts until its program has run, or until its answer. */
  datatype Span = UntilExecuted | UntilAnswered

  predicate HandlerEnded(conn: Connection) {
    conn.task.Closed? || conn.task.Crashed?
  }

  predicate Executing(task: Task) {
    task.Checking? || task.Waiting? || task.Running?
  }

  /** The enclave has still to run, or refuse, a program that was sent on the connection. */
  ghost predicate Unexecuted(conn: Connection) {
    || Executing(conn.task)
    || exists k :: 0 <= k < |conn.toEnclave| && conn.toEnclave[k].Execute?
  }

  /** In either reading a request no longer counts when its handler has ended: nothing will come of it. */
  ghost predicate InFlight(span: Span, conn: Connection) {
    !HandlerEnded(conn) && if span.UntilExecuted? then Unexecuted(conn) else Outstanding(conn)
  }

  ghost function InFlightIn(span: Span, e: Enclave): set<nat> {
    set c | c in e.connections && InFlight(span, e.connections[c])
  }

  ghost function InFlightOn(span: Span, s: System): set<nat> {
    InFlightIn(span, s.enclave)
  }

  /** Where an unexecuted request is: taken last, or still in the queue. */
  lemma UnexecutedIsUnanswered(conn: Connection)
    requires FifoQueues(conn) && |conn.replies| <= Taken(conn)
    requires Executing(conn.task) ==> |conn.replies| < Taken(conn) && conn.sent[Taken(conn) - 1].Execute?
    requires Unexecuted(conn)
    ensures Outstanding(conn)
  {
    if k :| 0 <= k < |conn.toEnclave| && conn.toEnclave[k].Execute? {
      assert conn.sent[Taken(conn) + k].Execute?;
    }
  }

  lemma InFlightIsOutstanding(p: Platform, e: Enclave, conn: Connection, span: Span)
    requires FifoQueues(conn) && TaskMatches(p, e, conn) && InFlight(span, conn)
    ensures Outstanding(conn)
  {
    if span.UntilExecuted? {
      UnexecutedIsUnanswered(conn);
    }
  }

  // ----- Steps that add nothing -----

  lemma EndedHandlersStay(p: Platform, e: Enclave, step: Step)
    requires Enabled(p, e, step) && !step.Accept? && HandlerEnded(e.connections[step.c])
    ensures HandlerEnded(NextConnection(p, e, e.connections[step.c], step))
  {
  }

  lemma NothingNewToExecute(p: Platform, e: Enclave, step: Step)
    requires Enabled(p, e, step) && !step.Accept? && (step.HostSend? ==> !step.request.Execute?)
    requires Unexecuted(NextConnection(p, e, e.connections[step.c], step))
    ensures Unexecuted(e.connections[step.c])
  {
    var conn := e.connections[step.c];
    var conn' := NextConnection(p, e, conn, step);
    if k :| 0 <= k < |conn'.toEnclave| && conn'.toEnclave[k].Execute? {
      assert conn'.toEnclave[k] == conn.toEnclave[if step.Recv? then k + 1 else k];
    } else if step.Recv? && conn'.task.Checking? {
      assert conn.toEnclave[0].Execute?;
    }
  }

  lemma NothingNewToAnswer(p: Platform, e: Enclave, step: Step)
    requires Enabled(p, e, step) && !step.Accept? && (step.HostSend? ==> !step.request.Execute?)
    requires Outstanding(NextConnection(p, e, e.connections[step.c], step))
    ensures Outstanding(e.connections[step.c])
  {
    var conn := e.connections[step.c];
    var conn' := NextConnection(p, e, conn, step);
    var k :| |conn'.replies| <= k < |conn'.sent| && conn'.sent[k].Execute?;
    assert |conn.replies| <= k < |conn.sent| && conn.sent[k].Execute?;
  }

  /** Nothing but a new execution request gets in flight. */
  lemma QuietStepAddsNothing(p: Platform, e: Enclave, step: Step, span: Span)
    requires Enabled(p, e, step) && (step.HostSend? ==> !step.request.Execute?)
    ensures InFlightIn(span, Apply(p, e, step)) <= InFlightIn(span, e)
  {
    StepIsLocal(p, e, step);
    forall c | c in InFlightIn(span, Apply(p, e, step)) ensures c in InFlightIn(span, e) {
      if c == step.c && !step.Accept? {
        if HandlerEnded(e.connections[c]) {
          EndedHandlersStay(p, e, step);
        }
        if span.UntilExecuted? {
          NothingNewToExecute(p, e, step);
        } else {
          NothingNewToAnswer(p, e, step);
        }
      }
    }
  }

  lemma ClosingAddsNothing(p: Platform, e: Enclave, task: HostTask, next: HostTask, span: Span)
    requires OnConnection(task) ==> task.c in e.connections
    ensures InFlightIn(span, Closing(p, e, task, next)) <= InFlightIn(span, e)
  {
    if OnConnection(task) && !OnConnection(next) {
      QuietStepAddsNothing(p, e, HostSend(task.c, CloseSession), span);
    }
  }

  /** The step sends an execution request to a handler that can receive it. */
  predicate SendsExecution(s: System, step: HostStep) {
    && step.Send? && step.t in s.tasks && s.tasks[step.t].Connected?
    && s.tasks[step.t].c in s.enclave.connections && !HandlerEnded(s.enclave.connections[s.tasks[step.t].c])
  }

  lemma LostSendAddsNothing(p: Platform, s: System, t: nat, span: Span)
    requires HostEnabled(p, s, Send(t)) && Conversation(p, s.enclave, s.tasks[t])
    requires s.tasks[t].Connected? && !SendsExecution(s, Send(t))
    ensures InFlightOn(span, HostApply(p, s, Send(t))) <= InFlightOn(span, s)
  {
    var c := s.tasks[t].c;
    StepIsLocal(p, s.enclave, HostSend(c, Execute(s.tasks[t].job)));
    EndedHandlersStay(p, s.enclave, HostSend(c, Execute(s.tasks[t].job)));
  }

  /** The task of the step, if it has one that exists, is in order. */
  ghost predicate TaskInOrder(p: Platform, s: System, step: HostStep) {
    !step.ServerStep? && step.t in s.tasks ==> Conversation(p, s.enclave, s.tasks[step.t])
  }

  lemma OtherStepsAddNothing(p: Platform, s: System, step: HostStep, span: Span)
    requires HostEnabled(p, s, step) && TaskInOrder(p, s, step) && !SendsExecution(s, step)
    ensures InFlightOn(span, HostApply(p, s, step)) <= InFlightOn(span, s)
  {
    match step
    case ServerStep(inner) => QuietStepAddsNothing(p, s.enclave, inner, span);
    case Connect(_, d) => QuietStepAddsNothing(p, s.enclave, Accept(d), span);
    case Send(t) =>
      if s.tasks[t].Connected? {
        LostSendAddsNothing(p, s, t, span);
      } else {
        QuietStepAddsNothing(p, s.enclave, HostSend(s.tasks[t].c, NextRequest(s.tasks[t]).value.0), span);
      }
    case Receive(t) =>
      var read := Apply(p, s.enclave, HostRecv(s.tasks[t].c));
      QuietStepAddsNothing(p, s.enclave, HostRecv(s.tasks[t].c), span);
      ClosingAddsNothing(p, read, s.tasks[t], HostApply(p, s, step).tasks[t], span);
    case PutObject(t) => ClosingAddsNothing(p, s.enclave, s.tasks[t], Saved, span);
    case Fail(t) => ClosingAddsNothing(p, s.enclave, s.tasks[t], AfterFailure(s.tasks[t]), span);
    case Drop(t) => ClosingAddsNothing(p, s.enclave, s.tasks[t], Dropped, span);
    case _ =>
  }

  // ----- The step that adds one -----

  lemma RequestGetsInFlight(p: Platform, e: Enclave, c: nat, job: Job, span: Span)
    requires c in e.connections && FifoQueues(e.connections[c]) && TaskMatches(p, e, e.connections[c])
    requires e.connections[c].sent == []
    requires !HandlerEnded(e.connections[c])
    ensures c !in InFlightIn(span, e)
    ensures InFlightIn(span, Apply(p, e, HostSend(c, Execute(job)))) == InFlightIn(span, e) + {c}
  {
    var e' := Apply(p, e, HostSend(c, Execute(job)));
    assert e'.connections[c].sent[0].Execute? && e'.connections[c].toEnclave[0].Execute?;
  }

  lemma ExecutionSendAdds(p: Platform, s: System, t: nat, span: Span)
    requires SystemInv(p, s) && HostEnabled(p, s, Send(t)) && SendsExecution(s, Send(t))
    ensures s.tasks[t].c !in InFlightOn(span, s)
    ensures InFlightOn(span, HostApply(p, s, Send(t))) == InFlightOn(span, s) + {s.tasks[t].c}
  {
    assert Conversation(p, s.enclave, s.tasks[t]);
    assert ConnectionInv(p, s.enclave, s.enclave.connections[s.tasks[t].c]);
    SendGetsInFlight(p, s, t, span);
  }

  lemma SendGetsInFlight(p: Platform, s: System, t: nat, span: Span)
    requires HostEnabled(p, s, Send(t)) && SendsExecution(s, Send(t)) && Conversation(p, s.enclave, s.tasks[t])
    requires FifoQueues(s.enclave.connections[s.tasks[t].c])
    requires TaskMatches(p, s.enclave, s.enclave.connections[s.tasks[t].c])
    ensures s.tasks[t].c !in InFlightOn(span, s)
    ensures InFlightOn(span, HostApply(p, s, Send(t))) == InFlightOn(span, s) + {s.tasks[t].c}
  {
    var e, c, job := s.enclave, s.tasks[t].c, s.tasks[t].job;
    assert HostApply(p, s, Send(t)).enclave == Apply(p, e, HostSend(c, Execute(job)));
    RequestGetsInFlight(p, e, c, job, span);
  }

  /** As long as no execution request is awaited, all that are in flight were given up. */
  lemma OnlyGivenUpAreInFlight(p: Platform, s: System, span: Span)
    requires EnclaveInv(p, s.enclave) && OutstandingInv(s) && MutexInv(s)
    requires s.mutex.Some? ==> !s.tasks[s.mutex.value].Sent?
    ensures InFlightOn(span, s) <= s.abandoned && InFlightOn(span, s) * s.abandoned == InFlightOn(span, s)
  {
    forall c | c in InFlightOn(span, s) ensures c in s.abandoned {
      assert ConnectionInv(p, s.enclave, s.enclave.connections[c]);
      InFlightIsOutstanding(p, s.enclave, s.enclave.connections[c], span);
      assert !SentOn(s, c);
    }
  }

  lemma MoreThanOne(xs: set<nat>, x: nat)
    requires x !in xs
    ensures |xs + {x}| > 1 <==> xs != {}
  {
    assert |xs + {x}| == |xs| + 1;
  }

  lemma SendOverlaps(p: Platform, s: System, t: nat, span: Span)
    requires SystemInv(p, s) && HostEnabled(p, s, Send(t)) && SendsExecution(s, Send(t))
    ensures |InFlightOn(span, HostApply(p, s, Send(t)))| > 1 <==> InFlightOn(span, s) * s.abandoned != {}
  {
    ExecutionSendAdds(p, s, t, span);
    MoreThanOne(InFlightOn(span, s), s.tasks[t].c);
    assert s.mutex == Some(t);
    OnlyGivenUpAreInFlight(p, s, span);
  }

  /**
   * When sending an execution request puts two in flight: exactly when its handler has not ended and one that was
   * given up earlier is still in flight. Requests given up that have been dealt with, or whose handler has ended,
   * do no harm.
   */
  lemma SendOverlapsIff(p: Platform, key: Bytes, version: nat, pcr0: Bytes, s: System, t: nat, span: Span)
    requires HostReachable(p, Booted(key, version, pcr0), s) && t in s.tasks && s.tasks[t].Connected?
    ensures SendsExecution(s, Send(t)) ==>
              (|InFlightOn(span, HostApply(p, s, Send(t)))| > 1 <==> InFlightOn(span, s) * s.abandoned != {})
    ensures !SendsExecution(s, Send(t)) ==> InFlightOn(span, HostApply(p, s, Send(t))) <= InFlightOn(span, s)
  {
    HostReachableInv(p, key, version, pcr0, s);
    if SendsExecution(s, Send(t)) {
      SendOverlaps(p, s, t, span);
    } else {
      assert TaskInOrder(p, s, Send(t));
      OtherStepsAddNothing(p, s, Send(t), span);
    }
  }

  // ----- Whole runs -----

  /** In every state that the run passes, at most one execution request is in flight. */
  ghost predicate KeptApart(p: Platform, s: System, steps: seq<HostStep>, span: Span)
    requires HostPossible(p, s, steps)
    decreases |steps|
  {
    |InFlightOn(span, s)| <= 1 && (steps == [] || KeptApart(p, HostApply(p, s, steps[0]), steps[1..], span))
  }

  /** Whenever an execution request is sent, none that was given up before is still in flight. */
  ghost predicate SendsAreClear(p: Platform, s: System, steps: seq<HostStep>, span: Span)
    requires HostPossible(p, s, steps)
    decreases |steps|
  {
    steps == [] ||
    (&& (SendsExecution(s, steps[0]) ==> InFlightOn(span, s) * s.abandoned == {})
     && SendsAreClear(p, HostApply(p, s, steps[0]), steps[1..], span))
  }

  lemma FewerIn(xs: set<nat>, ys: set<nat>)
    requires xs <= ys
    ensures |xs| <= |ys|
  {
    assert ys == xs + (ys - xs);
  }

  lemma StepKeepsApartIff(p: Platform, s: System, step: HostStep, span: Span)
    requires SystemInv(p, s) && HostEnabled(p, s, step) && |InFlightOn(span, s)| <= 1
    ensures |InFlightOn(span, HostApply(p, s, step))| <= 1
       <==> (SendsExecution(s, step) ==> InFlightOn(span, s) * s.abandoned == {})
  {
    if SendsExecution(s, step) {
      SendOverlaps(p, s, step.t, span);
    } else {
      assert TaskInOrder(p, s, step);
      OtherStepsAddNothing(p, s, step, span);
      FewerIn(InFlightOn(span, HostApply(p, s, step)), InFlightOn(span, s));
    }
  }

  lemma {:induction false} KeptApartFrom(p: Platform, s: System, steps: seq<HostStep>, span: Span)
    requires SystemInv(p, s) && HostPossible(p, s, steps) && |InFlightOn(span, s)| <= 1
    ensures KeptApart(p, s, steps, span) <==> SendsAreClear(p, s, steps, span)
    decreases |steps|
  {
    if steps == [] {
    } else {
      HostStepKeepsInv(p, s, steps[0]);
      StepKeepsApartIff(p, s, steps[0], span);
      if |InFlightOn(span, HostApply(p, s, steps[0]))| <= 1 {
        KeptApartFrom(p, HostApply(p, s, steps[0]), steps[1..], span);
      }
    }
  }

  /**
   * What the host's mutex is for, with its exact condition, in both readings: a run keeps execution requests apart
   * throughout exactly when it never sends one while an earlier one, given up by its caller, is still in flight.
   */
  lemma RequestsKeptApartIff(p: Platform, key: Bytes, version: nat, pcr0: Bytes, steps: seq<HostStep>, span: Span)
    requires HostPossible(p, Initial(Booted(key, version, pcr0)), steps)
    ensures var s := Initial(Booted(key, version, pcr0));
            KeptApart(p, s, steps, span) <==> SendsAreClear(p, s, steps, span)
  {
    var s := Initial(Booted(key, version, pcr0));
    assert InFlightOn(span, s) == {};
    KeptApartFrom(p, s, steps, span);
  }

  // ----- Requests that find the mutex free -----

  lemma InFlightWith(s: System, t: nat, c: nat, job: Job, span: Span)
    requires c !in s.enclave.connections
    ensures c !in InFlightOn(span, s)
    ensures InFlightOn(span, With(s, t, Sent(job, c), c, Pending([Execute(job)]))) == InFlightOn(span, s) + {c}
  {
    var conn := Pending([Execute(job)]);
    assert conn.sent[0].Execute? && conn.toEnclave[0].Execute?;
  }

  /** A request that finds the mutex free, and gets sent, meets another one exactly in the same case. */
  lemma FreeMutexOverlapsIff(p: Platform, key: Bytes, version: nat, pcr0: Bytes, s: System, t: nat, c: nat, job: Job,
                             span: Span)
    returns (s': System)
    requires HostReachable(p, Booted(key, version, pcr0), s) && s.mutex.None?
    requires t !in s.tasks && c !in s.enclave.connections
    ensures HostReachable(p, Booted(key, version, pcr0), s') && t in s'.tasks && s'.tasks[t] == Sent(job, c)
    ensures |InFlightOn(span, s')| > 1 <==> InFlightOn(span, s) * s.abandoned != {}
  {
    s' := SendExecution(p, Initial(Booted(key, version, pcr0)), s, t, c, job);
    InFlightWith(s, t, c, job, span);
    assert InFlightOn(span, s') == InFlightOn(span, With(s, t, Sent(job, c), c, Pending([Execute(job)])));
    MoreThanOne(InFlightOn(span, s), c);
    assert InFlightOn(span, s) * s.abandoned == InFlightOn(span, s) by {
      HostReachableInv(p, key, version, pcr0, s);
      OnlyGivenUpAreInFlight(p, s, span);
    }
  }

  /** Giving up an execution request that waits for its reply. */
  lemma GivesUp(p: Platform, from: System, s: System, t: nat, c: nat, job: Job) returns (s': System)
    requires HostLeads(p, from, s) && t in s.tasks && s.tasks[t] == Sent(job, c) && s.mutex == Some(t)
    requires c in s.enclave.connections
    ensures HostLeads(p, from, s')
    ensures var conn := s.enclave.connections[c];
            var closed := conn.(toEnclave := conn.toEnclave + [CloseSession], sent := conn.sent + [CloseSession]);
            s' == With(s, t, Dropped, c, closed).(mutex := None, abandoned := s.abandoned + {c})
  {
    LeadOneMore(p, from, s, Drop(t));
    s' := HostApply(p, s, Drop(t));
  }

  /**
   * Dropping one host future is enough to defeat the mutex: two execution requests are in flight at once, and neither
   * program has run. It is the enclave's own guard that keeps them from running together.
   */
  lemma MutexDefeatedByOneDrop(p: Platform, key: Bytes, version: nat, pcr0: Bytes, first: Job, second: Job, span: Span)
    returns (s: System)
    ensures HostReachable(p, Booted(key, version, pcr0), s)
    ensures s.abandoned == {0} && InFlightOn(span, s) == {0, 1}
  {
    var start := Initial(Booted(key, version, pcr0));
    LeadsToItself(p, start);
    var s1 := SendExecution(p, start, start, 0, 0, first);
    var s2 := GivesUp(p, start, s1, 0, 0, first);
    s := SendExecution(p, start, s2, 1, 1, second);
    var one, two := s.enclave.connections[0], s.enclave.connections[1];
    assert one.sent[0].Execute? && one.toEnclave[0].Execute? && two.sent[0].Execute? && two.toEnclave[0].Execute?;
    assert s.enclave.connections.Keys == {0, 1};
  }
}
