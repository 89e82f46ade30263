/** The enclave server comes to rest: without new input it can take only so many steps, and then all is answered. */
module Progress {
  import opened Enclaves
  import opened EnclaveRuns

  /** How many steps a handler can still take for the request that it has. */
  function Rank(task: Task): nat {
    match task
    case Checking(_) => 5
    case Waiting(_) => 4
    case Running(_) => 3
    case Attesting => 3
    case Replying(_) => 2
    case Receiving => 1
    case Closed => 0
    case Crashed => 0
  }

  /** The steps left on a connection: at most five for a request that waits to be received. */
  function Weight(conn: Connection): nat {
    5 * |conn.toEnclave| + Rank(conn.task)
  }

  /** The sum over all items with a number below `n`. */
  function Total<T>(weight: T -> nat, items: map<nat, T>, n: nat): nat {
    if n == 0 then 0
    else Total(weight, items, n - 1) + if n - 1 in items then weight(items[n - 1]) else 0
  }

  /** The steps left on all connections with a number below `n`. */
  function Work(connections: map<nat, Connection>, n: nat): nat {
    Total(Weight, connections, n)
  }

  ghost predicate NumberedBelow(connections: map<nat, Connection>, n: nat) {
    forall c | c in connections :: c < n
  }

  lemma {:induction false} NumbersAreBounded(numbers: set<nat>) returns (n: nat)
    ensures forall c | c in numbers :: c < n
    decreases |numbers|
  {
    if numbers == {} {
      n := 0;
    } else {
      var c :| c in numbers;
      var m := NumbersAreBounded(numbers - {c});
      n := if m <= c then c + 1 else m;
      forall d | d in numbers ensures d < n {
        assert d == c || d in numbers - {c};
      }
    }
  }

  lemma {:induction false} TotalChanges<T>(weight: T -> nat, items: map<nat, T>, i: nat, item: T, n: nat)
    requires i in items
    ensures Total(weight, items[i := item], n)
         == Total(weight, items, n) + if i < n then weight(item) - weight(items[i]) else 0
  {
    if n == 0 {
    } else {
      TotalChanges(weight, items, i, item, n - 1);
    }
  }

  lemma StepTakesWork(p: Platform, e: Enclave, step: Step)
    requires IsServerStep(step) && Enabled(p, e, step)
    ensures Apply(p, e, step).connections == e.connections[step.c := Apply(p, e, step).connections[step.c]]
    ensures Weight(Apply(p, e, step).connections[step.c]) < Weight(e.connections[step.c])
  {
    var conn := e.connections[step.c];
    assert Apply(p, e, step).connections[step.c] == NextConnection(p, e, conn, step);
  }

  ghost predicate ByItself(steps: seq<Step>) {
    forall i | 0 <= i < |steps| :: IsServerStep(steps[i])
  }

  /**
   * Without new connections and requests, no run of the server is longer than the work that is there when it
   * starts, failures included: nothing that it does by itself goes on forever.
   */
  lemma {:induction false} RunsAreBounded(p: Platform, e: Enclave, steps: seq<Step>, n: nat)
    requires Possible(p, e, steps) && ByItself(steps) && NumberedBelow(e.connections, n)
    ensures |steps| + Work(After(p, e, steps).connections, n) <= Work(e.connections, n)
    decreases |steps|
  {
    if steps == [] {
    } else {
      var next := Apply(p, e, steps[0]);
      StepTakesWork(p, e, steps[0]);
      TotalChanges(Weight, e.connections, steps[0].c, next.connections[steps[0].c], n);
      RunsAreBounded(p, next, steps[1..], n);
    }
  }

  /** The server is at rest: it can do nothing by itself, other than notice that a connection is lost. */
  ghost predicate AtRest(p: Platform, e: Enclave) {
    forall step | IsServerStep(step) && !step.RecvFails? :: !Enabled(p, e, step)
  }

  /** The handler has ended, or it has answered everything that was sent and waits for more. */
  predicate Idle(conn: Connection) {
    || conn.task.Closed? || conn.task.Crashed?
    || (conn.task.Receiving? && conn.toEnclave == [] && |conn.replies| == |conn.sent|)
  }

  lemma IdleHandlerIff(p: Platform, e: Enclave, c: nat)
    requires EnclaveInv(p, e) && c in e.connections && e.guard.None?
    ensures Idle(e.connections[c]) <==>
              !(exists step: Step :: step.c == c && IsServerStep(step) && !step.RecvFails? && Enabled(p, e, step))
  {
    assert ConnectionInv(p, e, e.connections[c]);
    match e.connections[c].task
    case Receiving => assert e.connections[c].toEnclave != [] ==> Enabled(p, e, Recv(c));
    case Attesting => assert Enabled(p, e, AttestEnds(c, NsmFailure));
    case Checking(_) => assert Enabled(p, e, CheckLimit(c));
    case Waiting(_) => assert Enabled(p, e, TakeGuard(c));
    case Replying(_) => assert Enabled(p, e, Reply(c));
    case _ =>
  }

  /** At rest, exactly, the guard is free and every handler has ended or is idle: no deadlock, and no lost request. */
  lemma AtRestIff(p: Platform, e: Enclave)
    requires Reachable(p, e)
    ensures AtRest(p, e) <==> e.guard.None? && forall c | c in e.connections :: Idle(e.connections[c])
  {
    ReachableKeepsInv(p, e);
    RestIff(p, e);
  }

  lemma RestIff(p: Platform, e: Enclave)
    requires EnclaveInv(p, e)
    ensures AtRest(p, e) <==> e.guard.None? && forall c | c in e.connections :: Idle(e.connections[c])
  {
    if e.guard.Some? {
      assert Enabled(p, e, Finish(e.guard.value));
    } else {
      forall c | c in e.connections && AtRest(p, e) ensures Idle(e.connections[c]) {
        IdleHandlerIff(p, e, c);
      }
      if forall c | c in e.connections :: Idle(e.connections[c]) {
        forall step | IsServerStep(step) && !step.RecvFails? ensures !Enabled(p, e, step) {
          if Enabled(p, e, step) {
            IdleHandlerIff(p, e, step.c);
          }
        }
      }
    }
  }

  /** A step in which nothing goes wrong. */
  predicate IsOrderly(step: Step) {
    IsServerStep(step) && !step.RecvFails? && !step.ReplyFails? && !step.ExecutionPanics?
  }

  /** Later on the same connections: the same requests, and no handler has crashed in between. */
  ghost predicate Continues(e: Enclave, e': Enclave) {
    && e'.connections.Keys == e.connections.Keys
    && forall c | c in e.connections ::
         && e'.connections[c].sent == e.connections[c].sent
         && (e'.connections[c].task.Crashed? ==> e.connections[c].task.Crashed?)
  }

  lemma OrderlyStepContinues(p: Platform, e: Enclave, step: Step)
    requires IsOrderly(step) && Enabled(p, e, step)
    ensures Continues(e, Apply(p, e, step))
  {
  }

  lemma OrderlyOrAtRest(p: Platform, e: Enclave)
    requires forall step | IsOrderly(step) :: !Enabled(p, e, step)
    ensures AtRest(p, e)
  {
    forall step | IsServerStep(step) && !step.RecvFails? ensures !Enabled(p, e, step) {
      assert !Enabled(p, e, Reply(step.c)) && !Enabled(p, e, Finish(step.c));
    }
  }

  lemma {:induction false} SettleFrom(p: Platform, from: Enclave, e: Enclave, n: nat) returns (e': Enclave)
    requires Leads(p, from, e) && NumberedBelow(e.connections, n)
    ensures Leads(p, from, e') && AtRest(p, e') && Continues(e, e')
    decreases Work(e.connections, n)
  {
    if step :| IsOrderly(step) && Enabled(p, e, step) {
      var next := LeadOneMore(p, from, e, step);
      StepTakesWork(p, e, step);
      TotalChanges(Weight, e.connections, step.c, next.connections[step.c], n);
      OrderlyStepContinues(p, e, step);
      e' := SettleFrom(p, from, next, n);
    } else {
      OrderlyOrAtRest(p, e);
      e' := e;
    }
  }

  /**
   * From every reachable state the server can come to rest by itself with no further crash, and every request sent
   * on a connection that is still open has its answer then, however many executions compete for the guard.
   */
  lemma EverythingCanBeAnswered(p: Platform, e: Enclave) returns (e': Enclave)
    requires Reachable(p, e)
    ensures Leads(p, e, e') && Continues(e, e') && e'.guard.None?
    ensures forall c | c in e.connections && !e.connections[c].task.Crashed? ::
              var conn := e'.connections[c];
              conn.task.Closed? || (conn.task.Receiving? && |conn.replies| == |conn.sent| == |e.connections[c].sent|)
  {
    var n := NumbersAreBounded(e.connections.Keys);
    LeadsToItself(p, e);
    e' := SettleFrom(p, e, e, n);
    ReachableLater(p, e, e');
    AtRestIff(p, e');
    assert forall c | c in e'.connections :: Idle(e'.connections[c]);
  }
}
