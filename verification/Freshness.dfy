/** Keeping the stored attestation fresh: retries after failures, an interval after successes. */
module Freshness {

  // Milliseconds: 5 seconds, 30 minutes.
  const TRY_AGAIN_INTERVAL: nat := 5_000
  const ATTESTATION_INTERVAL: nat := 1_800_000

  /** One call of `save_attestation`: how long it took, and whether it stored an object. */
  datatype Attempt = Attempt(duration: nat, ok: bool)

  /** A stored attestation was created between `begun` and `stored`; its tick consumed the deadline `due`. */
  datatype Save = Save(begun: nat, stored: nat, due: nat)

  /** The clock, the interval's next deadline, and the saves so far. */
  datatype Task = Task(now: nat, deadline: nat, saves: seq<Save>)

  function Max(a: nat, b: nat): nat {
    if a < b then b else a
  }

  /** The interval's first deadline is its creation, and a late tick does not postpone the following ones. */
  function Started(spawned: nat): Task {
    var now := spawned + TRY_AGAIN_INTERVAL;
    Task(now, now, [])
  }

  function AfterAttempt(t: Task, a: Attempt): Task {
    var done := t.now + a.duration;
    if a.ok then
      Task(Max(done, t.deadline), t.deadline + ATTESTATION_INTERVAL, t.saves + [Save(t.now, done, t.deadline)])
    else
      t.(now := done + TRY_AGAIN_INTERVAL)
  }

  function TaskRun(spawned: nat, attempts: seq<Attempt>): Task {
    if attempts == [] then Started(spawned)
    else AfterAttempt(TaskRun(spawned, attempts[..|attempts| - 1]), attempts[|attempts| - 1])
  }

  /** The loop, over any finite stretch of attempts. */
  method AttestationTask(spawned: nat, attempts: seq<Attempt>) returns (saves: seq<Save>)
    ensures saves == TaskRun(spawned, attempts).saves
  {
    saves := [];
    var now: nat := spawned + TRY_AGAIN_INTERVAL;
    var deadline: nat := now;
    for i := 0 to |attempts|
      invariant TaskRun(spawned, attempts[..i]) == Task(now, deadline, saves)
    {
      assert attempts[..i + 1][..i] == attempts[..i];
      var begun := now;
      now := now + attempts[i].duration;
      if !attempts[i].ok {
        now := now + TRY_AGAIN_INTERVAL;
        continue;
      }
      saves := saves + [Save(begun, now, deadline)];
      if now < deadline {
        now := deadline;
      }
      deadline := deadline + ATTESTATION_INTERVAL;
    }
    assert attempts[..|attempts|] == attempts;
  }

  /** The failures since the last success. */
  function TrailingFailures(attempts: seq<Attempt>): nat {
    if attempts == [] || attempts[|attempts| - 1].ok then 0
    else 1 + TrailingFailures(attempts[..|attempts| - 1])
  }

  /** No attempt takes longer than `longest`, and no more than `failures` fail in a row. */
  ghost predicate Bounded(attempts: seq<Attempt>, longest: nat, failures: nat) {
    && (forall i | 0 <= i < |attempts| :: attempts[i].duration <= longest)
    && (forall n | 0 <= n <= |attempts| :: TrailingFailures(attempts[..n]) <= failures)
  }

  /** The time that failures in a row can take. */
  function Retrying(longest: nat, failures: nat): nat {
    if failures == 0 then 0 else Retrying(longest, failures - 1) + longest + TRY_AGAIN_INTERVAL
  }

  /** The time that failures and a final success can take. */
  function Delay(longest: nat, failures: nat): nat {
    Retrying(longest, failures) + longest
  }

  lemma {:induction false} RetryingIsProduct(longest: nat, failures: nat)
    ensures Retrying(longest, failures) == failures * (longest + TRY_AGAIN_INTERVAL)
  {
    if failures == 0 {
    } else {
      RetryingIsProduct(longest, failures - 1);
    }
  }

  lemma {:induction false} RetryingGrows(longest: nat, few: nat, many: nat)
    requires few <= many
    ensures Retrying(longest, few) <= Retrying(longest, many)
    decreases many
  {
    if few == many {
    } else {
      RetryingGrows(longest, few, many - 1);
    }
  }

  ghost predicate Prompt(save: Save, longest: nat) {
    save.begun <= save.stored <= save.begun + longest
  }

  /** How soon one save replaces another: from storing to storing, and from creation to replacement. */
  ghost predicate Replaces(next: Save, previous: Save, longest: nat, failures: nat) {
    && next.stored <= previous.stored + ATTESTATION_INTERVAL + Delay(longest, failures)
    && next.stored <= previous.begun + Max(ATTESTATION_INTERVAL, longest) + Delay(longest, failures)
  }

  ghost predicate Close(saves: seq<Save>, longest: nat, failures: nat) {
    && (forall k | 0 <= k < |saves| :: Prompt(saves[k], longest))
    && (forall j, k | 0 <= j < k < |saves| && k == j + 1 :: Replaces(saves[k], saves[j], longest, failures))
  }

  /** What holds between attempts: how far the clock can be behind the last tick. */
  ghost predicate OnSchedule(spawned: nat, t: Task, longest: nat, failures: nat, trailing: nat) {
    var retrying := Retrying(longest, trailing);
    if t.saves == [] then
      t.deadline == Started(spawned).now <= t.now <= t.deadline + retrying
    else
      var last := t.saves[|t.saves| - 1];
      && t.deadline == last.due + ATTESTATION_INTERVAL
      && last.due <= last.begun + ATTESTATION_INTERVAL
      && last.due <= t.now <= Max(last.stored, last.due) + retrying
  }

  lemma {:induction false} TaskStaysClose(spawned: nat, attempts: seq<Attempt>, longest: nat, failures: nat)
    requires Bounded(attempts, longest, failures)
    ensures Close(TaskRun(spawned, attempts).saves, longest, failures)
    ensures OnSchedule(spawned, TaskRun(spawned, attempts), longest, failures, TrailingFailures(attempts))
    decreases |attempts|
  {
    if attempts == [] {
    } else {
      var front := attempts[..|attempts| - 1];
      assert forall n | 0 <= n <= |front| :: front[..n] == attempts[..n];
      TaskStaysClose(spawned, front, longest, failures);
      var trailing := TrailingFailures(front);
      assert front[..|front|] == front;
      RetryingGrows(longest, trailing, failures);
      OneMoreAttempt(spawned, TaskRun(spawned, front), attempts[|attempts| - 1], longest, failures, trailing);
    }
  }

  lemma OneMoreAttempt(spawned: nat, t: Task, a: Attempt, longest: nat, failures: nat, trailing: nat)
    requires Close(t.saves, longest, failures) && OnSchedule(spawned, t, longest, failures, trailing)
    requires a.duration <= longest
    requires Retrying(longest, trailing) <= Retrying(longest, failures)
    ensures Close(AfterAttempt(t, a).saves, longest, failures)
    ensures OnSchedule(spawned, AfterAttempt(t, a), longest, failures, if a.ok then 0 else trailing + 1)
  {
    if a.ok {
      var save := Save(t.now, t.now + a.duration, t.deadline);
      if t.saves != [] {
        assert Prompt(t.saves[|t.saves| - 1], longest);
        assert Replaces(save, t.saves[|t.saves| - 1], longest, failures);
      }
      assert Prompt(save, longest);
    }
  }

  // ----- The slowest schedules within the bounds -----

  /** Attempts followed by `n` slow failures. */
  function Failing(base: seq<Attempt>, longest: nat, n: nat): seq<Attempt> {
    if n == 0 then base else Failing(base, longest, n - 1) + [Attempt(longest, false)]
  }

  lemma WithOneMore(spawned: nat, attempts: seq<Attempt>, a: Attempt)
    ensures TaskRun(spawned, attempts + [a]) == AfterAttempt(TaskRun(spawned, attempts), a)
    ensures TrailingFailures(attempts + [a]) == if a.ok then 0 else TrailingFailures(attempts) + 1
  {
    assert (attempts + [a])[..|attempts|] == attempts;
  }

  lemma BoundedWithOneMore(attempts: seq<Attempt>, a: Attempt, longest: nat, few: nat, failures: nat)
    requires Bounded(attempts, longest, few) && few <= failures && a.duration <= longest
    requires a.ok || TrailingFailures(attempts) < failures
    ensures Bounded(attempts + [a], longest, failures)
  {
    var more := attempts + [a];
    WithOneMore(0, attempts, a);
    forall k | 0 <= k <= |more| ensures TrailingFailures(more[..k]) <= failures {
      assert more[..k] == if k <= |attempts| then attempts[..k] else more;
    }
  }

  lemma {:induction false} FailuresDelay(spawned: nat, base: seq<Attempt>, longest: nat, n: nat)
    requires TrailingFailures(base) == 0
    ensures TrailingFailures(Failing(base, longest, n)) == n
    ensures var before, after := TaskRun(spawned, base), TaskRun(spawned, Failing(base, longest, n));
            after == before.(now := before.now + Retrying(longest, n))
  {
    if n == 0 {
    } else {
      FailuresDelay(spawned, base, longest, n - 1);
      WithOneMore(spawned, Failing(base, longest, n - 1), Attempt(longest, false));
    }
  }

  lemma {:induction false} FailingIsBounded(base: seq<Attempt>, longest: nat, n: nat)
    requires Bounded(base, longest, 0) && TrailingFailures(base) == 0
    ensures Bounded(Failing(base, longest, n), longest, n)
  {
    if n == 0 {
    } else {
      FailingIsBounded(base, longest, n - 1);
      FailuresDelay(0, base, longest, n - 1);
      BoundedWithOneMore(Failing(base, longest, n - 1), Attempt(longest, false), longest, n - 1, n);
    }
  }

  /** Any start, then as many slow failures as may be, then a slow success. */
  lemma SlowSuccess(spawned: nat, base: seq<Attempt>, longest: nat, failures: nat) returns (attempts: seq<Attempt>)
    requires Bounded(base, longest, 0)
    ensures Bounded(attempts, longest, failures)
    ensures var before, saves := TaskRun(spawned, base), TaskRun(spawned, attempts).saves;
            && |saves| == |before.saves| + 1 && before.saves <= saves
            && saves[|before.saves|].stored == before.now + Delay(longest, failures)
  {
    var failing := Failing(base, longest, failures);
    assert base[..|base|] == base;
    FailuresDelay(spawned, base, longest, failures);
    FailingIsBounded(base, longest, failures);
    attempts := failing + [Attempt(longest, true)];
    WithOneMore(spawned, failing, Attempt(longest, true));
    BoundedWithOneMore(failing, Attempt(longest, true), longest, failures, failures);
  }

  lemma OneSuccess(spawned: nat, duration: nat, longest: nat)
    requires duration <= longest
    ensures Bounded([Attempt(duration, true)], longest, 0)
    ensures var start := spawned + TRY_AGAIN_INTERVAL;
            TaskRun(spawned, [Attempt(duration, true)])
              == Task(start + duration, start + ATTESTATION_INTERVAL, [Save(start, start + duration, start)])
  {
    assert [] + [Attempt(duration, true)] == [Attempt(duration, true)];
    WithOneMore(spawned, [], Attempt(duration, true));
    BoundedWithOneMore([], Attempt(duration, true), longest, 0, 0);
  }

  lemma TwoImmediateSuccesses(spawned: nat, longest: nat)
    ensures Bounded([Attempt(0, true), Attempt(0, true)], longest, 0)
    ensures var start := spawned + TRY_AGAIN_INTERVAL;
            var t := TaskRun(spawned, [Attempt(0, true), Attempt(0, true)]);
            && t.saves == [Save(start, start, start), Save(start, start, start + ATTESTATION_INTERVAL)]
            && t.now == start + ATTESTATION_INTERVAL
  {
    OneSuccess(spawned, 0, longest);
    var one := [Attempt(0, true)];
    assert one + [Attempt(0, true)] == [Attempt(0, true), Attempt(0, true)];
    WithOneMore(spawned, one, Attempt(0, true));
    BoundedWithOneMore(one, Attempt(0, true), longest, 0, 0);
  }

  /** The bound between two saves is reached, after two saves in immediate succession. */
  lemma SlowestSchedule(spawned: nat, longest: nat, failures: nat) returns (attempts: seq<Attempt>)
    ensures Bounded(attempts, longest, failures)
    ensures var saves := TaskRun(spawned, attempts).saves;
            && |saves| == 3 && saves[1].begun == saves[1].stored
            && saves[2].stored == saves[1].stored + ATTESTATION_INTERVAL + Delay(longest, failures)
  {
    TwoImmediateSuccesses(spawned, longest);
    attempts := SlowSuccess(spawned, [Attempt(0, true), Attempt(0, true)], longest, failures);
  }

  /** So is the bound from creation when attempts are longer than the interval: one slow save, then another. */
  lemma OldestAttestation(spawned: nat, longest: nat, failures: nat) returns (attempts: seq<Attempt>)
    ensures Bounded(attempts, longest, failures)
    ensures var saves := TaskRun(spawned, attempts).saves;
            |saves| == 2 && saves[1].stored == saves[0].begun + longest + Delay(longest, failures)
  {
    OneSuccess(spawned, longest, longest);
    attempts := SlowSuccess(spawned, [Attempt(longest, true)], longest, failures);
  }

  /** The first save begins five seconds after the task starts, and five after each failure before it. */
  lemma FirstSave(spawned: nat, duration: nat, failures: nat, last: nat)
    ensures var attempts := Failing([], duration, failures) + [Attempt(last, true)];
            var begun := spawned + 5_000 + failures * (duration + 5_000);
            TaskRun(spawned, attempts).saves == [Save(begun, begun + last, spawned + 5_000)]
  {
    FailuresDelay(spawned, [], duration, failures);
    RetryingIsProduct(duration, failures);
    WithOneMore(spawned, Failing([], duration, failures), Attempt(last, true));
  }

  /**
   * Ticks are regular: the deadlines are half an hour apart from the start on, however late a tick is, and the next
   * attempts begin as soon as the save before and its tick allow.
   */
  ghost predicate Regular(spawned: nat, t: Task) {
    && (forall k | 0 <= k < |t.saves| :: t.saves[k].due == spawned + 5_000 + k * 1_800_000)
    && (forall j, k | 0 <= j < k < |t.saves| && k == j + 1 ::
          t.saves[k].begun >= Max(t.saves[j].stored, t.saves[j].due))
    && t.deadline == spawned + 5_000 + |t.saves| * 1_800_000
    && (t.saves != [] ==> var last := t.saves[|t.saves| - 1]; t.now >= Max(last.stored, last.due))
  }

  lemma {:induction false} TicksAreRegular(spawned: nat, attempts: seq<Attempt>)
    ensures Regular(spawned, TaskRun(spawned, attempts))
    decreases |attempts|
  {
    if attempts == [] {
    } else {
      TicksAreRegular(spawned, attempts[..|attempts| - 1]);
      RegularAfter(spawned, TaskRun(spawned, attempts[..|attempts| - 1]), attempts[|attempts| - 1]);
    }
  }

  lemma RegularAfter(spawned: nat, t: Task, a: Attempt)
    requires Regular(spawned, t)
    ensures Regular(spawned, AfterAttempt(t, a))
  {
  }

  /**
   * No expired attestation is left stored: the next one is there within three hours of the moment at which this one
   * was created, and that can be as early as the start of its attempt.
   */
  ghost predicate NeverExpires(spawned: nat, attempts: seq<Attempt>) {
    var saves := TaskRun(spawned, attempts).saves;
    forall j, k | 0 <= j < k < |saves| && k == j + 1 :: saves[k].stored <= saves[j].begun + 10_800_000
  }

  /**
   * Main result on freshness: every schedule within the bounds replaces each stored attestation before it expires,
   * exactly when three hours are enough for the interval, or a longer attempt, the failures and one more success.
   */
  lemma FreshIff(spawned: nat, longest: nat, failures: nat)
    ensures (forall attempts | Bounded(attempts, longest, failures) :: NeverExpires(spawned, attempts))
       <==> Max(1_800_000, longest) + failures * (longest + 5_000) + longest <= 10_800_000
  {
    RetryingIsProduct(longest, failures);
    forall attempts | Bounded(attempts, longest, failures)
      ensures Close(TaskRun(spawned, attempts).saves, longest, failures)
    {
      TaskStaysClose(spawned, attempts, longest, failures);
    }
    var frequent := SlowestSchedule(spawned, longest, failures);
    assert NeverExpires(spawned, frequent) ==> 1_800_000 + Delay(longest, failures) <= 10_800_000;
    var slow := OldestAttestation(spawned, longest, failures);
    assert NeverExpires(spawned, slow) ==> longest + Delay(longest, failures) <= 10_800_000;
  }
}
