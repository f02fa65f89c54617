/** When a failure, a cancellation or a producer failure commits at all, what it then adds, and how long the work
    it adds is held back. */
module QueueCompensation {
  import opened Basics
  import opened QueueModel
  import opened QueueSpec
  import opened QueueInvariant
  import opened QueueTransactions
  import opened QueueRuns
  import opened QueueHistory
  import opened QueueGuarantees
  import opened QueueRules

  // ---------------------------------------------------------------- the ordinary failure path

  predicate AttemptsRemain(row: Task) { row.attemptCount < row.work.maxAttempts }

  /** The id and the dedupe key of a task's terminal cleanup are not in use by another task. */
  ghost predicate CleanupFree(tasks: Tasks, t: string, w: Work) {
    && t + CLEANUP_SUFFIX !in tasks
    && forall u | u in tasks && u != t && Active(tasks[u].status) :: tasks[u].work.dedupe != w.dedupe
  }

  /** A worker's failure commits exactly when it still holds the lease and, if this was the last attempt of a task
      with a descriptor, the cleanup's id and key are free. The last attempt then adds exactly that one cleanup, in
      the same step, and the cleanup owns none; an earlier one adds nothing. Otherwise nothing at all is changed. */
  lemma FailSucceedsIff(db: Db, t: string, worker: string, now: int, retryAt: Option<int>, code: string)
    requires Inv(db) && t != "" && worker != ""
    ensures var r := Fail(db, t, worker, now, retryAt, code);
      r.Ok? <==> Holds(db, t, worker, now)
                 && (AttemptsRemain(db.tasks[t]) || db.tasks[t].cleanup.None?
                   || CleanupFree(db.tasks, t, db.tasks[t].cleanup.value))
    ensures var r := Fail(db, t, worker, now, retryAt, code);
      r.Err?
      ==> Apply(db, DoFail(t, worker, now, retryAt, code)) == db
    ensures var r := Fail(db, t, worker, now, retryAt, code);
      r.Ok? ==> (if AttemptsRemain(db.tasks[t]) || db.tasks[t].cleanup.None? then r.value.tasks.Keys == db.tasks.Keys
                 else Compensated(db.tasks, r.value.tasks, t, now))
                && (forall u | u in db.tasks && u != t :: r.value.tasks[u] == db.tasks[u])
                && t in r.value.tasks && (r.value.tasks[t].status
                  == if AttemptsRemain(db.tasks[t]) then Pending else Failed)
  {
    if Holds(db, t, worker, now) {
      OpenAttempt(db, t);
      var row := RetriedRow(db.tasks[t], now, Coalesce(retryAt, now), code);
      if !AttemptsRemain(db.tasks[t]) { LastFailure(db, t, row, now, code); }
    }
  }

  /** One detached task is added, the cleanup of the exhausted task, available at once. */
  ghost predicate Compensated(tasks: Tasks, tasks': Tasks, t: string, now: int) {
    var c := t + CLEANUP_SUFFIX;
    c !in tasks && tasks'.Keys == tasks.Keys + {c} && Detached(tasks'[c]) && tasks'[c].availableAt == now
    && t in tasks && tasks[t].cleanup.Some? && DescribedBy(tasks'[c], tasks[t].cleanup.value)
  }

  lemma LastFailure(db: Db, t: string, row: Task, now: int, code: string)
    requires Inv(db) && t in db.tasks && db.tasks[t].status.Running? && CurrentAttemptOpen(db, t)
    requires !AttemptsRemain(db.tasks[t]) && row == EndedRow(db.tasks[t], Failed, now, code)
    ensures var cleanup := db.tasks[t].cleanup; var r := Exhaust(EndAttempt(db, t, row, Errored, now, code), t, now);
      && (r.Ok? <==> cleanup.None? || CleanupFree(db.tasks, t, cleanup.value))
      && (r.Ok? ==> (forall u | u in db.tasks && u != t :: u in r.value.tasks && r.value.tasks[u] == db.tasks[u])
                    && t in r.value.tasks && r.value.tasks[t] == row)
      && (r.Ok? && cleanup.None? ==> r.value.tasks.Keys == db.tasks.Keys)
      && (r.Ok? && cleanup.Some? ==> Compensated(db.tasks, r.value.tasks, t, now))
  {
    var ended := EndAttempt(db, t, row, Errored, now, code);
    assert TaskOk(db.tasks[t]);
    EndAttemptKeeps(db, t, row, Errored, now, code);
    ExhaustKeeps(ended, t, now, {t});
    if row.cleanup.Some? { OthersActive(db.tasks, t, row, row.cleanup.value.dedupe); }
    if Exhaust(ended, t, now).Ok? { ExhaustTasks(ended, t, now, {t}); }
  }

  lemma OthersActive(tasks: Tasks, t: string, row: Task, key: string)
    requires t in tasks && !Active(row.status)
    ensures ActiveDedupe(tasks[t := row], key) <==>
      exists u | u in tasks && u != t && Active(tasks[u].status) :: tasks[u].work.dedupe == key
  {
    var after := tasks[t := row];
    if u :| u in after && after[u].work.dedupe == key && Active(after[u].status) {
      assert u != t && tasks[u] == after[u];
    }
    if u :| u in tasks && u != t && Active(tasks[u].status) && tasks[u].work.dedupe == key {
      assert after[u] == tasks[u];
    }
  }

  // ---------------------------------------------------------------- the operation-level calls

  /** The cleanup task is well described and detached, and its id and dedupe key are not in use outside the
      operation that is being closed. */
  ghost predicate Enqueueable(tasks: Tasks, o: string, c: NewTask) {
    && c.id != "" && NormalizeWork(c.work).Ok? && NormalizeCleanup(c.cleanup).Ok?
    && c.id !in tasks
    && forall u | u in tasks && Active(tasks[u].status) && tasks[u].op != Some(o) ::
      tasks[u].work.dedupe != c.work.dedupe
  }

  lemma RevokedFreesKeys(db: Db, o: string, now: int, code: string, key: string)
    ensures ActiveDedupe(RevokeChildren(db, o, now, code).tasks, key) <==>
      exists u | u in db.tasks && Active(db.tasks[u].status) && db.tasks[u].op != Some(o) ::
        db.tasks[u].work.dedupe == key
  {
    var after := RevokeChildren(db, o, now, code).tasks;
    if u :| u in after && after[u].work.dedupe == key && Active(after[u].status) {
      assert u in db.tasks && db.tasks[u].op != Some(o) && db.tasks[u].work.dedupe == key;
    }
    if u :| u in db.tasks && Active(db.tasks[u].status) && db.tasks[u].op != Some(o) && db.tasks[u].work.dedupe == key {
      assert after[u] == db.tasks[u];
    }
  }

  lemma TerminateSucceedsIff(db: Db, o: string, now: int, code: string, cleanup: Option<NewTask>)
    requires Closing(db, o) && (cleanup.Some? ==> cleanup.value.op.None?)
    ensures Terminate(db, o, now, code, cleanup).Ok? <==> (cleanup.Some? ==> Enqueueable(db.tasks, o, cleanup.value))
  {
    RunningHaveLeases(db.tasks, o);
    TerminateKeeps(db, o, now, code, cleanup);
    if cleanup.Some? {
      var c := Delayed(cleanup.value, now, MaxOf(Leases(db.tasks, o)));
      RevokedFreesKeys(db, o, now, code, c.work.dedupe);
      if NormalizeWork(c.work).Ok? { assert NormalizeWork(c.work).value.dedupe == c.work.dedupe; }
    }
  }

  /** An operation is canceled exactly when it is active without a result and the cleanup, if any, can be enqueued
      beside what is left active; otherwise the whole state stays as it is. */
  lemma CancelSucceedsIff(db: Db, o: string, now: int, cleanup: Option<NewTask>)
    requires Inv(db) && o != ""
    ensures CancelOperation(db, o, now, cleanup).Ok? <==>
      Cancelable(db, o) && (cleanup.Some? ==> cleanup.value.op.None? && Enqueueable(db.tasks, o, cleanup.value))
    ensures CancelOperation(db, o, now, cleanup).Err? ==> Apply(db, DoCancelOperation(o, now, cleanup)) == db
  {
    if Cancelable(db, o) && (cleanup.Some? ==> cleanup.value.op.None?) {
      CloseOperation(db, o, CanceledRow(db.ops[o], now), now);
      TerminalRow(db, o, CanceledRow(db.ops[o], now), now);
      TerminateSucceedsIff(UpdateStatus(db, o, CanceledRow(db.ops[o], now), now), o, now, "", cleanup);
    }
  }

  /** A producer's failure likewise, except that its cleanup only matters when child work exists. */
  lemma ProducerFailureSucceedsIff(db: Db, o: string, now: int, code: string, cleanup: Option<NewTask>)
    requires Inv(db) && o != ""
    ensures FailOperation(db, o, now, code, cleanup).Ok? <==>
      Cancelable(db, o) && (cleanup.Some? ==> cleanup.value.op.None?)
      && (cleanup.Some? && (exists t | t in db.tasks :: db.tasks[t].op == Some(o))
        ==> Enqueueable(db.tasks, o, cleanup.value))
    ensures FailOperation(db, o, now, code, cleanup).Err? ==> Apply(db, DoFailOperation(o, now, code, cleanup)) == db
  {
    if Cancelable(db, o) && (cleanup.Some? ==> cleanup.value.op.None?) {
      ChildrenExist(db.tasks, o);
      CloseOperation(db, o, FailedRow(db.ops[o], now, code), now);
      TerminalRow(db, o, FailedRow(db.ops[o], now, code), now);
      TerminateSucceedsIff(UpdateStatus(db, o, FailedRow(db.ops[o], now, code), now), o, now, code,
                           if |Children(db.tasks, o)| > 0 then cleanup else None);
    }
  }

  // ---------------------------------------------------------------- the horizon over whole runs

  /** After a winning cancellation or producer failure, in every continuation that keeps the cleanup's row, its first
      attempt starts no earlier than each lease that was revoked. */
  lemma CleanupOutwaitsLeases(run: seq<Event>, e: Event, more: seq<Event>, t: string)
    requires (e.DoCancelOperation? || e.DoFailOperation?) && e.cleanup.Some? && Attempted(After(run), e).Ok?
    requires t in After(run).tasks && After(run).tasks[t].op == Some(e.op) && After(run).tasks[t].status.Running?
    requires forall k {:trigger more[..k]} | 0 <= k <= |more| ::
      e.cleanup.value.id in After(run + [e] + more[..k]).tasks
    ensures After(run).tasks[t].leaseExpires.Some?
    ensures HeldBack(After(run + [e] + more), e.cleanup.value.id, 0, After(run).tasks[t].leaseExpires.value)
  {
    var db, c := After(run), e.cleanup.value;
    ReachableInv(run);
    assert TaskOk(db.tasks[t]);
    assert (run + [e])[..|run|] == run;
    assert After(run + [e]) == Apply(db, e);
    ReachableInv(run + [e]);
    CleanupStartsHeldBack(db, e, t);
    NextAttemptWaits(run + [e], more, c.id, 0, db.tasks[t].leaseExpires.value);
  }

  lemma CleanupStartsHeldBack(db: Db, e: Event, t: string)
    requires Inv(db) && Inv(Apply(db, e))
    requires (e.DoCancelOperation? || e.DoFailOperation?) && e.cleanup.Some? && Attempted(db, e).Ok?
    requires t in db.tasks && db.tasks[t].op == Some(e.op)
    requires db.tasks[t].status.Running? && db.tasks[t].leaseExpires.Some?
    ensures e.cleanup.value.id in Apply(db, e).tasks
    ensures HeldBack(Apply(db, e), e.cleanup.value.id, 0, db.tasks[t].leaseExpires.value)
  {
    var d, c := Apply(db, e), e.cleanup.value;
    assert t in InState(db.tasks, e.op, Running);
    match e {
      case DoCancelOperation(o, now, cleanup) => CancellationCompensates(db, o, now, cleanup);
      case DoFailOperation(o, now, code, cleanup) => ProducerFailureCompensates(db, o, now, code, cleanup);
    }
    assert Compensates(db, d, e.op, c, e.now);
    assert Gen(c.id, 1) in d.attempts ==> AttemptOk(d.tasks, d.attempts, Gen(c.id, 1));
  }
}
