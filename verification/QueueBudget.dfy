/** Bounded work: every claim spends one unit of a budget that only enqueueing can raise, so no run claims
    more often than the attempts its tasks and their compensation descriptors were granted. */
module QueueBudget {
  import opened Basics
  import opened QueueModel
  import opened QueueSpec
  import opened QueueInvariant
  import opened QueueTransactions
  import opened QueueRuns
  import opened QueueHistory
  import opened QueueGuarantees

  // ---------------------------------------------------------------- sums over a table

  ghost function Total(m: map<string, nat>): nat
    decreases |m|
  {
    if m == map[] then 0 else var k :| k in m; m[k] + Total(m - {k})
  }

  lemma {:induction false} TotalAt(m: map<string, nat>, k: string)
    requires k in m
    ensures Total(m) == m[k] + Total(m - {k})
    decreases |m|
  {
    var j :| j in m && Total(m) == m[j] + Total(m - {j});
    if j != k {
      TotalAt(m - {j}, k);
      TotalAt(m - {k}, j);
      assert m - {j} - {k} == m - {k} - {j};
    }
  }

  lemma TotalUpdate(m: map<string, nat>, k: string, v: nat)
    ensures Total(m[k := v]) == Total(m) + v - (if k in m then m[k] else 0)
  {
    TotalAt(m[k := v], k);
    if k in m { TotalAt(m, k); assert m[k := v] - {k} == m - {k}; }
    else { assert m[k := v] - {k} == m; }
  }

  lemma {:induction false} TotalMonotone(m: map<string, nat>, n: map<string, nat>)
    requires forall k | k in m :: k in n && m[k] <= n[k]
    ensures Total(m) <= Total(n)
    decreases |m|
  {
    if m != map[] {
      var k :| k in m;
      TotalAt(m, k);
      TotalAt(n, k);
      TotalMonotone(m - {k}, n - {k});
    }
  }

  // ---------------------------------------------------------------- the budget

  function Positive(n: int): nat { if n < 0 then 0 else n }

  function Reserve(cleanup: Option<Work>): nat {
    match cleanup case None => 0 case Some(w) => Positive(w.maxAttempts)
  }

  /** The claims a task may still cause: its own attempts and those of its compensation. */
  function Remaining(t: Task, uncompensated: bool): nat {
    (if Active(t.status) then Positive(t.work.maxAttempts - t.attemptCount) else 0)
    + (if Active(t.status) || uncompensated then Reserve(t.cleanup) else 0)
  }

  function Shares(tasks: Tasks, lag: set<string>): map<string, nat> {
    map t | t in tasks :: Remaining(tasks[t], t in lag)
  }

  ghost function Budget(tasks: Tasks, lag: set<string>): nat { Total(Shares(tasks, lag)) }

  function DeclaredAttempts(w: Work): nat { if w.maxAttempts == 0 then 3 else Positive(w.maxAttempts) }

  /** What enqueueing a task grants. */
  function Grant(n: NewTask): nat {
    DeclaredAttempts(n.work) + match n.cleanup case None => 0 case Some(w) => DeclaredAttempts(w)
  }

  function NewTaskOf(e: Event): Option<NewTask> {
    match e
    case DoEnqueue(n, _) => Some(n)
    case DoCancelOperation(_, _, cleanup) => cleanup
    case DoFailOperation(_, _, _, cleanup) => cleanup
    case DoAttachAndReveal(_, _, n, _) => Some(n)
    case DoAttachChild(_, _, n, _) => Some(n)
    case DoCreateMutation(_, _, _, _, _, _, _, _, _, n, _) => Some(n)
    case _ => None
  }

  /** Attempts granted by one event: those of the task it actually inserted. */
  ghost function Granted(db: Db, e: Event): nat {
    match NewTaskOf(e)
    case None => 0
    case Some(n) => if n.id !in db.tasks && n.id in Apply(db, e).tasks then Grant(n) else 0
  }

  ghost function Claims(db: Db, e: Event): nat {
    if e.DoClaim? && Attempted(db, e).Ok? then 1 else 0
  }

  lemma Lowered(tasks: Tasks, tasks': Tasks, lag: set<string>, lag': set<string>)
    requires forall t | t in tasks' :: t in tasks && Remaining(tasks'[t], t in lag') <= Remaining(tasks[t], t in lag)
    ensures Budget(tasks', lag') <= Budget(tasks, lag)
  {
    TotalMonotone(Shares(tasks', lag'), Shares(tasks, lag));
  }

  lemma Replaced(tasks: Tasks, t: string, row: Task, lag: set<string>)
    ensures Budget(tasks[t := row], lag) ==
      Budget(tasks, lag) + Remaining(row, t in lag) - (if t in tasks then Remaining(tasks[t], t in lag) else 0)
  {
    TotalUpdate(Shares(tasks, lag), t, Remaining(row, t in lag));
    assert Shares(tasks[t := row], lag) == Shares(tasks, lag)[t := Remaining(row, t in lag)];
  }

  // ---------------------------------------------------------------- spending and granting

  lemma ClaimSpends(db: Db, t: string, pool: string, worker: string, now: int, lease: int)
    requires Inv(db) && Claim(db, t, pool, worker, now, lease).Ok?
    ensures Budget(Claim(db, t, pool, worker, now, lease).value.tasks, {}) + 1 == Budget(db.tasks, {})
  {
    assert TaskOk(db.tasks[t]);
    Replaced(db.tasks, t, ClaimedRow(db.tasks[t], worker, now, lease), {});
  }

  lemma EnqueueGrants(db: Db, n: NewTask, now: int)
    requires Enqueue(db, n, now).Ok?
    ensures var d := Enqueue(db, n, now).value.0;
      Budget(d.tasks, {}) == Budget(db.tasks, {}) + (if n.id !in db.tasks && n.id in d.tasks then Grant(n) else 0)
    ensures Enqueue(db, n, now).value.1 <==> n.id !in db.tasks && n.id in Enqueue(db, n, now).value.0.tasks
  {
    if Enqueue(db, n, now).value.1 { Replaced(db.tasks, n.id, NewRow(n, now).value, {}); }
  }

  lemma RowLowers(db: Db, t: string, row: Task)
    requires t in db.tasks && Remaining(row, false) <= Remaining(db.tasks[t], false)
    ensures Budget(db.tasks[t := row], {}) <= Budget(db.tasks, {})
  {
    Replaced(db.tasks, t, row, {});
  }

  /** An exhausted task hands its reserve to its compensation. */
  lemma ExhaustConserves(db: Db, t: string, now: int, lag: set<string>)
    requires Lagging(db, lag) && t in lag && db.tasks[t].status.Failed? && Exhaust(db, t, now).Ok?
    ensures Budget(Exhaust(db, t, now).value.tasks, lag - {t}) <= Budget(db.tasks, lag)
  {
    ExhaustTasks(db, t, now, lag);
    assert TaskOk(db.tasks[t]);
    Replaced(db.tasks, t, db.tasks[t], lag - {t});
    assert db.tasks[t := db.tasks[t]] == db.tasks;
    LagDrops(db.tasks, t, lag);
    if db.tasks[t].cleanup.Some? {
      ExhaustKeeps(db, t, now, lag);
      Replaced(db.tasks, t + CLEANUP_SUFFIX, CleanupRow(db.tasks[t].cleanup.value, now), lag - {t});
    }
  }

  lemma LagDrops(tasks: Tasks, t: string, lag: set<string>)
    requires t in lag && t in tasks && !Active(tasks[t].status)
    ensures Budget(tasks, lag - {t}) + Reserve(tasks[t].cleanup) == Budget(tasks, lag)
  {
    TotalUpdate(Shares(tasks, lag), t, 0);
    assert Shares(tasks, lag - {t}) == Shares(tasks, lag)[t := 0];
  }

  lemma FailConserves(db: Db, t: string, worker: string, now: int, retryAt: Option<int>, code: string)
    requires Inv(db) && Fail(db, t, worker, now, retryAt, code).Ok?
    ensures Budget(Fail(db, t, worker, now, retryAt, code).value.tasks, {}) <= Budget(db.tasks, {})
  {
    OpenAttempt(db, t);
    assert TaskOk(db.tasks[t]);
    var row := RetriedRow(db.tasks[t], now, Coalesce(retryAt, now), code);
    EndAttemptKeeps(db, t, row, Errored, now, code);
    if row.status.Failed? {
      var d := EndAttempt(db, t, row, Errored, now, code);
      Lowered(db.tasks, d.tasks, {}, {t});
      ExhaustConserves(d, t, now, {t});
      assert {t} - {t} == {};
    } else {
      RowLowers(db, t, row);
    }
  }

  lemma {:induction false} ExhaustAllConserves(db: Db, rows: seq<string>, now: int)
    requires Lagging(db, Uncounted(db.tasks, rows)) && (forall t | t in rows :: t in db.tasks)
    requires (forall i, j | 0 <= i < j < |rows| :: rows[i] != rows[j]) && ExhaustAll(db, rows, now).Ok?
    ensures Budget(ExhaustAll(db, rows, now).value.tasks, {}) <= Budget(db.tasks, Uncounted(db.tasks, rows))
    decreases |rows|
  {
    if rows == [] {
      assert Uncounted(db.tasks, rows) == {};
    } else {
      RowsSplit(rows);
      if !db.tasks[rows[0]].status.Failed? {
        assert Uncounted(db.tasks, rows[1..]) == Uncounted(db.tasks, rows);
        ExhaustAllConserves(db, rows[1..], now);
      } else {
        ExhaustFirst(db, rows, now);
        assert rows[0] in Uncounted(db.tasks, rows);
        ExhaustConserves(db, rows[0], now, Uncounted(db.tasks, rows));
        var d := Exhaust(db, rows[0], now).value;
        assert Uncounted(d.tasks, rows[1..]) == Uncounted(db.tasks, rows) - {rows[0]};
        ExhaustAllConserves(d, rows[1..], now);
      }
    }
  }

  lemma RecoverConserves(db: Db, rows: seq<string>, now: int)
    requires Inv(db) && Enumerates(rows, ExpiredTasks(db, now)) && Recover(db, rows, now).Ok?
    ensures Budget(Recover(db, rows, now).value.tasks, {}) <= Budget(db.tasks, {})
  {
    var d := Requeue(db, now);
    RequeueKeeps(db, rows, now);
    forall t | t in d.tasks ensures Remaining(d.tasks[t], t in Uncounted(d.tasks, rows)) <= Remaining(db.tasks[t],
      false) {
      assert TaskOk(db.tasks[t]);
    }
    Lowered(db.tasks, d.tasks, {}, Uncounted(d.tasks, rows));
    ExhaustAllConserves(d, rows, now);
  }

  lemma TerminateGrants(db: Db, o: string, row: Operation, now: int, code: string, cleanup: Option<NewTask>)
    requires Inv(db) && Cancelable(db, o) && row.status in {Canceled, Failed}
    requires SameCounters(row, db.ops[o]) && row.kind == db.ops[o].kind && (cleanup.Some? ==> cleanup.value.op.None?)
    requires Terminate(UpdateStatus(db, o, row, now), o, now, code, cleanup).Ok?
    ensures var d := Terminate(UpdateStatus(db, o, row, now), o, now, code, cleanup).value;
      && Budget(d.tasks, {}) <= Budget(db.tasks, {}) + (if cleanup.Some? then Grant(cleanup.value) else 0)
      && (cleanup.Some? ==> cleanup.value.id !in db.tasks && cleanup.value.id in d.tasks)
  {
    var closed := UpdateStatus(db, o, row, now);
    CloseOperation(db, o, row, now);
    TerminalRow(db, o, row, now);
    TerminateOutcome(closed, o, now, code, cleanup);
    var revoked := RevokeChildren(closed, o, now, code);
    Lowered(db.tasks, revoked.tasks, {}, {});
    if cleanup.Some? { EnqueueGrants(revoked, Delayed(cleanup.value, now, MaxOf(Leases(closed.tasks, o))), now); }
  }

  lemma AttachGrants(db: Db, o: string, checkpoint: string, n: NewTask, now: int)
    requires AttachAndReveal(db, o, checkpoint, n, now).Ok?
    ensures var d := AttachAndReveal(db, o, checkpoint, n, now).value;
      Budget(d.tasks, {}) == Budget(db.tasks, {}) + Grant(n) && n.id !in db.tasks && n.id in d.tasks
  {
    EnqueueGrants(SetCheckpoint(db, o, checkpoint).value, n.(op := Some(o)), now);
  }

  lemma ClearConserves(db: Db)
    requires Inv(db)
    ensures Budget(Clear(db).tasks, {}) <= Budget(db.tasks, {})
  {
    ClearedRows(db);
    Lowered(db.tasks, Clear(db).tasks, {}, {});
  }

  lemma CompletionConserves(db: Db, g: Gen, now: int)
    requires Inv(db) && CompleteByGeneration(db, g, now).Ok?
    ensures Budget(CompleteByGeneration(db, g, now).value.tasks, {}) <= Budget(db.tasks, {})
  {
    OpenAttempt(db, g.task);
    var row := EndedRow(db.tasks[g.task], Completed, now, "");
    EndStep(db, g.task, row, Succeeded, now, "", 1, 0);
    RowLowers(db, g.task, row);
  }

  lemma WorkerCompletionConserves(db: Db, t: string, worker: string, now: int)
    requires Inv(db) && CompleteByWorker(db, t, worker, now).Ok?
    ensures Budget(CompleteByWorker(db, t, worker, now).value.tasks, {}) <= Budget(db.tasks, {})
  {
    OpenAttempt(db, t);
    EndStep(db, t, EndedRow(db.tasks[t], Completed, now, ""), Succeeded, now, "", 1, 0);
    RowLowers(db, t, EndedRow(db.tasks[t], Completed, now, ""));
  }

  lemma TerminationConserves(db: Db, e: Event)
    requires Inv(db) && Terminates(e) && Attempted(db, e).Ok?
    ensures Budget(Apply(db, e).tasks, {}) + Claims(db, e) <= Budget(db.tasks, {}) + Granted(db, e)
  {
    match e
    case DoCancelTask(t, now) =>
      CancelTaskRow(db, t, now);
      RowLowers(db, t, EndedRow(db.tasks[t], Canceled, now, ""));
    case DoCancelOperation(o, now, cleanup) => TerminateGrants(db, o, CanceledRow(db.ops[o], now), now, "", cleanup);
    case DoFailOperation(o, now, code, cleanup) =>
      TerminateGrants(db, o, FailedRow(db.ops[o], now, code), now, code,
        if |Children(db.tasks, o)| > 0 then cleanup else None);
  }

  lemma RenewConserves(db: Db, t: string, worker: string, now: int, lease: int)
    requires Renew(db, t, worker, now, lease).Ok?
    ensures Budget(Renew(db, t, worker, now, lease).value.tasks, {}) <= Budget(db.tasks, {})
  {
    RowLowers(db, t, db.tasks[t].(leaseExpires := Some(now + lease)));
  }

  lemma PostponeConserves(db: Db, t: string, at: int)
    requires Postpone(db, t, at).Ok?
    ensures Budget(Postpone(db, t, at).value.tasks, {}) <= Budget(db.tasks, {})
  {
    RowLowers(db, t, db.tasks[t].(availableAt := at));
  }

  lemma TaskEventConserves(db: Db, e: Event)
    requires Inv(db) && TaskEvent(e) && !Terminates(e) && Attempted(db, e).Ok?
    ensures Budget(Apply(db, e).tasks, {}) + Claims(db, e) <= Budget(db.tasks, {}) + Granted(db, e)
  {
    match e
    case DoClaim(t, pool, worker, now, lease) => ClaimSpends(db, t, pool, worker, now, lease);
    case DoRenew(t, worker, now, lease) => RenewConserves(db, t, worker, now, lease);
    case DoPostpone(t, at) => PostponeConserves(db, t, at);
    case DoCompleteByWorker(t, worker, now) => WorkerCompletionConserves(db, t, worker, now);
    case DoCompleteByGeneration(g, now) => CompletionConserves(db, g, now);
    case DoFail(t, worker, now, retryAt, code) => FailConserves(db, t, worker, now, retryAt, code);
    case DoRecover(rows, now) => RecoverConserves(db, rows, now);
  }

  lemma CancelTaskRow(db: Db, t: string, now: int)
    requires Inv(db) && CancelTask(db, t, now).Ok?
    ensures t in db.tasks && CancelTask(db, t, now).value.tasks
      == db.tasks[t := EndedRow(db.tasks[t], Canceled, now, "")]
  {
    ActiveParent(db, t);
    var row := EndedRow(db.tasks[t], Canceled, now, "");
    var g := CurrentGen(db, t);
    RecordStep(db.ops, db.(tasks := db.tasks[t := row],
                 attempts := if row.attemptCount > 0 && g in db.attempts && db.attempts[g].outcome.InProgress?
                             then db.attempts[g := ClosedAttempt(db.attempts[g], Revoked, now, "")]
                               else db.attempts), row.op, now, 0, 0);
  }

  /** A mutation leaves the task table to the completion of its claim. */
  lemma MutateConserves(db: Db, o: string, seen: Mutation, targets: set<string>, byQuery: bool, claim: Option<Gen>,
      now: int)
    requires Inv(db) && Mutate(db, o, seen, targets, byQuery, claim, now).Ok?
    ensures Budget(Mutate(db, o, seen, targets, byQuery, claim, now).value.tasks, {}) <= Budget(db.tasks, {})
  {
    MutateStep(db, o, seen, targets, byQuery, claim, now);
    if claim.Some? { CompletionConserves(Applied(db, o, seen, targets, byQuery), claim.value, now); }
  }

  lemma MutationEventConserves(db: Db, e: Event)
    requires Inv(db) && MutationEvent(e) && Attempted(db, e).Ok?
    ensures Budget(Apply(db, e).tasks, {}) <= Budget(db.tasks, {}) + Granted(db, e)
  {
    match e
    case DoCreateMutation(o, opKind, total, maxPending, kind, tags, targetKind, targets, checkpoint, n, now) =>
      CreateMutationShape(db, o, opKind, total, maxPending, kind, tags, targetKind, targets, checkpoint, n, now);
      AttachGrants(Reserved(db, o, opKind, total, Mutation(kind, tags, targetKind, targets, |targets|, None)), o,
        checkpoint, n, now);
    case DoExecuteQuery(o, seen, claim, now) =>
      MutateConserves(db, o, seen.value, if o in db.mutations then db.mutations[o].targets else {}, true, claim, now);
    case DoExecuteFiles(o, seen, hashes, registered, claim, now) =>
      MutateConserves(db.(contents := db.contents + registered), o, seen.value, (set h | h in hashes), false, claim,
        now);
  }

  lemma AttachEventConserves(db: Db, e: Event)
    requires Inv(db) && (e.DoEnqueue? || e.DoAttachAndReveal? || e.DoAttachChild?) && Attempted(db, e).Ok?
    ensures Budget(Apply(db, e).tasks, {}) <= Budget(db.tasks, {}) + Granted(db, e)
  {
    match e
    case DoEnqueue(n, now) => EnqueueGrants(db, n, now);
    case DoAttachAndReveal(o, checkpoint, n, now) => AttachGrants(db, o, checkpoint, n, now);
    case DoAttachChild(o, checkpoint, n, now) => if n.id !in db.tasks { EnqueueGrants(db, n.(op := Some(o)), now); }
  }

  lemma OtherEventConserves(db: Db, e: Event)
    requires Inv(db) && !TaskEvent(e) && !MutationEvent(e) && Attempted(db, e).Ok?
    ensures Budget(Apply(db, e).tasks, {}) <= Budget(db.tasks, {}) + Granted(db, e)
  {
    if e.DoEnqueue? || e.DoAttachAndReveal? || e.DoAttachChild? {
      AttachEventConserves(db, e);
    } else if e.DoClear? {
      ClearConserves(db);
    } else if e.DoCancelUnattached? {
      InterruptAllStep(db.ops, db, e.rows, e.now);
    }
  }

  /** One claim costs exactly one unit; nothing but inserting a task raises the budget, and by no more than the attempts
      it grants. */
  lemma BudgetStep(db: Db, e: Event)
    requires Inv(db)
    ensures Budget(Apply(db, e).tasks, {}) + Claims(db, e) <= Budget(db.tasks, {}) + Granted(db, e)
    ensures Claims(db, e) > 0 ==> Budget(Apply(db, e).tasks, {}) + 1 == Budget(db.tasks, {})
  {
    if Attempted(db, e).Ok? {
      if Terminates(e) { TerminationConserves(db, e); }
      else if TaskEvent(e) { TaskEventConserves(db, e); }
      else if MutationEvent(e) { MutationEventConserves(db, e); }
      else { OtherEventConserves(db, e); }
      if e.DoClaim? { ClaimSpends(db, e.task, e.pool, e.worker, e.now, e.lease); }
    }
  }

  ghost function ClaimsIn(run: seq<Event>): nat
    decreases |run|
  {
    if run == [] then 0 else ClaimsIn(run[..|run| - 1]) + Claims(After(run[..|run| - 1]), run[|run| - 1])
  }

  ghost function GrantedIn(run: seq<Event>): nat
    decreases |run|
  {
    if run == [] then 0 else GrantedIn(run[..|run| - 1]) + Granted(After(run[..|run| - 1]), run[|run| - 1])
  }

  /** In every run, claims so far plus claims still possible never exceed the attempts granted to the tasks
      that were enqueued and to their compensation descriptors. */
  lemma {:induction false} ClaimsAreBounded(run: seq<Event>)
    ensures ClaimsIn(run) + Budget(After(run).tasks, {}) <= GrantedIn(run)
    decreases |run|
  {
    if run == [] {
      assert Shares(EMPTY.tasks, {}) == map[];
    } else {
      var before := run[..|run| - 1];
      ClaimsAreBounded(before);
      ReachableInv(before);
      BudgetStep(After(before), run[|run| - 1]);
    }
  }
}
