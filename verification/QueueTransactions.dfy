/** Every transaction keeps the global invariant, and under it the defensive errors cannot occur. */
module QueueTransactions {
  import opened Basics
  import opened QueueModel
  import opened QueueSpec
  import opened QueueInvariant

  // ---------------------------------------------------------------- operation rows

  /** Replacing one operation row without touching its counters. */
  lemma OpRowKeeps(db: Db, o: string, row: Operation)
    requires Inv(db) && o in db.ops && SameCounters(row, db.ops[o]) && row.kind == db.ops[o].kind
    requires row.status == db.ops[o].status
    ensures Inv(db.(ops := db.ops[o := row]))
  {
    var ops := db.ops[o := row];
    StatusKeepsCounts(db.tasks, db.ops, ops, {});
    StatusKeepsLinks(db.ops, ops, db.links);
    CountingKeepsParents(db, o, row);
    CountingKeepsCompleted(db, o, row, {});
  }

  /** A child that just started makes its parent running. */
  lemma StartedKeeps(db: Db, o: string, now: int)
    requires o in db.ops && ParentsOk(db.tasks, db.ops, {o}) && CountsOk(db.tasks, db.ops, {})
    requires CompletedOk(db.tasks, db.ops, db.links, {}) && LinksOk(db.ops, db.links)
    ensures var ops := db.ops[o := StartedRow(db.ops[o], now)];
      ParentsOk(db.tasks, ops, {}) && CountsOk(db.tasks, ops, {}) && CompletedOk(db.tasks, ops, db.links, {})
        && LinksOk(ops, db.links)
  {
    var ops := db.ops[o := StartedRow(db.ops[o], now)];
    StatusKeepsCounts(db.tasks, db.ops, ops, {});
    StatusKeepsLinks(db.ops, ops, db.links);
    forall t | t in db.tasks ensures ParentOk(db.tasks[t], ops, {}) { assert ParentOk(db.tasks[t], db.ops, {o}); }
    forall p | p in ops ensures DoneOk(db.tasks, ops, db.links, {}, p) {
      assert DoneOk(db.tasks, db.ops, db.links, {}, p);
    }
  }

  // ---------------------------------------------------------------- claim and renewal

  lemma ClaimKeeps(db: Db, t: string, pool: string, worker: string, now: int, lease: int)
    requires Inv(db)
    ensures var r := Claim(db, t, pool, worker, now, lease);
      if r.Ok? then Inv(r.value) else r.error in {Invalid, NothingToDo}
  {
    if pool != "" && worker != "" && lease > 0 && IsNext(db, pool, now, t) {
      var row := ClaimedRow(db.tasks[t], worker, now, lease);
      var begun := Attempt(worker, now, None, InProgress, "");
      assert TaskOk(db.tasks[t]) && ParentOk(db.tasks[t], db.ops, {});
      OpenKeeps(db.tasks, db.attempts, t, row, begun);
      RowKeepsRows(db.tasks, t, row);
      RowKeepsParents(db.tasks, db.ops, t, row);
      RowKeepsOps(db.tasks, db.ops, db.links, t, row);
      if row.op.Some? {
        StartedKeeps(db.(tasks := db.tasks[t := row], attempts := db.attempts[Gen(t, row.attemptCount) := begun]),
          row.op.value, now);
      }
    }
  }

  lemma RenewKeeps(db: Db, t: string, worker: string, now: int, lease: int)
    requires Inv(db)
    ensures var r := Renew(db, t, worker, now, lease);
      if r.Ok? then Inv(r.value) else r.error in {Invalid, LeaseLost}
  {
    if t != "" && worker != "" && lease > 0 && Holds(db, t, worker, now) {
      var row := db.tasks[t].(leaseExpires := Some(now + lease));
      assert TaskOk(db.tasks[t]);
      IdleKeeps(db.tasks, db.attempts, t, row);
      RowKeeps(db, t, row, db.attempts);
    }
  }

  lemma PostponeKeeps(db: Db, t: string, at: int)
    requires Inv(db)
    ensures var r := Postpone(db, t, at); if r.Ok? then Inv(r.value) else r.error in {Invalid, NothingToDo}
  {
    if Postpone(db, t, at).Ok? {
      var row := db.tasks[t].(availableAt := at);
      assert TaskOk(db.tasks[t]);
      IdleKeeps(db.tasks, db.attempts, t, row);
      RowKeeps(db, t, row, db.attempts);
    }
  }

  // ---------------------------------------------------------------- the end of one attempt

  /** The tables after a running task and its attempt ended, before the parent is told. */
  function EndAttempt(db: Db, t: string, row: Task, outcome: Outcome, now: int, code: string): Db
    requires t in db.tasks && CurrentAttemptOpen(db, t)
  {
    var g := CurrentGen(db, t);
    db.(tasks := db.tasks[t := row], attempts := db.attempts[g := ClosedAttempt(db.attempts[g], outcome, now, code)])
  }

  lemma EndAttemptKeeps(db: Db, t: string, row: Task, outcome: Outcome, now: int, code: string)
    requires Inv(db) && t in db.tasks && db.tasks[t].status.Running? && CurrentAttemptOpen(db, t)
    requires Evolves(db.tasks[t], row) && !row.status.Running? && row.attemptCount == db.tasks[t].attemptCount
    requires !outcome.InProgress?
    ensures Lagging(EndAttempt(db, t, row, outcome, now, code), Ended(t, row))
  {
    assert TaskOk(db.tasks[t]);
    var g := CurrentGen(db, t);
    var closed := ClosedAttempt(db.attempts[g], outcome, now, code);
    CloseKeeps(db.tasks, db.attempts, t, row, closed);
    RowKeeps(db, t, row, db.attempts[g := closed]);
  }

  lemma CompleteByWorkerKeeps(db: Db, t: string, worker: string, now: int)
    requires Inv(db)
    ensures var r := CompleteByWorker(db, t, worker, now);
      if r.Ok? then Inv(r.value) else r.error in {Invalid, LeaseLost}
  {
    if t != "" && worker != "" && Holds(db, t, worker, now) {
      OpenAttempt(db, t);
      assert TaskOk(db.tasks[t]);
      var row := EndedRow(db.tasks[t], Completed, now, "");
      EndAttemptKeeps(db, t, row, Succeeded, now, "");
      RecordKeeps(EndAttempt(db, t, row, Succeeded, now, ""), t, now, {t});
      assert {t} - {t} == {};
    }
  }

  lemma CompleteByGenerationKeeps(db: Db, g: Gen, now: int)
    requires Inv(db)
    ensures var r := CompleteByGeneration(db, g, now);
      if r.Ok? then Inv(r.value) else r.error in {Invalid, LeaseLost}
  {
    if g.task != "" && g.number >= 1 && HoldsGen(db, g, now) {
      OpenAttempt(db, g.task);
      assert TaskOk(db.tasks[g.task]);
      var row := EndedRow(db.tasks[g.task], Completed, now, "");
      EndAttemptKeeps(db, g.task, row, Succeeded, now, "");
      RecordKeeps(EndAttempt(db, g.task, row, Succeeded, now, ""), g.task, now, {g.task});
      assert {g.task} - {g.task} == {};
    }
  }

  // ---------------------------------------------------------------- new tasks

  /** A row as `NewRow` builds it. */
  predicate Fresh(row: Task) {
    TaskOk(row) && row.status.Pending? && row.attemptCount == 0
  }

  lemma NewRowIsFresh(n: NewTask, now: int)
    requires NewRow(n, now).Ok?
    ensures Fresh(NewRow(n, now).value) && n.id != "" && NewRow(n, now).value.op == n.op
  {
  }

  lemma InsertKeepsRows(tasks: Tasks, attempts: map<Gen, Attempt>, id: string, row: Task)
    requires TasksOk(tasks) && DedupeOk(tasks) && AttemptsOk(tasks, attempts)
    requires id != "" && id !in tasks && Fresh(row) && !ActiveDedupe(tasks, row.work.dedupe)
    ensures TasksOk(tasks[id := row]) && DedupeOk(tasks[id := row]) && AttemptsOk(tasks[id := row], attempts)
  {
    var tasks' := tasks[id := row];
    forall t | t in tasks' ensures t != "" && TaskOk(tasks'[t]) && NumberedOk(attempts, t, tasks'[t].attemptCount) {
      if t in tasks { assert TaskOk(tasks[t]) && NumberedOk(attempts, t, tasks[t].attemptCount); }
    }
    forall g | g in attempts ensures AttemptOk(tasks', attempts, g) { assert AttemptOk(tasks, attempts, g); }
  }

  lemma InsertKeepsSets(tasks: Tasks, lag: set<string>, id: string, row: Task, o: string)
    requires id !in tasks && row.status.Pending?
    ensures Counted(tasks[id := row], lag, o, Completed) == Counted(tasks, lag, o, Completed)
    ensures Counted(tasks[id := row], lag, o, Failed) == Counted(tasks, lag, o, Failed)
    ensures Children(tasks[id := row], o) == Children(tasks, o) + (if row.op == Some(o) then {id} else {})
  {
  }

  lemma InsertKeepsParents(tasks: Tasks, ops: Ops, ops': Ops, id: string, row: Task)
    requires ParentsOk(tasks, ops, {}) && id !in tasks && row.status.Pending? && ops'.Keys == ops.Keys
    requires row.op.Some? ==> row.op.value in ops' && Active(ops'[row.op.value].status)
    requires forall o | o in ops ::
      ops'[o].status == ops[o].status || (!Active(ops[o].status) && Active(ops'[o].status))
    ensures ParentsOk(tasks[id := row], ops', {})
  {
    var tasks' := tasks[id := row];
    forall t | t in tasks' ensures ParentOk(tasks'[t], ops', {}) {
      if t != id { assert ParentOk(tasks[t], ops, {}); }
    }
  }

  lemma InsertCounts(tasks: Tasks, row: Operation, lag: set<string>, id: string, task: Task, o: string)
    requires id !in tasks && task.status.Pending? && task.op != Some(o) && CountOk(tasks, row, lag, o)
    ensures CountOk(tasks[id := task], row, lag, o)
  {
    InsertKeepsSets(tasks, lag, id, task, o);
  }

  lemma InsertDone(tasks: Tasks, ops: Ops, ops': Ops, links: map<Link, string>, id: string, task: Task,
      lag: set<string>, o: string)
    requires id !in tasks && task.status.Pending? && task.op != Some(o) && o in ops && o in ops' && ops'[o] == ops[o]
    requires ProducerActive(ops', links, o) ==> ProducerActive(ops, links, o) || lag == {}
    requires DoneOk(tasks, ops, links, lag, o)
    ensures DoneOk(tasks[id := task], ops', links, lag, o)
  {
    InsertKeepsSets(tasks, lag, id, task, o);
    var tasks' := tasks[id := task];
    forall t | t in tasks' && tasks'[t].op == Some(o) ensures t in tasks && tasks'[t] == tasks[t] { }
  }

  lemma InsertDetachedOps(tasks: Tasks, ops: Ops, links: map<Link, string>, id: string, row: Task, lag: set<string>)
    requires CountsOk(tasks, ops, lag) && CompletedOk(tasks, ops, links, lag)
    requires id !in tasks && row.status.Pending? && row.op.None?
    ensures CountsOk(tasks[id := row], ops, lag) && CompletedOk(tasks[id := row], ops, links, lag)
  {
    forall o | o in ops ensures CountOk(tasks[id := row], ops[o], lag, o)
      && DoneOk(tasks[id := row], ops, links, lag, o) {
      assert CountOk(tasks, ops[o], lag, o) && DoneOk(tasks, ops, links, lag, o);
      InsertCounts(tasks, ops[o], lag, id, row, o);
      InsertDone(tasks, ops, ops, links, id, row, lag, o);
    }
  }

  lemma InsertDetachedKeeps(db: Db, id: string, row: Task, lag: set<string>)
    requires Lagging(db, lag) && id != "" && id !in db.tasks && Fresh(row) && row.op.None?
    requires !ActiveDedupe(db.tasks, row.work.dedupe)
    ensures Lagging(InsertTask(db, id, row), lag)
  {
    InsertKeepsRows(db.tasks, db.attempts, id, row);
    InsertKeepsParents(db.tasks, db.ops, db.ops, id, row);
    InsertDetachedOps(db.tasks, db.ops, db.links, id, row, lag);
  }

  lemma OneMoreChild(tasks: Tasks, id: string, task: Task, o: string)
    requires id !in tasks && task.op == Some(o)
    ensures |Children(tasks[id := task], o)| == |Children(tasks, o)| + 1
  {
    assert Children(tasks[id := task], o) == Children(tasks, o) + {id};
  }

  lemma SameCounted(tasks: Tasks, id: string, task: Task, o: string, s: Status)
    requires id !in tasks && task.status.Pending? && s != Pending
    ensures |Counted(tasks[id := task], {}, o, s)| == |Counted(tasks, {}, o, s)|
  {
    assert Counted(tasks[id := task], {}, o, s) == Counted(tasks, {}, o, s);
  }

  lemma InsertBelow(tasks: Tasks, row: Operation, id: string, task: Task, o: string)
    requires id !in tasks && task.status.Pending? && task.op == Some(o) && CountOk(tasks, row, {}, o)
    ensures CountOk(tasks[id := task], Reopened(row), {}, o)
  {
    OneMoreChild(tasks, id, task, o);
    SameCounted(tasks, id, task, o, Completed);
    SameCounted(tasks, id, task, o, Failed);
    ReopenedCounts(row);
  }

  lemma ReopenedCounts(row: Operation)
    ensures Reopened(row).completed == row.completed && Reopened(row).failed == row.failed
    ensures Reopened(row).attached == row.attached + 1
    ensures Reopened(row).total == if 0 < row.total < row.attached + 1 then row.attached + 1 else row.total
  {
  }

  lemma InsertChildOps(tasks: Tasks, ops: Ops, links: map<Link, string>, id: string, row: Task, o: string)
    requires CountsOk(tasks, ops, {}) && CompletedOk(tasks, ops, links, {})
    requires id !in tasks && row.status.Pending? && row.op == Some(o) && o in ops
    ensures var ops' := ops[o := Reopened(ops[o])];
      CountsOk(tasks[id := row], ops', {}) && CompletedOk(tasks[id := row], ops', links, {})
  {
    var ops' := ops[o := Reopened(ops[o])];
    forall p | p in ops' ensures CountOk(tasks[id := row], ops'[p], {}, p)
      && DoneOk(tasks[id := row], ops', links, {}, p) {
      assert CountOk(tasks, ops[p], {}, p) && DoneOk(tasks, ops, links, {}, p);
      if p == o { InsertBelow(tasks, ops[o], id, row, o); }
      else {
        InsertCounts(tasks, ops[p], {}, id, row, p);
        InsertDone(tasks, ops, ops', links, id, row, {}, p);
      }
    }
  }

  lemma InsertChildKeeps(db: Db, id: string, row: Task, o: string)
    requires Inv(db) && id != "" && id !in db.tasks && Fresh(row) && row.op == Some(o)
    requires o in db.ops && !db.ops[o].status.Canceled? && !ActiveDedupe(db.tasks, row.work.dedupe)
    ensures Inv(InsertTask(db, id, row))
  {
    var ops := db.ops[o := Reopened(db.ops[o])];
    InsertKeepsRows(db.tasks, db.attempts, id, row);
    StatusKeepsLinks(db.ops, ops, db.links);
    InsertKeepsParents(db.tasks, db.ops, ops, id, row);
    InsertChildOps(db.tasks, db.ops, db.links, id, row, o);
  }

  /** Enqueueing under a lag is only done for detached work. */
  lemma EnqueueKeeps(db: Db, n: NewTask, now: int, lag: set<string>)
    requires Lagging(db, lag) && (lag == {} || n.op.None?)
    ensures var r := Enqueue(db, n, now);
      if r.Ok? then Lagging(r.value.0, lag) && (!r.value.1 ==> r.value.0 == db)
      else r.error in {Invalid, ParentCanceled, DuplicateId, MissingRow}
    ensures EnqueueOnce(db, n, now).Ok? ==> Lagging(EnqueueOnce(db, n, now).value, lag)
  {
    var r := Enqueue(db, n, now);
    if r.Ok? && r.value.1 {
      NewRowIsFresh(n, now);
      var row := NewRow(n, now).value;
      if n.op.None? { InsertDetachedKeeps(db, n.id, row, lag); } else { InsertChildKeeps(db, n.id, row, n.op.value); }
    }
  }

  // ---------------------------------------------------------------- failure and recovery

  /** An exhausted task: counted, then compensated. The only obstacles are the cleanup's own keys. */
  lemma ExhaustKeeps(db: Db, t: string, now: int, lag: set<string>)
    requires Lagging(db, lag) && t in lag && db.tasks[t].status.Failed?
    ensures var r := Exhaust(db, t, now);
      && (if r.Ok? then Lagging(r.value, lag - {t}) && r.value.tasks.Keys >= db.tasks.Keys
                        && (forall u | u in db.tasks :: r.value.tasks[u] == db.tasks[u])
          else r.error in {DuplicateId, DedupeActive})
      && (r.Ok? <==> db.tasks[t].cleanup.Some? ==>
            t + CLEANUP_SUFFIX !in db.tasks && !ActiveDedupe(db.tasks, db.tasks[t].cleanup.value.dedupe))
  {
    RecordKeeps(db, t, now, lag);
    var counted := RecordTerminal(db, db.tasks[t].op, now, 0, 1).value;
    assert TaskOk(db.tasks[t]);
    if db.tasks[t].cleanup.Some? {
      var w := db.tasks[t].cleanup.value;
      EnqueueKeeps(counted, NewTask(t + CLEANUP_SUFFIX, None, w, None, Some(now), Some(now)), now, lag - {t});
      assert NormalizeWork(w).Ok? && NormalizeWork(w).value.dedupe == w.dedupe;
    }
  }

  lemma FailKeeps(db: Db, t: string, worker: string, now: int, retryAt: Option<int>, code: string)
    requires Inv(db)
    ensures var r := Fail(db, t, worker, now, retryAt, code);
      if r.Ok? then Inv(r.value) else r.error in {Invalid, LeaseLost, DuplicateId, DedupeActive}
  {
    if t != "" && worker != "" && Holds(db, t, worker, now) {
      OpenAttempt(db, t);
      assert TaskOk(db.tasks[t]);
      var row := RetriedRow(db.tasks[t], now, Coalesce(retryAt, now), code);
      EndAttemptKeeps(db, t, row, Errored, now, code);
      if row.status.Failed? {
        ExhaustKeeps(EndAttempt(db, t, row, Errored, now, code), t, now, {t});
        assert {t} - {t} == {};
      }
    }
  }

  /** The exhausted tasks of the rows still to be processed. */
  function Uncounted(tasks: Tasks, rows: seq<string>): set<string> {
    set t | t in rows && t in tasks && tasks[t].status.Failed?
  }

  lemma {:induction false} ExhaustAllKeeps(db: Db, rows: seq<string>, now: int)
    requires Lagging(db, Uncounted(db.tasks, rows))
    requires forall i, j | 0 <= i < j < |rows| :: rows[i] != rows[j]
    requires forall t | t in rows :: t in db.tasks
    ensures var r := ExhaustAll(db, rows, now);
      if r.Ok? then Inv(r.value) else r.error in {DuplicateId, DedupeActive}
    decreases |rows|
  {
    if rows == [] {
      assert Uncounted(db.tasks, rows) == {};
    } else {
      var t := rows[0];
      assert t in rows;
      forall u ensures u in rows <==> u == t || u in rows[1..] {
        if u in rows[1..] { var i :| 0 <= i < |rows[1..]| && rows[1..][i] == u; assert rows[i + 1] == u; }
      }
      assert t !in rows[1..];
      if !db.tasks[t].status.Failed? {
        assert Uncounted(db.tasks, rows[1..]) == Uncounted(db.tasks, rows);
        ExhaustAllKeeps(db, rows[1..], now);
      } else {
        ExhaustKeeps(db, t, now, Uncounted(db.tasks, rows));
        var r := Exhaust(db, t, now);
        if r.Ok? {
          assert Uncounted(r.value.tasks, rows[1..]) == Uncounted(db.tasks, rows) - {t};
          ExhaustAllKeeps(r.value, rows[1..], now);
        }
      }
    }
  }

  lemma RequeueKeepsRows(db: Db, now: int)
    requires TasksOk(db.tasks) && DedupeOk(db.tasks) && AttemptsOk(db.tasks, db.attempts)
    ensures var d := Requeue(db, now); TasksOk(d.tasks) && DedupeOk(d.tasks) && AttemptsOk(d.tasks, d.attempts)
  {
    RequeueKeepsTasks(db, now);
    RequeueKeepsAttempts(db, now);
  }

  lemma RequeueKeepsTasks(db: Db, now: int)
    requires TasksOk(db.tasks) && DedupeOk(db.tasks)
    ensures TasksOk(Requeue(db, now).tasks) && DedupeOk(Requeue(db, now).tasks)
  {
    var tasks := Requeue(db, now).tasks;
    forall t | t in tasks ensures t != "" && TaskOk(tasks[t]) { assert TaskOk(db.tasks[t]); }
  }

  lemma RequeueKeepsAttempts(db: Db, now: int)
    requires TasksOk(db.tasks) && AttemptsOk(db.tasks, db.attempts)
    ensures AttemptsOk(Requeue(db, now).tasks, Requeue(db, now).attempts)
  {
    var d := Requeue(db, now);
    forall t | t in d.tasks ensures NumberedOk(d.attempts, t, d.tasks[t].attemptCount) {
      assert NumberedOk(db.attempts, t, db.tasks[t].attemptCount);
    }
    forall g | g in d.attempts ensures AttemptOk(d.tasks, d.attempts, g) {
      assert AttemptOk(db.tasks, db.attempts, g) && TaskOk(db.tasks[g.task]);
    }
  }

  lemma RequeueKeepsOps(db: Db, rows: seq<string>, now: int)
    requires CountsOk(db.tasks, db.ops, {}) && CompletedOk(db.tasks, db.ops, db.links, {})
    requires TasksOk(db.tasks) && Enumerates(rows, ExpiredTasks(db, now))
    ensures var tasks := Requeue(db, now).tasks; var lag := Uncounted(tasks, rows);
      CountsOk(tasks, db.ops, lag) && CompletedOk(tasks, db.ops, db.links, lag)
  {
    var tasks := Requeue(db, now).tasks;
    var lag := Uncounted(tasks, rows);
    forall o | o in db.ops ensures CountOk(tasks, db.ops[o], lag, o) && DoneOk(tasks, db.ops, db.links, lag, o) {
      assert CountOk(db.tasks, db.ops[o], {}, o) && DoneOk(db.tasks, db.ops, db.links, {}, o);
      RequeueKeepsSets(db, rows, now, o);
    }
  }

  lemma RequeueKeepsParents(db: Db, now: int)
    requires ParentsOk(db.tasks, db.ops, {})
    ensures ParentsOk(Requeue(db, now).tasks, db.ops, {})
  {
    var tasks := Requeue(db, now).tasks;
    forall t | t in tasks ensures ParentOk(tasks[t], db.ops, {}) { assert ParentOk(db.tasks[t], db.ops, {}); }
  }

  /** The bulk statement of lease recovery leaves exactly the exhausted tasks uncounted. */
  lemma RequeueKeeps(db: Db, rows: seq<string>, now: int)
    requires Inv(db) && Enumerates(rows, ExpiredTasks(db, now))
    ensures Lagging(Requeue(db, now), Uncounted(Requeue(db, now).tasks, rows))
  {
    RequeueKeepsRows(db, now);
    RequeueKeepsParents(db, now);
    RequeueKeepsOps(db, rows, now);
  }

  lemma RequeueKeepsSets(db: Db, rows: seq<string>, now: int, o: string)
    requires TasksOk(db.tasks) && Enumerates(rows, ExpiredTasks(db, now))
    ensures var d := Requeue(db, now); var lag := Uncounted(d.tasks, rows);
      && Children(d.tasks, o) == Children(db.tasks, o)
      && Counted(d.tasks, lag, o, Completed) == Counted(db.tasks, {}, o, Completed)
      && Counted(d.tasks, lag, o, Failed) == Counted(db.tasks, {}, o, Failed)
      && (AllChildrenCompleted(db.tasks, o) ==> Children(db.tasks, o) !! lag && AllChildrenCompleted(d.tasks, o))
  {
  }

  lemma RecoverKeeps(db: Db, rows: seq<string>, now: int)
    requires Inv(db) && Enumerates(rows, ExpiredTasks(db, now))
    ensures var r := Recover(db, rows, now);
      if r.Ok? then Inv(r.value) else r.error in {DuplicateId, DedupeActive}
  {
    forall t | t in ExpiredTasks(db, now) ensures CurrentAttemptOpen(db, t) { OpenAttempt(db, t); }
    RequeueKeeps(db, rows, now);
    ExhaustAllKeeps(Requeue(db, now), rows, now);
  }

  // ---------------------------------------------------------------- cancellation and producer failure

  lemma CancelTaskKeeps(db: Db, t: string, now: int)
    requires Inv(db)
    ensures var r := CancelTask(db, t, now);
      if r.Ok? then Inv(r.value) else r.error in {Invalid, NothingToDo}
  {
    if t != "" && t in db.tasks && Active(db.tasks[t].status) {
      assert TaskOk(db.tasks[t]);
      var row := EndedRow(db.tasks[t], Canceled, now, "");
      if db.tasks[t].status.Running? {
        OpenAttempt(db, t);
        EndAttemptKeeps(db, t, row, Revoked, now, "");
        RecordKeeps(EndAttempt(db, t, row, Revoked, now, ""), t, now, {t});
      } else {
        assert CurrentGen(db, t) in db.attempts ==> AttemptOk(db.tasks, db.attempts, CurrentGen(db, t));
        IdleKeeps(db.tasks, db.attempts, t, row);
        RowKeeps(db, t, row, db.attempts);
        RecordKeeps(db.(tasks := db.tasks[t := row]), t, now, {t});
      }
      assert {t} - {t} == {};
    }
  }

  lemma RevokeKeepsRows(db: Db, o: string, now: int, code: string)
    requires TasksOk(db.tasks) && DedupeOk(db.tasks) && AttemptsOk(db.tasks, db.attempts)
    ensures var d := RevokeChildren(db, o, now, code);
      && TasksOk(d.tasks) && DedupeOk(d.tasks)
      && AttemptsOk(d.tasks, d.attempts)
  {
    var d := RevokeChildren(db, o, now, code);
    forall t | t in d.tasks ensures t != "" && TaskOk(d.tasks[t])
      && NumberedOk(d.attempts, t, d.tasks[t].attemptCount) {
      assert TaskOk(db.tasks[t]) && NumberedOk(db.attempts, t, db.tasks[t].attemptCount);
    }
    forall g | g in d.attempts ensures AttemptOk(d.tasks, d.attempts, g) { assert AttemptOk(db.tasks, db.attempts, g); }
  }

  lemma RevokeKeepsParents(db: Db, o: string, now: int, code: string)
    requires ParentsOk(db.tasks, db.ops, {o})
    ensures ParentsOk(RevokeChildren(db, o, now, code).tasks, db.ops, {})
  {
    var tasks := RevokeChildren(db, o, now, code).tasks;
    forall t | t in tasks ensures ParentOk(tasks[t], db.ops, {}) { assert ParentOk(db.tasks[t], db.ops, {o}); }
  }

  lemma RevokeKeepsSizes(db: Db, o: string, now: int, code: string, p: string)
    ensures var tasks := RevokeChildren(db, o, now, code).tasks;
      && |Children(tasks, p)| == |Children(db.tasks, p)|
      && |Counted(tasks, {}, p, Completed)| == |Counted(db.tasks, {}, p, Completed)|
      && |Counted(tasks, {}, p, Failed)| == |Counted(db.tasks, {}, p, Failed)|
  {
    var tasks := RevokeChildren(db, o, now, code).tasks;
    assert Children(tasks, p) == Children(db.tasks, p);
    assert Counted(tasks, {}, p, Completed) == Counted(db.tasks, {}, p, Completed);
    assert Counted(tasks, {}, p, Failed) == Counted(db.tasks, {}, p, Failed);
  }

  lemma RevokeKeepsCounts(db: Db, o: string, now: int, code: string)
    requires CountsOk(db.tasks, db.ops, {})
    ensures CountsOk(RevokeChildren(db, o, now, code).tasks, db.ops, {})
  {
    var tasks := RevokeChildren(db, o, now, code).tasks;
    forall p | p in db.ops ensures CountOk(tasks, db.ops[p], {}, p) {
      assert CountOk(db.tasks, db.ops[p], {}, p);
      RevokeKeepsSizes(db, o, now, code, p);
    }
  }

  lemma RevokeKeepsCompleted(db: Db, o: string, now: int, code: string)
    requires CompletedOk(db.tasks, db.ops, db.links, {}) && o in db.ops && !db.ops[o].status.Completed?
    ensures CompletedOk(RevokeChildren(db, o, now, code).tasks, db.ops, db.links, {})
  {
    var tasks := RevokeChildren(db, o, now, code).tasks;
    forall p | p in db.ops ensures DoneOk(tasks, db.ops, db.links, {}, p) {
      assert DoneOk(db.tasks, db.ops, db.links, {}, p);
    }
  }

  /** Under the invariant the recount of an operation's children changes nothing. */
  lemma RefreshIsNoop(db: Db, o: string)
    requires o in db.ops && CountsOk(db.tasks, db.ops, {})
    ensures RefreshCounts(db, o) == db
  {
    assert CountOk(db.tasks, db.ops[o], {}, o);
    assert Counted(db.tasks, {}, o, Completed) == InState(db.tasks, o, Completed);
    assert Counted(db.tasks, {}, o, Failed) == InState(db.tasks, o, Failed);
    assert db.ops[o := db.ops[o]] == db.ops;
  }

  lemma RunningHaveLeases(tasks: Tasks, o: string)
    requires TasksOk(tasks)
    ensures InState(tasks, o, Running) != {} ==> MaxOf(Leases(tasks, o)).Some?
    ensures forall t | t in InState(tasks, o, Running) ::
      tasks[t].leaseExpires.Some? && tasks[t].leaseExpires.value <= MaxOf(Leases(tasks, o)).value
  {
    forall t | t in InState(tasks, o, Running)
      ensures tasks[t].leaseExpires.Some? && tasks[t].leaseExpires.value in Leases(tasks, o) {
      assert TaskOk(tasks[t]);
    }
  }

  /** Everything the invariant says, while the children of the terminal operation `o` are still active. */
  ghost predicate Closing(db: Db, o: string) {
    && TasksOk(db.tasks) && AttemptsOk(db.tasks, db.attempts) && DedupeOk(db.tasks)
    && ParentsOk(db.tasks, db.ops, {o}) && CountsOk(db.tasks, db.ops, {}) && CompletedOk(db.tasks, db.ops, db.links, {})
    && LinksOk(db.ops, db.links) && MutationsOk(db.ops, db.mutations)
    && o in db.ops && db.ops[o].status in {Canceled, Failed}
  }

  lemma CloseOperation(db: Db, o: string, row: Operation, now: int)
    requires Inv(db) && Cancelable(db, o) && row.status in {Canceled, Failed}
    requires SameCounters(row, db.ops[o]) && row.kind == db.ops[o].kind
    ensures Closing(UpdateStatus(db, o, row, now), o)
  {
    var ops := db.ops[o := row];
    forall t | t in db.tasks ensures ParentOk(db.tasks[t], ops, {o}) { assert ParentOk(db.tasks[t], db.ops, {}); }
    forall p | p in ops ensures DoneOk(db.tasks, ops, db.links, {}, p) {
      assert DoneOk(db.tasks, db.ops, db.links, {}, p);
    }
    TerminalKeeps(db, o, row, now, {}, {o});
  }

  /** Revoking the children restores the invariant; only the compensation's own keys can stand in the way. */
  lemma TerminateKeeps(db: Db, o: string, now: int, code: string, cleanup: Option<NewTask>)
    requires Closing(db, o) && (cleanup.Some? ==> cleanup.value.op.None?)
    ensures var r := Terminate(db, o, now, code, cleanup);
      && (if r.Ok? then Inv(r.value) else cleanup.Some? && r.error in {Invalid, DuplicateId, DedupeActive})
    ensures Inv(RevokeChildren(db, o, now, code))
    ensures RefreshCounts(RevokeChildren(db, o, now, code), o) == RevokeChildren(db, o, now, code)
  {
    RunningHaveLeases(db.tasks, o);
    RevokeKeepsRows(db, o, now, code);
    RevokeKeepsParents(db, o, now, code);
    RevokeKeepsCounts(db, o, now, code);
    RevokeKeepsCompleted(db, o, now, code);
    var revoked := RevokeChildren(db, o, now, code);
    RefreshIsNoop(revoked, o);
    if cleanup.Some? { EnqueueKeeps(revoked, Delayed(cleanup.value, now, MaxOf(Leases(db.tasks, o))), now, {}); }
  }

  lemma CancelOperationKeeps(db: Db, o: string, now: int, cleanup: Option<NewTask>)
    requires Inv(db)
    ensures var r := CancelOperation(db, o, now, cleanup);
      if r.Ok? then Inv(r.value)
      else r.error in {Invalid, NothingToDo} || (cleanup.Some? && r.error in {DuplicateId, DedupeActive})
  {
    if CancelOperation(db, o, now, cleanup) != Err(Invalid) && Cancelable(db, o) {
      CloseOperation(db, o, CanceledRow(db.ops[o], now), now);
      TerminateKeeps(UpdateStatus(db, o, CanceledRow(db.ops[o], now), now), o, now, "", cleanup);
    }
  }

  lemma FailOperationKeeps(db: Db, o: string, now: int, code: string, cleanup: Option<NewTask>)
    requires Inv(db)
    ensures var r := FailOperation(db, o, now, code, cleanup);
      if r.Ok? then Inv(r.value)
      else r.error in {Invalid, NothingToDo} || (cleanup.Some? && r.error in {DuplicateId, DedupeActive})
  {
    if FailOperation(db, o, now, code, cleanup) != Err(Invalid) && Cancelable(db, o) {
      CloseOperation(db, o, FailedRow(db.ops[o], now, code), now);
      TerminateKeeps(UpdateStatus(db, o, FailedRow(db.ops[o], now, code), now), o, now, code,
                     if |Children(db.tasks, o)| > 0 then cleanup else None);
    }
  }

  // ---------------------------------------------------------------- history clearing

  /** Clearing removes whole operations: every child goes with its parent and no other row is touched. */
  lemma ClearedRows(db: Db)
    requires Inv(db)
    ensures var d := Clear(db);
      && d.tasks == db.tasks - ClearedTasks(db) && d.ops == db.ops - ClearedOps(db)
      && (forall t | t in db.tasks && db.tasks[t].op.Some? :: t in d.tasks <==> db.tasks[t].op.value in d.ops)
      && (forall t | t in db.tasks && Active(db.tasks[t].status) :: t in d.tasks)
  {
    forall t | t in db.tasks ensures ParentOk(db.tasks[t], db.ops, {}) { }
  }

  lemma ClearKeepsAttempts(db: Db)
    requires Inv(db)
    ensures TasksOk(Clear(db).tasks) && DedupeOk(Clear(db).tasks) && AttemptsOk(Clear(db).tasks, Clear(db).attempts)
  {
    ClearedRows(db);
    var d := Clear(db);
    forall t | t in d.tasks ensures t != "" && TaskOk(d.tasks[t])
      && NumberedOk(d.attempts, t, d.tasks[t].attemptCount) {
      assert TaskOk(db.tasks[t]) && NumberedOk(db.attempts, t, db.tasks[t].attemptCount);
    }
    forall g | g in d.attempts ensures AttemptOk(d.tasks, d.attempts, g) { assert AttemptOk(db.tasks, db.attempts, g); }
  }

  lemma ClearKeepsSizes(db: Db, o: string)
    requires o !in ClearedOps(db)
    ensures var tasks := db.tasks - ClearedTasks(db);
      && |Children(tasks, o)| == |Children(db.tasks, o)|
      && |Counted(tasks, {}, o, Completed)| == |Counted(db.tasks, {}, o, Completed)|
      && |Counted(tasks, {}, o, Failed)| == |Counted(db.tasks, {}, o, Failed)|
  {
    var tasks := db.tasks - ClearedTasks(db);
    assert Children(tasks, o) == Children(db.tasks, o);
    assert Counted(tasks, {}, o, Completed) == Counted(db.tasks, {}, o, Completed);
    assert Counted(tasks, {}, o, Failed) == Counted(db.tasks, {}, o, Failed);
  }

  lemma ClearKeeps(db: Db)
    requires Inv(db)
    ensures Inv(Clear(db))
  {
    ClearedRows(db);
    ClearKeepsAttempts(db);
    var d := Clear(db);
    forall t | t in d.tasks ensures ParentOk(d.tasks[t], d.ops, {}) { assert ParentOk(db.tasks[t], db.ops, {}); }
    forall o | o in d.ops ensures CountOk(d.tasks, d.ops[o], {}, o) {
      assert CountOk(db.tasks, db.ops[o], {}, o);
      ClearKeepsSizes(db, o);
    }
    forall o | o in d.ops ensures DoneOk(d.tasks, d.ops, d.links, {}, o) {
      assert DoneOk(db.tasks, db.ops, db.links, {}, o);
    }
    forall l | l in d.links ensures LinkOk(d.ops, d.links, l) { assert LinkOk(db.ops, db.links, l); }
  }

  // ---------------------------------------------------------------- operations and their children

  lemma CreateKeeps(db: Db, o: string, kind: string, visible: bool, total: int)
    requires Inv(db)
    ensures var r := CreateOperation(db, o, kind, visible, total);
      if r.Ok? then Inv(r.value) else r.error in {Invalid, DuplicateId}
  {
    var r := CreateOperation(db, o, kind, visible, total);
    if r.Ok? {
      CreatedParents(db, o, r.value.ops[o]);
      CreatedCounts(db, o, r.value.ops[o]);
      forall l | l in db.links ensures LinkOk(r.value.ops, db.links, l) { assert LinkOk(db.ops, db.links, l); }
    }
  }

  lemma CreatedParents(db: Db, o: string, row: Operation)
    requires Inv(db) && o !in db.ops
    ensures ParentsOk(db.tasks, db.ops[o := row], {}) && Children(db.tasks, o) == {}
  {
    forall t | t in db.tasks ensures ParentOk(db.tasks[t], db.ops[o := row], {}) && db.tasks[t].op != Some(o) {
      assert ParentOk(db.tasks[t], db.ops, {});
    }
  }

  lemma CreatedCounts(db: Db, o: string, row: Operation)
    requires Inv(db) && o !in db.ops && Children(db.tasks, o) == {} && row.status.Pending?
    requires row.completed == row.failed == row.attached == 0
    ensures CountsOk(db.tasks, db.ops[o := row], {}) && CompletedOk(db.tasks, db.ops[o := row], db.links, {})
  {
    var ops := db.ops[o := row];
    forall p | p in ops ensures CountOk(db.tasks, ops[p], {}, p) && DoneOk(db.tasks, ops, db.links, {}, p) {
      if p != o { assert CountOk(db.tasks, db.ops[p], {}, p) && DoneOk(db.tasks, db.ops, db.links, {}, p); }
      else { NoChildren(db.tasks, o); }
    }
  }

  lemma NoChildren(tasks: Tasks, o: string)
    requires Children(tasks, o) == {}
    ensures Counted(tasks, {}, o, Completed) == {} && Counted(tasks, {}, o, Failed) == {}
  {
    forall t | t in tasks ensures tasks[t].op != Some(o) { assert t !in Children(tasks, o); }
  }

  lemma AttachAndRevealKeeps(db: Db, o: string, checkpoint: string, n: NewTask, now: int)
    requires Inv(db)
    ensures var r := AttachAndReveal(db, o, checkpoint, n, now);
      if r.Ok? then Inv(r.value) && r.value.links == db.links && r.value.mutations == db.mutations
      else r.error in {Invalid, NotAccepting, DuplicateId, DedupeActive}
  {
    var saved := SetCheckpoint(db, o, checkpoint);
    if saved.Ok? {
      OpRowKeeps(db, o, db.ops[o].(checkpoint := checkpoint));
      EnqueueKeeps(saved.value, n.(op := Some(o)), now, {});
      var attached := EnqueueOnce(saved.value, n.(op := Some(o)), now);
      if attached.Ok? { OpRowKeeps(attached.value, o, attached.value.ops[o].(visible := true)); }
    }
  }

  lemma AttachChildKeeps(db: Db, o: string, checkpoint: string, n: NewTask, now: int)
    requires Inv(db)
    ensures var r := AttachChild(db, o, checkpoint, n, now);
      if r.Ok? then Inv(r.value.0) && (!r.value.1 ==> r.value.0 == db)
      else r.error in {Invalid, MissingRow, DuplicateId, NotAccepting, DedupeActive}
  {
    EnqueueKeeps(db, n.(op := Some(o)), now, {});
  }

  lemma AssociateKeeps(db: Db, producer: string, auxKind: string, aux: string)
    requires Inv(db)
    ensures var r := Associate(db, producer, auxKind, aux);
      if r.Ok? then Inv(r.value) else r.error in {Invalid, NotAccepting, DuplicateId}
  {
    var r := Associate(db, producer, auxKind, aux);
    if r.Ok? {
      var links := r.value.links;
      forall l | l in links ensures LinkOk(db.ops, links, l) {
        if l in db.links { assert LinkOk(db.ops, db.links, l); }
      }
      forall o | o in db.ops ensures DoneOk(db.tasks, db.ops, links, {}, o) {
        assert DoneOk(db.tasks, db.ops, db.links, {}, o);
      }
    }
  }

  lemma InterruptKeeps(db: Db, o: string, now: int)
    requires Inv(db) && o in db.ops && Children(db.tasks, o) == {}
    ensures var d := UpdateStatus(db, o, InterruptedRow(db.ops[o], now), now);
      Inv(d) && d.tasks == db.tasks && d.ops.Keys == db.ops.Keys
  {
    var ops := db.ops[o := InterruptedRow(db.ops[o], now)];
    forall t | t in db.tasks ensures ParentOk(db.tasks[t], ops, {}) {
      assert ParentOk(db.tasks[t], db.ops, {}) && t !in Children(db.tasks, o);
    }
    forall p | p in ops ensures DoneOk(db.tasks, ops, db.links, {}, p) {
      assert DoneOk(db.tasks, db.ops, db.links, {}, p);
    }
    TerminalKeeps(db, o, InterruptedRow(db.ops[o], now), now, {}, {});
  }

  lemma {:induction false} InterruptAllKeeps(db: Db, rows: seq<string>, now: int)
    requires Inv(db) && forall o | o in rows :: o in db.ops && Children(db.tasks, o) == {}
    ensures Inv(InterruptAll(db, rows, now))
    decreases |rows|
  {
    if rows != [] {
      assert rows[0] in rows;
      InterruptKeeps(db, rows[0], now);
      InterruptAllKeeps(UpdateStatus(db, rows[0], InterruptedRow(db.ops[rows[0]], now), now), rows[1..], now);
    }
  }

  lemma CancelUnattachedKeeps(db: Db, kind: string, hiddenOnly: bool, rows: seq<string>, now: int)
    requires Inv(db) && Enumerates(rows, Unattached(db, kind, hiddenOnly))
    ensures var r := CancelUnattached(db, kind, hiddenOnly, rows, now);
      if r.Ok? then Inv(r.value) else r.error == Invalid
  {
    InterruptAllKeeps(db, rows, now);
  }

  // ---------------------------------------------------------------- small row updates and tag mutations

  lemma SetCheckpointKeeps(db: Db, o: string, checkpoint: string)
    requires Inv(db) && SetCheckpoint(db, o, checkpoint).Ok?
    ensures Inv(SetCheckpoint(db, o, checkpoint).value)
  {
    OpRowKeeps(db, o, db.ops[o].(checkpoint := checkpoint));
  }

  lemma SetResultKeeps(db: Db, o: string, result: string)
    requires Inv(db) && SetResult(db, o, result).Ok?
    ensures Inv(SetResult(db, o, result).value)
  {
    OpRowKeeps(db, o, db.ops[o].(result := result));
  }

  lemma SetVisibleKeeps(db: Db, o: string, visible: bool)
    requires Inv(db) && SetVisible(db, o, visible).Ok?
    ensures Inv(SetVisible(db, o, visible).value)
  {
    OpRowKeeps(db, o, db.ops[o].(visible := visible));
  }

  lemma ClaimProducerKeeps(db: Db, o: string)
    requires Inv(db) && ClaimProducer(db, o).Ok?
    ensures Inv(ClaimProducer(db, o).value)
  {
    OpRowKeeps(db, o, db.ops[o].(producerClaimed := true));
  }

  lemma SnapshotKeeps(db: Db, o: string, kind: MutationKind, tags: set<string>, targetKind: TargetKind,
      targets: set<string>)
    requires Inv(db)
    ensures var r := Snapshot(db, o, kind, tags, targetKind, targets);
      if r.Ok? then Inv(r.value) else r.error in {Invalid, NotAccepting, DuplicateId}
  {
  }

  lemma CreateMutationKeeps(db: Db, o: string, opKind: string, total: int, maxPending: int, kind: MutationKind,
                            tags: set<string>, targetKind: TargetKind, targets: set<string>, checkpoint: string,
                            n: NewTask, now: int)
    requires Inv(db)
    ensures var r := CreateMutation(db, o, opKind, total, maxPending, kind, tags, targetKind, targets, checkpoint, n,
      now);
      if r.Ok? then Inv(r.value) else r.error in {Invalid, NothingToDo, DuplicateId, NotAccepting, DedupeActive}
  {
    CreateKeeps(db, o, opKind, false, total);
    var admitted := AdmitOperation(db, o, opKind, false, total, maxPending);
    if admitted.Ok? {
      SnapshotKeeps(admitted.value, o, kind, tags, targetKind, targets);
      var frozen := Snapshot(admitted.value, o, kind, tags, targetKind, targets);
      if frozen.Ok? { AttachAndRevealKeeps(frozen.value, o, checkpoint, n, now); }
    }
  }

  lemma OnlyQueueTablesMatter(db: Db, d: Db)
    requires Inv(db) && d.tasks == db.tasks && d.attempts == db.attempts && d.ops == db.ops && d.links == db.links
    requires MutationsOk(d.ops, d.mutations)
    ensures Inv(d)
  {
  }

  lemma MarkedKeeps(db: Db, applied: Db, o: string)
    requires Inv(db) && o in db.mutations && o in applied.mutations && applied.mutations[o].affected.Some?
    requires applied == db.(contentTags := applied.contentTags, mutations := applied.mutations)
    requires MutationsOk(db.ops, applied.mutations)
    ensures Inv(applied)
    ensures var r := SetResult(applied, o, MUTATION_RESULT);
      if r.Ok? then Inv(r.value) else r.error in {NotAccepting, Invalid}
  {
    OnlyQueueTablesMatter(db, applied);
    if SetResult(applied, o, MUTATION_RESULT).Ok? { SetResultKeeps(applied, o, MUTATION_RESULT); }
  }

  /** The tag changes with their count. */
  function TagsApplied(db: Db, o: string, seen: Mutation, targets: set<string>, byQuery: bool): Db
    requires o in db.mutations
  {
    var count := AffectedCount(db.contentTags, seen, targets, byQuery);
    db.(contentTags := Retagged(db.contentTags, seen, targets),
        mutations := db.mutations[o := db.mutations[o].(affected := Some(count))])
  }

  lemma MutatesInSteps(db: Db, o: string, seen: Mutation, targets: set<string>, byQuery: bool, claim: Option<Gen>,
      now: int)
    ensures var r := Mutate(db, o, seen, targets, byQuery, claim, now);
      r == Err(MissingRow) || r == Err(AlreadyFinal) || (o in db.mutations &&
        var marked := SetResult(TagsApplied(db, o, seen, targets, byQuery), o, MUTATION_RESULT);
        r == if marked.Ok? && claim.Some? then CompleteByGeneration(marked.value, claim.value, now) else marked)
  {
  }

  lemma MutateKeeps(db: Db, o: string, seen: Mutation, targets: set<string>, byQuery: bool, claim: Option<Gen>,
      now: int)
    requires Inv(db)
    ensures var r := Mutate(db, o, seen, targets, byQuery, claim, now);
      if r.Ok? then Inv(r.value) else r.error in {MissingRow, AlreadyFinal, NotAccepting, Invalid, LeaseLost}
  {
    MutatesInSteps(db, o, seen, targets, byQuery, claim, now);
    if o in db.mutations {
      var applied := TagsApplied(db, o, seen, targets, byQuery);
      MarkedKeeps(db, applied, o);
      var marked := SetResult(applied, o, MUTATION_RESULT);
      if marked.Ok? && claim.Some? { CompleteByGenerationKeeps(marked.value, claim.value, now); }
    }
  }
}
