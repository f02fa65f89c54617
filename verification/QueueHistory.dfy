/** What one transaction may do to the rows that exist before and after it: outcomes are written once,
    attempt counters only grow by claims, terminal tasks and canceled operations are final. */
module QueueHistory {
  import opened Basics
  import opened QueueModel
  import opened QueueSpec
  import opened QueueInvariant
  import opened QueueTransactions
  import opened QueueRuns

  /** An attempt keeps its worker and start; its outcome is written once. */
  predicate AttemptStep(a: Attempt, b: Attempt) {
    b.worker == a.worker && b.startedAt == a.startedAt && (a.outcome.InProgress? || b == a)
  }

  predicate TaskStep(a: Task, b: Task) {
    && b.work == a.work && b.cleanup == a.cleanup && b.createdAt == a.createdAt
    && a.attemptCount <= b.attemptCount
    && (!Active(a.status) ==> b == a)
    && (b.attemptCount == 0 ==> b.availableAt >= a.availableAt)
    && (a.status.Pending? && b.attemptCount == a.attemptCount ==> !b.status.Running? && b.availableAt >= a.availableAt)
  }

  /** A canceled operation never changes again, except for being hidden or shown. */
  predicate OpStep(a: Operation, b: Operation) {
    (a.status.Canceled? ==> b == a.(visible := b.visible)) && (Stamped(a) ==> Stamped(b))
  }

  /** An operation has an end exactly when it is over, a beginning when it runs, and an error only when it failed or was
      interrupted. */
  predicate Stamped(row: Operation) {
    && (row.finishedAt.Some? <==> !Active(row.status))
    && (row.status.Running? ==> row.startedAt.Some?)
    && (row.errorCode != "" ==> row.status.Failed? || row.status.Canceled?)
  }

  /** A mutation's description and target set are frozen, and its result is written once. */
  predicate MutationStep(a: Mutation, b: Mutation) {
    b == a || (a.affected.None? && b.affected.Some? && b == a.(affected := b.affected))
  }

  ghost predicate AttemptsStep(a: map<Gen, Attempt>, b: map<Gen, Attempt>) {
    forall g {:trigger b[g]} | g in a && g in b :: AttemptStep(a[g], b[g])
  }

  ghost predicate TasksStep(a: Tasks, b: Tasks) {
    forall t {:trigger b[t]} | t in a && t in b :: TaskStep(a[t], b[t])
  }

  ghost predicate OpsStep(a: Ops, b: Ops) {
    forall o {:trigger b[o]} | o in a && o in b :: OpStep(a[o], b[o])
  }

  ghost predicate MutationsStep(a: map<string, Mutation>, b: map<string, Mutation>) {
    forall o {:trigger b[o]} | o in a && o in b :: MutationStep(a[o], b[o])
  }

  /** A new attempt is the next one of a task that was due when the attempt started. */
  predicate AttemptBegins(tasks: Tasks, g: Gen, begun: Attempt) {
    && g.task in tasks && tasks[g.task].status.Pending? && g.number == tasks[g.task].attemptCount + 1
    && tasks[g.task].availableAt <= begun.startedAt
  }

  ghost predicate AttemptsBegin(tasks: Tasks, a: map<Gen, Attempt>, b: map<Gen, Attempt>) {
    forall g {:trigger b[g]} | g in b && g !in a :: AttemptBegins(tasks, g, b[g])
  }

  ghost predicate OpsBegin(a: Ops, b: Ops) {
    forall o {:trigger b[o]} | o in b && o !in a :: Stamped(b[o])
  }

  ghost predicate Step(db: Db, d: Db) {
    && TasksStep(db.tasks, d.tasks) && AttemptsStep(db.attempts, d.attempts)
      && AttemptsBegin(db.tasks, db.attempts, d.attempts)
    && OpsStep(db.ops, d.ops) && OpsBegin(db.ops, d.ops) && MutationsStep(db.mutations, d.mutations)
  }

  lemma StepsCompose(a: Db, b: Db, c: Db)
    requires Step(a, b) && Step(b, c)
    requires a.tasks.Keys <= b.tasks.Keys && a.attempts.Keys <= b.attempts.Keys && a.ops.Keys <= b.ops.Keys
    requires a.mutations.Keys <= b.mutations.Keys && c.attempts.Keys <= b.attempts.Keys
    ensures Step(a, c)
  {
    forall t | t in a.tasks && t in c.tasks ensures TaskStep(a.tasks[t], c.tasks[t]) {
      assert TaskStep(a.tasks[t], b.tasks[t]) && TaskStep(b.tasks[t], c.tasks[t]);
    }
    forall g | g in a.attempts && g in c.attempts ensures AttemptStep(a.attempts[g], c.attempts[g]) {
      assert AttemptStep(a.attempts[g], b.attempts[g]) && AttemptStep(b.attempts[g], c.attempts[g]);
    }
    forall g | g in c.attempts && g !in a.attempts ensures AttemptBegins(a.tasks, g, c.attempts[g]) {
      assert AttemptBegins(a.tasks, g, b.attempts[g]) && AttemptStep(b.attempts[g], c.attempts[g]);
    }
    forall o | o in a.ops && o in c.ops ensures OpStep(a.ops[o], c.ops[o]) {
      assert OpStep(a.ops[o], b.ops[o]) && OpStep(b.ops[o], c.ops[o]);
    }
    forall o | o in c.ops && o !in a.ops ensures Stamped(c.ops[o]) {
      if o in b.ops { assert Stamped(b.ops[o]) && OpStep(b.ops[o], c.ops[o]); }
    }
    forall o | o in a.mutations && o in c.mutations ensures MutationStep(a.mutations[o], c.mutations[o]) {
      assert MutationStep(a.mutations[o], b.mutations[o]) && MutationStep(b.mutations[o], c.mutations[o]);
    }
  }

  lemma StepsThenRows(db: Db, d: Db, e: Db)
    requires Step(db, d) && TasksStep(d.tasks, e.tasks) && db.tasks.Keys <= d.tasks.Keys
    requires e == d.(tasks := e.tasks, ops := e.ops) && FromBase(db.ops, e.ops)
    ensures Step(db, e)
  {
    forall t | t in db.tasks && t in e.tasks ensures TaskStep(db.tasks[t], e.tasks[t]) {
      assert TaskStep(db.tasks[t], d.tasks[t]) && TaskStep(d.tasks[t], e.tasks[t]);
    }
  }

  // ---------------------------------------------------------------- bookkeeping never touches a canceled operation

  predicate OpenParent(db: Db, op: Option<string>) {
    op.Some? ==> op.value in db.ops && !db.ops[op.value].status.Canceled?
  }

  /** Rows that were canceled in `base` are still as they were. */
  ghost predicate FromBase(base: Ops, ops: Ops) { ops.Keys == base.Keys && OpsStep(base, ops) }

  lemma UpdateStatusStep(base: Ops, db: Db, o: string, row: Operation, at: int)
    requires FromBase(base, db.ops) && o in db.ops && !base[o].status.Canceled?
    requires Stamped(base[o]) ==> Stamped(row)
    ensures var d := UpdateStatus(db, o, row, at); FromBase(base, d.ops) && d == db.(ops := d.ops)
  {
    var d := UpdateStatus(db, o, row, at);
    StatusRows(db, o, row, at);
    forall p | p in base ensures OpStep(base[p], d.ops[p]) { assert OpStep(base[p], db.ops[p]); }
  }

  /** What a status statement leaves of the other rows. */
  lemma StatusRows(db: Db, o: string, row: Operation, at: int)
    requires o in db.ops
    ensures var d := UpdateStatus(db, o, row, at);
      && d == db.(ops := d.ops) && d.ops.Keys == db.ops.Keys
      && (d.ops[o] == row || (Active(row.status) && Stamped(d.ops[o])))
      && forall p | p in db.ops && p != o ::
           d.ops[p] == db.ops[p] || (Active(db.ops[p].status) && Stamped(d.ops[p]))
  {
  }

  lemma FinishStep(base: Ops, db: Db, o: string, now: int)
    requires FromBase(base, db.ops) && o in base && !base[o].status.Canceled?
    ensures var d := FinishIfDrained(db, o, now); FromBase(base, d.ops) && d == db.(ops := d.ops)
  {
    if Finishes(db, o) { UpdateStatusStep(base, db, o, FinishedRow(db, o, now), now); }
  }

  lemma CountedStays(base: Ops, ops: Ops, o: string, row: Operation)
    requires FromBase(base, ops) && o in base && !base[o].status.Canceled? && (Stamped(base[o]) ==> Stamped(row))
    ensures FromBase(base, ops[o := row])
  {
    forall p | p in base ensures OpStep(base[p], ops[o := row][p]) { assert OpStep(base[p], ops[p]); }
  }

  lemma AdvanceStep(base: Ops, db: Db, o: string, row: Operation, now: int)
    requires FromBase(base, db.ops) && o in base && !base[o].status.Canceled? && (Stamped(base[o]) ==> Stamped(row))
    ensures var d := FinishIfDrained(db.(ops := db.ops[o := row]), o, now);
      && FromBase(base, d.ops)
      && d == db.(ops := d.ops)
  {
    CountedStays(base, db.ops, o, row);
    FinishStep(base, db.(ops := db.ops[o := row]), o, now);
  }

  lemma RecordStep(base: Ops, db: Db, op: Option<string>, now: int, completedDelta: nat, failedDelta: nat)
    requires FromBase(base, db.ops) && (op.Some? ==> op.value in base && !base[op.value].status.Canceled?)
    ensures RecordTerminal(db, op, now, completedDelta, failedDelta).Ok?
    ensures var d := RecordTerminal(db, op, now, completedDelta, failedDelta).value;
      FromBase(base, d.ops) && d == db.(ops := d.ops)
  {
    if op.Some? {
      RecordIsAdvance(db, op.value, now, completedDelta, failedDelta);
      AdvanceStep(base, db, op.value, Advanced(db.ops[op.value], completedDelta, failedDelta), now);
    }
  }

  function Advanced(row: Operation, completedDelta: nat, failedDelta: nat): Operation {
    row.(completed := row.completed + completedDelta, failed := row.failed + failedDelta)
  }

  lemma RecordIsAdvance(db: Db, o: string, now: int, completedDelta: nat, failedDelta: nat)
    requires o in db.ops
    ensures RecordTerminal(db, Some(o), now, completedDelta, failedDelta)
      == Ok(FinishIfDrained(db.(ops := db.ops[o := Advanced(db.ops[o], completedDelta, failedDelta)]), o, now))
  {
  }

  lemma EnqueueStep(db: Db, n: NewTask, now: int)
    requires Enqueue(db, n, now).Ok?
    ensures var d := Enqueue(db, n, now).value.0;
      && Step(db, d) && d == db.(tasks := d.tasks, ops := d.ops)
      && db.tasks.Keys <= d.tasks.Keys && d.ops.Keys == db.ops.Keys
  {
    if Enqueue(db, n, now).value.1 { InsertStep(db, n.id, NewRow(n, now).value); }
  }

  lemma InsertStep(db: Db, id: string, row: Task)
    requires id !in db.tasks && (row.op.Some? ==> row.op.value in db.ops && !db.ops[row.op.value].status.Canceled?)
    ensures var d := InsertTask(db, id, row);
      && Step(db, d) && d == db.(tasks := d.tasks, ops := d.ops)
      && db.tasks.Keys <= d.tasks.Keys && d.ops.Keys == db.ops.Keys
  {
  }

  // ---------------------------------------------------------------- the steps of single transactions

  lemma ActiveParent(db: Db, t: string)
    requires Inv(db) && t in db.tasks && Active(db.tasks[t].status)
    ensures OpenParent(db, db.tasks[t].op)
  {
    assert ParentOk(db.tasks[t], db.ops, {});
  }

  lemma ClaimStep(db: Db, t: string, pool: string, worker: string, now: int, lease: int)
    requires Inv(db) && Claim(db, t, pool, worker, now, lease).Ok?
    ensures Step(db, Claim(db, t, pool, worker, now, lease).value)
  {
    ActiveParent(db, t);
  }

  /** The end of an attempt: the task row, its attempt and its parent. */
  lemma EndStep(db: Db, t: string, row: Task, outcome: Outcome, now: int, code: string, a: nat, b: nat)
    requires Inv(db) && CurrentAttemptOpen(db, t) && db.tasks[t].status.Running? && TaskStep(db.tasks[t], row)
      && row.op == db.tasks[t].op
    ensures var d := EndAttempt(db, t, row, outcome, now, code);
      && Step(db, d) && RecordTerminal(d, row.op, now, a, b).Ok?
      && var e := RecordTerminal(d, row.op, now, a, b).value;
         Step(db, e) && e == d.(ops := e.ops) && e.ops.Keys == db.ops.Keys
  {
    ActiveParent(db, t);
    RecordStep(db.ops, EndAttempt(db, t, row, outcome, now, code), row.op, now, a, b);
  }

  lemma CompleteByWorkerStep(db: Db, t: string, worker: string, now: int)
    requires Inv(db) && CompleteByWorker(db, t, worker, now).Ok?
    ensures Step(db, CompleteByWorker(db, t, worker, now).value)
  {
    OpenAttempt(db, t);
    EndStep(db, t, EndedRow(db.tasks[t], Completed, now, ""), Succeeded, now, "", 1, 0);
  }

  lemma CompleteByGenerationStep(db: Db, g: Gen, now: int)
    requires Inv(db) && CompleteByGeneration(db, g, now).Ok?
    ensures Step(db, CompleteByGeneration(db, g, now).value)
    ensures CompleteByGeneration(db, g, now).value.mutations == db.mutations
    ensures CompleteByGeneration(db, g, now).value.contentTags == db.contentTags
  {
    OpenAttempt(db, g.task);
    EndStep(db, g.task, EndedRow(db.tasks[g.task], Completed, now, ""), Succeeded, now, "", 1, 0);
  }

  lemma ExhaustStep(base: Ops, db: Db, t: string, now: int)
    requires FromBase(base, db.ops) && t in db.tasks && Exhaust(db, t, now).Ok?
    requires db.tasks[t].op.Some? ==> db.tasks[t].op.value in base && !base[db.tasks[t].op.value].status.Canceled?
    ensures var d := Exhaust(db, t, now).value;
      && FromBase(base, d.ops) && d == db.(tasks := d.tasks, ops := d.ops)
      && db.tasks.Keys <= d.tasks.Keys && (forall u | u in db.tasks :: d.tasks[u] == db.tasks[u])
  {
    RecordStep(base, db, db.tasks[t].op, now, 0, 1);
  }

  lemma FailStep(db: Db, t: string, worker: string, now: int, retryAt: Option<int>, code: string)
    requires Inv(db) && Fail(db, t, worker, now, retryAt, code).Ok?
    ensures Step(db, Fail(db, t, worker, now, retryAt, code).value)
  {
    OpenAttempt(db, t);
    assert TaskOk(db.tasks[t]);
    var row := RetriedRow(db.tasks[t], now, Coalesce(retryAt, now), code);
    EndStep(db, t, row, Errored, now, code, 0, 0);
    if row.status.Failed? {
      var d := EndAttempt(db, t, row, Errored, now, code);
      ActiveParent(db, t);
      ExhaustStep(db.ops, d, t, now);
      StepsThenRows(db, d, Exhaust(d, t, now).value);
    }
  }

  /** The canceled operations of `ops`: what a whole recovery must not touch. */
  ghost predicate ParentsOpen(tasks: Tasks, rows: seq<string>, base: Ops) {
    forall t | t in rows && t in tasks && tasks[t].op.Some? && tasks[t].op.value in base ::
      !base[tasks[t].op.value].status.Canceled?
  }

  lemma {:induction false} ExhaustAllStep(base: Ops, db: Db, rows: seq<string>, now: int)
    requires FromBase(base, db.ops) && ParentsOpen(db.tasks, rows, base) && ExhaustAll(db, rows, now).Ok?
    requires forall t | t in rows :: t in db.tasks && (db.tasks[t].op.Some? ==> db.tasks[t].op.value in base)
    ensures var d := ExhaustAll(db, rows, now).value;
      && TasksStep(db.tasks, d.tasks) && db.tasks.Keys <= d.tasks.Keys
      && FromBase(base, d.ops) && d == db.(tasks := d.tasks, ops := d.ops)
    decreases |rows|
  {
    if rows != [] {
      var t := rows[0];
      assert t in rows;
      if !db.tasks[t].status.Failed? {
        ExhaustAllStep(base, db, rows[1..], now);
      } else {
        var d := Exhaust(db, t, now).value;
        ExhaustStep(base, db, t, now);
        forall u | u in rows[1..] ensures u in db.tasks && d.tasks[u] == db.tasks[u] { assert u in rows; }
        ExhaustAllStep(base, d, rows[1..], now);
      }
    }
  }

  lemma RequeueStep(db: Db, now: int)
    requires Inv(db)
    ensures Step(db, Requeue(db, now))
  {
    var d := Requeue(db, now);
    forall t | t in db.tasks ensures TaskStep(db.tasks[t], d.tasks[t]) { assert TaskOk(db.tasks[t]); }
  }

  lemma RecoverStep(db: Db, rows: seq<string>, now: int)
    requires Inv(db) && Enumerates(rows, ExpiredTasks(db, now)) && Recover(db, rows, now).Ok?
    ensures Step(db, Recover(db, rows, now).value)
  {
    var d := Requeue(db, now);
    RequeueStep(db, now);
    forall t | t in rows ensures t in d.tasks && OpenParent(db, d.tasks[t].op) { ActiveParent(db, t); }
    ExhaustAllStep(db.ops, d, rows, now);
    StepsThenRows(db, d, ExhaustAll(d, rows, now).value);
  }

  lemma CancelTaskStep(db: Db, t: string, now: int)
    requires Inv(db) && CancelTask(db, t, now).Ok?
    ensures Step(db, CancelTask(db, t, now).value)
  {
    ActiveParent(db, t);
    var row := EndedRow(db.tasks[t], Canceled, now, "");
    var g := CurrentGen(db, t);
    var d := db.(tasks := db.tasks[t := row],
                 attempts := if row.attemptCount > 0 && g in db.attempts && db.attempts[g].outcome.InProgress?
                             then db.attempts[g := ClosedAttempt(db.attempts[g], Revoked, now, "")] else db.attempts);
    assert Step(db, d);
    RecordStep(db.ops, d, row.op, now, 0, 0);
  }

  lemma RevokeStep(db: Db, o: string, now: int, code: string)
    ensures Step(db, RevokeChildren(db, o, now, code))
  {
    var d := RevokeChildren(db, o, now, code);
    forall t | t in db.tasks ensures TaskStep(db.tasks[t], d.tasks[t]) { }
    forall g | g in db.attempts ensures AttemptStep(db.attempts[g], d.attempts[g]) { }
  }

  lemma ClosedStep(db: Db, o: string, row: Operation, now: int, code: string)
    requires o in db.ops && Active(db.ops[o].status) && Stamped(row)
    ensures var d := RevokeChildren(UpdateStatus(db, o, row, now), o, now, code);
      Step(db, d) && d.ops.Keys == db.ops.Keys && d.tasks.Keys == db.tasks.Keys && d.attempts.Keys == db.attempts.Keys
      && d.mutations == db.mutations
  {
    var closed := UpdateStatus(db, o, row, now);
    UpdateStatusStep(db.ops, db, o, row, now);
    assert Step(db, closed);
    RevokeStep(closed, o, now, code);
    StepsCompose(db, closed, RevokeChildren(closed, o, now, code));
  }

  lemma CleanupStep(db: Db, revoked: Db, cleanup: NewTask, now: int)
    requires Step(db, revoked) && revoked.ops.Keys == db.ops.Keys && revoked.tasks.Keys == db.tasks.Keys
    requires revoked.attempts.Keys == db.attempts.Keys && revoked.mutations == db.mutations
    requires EnqueueOnce(revoked, cleanup, now).Ok?
    ensures Step(db, EnqueueOnce(revoked, cleanup, now).value)
  {
    EnqueueStep(revoked, cleanup, now);
    StepsCompose(db, revoked, EnqueueOnce(revoked, cleanup, now).value);
  }

  lemma TerminateStep(db: Db, o: string, row: Operation, now: int, code: string, cleanup: Option<NewTask>)
    requires Inv(db) && Cancelable(db, o) && row.status in {Canceled, Failed} && Stamped(row)
    requires SameCounters(row, db.ops[o]) && row.kind == db.ops[o].kind && (cleanup.Some? ==> cleanup.value.op.None?)
    requires Terminate(UpdateStatus(db, o, row, now), o, now, code, cleanup).Ok?
    ensures Step(db, Terminate(UpdateStatus(db, o, row, now), o, now, code, cleanup).value)
  {
    var closed := UpdateStatus(db, o, row, now);
    CloseOperation(db, o, row, now);
    TerminateKeeps(closed, o, now, code, cleanup);
    ClosedStep(db, o, row, now, code);
    if cleanup.Some? {
      CleanupStep(db, RevokeChildren(closed, o, now, code),
        Delayed(cleanup.value, now, MaxOf(Leases(closed.tasks, o))), now);
    }
  }

  lemma ClearStep(db: Db)
    requires Inv(db)
    ensures Step(db, Clear(db))
  {
    ClearedRows(db);
    forall t | t in db.tasks && t in Clear(db).tasks ensures TaskStep(db.tasks[t], Clear(db).tasks[t]) { }
  }

  lemma AttachStep(db: Db, o: string, checkpoint: string, n: NewTask, now: int)
    requires AttachAndReveal(db, o, checkpoint, n, now).Ok?
    ensures var d := AttachAndReveal(db, o, checkpoint, n, now).value;
      && Step(db, d) && d.mutations == db.mutations && d.attempts == db.attempts
      && db.tasks.Keys <= d.tasks.Keys && d.ops.Keys == db.ops.Keys && d.contentTags == db.contentTags
  {
    var saved := SetCheckpoint(db, o, checkpoint).value;
    EnqueueStep(saved, n.(op := Some(o)), now);
    StepsCompose(db, saved, Enqueue(saved, n.(op := Some(o)), now).value.0);
  }

  lemma {:induction false} InterruptAllStep(base: Ops, db: Db, rows: seq<string>, now: int)
    requires FromBase(base, db.ops) && forall o | o in rows :: o in base && !base[o].status.Canceled?
    ensures var d := InterruptAll(db, rows, now); FromBase(base, d.ops) && d == db.(ops := d.ops)
    decreases |rows|
  {
    if rows != [] {
      var o := rows[0];
      assert o in rows;
      var d := UpdateStatus(db, o, InterruptedRow(db.ops[o], now), now);
      UpdateStatusStep(base, db, o, InterruptedRow(db.ops[o], now), now);
      InterruptAllStep(base, d, rows[1..], now);
    }
  }

  /** The hidden reservation with its frozen targets, before its task is attached. */
  function Reserved(db: Db, o: string, opKind: string, total: nat, m: Mutation): Db {
    db.(ops := db.ops[o := NewOperation(opKind, false, total)], mutations := db.mutations[o := m])
  }

  lemma CreateMutationShape(db: Db, o: string, opKind: string, total: int, maxPending: int, kind: MutationKind,
                            tags: set<string>, targetKind: TargetKind, targets: set<string>, checkpoint: string,
                            n: NewTask, now: int)
    requires CreateMutation(db, o, opKind, total, maxPending, kind, tags, targetKind, targets, checkpoint, n, now).Ok?
    ensures total >= 0 && o !in db.ops && o !in db.mutations
    ensures CreateMutation(db, o, opKind, total, maxPending, kind, tags, targetKind, targets, checkpoint, n, now)
      == AttachAndReveal(Reserved(db, o, opKind, total, Mutation(kind, tags, targetKind, targets, |targets|, None)), o,
        checkpoint, n, now)
  {
  }

  lemma ReservedStep(db: Db, o: string, row: Operation, m: Mutation)
    requires o !in db.ops && o !in db.mutations && Stamped(row)
    ensures Step(db, db.(ops := db.ops[o := row], mutations := db.mutations[o := m]))
  {
  }

  lemma CreateMutationStep(db: Db, o: string, opKind: string, total: int, maxPending: int, kind: MutationKind,
                           tags: set<string>, targetKind: TargetKind, targets: set<string>, checkpoint: string,
                           n: NewTask, now: int)
    requires CreateMutation(db, o, opKind, total, maxPending, kind, tags, targetKind, targets, checkpoint, n, now).Ok?
    ensures var d := CreateMutation(db, o, opKind, total, maxPending, kind, tags, targetKind, targets, checkpoint, n,
      now).value;
      && Step(db, d) && d.contentTags == db.contentTags && o !in db.mutations && d.attempts == db.attempts
      && d.mutations == db.mutations[o := Mutation(kind, tags, targetKind, targets, |targets|, None)]
  {
    CreateMutationShape(db, o, opKind, total, maxPending, kind, tags, targetKind, targets, checkpoint, n, now);
    var m := Mutation(kind, tags, targetKind, targets, |targets|, None);
    var reserved := Reserved(db, o, opKind, total, m);
    ReservedStep(db, o, NewOperation(opKind, false, total), m);
    AttachStep(reserved, o, checkpoint, n, now);
    StepsCompose(db, reserved, AttachAndReveal(reserved, o, checkpoint, n, now).value);
  }

  /** The effect of a successful execution, before its claim is completed. */
  function Applied(db: Db, o: string, seen: Mutation, targets: set<string>, byQuery: bool): Db
    requires o in db.mutations && o in db.ops
  {
    db.(contentTags := Retagged(db.contentTags, seen, targets),
        mutations := db.mutations[o :=
          db.mutations[o].(affected := Some(AffectedCount(db.contentTags, seen, targets, byQuery)))],
        ops := db.ops[o := db.ops[o].(result := MUTATION_RESULT)])
  }

  lemma AppliedKeeps(db: Db, o: string, seen: Mutation, targets: set<string>, byQuery: bool)
    requires Inv(db) && o in db.mutations && o in db.ops && Active(db.ops[o].status) && db.mutations[o].affected.None?
    ensures Inv(Applied(db, o, seen, targets, byQuery)) && Step(db, Applied(db, o, seen, targets, byQuery))
  {
    var count := AffectedCount(db.contentTags, seen, targets, byQuery);
    var tagged := db.(contentTags := Retagged(db.contentTags, seen, targets),
                      mutations := db.mutations[o := db.mutations[o].(affected := Some(count))]);
    assert Inv(tagged);
    OpRowKeeps(tagged, o, tagged.ops[o].(result := MUTATION_RESULT));
  }

  lemma MutateStep(db: Db, o: string, seen: Mutation, targets: set<string>, byQuery: bool, claim: Option<Gen>, now: int)
    requires Inv(db) && Mutate(db, o, seen, targets, byQuery, claim, now).Ok?
    ensures Step(db, Mutate(db, o, seen, targets, byQuery, claim, now).value)
    ensures o in db.mutations && db.mutations[o].affected.None? && o in db.ops && Active(db.ops[o].status)
    ensures Inv(Applied(db, o, seen, targets, byQuery))
    ensures var d := Applied(db, o, seen, targets, byQuery);
      Mutate(db, o, seen, targets, byQuery, claim, now) ==
      if claim.Some? then CompleteByGeneration(d, claim.value, now) else Ok(d)
  {
    var d := Applied(db, o, seen, targets, byQuery);
    AppliedKeeps(db, o, seen, targets, byQuery);
    if claim.Some? {
      CompleteByGenerationStep(d, claim.value, now);
      StepsCompose(db, d, CompleteByGeneration(d, claim.value, now).value);
    }
  }

  // ---------------------------------------------------------------- every transaction is a step

  /** Replacing one operation row, other tables than the four staying put. */
  lemma OpRowStep(db: Db, d: Db, o: string)
    requires d.tasks == db.tasks && d.attempts == db.attempts && d.mutations == db.mutations
    requires o in d.ops && d.ops == db.ops[o := d.ops[o]]
    requires if o in db.ops then OpStep(db.ops[o], d.ops[o]) else Stamped(d.ops[o])
    ensures Step(db, d)
  {
  }

  lemma TaskRowStep(db: Db, d: Db, t: string)
    requires d.ops == db.ops && d.attempts == db.attempts && d.mutations == db.mutations
    requires t in db.tasks && t in d.tasks && d.tasks == db.tasks[t := d.tasks[t]] && TaskStep(db.tasks[t], d.tasks[t])
    ensures Step(db, d)
  {
  }

  lemma LeaseEventStep(db: Db, e: Event)
    requires Inv(db) && OnlyLeases(e) && Attempted(db, e).Ok?
    ensures Step(db, Apply(db, e))
  {
    match e
    case DoClaim(t, pool, worker, now, lease) => ClaimStep(db, t, pool, worker, now, lease);
    case DoRenew(t, worker, now, lease) => TaskRowStep(db, Apply(db, e), t);
    case DoPostpone(t, at) => TaskRowStep(db, Apply(db, e), t);
  }

  lemma TerminationStep(db: Db, e: Event)
    requires Inv(db) && Terminates(e) && Attempted(db, e).Ok?
    ensures Step(db, Apply(db, e))
  {
    match e
    case DoCancelTask(t, now) => CancelTaskStep(db, t, now);
    case DoCancelOperation(o, now, cleanup) => TerminateStep(db, o, CanceledRow(db.ops[o], now), now, "", cleanup);
    case DoFailOperation(o, now, code, cleanup) =>
      TerminateStep(db, o, FailedRow(db.ops[o], now, code), now, code,
        if |Children(db.tasks, o)| > 0 then cleanup else None);
  }

  lemma EndEventStep(db: Db, e: Event)
    requires Inv(db) && EndsAttempts(e) && Attempted(db, e).Ok?
    ensures Step(db, Apply(db, e))
  {
    match e
    case DoCompleteByWorker(t, worker, now) => CompleteByWorkerStep(db, t, worker, now);
    case DoCompleteByGeneration(g, now) => CompleteByGenerationStep(db, g, now);
    case DoFail(t, worker, now, retryAt, code) => FailStep(db, t, worker, now, retryAt, code);
    case DoRecover(rows, now) => RecoverStep(db, rows, now);
  }

  lemma TaskEventStep(db: Db, e: Event)
    requires Inv(db) && TaskEvent(e) && Attempted(db, e).Ok?
    ensures Step(db, Apply(db, e))
  {
    if OnlyLeases(e) { LeaseEventStep(db, e); }
    else if EndsAttempts(e) { EndEventStep(db, e); }
    else { TerminationStep(db, e); }
  }

  lemma MutationEventStep(db: Db, e: Event)
    requires Inv(db) && MutationEvent(e) && Attempted(db, e).Ok?
    ensures Step(db, Apply(db, e))
  {
    match e
    case DoCreateMutation(o, opKind, total, maxPending, kind, tags, targetKind, targets, checkpoint, n, now) =>
      CreateMutationStep(db, o, opKind, total, maxPending, kind, tags, targetKind, targets, checkpoint, n, now);
    case DoExecuteQuery(o, seen, claim, now) =>
      MutateStep(db, o, seen.value, if o in db.mutations then db.mutations[o].targets else {}, true, claim, now);
    case DoExecuteFiles(o, seen, hashes, registered, claim, now) =>
      MutateStep(db.(contents := db.contents + registered), o, seen.value, (set h | h in hashes), false, claim, now);
  }

  lemma OtherEventStep(db: Db, e: Event)
    requires Inv(db) && !TaskEvent(e) && !MutationEvent(e) && Attempted(db, e).Ok?
    ensures Step(db, Apply(db, e))
  {
    match e
    case DoClear => ClearStep(db);
    case DoCancelUnattached(kind, hiddenOnly, rows, now) => InterruptAllStep(db.ops, db, rows, now);
    case DoAssociate(_, _, _) =>
    case LibraryChanges(_, _) =>
    case _ =>
      if InsertsTask(e) { InsertEventStep(db, e); }
      else if e.DoCreate? || e.DoAdmit? { CreateEventStep(db, e); }
      else { RowEventStep(db, e); }
  }

  lemma AttachChildStep(db: Db, o: string, checkpoint: string, n: NewTask, now: int)
    requires AttachChild(db, o, checkpoint, n, now).Ok?
    ensures var d := AttachChild(db, o, checkpoint, n, now).value.0;
      Step(db, d) && d == db.(tasks := d.tasks, ops := d.ops) && db.tasks.Keys <= d.tasks.Keys
  {
    if n.id !in db.tasks { EnqueueStep(db, n.(op := Some(o)), now); }
  }

  lemma InsertEventStep(db: Db, e: Event)
    requires Inv(db) && InsertsTask(e) && Attempted(db, e).Ok?
    ensures Step(db, Apply(db, e))
  {
    match e
    case DoEnqueue(n, now) => EnqueueStep(db, n, now);
    case DoAttachAndReveal(o, checkpoint, n, now) => AttachStep(db, o, checkpoint, n, now);
    case DoAttachChild(o, checkpoint, n, now) => AttachChildStep(db, o, checkpoint, n, now);
  }

  lemma CreateEventStep(db: Db, e: Event)
    requires (e.DoCreate? || e.DoAdmit?) && Attempted(db, e).Ok?
    ensures Step(db, Apply(db, e))
  {
    OpRowStep(db, Apply(db, e), e.op);
  }

  lemma RowEventStep(db: Db, e: Event)
    requires Attempted(db, e).Ok?
    requires e.DoCheckpoint? || e.DoSetResult? || e.DoSetVisible? || e.DoClaimProducer?
    ensures Step(db, Apply(db, e))
  {
    match e
    case DoCheckpoint(o, _) => OpRowStep(db, Apply(db, e), o);
    case DoSetResult(o, _) => OpRowStep(db, Apply(db, e), o);
    case DoSetVisible(o, _) => OpRowStep(db, Apply(db, e), o);
    case DoClaimProducer(o) => OpRowStep(db, Apply(db, e), o);
  }

  lemma EveryEventIsStep(db: Db, e: Event)
    requires Inv(db)
    ensures Step(db, Apply(db, e))
  {
    if Attempted(db, e).Ok? {
      if TaskEvent(e) { TaskEventStep(db, e); }
      else if MutationEvent(e) { MutationEventStep(db, e); }
      else { OtherEventStep(db, e); }
    }
  }

  // ---------------------------------------------------------------- over whole runs

  lemma LastStep(run: seq<Event>, more: seq<Event>)
    requires more != []
    ensures Step(After(run + more[..|more| - 1]), After(run + more)) && Inv(After(run + more))
  {
    var longer := run + more;
    assert longer[..|longer| - 1] == run + more[..|more| - 1] && longer[|longer| - 1] == more[|more| - 1];
    ReachableInv(run + more[..|more| - 1]);
    ReachableInv(longer);
    EveryEventIsStep(After(run + more[..|more| - 1]), more[|more| - 1]);
  }

  /** Once canceled, an operation keeps its whole row, but for its visibility, and never has a pending or
      running child again, for as long as its row exists. */
  lemma {:induction false} CancellationIsPermanent(run: seq<Event>, more: seq<Event>, o: string)
    requires o in After(run).ops && After(run).ops[o].status.Canceled?
    requires forall k {:trigger more[..k]} | 0 <= k <= |more| :: o in After(run + more[..k]).ops
    ensures o in After(run + more).ops
    ensures var row := After(run + more).ops[o]; row == After(run).ops[o].(visible := row.visible)
    ensures !HasActiveChild(After(run + more).tasks, o)
    decreases |more|
  {
    assert more[..|more|] == more;
    if more == [] {
      assert run + more == run;
      ReachableInv(run);
    } else {
      var before := more[..|more| - 1];
      forall k | 0 <= k <= |before| ensures o in After(run + before[..k]).ops { assert before[..k] == more[..k]; }
      CancellationIsPermanent(run, before, o);
      LastStep(run, more);
      assert OpStep(After(run + before).ops[o], After(run + more).ops[o]);
    }
    forall t | t in After(run + more).tasks && After(run + more).tasks[t].op == Some(o)
      ensures !Active(After(run + more).tasks[t].status) {
      assert ParentOk(After(run + more).tasks[t], After(run + more).ops, {});
    }
  }

  /** A claim generation gets at most one outcome: later steps never rewrite a closed attempt. */
  lemma {:induction false} OutcomeIsWrittenOnce(run: seq<Event>, more: seq<Event>, g: Gen)
    requires g in After(run).attempts && !After(run).attempts[g].outcome.InProgress?
    requires forall k {:trigger more[..k]} | 0 <= k <= |more| :: g in After(run + more[..k]).attempts
    ensures g in After(run + more).attempts && After(run + more).attempts[g] == After(run).attempts[g]
    decreases |more|
  {
    assert more[..|more|] == more;
    if more == [] {
      assert run + more == run;
    } else {
      var before := more[..|more| - 1];
      forall k | 0 <= k <= |before| ensures g in After(run + before[..k]).attempts { assert before[..k] == more[..k]; }
      OutcomeIsWrittenOnce(run, before, g);
      LastStep(run, more);
      assert AttemptStep(After(run + before).attempts[g], After(run + more).attempts[g]);
    }
  }
}
