/** Each transaction of the durable work store as one atomic function on the tables.
    `Ok(db')` is the committed state; `Err(e)` means the transaction rolled back. Schema triggers
    and foreign keys act inside the functions named after the statements that fire them. */
module QueueSpec {
  import opened Basics
  import opened QueueModel

  // ---------------------------------------------------------------- triggers

  /** WHERE clause of the trigger that finalizes drained auxiliaries. */
  predicate Releasable(db: Db, producer: string, o: string) {
    && o in db.ops && Active(db.ops[o].status)
    && (exists l | l in db.links :: l.producer == producer && db.links[l] == o)
    && !HasActiveChild(db.tasks, o)
    && (db.ops[o].total == 0
        || |InState(db.tasks, o, Completed)| + |InState(db.tasks, o, Failed)| + |InState(db.tasks, o, Canceled)|
           >= db.ops[o].total)
  }

  function ReleasedRow(db: Db, o: string, at: int): Operation
    requires o in db.ops
  {
    var row := db.ops[o];
    row.(status := if row.failed > 0 then Failed
      else if |InState(db.tasks, o, Canceled)| > 0 then Canceled else Completed,
         startedAt := Some(Coalesce(row.startedAt, at)), finishedAt := Some(at),
         errorCode := if row.failed > 0 then "child_task_failed" else "")
  }

  function ReleaseAuxiliaries(db: Db, producer: string, at: int): Db {
    db.(ops := map o | o in db.ops :: if Releasable(db, producer, o) then ReleasedRow(db, o, at) else db.ops[o])
  }

  /** UPDATE background_operations SET status = ... WHERE id = o, with its after-update trigger. */
  function UpdateStatus(db: Db, o: string, row: Operation, at: int): Db
    requires o in db.ops
  {
    var updated := db.(ops := db.ops[o := row]);
    if Active(db.ops[o].status) && !Active(row.status) then ReleaseAuxiliaries(updated, o, at) else updated
  }

  /** The parent's row after a child has been inserted below it. */
  function Reopened(row: Operation): Operation {
    var grown := row.(attached := row.attached + 1,
                      total := if 0 < row.total < row.attached + 1 then row.attached + 1 else row.total);
    if row.status.Completed? || row.status.Failed?
    then grown.(status := Pending, finishedAt := None, errorCode := "", result := "")
    else grown
  }

  function InsertTask(db: Db, id: string, row: Task): Db {
    var inserted := db.(tasks := db.tasks[id := row]);
    match row.op
    case Some(o) => if o in db.ops then inserted.(ops := db.ops[o := Reopened(db.ops[o])]) else inserted
    case None => inserted
  }

  // ---------------------------------------------------------------- enqueue

  datatype NewTask = NewTask(id: string, op: Option<string>, work: Work, cleanup: Option<Work>,
                             availableAt: Option<int>, createdAt: Option<int>)

  /** Required fields and defaults, shared by tasks and cleanup descriptors. */
  function NormalizeWork(w: Work): Result<Work> {
    if w.dedupe == "" || w.kind == "" then Err(Invalid)
    else
      var max := if w.maxAttempts == 0 then 3 else w.maxAttempts;
      if max < 1 then Err(Invalid)
      else Ok(w.(resourceClass := if w.resourceClass == "" then "default" else w.resourceClass, maxAttempts := max))
  }

  function NormalizeCleanup(c: Option<Work>): Result<Option<Work>> {
    match c
    case None => Ok(None)
    case Some(w) => var n :- NormalizeWork(w); Ok(Some(n))
  }

  function NewRow(n: NewTask, now: int): Result<Task> {
    var _ :- Check(n.id != "", Invalid);
    var work :- NormalizeWork(n.work);
    var cleanup :- NormalizeCleanup(n.cleanup);
    var created := Coalesce(n.createdAt, now);
    Ok(Task(n.op, work, cleanup, Pending, Coalesce(n.availableAt, created), "", None, created, None, None, 0, ""))
  }

  /** The committed tables and whether a row was inserted. */
  function Enqueue(db: Db, n: NewTask, now: int): Result<(Db, bool)> {
    var row :- NewRow(n, now);
    if n.op.Some? && n.op.value in db.ops && db.ops[n.op.value].status.Canceled? then Err(ParentCanceled)
    else if ActiveDedupe(db.tasks, row.work.dedupe) then Ok((db, false))
    else if n.id in db.tasks then Err(DuplicateId)
    else if n.op.Some? && n.op.value !in db.ops then Err(MissingRow)
    else Ok((InsertTask(db, n.id, row), true))
  }

  /** Enqueue for callers that treat an active dedupe key as an error. */
  function EnqueueOnce(db: Db, n: NewTask, now: int): Result<Db> {
    var r :- Enqueue(db, n, now);
    if r.1 then Ok(r.0) else Err(DedupeActive)
  }

  const CLEANUP_SUFFIX := ":terminal-cleanup"

  /** enqueueBackgroundTaskTerminalCleanup: the detached compensation of an exhausted task. */
  function EnqueueTerminalCleanup(db: Db, t: string, now: int): Result<Db> {
    if t !in db.tasks then Err(MissingRow)
    else match db.tasks[t].cleanup
      case None => Ok(db)
      case Some(w) => EnqueueOnce(db, NewTask(t + CLEANUP_SUFFIX, None, w, None, Some(now), Some(now)), now)
  }

  // ---------------------------------------------------------------- operation bookkeeping

  function StartedRow(row: Operation, now: int): Operation {
    row.(status := Running, startedAt := Some(Coalesce(row.startedAt, now)), finishedAt := None, errorCode := "",
         result := if row.status.Completed? || row.status.Failed? then "" else row.result)
  }

  function MarkStarted(db: Db, op: Option<string>, now: int): Result<Db> {
    match op
    case None => Ok(db)
    case Some(o) => if o !in db.ops then Err(MissingRow)
                    else Ok(UpdateStatus(db, o, StartedRow(db.ops[o], now), now))
  }

  function FinishedRow(db: Db, o: string, now: int): Operation
    requires o in db.ops
  {
    var row := db.ops[o];
    row.(status := if row.failed > 0 then Failed
      else if |InState(db.tasks, o, Canceled)| > 0 then Canceled else Completed,
         startedAt := Some(Coalesce(row.startedAt, now)), finishedAt := Some(now),
         errorCode := if row.failed > 0 then "child_task_failed" else "")
  }

  /** Is this the child whose termination finishes the operation? */
  predicate Finishes(db: Db, o: string)
    requires o in db.ops
  {
    var row := db.ops[o];
    && !HasActiveChild(db.tasks, o)
    && !(row.total > 0 && row.completed + row.failed + |InState(db.tasks, o, Canceled)| < row.total)
    && !ProducerActive(db.ops, db.links, o)
  }

  function FinishIfDrained(db: Db, o: string, now: int): Db
    requires o in db.ops
  {
    if Finishes(db, o) then UpdateStatus(db, o, FinishedRow(db, o, now), now) else db
  }

  function RecordTerminal(db: Db, op: Option<string>, now: int, completedDelta: nat, failedDelta: nat): Result<Db> {
    match op
    case None => Ok(db)
    case Some(o) =>
      if o !in db.ops then Err(MissingRow)
      else
        var row := db.ops[o].(completed := db.ops[o].completed + completedDelta,
          failed := db.ops[o].failed + failedDelta);
        Ok(FinishIfDrained(db.(ops := db.ops[o := row]), o, now))
  }

  // ---------------------------------------------------------------- claiming and leases

  predicate Claimable(t: Task, pool: string, now: int) {
    t.work.resourceClass == pool && t.status.Pending? && t.availableAt <= now && t.attemptCount < t.work.maxAttempts
  }

  /** ORDER BY priority DESC, created_at, id */
  predicate ClaimsBefore(a: string, x: Task, b: string, y: Task) {
    || x.work.priority > y.work.priority
    || (x.work.priority == y.work.priority
        && (x.createdAt < y.createdAt || (x.createdAt == y.createdAt && StrLess(a, b))))
  }

  /** The row the claim's subquery selects. */
  predicate IsNext(db: Db, pool: string, now: int, t: string) {
    && t in db.tasks && Claimable(db.tasks[t], pool, now)
    && forall u | u in db.tasks && u != t && Claimable(db.tasks[u], pool, now) ::
         ClaimsBefore(t, db.tasks[t], u, db.tasks[u])
  }

  function ClaimedRow(row: Task, worker: string, now: int, lease: int): Task {
    row.(status := Running, leaseOwner := worker, leaseExpires := Some(now + lease),
         startedAt := Some(Coalesce(row.startedAt, now)), attemptCount := row.attemptCount + 1)
  }

  function Claim(db: Db, t: string, pool: string, worker: string, now: int, lease: int): Result<Db> {
    var _ :- Check(pool != "" && worker != "" && lease > 0, Invalid);
    if !IsNext(db, pool, now, t) then Err(NothingToDo)
    else
      var row := ClaimedRow(db.tasks[t], worker, now, lease);
      var g := Gen(t, row.attemptCount);
      if g in db.attempts then Err(DuplicateId)
      else MarkStarted(db.(tasks := db.tasks[t := row],
                           attempts := db.attempts[g := Attempt(worker, now, None, InProgress, "")]), row.op, now)
  }

  /** status = 'running' AND lease_owner = ? AND lease_expires_at > ? */
  predicate Holds(db: Db, t: string, worker: string, now: int) {
    && t in db.tasks && db.tasks[t].status.Running? && db.tasks[t].leaseOwner == worker
    && db.tasks[t].leaseExpires.Some? && db.tasks[t].leaseExpires.value > now
  }

  predicate HoldsGen(db: Db, g: Gen, now: int) {
    && g.task in db.tasks && db.tasks[g.task].status.Running? && db.tasks[g.task].attemptCount == g.number
    && db.tasks[g.task].leaseExpires.Some? && db.tasks[g.task].leaseExpires.value > now
  }

  function Renew(db: Db, t: string, worker: string, now: int, lease: int): Result<Db> {
    var _ :- Check(t != "" && worker != "" && lease > 0, Invalid);
    if !Holds(db, t, worker, now) then Err(LeaseLost)
    else Ok(db.(tasks := db.tasks[t := db.tasks[t].(leaseExpires := Some(now + lease))]))
  }

  // ---------------------------------------------------------------- completion and failure

  function EndedRow(row: Task, s: Status, now: int, code: string): Task {
    row.(status := s, finishedAt := Some(now), leaseOwner := "", leaseExpires := None, errorCode := code)
  }

  function ClosedAttempt(a: Attempt, outcome: Outcome, now: int, code: string): Attempt {
    a.(finishedAt := Some(now), outcome := outcome, errorCode := code)
  }

  function CompleteByWorker(db: Db, t: string, worker: string, now: int): Result<Db> {
    var _ :- Check(t != "" && worker != "", Invalid);
    if !Holds(db, t, worker, now) then Err(LeaseLost)
    else
      var row := db.tasks[t];
      var g := Gen(t, row.attemptCount);
      if !(g in db.attempts && db.attempts[g].worker == worker && db.attempts[g].outcome.InProgress?)
        then Err(AttemptMismatch)
      else RecordTerminal(db.(tasks := db.tasks[t := EndedRow(row, Completed, now, "")],
                              attempts := db.attempts[g := ClosedAttempt(db.attempts[g], Succeeded, now, "")]),
                          row.op, now, 1, 0)
  }

  /** PostponePendingBackgroundTask: only later, and only while the task waits. */
  function Postpone(db: Db, t: string, at: int): Result<Db> {
    var _ :- Check(t != "", Invalid);
    if !(t in db.tasks && db.tasks[t].status.Pending? && db.tasks[t].availableAt < at) then Err(NothingToDo)
    else Ok(db.(tasks := db.tasks[t := db.tasks[t].(availableAt := at)]))
  }

  function CompleteByGeneration(db: Db, g: Gen, now: int): Result<Db> {
    var _ :- Check(g.task != "" && g.number >= 1, Invalid);
    if !HoldsGen(db, g, now) then Err(LeaseLost)
    else
      var row := db.tasks[g.task];
      if !(g in db.attempts && db.attempts[g].outcome.InProgress?) then Err(AttemptMismatch)
      else RecordTerminal(db.(tasks := db.tasks[g.task := EndedRow(row, Completed, now, "")],
                              attempts := db.attempts[g := ClosedAttempt(db.attempts[g], Succeeded, now, "")]),
                          row.op, now, 1, 0)
  }

  /** A task whose attempt ended without success: pending again while attempts remain. */
  function RetriedRow(row: Task, now: int, retryAt: int, code: string): Task {
    if row.attemptCount < row.work.maxAttempts
    then row.(status := Pending, availableAt := retryAt, finishedAt := None, leaseOwner := "", leaseExpires := None,
      errorCode := code)
    else EndedRow(row, Failed, now, code)
  }

  /** Bookkeeping after a task became terminally failed: its parent's counters, then its compensation. */
  function Exhaust(db: Db, t: string, now: int): Result<Db>
    requires t in db.tasks
  {
    var counted :- RecordTerminal(db, db.tasks[t].op, now, 0, 1);
    EnqueueTerminalCleanup(counted, t, now)
  }

  function Fail(db: Db, t: string, worker: string, now: int, retryAt: Option<int>, code: string): Result<Db> {
    var _ :- Check(t != "" && worker != "", Invalid);
    if !Holds(db, t, worker, now) then Err(LeaseLost)
    else
      var row := db.tasks[t];
      var g := Gen(t, row.attemptCount);
      if !(g in db.attempts && db.attempts[g].worker == worker && db.attempts[g].outcome.InProgress?)
        then Err(AttemptMismatch)
      else
        var ended := RetriedRow(row, now, Coalesce(retryAt, now), code);
        var db1 := db.(tasks := db.tasks[t := ended],
                       attempts := db.attempts[g := ClosedAttempt(db.attempts[g], Errored, now, code)]);
        if ended.status.Failed? then Exhaust(db1, t, now) else Ok(db1)
  }

  // ---------------------------------------------------------------- lease recovery

  predicate Expired(t: Task, now: int) {
    t.status.Running? && t.leaseExpires.Some? && t.leaseExpires.value <= now
  }

  function ExpiredTasks(db: Db, now: int): set<string> {
    set t | t in db.tasks && Expired(db.tasks[t], now)
  }

  function CurrentGen(db: Db, t: string): Gen
    requires t in db.tasks
  {
    Gen(t, db.tasks[t].attemptCount)
  }

  predicate CurrentAttemptOpen(db: Db, t: string) {
    t in db.tasks && CurrentGen(db, t) in db.attempts && db.attempts[CurrentGen(db, t)].outcome.InProgress?
  }

  /** The two bulk statements: requeue or fail every expired task, and abandon its attempt. */
  function Requeue(db: Db, now: int): Db {
    db.(tasks := map t | t in db.tasks ::
          if Expired(db.tasks[t], now) then RetriedRow(db.tasks[t], now, now, "lease_expired") else db.tasks[t],
        attempts := map g | g in db.attempts ::
          if g.task in db.tasks && Expired(db.tasks[g.task], now) && g.number == db.tasks[g.task].attemptCount
             && db.attempts[g].outcome.InProgress?
          then ClosedAttempt(db.attempts[g], Abandoned, now, "lease_expired") else db.attempts[g])
  }

  /** The loop over the recovered rows, in the order the statement returned them. */
  function ExhaustAll(db: Db, rows: seq<string>, now: int): Result<Db>
    decreases |rows|
  {
    if rows == [] then Ok(db)
    else if rows[0] !in db.tasks then Err(MissingRow)
    else if !db.tasks[rows[0]].status.Failed? then ExhaustAll(db, rows[1..], now)
    else
      var next :- Exhaust(db, rows[0], now);
      ExhaustAll(next, rows[1..], now)
  }

  ghost predicate Enumerates(rows: seq<string>, ids: set<string>) {
    && (forall t :: t in rows <==> t in ids)
    && (forall i, j | 0 <= i < j < |rows| :: rows[i] != rows[j])
  }

  function Recover(db: Db, rows: seq<string>, now: int): Result<Db>
    requires Enumerates(rows, ExpiredTasks(db, now))
  {
    if exists t | t in ExpiredTasks(db, now) :: !CurrentAttemptOpen(db, t) then Err(AttemptMismatch)
    else ExhaustAll(Requeue(db, now), rows, now)
  }

  // ---------------------------------------------------------------- cancellation and producer failure

  function CancelTask(db: Db, t: string, now: int): Result<Db> {
    var _ :- Check(t != "", Invalid);
    if !(t in db.tasks && Active(db.tasks[t].status)) then Err(NothingToDo)
    else
      var row := db.tasks[t];
      var g := Gen(t, row.attemptCount);
      RecordTerminal(db.(tasks := db.tasks[t := EndedRow(row, Canceled, now, "")],
                         attempts := if row.attemptCount > 0 && g in db.attempts && db.attempts[g].outcome.InProgress?
                                     then db.attempts[g := ClosedAttempt(db.attempts[g], Revoked, now, "")]
                                       else db.attempts),
                     row.op, now, 0, 0)
  }

  /** The non-null lease expiries of the running children. */
  function Leases(tasks: Tasks, o: string): set<int> {
    set t | t in InState(tasks, o, Running) && tasks[t].leaseExpires.Some? :: tasks[t].leaseExpires.value
  }

  lemma {:induction false} Largest(s: set<int>) returns (m: int)
    requires s != {}
    ensures m in s && forall x | x in s :: x <= m
    decreases |s|
  {
    if forall x :: x !in s { assert false; }
    m :| m in s;
    var rest := s - {m};
    if rest != {} {
      var k := Largest(rest);
      assert forall x | x in s :: x == m || x in rest;
      if m < k { m := k; }
    } else {
      assert s == {m};
    }
  }

  lemma MaxExists(s: set<int>)
    requires s != {}
    ensures exists m :: m in s && forall x | x in s :: x <= m
  {
    var m := Largest(s);
  }

  /** MAX(...) of SQL: NULL on an empty set. */
  function MaxOf(s: set<int>): (m: Option<int>)
    ensures s == {} <==> m.None?
    ensures m.Some? ==> m.value in s && forall x | x in s :: x <= m.value
  {
    if s == {} then None
    else
      MaxExists(s);
      var m :| m in s && forall x | x in s :: x <= m;
      Some(m)
  }

  /** Close the attempts of the running children, then cancel every active child. */
  function RevokeChildren(db: Db, o: string, now: int, code: string): Db {
    db.(attempts := map g | g in db.attempts ::
          if db.attempts[g].outcome.InProgress? && g.task in InState(db.tasks, o, Running)
          then ClosedAttempt(db.attempts[g], Revoked, now, code) else db.attempts[g],
        tasks := map t | t in db.tasks ::
          if db.tasks[t].op == Some(o) && Active(db.tasks[t].status) then EndedRow(db.tasks[t], Canceled, now, code)
          else db.tasks[t])
  }

  function RefreshCounts(db: Db, o: string): Db
    requires o in db.ops
  {
    db.(ops := db.ops[o := db.ops[o].(completed := |InState(db.tasks, o, Completed)|,
      failed := |InState(db.tasks, o, Failed)|)])
  }

  /** The compensation task, held back until every revoked lease would have expired. */
  function Delayed(cleanup: NewTask, at: int, latest: Option<int>): NewTask {
    var safeAt := match latest case Some(l) => (if l > at then l else at) case None => at;
    cleanup.(createdAt := Some(Coalesce(cleanup.createdAt, at)),
             availableAt := Some(if cleanup.availableAt.Some? && cleanup.availableAt.value >= safeAt
                                 then cleanup.availableAt.value else safeAt))
  }

  predicate Cancelable(db: Db, o: string) {
    o in db.ops && Active(db.ops[o].status) && db.ops[o].result == ""
  }

  /** Common tail of cancellation and producer failure, after the operation row became terminal. */
  function Terminate(db: Db, o: string, now: int, code: string, cleanup: Option<NewTask>): Result<Db>
    requires o in db.ops
  {
    var latest := MaxOf(Leases(db.tasks, o));
    if InState(db.tasks, o, Running) != {} && latest.None? then Err(MissingLease)
    else
      var revoked := RefreshCounts(RevokeChildren(db, o, now, code), o);
      match cleanup
      case None => Ok(revoked)
      case Some(c) => EnqueueOnce(revoked, Delayed(c, now, latest), now)
  }

  function CanceledRow(row: Operation, now: int): Operation {
    row.(status := Canceled, startedAt := Some(Coalesce(row.startedAt, now)), finishedAt := Some(now), errorCode := "")
  }

  function CancelOperation(db: Db, o: string, now: int, cleanup: Option<NewTask>): Result<Db> {
    var _ :- Check(o != "" && (cleanup.Some? ==> cleanup.value.op.None?), Invalid);
    if !Cancelable(db, o) then Err(NothingToDo)
    else Terminate(UpdateStatus(db, o, CanceledRow(db.ops[o], now), now), o, now, "", cleanup)
  }

  function FailedRow(row: Operation, now: int, code: string): Operation {
    row.(status := Failed, startedAt := Some(Coalesce(row.startedAt, now)), finishedAt := Some(now), errorCode := code)
  }

  /** A producer failure compensates only when child work exists. */
  function FailOperation(db: Db, o: string, now: int, code: string, cleanup: Option<NewTask>): Result<Db> {
    var _ :- Check(o != "" && (cleanup.Some? ==> cleanup.value.op.None?), Invalid);
    if !Cancelable(db, o) then Err(NothingToDo)
    else Terminate(UpdateStatus(db, o, FailedRow(db.ops[o], now, code), now), o, now, code,
                   if |Children(db.tasks, o)| > 0 then cleanup else None)
  }

  // ---------------------------------------------------------------- history clearing

  predicate Clearable(db: Db, o: string) {
    && o in db.ops && db.ops[o].visible && !Active(db.ops[o].status)
    && !HasActiveChild(db.tasks, o)
    && !(exists t | t in db.tasks :: db.tasks[t].op.None? && db.tasks[t].work.subjectKind == "operation"
                                     && db.tasks[t].work.subjectId == o && Active(db.tasks[t].status))
  }

  /** DELETE FROM background_tasks, cascading to the attempts. */
  function DeleteTasks(db: Db, gone: set<string>): Db {
    db.(tasks := db.tasks - gone, attempts := map g | g in db.attempts && g.task !in gone :: db.attempts[g])
  }

  /** DELETE FROM background_operations: links and mutations cascade, remaining children are detached. */
  function DeleteOps(db: Db, gone: set<string>): Db {
    db.(ops := db.ops - gone,
        links := map l | l in db.links && l.producer !in gone && db.links[l] !in gone :: db.links[l],
        mutations := db.mutations - gone,
        tasks := map t | t in db.tasks :: if db.tasks[t].op.Some? && db.tasks[t].op.value in gone
                                          then db.tasks[t].(op := None) else db.tasks[t])
  }

  function ClearedOps(db: Db): set<string> { set o | o in db.ops && Clearable(db, o) }

  /** The history rows that belong to the cleared operations. */
  function ClearedTasks(db: Db): set<string> {
    set t | t in db.tasks
            && match db.tasks[t].op
               case Some(o) => o in ClearedOps(db)
               case None => db.tasks[t].work.subjectKind == "operation" && !Active(db.tasks[t].status)
                            && db.tasks[t].work.subjectId in ClearedOps(db)
  }

  function Clear(db: Db): Db {
    DeleteOps(DeleteTasks(db, ClearedTasks(db)), ClearedOps(db))
  }

  // ---------------------------------------------------------------- operations and their children

  const MAX_PAYLOAD := 1048576

  function NewOperation(kind: string, visible: bool, total: nat): Operation {
    Operation(kind, visible, Pending, total, 0, 0, 0, None, None, "", "", "", false)
  }

  function CreateOperation(db: Db, o: string, kind: string, visible: bool, total: int): Result<Db> {
    var _ :- Check(o != "" && kind != "" && total >= 0, Invalid);
    if o in db.ops then Err(DuplicateId) else Ok(db.(ops := db.ops[o := NewOperation(kind, visible, total)]))
  }

  function PendingOfKind(db: Db, kind: string): nat {
    |set o | o in db.ops && db.ops[o].kind == kind && db.ops[o].status.Pending?|
  }

  function AdmitOperation(db: Db, o: string, kind: string, visible: bool, total: int, maxPending: int): Result<Db> {
    var _ :- Check(o != "" && kind != "" && total >= 0 && maxPending >= 1, Invalid);
    if PendingOfKind(db, kind) >= maxPending then Err(NothingToDo)
    else CreateOperation(db, o, kind, visible, total)
  }

  function SetCheckpoint(db: Db, o: string, checkpoint: string): Result<Db> {
    var _ :- Check(o != "" && 0 < |checkpoint| <= MAX_PAYLOAD, Invalid);
    if !(o in db.ops && Active(db.ops[o].status)) then Err(NotAccepting)
    else Ok(db.(ops := db.ops[o := db.ops[o].(checkpoint := checkpoint)]))
  }

  function AttachAndReveal(db: Db, o: string, checkpoint: string, n: NewTask, now: int): Result<Db> {
    var saved :- SetCheckpoint(db, o, checkpoint);
    if !(o in saved.ops && saved.ops[o].status.Pending? && |Children(saved.tasks, o)| == 0) then Err(NotAccepting)
    else
      var attached :- EnqueueOnce(saved, n.(op := Some(o)), now);
      if o !in attached.ops then Err(MissingRow)
      else Ok(attached.(ops := attached.ops[o := attached.ops[o].(visible := true)]))
  }

  /** backgroundTaskAttachmentMatches */
  predicate SameAttachment(existing: Task, op: string, work: Work, cleanup: Option<Work>) {
    existing.op == Some(op) && existing.work == work && existing.cleanup == cleanup
  }

  /** A repeated attachment of the same description reports the existing child and changes nothing. */
  function AttachChild(db: Db, o: string, checkpoint: string, n: NewTask, now: int): Result<(Db, bool)> {
    var _ :- Check(o != "", Invalid);
    var row :- NewRow(n.(op := Some(o)), now);
    if o !in db.ops then Err(MissingRow)
    else if n.id in db.tasks then
      (if SameAttachment(db.tasks[n.id], o, row.work, row.cleanup) then Ok((db, false)) else Err(DuplicateId))
    else if !Active(db.ops[o].status) then Err(NotAccepting)
    else if db.ops[o].total > 0 && |Children(db.tasks, o)| >= db.ops[o].total then Err(NotAccepting)
    else
      var attached :- EnqueueOnce(db, n.(op := Some(o)), now);
      var _ :- Check(0 < |checkpoint| <= MAX_PAYLOAD, Invalid);
      Ok((attached, true))
  }

  /** An active association is never stolen: only a terminal auxiliary may be replaced. */
  function Associate(db: Db, producer: string, auxKind: string, aux: string): Result<Db> {
    var _ :- Check(producer != "" && auxKind != "" && aux != "" && producer != aux, Invalid);
    var l := Link(producer, auxKind);
    if !(producer in db.ops && Active(db.ops[producer].status)) then Err(NotAccepting)
    else if !(aux in db.ops && db.ops[aux].kind == auxKind && Active(db.ops[aux].status)) then Err(NotAccepting)
    else if l in db.links && !(db.links[l] in db.ops && !Active(db.ops[db.links[l]].status)) then Err(NotAccepting)
    else if exists m | m in db.links :: m != l && db.links[m] == aux then Err(DuplicateId)
    else Ok(db.(links := db.links[l := aux]))
  }

  /** Pending operations of one kind without any child, optionally only the hidden ones. */
  function Unattached(db: Db, kind: string, hiddenOnly: bool): set<string> {
    set o | o in db.ops && db.ops[o].kind == kind && db.ops[o].status.Pending?
            && (hiddenOnly ==> !db.ops[o].visible) && |Children(db.tasks, o)| == 0
  }

  function InterruptedRow(row: Operation, now: int): Operation {
    row.(status := Canceled, finishedAt := Some(now), errorCode := "producer_interrupted")
  }

  /** The rows one statement updates, in the order it visits them. */
  function InterruptAll(db: Db, rows: seq<string>, now: int): Db
    decreases |rows|
  {
    if rows == [] || rows[0] !in db.ops then db
    else InterruptAll(UpdateStatus(db, rows[0], InterruptedRow(db.ops[rows[0]], now), now), rows[1..], now)
  }

  function CancelUnattached(db: Db, kind: string, hiddenOnly: bool, rows: seq<string>, now: int): Result<Db>
    requires Enumerates(rows, Unattached(db, kind, hiddenOnly))
  {
    var _ :- Check(kind != "", Invalid);
    Ok(InterruptAll(db, rows, now))
  }

  /** The marker that makes a result refer to the stored tag mutation. */
  const MUTATION_RESULT := "{\"durable_result\":\"tag_mutation\"}"

  function SetResult(db: Db, o: string, result: string): Result<Db> {
    var _ :- Check(o != "" && 0 < |result| <= MAX_PAYLOAD, Invalid);
    if result == MUTATION_RESULT && !(o in db.mutations && db.mutations[o].affected.Some?) then Err(MissingRow)
    else if !(o in db.ops && Active(db.ops[o].status)) then Err(NotAccepting)
    else Ok(db.(ops := db.ops[o := db.ops[o].(result := result)]))
  }

  function SetVisible(db: Db, o: string, visible: bool): Result<Db> {
    var _ :- Check(o != "", Invalid);
    if o !in db.ops then Err(MissingRow) else Ok(db.(ops := db.ops[o := db.ops[o].(visible := visible)]))
  }

  function ClaimProducer(db: Db, o: string): Result<Db> {
    var _ :- Check(o != "", Invalid);
    if !(o in db.ops && db.ops[o].status.Pending? && !db.ops[o].producerClaimed && |Children(db.tasks, o)| == 0)
      then Err(NothingToDo)
    else Ok(db.(ops := db.ops[o := db.ops[o].(producerClaimed := true)]))
  }

  // ---------------------------------------------------------------- tag mutations

  /** createBackgroundTagMutationSnapshot: the frozen target set of a hidden, unattached reservation. */
  function Snapshot(db: Db, o: string, kind: MutationKind, tags: set<string>, targetKind: TargetKind,
      targets: set<string>): Result<Db> {
    var _ :- Check(o != "", Invalid);
    if !(o in db.ops && !db.ops[o].visible && db.ops[o].status.Pending? && |Children(db.tasks, o)| == 0)
      then Err(NotAccepting)
    else if o in db.mutations then Err(DuplicateId)
    else if targetKind.FileIds? && "" in targets then Err(Invalid)
    else Ok(db.(mutations := db.mutations[o := Mutation(kind, tags, targetKind, targets, |targets|, None)]))
  }

  function CreateMutation(db: Db, o: string, opKind: string, total: int, maxPending: int, kind: MutationKind,
                          tags: set<string>, targetKind: TargetKind, targets: set<string>, checkpoint: string,
                          n: NewTask, now: int): Result<Db> {
    var admitted :- AdmitOperation(db, o, opKind, false, total, maxPending);
    var frozen :- Snapshot(admitted, o, kind, tags, targetKind, targets);
    var _ :- Check(n.op.Some? ==> n.op.value == o, Invalid);
    AttachAndReveal(frozen, o, checkpoint, n, now)
  }

  /** backgroundTagMutationKind: removing no tags in particular means clearing all of them. */
  function EffectiveKind(m: Mutation): MutationKind {
    if m.kind.RemoveTags? && m.tags == {} then SetTags else m.kind
  }

  function Pairs(targets: set<string>, tags: set<string>): set<(string, string)> {
    set h, t | h in targets && t in tags :: (h, t)
  }

  function TagsOf(contentTags: set<(string, string)>, targets: set<string>): set<(string, string)> {
    set p | p in contentTags && p.0 in targets
  }

  /** The content tags after the mutation. */
  function Retagged(contentTags: set<(string, string)>, m: Mutation, targets: set<string>): set<(string, string)> {
    match EffectiveKind(m)
    case SetTags => (contentTags - TagsOf(contentTags, targets)) + Pairs(targets, m.tags)
    case AddTags => contentTags + Pairs(targets, m.tags)
    case RemoveTags => contentTags - Pairs(targets, m.tags)
  }

  /** Rows reported as affected: the two executors count a replacement differently. */
  function AffectedCount(contentTags: set<(string, string)>, m: Mutation, targets: set<string>, byQuery: bool): nat {
    match EffectiveKind(m)
    case SetTags => if byQuery then m.matched else |TagsOf(contentTags, targets)| + |Pairs(targets, m.tags)|
    case AddTags => |Pairs(targets, m.tags) - contentTags|
    case RemoveTags => |Pairs(targets, m.tags) * contentTags|
  }

  /** Effect, write-once result, operation result and, for a claimed task, completion of its generation. */
  function Mutate(db: Db, o: string, seen: Mutation, targets: set<string>, byQuery: bool, claim: Option<Gen>,
      now: int): Result<Db> {
    if !EffectiveKind(seen).RemoveTags? && seen.tags != {} && !(targets <= db.contents) then Err(MissingRow)
    else if !(o in db.mutations && db.mutations[o].affected.None?) then Err(AlreadyFinal)
    else
      var count := AffectedCount(db.contentTags, seen, targets, byQuery);
      var applied := db.(contentTags := Retagged(db.contentTags, seen, targets),
                         mutations := db.mutations[o := db.mutations[o].(affected := Some(count))]);
      var marked :- SetResult(applied, o, MUTATION_RESULT);
      match claim
      case None => Ok(marked)
      case Some(g) => CompleteByGeneration(marked, g, now)
  }

  /** The content-hash executor. `seen` is the mutation row read before the transaction began. */
  function ExecuteQuery(db: Db, o: string, seen: Option<Mutation>, claim: Option<Gen>, now: int): Result<Db> {
    if seen.None? then Err(MissingRow)
    else if seen.value.affected.Some? then Err(NothingToDo)
    else if !seen.value.targetKind.ContentHashes? then Err(Invalid)
    else Mutate(db, o, seen.value, if o in db.mutations then db.mutations[o].targets else {}, true, claim, now)
  }

  /** The file-id executor over the analysed files' current hashes; new contents are registered first. */
  function ExecuteFiles(db: Db, o: string, seen: Option<Mutation>, hashes: seq<string>, registered: set<string>,
                        claim: Option<Gen>, now: int): Result<Db> {
    if seen.None? then Err(MissingRow)
    else if seen.value.affected.Some? then Err(NothingToDo)
    else if !seen.value.targetKind.FileIds? then Err(Invalid)
    else if |hashes| != seen.value.matched then Err(Invalid)
    else Mutate(db.(contents := db.contents + registered), o, seen.value, (set h | h in hashes), false, claim, now)
  }
}
