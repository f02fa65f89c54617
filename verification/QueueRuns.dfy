/** Whole runs of the queue: any number of workers, cancellations, producers, recoveries and crashes
    interleave as single transactions, with arbitrary clocks. A crash is a run that simply goes on
    without the events of the worker that died. */
module QueueRuns {
  import opened Basics
  import opened QueueModel
  import opened QueueSpec
  import opened QueueInvariant
  import opened QueueTransactions

  datatype Event =
    | DoEnqueue(n: NewTask, now: int)
    | DoClaim(task: string, pool: string, worker: string, now: int, lease: int)
    | DoRenew(task: string, worker: string, now: int, lease: int)
    | DoPostpone(task: string, at: int)
    | DoCompleteByWorker(task: string, worker: string, now: int)
    | DoCompleteByGeneration(gen: Gen, now: int)
    | DoFail(task: string, worker: string, now: int, retryAt: Option<int>, code: string)
    | DoRecover(rows: seq<string>, now: int)
    | DoCancelTask(task: string, now: int)
    | DoCancelOperation(op: string, now: int, cleanup: Option<NewTask>)
    | DoFailOperation(op: string, now: int, code: string, cleanup: Option<NewTask>)
    | DoClear
    | DoCreate(op: string, kind: string, visible: bool, total: int)
    | DoAdmit(op: string, kind: string, visible: bool, total: int, maxPending: int)
    | DoCheckpoint(op: string, checkpoint: string)
    | DoAttachAndReveal(op: string, checkpoint: string, n: NewTask, now: int)
    | DoAttachChild(op: string, checkpoint: string, n: NewTask, now: int)
    | DoAssociate(op: string, auxKind: string, aux: string)
    | DoCancelUnattached(kind: string, hiddenOnly: bool, rows: seq<string>, now: int)
    | DoSetResult(op: string, result: string)
    | DoSetVisible(op: string, visible: bool)
    | DoClaimProducer(op: string)
    | DoCreateMutation(op: string, opKind: string, total: int, maxPending: int, change: MutationKind, tags: set<string>,
                       targetKind: TargetKind, targets: set<string>, checkpoint: string, n: NewTask, now: int)
    | DoExecuteQuery(op: string, seen: Option<Mutation>, claim: Option<Gen>, now: int)
    | DoExecuteFiles(op: string, seen: Option<Mutation>, hashes: seq<string>, registered: set<string>,
      claim: Option<Gen>, now: int)
    | LibraryChanges(contents: set<string>, contentTags: set<(string, string)>)

  /** The outcome of one transaction. The row order of the two bulk statements is the database's choice. */
  ghost function Attempted(db: Db, e: Event): Result<Db> {
    match e
    case DoEnqueue(n, now) => var r :- Enqueue(db, n, now); Ok(r.0)
    case DoClaim(t, pool, worker, now, lease) => Claim(db, t, pool, worker, now, lease)
    case DoRenew(t, worker, now, lease) => Renew(db, t, worker, now, lease)
    case DoPostpone(t, at) => Postpone(db, t, at)
    case DoCompleteByWorker(t, worker, now) => CompleteByWorker(db, t, worker, now)
    case DoCompleteByGeneration(g, now) => CompleteByGeneration(db, g, now)
    case DoFail(t, worker, now, retryAt, code) => Fail(db, t, worker, now, retryAt, code)
    case DoRecover(rows, now) => if Enumerates(rows, ExpiredTasks(db, now)) then Recover(db, rows, now)
      else Err(NothingToDo)
    case DoCancelTask(t, now) => CancelTask(db, t, now)
    case DoCancelOperation(o, now, cleanup) => CancelOperation(db, o, now, cleanup)
    case DoFailOperation(o, now, code, cleanup) => FailOperation(db, o, now, code, cleanup)
    case DoClear => Ok(Clear(db))
    case DoCreate(o, kind, visible, total) => CreateOperation(db, o, kind, visible, total)
    case DoAdmit(o, kind, visible, total, maxPending) => AdmitOperation(db, o, kind, visible, total, maxPending)
    case DoCheckpoint(o, checkpoint) => SetCheckpoint(db, o, checkpoint)
    case DoAttachAndReveal(o, checkpoint, n, now) => AttachAndReveal(db, o, checkpoint, n, now)
    case DoAttachChild(o, checkpoint, n, now) => var r :- AttachChild(db, o, checkpoint, n, now); Ok(r.0)
    case DoAssociate(producer, auxKind, aux) => Associate(db, producer, auxKind, aux)
    case DoCancelUnattached(kind, hiddenOnly, rows, now) =>
      if Enumerates(rows, Unattached(db, kind, hiddenOnly)) then CancelUnattached(db, kind, hiddenOnly, rows, now)
        else Err(NothingToDo)
    case DoSetResult(o, result) => SetResult(db, o, result)
    case DoSetVisible(o, visible) => SetVisible(db, o, visible)
    case DoClaimProducer(o) => ClaimProducer(db, o)
    case DoCreateMutation(o, opKind, total, maxPending, kind, tags, targetKind, targets, checkpoint, n, now) =>
      CreateMutation(db, o, opKind, total, maxPending, kind, tags, targetKind, targets, checkpoint, n, now)
    case DoExecuteQuery(o, seen, claim, now) => ExecuteQuery(db, o, seen, claim, now)
    case DoExecuteFiles(o, seen, hashes, registered, claim, now) => ExecuteFiles(db, o, seen, hashes, registered,
      claim, now)
    case LibraryChanges(contents, contentTags) => Ok(db.(contents := contents, contentTags := contentTags))
  }

  /** A transaction that fails leaves the tables as they were. */
  ghost function Apply(db: Db, e: Event): Db {
    match Attempted(db, e) case Ok(d) => d case Err(_) => db
  }

  ghost function After(run: seq<Event>): Db
    decreases |run|
  {
    if run == [] then EMPTY else Apply(After(run[..|run| - 1]), run[|run| - 1])
  }

  // ---------------------------------------------------------------- the invariant over every run

  predicate TaskEvent(e: Event) {
    || e.DoClaim? || e.DoRenew? || e.DoPostpone? || e.DoCompleteByWorker? || e.DoCompleteByGeneration? || e.DoFail?
    || e.DoRecover? || e.DoCancelTask? || e.DoCancelOperation? || e.DoFailOperation?
  }

  /** Events that cancel or fail work from outside its worker. */
  predicate Terminates(e: Event) { e.DoCancelTask? || e.DoCancelOperation? || e.DoFailOperation? }

  /** Events that touch one task and leave its operation alone, but for the start of work. */
  predicate OnlyLeases(e: Event) { e.DoClaim? || e.DoRenew? || e.DoPostpone? }

  predicate EndsAttempts(e: Event) { e.DoCompleteByWorker? || e.DoCompleteByGeneration? || e.DoFail? || e.DoRecover? }

  predicate InsertsTask(e: Event) { e.DoEnqueue? || e.DoAttachAndReveal? || e.DoAttachChild? }

  predicate MutationEvent(e: Event) { e.DoCreateMutation? || e.DoExecuteQuery? || e.DoExecuteFiles? }

  /** What one transaction of an invariant state may come to: the invariant again, or a declared error. */
  ghost predicate KeepsInv(r: Result<Db>) {
    if r.Ok? then Inv(r.value) else r.error !in {AttemptMismatch, MissingLease}
  }

  lemma TaskEventKeepsInv(db: Db, e: Event)
    requires Inv(db) && TaskEvent(e)
    ensures KeepsInv(Attempted(db, e)) && Attempted(db, e) != Err(MissingRow)
  {
    match e
    case DoClaim(t, pool, worker, now, lease) => ClaimKeeps(db, t, pool, worker, now, lease);
    case DoRenew(t, worker, now, lease) => RenewKeeps(db, t, worker, now, lease);
    case DoPostpone(t, at) => PostponeKeeps(db, t, at);
    case DoCompleteByWorker(t, worker, now) => CompleteByWorkerKeeps(db, t, worker, now);
    case DoCompleteByGeneration(g, now) => CompleteByGenerationKeeps(db, g, now);
    case DoFail(t, worker, now, retryAt, code) => FailKeeps(db, t, worker, now, retryAt, code);
    case DoRecover(rows, now) => if Enumerates(rows, ExpiredTasks(db, now)) { RecoverKeeps(db, rows, now); }
    case DoCancelTask(t, now) => CancelTaskKeeps(db, t, now);
    case DoCancelOperation(o, now, cleanup) => CancelOperationKeeps(db, o, now, cleanup);
    case DoFailOperation(o, now, code, cleanup) => FailOperationKeeps(db, o, now, code, cleanup);
  }

  lemma QueryExecutionKeepsInv(db: Db, o: string, seen: Option<Mutation>, claim: Option<Gen>, now: int)
    requires Inv(db)
    ensures KeepsInv(ExecuteQuery(db, o, seen, claim, now))
  {
    if seen.Some? {
      MutateKeeps(db, o, seen.value, if o in db.mutations then db.mutations[o].targets else {}, true, claim, now);
    }
  }

  lemma FileExecutionKeepsInv(db: Db, o: string, seen: Option<Mutation>, hashes: seq<string>, registered: set<string>,
                              claim: Option<Gen>, now: int)
    requires Inv(db)
    ensures KeepsInv(ExecuteFiles(db, o, seen, hashes, registered, claim, now))
  {
    if seen.Some? {
      MutateKeeps(db.(contents := db.contents + registered), o, seen.value, (set h | h in hashes), false, claim, now);
    }
  }

  lemma MutationEventKeepsInv(db: Db, e: Event)
    requires Inv(db) && MutationEvent(e)
    ensures KeepsInv(Attempted(db, e))
  {
    match e
    case DoCreateMutation(o, opKind, total, maxPending, kind, tags, targetKind, targets, checkpoint, n, now) =>
      CreateMutationKeeps(db, o, opKind, total, maxPending, kind, tags, targetKind, targets, checkpoint, n, now);
    case DoExecuteQuery(o, seen, claim, now) => QueryExecutionKeepsInv(db, o, seen, claim, now);
    case DoExecuteFiles(o, seen, hashes, registered, claim, now) => FileExecutionKeepsInv(db, o, seen, hashes,
      registered, claim, now);
  }

  lemma OtherEventKeepsInv(db: Db, e: Event)
    requires Inv(db) && !TaskEvent(e) && !MutationEvent(e)
    ensures KeepsInv(Attempted(db, e))
  {
    match e
    case DoClear => ClearKeeps(db);
    case DoCreate(o, kind, visible, total) => CreateKeeps(db, o, kind, visible, total);
    case DoAdmit(o, kind, visible, total, maxPending) => CreateKeeps(db, o, kind, visible, total);
    case DoAssociate(producer, auxKind, aux) => AssociateKeeps(db, producer, auxKind, aux);
    case DoCancelUnattached(kind, hiddenOnly, rows, now) =>
      if Enumerates(rows, Unattached(db, kind, hiddenOnly)) { CancelUnattachedKeeps(db, kind, hiddenOnly, rows, now); }
    case LibraryChanges(contents, contentTags) =>
    case _ => if InsertsTask(e) { InsertEventKeepsInv(db, e); } else { RowEventKeepsInv(db, e); }
  }

  lemma InsertEventKeepsInv(db: Db, e: Event)
    requires Inv(db) && InsertsTask(e)
    ensures KeepsInv(Attempted(db, e))
  {
    match e
    case DoEnqueue(n, now) => EnqueueKeeps(db, n, now, {});
    case DoAttachAndReveal(o, checkpoint, n, now) => AttachAndRevealKeeps(db, o, checkpoint, n, now);
    case DoAttachChild(o, checkpoint, n, now) => AttachChildKeeps(db, o, checkpoint, n, now);
  }

  lemma RowEventKeepsInv(db: Db, e: Event)
    requires Inv(db) && (e.DoCheckpoint? || e.DoSetResult? || e.DoSetVisible? || e.DoClaimProducer?)
    ensures KeepsInv(Attempted(db, e))
  {
    if Attempted(db, e).Ok? {
      match e
      case DoCheckpoint(o, checkpoint) => SetCheckpointKeeps(db, o, checkpoint);
      case DoSetResult(o, result) => SetResultKeeps(db, o, result);
      case DoSetVisible(o, visible) => SetVisibleKeeps(db, o, visible);
      case DoClaimProducer(o) => ClaimProducerKeeps(db, o);
    }
  }

  /** No transaction, whatever its arguments and clock, leaves the invariant or meets a defensive error. */
  lemma StepKeepsInv(db: Db, e: Event)
    requires Inv(db)
    ensures Inv(Apply(db, e)) && KeepsInv(Attempted(db, e))
    ensures TaskEvent(e) ==> Attempted(db, e) != Err(MissingRow)
  {
    if TaskEvent(e) { TaskEventKeepsInv(db, e); }
    else if MutationEvent(e) { MutationEventKeepsInv(db, e); }
    else { OtherEventKeepsInv(db, e); }
  }

  lemma {:induction false} ReachableInv(run: seq<Event>)
    ensures Inv(After(run))
    decreases |run|
  {
    if run == [] {
      EmptyInv();
    } else {
      ReachableInv(run[..|run| - 1]);
      StepKeepsInv(After(run[..|run| - 1]), run[|run| - 1]);
    }
  }

  /** The errors that guard against an incoherent queue never occur in any run: an attempt row always
      matches its task, every running task has a lease expiry, and a task's parent always exists. */
  lemma DefensiveErrorsUnreachable(run: seq<Event>, e: Event)
    ensures var r := Attempted(After(run), e);
      r.Err? ==> r.error !in {AttemptMismatch, MissingLease} && (TaskEvent(e) ==> r.error != MissingRow)
  {
    ReachableInv(run);
    StepKeepsInv(After(run), e);
  }
}
