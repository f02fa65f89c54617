/** Exactly-once tag mutations: over every run with crashes, lease expiry, reclaim, cancellation and stale
    handlers, a mutation's tag changes commit at most once, in the same transaction that writes its result
    and completes the claim generation that ran it. */
module QueueMutations {
  import opened Basics
  import opened QueueModel
  import opened QueueSpec
  import opened QueueInvariant
  import opened QueueTransactions
  import opened QueueRuns
  import opened QueueHistory
  import opened QueueGuarantees

  predicate Executes(e: Event) { e.DoExecuteQuery? || e.DoExecuteFiles? }

  /** The contents an execution edits: the frozen hashes, or the analysed files' present hashes. */
  function TargetsOf(db: Db, e: Event): set<string>
    requires Executes(e)
  {
    match e
    case DoExecuteQuery(o, _, _, _) => if o in db.mutations then db.mutations[o].targets else {}
    case DoExecuteFiles(_, _, hashes, _, _, _) => set h | h in hashes
  }

  ghost predicate Commits(db: Db, e: Event, o: string) {
    Executes(e) && e.op == o && Attempted(db, e).Ok?
  }

  // ---------------------------------------------------------------- one execution

  /** The claim's task, its attempt and its worker are finished by the very transaction. */
  ghost predicate ClosesGeneration(db: Db, d: Db, g: Gen, now: int) {
    && HoldsGen(db, g, now) && g in db.attempts && db.attempts[g].outcome.InProgress?
    && g.task in d.tasks && d.tasks[g.task].status.Completed? && g in d.attempts && d.attempts[g].outcome.Succeeded?
  }

  ghost predicate SameResults(a: Ops, b: Ops) {
    forall o | o in a :: o in b && b[o].result == a[o].result
  }

  lemma StatusKeepsResults(base: Ops, db: Db, o: string, row: Operation, at: int)
    requires SameResults(base, db.ops) && o in db.ops && row.result == db.ops[o].result
    ensures SameResults(base, UpdateStatus(db, o, row, at).ops)
  {
  }

  lemma RecordKeepsResults(db: Db, op: Option<string>, now: int, completedDelta: nat, failedDelta: nat)
    requires RecordTerminal(db, op, now, completedDelta, failedDelta).Ok?
    ensures SameResults(db.ops, RecordTerminal(db, op, now, completedDelta, failedDelta).value.ops)
  {
    if op.Some? {
      var o := op.value;
      var row := db.ops[o].(completed := db.ops[o].completed + completedDelta,
        failed := db.ops[o].failed + failedDelta);
      var counted := db.(ops := db.ops[o := row]);
      if Finishes(counted, o) { StatusKeepsResults(db.ops, counted, o, FinishedRow(counted, o, now), now); }
    }
  }

  lemma CompletionCloses(db: Db, g: Gen, now: int)
    requires Inv(db) && CompleteByGeneration(db, g, now).Ok?
    ensures var d := CompleteByGeneration(db, g, now).value;
      && ClosesGeneration(db, d, g, now)
      && SameResults(db.ops, d.ops)
  {
    OpenAttempt(db, g.task);
    var row := EndedRow(db.tasks[g.task], Completed, now, "");
    EndStep(db, g.task, row, Succeeded, now, "", 1, 0);
    RecordKeepsResults(EndAttempt(db, g.task, row, Succeeded, now, ""), row.op, now, 1, 0);
  }

  /** The whole effect of a successful execution. */
  ghost predicate Effect(db: Db, d: Db, o: string, seen: Mutation, targets: set<string>, claim: Option<Gen>, now: int) {
    && o in db.mutations && db.mutations[o].affected.None?
    && o in d.mutations && d.mutations[o].affected.Some?
      && d.mutations[o] == db.mutations[o].(affected := d.mutations[o].affected)
    && d.contentTags == Retagged(db.contentTags, seen, targets)
    && o in db.ops && Active(db.ops[o].status) && o in d.ops && d.ops[o].result == MUTATION_RESULT
    && (claim.Some? ==> ClosesGeneration(db, d, claim.value, now))
  }

  lemma MutateHasEffect(db: Db, o: string, seen: Mutation, targets: set<string>, byQuery: bool, claim: Option<Gen>,
      now: int)
    requires Inv(db) && Mutate(db, o, seen, targets, byQuery, claim, now).Ok?
    ensures Effect(db, Mutate(db, o, seen, targets, byQuery, claim, now).value, o, seen, targets, claim, now)
  {
    MutateStep(db, o, seen, targets, byQuery, claim, now);
    var applied := Applied(db, o, seen, targets, byQuery);
    if claim.Some? {
      CompletionCloses(applied, claim.value, now);
      CompleteByGenerationStep(applied, claim.value, now);
    }
  }

  /** An execution does all of it or leaves no trace. */
  lemma ExecutionIsAllOrNothing(run: seq<Event>, e: Event)
    requires Executes(e)
    ensures var db := After(run); var d := Apply(db, e);
      if Attempted(db, e).Ok? then e.seen.Some? && Effect(db, d, e.op, e.seen.value, TargetsOf(db, e), e.claim, e.now)
      else d == db
  {
    var db := After(run);
    ReachableInv(run);
    if Attempted(db, e).Ok? {
      match e
      case DoExecuteQuery(o, seen, claim, now) => MutateHasEffect(db, o, seen.value, TargetsOf(db, e), true, claim,
        now);
      case DoExecuteFiles(o, seen, hashes, registered, claim, now) =>
        MutateHasEffect(db.(contents := db.contents + registered), o, seen.value, TargetsOf(db, e), false, claim, now);
    }
  }

  /** A handler whose generation lost its lease, was canceled, recovered or reclaimed leaves no trace. */
  lemma StaleHandlerLeavesNoTrace(db: Db, e: Event)
    requires Executes(e) && e.claim.Some? && !HoldsGen(db, e.claim.value, e.now)
    ensures Apply(db, e) == db
  {
  }

  // ---------------------------------------------------------------- nothing else touches a mutation

  /** Mutation rows keep their value, the tags of the library theirs, and no attempt begins. */
  ghost predicate Untouched(db: Db, d: Db) {
    d.contentTags == db.contentTags && d.mutations == db.mutations && d.attempts.Keys <= db.attempts.Keys
  }

  lemma FailTouchesNothing(db: Db, t: string, worker: string, now: int, retryAt: Option<int>, code: string)
    requires Inv(db) && Fail(db, t, worker, now, retryAt, code).Ok?
    ensures Untouched(db, Fail(db, t, worker, now, retryAt, code).value)
  {
    OpenAttempt(db, t);
    assert TaskOk(db.tasks[t]);
    var row := RetriedRow(db.tasks[t], now, Coalesce(retryAt, now), code);
    if row.status.Failed? {
      ActiveParent(db, t);
      ExhaustStep(db.ops, EndAttempt(db, t, row, Errored, now, code), t, now);
    }
  }

  lemma RecoverTouchesNothing(db: Db, rows: seq<string>, now: int)
    requires Inv(db) && Enumerates(rows, ExpiredTasks(db, now)) && Recover(db, rows, now).Ok?
    ensures Untouched(db, Recover(db, rows, now).value)
  {
    var d := Requeue(db, now);
    forall t | t in rows ensures t in d.tasks && OpenParent(db, d.tasks[t].op) { ActiveParent(db, t); }
    ExhaustAllStep(db.ops, d, rows, now);
  }

  lemma CancelTaskTouchesNothing(db: Db, t: string, now: int)
    requires Inv(db) && CancelTask(db, t, now).Ok?
    ensures Untouched(db, CancelTask(db, t, now).value)
  {
    ActiveParent(db, t);
    var row := EndedRow(db.tasks[t], Canceled, now, "");
    var g := CurrentGen(db, t);
    RecordStep(db.ops, db.(tasks := db.tasks[t := row],
                 attempts := if row.attemptCount > 0 && g in db.attempts && db.attempts[g].outcome.InProgress?
                             then db.attempts[g := ClosedAttempt(db.attempts[g], Revoked, now, "")]
                               else db.attempts), row.op, now, 0, 0);
  }

  lemma TerminateTouchesNothing(db: Db, o: string, row: Operation, now: int, code: string, cleanup: Option<NewTask>)
    requires Inv(db) && Cancelable(db, o) && row.status in {Canceled, Failed} && Stamped(row)
    requires SameCounters(row, db.ops[o]) && row.kind == db.ops[o].kind && (cleanup.Some? ==> cleanup.value.op.None?)
    requires Terminate(UpdateStatus(db, o, row, now), o, now, code, cleanup).Ok?
    ensures Untouched(db, Terminate(UpdateStatus(db, o, row, now), o, now, code, cleanup).value)
  {
    var closed := UpdateStatus(db, o, row, now);
    CloseOperation(db, o, row, now);
    UpdateStatusStep(db.ops, db, o, row, now);
    TerminateOutcome(closed, o, now, code, cleanup);
    if cleanup.Some? {
      EnqueueStep(RevokeChildren(closed, o, now, code), Delayed(cleanup.value, now, MaxOf(Leases(closed.tasks, o))),
        now);
    }
  }

  lemma TaskEventTouchesNothing(db: Db, e: Event)
    requires Inv(db) && TaskEvent(e) && !e.DoClaim? && Attempted(db, e).Ok?
    ensures Untouched(db, Apply(db, e))
  {
    if EndsAttempts(e) { EndTouchesNothing(db, e); }
    else if Terminates(e) { TerminationTouchesNothing(db, e); }
  }

  lemma EndTouchesNothing(db: Db, e: Event)
    requires Inv(db) && EndsAttempts(e) && Attempted(db, e).Ok?
    ensures Untouched(db, Apply(db, e))
  {
    match e
    case DoCompleteByWorker(t, worker, now) =>
      OpenAttempt(db, t);
      EndStep(db, t, EndedRow(db.tasks[t], Completed, now, ""), Succeeded, now, "", 1, 0);
    case DoCompleteByGeneration(g, now) => CompleteByGenerationStep(db, g, now);
    case DoFail(t, worker, now, retryAt, code) => FailTouchesNothing(db, t, worker, now, retryAt, code);
    case DoRecover(rows, now) => RecoverTouchesNothing(db, rows, now);
  }

  lemma TerminationTouchesNothing(db: Db, e: Event)
    requires Inv(db) && Terminates(e) && Attempted(db, e).Ok?
    ensures Untouched(db, Apply(db, e))
  {
    match e
    case DoCancelTask(t, now) => CancelTaskTouchesNothing(db, t, now);
    case DoCancelOperation(o, now, cleanup) =>
      TerminateTouchesNothing(db, o, CanceledRow(db.ops[o], now), now, "", cleanup);
    case DoFailOperation(o, now, code, cleanup) =>
      TerminateTouchesNothing(db, o, FailedRow(db.ops[o], now, code), now, code,
        if |Children(db.tasks, o)| > 0 then cleanup else None);
  }

  lemma ManagementTouchesNothing(db: Db, e: Event)
    requires Inv(db) && !TaskEvent(e) && !Executes(e) && !e.DoCreateMutation? && !e.LibraryChanges?
      && Attempted(db, e).Ok?
    ensures var d := Apply(db, e); d.contentTags == db.contentTags && d.attempts.Keys <= db.attempts.Keys
    ensures forall o | o in Apply(db, e).mutations :: o in db.mutations && Apply(db, e).mutations[o] == db.mutations[o]
  {
    if InsertsTask(e) { InsertionTouchesNothing(db, e); }
    else if e.DoCancelUnattached? { InterruptAllStep(db.ops, db, e.rows, e.now); }
  }

  lemma InsertionTouchesNothing(db: Db, e: Event)
    requires Inv(db) && InsertsTask(e) && Attempted(db, e).Ok?
    ensures var d := Apply(db, e);
      d.contentTags == db.contentTags && d.attempts.Keys <= db.attempts.Keys && d.mutations == db.mutations
  {
    match e
    case DoEnqueue(n, now) => EnqueueStep(db, n, now);
    case DoAttachAndReveal(o, checkpoint, n, now) => AttachStep(db, o, checkpoint, n, now);
    case DoAttachChild(o, checkpoint, n, now) => AttachChildStep(db, o, checkpoint, n, now);
  }

  /** Which changes to tags, mutation rows and attempts are due to which kind of event. */
  ghost predicate Attributed(db: Db, d: Db, e: Event) {
    && (!Executes(e) && !e.LibraryChanges? ==> d.contentTags == db.contentTags)
    && (!e.DoClaim? ==> d.attempts.Keys <= db.attempts.Keys)
    && (forall o | o in db.mutations && o in d.mutations && d.mutations[o] != db.mutations[o] ::
      Executes(e) && e.op == o)
    && (forall o | o !in db.mutations && o in d.mutations ::
      e.DoCreateMutation? && e.op == o && d.mutations[o].affected.None?)
  }

  lemma MutationEventAttributed(db: Db, e: Event)
    requires Inv(db) && MutationEvent(e) && Attempted(db, e).Ok?
    ensures Attributed(db, Attempted(db, e).value, e)
  {
    match e
    case DoCreateMutation(o, opKind, total, maxPending, kind, tags, targetKind, targets, checkpoint, n, now) =>
      CreateMutationStep(db, o, opKind, total, maxPending, kind, tags, targetKind, targets, checkpoint, n, now);
    case DoExecuteQuery(o, seen, claim, now) => OnlyOneMutation(db, o, seen.value, TargetsOf(db, e), true, claim, now);
    case DoExecuteFiles(o, seen, hashes, registered, claim, now) =>
      OnlyOneMutation(db.(contents := db.contents + registered), o, seen.value, TargetsOf(db, e), false, claim, now);
  }

  /** Only an execution of its own operation changes a mutation row that stays, only a creation adds one, only
      executions and edits from outside the queue change the library's tags, and only a claim begins an attempt. */
  lemma OnlyExecutionsChangeTags(db: Db, e: Event)
    requires Inv(db)
    ensures Attributed(db, Apply(db, e), e) && (Apply(db, e) != db ==> Attempted(db, e).Ok?)
  {
    if Attempted(db, e).Ok? {
      if MutationEvent(e) { MutationEventAttributed(db, e); }
      else if e.DoClaim? { ClaimAttributed(db, e.task, e.pool, e.worker, e.now, e.lease); }
      else if TaskEvent(e) { TaskEventTouchesNothing(db, e); }
      else if !e.LibraryChanges? { ManagementTouchesNothing(db, e); }
    }
  }

  lemma ClaimAttributed(db: Db, t: string, pool: string, worker: string, now: int, lease: int)
    requires Claim(db, t, pool, worker, now, lease).Ok?
    ensures var d := Claim(db, t, pool, worker, now, lease).value;
      && d.contentTags == db.contentTags
      && d.mutations == db.mutations
  {
  }

  lemma OnlyOneMutation(db: Db, o: string, seen: Mutation, targets: set<string>, byQuery: bool, claim: Option<Gen>,
      now: int)
    requires Inv(db) && Mutate(db, o, seen, targets, byQuery, claim, now).Ok?
    ensures var d := Mutate(db, o, seen, targets, byQuery, claim, now).value;
      && d.attempts.Keys <= db.attempts.Keys
      && o in db.mutations && d.mutations.Keys == db.mutations.Keys
        && forall p | p in db.mutations && p != o :: d.mutations[p] == db.mutations[p]
  {
    MutateStep(db, o, seen, targets, byQuery, claim, now);
    if claim.Some? { CompleteByGenerationStep(Applied(db, o, seen, targets, byQuery), claim.value, now); }
  }

  // ---------------------------------------------------------------- over whole runs

  ghost function CommitsIn(run: seq<Event>, o: string): nat
    decreases |run|
  {
    if run == [] then 0
    else CommitsIn(run[..|run| - 1], o) + (if Commits(After(run[..|run| - 1]), run[|run| - 1], o) then 1 else 0)
  }

  ghost function CreationsIn(run: seq<Event>, o: string): nat
    decreases |run|
  {
    if run == [] then 0
    else CreationsIn(run[..|run| - 1], o)
         + (if run[|run| - 1].DoCreateMutation? && run[|run| - 1].op == o
           && Attempted(After(run[..|run| - 1]), run[|run| - 1]).Ok? then 1 else 0)
  }

  /** In every run, however often an id is used again after its rows were cleared, there are no more commits than
      creations, and fewer while a mutation waits for its result. */
  lemma {:induction false} NoMoreCommitsThanCreations(run: seq<Event>, o: string)
    ensures CommitsIn(run, o) <= CreationsIn(run, o)
    ensures o in After(run).mutations && After(run).mutations[o].affected.None? ==>
      CommitsIn(run, o) < CreationsIn(run, o)
    decreases |run|
  {
    if run != [] {
      var before, e := run[..|run| - 1], run[|run| - 1];
      NoMoreCommitsThanCreations(before, o);
      ReachableInv(before);
      OnlyExecutionsChangeTags(After(before), e);
      if Commits(After(before), e, o) { ExecutionIsAllOrNothing(before, e); }
    }
  }

  /** Operation ids are random: at most one mutation is ever created under an id. Then its tag changes commit
      at most once, and while its row exists they have committed exactly when its result is set. */
  lemma {:induction false} ExactlyOnce(run: seq<Event>, o: string)
    requires CreationsIn(run, o) <= 1
    ensures CommitsIn(run, o) <= CreationsIn(run, o)
    ensures o in After(run).mutations ==> CreationsIn(run, o) == 1
    ensures o in After(run).mutations ==> (CommitsIn(run, o) == 1 <==> After(run).mutations[o].affected.Some?)
    decreases |run|
  {
    if run != [] {
      var before, e := run[..|run| - 1], run[|run| - 1];
      ExactlyOnce(before, o);
      ReachableInv(before);
      var db := After(before);
      OnlyExecutionsChangeTags(db, e);
      if Commits(db, e, o) {
        ExecutionIsAllOrNothing(before, e);
      } else if o !in db.mutations && o in After(run).mutations {
        assert Attempted(db, e).Ok?;
        CreatedOnce(before, e, o);
      }
    }
  }

  /** The first creation of a mutation finds no earlier commit under its id. */
  lemma CreatedOnce(before: seq<Event>, e: Event, o: string)
    requires CreationsIn(before, o) + 1 <= 1 && CommitsIn(before, o) <= CreationsIn(before, o)
    ensures CommitsIn(before, o) == 0
  {
  }

  ghost predicate CommitAt(run: seq<Event>, k: nat, o: string) {
    k < |run| && Commits(After(run[..k]), run[k], o)
  }

  ghost function Marks(run: seq<Event>, o: string): seq<bool> {
    seq(|run|, k requires 0 <= k < |run| => CommitAt(run, k, o))
  }

  function Ones(s: seq<bool>): nat {
    if s == [] then 0 else Ones(s[..|s| - 1]) + if s[|s| - 1] then 1 else 0
  }

  lemma {:induction false} NoOnes(s: seq<bool>)
    ensures Ones(s) == 0 <==> forall j | 0 <= j < |s| :: !s[j]
    decreases |s|
  {
    if s != [] {
      var last := |s| - 1;
      NoOnes(s[..last]);
      assert (forall j | 0 <= j < |s| :: !s[j]) <==> !s[last] && forall j | 0 <= j < last :: !s[..last][j];
    }
  }

  lemma {:induction false} OneOne(s: seq<bool>) returns (k: nat)
    requires Ones(s) == 1
    ensures k < |s| && s[k] && forall j | 0 <= j < |s| && s[j] :: j == k
    decreases |s|
  {
    var last := |s| - 1;
    if s[last] {
      NoOnes(s[..last]);
      assert forall j | 0 <= j < last :: !s[..last][j];
      k := last;
    } else {
      k := OneOne(s[..last]);
      assert forall j | 0 <= j < last && s[j] :: s[..last][j];
    }
  }

  lemma {:induction false} CommitsAreMarks(run: seq<Event>, o: string)
    ensures CommitsIn(run, o) == Ones(Marks(run, o))
    decreases |run|
  {
    if run != [] {
      var before, last := run[..|run| - 1], |run| - 1;
      CommitsAreMarks(before, o);
      forall j | 0 <= j < last ensures CommitAt(run, j, o) <==> CommitAt(before, j, o) {
        assert before[..j] == run[..j];
      }
      assert Marks(run, o)[..last] == Marks(before, o);
    }
  }

  /** The rows of a generation are not cleared between two points of a run. */
  ghost predicate KeptSince(run: seq<Event>, k: nat, g: Gen) {
    forall j {:trigger run[..j]} | k < j <= |run| :: g in After(run[..j]).attempts && g.task in After(run[..j]).tasks
  }

  ghost predicate Done(db: Db, g: Gen) {
    g in db.attempts && db.attempts[g].outcome.Succeeded? && g.task in db.tasks && db.tasks[g.task].status.Completed?
  }

  /** The generation that a commit closed stays closed and its task completed. */
  lemma {:induction false} CommittedGenerationIsDone(run: seq<Event>, k: nat, o: string)
    requires CommitAt(run, k, o) && run[k].claim.Some? && KeptSince(run, k, run[k].claim.value)
    ensures Done(After(run), run[k].claim.value)
    decreases |run|
  {
    var g, before := run[k].claim.value, run[..|run| - 1];
    ReachableInv(before);
    assert run[..|run|] == run;
    if k == |run| - 1 {
      ExecutionIsAllOrNothing(before, run[k]);
    } else {
      assert before[..k] == run[..k];
      forall j | k < j <= |before| ensures g in After(before[..j]).attempts && g.task in After(before[..j]).tasks {
        assert before[..j] == run[..j];
      }
      CommittedGenerationIsDone(before, k, o);
      EveryEventIsStep(After(before), run[|run| - 1]);
      assert AttemptStep(After(before).attempts[g], After(run).attempts[g]);
      assert TaskStep(After(before).tasks[g.task], After(run).tasks[g.task]);
    }
  }

  /** A mutation has its result exactly when the run has a committing event; that event is the only one, and if it
      carried a claim, the task was completed by the same claim generation, for as long as the rows are kept. */
  lemma ResultMeansOneCommit(run: seq<Event>, o: string)
    requires CreationsIn(run, o) <= 1 && o in After(run).mutations
    ensures After(run).mutations[o].affected.Some? <==> exists k | 0 <= k < |run| :: CommitAt(run, k, o)
    ensures forall j, k | 0 <= j < |run| && 0 <= k < |run| && CommitAt(run, j, o) && CommitAt(run, k, o) :: j == k
    ensures forall k | 0 <= k < |run| && CommitAt(run, k, o) && run[k].claim.Some?
      && KeptSince(run, k, run[k].claim.value) ::
      Done(After(run), run[k].claim.value)
  {
    ExactlyOnce(run, o);
    CommitsAreMarks(run, o);
    NoOnes(Marks(run, o));
    if CommitsIn(run, o) == 1 { var only := OneOne(Marks(run, o)); }
    assert forall k | 0 <= k < |run| :: Marks(run, o)[k] == CommitAt(run, k, o);
    forall k | 0 <= k < |run| && CommitAt(run, k, o) && run[k].claim.Some? && KeptSince(run, k, run[k].claim.value)
      ensures Done(After(run), run[k].claim.value) {
      CommittedGenerationIsDone(run, k, o);
    }
  }

  /** For as long as a mutation keeps its row, only its result may change, from missing to present. */
  lemma {:induction false} DescriptionIsFrozen(run: seq<Event>, more: seq<Event>, o: string)
    requires forall k {:trigger more[..k]} | 0 <= k <= |more| :: o in After(run + more[..k]).mutations
    ensures o in After(run).mutations && o in After(run + more).mutations
    ensures var a, b := After(run).mutations[o], After(run + more).mutations[o]; MutationStep(a, b)
    decreases |more|
  {
    assert more[..|more|] == more && more[..0] == [] && run + [] == run;
    if more != [] {
      var before := more[..|more| - 1];
      forall k | 0 <= k <= |before| ensures o in After(run + before[..k]).mutations { assert before[..k] == more[..k]; }
      DescriptionIsFrozen(run, before, o);
      LastStep(run, more);
      assert MutationStep(After(run + before).mutations[o], After(run + more).mutations[o]);
    }
  }

  /** The row of a mutation is not cleared between two points of a run. */
  ghost predicate RowKept(run: seq<Event>, from: nat, upTo: nat, o: string)
    requires upTo <= |run|
  {
    forall h {:trigger run[..h]} | from <= h <= upTo :: o in After(run[..h]).mutations
  }

  lemma FrozenBetween(run: seq<Event>, j: nat, k: nat, o: string)
    requires j <= k <= |run| && RowKept(run, j, k, o)
    ensures o in After(run[..j]).mutations && o in After(run[..k]).mutations
    ensures MutationStep(After(run[..j]).mutations[o], After(run[..k]).mutations[o])
  {
    var more := run[j..k];
    assert run[..j] + more == run[..k];
    forall h | 0 <= h <= |more| ensures o in After(run[..j] + more[..h]).mutations {
      assert run[..j] + more[..h] == run[..j + h];
    }
    DescriptionIsFrozen(run[..j], more, o);
  }

  /** A handler reads the row at one point of the run and executes at a later one. If the execution commits, what it
      read is still what the row says, and the tags are changed as the row says. */
  lemma CommitAppliesTheRow(run: seq<Event>, j: nat, k: nat, o: string)
    requires j <= k < |run| && RowKept(run, j, k, o) && CommitAt(run, k, o)
    requires run[k].seen == Some(After(run[..j]).mutations[o])
    ensures o in After(run[..k]).mutations && run[k].seen == Some(After(run[..k]).mutations[o])
    ensures var db := After(run[..k]);
      After(run[..k + 1]).contentTags == Retagged(db.contentTags, db.mutations[o], TargetsOf(db, run[k]))
  {
    FrozenBetween(run, j, k, o);
    ExecutionIsAllOrNothing(run[..k], run[k]);
    assert run[..k + 1][..k] == run[..k];
  }

  /** From creation to commit: an execution that read the row at any point since changes exactly what the mutation was
      created for, and the content-hash executor on exactly the targets it was created with. */
  lemma CommitAppliesCreation(run: seq<Event>, i: nat, j: nat, k: nat, o: string)
    requires i < j <= k < |run| && RowKept(run, i + 1, k, o) && CommitAt(run, k, o)
    requires run[i].DoCreateMutation? && run[i].op == o && Attempted(After(run[..i]), run[i]).Ok?
    requires run[k].seen == Some(After(run[..j]).mutations[o])
    ensures var c, db := run[i], After(run[..k]);
      var m := Mutation(c.change, c.tags, c.targetKind, c.targets, |c.targets|, None);
      && run[k].seen == Some(m)
      && After(run[..k + 1]).contentTags == Retagged(db.contentTags, m, TargetsOf(db, run[k]))
      && (run[k].DoExecuteQuery? ==> TargetsOf(db, run[k]) == c.targets)
  {
    CommitAppliesTheRow(run, j, k, o);
    FrozenBetween(run, i + 1, k, o);
    CreatedRow(run, i, o);
    ExecutionIsAllOrNothing(run[..k], run[k]);
  }

  lemma CreatedRow(run: seq<Event>, i: nat, o: string)
    requires i < |run| && run[i].DoCreateMutation? && run[i].op == o && Attempted(After(run[..i]), run[i]).Ok?
    ensures var c, d := run[i], After(run[..i + 1]);
      o in d.mutations && d.mutations[o] == Mutation(c.change, c.tags, c.targetKind, c.targets, |c.targets|, None)
  {
    assert run[..i + 1][..i] == run[..i];
    var c := run[i];
    CreateMutationStep(After(run[..i]), o, c.opKind, c.total, c.maxPending, c.change, c.tags, c.targetKind, c.targets,
      c.checkpoint, c.n, c.now);
  }

  /** What a mutation does is what its kind says: set replaces the tags of the targets, add and remove touch
      exactly the given pairs, and no other content's tags change. */
  lemma RetaggingMeans(contentTags: set<(string, string)>, m: Mutation, targets: set<string>, hash: string, tag: string)
    ensures (hash, tag) in Retagged(contentTags, m, targets) <==>
      if hash !in targets then (hash, tag) in contentTags
      else if m.kind.SetTags? || (m.kind.RemoveTags? && m.tags == {}) then tag in m.tags
      else if m.kind.AddTags? then (hash, tag) in contentTags || tag in m.tags
      else (hash, tag) in contentTags && tag !in m.tags
  {
  }

  /** Adding and removing report exactly the pairs that changed. Replacing by files reports these and twice the pairs
      that were there and stay, so the number of changes only when no target keeps a tag; by query it reports the
      number of files that were matched. */
  lemma AffectedPairs(contentTags: set<(string, string)>, m: Mutation, targets: set<string>, byQuery: bool)
    ensures var after := Retagged(contentTags, m, targets);
      AffectedCount(contentTags, m, targets, byQuery) ==
      match EffectiveKind(m)
      case AddTags => |after - contentTags|
      case RemoveTags => |contentTags - after|
      case SetTags =>
        if byQuery then m.matched
        else |after - contentTags| + |contentTags - after| + 2 * |TagsOf(contentTags, targets) * Pairs(targets, m.tags)|
  {
    var pairs, had := Pairs(targets, m.tags), TagsOf(contentTags, targets);
    assert (contentTags + pairs) - contentTags == pairs - contentTags;
    assert contentTags - (contentTags - pairs) == pairs * contentTags;
    assert contentTags - ((contentTags - had) + pairs) == had - pairs;
    assert ((contentTags - had) + pairs) - contentTags == pairs - had;
    assert (had - pairs) + (had * pairs) == had && (pairs - had) + (had * pairs) == pairs;
  }
}
