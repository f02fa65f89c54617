/** What the queue promises its users, in every reachable state: when an operation finishes and as what, that results
    are safe from late cancellation, when compensation runs, and exactly when a lease recovery can succeed. */
module QueueGuarantees {
  import opened Basics
  import opened QueueModel
  import opened QueueSpec
  import opened QueueInvariant
  import opened QueueTransactions
  import opened QueueRuns
  import opened QueueHistory
  import opened QueueRules

  // ---------------------------------------------------------------- aggregate status

  /** The counters kept incrementally are the counts a full scan of the children would give. */
  lemma CountersAreRecounts(run: seq<Event>, o: string)
    requires o in After(run).ops
    ensures var db := After(run);
      && db.ops[o].completed == |InState(db.tasks, o, Completed)|
      && db.ops[o].failed == |InState(db.tasks, o, Failed)|
      && db.ops[o].attached == |Children(db.tasks, o)|
      && (db.ops[o].total > 0 ==> db.ops[o].attached <= db.ops[o].total)
  {
    var db := After(run);
    ReachableInv(run);
    assert CountOk(db.tasks, db.ops[o], {}, o);
    assert Counted(db.tasks, {}, o, Completed) == InState(db.tasks, o, Completed);
    assert Counted(db.tasks, {}, o, Failed) == InState(db.tasks, o, Failed);
  }

  /** The status a rescan of terminal children gives. */
  ghost function Rescanned(tasks: Tasks, o: string): Status {
    if exists t | t in tasks :: tasks[t].op == Some(o) && tasks[t].status.Failed? then Failed
    else if exists t | t in tasks :: tasks[t].op == Some(o) && tasks[t].status.Canceled? then Canceled
    else Completed
  }

  /** Every child is terminal, all declared work is attached and no producer can add more. */
  ghost predicate Drained(db: Db, o: string)
    requires o in db.ops
  {
    && (forall t | t in db.tasks && db.tasks[t].op == Some(o) :: !Active(db.tasks[t].status))
    && |Children(db.tasks, o)| >= db.ops[o].total
    && !ProducerActive(db.ops, db.links, o)
  }

  lemma RescannedBySize(tasks: Tasks, o: string)
    ensures Rescanned(tasks, o) == if |InState(tasks, o, Failed)| > 0 then Failed
      else if |InState(tasks, o, Canceled)| > 0 then Canceled else Completed
  {
    var f, c := InState(tasks, o, Failed), InState(tasks, o, Canceled);
    if t :| t in tasks && tasks[t].op == Some(o) && tasks[t].status.Failed? { assert t in f; }
    if t :| t in tasks && tasks[t].op == Some(o) && tasks[t].status.Canceled? { assert t in c; }
    if |f| > 0 { var t :| t in f; }
    if |c| > 0 { var t :| t in c; }
  }

  lemma CountedLast(tasks: Tasks, row: Operation, t: string, o: string)
    requires CountOk(tasks, row, {t}, o) && t in tasks && tasks[t].op == Some(o)
    ensures CountOk(tasks, CountedRow(row, tasks[t]), {}, o)
  {
    CountedStep(tasks, {t}, t, o, Completed);
    CountedStep(tasks, {t}, t, o, Failed);
    assert {t} - {t} == {};
  }

  /** A status statement that ends an operation sets exactly the given row. */
  lemma TerminalRow(db: Db, o: string, row: Operation, at: int)
    requires o in db.ops && !Active(row.status)
    ensures var d := UpdateStatus(db, o, row, at);
      && o in d.ops && d.ops[o] == row && d.tasks == db.tasks
      && d.attempts == db.attempts
  {
  }

  lemma FinishOutcome(db: Db, o: string, now: int)
    requires o in db.ops && CountOk(db.tasks, db.ops[o], {}, o)
    ensures var d := FinishIfDrained(db, o, now);
      && o in d.ops && SameCounters(d.ops[o], db.ops[o])
      && (if Finishes(db, o) then d.ops[o].status == Rescanned(db.tasks, o) && d.ops[o].finishedAt == Some(now)
          else d.ops[o] == db.ops[o])
  {
    if Finishes(db, o) {
      CountedIsInState(db.tasks, o);
      RescannedBySize(db.tasks, o);
      TerminalRow(db, o, FinishedRow(db, o, now), now);
    }
  }

  /** Counting the end of the last uncounted child finishes the operation exactly when it is drained, with
      the status a rescan would give; otherwise the status stays what it was. */
  lemma BookkeepingIsRescan(db: Db, t: string, o: string, now: int)
    requires Lagging(db, {t}) && db.tasks[t].op == Some(o)
    ensures o in db.ops
    ensures var r := RecordTerminal(db, Some(o), now, Delta(db.tasks[t], Completed), Delta(db.tasks[t], Failed));
      && r.Ok? && o in r.value.ops
      && r.value.ops[o].completed == |InState(db.tasks, o, Completed)|
        && r.value.ops[o].failed == |InState(db.tasks, o, Failed)|
      && (if Drained(db, o) then r.value.ops[o].status == Rescanned(db.tasks, o)
        && r.value.ops[o].finishedAt == Some(now)
          else r.value.ops[o].status == db.ops[o].status && r.value.ops[o].finishedAt == db.ops[o].finishedAt)
  {
    assert ParentOk(db.tasks[t], db.ops, {}) && CountOk(db.tasks, db.ops[o], {t}, o);
    CountedLast(db.tasks, db.ops[o], t, o);
    var row := CountedRow(db.ops[o], db.tasks[t]);
    CountedIsInState(db.tasks, o);
    FinishesWhenDrained(db, CountedDb(db, o, row), o);
    FinishOutcome(CountedDb(db, o, row), o, now);
    RecordsByFinishing(db, o, now, db.tasks[t]);
  }

  function CountedDb(db: Db, o: string, row: Operation): Db { db.(ops := db.ops[o := row]) }

  lemma RecordsByFinishing(db: Db, o: string, now: int, child: Task)
    requires o in db.ops
    ensures RecordTerminal(db, Some(o), now, Delta(child, Completed), Delta(child, Failed))
      == Ok(FinishIfDrained(CountedDb(db, o, CountedRow(db.ops[o], child)), o, now))
  {
  }

  lemma CountedIsInState(tasks: Tasks, o: string)
    ensures |Counted(tasks, {}, o, Completed)| == |InState(tasks, o, Completed)|
    ensures |Counted(tasks, {}, o, Failed)| == |InState(tasks, o, Failed)|
  {
    assert Counted(tasks, {}, o, Completed) == InState(tasks, o, Completed);
    assert Counted(tasks, {}, o, Failed) == InState(tasks, o, Failed);
  }

  lemma FinishesWhenDrained(db: Db, counted: Db, o: string)
    requires o in db.ops && counted == db.(ops := counted.ops) && o in counted.ops
    requires counted.ops == db.ops[o := counted.ops[o]] && counted.ops[o].status == db.ops[o].status
    requires counted.ops[o].total == db.ops[o].total && counted.ops[o].attached == db.ops[o].attached
    requires CountOk(db.tasks, counted.ops[o], {}, o)
    ensures Finishes(counted, o) <==> Drained(db, o)
  {
    CountersAddUp(db.tasks, counted.ops[o], {}, o);
    assert ProducerActive(counted.ops, counted.links, o) <==> ProducerActive(db.ops, db.links, o);
    assert HasActiveChild(db.tasks, o)
      <==> !(forall t | t in db.tasks && db.tasks[t].op == Some(o) :: !Active(db.tasks[t].status));
  }

  // ---------------------------------------------------------------- results and late cancellation

  /** Once an active operation holds a result, canceling it or failing its producer changes nothing. */
  lemma ResultBarrier(db: Db, o: string, now: int, code: string, cleanup: Option<NewTask>)
    requires o in db.ops && Active(db.ops[o].status) && db.ops[o].result != ""
    ensures Apply(db, DoCancelOperation(o, now, cleanup)) == db
      && Apply(db, DoFailOperation(o, now, code, cleanup)) == db
  {
  }

  /** Work that belongs to an operation: a child, or detached work about it. */
  predicate Concerns(row: Task, o: string) {
    if row.op.Some? then row.op.value == o else row.work.subjectKind == "operation" && row.work.subjectId == o
  }

  /** History clearing takes exactly the visible operations that are over and concern no active work, each with all the
      work it concerns, and nothing else. */
  lemma ClearingIsWhole(run: seq<Event>)
    ensures var db := After(run); var d := Clear(db);
      && d.ops.Keys <= db.ops.Keys && d.tasks.Keys <= db.tasks.Keys
      && (forall o | o in db.ops :: o !in d.ops <==>
        db.ops[o].visible && !Active(db.ops[o].status)
        && forall t | t in db.tasks && Concerns(db.tasks[t], o) :: !Active(db.tasks[t].status))
      && (forall t | t in db.tasks :: t !in d.tasks <==>
        exists o :: o in db.ops && o !in d.ops && Concerns(db.tasks[t], o))
      && (forall o | o in d.ops :: d.ops[o] == db.ops[o])
      && (forall t | t in d.tasks && d.tasks[t].op.Some? :: d.tasks[t].op.value in d.ops)
      && (forall t | t in db.tasks && t !in d.tasks :: !Active(db.tasks[t].status))
      && (forall t | t in d.tasks :: d.tasks[t] == db.tasks[t])
      && (forall g | g in db.attempts :: g in d.attempts <==> g.task in d.tasks)
  {
    ReachableInv(run);
    ClearTakes(After(run));
    ClearLeaves(After(run));
  }

  lemma ClearTakes(db: Db)
    requires Inv(db)
    ensures var d := Clear(db);
      && d.ops.Keys <= db.ops.Keys && d.tasks.Keys <= db.tasks.Keys
      && (forall o | o in db.ops :: o !in d.ops <==>
        db.ops[o].visible && !Active(db.ops[o].status)
        && forall t | t in db.tasks && Concerns(db.tasks[t], o) :: !Active(db.tasks[t].status))
      && (forall t | t in db.tasks :: t !in d.tasks <==>
        exists o :: o in db.ops && o !in d.ops && Concerns(db.tasks[t], o))
  {
    ClearedRows(db);
  }

  lemma ClearLeaves(db: Db)
    requires Inv(db)
    ensures var d := Clear(db);
      && (forall o | o in d.ops :: o in db.ops && d.ops[o] == db.ops[o])
      && (forall t | t in d.tasks && d.tasks[t].op.Some? :: d.tasks[t].op.value in d.ops)
      && (forall t | t in db.tasks && t !in d.tasks :: !Active(db.tasks[t].status))
      && (forall t | t in d.tasks :: t in db.tasks && d.tasks[t] == db.tasks[t])
      && (forall g | g in db.attempts :: g in d.attempts <==> g.task in d.tasks)
  {
    ClearedRows(db);
    ClearKeeps(db);
    var d := Clear(db);
    forall g | g in db.attempts ensures g in d.attempts <==> g.task in d.tasks {
      assert AttemptOk(db.tasks, db.attempts, g);
    }
    forall t | t in d.tasks && d.tasks[t].op.Some? ensures d.tasks[t].op.value in d.ops {
      assert ParentOk(d.tasks[t], d.ops, {});
    }
  }

  // ---------------------------------------------------------------- compensation

  /** The one task a winning cancellation or producer failure may add. It becomes available as soon as the time it asks
      for has come and every revoked lease would have expired. */
  ghost predicate Compensates(db: Db, d: Db, o: string, c: NewTask, now: int) {
    && c.id !in db.tasks && d.tasks.Keys == db.tasks.Keys + {c.id}
    && d.tasks[c.id].op.None? && d.tasks[c.id].status.Pending? && d.tasks[c.id].attemptCount == 0
    && DescribedBy(d.tasks[c.id], c.work)
    && d.tasks[c.id].availableAt >= now
    && (c.availableAt.Some? ==> d.tasks[c.id].availableAt >= c.availableAt.value)
    && (d.tasks[c.id].availableAt == now || c.availableAt == Some(d.tasks[c.id].availableAt)
        || exists t | t in InState(db.tasks, o, Running) ::
             db.tasks[t].leaseExpires == Some(d.tasks[c.id].availableAt))
    && (forall t | t in InState(db.tasks, o, Running) ::
          db.tasks[t].leaseExpires.Some? && db.tasks[t].leaseExpires.value <= d.tasks[c.id].availableAt)
  }

  predicate RevokedIn(attempts: map<Gen, Attempt>, g: Gen, now: int, code: string) {
    && g in attempts && attempts[g].outcome.Revoked?
    && attempts[g].finishedAt == Some(now) && attempts[g].errorCode == code
  }

  /** All work below the operation has stopped: active children are canceled, open attempts revoked. */
  ghost predicate Stopped(db: Db, d: Db, o: string, now: int, code: string) {
    && (forall t | t in db.tasks && db.tasks[t].op == Some(o) && Active(db.tasks[t].status) ::
          && t in d.tasks && d.tasks[t].status.Canceled? && d.tasks[t].finishedAt == Some(now)
          && d.tasks[t].errorCode == code
          && (db.tasks[t].status.Running? ==> RevokedIn(d.attempts, CurrentGen(db, t), now, code)))
    && (forall t | t in db.tasks && !(db.tasks[t].op == Some(o) && Active(db.tasks[t].status)) ::
      t in d.tasks && d.tasks[t] == db.tasks[t])
  }

  lemma RevokeStops(db: Db, closed: Db, o: string, now: int, code: string)
    requires TasksOk(db.tasks) && AttemptsOk(db.tasks, db.attempts)
    requires closed.tasks == db.tasks && closed.attempts == db.attempts
    ensures Stopped(db, RevokeChildren(closed, o, now, code), o, now, code)
  {
    forall t | t in db.tasks && db.tasks[t].status.Running? ensures CurrentAttemptOpen(db, t) { OpenAttempt(db, t); }
  }

  lemma CleanupCompensates(db: Db, revoked: Db, o: string, c: NewTask, now: int, code: string)
    requires TasksOk(db.tasks) && revoked.tasks.Keys == db.tasks.Keys && c.op.None?
    requires Stopped(db, revoked, o, now, code)
    requires EnqueueOnce(revoked, Delayed(c, now, MaxOf(Leases(db.tasks, o))), now).Ok?
    ensures var d := EnqueueOnce(revoked, Delayed(c, now, MaxOf(Leases(db.tasks, o))), now).value;
      Compensates(db, d, o, c, now) && Stopped(db, d, o, now, code)
  {
    var latest := MaxOf(Leases(db.tasks, o));
    DetachedInserted(revoked, Delayed(c, now, latest), now);
    LeasesEndBefore(db.tasks, o, c, now);
  }

  lemma DetachedInserted(db: Db, n: NewTask, now: int)
    requires n.op.None? && EnqueueOnce(db, n, now).Ok?
    ensures var d := EnqueueOnce(db, n, now).value;
      && n.id !in db.tasks && d.attempts == db.attempts && n.id in d.tasks && d.tasks == db.tasks[n.id := d.tasks[n.id]]
      && d.tasks[n.id].op.None? && d.tasks[n.id].status.Pending? && d.tasks[n.id].attemptCount == 0
      && DescribedBy(d.tasks[n.id], n.work)
      && (n.availableAt.Some? ==> d.tasks[n.id].availableAt == n.availableAt.value)
  {
  }

  lemma LeasesEndBefore(tasks: Tasks, o: string, c: NewTask, now: int)
    requires TasksOk(tasks)
    ensures var at := Delayed(c, now, MaxOf(Leases(tasks, o))).availableAt;
      && at.Some? && at.value >= now && (c.availableAt.Some? ==> at.value >= c.availableAt.value)
      && (at.value == now || c.availableAt == at
          || exists t | t in InState(tasks, o, Running) :: tasks[t].leaseExpires == at)
      && forall t | t in InState(tasks, o, Running) ::
           tasks[t].leaseExpires.Some? && tasks[t].leaseExpires.value <= at.value
  {
    RunningHaveLeases(tasks, o);
    forall t | t in InState(tasks, o, Running)
      ensures tasks[t].leaseExpires.Some? && tasks[t].leaseExpires.value in Leases(tasks, o) {
      assert TaskOk(tasks[t]);
    }
  }

  lemma TerminationCompensates(db: Db, o: string, row: Operation, now: int, code: string, cleanup: Option<NewTask>)
    requires Inv(db) && Cancelable(db, o) && row.status in {Canceled, Failed}
    requires SameCounters(row, db.ops[o]) && row.kind == db.ops[o].kind && (cleanup.Some? ==> cleanup.value.op.None?)
    requires Terminate(UpdateStatus(db, o, row, now), o, now, code, cleanup).Ok?
    ensures var d := Terminate(UpdateStatus(db, o, row, now), o, now, code, cleanup).value;
      && o in d.ops && d.ops[o].status == row.status && d.ops[o].finishedAt == row.finishedAt
      && d.ops[o].startedAt == row.startedAt && d.ops[o].errorCode == row.errorCode && Stopped(db, d, o, now, code)
      && (if cleanup.Some? then Compensates(db, d, o, cleanup.value, now) else d.tasks.Keys == db.tasks.Keys)
  {
    var closed := UpdateStatus(db, o, row, now);
    CloseOperation(db, o, row, now);
    TerminalRow(db, o, row, now);
    RevokeStops(db, closed, o, now, code);
    TerminateOutcome(closed, o, now, code, cleanup);
    if cleanup.Some? { CleanupCompensates(db, RevokeChildren(closed, o, now, code), o, cleanup.value, now, code); }
  }

  lemma TerminateOutcome(db: Db, o: string, now: int, code: string, cleanup: Option<NewTask>)
    requires Closing(db, o) && (cleanup.Some? ==> cleanup.value.op.None?) && Terminate(db, o, now, code, cleanup).Ok?
    ensures var d := Terminate(db, o, now, code, cleanup).value; var revoked := RevokeChildren(db, o, now, code);
      && d.ops == db.ops
      && (if cleanup.None? then d == revoked
          else Ok(d) == EnqueueOnce(revoked, Delayed(cleanup.value, now, MaxOf(Leases(db.tasks, o))), now))
  {
    TerminateKeeps(db, o, now, code, cleanup);
  }

  /** A winning cancellation stops all work below the operation and adds exactly the one cleanup task, held
      back until every lease it revoked would have expired. */
  lemma CancellationCompensates(db: Db, o: string, now: int, cleanup: Option<NewTask>)
    requires Inv(db) && CancelOperation(db, o, now, cleanup).Ok?
    ensures var d := CancelOperation(db, o, now, cleanup).value;
      && o in d.ops && d.ops[o].status.Canceled? && d.ops[o].finishedAt == Some(now) && d.ops[o].errorCode == ""
      && d.ops[o].startedAt == (if db.ops[o].startedAt.Some? then db.ops[o].startedAt else Some(now))
      && Stopped(db, d, o, now, "")
      && (if cleanup.Some? then Compensates(db, d, o, cleanup.value, now) else d.tasks.Keys == db.tasks.Keys)
  {
    TerminationCompensates(db, o, CanceledRow(db.ops[o], now), now, "", cleanup);
  }

  /** A winning producer failure does the same, but compensates only when child work exists. */
  lemma ProducerFailureCompensates(db: Db, o: string, now: int, code: string, cleanup: Option<NewTask>)
    requires Inv(db) && FailOperation(db, o, now, code, cleanup).Ok?
    ensures var d := FailOperation(db, o, now, code, cleanup).value;
      && o in d.ops && d.ops[o].status.Failed? && d.ops[o].finishedAt == Some(now) && d.ops[o].errorCode == code
      && d.ops[o].startedAt == (if db.ops[o].startedAt.Some? then db.ops[o].startedAt else Some(now))
      && Stopped(db, d, o, now, code)
      && (if cleanup.Some? && (exists t | t in db.tasks :: db.tasks[t].op == Some(o))
        then Compensates(db, d, o, cleanup.value, now)
          else d.tasks.Keys == db.tasks.Keys)
  {
    ChildrenExist(db.tasks, o);
    TerminationCompensates(db, o, FailedRow(db.ops[o], now, code), now, code,
      if |Children(db.tasks, o)| > 0 then cleanup else None);
  }

  lemma ChildrenExist(tasks: Tasks, o: string)
    ensures |Children(tasks, o)| > 0 <==> exists t | t in tasks :: tasks[t].op == Some(o)
  {
    if t :| t in tasks && tasks[t].op == Some(o) { assert t in Children(tasks, o); }
    if |Children(tasks, o)| > 0 { var t :| t in Children(tasks, o); }
  }

  /** A task whose attempt after the first `used` ones has not started before `horizon`. */
  ghost predicate HeldBack(db: Db, t: string, used: nat, horizon: int) {
    && t in db.tasks && used <= db.tasks[t].attemptCount
    && (db.tasks[t].attemptCount == used ==> !db.tasks[t].status.Running? && db.tasks[t].availableAt >= horizon)
    && (Gen(t, used + 1) in db.attempts ==> db.attempts[Gen(t, used + 1)].startedAt >= horizon)
  }

  /** Whatever happens afterwards, on whatever clocks: the next attempt of a held-back task starts no earlier than its
      horizon. */
  lemma {:induction false} NextAttemptWaits(run: seq<Event>, more: seq<Event>, t: string, used: nat, horizon: int)
    requires HeldBack(After(run), t, used, horizon)
    requires forall k {:trigger more[..k]} | 0 <= k <= |more| :: t in After(run + more[..k]).tasks
    ensures HeldBack(After(run + more), t, used, horizon)
    decreases |more|
  {
    assert more[..|more|] == more;
    if more == [] {
      assert run + more == run;
    } else {
      var before := more[..|more| - 1];
      forall k | 0 <= k <= |before| ensures t in After(run + before[..k]).tasks { assert before[..k] == more[..k]; }
      NextAttemptWaits(run, before, t, used, horizon);
      LastStep(run, more);
      HeldBackStep(After(run + before), After(run + more), t, used, horizon);
    }
  }

  lemma HeldBackStep(db: Db, d: Db, t: string, used: nat, horizon: int)
    requires Step(db, d) && HeldBack(db, t, used, horizon) && t in d.tasks
    ensures HeldBack(d, t, used, horizon)
  {
    assert TaskStep(db.tasks[t], d.tasks[t]);
    var g := Gen(t, used + 1);
    if g in d.attempts {
      if g in db.attempts { assert AttemptStep(db.attempts[g], d.attempts[g]); }
      else { assert AttemptBegins(db.tasks, g, d.attempts[g]); }
    }
  }

  // ---------------------------------------------------------------- exhausted tasks and lease recovery

  /** The cleanup ids the exhausted tasks among `rows` are compensated with. */
  function CleanupIds(tasks: Tasks, rows: seq<string>): set<string> {
    set t | t in Uncounted(tasks, rows) && tasks[t].cleanup.Some? :: t + CLEANUP_SUFFIX
  }

  /** No exhausted task's cleanup collides with an existing row, an active dedupe key, or another cleanup. */
  ghost predicate Unobstructed(tasks: Tasks, rows: seq<string>) {
    && (forall t | t in Uncounted(tasks, rows) && tasks[t].cleanup.Some? ::
          t + CLEANUP_SUFFIX !in tasks && !ActiveDedupe(tasks, tasks[t].cleanup.value.dedupe))
    && (forall t, u | t in Uncounted(tasks, rows) && u in Uncounted(tasks, rows) && t != u
                      && tasks[t].cleanup.Some? && tasks[u].cleanup.Some? ::
          tasks[t].cleanup.value.dedupe != tasks[u].cleanup.value.dedupe)
  }

  /** The row that compensates an exhausted task. */
  function CleanupRow(w: Work, now: int): Task
    requires NormalizeWork(w).Ok?
  {
    Task(None, NormalizeWork(w).value, None, Pending, now, "", None, now, None, None, 0, "")
  }

  lemma ExhaustTasks(db: Db, t: string, now: int, lag: set<string>)
    requires Lagging(db, lag) && t in lag && db.tasks[t].status.Failed? && Exhaust(db, t, now).Ok?
    ensures db.tasks[t].cleanup.Some? ==> NormalizeWork(db.tasks[t].cleanup.value).Ok?
    ensures var d := Exhaust(db, t, now).value;
      d.tasks == if db.tasks[t].cleanup.None? then db.tasks
                 else db.tasks[t + CLEANUP_SUFFIX := CleanupRow(db.tasks[t].cleanup.value, now)]
  {
    RecordKeeps(db, t, now, lag);
    assert TaskOk(db.tasks[t]);
  }

  lemma SuffixInjective(t: string, u: string)
    requires t + CLEANUP_SUFFIX == u + CLEANUP_SUFFIX
    ensures t == u
  {
    assert t == (t + CLEANUP_SUFFIX)[..|t|] && u == (u + CLEANUP_SUFFIX)[..|u|];
  }

  lemma RowsSplit(rows: seq<string>)
    requires rows != [] && forall i, j | 0 <= i < j < |rows| :: rows[i] != rows[j]
    ensures forall t :: t in rows <==> t == rows[0] || t in rows[1..]
    ensures rows[0] !in rows[1..]
    ensures forall i, j | 0 <= i < j < |rows[1..]| :: rows[1..][i] != rows[1..][j]
  {
    assert rows == [rows[0]] + rows[1..];
  }

  /** The obstruction of the remaining rows, seen before and after one more cleanup was added. */
  lemma UnobstructedStep(tasks: Tasks, tasks': Tasks, rows: seq<string>, now: int)
    requires rows != [] && (forall i, j | 0 <= i < j < |rows| :: rows[i] != rows[j])
      && (forall t | t in rows :: t in tasks)
    requires TasksOk(tasks) && tasks[rows[0]].status.Failed?
    requires tasks[rows[0]].cleanup.Some? ==>
      && NormalizeWork(tasks[rows[0]].cleanup.value).Ok?
      && rows[0] + CLEANUP_SUFFIX !in tasks && !ActiveDedupe(tasks, tasks[rows[0]].cleanup.value.dedupe)
    requires tasks' == if tasks[rows[0]].cleanup.None? then tasks
                       else tasks[rows[0] + CLEANUP_SUFFIX := CleanupRow(tasks[rows[0]].cleanup.value, now)]
    ensures Unobstructed(tasks', rows[1..]) <==> Unobstructed(tasks, rows)
  {
    var t, rest := rows[0], rows[1..];
    RowsSplit(rows);
    assert Uncounted(tasks', rest) == Uncounted(tasks, rows) - {t};
    if tasks[t].cleanup.Some? {
      CleanupTakesKeys(tasks, t, tasks[t].cleanup.value, now);
      assert forall u | u in Uncounted(tasks, rows) && u != t :: tasks'[u] == tasks[u];
    }
  }

  /** One more cleanup takes its own key and id, and no other. */
  lemma CleanupTakesKeys(tasks: Tasks, t: string, w: Work, now: int)
    requires NormalizeWork(w).Ok? && t + CLEANUP_SUFFIX !in tasks
    ensures var tasks' := tasks[t + CLEANUP_SUFFIX := CleanupRow(w, now)];
      && (forall key :: ActiveDedupe(tasks', key) <==> ActiveDedupe(tasks, key) || key == w.dedupe)
      && (forall u | u != t :: u + CLEANUP_SUFFIX in tasks' <==> u + CLEANUP_SUFFIX in tasks)
  {
    var tasks' := tasks[t + CLEANUP_SUFFIX := CleanupRow(w, now)];
    forall key ensures ActiveDedupe(tasks', key) <==> ActiveDedupe(tasks, key) || key == w.dedupe {
      assert tasks'[t + CLEANUP_SUFFIX].work.dedupe == w.dedupe;
      if ActiveDedupe(tasks, key) {
        var u :| u in tasks && tasks[u].work.dedupe == key && Active(tasks[u].status); assert u in tasks';
      }
    }
    forall u | u != t ensures u + CLEANUP_SUFFIX in tasks' <==> u + CLEANUP_SUFFIX in tasks {
      if u + CLEANUP_SUFFIX == t + CLEANUP_SUFFIX { SuffixInjective(u, t); }
    }
  }

  /** A compensation belongs to no operation and has no compensation of its own. */
  predicate Detached(t: Task) { t.status.Pending? && t.cleanup.None? && t.op.None? }

  /** One exhausted row, and what it leaves for the others. */
  lemma ExhaustFirst(db: Db, rows: seq<string>, now: int)
    requires Lagging(db, Uncounted(db.tasks, rows)) && rows != [] && (forall t | t in rows :: t in db.tasks)
    requires (forall i, j | 0 <= i < j < |rows| :: rows[i] != rows[j]) && db.tasks[rows[0]].status.Failed?
    ensures Exhaust(db, rows[0], now).Err? ==> !Unobstructed(db.tasks, rows)
    ensures Exhaust(db, rows[0], now).Ok? ==>
      var d := Exhaust(db, rows[0], now).value;
      && Lagging(d, Uncounted(d.tasks, rows[1..])) && db.tasks.Keys <= d.tasks.Keys
      && (forall u | u in db.tasks :: d.tasks[u] == db.tasks[u])
  {
    var t := rows[0];
    RowsSplit(rows);
    assert t in Uncounted(db.tasks, rows);
    ExhaustKeeps(db, t, now, Uncounted(db.tasks, rows));
    if Exhaust(db, t, now).Ok? {
      assert Uncounted(Exhaust(db, t, now).value.tasks, rows[1..]) == Uncounted(db.tasks, rows) - {t};
    }
  }

  lemma ExhaustedFirst(db: Db, rows: seq<string>, now: int)
    requires Lagging(db, Uncounted(db.tasks, rows)) && rows != [] && (forall t | t in rows :: t in db.tasks)
    requires (forall i, j | 0 <= i < j < |rows| :: rows[i] != rows[j]) && db.tasks[rows[0]].status.Failed?
    requires Exhaust(db, rows[0], now).Ok?
    ensures var d := Exhaust(db, rows[0], now).value;
      && (Unobstructed(d.tasks, rows[1..]) <==> Unobstructed(db.tasks, rows))
      && d.tasks.Keys + CleanupIds(d.tasks, rows[1..]) == db.tasks.Keys + CleanupIds(db.tasks, rows)
      && (forall u | u in d.tasks && u !in db.tasks :: Detached(d.tasks[u]))
  {
    var t := rows[0];
    assert t in Uncounted(db.tasks, rows);
    ExhaustKeeps(db, t, now, Uncounted(db.tasks, rows));
    ExhaustTasks(db, t, now, Uncounted(db.tasks, rows));
    RowsAfterFirst(db.tasks, Exhaust(db, t, now).value.tasks, rows, now);
  }

  lemma RowsAfterFirst(tasks: Tasks, tasks': Tasks, rows: seq<string>, now: int)
    requires rows != [] && (forall i, j | 0 <= i < j < |rows| :: rows[i] != rows[j])
      && (forall t | t in rows :: t in tasks)
    requires TasksOk(tasks) && tasks[rows[0]].status.Failed?
    requires tasks[rows[0]].cleanup.Some? ==>
      && NormalizeWork(tasks[rows[0]].cleanup.value).Ok?
      && rows[0] + CLEANUP_SUFFIX !in tasks && !ActiveDedupe(tasks, tasks[rows[0]].cleanup.value.dedupe)
    requires tasks' == if tasks[rows[0]].cleanup.None? then tasks
                       else tasks[rows[0] + CLEANUP_SUFFIX := CleanupRow(tasks[rows[0]].cleanup.value, now)]
    ensures Unobstructed(tasks', rows[1..]) <==> Unobstructed(tasks, rows)
    ensures tasks'.Keys + CleanupIds(tasks', rows[1..]) == tasks.Keys + CleanupIds(tasks, rows)
    ensures forall u | u in tasks' && u !in tasks :: Detached(tasks'[u])
  {
    UnobstructedStep(tasks, tasks', rows, now);
    CleanupIdsStep(tasks, tasks', rows);
  }

  lemma {:induction false} ExhaustAllSucceedsIff(db: Db, rows: seq<string>, now: int)
    requires Lagging(db, Uncounted(db.tasks, rows)) && (forall t | t in rows :: t in db.tasks)
    requires forall i, j | 0 <= i < j < |rows| :: rows[i] != rows[j]
    ensures var r := ExhaustAll(db, rows, now);
      && (r.Ok? <==> Unobstructed(db.tasks, rows))
      && (r.Ok? ==> r.value.tasks.Keys == db.tasks.Keys + CleanupIds(db.tasks, rows)
                    && (forall t | t in db.tasks :: r.value.tasks[t] == db.tasks[t])
                    && (forall t | t in r.value.tasks && t !in db.tasks :: Detached(r.value.tasks[t])))
    decreases |rows|
  {
    if rows != [] {
      RowsSplit(rows);
      if !db.tasks[rows[0]].status.Failed? {
        assert Uncounted(db.tasks, rows[1..]) == Uncounted(db.tasks, rows);
        ExhaustAllSucceedsIff(db, rows[1..], now);
      } else {
        ExhaustFirst(db, rows, now);
        if Exhaust(db, rows[0], now).Ok? {
          ExhaustedFirst(db, rows, now);
          ExhaustAllSucceedsIff(Exhaust(db, rows[0], now).value, rows[1..], now);
        }
      }
    }
  }

  /** Every exhausted task with a descriptor among `rows` has its cleanup: detached work of that description, available
      at once. */
  ghost predicate CleanedUp(tasks: Tasks, tasks': Tasks, rows: seq<string>, now: int) {
    forall t | t in Uncounted(tasks, rows) && tasks[t].cleanup.Some? ::
      && t + CLEANUP_SUFFIX in tasks' && Detached(tasks'[t + CLEANUP_SUFFIX])
      && tasks'[t + CLEANUP_SUFFIX].availableAt == now
      && DescribedBy(tasks'[t + CLEANUP_SUFFIX], tasks[t].cleanup.value)
  }

  lemma {:induction false} ExhaustAllCleansUp(db: Db, rows: seq<string>, now: int)
    requires Lagging(db, Uncounted(db.tasks, rows)) && (forall t | t in rows :: t in db.tasks)
    requires forall i, j | 0 <= i < j < |rows| :: rows[i] != rows[j]
    requires ExhaustAll(db, rows, now).Ok?
    ensures CleanedUp(db.tasks, ExhaustAll(db, rows, now).value.tasks, rows, now)
    decreases |rows|
  {
    if rows != [] {
      var t := rows[0];
      RowsSplit(rows);
      if !db.tasks[t].status.Failed? {
        assert Uncounted(db.tasks, rows[1..]) == Uncounted(db.tasks, rows);
        ExhaustAllCleansUp(db, rows[1..], now);
      } else {
        assert t in Uncounted(db.tasks, rows);
        ExhaustFirst(db, rows, now);
        ExhaustTasks(db, t, now, Uncounted(db.tasks, rows));
        ExhaustAllSucceedsIff(Exhaust(db, t, now).value, rows[1..], now);
        ExhaustAllCleansUp(Exhaust(db, t, now).value, rows[1..], now);
        CleanedUpStep(db.tasks, Exhaust(db, t, now).value.tasks, ExhaustAll(db, rows, now).value.tasks, rows, now);
      }
    }
  }

  lemma CleanedUpStep(tasks: Tasks, next: Tasks, last: Tasks, rows: seq<string>, now: int)
    requires rows != [] && (forall i, j | 0 <= i < j < |rows| :: rows[i] != rows[j])
      && (forall t | t in rows :: t in tasks)
    requires tasks[rows[0]].status.Failed?
      && (tasks[rows[0]].cleanup.Some? ==> NormalizeWork(tasks[rows[0]].cleanup.value).Ok?)
    requires forall t | t in tasks :: t in next && next[t] == tasks[t]
    requires forall t | t in next :: t in last && last[t] == next[t]
    requires next == if tasks[rows[0]].cleanup.None? then tasks
                     else tasks[rows[0] + CLEANUP_SUFFIX := CleanupRow(tasks[rows[0]].cleanup.value, now)]
    requires CleanedUp(next, last, rows[1..], now)
    ensures CleanedUp(tasks, last, rows, now)
  {
    RowsSplit(rows);
    assert Uncounted(next, rows[1..]) == Uncounted(tasks, rows) - {rows[0]};
  }

  lemma CleanupIdsStep(tasks: Tasks, tasks': Tasks, rows: seq<string>)
    requires rows != [] && (forall i, j | 0 <= i < j < |rows| :: rows[i] != rows[j])
      && (forall t | t in rows :: t in tasks)
    requires tasks[rows[0]].status.Failed? && (forall t | t in tasks :: t in tasks' && tasks'[t] == tasks[t])
    ensures CleanupIds(tasks, rows) == CleanupIds(tasks', rows[1..]) +
      (if tasks[rows[0]].cleanup.Some? then {rows[0] + CLEANUP_SUFFIX} else {})
  {
    RowsSplit(rows);
    assert Uncounted(tasks, rows) == Uncounted(tasks', rows[1..]) + {rows[0]};
  }

  /** Lease recovery succeeds exactly when no exhausted task's cleanup is obstructed; it then requeues or
      fails every expired task and adds exactly one cleanup, owning none itself, per exhausted task with a
      descriptor. Otherwise nothing is recovered at all: one obstructed cleanup holds every expired task back. */
  lemma RecoverySucceedsIff(run: seq<Event>, rows: seq<string>, now: int)
    requires Enumerates(rows, ExpiredTasks(After(run), now))
    ensures var db := After(run); var requeued := Requeue(db, now).tasks; var r := Recover(db, rows, now);
      && (r.Ok? <==> Unobstructed(requeued, rows))
      && (r.Err? ==> Apply(db, DoRecover(rows, now)) == db)
      && (r.Ok? ==> r.value.tasks.Keys == db.tasks.Keys + CleanupIds(requeued, rows)
                    && (forall t | t in db.tasks :: r.value.tasks[t] == requeued[t])
                    && (forall t | t in r.value.tasks && t !in db.tasks :: Detached(r.value.tasks[t])))
  {
    ReachableInv(run);
    RecoverIsExhaustAll(After(run), rows, now);
    RequeueKeeps(After(run), rows, now);
    ExhaustAllSucceedsIff(Requeue(After(run), now), rows, now);
  }

  lemma RecoverIsExhaustAll(db: Db, rows: seq<string>, now: int)
    requires Inv(db) && Enumerates(rows, ExpiredTasks(db, now))
    ensures Recover(db, rows, now) == ExhaustAll(Requeue(db, now), rows, now)
    ensures Recover(db, rows, now).Err? ==> Apply(db, DoRecover(rows, now)) == db
  {
    forall t | t in ExpiredTasks(db, now) ensures CurrentAttemptOpen(db, t) { OpenAttempt(db, t); }
  }

  function SampleWork(dedupe: string): Work { Work(dedupe, "prune", "", "", "", "default", 0, 1) }

  function SampleTask(dedupe: string, cleanup: Option<Work>): Task {
    Task(None, SampleWork(dedupe), cleanup, Pending, 0, "", None, 0, None, None, 0, "")
  }

  const ADD_A := DoEnqueue(NewTask("a", None, SampleWork("a"), Some(SampleWork("c")), Some(0), Some(0)), 0)
  const CLAIM_A := DoClaim("a", "default", "w", 0, 10)
  const ADD_B := DoEnqueue(NewTask("b", None, SampleWork("c"), None, Some(0), Some(0)), 0)

  function HeldA(): Db {
    EMPTY.(tasks := map["a" := ClaimedRow(SampleTask("a", Some(SampleWork("c"))), "w", 0, 10)],
           attempts := map[Gen("a", 1) := Attempt("w", 0, None, InProgress, "")])
  }

  function HeldAB(): Db { HeldA().(tasks := HeldA().tasks["b" := SampleTask("c", None)]) }

  lemma RunGrows(run: seq<Event>, e: Event)
    ensures After(run + [e]) == Apply(After(run), e)
  {
    assert (run + [e])[..|run|] == run;
  }

  lemma ClaimsA()
    ensures Apply(Apply(EMPTY, ADD_A), CLAIM_A) == HeldA()
  {
    var first := EMPTY.(tasks := map["a" := SampleTask("a", Some(SampleWork("c")))]);
    assert Apply(EMPTY, ADD_A) == first;
    assert IsNext(first, "default", 0, "a");
  }

  lemma AddsB()
    ensures Apply(HeldA(), ADD_B) == HeldAB()
  {
    assert !ActiveDedupe(HeldA().tasks, "c");
  }

  lemma BlockedByB()
    ensures Enumerates(["a"], ExpiredTasks(HeldAB(), 10)) && !Unobstructed(Requeue(HeldAB(), 10).tasks, ["a"])
  {
    var requeued := Requeue(HeldAB(), 10).tasks;
    assert "a" in HeldAB().tasks && Expired(HeldAB().tasks["a"], 10);
    assert ExpiredTasks(HeldAB(), 10) == {"a"};
    assert requeued["a"] == RetriedRow(HeldAB().tasks["a"], 10, 10, "lease_expired");
    assert "a" in Uncounted(requeued, ["a"]);
    assert requeued["b"] == SampleTask("c", None);
    assert ActiveDedupe(requeued, "c");
  }

  /** A run that cannot recover: task "a" is out of attempts, but its cleanup's key is in use by task "b". */
  lemma RecoveryCanBeObstructed()
    ensures var run := [ADD_A] + [CLAIM_A] + [ADD_B];
      Enumerates(["a"], ExpiredTasks(After(run), 10)) && Recover(After(run), ["a"], 10).Err?
  {
    var run := [ADD_A] + [CLAIM_A] + [ADD_B];
    assert [] + [ADD_A] == [ADD_A];
    RunGrows([], ADD_A);
    RunGrows([ADD_A], CLAIM_A);
    RunGrows([ADD_A] + [CLAIM_A], ADD_B);
    ClaimsA();
    AddsB();
    BlockedByB();
    assert After(run) == HeldAB();
    RecoverySucceedsIff(run, ["a"], 10);
  }
}
