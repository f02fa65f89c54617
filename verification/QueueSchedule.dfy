/** When work runs, in every reachable state and run: claims take the most urgent task, failed tasks come back when
    asked, recovery takes back what has expired and nothing else, and the ends of rows are stamped. */
module QueueSchedule {
  import opened Basics
  import opened QueueModel
  import opened QueueSpec
  import opened QueueInvariant
  import opened QueueTransactions
  import opened QueueRuns
  import opened QueueHistory
  import opened QueueGuarantees
  import opened QueueRules

  // ---------------------------------------------------------------- claims

  /** In a reachable state a claim with proper arguments succeeds on exactly the most urgent due task. */
  lemma ClaimSucceedsIff(run: seq<Event>, t: string, pool: string, worker: string, now: int, lease: int)
    ensures Claim(After(run), t, pool, worker, now, lease).Ok? <==>
      pool != "" && worker != "" && lease > 0 && MostUrgent(After(run).tasks, pool, now, t)
  {
    ReachableInv(run);
    NextIsMostUrgent(After(run), pool, now, t);
    ClaimKeeps(After(run), t, pool, worker, now, lease);
  }

  /** No claim of a run passes over a due task of its pool that has a higher priority, or the same priority and more
      age, or the same age and a smaller id. */
  lemma ClaimsPassOverNothing(run: seq<Event>, k: nat, u: string)
    requires k < |run| && run[k].DoClaim? && Attempted(After(run[..k]), run[k]).Ok?
    requires u in After(run[..k]).tasks && u != run[k].task
    requires var row := After(run[..k]).tasks[u];
      && row.status.Pending? && row.work.resourceClass == run[k].pool && row.availableAt <= run[k].now
      && row.attemptCount < row.work.maxAttempts
    ensures run[k].task in After(run[..k]).tasks
    ensures var taken, passed := After(run[..k]).tasks[run[k].task], After(run[..k]).tasks[u];
      && taken.work.priority >= passed.work.priority
      && (taken.work.priority == passed.work.priority ==> taken.createdAt <= passed.createdAt)
      && (taken.work.priority == passed.work.priority && taken.createdAt == passed.createdAt ==>
            StrLess(run[k].task, u))
  {
    var db, e := After(run[..k]), run[k];
    NextIsMostUrgent(db, e.pool, e.now, e.task);
    assert Due(db.tasks[u], e.pool, e.now);
  }

  // ---------------------------------------------------------------- retries

  /** A task that failed with attempts left starts its next attempt no earlier than asked, or than the failure when
      nothing was asked, in every continuation that keeps its row. */
  lemma RetryWaits(run: seq<Event>, e: Event, more: seq<Event>)
    requires Retries(After(run), e)
    requires forall k {:trigger more[..k]} | 0 <= k <= |more| :: e.task in After(run + [e] + more[..k]).tasks
    ensures HeldBack(After(run + [e] + more), e.task, After(run).tasks[e.task].attemptCount, AskedFor(e))
  {
    var db := After(run);
    ReachableInv(run);
    RunGrows(run, e);
    FailureHoldsBack(db, e);
    NextAttemptWaits(run + [e], more, e.task, db.tasks[e.task].attemptCount, AskedFor(e));
  }

  /** A worker reports a failure in time, and the task has attempts left. */
  ghost predicate Retries(db: Db, e: Event) {
    && e.DoFail? && e.task in db.tasks && db.tasks[e.task].attemptCount < db.tasks[e.task].work.maxAttempts
    && Attempted(db, e).Ok?
  }

  function AskedFor(e: Event): int
    requires e.DoFail?
  {
    if e.retryAt.Some? then e.retryAt.value else e.now
  }

  lemma FailureHoldsBack(db: Db, e: Event)
    requires Inv(db) && Retries(db, e)
    ensures HeldBack(Apply(db, e), e.task, db.tasks[e.task].attemptCount, AskedFor(e))
  {
    var g := Gen(e.task, db.tasks[e.task].attemptCount + 1);
    FailureSchedulesRetry(db, e.task, e.worker, e.now, e.retryAt, e.code);
    assert g in db.attempts ==> AttemptOk(db.tasks, db.attempts, g);
  }

  // ---------------------------------------------------------------- lease recovery

  predicate LeaseOver(row: Task, now: int) {
    row.status == Running && row.leaseExpires.Some? && now >= row.leaseExpires.value
  }

  /** Waiting again from `now` on, or failed now when its attempts are used up. */
  predicate TakenBack(before: Task, after: Task, now: int) {
    && after.work == before.work && after.op == before.op && after.cleanup == before.cleanup
    && after.attemptCount == before.attemptCount && after.createdAt == before.createdAt
    && after.startedAt == before.startedAt && after.leaseOwner == "" && after.leaseExpires == None
    && after.errorCode == "lease_expired"
    && if before.attemptCount >= before.work.maxAttempts then after.status == Failed && after.finishedAt == Some(now)
       else after.status == Pending && after.finishedAt == None && after.availableAt == now
  }

  /** A recovery that succeeds takes back every task whose lease is over and abandons its attempt now, and adds the
      cleanup of each one that is out of attempts; it changes no other task and no other attempt. */
  lemma RecoveryTakesBack(run: seq<Event>, rows: seq<string>, now: int)
    requires Enumerates(rows, ExpiredTasks(After(run), now)) && Recover(After(run), rows, now).Ok?
    ensures var db := After(run); var d := Recover(db, rows, now).value;
      && db.tasks.Keys <= d.tasks.Keys && d.attempts.Keys == db.attempts.Keys
      && (forall t | t in db.tasks ::
            if LeaseOver(db.tasks[t], now) then TakenBack(db.tasks[t], d.tasks[t], now) else d.tasks[t] == db.tasks[t])
      && (forall g | g in db.attempts ::
            if g.task in db.tasks && LeaseOver(db.tasks[g.task], now) && g.number == db.tasks[g.task].attemptCount
            then d.attempts[g] == Attempt(db.attempts[g].worker, db.attempts[g].startedAt, Some(now), Abandoned,
              "lease_expired")
            else d.attempts[g] == db.attempts[g])
      && (forall t | t in db.tasks && LeaseOver(db.tasks[t], now) && db.tasks[t].cleanup.Some?
                     && db.tasks[t].attemptCount >= db.tasks[t].work.maxAttempts ::
            var c := t + ":terminal-cleanup";
            && c !in db.tasks && c in d.tasks && d.tasks[c].status == Pending && d.tasks[c].availableAt == now
            && d.tasks[c].op == None && d.tasks[c].cleanup == None
            && DescribedBy(d.tasks[c], db.tasks[t].cleanup.value))
  {
    ReachableInv(run);
    RecoverySucceedsIff(run, rows, now);
    RecoverIsExhaustAll(After(run), rows, now);
    RecoverKeepsAttempts(After(run), rows, now);
    RequeueTakesBack(After(run), now);
    ExhaustedAreCleanedUp(After(run), rows, now);
  }

  lemma ExhaustedAreCleanedUp(db: Db, rows: seq<string>, now: int)
    requires Inv(db) && Enumerates(rows, ExpiredTasks(db, now)) && ExhaustAll(Requeue(db, now), rows, now).Ok?
    ensures forall t | t in db.tasks && LeaseOver(db.tasks[t], now) && db.tasks[t].cleanup.Some?
                       && db.tasks[t].attemptCount >= db.tasks[t].work.maxAttempts ::
      && t + CLEANUP_SUFFIX !in db.tasks && t + CLEANUP_SUFFIX in ExhaustAll(Requeue(db, now), rows, now).value.tasks
      && var row := ExhaustAll(Requeue(db, now), rows, now).value.tasks[t + CLEANUP_SUFFIX];
         && row.status == Pending && row.availableAt == now && row.op == None && row.cleanup == None
         && DescribedBy(row, db.tasks[t].cleanup.value)
  {
    var d := Requeue(db, now);
    RequeueKeeps(db, rows, now);
    ExhaustAllSucceedsIff(d, rows, now);
    ExhaustAllCleansUp(d, rows, now);
    forall t | t in db.tasks && LeaseOver(db.tasks[t], now) && db.tasks[t].attemptCount >= db.tasks[t].work.maxAttempts
      ensures t in Uncounted(d.tasks, rows) && d.tasks[t].cleanup == db.tasks[t].cleanup {
      assert t in ExpiredTasks(db, now);
    }
  }

  lemma RequeueTakesBack(db: Db, now: int)
    requires AttemptsOk(db.tasks, db.attempts)
    ensures var d := Requeue(db, now);
      && d.tasks.Keys == db.tasks.Keys && d.attempts.Keys == db.attempts.Keys
      && (forall t | t in db.tasks ::
            if LeaseOver(db.tasks[t], now) then TakenBack(db.tasks[t], d.tasks[t], now) else d.tasks[t] == db.tasks[t])
      && (forall g | g in db.attempts ::
            if g.task in db.tasks && LeaseOver(db.tasks[g.task], now) && g.number == db.tasks[g.task].attemptCount
            then d.attempts[g] == Attempt(db.attempts[g].worker, db.attempts[g].startedAt, Some(now), Abandoned,
              "lease_expired")
            else d.attempts[g] == db.attempts[g])
  {
    forall g | g in db.attempts ensures AttemptOk(db.tasks, db.attempts, g) { }
  }

  lemma RecoverKeepsAttempts(db: Db, rows: seq<string>, now: int)
    requires Inv(db) && Enumerates(rows, ExpiredTasks(db, now)) && ExhaustAll(Requeue(db, now), rows, now).Ok?
    ensures ExhaustAll(Requeue(db, now), rows, now).value.attempts == Requeue(db, now).attempts
  {
    var d := Requeue(db, now);
    forall t | t in rows ensures t in d.tasks && OpenParent(db, d.tasks[t].op) { ActiveParent(db, t); }
    ExhaustAllStep(db.ops, d, rows, now);
  }

  /** In a reachable state a running task is either held, by its owner and its current generation, or open to recovery;
      and no one holds a task that does not run. */
  lemma HeldOrOpenToRecovery(run: seq<Event>, t: string, now: int)
    requires t in After(run).tasks
    ensures var db := After(run); var row := db.tasks[t];
      && (row.status.Running? ==> (Holds(db, t, row.leaseOwner, now) <==> t !in ExpiredTasks(db, now)))
      && (Holds(db, t, row.leaseOwner, now) <==> HoldsGen(db, Gen(t, row.attemptCount), now))
      && (forall w | Holds(db, t, w, now) :: w == row.leaseOwner)
      && (forall n | HoldsGen(db, Gen(t, n), now) :: n == row.attemptCount)
      && (t in ExpiredTasks(db, now) ==> row.status.Running?)
  {
    ReachableInv(run);
    assert TaskOk(After(run).tasks[t]);
    HeldOrExpired(After(run), t, now);
  }

  // ---------------------------------------------------------------- ends

  lemma {:induction false} OperationsAreStamped(run: seq<Event>)
    ensures forall o | o in After(run).ops :: Stamped(After(run).ops[o])
    decreases |run|
  {
    if run != [] {
      var before := run[..|run| - 1];
      ReachableInv(before);
      OperationsAreStamped(before);
      EveryEventIsStep(After(before), run[|run| - 1]);
      forall o | o in After(run).ops ensures Stamped(After(run).ops[o]) {
        if o in After(before).ops { assert OpStep(After(before).ops[o], After(run).ops[o]); }
      }
    }
  }

  /** A task, an attempt or an operation has an end time exactly when it is over, and a task a start time exactly when
      it has an attempt; nothing that has succeeded or is still under way keeps an error. */
  ghost predicate EndsStamped(db: Db) {
    && (forall t | t in db.tasks ::
          db.tasks[t].finishedAt.Some? <==> db.tasks[t].status in {Completed, Failed, Canceled})
    && (forall g | g in db.attempts :: db.attempts[g].finishedAt.Some? <==> db.attempts[g].outcome != InProgress)
    && (forall o | o in db.ops :: db.ops[o].finishedAt.Some? <==> db.ops[o].status in {Completed, Failed, Canceled})
    && (forall t | t in db.tasks :: db.tasks[t].startedAt.Some? <==> exists n :: Gen(t, n) in db.attempts)
    && (forall t | t in db.tasks && db.tasks[t].status.Completed? :: db.tasks[t].errorCode == "")
    && (forall o | o in db.ops && db.ops[o].errorCode != "" :: db.ops[o].status in {Failed, Canceled})
  }

  lemma EndsAreStamped(run: seq<Event>)
    ensures EndsStamped(After(run))
  {
    ReachableInv(run);
    OperationsAreStamped(run);
    StampedByInv(After(run));
  }

  lemma StampedByInv(db: Db)
    requires TasksOk(db.tasks) && AttemptsOk(db.tasks, db.attempts) && forall o | o in db.ops :: Stamped(db.ops[o])
    ensures EndsStamped(db)
  {
    forall t | t in db.tasks
      ensures (db.tasks[t].finishedAt.Some? <==> db.tasks[t].status in {Completed, Failed, Canceled})
        && (db.tasks[t].startedAt.Some? <==> exists n :: Gen(t, n) in db.attempts)
        && (db.tasks[t].status.Completed? ==> db.tasks[t].errorCode == "") {
      TaskEnds(db, t);
    }
    forall g | g in db.attempts ensures db.attempts[g].finishedAt.Some? <==> db.attempts[g].outcome != InProgress {
      assert AttemptOk(db.tasks, db.attempts, g);
    }
  }

  lemma TaskEnds(db: Db, t: string)
    requires TasksOk(db.tasks) && AttemptsOk(db.tasks, db.attempts) && t in db.tasks
    ensures db.tasks[t].finishedAt.Some? <==> db.tasks[t].status in {Completed, Failed, Canceled}
    ensures db.tasks[t].startedAt.Some? <==> exists n :: Gen(t, n) in db.attempts
    ensures db.tasks[t].status.Completed? ==> db.tasks[t].errorCode == ""
  {
    assert TaskOk(db.tasks[t]) && NumberedOk(db.attempts, t, db.tasks[t].attemptCount);
    if db.tasks[t].attemptCount > 0 { assert Gen(t, 1) in db.attempts; }
    if n :| Gen(t, n) in db.attempts { assert AttemptOk(db.tasks, db.attempts, Gen(t, n)); }
  }

  // ---------------------------------------------------------------- auxiliaries

  /** An auxiliary of the producer that has nothing left to wait for: its children are all over and its declared work is
      all attached. */
  ghost predicate LeftAlone(db: Db, producer: string, o: string)
    requires o in db.ops
  {
    && Active(db.ops[o].status) && (exists l | l in db.links :: l.producer == producer && db.links[l] == o)
    && (forall t | t in db.tasks && db.tasks[t].op == Some(o) :: !Active(db.tasks[t].status))
    && |Children(db.tasks, o)| >= db.ops[o].total
  }

  /** When a producer ends, each of its auxiliaries that has nothing left to wait for ends with it, with the status a
      rescan of the children gives; no other operation changes. */
  lemma ProducerEndReleases(db: Db, producer: string, row: Operation, at: int)
    requires Inv(db) && producer in db.ops && Active(db.ops[producer].status) && !Active(row.status)
    ensures var d := UpdateStatus(db, producer, row, at);
      && d == db.(ops := d.ops) && d.ops.Keys == db.ops.Keys && d.ops[producer] == row
      && forall o | o in db.ops && o != producer ::
           if LeftAlone(db, producer, o) then ReleasedBy(db.tasks, o, db.ops[o], d.ops[o], at)
           else d.ops[o] == db.ops[o]
  {
    var updated := db.(ops := db.ops[producer := row]);
    forall o | o in db.ops && o != producer
      ensures Releasable(updated, producer, o) <==> LeftAlone(db, producer, o)
      ensures ReleasedBy(db.tasks, o, db.ops[o], ReleasedRow(updated, o, at), at) {
      assert CountOk(db.tasks, db.ops[o], {}, o);
      ReleasableIffLeftAlone(db, updated, producer, o);
      ReleasedIsRescan(updated, o, at);
    }
    assert !Releasable(updated, producer, producer);
  }

  lemma ReleasedIsRescan(db: Db, o: string, at: int)
    requires o in db.ops && CountOk(db.tasks, db.ops[o], {}, o)
    ensures ReleasedBy(db.tasks, o, db.ops[o], ReleasedRow(db, o, at), at)
  {
    CountedIsInState(db.tasks, o);
    RescannedBySize(db.tasks, o);
  }

  predicate ReleasedBy(tasks: Tasks, o: string, before: Operation, after: Operation, at: int) {
    && (exists t | t in tasks :: tasks[t].op == Some(o) && tasks[t].status.Failed?) == after.status.Failed?
    && !Active(after.status)
    && (after.status.Completed? <==>
      forall t | t in tasks && tasks[t].op == Some(o) :: !tasks[t].status.Failed? && !tasks[t].status.Canceled?)
    && after.finishedAt == Some(at)
    && after.startedAt == (if before.startedAt.Some? then before.startedAt else Some(at))
    && after.errorCode == (if after.status.Failed? then "child_task_failed" else "")
    && SameCounters(after, before) && after.result == before.result
  }

  lemma ReleasableIffLeftAlone(db: Db, updated: Db, producer: string, o: string)
    requires o in db.ops && CountOk(db.tasks, db.ops[o], {}, o) && o != producer && producer in db.ops
    requires updated == db.(ops := updated.ops) && o in updated.ops && updated.ops[o] == db.ops[o]
    ensures Releasable(updated, producer, o) <==> LeftAlone(db, producer, o)
  {
    assert HasActiveChild(db.tasks, o) <==>
      !(forall t | t in db.tasks && db.tasks[t].op == Some(o) :: !Active(db.tasks[t].status));
    AllStates(db.tasks, o);
  }

  /** What a cancellation or a producer failure does to the other operations: it ends the auxiliaries that have nothing
      left to wait for, now. */
  lemma TerminationReleases(db: Db, e: Event)
    requires Inv(db) && (e.DoCancelOperation? || e.DoFailOperation?) && Attempted(db, e).Ok?
    ensures e.op in db.ops && Apply(db, e).ops.Keys == db.ops.Keys
    ensures forall o | o in db.ops && o != e.op ::
      if LeftAlone(db, e.op, o) then ReleasedBy(db.tasks, o, db.ops[o], Apply(db, e).ops[o], e.now)
      else Apply(db, e).ops[o] == db.ops[o]
  {
    match e
    case DoCancelOperation(o, now, cleanup) =>
      ClosedReleases(db, o, CanceledRow(db.ops[o], now), now, "", cleanup);
    case DoFailOperation(o, now, code, cleanup) =>
      ClosedReleases(db, o, FailedRow(db.ops[o], now, code), now, code,
                     if |Children(db.tasks, o)| > 0 then cleanup else None);
  }

  lemma ClosedReleases(db: Db, o: string, row: Operation, now: int, code: string, cleanup: Option<NewTask>)
    requires Inv(db) && Cancelable(db, o) && row.status in {Canceled, Failed}
    requires SameCounters(row, db.ops[o]) && row.kind == db.ops[o].kind && (cleanup.Some? ==> cleanup.value.op.None?)
    requires Terminate(UpdateStatus(db, o, row, now), o, now, code, cleanup).Ok?
    ensures var d := Terminate(UpdateStatus(db, o, row, now), o, now, code, cleanup).value;
      && d.ops.Keys == db.ops.Keys
      && forall p | p in db.ops && p != o ::
           if LeftAlone(db, o, p) then ReleasedBy(db.tasks, p, db.ops[p], d.ops[p], now) else d.ops[p] == db.ops[p]
  {
    CloseOperation(db, o, row, now);
    ProducerEndReleases(db, o, row, now);
    TerminateOutcome(UpdateStatus(db, o, row, now), o, now, code, cleanup);
    if cleanup.Some? {
      DetachedKeepsOps(RevokeChildren(UpdateStatus(db, o, row, now), o, now, code),
                       Delayed(cleanup.value, now, MaxOf(Leases(db.tasks, o))), now);
    }
  }

  lemma DetachedKeepsOps(db: Db, n: NewTask, now: int)
    requires n.op.None? && EnqueueOnce(db, n, now).Ok?
    ensures EnqueueOnce(db, n, now).value.ops == db.ops
  {
  }

  // ---------------------------------------------------------------- reservations that never got work

  predicate Interrupted(row: Operation, now: int) {
    row.status == Canceled && row.finishedAt == Some(now) && row.errorCode == "producer_interrupted"
  }

  /** Ended now, as an auxiliary of one of the producers. */
  ghost predicate EndedWith(links: map<Link, string>, producers: seq<string>, o: string, before: Operation,
                            after: Operation, now: int) {
    && before.status in {Pending, Running} && after.status !in {Pending, Running} && after.finishedAt == Some(now)
    && exists l :: l in links && links[l] == o && l.producer in producers
  }

  lemma {:induction false} InterruptAllOutcome(db: Db, rows: seq<string>, now: int)
    requires forall o | o in rows :: o in db.ops
    ensures var d := InterruptAll(db, rows, now);
      && d == db.(ops := d.ops) && d.ops.Keys == db.ops.Keys
      && (forall o | o in rows :: Interrupted(d.ops[o], now))
      && (forall o | o in db.ops && o !in rows ::
            d.ops[o] == db.ops[o] || EndedWith(db.links, rows, o, db.ops[o], d.ops[o], now))
    decreases |rows|
  {
    if rows != [] {
      assert rows[0] in rows;
      var next := UpdateStatus(db, rows[0], InterruptedRow(db.ops[rows[0]], now), now);
      InterruptedFirst(db, rows[0], now);
      forall o | o in rows[1..] ensures o in next.ops { assert o in rows; }
      InterruptAllOutcome(next, rows[1..], now);
      InterruptedStep(db.links, db.ops, next.ops, InterruptAll(next, rows[1..], now).ops, rows, now);
    }
  }

  lemma InterruptedFirst(db: Db, r: string, now: int)
    requires r in db.ops
    ensures var next := UpdateStatus(db, r, InterruptedRow(db.ops[r], now), now);
      && next == db.(ops := next.ops) && next.ops.Keys == db.ops.Keys && Interrupted(next.ops[r], now)
      && forall o | o in db.ops && o != r ::
           next.ops[o] == db.ops[o] || EndedWith(db.links, [r], o, db.ops[o], next.ops[o], now)
  {
  }

  lemma InterruptedStep(links: map<Link, string>, first: Ops, next: Ops, last: Ops, rows: seq<string>, now: int)
    requires rows != [] && (forall o | o in rows :: o in first) && next.Keys == first.Keys && last.Keys == first.Keys
    requires Interrupted(next[rows[0]], now)
    requires forall o | o in first && o != rows[0] ::
      next[o] == first[o] || EndedWith(links, [rows[0]], o, first[o], next[o], now)
    requires forall o | o in first && o in rows[1..] :: Interrupted(last[o], now)
    requires forall o | o in first && o !in rows[1..] ::
      last[o] == next[o] || EndedWith(links, rows[1..], o, next[o], last[o], now)
    ensures forall o | o in first && o in rows :: Interrupted(last[o], now)
    ensures forall o | o in first && o !in rows ::
      last[o] == first[o] || EndedWith(links, rows, o, first[o], last[o], now)
  {
    assert rows == [rows[0]] + rows[1..];
    forall o | o in first && o !in rows
      ensures last[o] == first[o] || EndedWith(links, rows, o, first[o], last[o], now) {
      if next[o] != first[o] {
        var l :| l in links && links[l] == o && l.producer in [rows[0]];
        assert l.producer in rows && EndedWith(links, rows, o, first[o], next[o], now);
      } else if last[o] != first[o] {
        var l :| l in links && links[l] == o && l.producer in rows[1..];
        assert l.producer in rows;
      }
    }
  }

  /** Cleaning up interrupted producers cancels exactly the pending operations of the kind without any work (only the
      hidden ones if so asked), now and with that error; besides, only auxiliaries of theirs may end, and no task or
      attempt changes. */
  lemma InterruptionCancels(db: Db, kind: string, hiddenOnly: bool, rows: seq<string>, now: int)
    requires kind != "" && Enumerates(rows, Unattached(db, kind, hiddenOnly))
    ensures CancelUnattached(db, kind, hiddenOnly, rows, now).Ok?
    ensures forall o :: o in rows <==>
      && o in db.ops && db.ops[o].kind == kind && db.ops[o].status == Pending && !HasWork(db.tasks, o)
      && !(hiddenOnly && db.ops[o].visible)
    ensures var d := CancelUnattached(db, kind, hiddenOnly, rows, now).value;
      && d == db.(ops := d.ops) && d.ops.Keys == db.ops.Keys
      && (forall o | o in rows :: Interrupted(d.ops[o], now))
      && (forall o | o in db.ops && o !in rows ::
            d.ops[o] == db.ops[o] || EndedWith(db.links, rows, o, db.ops[o], d.ops[o], now))
  {
    forall o ensures |Children(db.tasks, o)| == 0 <==> !HasWork(db.tasks, o) { NoWorkIsNoChildren(db.tasks, o); }
    InterruptAllOutcome(db, rows, now);
  }
}
