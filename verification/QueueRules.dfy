/** What the queue's transactions do, in the columns of the rows: which task a claim takes, how long a lease holds, when
    a failed task comes back, and what recovery touches. */
module QueueRules {
  import opened Basics
  import opened QueueModel
  import opened QueueSpec

  // ---------------------------------------------------------------- which task a claim takes

  /** Pending in this pool, available by now, with attempts left. */
  predicate Due(row: Task, pool: string, now: int) {
    && row.status == Pending && row.work.resourceClass == pool
    && !(row.availableAt > now) && row.work.maxAttempts - row.attemptCount >= 1
  }

  /** No due task of the pool has a higher priority; none of the same priority is older; and none of the same age has
      a smaller id. */
  ghost predicate MostUrgent(tasks: Tasks, pool: string, now: int, t: string) {
    && t in tasks && Due(tasks[t], pool, now)
    && (forall u | u in tasks && Due(tasks[u], pool, now) :: tasks[u].work.priority <= tasks[t].work.priority)
    && (forall u | u in tasks && Due(tasks[u], pool, now) && tasks[u].work.priority == tasks[t].work.priority ::
          tasks[t].createdAt <= tasks[u].createdAt)
    && (forall u | u in tasks && u != t && Due(tasks[u], pool, now) && tasks[u].work.priority == tasks[t].work.priority
          && tasks[u].createdAt == tasks[t].createdAt :: StrLess(t, u))
  }

  lemma NextIsMostUrgent(db: Db, pool: string, now: int, t: string)
    ensures IsNext(db, pool, now, t) <==> MostUrgent(db.tasks, pool, now, t)
  {
    forall u | u in db.tasks ensures Claimable(db.tasks[u], pool, now) <==> Due(db.tasks[u], pool, now) { }
    if MostUrgent(db.tasks, pool, now, t) {
      forall u | u in db.tasks && u != t && Claimable(db.tasks[u], pool, now)
        ensures ClaimsBefore(t, db.tasks[t], u, db.tasks[u]) {
        assert Due(db.tasks[u], pool, now);
      }
    }
    if IsNext(db, pool, now, t) {
      forall u | u in db.tasks && u != t && Due(db.tasks[u], pool, now)
        ensures ClaimsBefore(t, db.tasks[t], u, db.tasks[u]) {
        assert Claimable(db.tasks[u], pool, now);
      }
    }
  }

  lemma ClaimsBeforeTransitive(tasks: Tasks, a: string, b: string, c: string)
    requires a in tasks && b in tasks && c in tasks
    requires ClaimsBefore(a, tasks[a], b, tasks[b]) && ClaimsBefore(b, tasks[b], c, tasks[c])
    ensures ClaimsBefore(a, tasks[a], c, tasks[c])
  {
    if StrLess(a, b) && StrLess(b, c) { StrLessTransitive(a, b, c); }
  }

  lemma {:induction false} FirstExists(tasks: Tasks, ids: set<string>)
    requires ids != {} && forall t | t in ids :: t in tasks
    ensures exists t :: t in ids && forall u | u in ids && u != t :: ClaimsBefore(t, tasks[t], u, tasks[u])
    decreases |ids|
  {
    var x :| x in ids;
    var rest := ids - {x};
    if rest == {} {
      assert ids == {x};
    } else {
      FirstExists(tasks, rest);
      var y :| y in rest && forall u | u in rest && u != y :: ClaimsBefore(y, tasks[y], u, tasks[u]);
      StrLessTotal(x, y);
      var best := if ClaimsBefore(x, tasks[x], y, tasks[y]) then x else y;
      forall u | u in ids && u != best ensures ClaimsBefore(best, tasks[best], u, tasks[u]) {
        if best == x && u != y { ClaimsBeforeTransitive(tasks, x, y, u); }
      }
      assert best in ids;
    }
  }

  /** A most urgent task exists exactly when some task is due, there is only one, and it is the row the claim's subquery
      selects: the order leaves no choice. */
  lemma NextTask(db: Db, pool: string, now: int)
    ensures (exists t :: MostUrgent(db.tasks, pool, now, t)) <==>
      exists t | t in db.tasks :: Due(db.tasks[t], pool, now)
    ensures forall t, u | MostUrgent(db.tasks, pool, now, t) && MostUrgent(db.tasks, pool, now, u) :: t == u
    ensures forall t :: IsNext(db, pool, now, t) <==> MostUrgent(db.tasks, pool, now, t)
  {
    var ids := set t | t in db.tasks && Claimable(db.tasks[t], pool, now);
    forall t ensures IsNext(db, pool, now, t) <==> MostUrgent(db.tasks, pool, now, t) {
      NextIsMostUrgent(db, pool, now, t);
    }
    if ids != {} {
      FirstExists(db.tasks, ids);
      var t :| t in ids && forall u | u in ids && u != t :: ClaimsBefore(t, db.tasks[t], u, db.tasks[u]);
      assert IsNext(db, pool, now, t);
    } else {
      forall t | t in db.tasks ensures !Due(db.tasks[t], pool, now) { assert t !in ids; }
    }
    forall t, u | MostUrgent(db.tasks, pool, now, t) && MostUrgent(db.tasks, pool, now, u) ensures t == u {
      if t != u && StrLess(t, u) && StrLess(u, t) {
        StrLessTransitive(t, u, t);
        StrLessIrreflexive(t);
      }
    }
  }

  /** The operation runs, from its first claim on, without an end or an error; a result it had finished with is gone. */
  predicate StartedBy(before: Operation, after: Operation, now: int) {
    && after.status == Running && after.finishedAt == None && after.errorCode == ""
    && after.startedAt == (if before.startedAt.Some? then before.startedAt else Some(now))
    && after.attached == before.attached && after.total == before.total
    && after.completed == before.completed && after.failed == before.failed && after.kind == before.kind
    && after.result == (if before.status in {Completed, Failed} then "" else before.result)
  }

  /** A claim takes the most urgent due task, opens its next attempt and leases it to the worker from now on. */
  lemma ClaimTakesMostUrgent(db: Db, t: string, pool: string, worker: string, now: int, lease: int)
    requires Claim(db, t, pool, worker, now, lease).Ok?
    ensures pool != "" && worker != "" && lease > 0 && MostUrgent(db.tasks, pool, now, t)
    ensures var d := Claim(db, t, pool, worker, now, lease).value; var row := db.tasks[t];
      && t in d.tasks && d.tasks == db.tasks[t := d.tasks[t]]
      && d.tasks[t].status.Running? && d.tasks[t].leaseOwner == worker && d.tasks[t].leaseExpires == Some(now + lease)
      && d.tasks[t].attemptCount == row.attemptCount + 1
      && d.tasks[t].startedAt == (if row.startedAt.Some? then row.startedAt else Some(now))
      && d.tasks[t].work == row.work && d.tasks[t].op == row.op && d.tasks[t].createdAt == row.createdAt
      && d.attempts == db.attempts[Gen(t, row.attemptCount + 1) := Attempt(worker, now, None, InProgress, "")]
      && (row.op.None? ==> d.ops == db.ops)
      && (row.op.Some? ==> var o := row.op.value;
            o in db.ops && o in d.ops && d.ops == db.ops[o := d.ops[o]] && StartedBy(db.ops[o], d.ops[o], now))
  {
    NextIsMostUrgent(db, pool, now, t);
  }

  // ---------------------------------------------------------------- how long a lease holds

  /** From the claim on, the worker holds the task for as long as the lease lasts and not longer, and recovery may
      take it from the moment it ends. */
  lemma ClaimHoldsUntil(db: Db, t: string, pool: string, worker: string, now: int, lease: int, at: int)
    requires Claim(db, t, pool, worker, now, lease).Ok?
    ensures var d := Claim(db, t, pool, worker, now, lease).value;
      && t in d.tasks
      && (Holds(d, t, worker, at) <==> at < now + lease)
      && (forall w | w != worker :: !Holds(d, t, w, at))
      && (HoldsGen(d, Gen(t, d.tasks[t].attemptCount), at) <==> at < now + lease)
      && (forall n: nat | n != d.tasks[t].attemptCount :: !HoldsGen(d, Gen(t, n), at))
      && (Expired(d.tasks[t], at) <==> at >= now + lease)
  {
  }

  lemma RenewalHoldsUntil(db: Db, t: string, worker: string, now: int, lease: int, at: int)
    requires Renew(db, t, worker, now, lease).Ok?
    ensures lease > 0 && t in db.tasks
    ensures var d := Renew(db, t, worker, now, lease).value;
      && t in d.tasks && d.tasks == db.tasks[t := d.tasks[t]] && d == db.(tasks := d.tasks)
      && d.tasks[t] == db.tasks[t].(leaseExpires := Some(now + lease))
      && (Holds(d, t, worker, at) <==> at < now + lease) && (Expired(d.tasks[t], at) <==> at >= now + lease)
  {
  }

  /** A running task is at any time either held by its owner or open to recovery, and never both; a task that does not
      run is neither. */
  lemma HeldOrExpired(db: Db, t: string, at: int)
    requires t in db.tasks && (db.tasks[t].status.Running? ==> db.tasks[t].leaseExpires.Some?)
    ensures db.tasks[t].status.Running? ==>
      && (Holds(db, t, db.tasks[t].leaseOwner, at) <==> !Expired(db.tasks[t], at))
      && (HoldsGen(db, Gen(t, db.tasks[t].attemptCount), at) <==> !Expired(db.tasks[t], at))
    ensures !db.tasks[t].status.Running? ==>
      !Expired(db.tasks[t], at) && (forall w :: !Holds(db, t, w, at)) && forall n: nat :: !HoldsGen(db, Gen(t, n), at)
  {
  }

  // ---------------------------------------------------------------- how an attempt ends

  /** After a failure the task waits until the asked time, or from now on when none is asked, while attempts remain;
      otherwise it has failed. Its attempt is closed with the error. */
  lemma FailureSchedulesRetry(db: Db, t: string, worker: string, now: int, retryAt: Option<int>, code: string)
    requires Fail(db, t, worker, now, retryAt, code).Ok?
    ensures t in db.tasks && db.tasks[t].status.Running? && db.tasks[t].leaseOwner == worker
    ensures var d := Fail(db, t, worker, now, retryAt, code).value; var row := db.tasks[t];
      && t in d.tasks && d.tasks[t].errorCode == code && d.tasks[t].attemptCount == row.attemptCount
      && d.tasks[t].work == row.work
      && (if row.attemptCount < row.work.maxAttempts
          then && d.tasks[t].status == Pending && d.tasks[t].finishedAt == None
               && d.tasks[t].availableAt == (if retryAt.Some? then retryAt.value else now)
               && (forall at, pool | pool == row.work.resourceClass ::
                     Due(d.tasks[t], pool, at) <==> at >= if retryAt.Some? then retryAt.value else now)
          else d.tasks[t].status == Failed && d.tasks[t].finishedAt == Some(now))
      && Gen(t, row.attemptCount) in db.attempts
      && d.attempts == db.attempts[Gen(t, row.attemptCount) :=
           db.attempts[Gen(t, row.attemptCount)].(finishedAt := Some(now), outcome := Errored, errorCode := code)]
  {
    var row := db.tasks[t];
    var ended := RetriedRow(row, now, Coalesce(retryAt, now), code);
    if ended.status.Failed? {
      var g := Gen(t, row.attemptCount);
      var closed := db.(tasks := db.tasks[t := ended],
                        attempts := db.attempts[g := ClosedAttempt(db.attempts[g], Errored, now, code)]);
      ExhaustKeepsRow(closed, t, now);
    }
  }

  lemma ExhaustKeepsRow(db: Db, t: string, now: int)
    requires t in db.tasks && Exhaust(db, t, now).Ok?
    ensures var d := Exhaust(db, t, now).value; t in d.tasks && d.tasks[t] == db.tasks[t] && d.attempts == db.attempts
  {
    assert |t + CLEANUP_SUFFIX| > |t|;
    var counted := RecordTerminal(db, db.tasks[t].op, now, 0, 1).value;
    assert counted.tasks == db.tasks && counted.attempts == db.attempts;
  }

  /** Completion under a worker id needs the lease and closes attempt and task at once; so does completion under a
      generation, by whatever worker. */
  lemma CompletionCloses(db: Db, t: string, worker: string, now: int)
    requires CompleteByWorker(db, t, worker, now).Ok?
    ensures t in db.tasks && db.tasks[t].status.Running? && db.tasks[t].leaseOwner == worker && worker != ""
    ensures db.tasks[t].leaseExpires.Some? && now < db.tasks[t].leaseExpires.value
    ensures var d := CompleteByWorker(db, t, worker, now).value; Closed(db, d, t, now)
  {
  }

  lemma GenerationCompletionCloses(db: Db, g: Gen, now: int)
    requires CompleteByGeneration(db, g, now).Ok?
    ensures g.task in db.tasks && db.tasks[g.task].status.Running? && db.tasks[g.task].attemptCount == g.number
    ensures db.tasks[g.task].leaseExpires.Some? && now < db.tasks[g.task].leaseExpires.value
    ensures var d := CompleteByGeneration(db, g, now).value; Closed(db, d, g.task, now)
  {
  }

  /** The task is completed now, without error or lease, and its current attempt has succeeded now. */
  ghost predicate Closed(db: Db, d: Db, t: string, now: int) {
    && t in db.tasks && t in d.tasks && d.tasks == db.tasks[t := d.tasks[t]]
    && d.tasks[t].status == Completed && d.tasks[t].finishedAt == Some(now) && d.tasks[t].errorCode == ""
    && d.tasks[t].leaseOwner == "" && d.tasks[t].leaseExpires == None
    && d.tasks[t].work == db.tasks[t].work && d.tasks[t].attemptCount == db.tasks[t].attemptCount
    && var g := Gen(t, db.tasks[t].attemptCount);
       && g in db.attempts && db.attempts[g].outcome == InProgress
       && d.attempts == db.attempts[g :=
            db.attempts[g].(finishedAt := Some(now), outcome := Succeeded, errorCode := "")]
  }

  /** A canceled task ends now, without an error, and the attempt it had open is revoked; the other tasks stay. */
  lemma CancellationRevokes(db: Db, t: string, now: int)
    requires CancelTask(db, t, now).Ok?
    ensures t in db.tasks && db.tasks[t].status in {Pending, Running}
    ensures var d := CancelTask(db, t, now).value; var g := Gen(t, db.tasks[t].attemptCount);
      && t in d.tasks && d.tasks == db.tasks[t := d.tasks[t]]
      && d.tasks[t].status == Canceled && d.tasks[t].finishedAt == Some(now) && d.tasks[t].errorCode == ""
      && d.tasks[t].leaseOwner == "" && d.tasks[t].leaseExpires == None
      && d.tasks[t].work == db.tasks[t].work && d.tasks[t].attemptCount == db.tasks[t].attemptCount
      && d.attempts.Keys == db.attempts.Keys
      && (forall h | h in db.attempts && h != g :: d.attempts[h] == db.attempts[h])
      && (db.tasks[t].attemptCount > 0 && g in db.attempts ==>
            d.attempts[g] == if db.attempts[g].outcome != InProgress then db.attempts[g]
                             else Attempt(db.attempts[g].worker, db.attempts[g].startedAt, Some(now), Revoked, ""))
  {
  }

  // ---------------------------------------------------------------- what is enqueued

  /** The row carries the description, with three attempts and the default pool where it names none. */
  predicate DescribedBy(row: Task, w: Work) {
    && row.work.dedupe == w.dedupe && row.work.kind == w.kind && row.work.inputKey == w.inputKey
    && row.work.subjectKind == w.subjectKind && row.work.subjectId == w.subjectId
    && row.work.priority == w.priority
    && row.work.maxAttempts == (if w.maxAttempts == 0 then 3 else w.maxAttempts)
    && row.work.resourceClass == (if w.resourceClass == "" then "default" else w.resourceClass)
  }

  /** One more child: a declared total grows only when it would be exceeded, and a finished operation waits again,
      without its end, its error and its result. */
  predicate GrownBy(before: Operation, after: Operation) {
    && before.status != Canceled
    && after.attached == before.attached + 1
    && after.total == (if before.total == 0 || before.total > before.attached then before.total
                       else before.attached + 1)
    && after.completed == before.completed && after.failed == before.failed
    && after.kind == before.kind && after.visible == before.visible && after.startedAt == before.startedAt
    && if before.status in {Completed, Failed}
       then after.status == Pending && after.finishedAt == None && after.errorCode == "" && after.result == ""
       else after.status == before.status && after.finishedAt == before.finishedAt
            && after.errorCode == before.errorCode && after.result == before.result
  }

  /** The row of a new task: it waits, for the given time or else from its creation on, three attempts by default, in
      the default pool by default. */
  lemma EnqueuedRow(db: Db, n: NewTask, now: int)
    requires Enqueue(db, n, now).Ok? && Enqueue(db, n, now).value.1
    ensures n.id != "" && n.id !in db.tasks && n.work.dedupe != "" && n.work.kind != "" && n.work.maxAttempts >= 0
    ensures forall u | u in db.tasks && db.tasks[u].status in {Pending, Running} ::
      db.tasks[u].work.dedupe != n.work.dedupe
    ensures var d := Enqueue(db, n, now).value.0;
      && d.tasks.Keys == db.tasks.Keys + {n.id} && (forall u | u in db.tasks :: d.tasks[u] == db.tasks[u])
      && var row := d.tasks[n.id];
         && row.status == Pending && row.attemptCount == 0 && row.op == n.op && row.errorCode == ""
         && row.startedAt == None && row.finishedAt == None && row.leaseOwner == "" && row.leaseExpires == None
         && row.createdAt == (if n.createdAt.Some? then n.createdAt.value else now)
         && row.availableAt == (if n.availableAt.Some? then n.availableAt.value else row.createdAt)
         && DescribedBy(row, n.work)
  {
  }

  lemma EnqueuedParent(db: Db, n: NewTask, now: int)
    requires Enqueue(db, n, now).Ok? && Enqueue(db, n, now).value.1
    ensures var d := Enqueue(db, n, now).value.0;
      && d == db.(tasks := d.tasks, ops := d.ops)
      && (n.op.None? ==> d.ops == db.ops)
      && (n.op.Some? ==> var o := n.op.value;
            o in db.ops && o in d.ops && d.ops == db.ops[o := d.ops[o]] && GrownBy(db.ops[o], d.ops[o]))
  {
  }

  // ---------------------------------------------------------------- calls on one row

  /** Work has arrived below the operation. */
  predicate HasWork(tasks: Tasks, o: string) { exists t | t in tasks :: tasks[t].op == Some(o) }

  lemma NoWorkIsNoChildren(tasks: Tasks, o: string)
    ensures |Children(tasks, o)| == 0 <==> !HasWork(tasks, o)
  {
    if t :| t in tasks && tasks[t].op == Some(o) { assert t in Children(tasks, o); }
    if |Children(tasks, o)| > 0 { var t :| t in Children(tasks, o); }
  }

  /** Waiting, without work, result or end, and not claimed by a producer. */
  predicate Fresh(row: Operation, kind: string, visible: bool, total: int) {
    && row.kind == kind && row.visible == visible && row.status == Pending && row.total == total
    && row.completed == row.failed == row.attached == 0 && row.startedAt == row.finishedAt == None
    && row.errorCode == row.result == row.checkpoint == "" && !row.producerClaimed
  }

  /** An operation is created under a new id only. */
  lemma CreationSucceedsIff(db: Db, o: string, kind: string, visible: bool, total: int)
    ensures var r := CreateOperation(db, o, kind, visible, total);
      && (r.Ok? <==> o != "" && kind != "" && total >= 0 && o !in db.ops)
      && (r.Ok? ==>
            && o in r.value.ops && r.value == db.(ops := db.ops[o := r.value.ops[o]])
            && Fresh(r.value.ops[o], kind, visible, total))
  {
  }

  /** Checkpoint and result are written while the operation is pending or running; the result that refers to a tag
      mutation only after the mutation has one. */
  lemma PayloadsAreWrittenIff(db: Db, o: string, text: string)
    ensures SetCheckpoint(db, o, text).Ok? <==>
      o != "" && 0 < |text| <= 1048576 && o in db.ops && db.ops[o].status in {Pending, Running}
    ensures SetResult(db, o, text).Ok? <==>
      && o != "" && 0 < |text| <= 1048576 && o in db.ops && db.ops[o].status in {Pending, Running}
      && (text == MUTATION_RESULT ==> o in db.mutations && db.mutations[o].affected.Some?)
    ensures SetCheckpoint(db, o, text).Ok? ==>
      SetCheckpoint(db, o, text).value == db.(ops := db.ops[o := db.ops[o].(checkpoint := text)])
    ensures SetResult(db, o, text).Ok? ==>
      SetResult(db, o, text).value == db.(ops := db.ops[o := db.ops[o].(result := text)])
  {
  }

  /** Any existing operation can be hidden or shown; a producer claims one that is pending, not claimed and without
      work. */
  lemma FlagsAreWrittenIff(db: Db, o: string, visible: bool)
    ensures SetVisible(db, o, visible).Ok? <==> o != "" && o in db.ops
    ensures SetVisible(db, o, visible).Ok? ==>
      SetVisible(db, o, visible).value == db.(ops := db.ops[o := db.ops[o].(visible := visible)])
    ensures ClaimProducer(db, o).Ok? <==>
      o != "" && o in db.ops && db.ops[o].status == Pending && !db.ops[o].producerClaimed && !HasWork(db.tasks, o)
    ensures ClaimProducer(db, o).Ok? ==>
      ClaimProducer(db, o).value == db.(ops := db.ops[o := db.ops[o].(producerClaimed := true)])
  {
    NoWorkIsNoChildren(db.tasks, o);
  }

  /** A pending task is only ever moved to a later time. */
  lemma PostponementSucceedsIff(db: Db, t: string, at: int)
    ensures var r := Postpone(db, t, at);
      && (r.Ok? <==> t != "" && t in db.tasks && db.tasks[t].status == Pending && at > db.tasks[t].availableAt)
      && (r.Ok? ==> r.value == db.(tasks := db.tasks[t := db.tasks[t].(availableAt := at)]))
  {
  }

  /** A snapshot is taken once, of a hidden pending operation without work, and counts its targets. */
  lemma SnapshotSucceedsIff(db: Db, o: string, kind: MutationKind, tags: set<string>, targetKind: TargetKind,
                            targets: set<string>)
    ensures var r := Snapshot(db, o, kind, tags, targetKind, targets);
      && (r.Ok? <==>
            && o != "" && o in db.ops && !db.ops[o].visible && db.ops[o].status == Pending
            && !HasWork(db.tasks, o) && o !in db.mutations && (targetKind == FileIds ==> "" !in targets))
      && (r.Ok? ==>
            r.value == db.(mutations := db.mutations[o := Mutation(kind, tags, targetKind, targets, |targets|, None)]))
  {
    NoWorkIsNoChildren(db.tasks, o);
  }

  /** An auxiliary is bound when both operations are active, it is of the kind asked for, no other link leads to it, and
      the link it replaces, if any, leads to a finished operation. */
  lemma AssociationSucceedsIff(db: Db, producer: string, kind: string, aux: string)
    ensures var r := Associate(db, producer, kind, aux); var l := Link(producer, kind);
      && (r.Ok? <==>
            && producer != "" && kind != "" && aux != "" && producer != aux
            && producer in db.ops && db.ops[producer].status in {Pending, Running}
            && aux in db.ops && db.ops[aux].kind == kind && db.ops[aux].status in {Pending, Running}
            && (l in db.links ==> db.links[l] in db.ops && db.ops[db.links[l]].status in {Completed, Failed, Canceled})
            && (forall m | m in db.links && m != l :: db.links[m] != aux))
      && (r.Ok? ==> r.value == db.(links := db.links[l := aux]))
  {
  }
}
