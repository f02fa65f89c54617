/** The durable work store: each method runs the statements of one transaction in the order the store issues
    them, and is proved to commit exactly the tables that `QueueSpec` describes, or to roll back. */
module QueueStore {
  import opened Basics
  import opened QueueModel
  import S = QueueSpec
  import Rules = QueueRules

  /** How many bound variables one statement may carry. */
  const MAX_VARS := 900

  lemma SubsetSize(a: set<string>, b: set<string>)
    requires a <= b
    ensures |a| <= |b| && (|a| == |b| <==> a == b)
  {
    var rest := b - a;
    assert b == a + rest && |a + rest| == |a| + |rest|;
    if |a| == |b| { assert rest == {}; }
  }

  lemma {:induction false} DistinctSize(s: seq<string>)
    requires forall i, j | 0 <= i < j < |s| :: s[i] != s[j]
    ensures |set x | x in s| == |s|
    decreases |s|
  {
    if s == [] {
      assert (set x | x in s) == {};
    } else {
      var init, last := s[..|s| - 1], s[|s| - 1];
      DistinctSize(init);
      assert s == init + [last] && last !in init;
      assert (set x | x in s) == (set x | x in init) + {last};
    }
  }

  predicate OpenAt(attempts: map<Gen, Attempt>, t: string, number: nat) {
    Gen(t, number) in attempts && attempts[Gen(t, number)].outcome.InProgress?
  }

  predicate AllOpen(attempts: map<Gen, Attempt>, rows: seq<string>, numbers: map<string, nat>) {
    forall t | t in rows && t in numbers :: OpenAt(attempts, t, numbers[t])
  }

  /** UPDATE background_task_attempts SET outcome = 'abandoned' for one list of rows. */
  function AbandonRows(attempts: map<Gen, Attempt>, rows: seq<string>, numbers: map<string, nat>, now: int): map<Gen,
      Attempt> {
    map g | g in attempts ::
      if g.task in rows && g.task in numbers && g.number == numbers[g.task] && attempts[g].outcome.InProgress?
      then S.ClosedAttempt(attempts[g], Abandoned, now, "lease_expired")
      else attempts[g]
  }

  lemma BatchIsNew(rows: seq<string>, start: nat, end: nat)
    requires start <= end <= |rows| && forall i, j | 0 <= i < j < |rows| :: rows[i] != rows[j]
    ensures forall t | t in rows[start..end] :: t in rows && t !in rows[..start]
    ensures forall t :: t in rows[..end] <==> t in rows[..start] || t in rows[start..end]
    ensures forall i, j | 0 <= i < j < |rows[start..end]| :: rows[start..end][i] != rows[start..end][j]
  {
    assert rows[..end] == rows[..start] + rows[start..end];
    forall t | t in rows[start..end] ensures t in rows && t !in rows[..start] {
      var i :| 0 <= i < |rows[start..end]| && rows[start..end][i] == t;
      assert rows[start + i] == t;
    }
  }

  /** A statement affects as many rows as its batch names exactly when every named attempt is open. */
  lemma BatchCount(attempts: map<Gen, Attempt>, batch: seq<string>, numbers: map<string, nat>)
    requires (forall t | t in batch :: t in numbers) && forall i, j | 0 <= i < j < |batch| :: batch[i] != batch[j]
    ensures |set t | t in batch && t in numbers && OpenAt(attempts, t, numbers[t])| == |batch|
      <==> AllOpen(attempts, batch, numbers)
  {
    var hit, all := set t | t in batch && t in numbers && OpenAt(attempts, t, numbers[t]), set t | t in batch;
    SubsetSize(hit, all);
    DistinctSize(batch);
    if hit == all { forall t | t in batch ensures OpenAt(attempts, t, numbers[t]) { assert t in hit; } }
    if AllOpen(attempts, batch, numbers) { assert hit == all; }
  }

  /** Two batches of different rows do what one statement over both would do. */
  lemma AbandonMore(was: map<Gen, Attempt>, a: seq<string>, b: seq<string>, c: seq<string>, numbers: map<string, nat>,
      now: int)
    requires (forall t | t in b :: t !in a) && forall t :: t in c <==> t in a || t in b
    ensures AbandonRows(AbandonRows(was, a, numbers, now), b, numbers, now) == AbandonRows(was, c, numbers, now)
    ensures forall t | t in b && t in numbers ::
      OpenAt(AbandonRows(was, a, numbers, now), t, numbers[t]) <==> OpenAt(was, t, numbers[t])
  {
  }

  /** The two bulk statements together are the requeueing of the specification. */
  lemma RequeueStatements(db: Db, rows: seq<string>, numbers: map<string, nat>, now: int)
    requires S.Enumerates(rows, S.ExpiredTasks(db, now)) && numbers == map t | t in db.tasks :: db.tasks[t].attemptCount
    ensures AllOpen(db.attempts, rows, numbers)
      <==> !exists t | t in S.ExpiredTasks(db, now) :: !S.CurrentAttemptOpen(db, t)
    ensures AbandonRows(db.attempts, rows, numbers, now) == S.Requeue(db, now).attempts
  {
    forall t | t in rows ensures t in numbers && (OpenAt(db.attempts, t, numbers[t]) <==> S.CurrentAttemptOpen(db, t)) {
      
    }
  }

  lemma RevokingKeepsCounts(db: Db, o: string, now: int, code: string)
    ensures var tasks := S.RevokeChildren(db, o, now, code).tasks;
      && |InState(tasks, o, Completed)| == |InState(db.tasks, o, Completed)|
      && |InState(tasks, o, Failed)| == |InState(db.tasks, o, Failed)|
  {
    var tasks := S.RevokeChildren(db, o, now, code).tasks;
    assert InState(tasks, o, Completed) == InState(db.tasks, o, Completed);
    assert InState(tasks, o, Failed) == InState(db.tasks, o, Failed);
  }

  class Store {
    var tasks: Tasks
    var attempts: map<Gen, Attempt>
    var ops: map<string, Operation>
    var links: map<Link, string>
    var mutations: map<string, Mutation>
    var contents: set<string>
    var contentTags: set<(string, string)>

    constructor ()
      ensures Tables() == EMPTY
    {
      tasks, attempts, ops, links, mutations := map[], map[], map[], map[], map[];
      contents, contentTags := {}, {};
    }

    function Tables(): Db
      reads this
    {
      Db(tasks, attempts, ops, links, mutations, contents, contentTags)
    }

    /** A statement sequence inside a transaction did what `spec` says; after an error the caller rolls back. */
    ghost predicate Did(r: Result<()>, spec: Result<Db>)
      reads this
    {
      match spec case Ok(d) => r.Ok? && Tables() == d case Err(e) => r == Err(e)
    }

    /** A transaction committed what `spec` says, or left every table as it was. */
    ghost predicate Committed(r: Result<()>, was: Db, spec: Result<Db>)
      reads this
    {
      match spec case Ok(d) => r.Ok? && Tables() == d case Err(e) => r == Err(e) && Tables() == was
    }

    method Rollback(saved: Db)
      modifies this
      ensures Tables() == saved
    {
      tasks, attempts, ops, links, mutations := saved.tasks, saved.attempts, saved.ops, saved.links, saved.mutations;
      contents, contentTags := saved.contents, saved.contentTags;
    }

    // -------------------------------------------------------------- operation bookkeeping

    /** UPDATE ... SET status, with the trigger that releases drained auxiliaries. */
    method UpdateStatus(o: string, row: Operation, at: int)
      requires o in ops
      modifies this
      ensures Tables() == S.UpdateStatus(old(Tables()), o, row, at)
    {
      var before := ops[o].status;
      ops := ops[o := row];
      if Active(before) && !Active(row.status) {
        var now := Tables();
        ops := map a | a in now.ops :: if S.Releasable(now, o, a) then S.ReleasedRow(now, a, at) else now.ops[a];
      }
    }

    method MarkStarted(op: Option<string>, now: int) returns (r: Result<()>)
      modifies this
      ensures Did(r, S.MarkStarted(old(Tables()), op, now))
    {
      if op.None? { return Ok(()); }
      if op.value !in ops { return Err(MissingRow); }
      UpdateStatus(op.value, S.StartedRow(ops[op.value], now), now);
      return Ok(());
    }

    method RecordTerminal(op: Option<string>, now: int, completedDelta: nat, failedDelta: nat) returns (r: Result<()>)
      modifies this
      ensures Did(r, S.RecordTerminal(old(Tables()), op, now, completedDelta, failedDelta))
    {
      if op.None? { return Ok(()); }
      var o := op.value;
      if o !in ops { return Err(MissingRow); }
      ops := ops[o := ops[o].(completed := ops[o].completed + completedDelta, failed := ops[o].failed + failedDelta)];
      if HasActiveChild(tasks, o) { return Ok(()); }
      var canceled := |InState(tasks, o, Canceled)|;
      var terminalCount := ops[o].completed + ops[o].failed + canceled;
      if ops[o].total > 0 && terminalCount < ops[o].total { return Ok(()); }
      if ProducerActive(ops, links, o) { return Ok(()); }
      var status, errorCode := Completed, "";
      if ops[o].failed > 0 {
        status, errorCode := Failed, "child_task_failed";
      } else if canceled > 0 {
        status := Canceled;
      }
      UpdateStatus(o, ops[o].(status := status, startedAt := Some(Coalesce(ops[o].startedAt, now)),
                              finishedAt := Some(now), errorCode := errorCode), now);
      return Ok(());
    }

    // -------------------------------------------------------------- enqueue

    /** INSERT ... ON CONFLICT(dedupe_key) DO NOTHING, with its triggers and keys. */
    method InsertTask(id: string, row: Task) returns (r: Result<bool>)
      modifies this
      ensures var d := old(Tables());
        if row.op.Some? && row.op.value in d.ops && d.ops[row.op.value].status.Canceled? then r == Err(ParentCanceled)
        else if ActiveDedupe(d.tasks, row.work.dedupe) then r == Ok(false) && Tables() == d
        else if id in d.tasks then r == Err(DuplicateId)
        else if row.op.Some? && row.op.value !in d.ops then r == Err(MissingRow)
        else r == Ok(true) && Tables() == S.InsertTask(d, id, row)
    {
      if row.op.Some? && row.op.value in ops && ops[row.op.value].status.Canceled? { return Err(ParentCanceled); }
      if ActiveDedupe(tasks, row.work.dedupe) { return Ok(false); }
      if id in tasks { return Err(DuplicateId); }
      if row.op.Some? && row.op.value !in ops { return Err(MissingRow); }
      tasks := tasks[id := row];
      if row.op.Some? { ops := ops[row.op.value := S.Reopened(ops[row.op.value])]; }
      return Ok(true);
    }

    method Enqueue(n: S.NewTask, now: int) returns (r: Result<bool>)
      modifies this
      ensures match S.Enqueue(old(Tables()), n, now)
              case Ok(d) => r == Ok(d.1) && Tables() == d.0
              case Err(e) => r == Err(e)
    {
      if n.id == "" || n.work.dedupe == "" || n.work.kind == "" { return Err(Invalid); }
      var resourceClass := if n.work.resourceClass == "" then "default" else n.work.resourceClass;
      var maxAttempts := if n.work.maxAttempts == 0 then 3 else n.work.maxAttempts;
      if maxAttempts < 1 { return Err(Invalid); }
      var cleanup := S.NormalizeCleanup(n.cleanup);
      if cleanup.Err? { return Err(Invalid); }
      var createdAt := Coalesce(n.createdAt, now);
      var availableAt := Coalesce(n.availableAt, createdAt);
      r := InsertTask(n.id, Task(n.op, n.work.(resourceClass := resourceClass, maxAttempts := maxAttempts),
        cleanup.value,
                                 Pending, availableAt, "", None, createdAt, None, None, 0, ""));
    }

    method EnqueueOnce(n: S.NewTask, now: int) returns (r: Result<()>)
      modifies this
      ensures Did(r, S.EnqueueOnce(old(Tables()), n, now))
    {
      var created := Enqueue(n, now);
      if created.Err? { return Err(created.error); }
      if !created.value { return Err(DedupeActive); }
      return Ok(());
    }

    method EnqueueTerminalCleanup(t: string, now: int) returns (r: Result<()>)
      modifies this
      ensures Did(r, S.EnqueueTerminalCleanup(old(Tables()), t, now))
    {
      if t !in tasks { return Err(MissingRow); }
      match tasks[t].cleanup
      case None => return Ok(());
      case Some(w) => r := EnqueueOnce(S.NewTask(t + S.CLEANUP_SUFFIX, None, w, None, Some(now), Some(now)), now);
    }

    // -------------------------------------------------------------- the worker's transactions

    /** The claimed task, or none when no pending task of the pool is due. */
    method Claim(pool: string, worker: string, now: int, lease: int) returns (r: Result<Option<string>>)
      modifies this
      ensures match r
              case Ok(Some(t)) =>
                && Rules.MostUrgent(old(tasks), pool, now, t)
                && S.Claim(old(Tables()), t, pool, worker, now, lease) == Ok(Tables())
              case Ok(None) =>
                Tables() == old(Tables()) && forall t | t in tasks :: !Rules.Due(tasks[t], pool, now)
              case Err(e) =>
                && Tables() == old(Tables())
                && (e == Invalid || exists t :: S.Claim(Tables(), t, pool, worker, now, lease) == Err(e))
    {
      if pool == "" || worker == "" || lease <= 0 { return Err(Invalid); }
      var saved := Tables();
      Rules.NextTask(saved, pool, now);
      if t :| t in tasks && S.IsNext(saved, pool, now, t) {
        tasks := tasks[t := S.ClaimedRow(tasks[t], worker, now, lease)];
        var g := Gen(t, tasks[t].attemptCount);
        if g in attempts {
          Rollback(saved);
          assert S.Claim(Tables(), t, pool, worker, now, lease) == Err(DuplicateId);
          return Err(DuplicateId);
        }
        attempts := attempts[g := Attempt(worker, now, None, InProgress, "")];
        var marked := MarkStarted(tasks[t].op, now);
        if marked.Err? {
          Rollback(saved);
          assert S.Claim(Tables(), t, pool, worker, now, lease) == Err(marked.error);
          return Err(marked.error);
        }
        return Ok(Some(t));
      }
      return Ok(None);
    }

    method Renew(t: string, worker: string, now: int, lease: int) returns (r: Result<()>)
      modifies this
      ensures Committed(r, old(Tables()), S.Renew(old(Tables()), t, worker, now, lease))
    {
      if t == "" || worker == "" || lease <= 0 { return Err(Invalid); }
      if !S.Holds(Tables(), t, worker, now) { return Err(LeaseLost); }
      tasks := tasks[t := tasks[t].(leaseExpires := Some(now + lease))];
      return Ok(());
    }

    method Postpone(t: string, at: int) returns (r: Result<()>)
      modifies this
      ensures Committed(r, old(Tables()), S.Postpone(old(Tables()), t, at))
    {
      if t == "" { return Err(Invalid); }
      if !(t in tasks && tasks[t].status.Pending? && tasks[t].availableAt < at) { return Err(NothingToDo); }
      tasks := tasks[t := tasks[t].(availableAt := at)];
      return Ok(());
    }

    method CompleteByWorker(t: string, worker: string, now: int) returns (r: Result<()>)
      modifies this
      ensures Committed(r, old(Tables()), S.CompleteByWorker(old(Tables()), t, worker, now))
    {
      if t == "" || worker == "" { return Err(Invalid); }
      var saved := Tables();
      if !S.Holds(saved, t, worker, now) { return Err(LeaseLost); }
      tasks := tasks[t := S.EndedRow(tasks[t], Completed, now, "")];
      var g := Gen(t, tasks[t].attemptCount);
      if !(g in attempts && attempts[g].worker == worker && attempts[g].outcome.InProgress?) {
        Rollback(saved);
        return Err(AttemptMismatch);
      }
      attempts := attempts[g := S.ClosedAttempt(attempts[g], Succeeded, now, "")];
      r := RecordTerminal(tasks[t].op, now, 1, 0);
      if r.Err? { Rollback(saved); }
    }

    /** Runs inside the transaction of the handler that finishes its own task. */
    method CompleteByGeneration(g: Gen, now: int) returns (r: Result<()>)
      modifies this
      ensures Did(r, S.CompleteByGeneration(old(Tables()), g, now))
    {
      if g.task == "" || g.number < 1 { return Err(Invalid); }
      if !S.HoldsGen(Tables(), g, now) { return Err(LeaseLost); }
      tasks := tasks[g.task := S.EndedRow(tasks[g.task], Completed, now, "")];
      if !(g in attempts && attempts[g].outcome.InProgress?) { return Err(AttemptMismatch); }
      attempts := attempts[g := S.ClosedAttempt(attempts[g], Succeeded, now, "")];
      r := RecordTerminal(tasks[g.task].op, now, 1, 0);
    }

    method Fail(t: string, worker: string, now: int, retryAt: Option<int>, code: string) returns (r: Result<()>)
      modifies this
      ensures Committed(r, old(Tables()), S.Fail(old(Tables()), t, worker, now, retryAt, code))
    {
      if t == "" || worker == "" { return Err(Invalid); }
      var saved := Tables();
      if !S.Holds(saved, t, worker, now) { return Err(LeaseLost); }
      tasks := tasks[t := S.RetriedRow(tasks[t], now, Coalesce(retryAt, now), code)];
      var g := Gen(t, tasks[t].attemptCount);
      if !(g in attempts && attempts[g].worker == worker && attempts[g].outcome.InProgress?) {
        Rollback(saved);
        return Err(AttemptMismatch);
      }
      attempts := attempts[g := S.ClosedAttempt(attempts[g], Errored, now, code)];
      if tasks[t].status.Failed? {
        r := Exhaust(t, now);
        if r.Err? { Rollback(saved); }
        return;
      }
      return Ok(());
    }

    // -------------------------------------------------------------- lease recovery

    /** Closes the attempts of the recovered rows batch by batch, each batch within the variable limit. */
    method AbandonAttempts(rows: seq<string>, numbers: map<string, nat>, now: int) returns (r: Result<()>)
      requires forall t | t in rows :: t in numbers
      requires forall i, j | 0 <= i < j < |rows| :: rows[i] != rows[j]
      modifies this`attempts
      ensures r == if AllOpen(old(attempts), rows, numbers) then Ok(()) else Err(AttemptMismatch)
      ensures r.Ok? ==> attempts == AbandonRows(old(attempts), rows, numbers, now)
    {
      var start := 0;
      var size := (MAX_VARS - 1) / 2;
      ghost var was := attempts;
      assert AbandonRows(was, rows[..0], numbers, now) == was;
      while start < |rows|
        invariant 0 <= start <= |rows|
        invariant AllOpen(was, rows[..start], numbers) && attempts == AbandonRows(was, rows[..start], numbers, now)
      {
        var end := if start + size < |rows| then start + size else |rows|;
        var batch := rows[start..end];
        var hit := set t | t in batch && t in numbers && OpenAt(attempts, t, numbers[t]);
        BatchIsNew(rows, start, end);
        BatchCount(attempts, batch, numbers);
        AbandonMore(was, rows[..start], batch, rows[..end], numbers, now);
        attempts := AbandonRows(attempts, batch, numbers, now);
        if |hit| != |batch| { return Err(AttemptMismatch); }
        start := end;
      }
      assert rows[..start] == rows;
      return Ok(());
    }

    /** The rows a statement returns, in an order the database chooses. */
    method Rows(ids: set<string>) returns (rows: seq<string>)
      ensures S.Enumerates(rows, ids)
    {
      rows := [];
      var rest := ids;
      while rest != {}
        invariant rest <= ids && S.Enumerates(rows, ids - rest)
        decreases |rest|
      {
        var t :| t in rest;
        rows := rows + [t];
        rest := rest - {t};
      }
      assert ids - rest == ids;
    }

    /** The two bulk statements of a recovery. */
    method RequeueExpired(expired: seq<string>, now: int) returns (r: Result<()>)
      requires S.Enumerates(expired, S.ExpiredTasks(Tables(), now))
      modifies this
      ensures if exists t | t in S.ExpiredTasks(old(Tables()), now) :: !S.CurrentAttemptOpen(old(Tables()), t)
              then r == Err(AttemptMismatch) else r.Ok? && Tables() == S.Requeue(old(Tables()), now)
    {
      ghost var was := Tables();
      var numbers := map t | t in tasks :: tasks[t].attemptCount;
      RequeueStatements(was, expired, numbers, now);
      tasks := map t | t in tasks ::
        if S.Expired(tasks[t], now) then S.RetriedRow(tasks[t], now, now, "lease_expired") else tasks[t];
      r := AbandonAttempts(expired, numbers, now);
    }

    method Recover(now: int) returns (r: Result<()>, ghost rows: seq<string>)
      modifies this
      ensures S.Enumerates(rows, S.ExpiredTasks(old(Tables()), now))
      ensures Committed(r, old(Tables()), S.Recover(old(Tables()), rows, now))
    {
      var saved := Tables();
      var expired := Rows(S.ExpiredTasks(saved, now));
      rows := expired;
      r := RequeueExpired(expired, now);
      if r.Ok? { r := ExhaustAll(expired, now); }
      if r.Err? { Rollback(saved); }
    }

    method ExhaustAll(expired: seq<string>, now: int) returns (r: Result<()>)
      modifies this
      ensures Did(r, S.ExhaustAll(old(Tables()), expired, now))
    {
      ghost var was := Tables();
      var i := 0;
      r := Ok(());
      assert expired[0..] == expired;
      while i < |expired|
        invariant 0 <= i <= |expired| && r.Ok?
        invariant S.ExhaustAll(Tables(), expired[i..], now) == S.ExhaustAll(was, expired, now)
      {
        var t := expired[i];
        assert expired[i..][0] == t && expired[i..][1..] == expired[i + 1..];
        if t !in tasks { return Err(MissingRow); }
        if tasks[t].status.Failed? {
          r := Exhaust(t, now);
          if r.Err? { return; }
        }
        i := i + 1;
      }
    }

    method Exhaust(t: string, now: int) returns (r: Result<()>)
      requires t in tasks
      modifies this
      ensures Did(r, S.Exhaust(old(Tables()), t, now))
    {
      r := RecordTerminal(tasks[t].op, now, 0, 1);
      if r.Ok? { r := EnqueueTerminalCleanup(t, now); }
    }

    // -------------------------------------------------------------- cancellation and producer failure

    method CancelTask(t: string, now: int) returns (r: Result<()>)
      modifies this
      ensures Committed(r, old(Tables()), S.CancelTask(old(Tables()), t, now))
    {
      if t == "" { return Err(Invalid); }
      var saved := Tables();
      if !(t in tasks && Active(tasks[t].status)) { return Err(NothingToDo); }
      tasks := tasks[t := S.EndedRow(tasks[t], Canceled, now, "")];
      if tasks[t].attemptCount > 0 {
        var g := Gen(t, tasks[t].attemptCount);
        if g in attempts && attempts[g].outcome.InProgress? {
          attempts := attempts[g := S.ClosedAttempt(attempts[g], Revoked, now, "")];
        }
      }
      r := RecordTerminal(tasks[t].op, now, 0, 0);
      if r.Err? { Rollback(saved); }
    }

    method CancelOperation(o: string, now: int, cleanup: Option<S.NewTask>) returns (r: Result<()>)
      modifies this
      ensures Committed(r, old(Tables()), S.CancelOperation(old(Tables()), o, now, cleanup))
    {
      if o == "" || (cleanup.Some? && cleanup.value.op.Some?) { return Err(Invalid); }
      var saved := Tables();
      if !(o in ops && Active(ops[o].status) && ops[o].result == "") { return Err(NothingToDo); }
      UpdateStatus(o, S.CanceledRow(ops[o], now), now);
      // the lease horizon is read before the leases are cleared
      var runningTasks, latest := |InState(tasks, o, Running)|, MaxLease(o);
      if runningTasks > 0 && latest.None? { Rollback(saved); return Err(MissingLease); }
      StopChildren(o, now);
      if cleanup.Some? {
        r := EnqueueOnce(S.Delayed(cleanup.value, now, latest), now);
        if r.Err? { Rollback(saved); }
        return;
      }
      return Ok(());
    }

    /** Open attempts are revoked, active children canceled, and then the counts refreshed. */
    method StopChildren(o: string, now: int)
      requires o in ops
      modifies this
      ensures Tables() == S.RefreshCounts(S.RevokeChildren(old(Tables()), o, now, ""), o)
    {
      attempts := map g | g in attempts ::
        if attempts[g].outcome.InProgress? && g.task in InState(tasks, o, Running)
        then S.ClosedAttempt(attempts[g], Revoked, now, "") else attempts[g];
      tasks := map t | t in tasks ::
        if tasks[t].op == Some(o) && Active(tasks[t].status) then S.EndedRow(tasks[t], Canceled, now, "") else tasks[t];
      ops := ops[o := ops[o].(completed := |InState(tasks, o, Completed)|, failed := |InState(tasks, o, Failed)|)];
    }

    function MaxLease(o: string): Option<int>
      reads this
    {
      S.MaxOf(S.Leases(tasks, o))
    }

    /** Open attempts are revoked, active children canceled and the counts, taken before, written. */
    method RevokeChildren(o: string, now: int, code: string, completedTasks: nat, failedTasks: nat)
      requires o in ops && completedTasks == |InState(tasks, o, Completed)|
        && failedTasks == |InState(tasks, o, Failed)|
      modifies this
      ensures Tables() == S.RefreshCounts(S.RevokeChildren(old(Tables()), o, now, code), o)
    {
      RevokingKeepsCounts(Tables(), o, now, code);
      attempts := map g | g in attempts ::
        if attempts[g].outcome.InProgress? && g.task in InState(tasks, o, Running)
        then S.ClosedAttempt(attempts[g], Revoked, now, code) else attempts[g];
      tasks := map t | t in tasks ::
        if tasks[t].op == Some(o)
          && Active(tasks[t].status) then S.EndedRow(tasks[t], Canceled, now, code) else tasks[t];
      ops := ops[o := ops[o].(completed := completedTasks, failed := failedTasks)];
    }

    /** The counts are taken before the children are canceled, which changes neither of them. */
    method FailOperation(o: string, now: int, code: string, cleanup: Option<S.NewTask>) returns (r: Result<()>)
      modifies this
      ensures Committed(r, old(Tables()), S.FailOperation(old(Tables()), o, now, code, cleanup))
    {
      if o == "" || (cleanup.Some? && cleanup.value.op.Some?) { return Err(Invalid); }
      var saved := Tables();
      if !(o in ops && Active(ops[o].status) && ops[o].result == "") { return Err(NothingToDo); }
      UpdateStatus(o, S.FailedRow(ops[o], now, code), now);
      var childTasks, runningTasks, latest := |Children(tasks, o)|, |InState(tasks, o, Running)|, MaxLease(o);
      var completedTasks, failedTasks := |InState(tasks, o, Completed)|, |InState(tasks, o, Failed)|;
      if runningTasks > 0 && latest.None? { Rollback(saved); return Err(MissingLease); }
      RevokeChildren(o, now, code, completedTasks, failedTasks);
      if cleanup.Some? && childTasks > 0 {
        r := EnqueueOnce(S.Delayed(cleanup.value, now, latest), now);
        if r.Err? { Rollback(saved); }
        return;
      }
      return Ok(());
    }

    // -------------------------------------------------------------- history clearing

    /** Three deletes, each of which selects the clearable operations anew. */
    method Clear() returns (cleared: nat)
      modifies this
      ensures Tables() == S.Clear(old(Tables())) && cleared == |S.ClearedOps(old(Tables()))|
    {
      ThreeDeletes(Tables());
      DeleteTasks(AttachedHistory(Tables()));
      DeleteTasks(DetachedHistory(Tables()));
      cleared := |S.ClearedOps(Tables())|;
      DeleteOps(S.ClearedOps(Tables()));
    }

    method DeleteTasks(gone: set<string>)
      modifies this
      ensures Tables() == S.DeleteTasks(old(Tables()), gone)
    {
      tasks := tasks - gone;
      attempts := map g | g in attempts && g.task !in gone :: attempts[g];
    }

    method DeleteOps(gone: set<string>)
      modifies this
      ensures Tables() == S.DeleteOps(old(Tables()), gone)
    {
      links := map l | l in links && l.producer !in gone && links[l] !in gone :: links[l];
      mutations := mutations - gone;
      tasks := map t | t in tasks ::
        if tasks[t].op.Some? && tasks[t].op.value in gone then tasks[t].(op := None) else tasks[t];
      ops := ops - gone;
    }

    // -------------------------------------------------------------- operations and their children

    /** INSERT ... SELECT ... WHERE (SELECT COUNT(*) ...) < ?: the limit and the insert are one statement. */
    method Admit(o: string, kind: string, visible: bool, total: int, maxPending: int) returns (r: Result<()>)
      modifies this
      ensures Committed(r, old(Tables()), S.AdmitOperation(old(Tables()), o, kind, visible, total, maxPending))
    {
      if o == "" || kind == "" || total < 0 || maxPending < 1 { return Err(Invalid); }
      if |set p | p in ops && ops[p].kind == kind && ops[p].status.Pending?| >= maxPending { return Err(NothingToDo); }
      if o in ops { return Err(DuplicateId); }
      ops := ops[o := S.NewOperation(kind, visible, total)];
      return Ok(());
    }

    method AttachAndReveal(o: string, checkpoint: string, n: S.NewTask, now: int) returns (r: Result<()>)
      modifies this
      ensures Did(r, S.AttachAndReveal(old(Tables()), o, checkpoint, n, now))
    {
      if o == "" || !(0 < |checkpoint| <= S.MAX_PAYLOAD) { return Err(Invalid); }
      if !(o in ops && Active(ops[o].status)) { return Err(NotAccepting); }
      ops := ops[o := ops[o].(checkpoint := checkpoint)];
      if !ops[o].status.Pending? || |Children(tasks, o)| != 0 { return Err(NotAccepting); }
      r := EnqueueOnce(n.(op := Some(o)), now);
      if r.Err? { return; }
      if o !in ops { return Err(MissingRow); }
      ops := ops[o := ops[o].(visible := true)];
    }

    /** Idempotent: a repeated attachment of the same description reports `Ok(false)`. */
    method AttachChild(o: string, checkpoint: string, n: S.NewTask, now: int) returns (r: Result<bool>)
      modifies this
      ensures match S.AttachChild(old(Tables()), o, checkpoint, n, now)
              case Ok(d) => r == Ok(d.1) && Tables() == d.0
              case Err(e) => r == Err(e) && Tables() == old(Tables())
    {
      if o == "" { return Err(Invalid); }
      var row := S.NewRow(n.(op := Some(o)), now);
      if row.Err? { return Err(row.error); }
      var saved := Tables();
      if o !in ops { return Err(MissingRow); }
      if n.id in tasks {
        if S.SameAttachment(tasks[n.id], o, row.value.work, row.value.cleanup) { return Ok(false); }
        return Err(DuplicateId);
      }
      if !Active(ops[o].status) { return Err(NotAccepting); }
      if ops[o].total > 0 && |Children(tasks, o)| >= ops[o].total { return Err(NotAccepting); }
      var attached := EnqueueOnce(n.(op := Some(o)), now);
      if attached.Err? { Rollback(saved); return Err(attached.error); }
      if !(0 < |checkpoint| <= S.MAX_PAYLOAD) { Rollback(saved); return Err(Invalid); }
      return Ok(true);
    }

    method Associate(producer: string, auxKind: string, aux: string) returns (r: Result<()>)
      modifies this
      ensures Committed(r, old(Tables()), S.Associate(old(Tables()), producer, auxKind, aux))
    {
      if producer == "" || auxKind == "" || aux == "" || producer == aux { return Err(Invalid); }
      var l := Link(producer, auxKind);
      if !(producer in ops && Active(ops[producer].status)) { return Err(NotAccepting); }
      if !(aux in ops && ops[aux].kind == auxKind && Active(ops[aux].status)) { return Err(NotAccepting); }
      if l in links && !(links[l] in ops && !Active(ops[links[l]].status)) { return Err(NotAccepting); }
      if exists m | m in links :: m != l && links[m] == aux { return Err(DuplicateId); }
      links := links[l := aux];
      return Ok(());
    }

    method CancelUnattached(kind: string, hiddenOnly: bool, now: int) returns (r: Result<seq<string>>)
      modifies this
      ensures kind == "" ==> r == Err(Invalid) && Tables() == old(Tables())
      ensures kind != "" ==>
        && r.Ok? && S.Enumerates(r.value, S.Unattached(old(Tables()), kind, hiddenOnly))
        && S.CancelUnattached(old(Tables()), kind, hiddenOnly, r.value, now) == Ok(Tables())
    {
      if kind == "" { return Err(Invalid); }
      var ids := Rows(S.Unattached(Tables(), kind, hiddenOnly));
      InterruptAll(ids, now);
      return Ok(ids);
    }

    method InterruptAll(ids: seq<string>, now: int)
      requires forall o | o in ids :: o in ops
      modifies this
      ensures Tables() == S.InterruptAll(old(Tables()), ids, now)
    {
      ghost var was := Tables();
      var i := 0;
      assert ids[0..] == ids;
      while i < |ids|
        invariant 0 <= i <= |ids| && ops.Keys == was.ops.Keys
        invariant S.InterruptAll(Tables(), ids[i..], now) == S.InterruptAll(was, ids, now)
      {
        assert ids[i] in ids && ids[i..][0] == ids[i] && ids[i..][1..] == ids[i + 1..];
        UpdateStatus(ids[i], S.InterruptedRow(ops[ids[i]], now), now);
        i := i + 1;
      }
    }

    method SetResult(o: string, result: string) returns (r: Result<()>)
      modifies this`ops
      ensures Committed(r, old(Tables()), S.SetResult(old(Tables()), o, result))
    {
      if o == "" || |result| == 0 || |result| > S.MAX_PAYLOAD { return Err(Invalid); }
      if result == S.MUTATION_RESULT && (o !in mutations || mutations[o].affected.None?) { return Err(MissingRow); }
      if !(o in ops && Active(ops[o].status)) { return Err(NotAccepting); }
      ops := ops[o := ops[o].(result := result)];
      return Ok(());
    }

    // -------------------------------------------------------------- tag mutations

    /** INSERT OR IGNORE of explicit targets, three variables each, counting the rows actually inserted. */
    method SnapshotFiles(o: string, kind: MutationKind, tags: set<string>, ids: seq<string>) returns (r: Result<()>)
      modifies this
      ensures Did(r, S.Snapshot(old(Tables()), o, kind, tags, FileIds, set t | t in ids))
    {
      if o == "" { return Err(Invalid); }
      if !(o in ops && !ops[o].visible && ops[o].status.Pending? && |Children(tasks, o)| == 0) {
        return Err(NotAccepting);
      }
      if o in mutations { return Err(DuplicateId); }
      var complete := AllNamed(ids);
      if !complete { return Err(Invalid); }
      var targets, matched := InsertTargets(ids);
      mutations := mutations[o := Mutation(kind, tags, FileIds, targets, matched, None)];
      return Ok(());
    }

    static method AllNamed(ids: seq<string>) returns (ok: bool)
      ensures ok <==> "" !in ids
    {
      var i := 0;
      while i < |ids|
        invariant 0 <= i <= |ids| && "" !in ids[..i]
      {
        if ids[i] == "" { return false; }
        i := i + 1;
      }
      assert ids[..i] == ids;
      return true;
    }

    static lemma BatchGrows(ids: seq<string>, start: nat, end: nat)
      requires start <= end <= |ids|
      ensures (set t | t in ids[..end]) == (set t | t in ids[..start]) + set t | t in ids[start..end]
    {
      assert ids[..end] == ids[..start] + ids[start..end];
    }

    /** INSERT OR IGNORE in batches, adding up the rows that each of them inserts. */
    static method InsertTargets(ids: seq<string>) returns (targets: set<string>, matched: nat)
      ensures targets == (set t | t in ids) && matched == |targets|
    {
      var start := 0;
      matched, targets := 0, {};
      while start < |ids|
        invariant 0 <= start <= |ids| && matched == |targets|
        invariant targets == set t | t in ids[..start]
      {
        var end := if start + MAX_VARS / 3 < |ids| then start + MAX_VARS / 3 else |ids|;
        BatchGrows(ids, start, end);
        var inserted := (set t | t in ids[start..end]) - targets;
        targets := targets + inserted;
        matched := matched + |inserted|;
        start := end;
      }
      assert ids[..start] == ids;
    }

    method CreateFileMutation(o: string, opKind: string, total: int, maxPending: int, kind: MutationKind,
        tags: set<string>, ids: seq<string>, checkpoint: string, n: S.NewTask, now: int) returns (r: Result<()>)
      modifies this
      ensures Committed(r, old(Tables()),
        S.CreateMutation(old(Tables()), o, opKind, total, maxPending, kind, tags, FileIds,
                                                           (set t | t in ids), checkpoint, n, now))
    {
      var saved := Tables();
      r := Admit(o, opKind, false, total, maxPending);
      if r.Err? { return; }
      r := SnapshotFiles(o, kind, tags, ids);
      if r.Ok? {
        if n.op.Some? && n.op.value != o { r := Err(Invalid); } else { r := AttachAndReveal(o, checkpoint, n, now); }
      }
      if r.Err? { Rollback(saved); }
    }

    /** The statements of one tagging operation; `byQuery` selects how a replacement is counted. */
    method ApplyTags(seen: Mutation, targets: set<string>, byQuery: bool) returns (r: Result<nat>)
      modifies this`contentTags
      ensures var d := old(Tables());
        if !S.EffectiveKind(seen).RemoveTags? && seen.tags != {} && !(targets <= d.contents) then r == Err(MissingRow)
        else
          && r == Ok(S.AffectedCount(d.contentTags, seen, targets, byQuery))
          && contentTags == S.Retagged(d.contentTags, seen, targets)
    {
      var pairs := S.Pairs(targets, seen.tags);
      if seen.kind.SetTags? || (seen.kind.RemoveTags? && seen.tags == {}) {
        var cleared := S.TagsOf(contentTags, targets);
        contentTags := contentTags - cleared;
        if seen.tags != {} && !(targets <= contents) { return Err(MissingRow); }
        var associated := pairs - contentTags;
        AllNew(old(contentTags), targets, seen.tags);
        contentTags := contentTags + associated;
        return Ok(if byQuery then seen.matched else |cleared| + |associated|);
      } else if seen.kind.AddTags? {
        if seen.tags != {} && !(targets <= contents) { return Err(MissingRow); }
        var added := pairs - contentTags;
        contentTags := contentTags + added;
        UnionOfNew(old(contentTags), pairs);
        return Ok(|added|);
      } else {
        var removed := pairs * contentTags;
        contentTags := contentTags - removed;
        MinusCommon(old(contentTags), pairs);
        return Ok(|removed|);
      }
    }

    /** Effect, write-once result, result marker and completion of the claim, in one transaction. */
    method Mutate(o: string, seen: Mutation, targets: set<string>, byQuery: bool, claim: Option<Gen>, now: int)
        returns (r: Result<()>)
      modifies this
      ensures Did(r, S.Mutate(old(Tables()), o, seen, targets, byQuery, claim, now))
    {
      var count := ApplyTags(seen, targets, byQuery);
      if count.Err? { return Err(count.error); }
      if !(o in mutations && mutations[o].affected.None?) { return Err(AlreadyFinal); }
      mutations := mutations[o := mutations[o].(affected := Some(count.value))];
      r := SetResult(o, S.MUTATION_RESULT);
      if r.Err? { return; }
      if claim.Some? { r := CompleteByGeneration(claim.value, now); }
    }

    /** `seen` was read before the transaction; whatever happened since is checked again inside it. */
    method ExecuteQuery(o: string, seen: Option<Mutation>, claim: Option<Gen>, now: int) returns (r: Result<()>)
      modifies this
      ensures Committed(r, old(Tables()), S.ExecuteQuery(old(Tables()), o, seen, claim, now))
    {
      if seen.None? { return Err(MissingRow); }
      if seen.value.affected.Some? { return Err(NothingToDo); }
      if !seen.value.targetKind.ContentHashes? { return Err(Invalid); }
      var saved := Tables();
      r := Mutate(o, seen.value, if o in mutations then mutations[o].targets else {}, true, claim, now);
      if r.Err? { Rollback(saved); }
    }

    /** The managed-file executor: the analysed files' hashes are collected in a loop, then one transaction writes. */
    method ExecuteFiles(o: string, seen: Option<Mutation>, hashes: seq<string>, registered: set<string>,
                        claim: Option<Gen>, now: int) returns (r: Result<()>)
      modifies this
      ensures Committed(r, old(Tables()), S.ExecuteFiles(old(Tables()), o, seen, hashes, registered, claim, now))
    {
      if seen.None? { return Err(MissingRow); }
      if seen.value.affected.Some? { return Err(NothingToDo); }
      if !seen.value.targetKind.FileIds? { return Err(Invalid); }
      if |hashes| != seen.value.matched { return Err(Invalid); }
      var saved := Tables();
      var targets, i := {}, 0;
      while i < |hashes|
        invariant 0 <= i <= |hashes| && targets == set h | h in hashes[..i]
      {
        assert hashes[..i + 1] == hashes[..i] + [hashes[i]];
        targets := targets + {hashes[i]};
        i := i + 1;
      }
      assert hashes[..i] == hashes;
      contents := contents + registered;
      r := Mutate(o, seen.value, targets, false, claim, now);
      if r.Err? { Rollback(saved); }
    }
  }

  lemma AllNew(contentTags: set<(string, string)>, targets: set<string>, tags: set<string>)
    ensures S.Pairs(targets, tags) - (contentTags - S.TagsOf(contentTags, targets)) == S.Pairs(targets, tags)
  {
  }

  lemma UnionOfNew(a: set<(string, string)>, b: set<(string, string)>)
    ensures a + (b - a) == a + b
  {
  }

  lemma MinusCommon(a: set<(string, string)>, b: set<(string, string)>)
    ensures a - b * a == a - b
  {
  }

  /** The tasks selected by the first and by the second delete. */
  function AttachedHistory(db: Db): set<string> {
    set t | t in db.tasks && db.tasks[t].op.Some? && S.Clearable(db, db.tasks[t].op.value)
  }

  function DetachedHistory(db: Db): set<string> {
    set t | t in db.tasks && db.tasks[t].op.None? && db.tasks[t].work.subjectKind == "operation"
            && !Active(db.tasks[t].status) && S.Clearable(db, db.tasks[t].work.subjectId)
  }

  /** Deleting terminal tasks changes no operation's eligibility. */
  lemma SameClearable(was: Db, now: Db)
    requires now.ops == was.ops && forall t | t in now.tasks :: t in was.tasks && now.tasks[t] == was.tasks[t]
    requires forall t | t in was.tasks && t !in now.tasks :: !Active(was.tasks[t].status)
    ensures forall o :: S.Clearable(now, o) <==> S.Clearable(was, o)
  {
    forall o ensures S.Clearable(now, o) <==> S.Clearable(was, o) {
      assert HasActiveChild(now.tasks, o) <==> HasActiveChild(was.tasks, o);
    }
  }

  /** All three deletes select the same operations. */
  lemma ThreeDeletes(was: Db)
    ensures var one := S.DeleteTasks(was, AttachedHistory(was)); var two := S.DeleteTasks(one, DetachedHistory(one));
      S.ClearedOps(two) == S.ClearedOps(was) && S.DeleteOps(two, S.ClearedOps(two)) == S.Clear(was)
  {
    var one := S.DeleteTasks(was, AttachedHistory(was));
    SameClearable(was, one);
    var two := S.DeleteTasks(one, DetachedHistory(one));
    SameClearable(was, two);
    TwoDeletes(was);
  }

  lemma TwoDeletes(was: Db)
    requires forall o :: S.Clearable(S.DeleteTasks(was, AttachedHistory(was)), o) <==> S.Clearable(was, o)
    ensures var one := S.DeleteTasks(was, AttachedHistory(was));
      S.DeleteTasks(one, DetachedHistory(one)) == S.DeleteTasks(was, S.ClearedTasks(was))
  {
    var one := S.DeleteTasks(was, AttachedHistory(was));
    assert S.ClearedTasks(was) == AttachedHistory(was) + DetachedHistory(one);
    assert was.tasks - AttachedHistory(was) - DetachedHistory(one)
      == was.tasks - (AttachedHistory(was) + DetachedHistory(one));
  }
}
