/** The global invariant of the work queue. Many statements of the store update rows without
    checking their state; they are right only because every reachable state satisfies `Inv`. */
module QueueInvariant {
  import opened Basics
  import opened QueueModel
  import opened QueueSpec

  // ---------------------------------------------------------------- the invariant

  type Ops = map<string, Operation>

  predicate TaskOk(t: Task) {
    && 0 <= t.attemptCount <= t.work.maxAttempts && 1 <= t.work.maxAttempts
    && t.work.dedupe != "" && t.work.kind != ""
    && (t.status.Running? <==> t.leaseExpires.Some?)
    && (t.status.Running? ==> t.leaseOwner != "" && t.attemptCount >= 1)
    && (!t.status.Running? ==> t.leaseOwner == "")
    && (t.status.Pending? ==> t.attemptCount < t.work.maxAttempts)
    && (t.finishedAt.Some? <==> !Active(t.status)) && (t.startedAt.Some? <==> t.attemptCount > 0)
    && (t.status.Completed? ==> t.errorCode == "")
    && (t.cleanup.Some? ==>
          1 <= t.cleanup.value.maxAttempts && t.cleanup.value.dedupe != "" && t.cleanup.value.kind != "")
  }

  ghost predicate TasksOk(tasks: Tasks) {
    forall t {:trigger TaskOk(tasks[t])} | t in tasks :: t != "" && TaskOk(tasks[t])
  }

  /** Attempts are numbered 1..attempt_count; the last one is open exactly while its task runs, and it
      is owned by the lease owner. */
  ghost predicate AttemptOk(tasks: Tasks, attempts: map<Gen, Attempt>, g: Gen)
    requires g in attempts
  {
    && g.task in tasks && 1 <= g.number <= tasks[g.task].attemptCount
    && (attempts[g].outcome.InProgress? <==> (tasks[g.task].status.Running? && g.number == tasks[g.task].attemptCount))
    && (attempts[g].outcome.InProgress? ==> attempts[g].worker == tasks[g.task].leaseOwner)
    && (attempts[g].finishedAt.Some? <==> !attempts[g].outcome.InProgress?)
  }

  ghost predicate NumberedOk(attempts: map<Gen, Attempt>, t: string, count: nat) {
    forall n | 1 <= n <= count :: Gen(t, n) in attempts
  }

  ghost predicate AttemptsOk(tasks: Tasks, attempts: map<Gen, Attempt>) {
    && (forall g {:trigger AttemptOk(tasks, attempts, g)} | g in attempts :: AttemptOk(tasks, attempts, g))
    && (forall t {:trigger NumberedOk(attempts, t, tasks[t].attemptCount)} | t in tasks ::
          NumberedOk(attempts, t, tasks[t].attemptCount))
  }

  /** The partial unique index on active dedupe keys. */
  ghost predicate DedupeOk(tasks: Tasks) {
    forall t, u | t in tasks && u in tasks && t != u && Active(tasks[t].status) && Active(tasks[u].status) ::
      tasks[t].work.dedupe != tasks[u].work.dedupe
  }

  /** A parent exists; only an active parent, or one named in `open`, has an active child, and only a
      running one has a running child. */
  ghost predicate ParentOk(t: Task, ops: Ops, open: set<string>) {
    t.op.Some? ==>
      && t.op.value in ops
      && (Active(t.status) && t.op.value !in open ==> Active(ops[t.op.value].status))
      && (t.status.Running? && t.op.value !in open ==> ops[t.op.value].status.Running?)
  }

  ghost predicate ParentsOk(tasks: Tasks, ops: Ops, open: set<string>) {
    forall t {:trigger ParentOk(tasks[t], ops, open)} | t in tasks :: ParentOk(tasks[t], ops, open)
  }

  /** The children of `o` in state `s`, except those whose end has not been counted yet. */
  function Counted(tasks: Tasks, lag: set<string>, o: string, s: Status): set<string> {
    InState(tasks, o, s) - lag
  }

  ghost predicate CountOk(tasks: Tasks, row: Operation, lag: set<string>, o: string) {
    && row.completed == |Counted(tasks, lag, o, Completed)|
    && row.failed == |Counted(tasks, lag, o, Failed)|
    && row.attached == |Children(tasks, o)|
    && (row.total > 0 ==> row.attached <= row.total)
  }

  ghost predicate CountsOk(tasks: Tasks, ops: Ops, lag: set<string>) {
    forall o {:trigger CountOk(tasks, ops[o], lag, o)} | o in ops :: CountOk(tasks, ops[o], lag, o)
  }

  ghost predicate AllChildrenCompleted(tasks: Tasks, o: string) {
    forall t | t in tasks && tasks[t].op == Some(o) :: tasks[t].status.Completed?
  }

  /** What a completed operation means: all declared work is attached and every child completed. While
      the end of a child is still uncounted, the count that follows is bound to finish the operation again. */
  ghost predicate DoneOk(tasks: Tasks, ops: Ops, links: map<Link, string>, lag: set<string>, o: string)
    requires o in ops
  {
    ops[o].status.Completed? ==>
      && (ops[o].total == 0 || ops[o].total == ops[o].attached)
      && (Children(tasks, o) !! lag ==> AllChildrenCompleted(tasks, o))
      && (!(Children(tasks, o) !! lag) ==> !HasActiveChild(tasks, o) && !ProducerActive(ops, links, o))
  }

  ghost predicate CompletedOk(tasks: Tasks, ops: Ops, links: map<Link, string>, lag: set<string>) {
    forall o {:trigger DoneOk(tasks, ops, links, lag, o)} | o in ops :: DoneOk(tasks, ops, links, lag, o)
  }

  ghost predicate LinkOk(ops: Ops, links: map<Link, string>, l: Link)
    requires l in links
  {
    && l.producer in ops && links[l] in ops && l.producer != links[l] && ops[links[l]].kind == l.auxKind
    && (forall m | m in links && links[m] == links[l] :: m == l)
  }

  /** Associations join existing operations, and an auxiliary has one producer. */
  ghost predicate LinksOk(ops: Ops, links: map<Link, string>) {
    forall l {:trigger LinkOk(ops, links, l)} | l in links :: LinkOk(ops, links, l)
  }

  ghost predicate MutationsOk(ops: Ops, mutations: map<string, Mutation>) {
    forall o | o in mutations :: o in ops && mutations[o].matched == |mutations[o].targets|
  }

  /** The invariant, with a set of terminal tasks whose end their operation has not counted yet. */
  ghost predicate Lagging(db: Db, lag: set<string>) {
    && TasksOk(db.tasks) && AttemptsOk(db.tasks, db.attempts) && DedupeOk(db.tasks)
    && ParentsOk(db.tasks, db.ops, {}) && CountsOk(db.tasks, db.ops, lag)
    && CompletedOk(db.tasks, db.ops, db.links, lag)
    && LinksOk(db.ops, db.links) && MutationsOk(db.ops, db.mutations)
    && (forall t | t in lag :: t in db.tasks && !Active(db.tasks[t].status))
  }

  ghost predicate Inv(db: Db) { Lagging(db, {}) }

  lemma EmptyInv()
    ensures Inv(EMPTY)
  {
  }

  // ---------------------------------------------------------------- operation status changes

  /** Rows that differ only in what bookkeeping may change about a status. */
  predicate SameCounters(a: Operation, b: Operation) {
    a.completed == b.completed && a.failed == b.failed && a.attached == b.attached && a.total == b.total
  }

  lemma ThreeParts(u: set<string>, a: set<string>, b: set<string>, c: set<string>)
    requires a <= u && b <= u && c <= u && a !! b && b !! c && a !! c
    ensures |a| + |b| + |c| <= |u|
    ensures u <= a + b + c ==> |a| + |b| + |c| == |u|
  {
    assert |a + b| == |a| + |b| && |(a + b) + c| == |a + b| + |c|;
    var rest := u - (a + b + c);
    assert u == (a + b + c) + rest;
    assert |(a + b + c) + rest| == |a + b + c| + |rest|;
    if u <= a + b + c { assert rest == {}; }
  }

  lemma AllStates(tasks: Tasks, o: string)
    ensures |InState(tasks, o, Completed)| + |InState(tasks, o, Failed)|
      + |InState(tasks, o, Canceled)| <= |Children(tasks, o)|
    ensures !HasActiveChild(tasks, o) ==>
      |InState(tasks, o, Completed)| + |InState(tasks, o, Failed)| + |InState(tasks, o, Canceled)|
        == |Children(tasks, o)|
  {
    ThreeParts(Children(tasks, o), InState(tasks, o, Completed), InState(tasks, o, Failed),
      InState(tasks, o, Canceled));
  }

  /** How a status statement may change the rows: counters stay, and a row that changes was active. */
  ghost predicate StatusOnly(ops: Ops, ops': Ops) {
    && ops'.Keys == ops.Keys
    && forall o | o in ops :: SameCounters(ops'[o], ops[o]) && ops'[o].kind == ops[o].kind
  }

  lemma StatusKeepsCounts(tasks: Tasks, ops: Ops, ops': Ops, lag: set<string>)
    requires StatusOnly(ops, ops') && CountsOk(tasks, ops, lag)
    ensures CountsOk(tasks, ops', lag)
  {
    forall o | o in ops' ensures CountOk(tasks, ops'[o], lag, o) {
      assert SameCounters(ops'[o], ops[o]) && CountOk(tasks, ops[o], lag, o);
    }
  }

  lemma StatusKeepsLinks(ops: Ops, ops': Ops, links: map<Link, string>)
    requires ops'.Keys == ops.Keys && LinksOk(ops, links)
    requires forall o | o in ops :: ops'[o].kind == ops[o].kind
    ensures LinksOk(ops', links)
  {
    forall l | l in links ensures LinkOk(ops', links, l) { assert LinkOk(ops, links, l); }
  }

  /** The auxiliaries the trigger finalizes, and what each of them satisfies. */
  lemma ReleaseShape(db: Db, producer: string, at: int)
    ensures var d := ReleaseAuxiliaries(db, producer, at);
      && d == db.(ops := d.ops) && StatusOnly(db.ops, d.ops)
      && (forall o | o in db.ops ::
        d.ops[o] == db.ops[o] || (Releasable(db, producer, o) && d.ops[o] == ReleasedRow(db, o, at)))
  {
  }

  lemma ReleasedAuxiliary(db: Db, producer: string, o: string, at: int, lag: set<string>)
    requires Releasable(db, producer, o) && CountsOk(db.tasks, db.ops, lag) && LinksOk(db.ops, db.links)
    requires !(producer in db.ops && Active(db.ops[producer].status))
    ensures !ProducerActive(db.ops, db.links, o)
    ensures db.ops[o].total == 0 || db.ops[o].total == db.ops[o].attached
    ensures ReleasedRow(db, o, at).status.Completed? && Children(db.tasks, o) !! lag
      ==> AllChildrenCompleted(db.tasks, o)
  {
    AllStates(db.tasks, o);
    assert CountOk(db.tasks, db.ops[o], lag, o);
    forall l | l in db.links && db.links[l] == o ensures l.producer == producer { assert LinkOk(db.ops, db.links, l); }
    if ReleasedRow(db, o, at).status.Completed? && Children(db.tasks, o) !! lag {
      AllCompleted(db.tasks, db.ops, o, lag);
    }
  }

  /** Without active, failed or canceled children every child completed. */
  lemma AllCompleted(tasks: Tasks, ops: Ops, o: string, lag: set<string>)
    requires o in ops && CountsOk(tasks, ops, lag) && Children(tasks, o) !! lag
    requires !HasActiveChild(tasks, o) && ops[o].failed == 0 && |InState(tasks, o, Canceled)| == 0
    ensures AllChildrenCompleted(tasks, o)
  {
    assert CountOk(tasks, ops[o], lag, o);
    forall t | t in tasks && tasks[t].op == Some(o) ensures tasks[t].status.Completed? {
      assert t in Children(tasks, o);
      assert tasks[t].status.Failed? ==> t in Counted(tasks, lag, o, Failed);
      assert tasks[t].status.Canceled? ==> t in InState(tasks, o, Canceled);
    }
  }

  /** Finalizing the drained auxiliaries of a terminal producer keeps every conjunct it touches. */
  lemma ReleaseKeeps(db: Db, producer: string, at: int, lag: set<string>, open: set<string>)
    requires ParentsOk(db.tasks, db.ops, open) && CountsOk(db.tasks, db.ops, lag)
    requires CompletedOk(db.tasks, db.ops, db.links, lag) && LinksOk(db.ops, db.links)
    requires producer in db.ops && !Active(db.ops[producer].status)
    ensures var d := ReleaseAuxiliaries(db, producer, at);
      && ParentsOk(d.tasks, d.ops, open) && CountsOk(d.tasks, d.ops, lag)
      && CompletedOk(d.tasks, d.ops, d.links, lag) && LinksOk(d.ops, d.links)
      && d == db.(ops := d.ops) && StatusOnly(db.ops, d.ops) && d.ops[producer] == db.ops[producer]
  {
    var d := ReleaseAuxiliaries(db, producer, at);
    ReleaseShape(db, producer, at);
    StatusKeepsCounts(db.tasks, db.ops, d.ops, lag);
    StatusKeepsLinks(db.ops, d.ops, db.links);
    ReleaseKeepsParents(db, producer, at, open);
    ReleaseKeepsCompleted(db, producer, at, lag);
  }

  lemma ReleaseKeepsParents(db: Db, producer: string, at: int, open: set<string>)
    requires ParentsOk(db.tasks, db.ops, open)
    ensures ParentsOk(db.tasks, ReleaseAuxiliaries(db, producer, at).ops, open)
  {
    var ops := ReleaseAuxiliaries(db, producer, at).ops;
    forall t | t in db.tasks ensures ParentOk(db.tasks[t], ops, open) {
      assert ParentOk(db.tasks[t], db.ops, open);
    }
  }

  lemma ReleaseKeepsCompleted(db: Db, producer: string, at: int, lag: set<string>)
    requires CountsOk(db.tasks, db.ops, lag) && CompletedOk(db.tasks, db.ops, db.links, lag)
      && LinksOk(db.ops, db.links)
    requires producer in db.ops && !Active(db.ops[producer].status)
    ensures CompletedOk(db.tasks, ReleaseAuxiliaries(db, producer, at).ops, db.links, lag)
  {
    var ops := ReleaseAuxiliaries(db, producer, at).ops;
    forall o | o in ops ensures DoneOk(db.tasks, ops, db.links, lag, o) {
      assert DoneOk(db.tasks, db.ops, db.links, lag, o);
      assert ProducerActive(ops, db.links, o) ==> ProducerActive(db.ops, db.links, o);
      if Releasable(db, producer, o) { ReleasedAuxiliary(db, producer, o, at, lag); }
    }
  }

  // ---------------------------------------------------------------- counting the end of a child

  function Delta(t: Task, s: Status): nat { if t.status == s then 1 else 0 }

  lemma CountedStep(tasks: Tasks, lag: set<string>, t: string, o: string, s: Status)
    requires t in lag && t in tasks
    ensures |Counted(tasks, lag - {t}, o, s)|
      == |Counted(tasks, lag, o, s)| + (if tasks[t].op == Some(o) then Delta(tasks[t], s) else 0)
  {
    if tasks[t].op == Some(o) && tasks[t].status == s {
      assert Counted(tasks, lag - {t}, o, s) == Counted(tasks, lag, o, s) + {t};
    } else {
      assert Counted(tasks, lag - {t}, o, s) == Counted(tasks, lag, o, s);
    }
  }

  function CountedRow(row: Operation, t: Task): Operation {
    row.(completed := row.completed + Delta(t, Completed), failed := row.failed + Delta(t, Failed))
  }

  lemma CountingKeepsCounts(tasks: Tasks, ops: Ops, lag: set<string>, t: string)
    requires CountsOk(tasks, ops, lag) && t in lag && t in tasks && tasks[t].op.Some? && tasks[t].op.value in ops
    ensures CountsOk(tasks, ops[tasks[t].op.value := CountedRow(ops[tasks[t].op.value], tasks[t])], lag - {t})
  {
    var ops' := ops[tasks[t].op.value := CountedRow(ops[tasks[t].op.value], tasks[t])];
    forall o | o in ops' ensures CountOk(tasks, ops'[o], lag - {t}, o) {
      assert CountOk(tasks, ops[o], lag, o);
      CountedStep(tasks, lag, t, o, Completed);
      CountedStep(tasks, lag, t, o, Failed);
    }
  }

  /** With nothing uncounted and nothing active, the counters add up to the attached children. */
  lemma CountersAddUp(tasks: Tasks, row: Operation, lag: set<string>, o: string)
    requires CountOk(tasks, row, lag, o)
    ensures row.completed + row.failed + |InState(tasks, o, Canceled)| <= row.attached
    ensures !HasActiveChild(tasks, o) && Children(tasks, o) !! lag ==>
      row.completed + row.failed + |InState(tasks, o, Canceled)| == row.attached
  {
    ThreeParts(Children(tasks, o), Counted(tasks, lag, o, Completed), Counted(tasks, lag, o, Failed),
      InState(tasks, o, Canceled));
  }

  lemma SameLag(tasks: Tasks, o: string, p: string, before: set<string>, lag: set<string>)
    requires o != p && lag <= before && before - lag <= Children(tasks, o)
    ensures Children(tasks, p) !! before <==> Children(tasks, p) !! lag
  {
    assert before <= lag + Children(tasks, o);
    assert Children(tasks, o) !! Children(tasks, p);
  }

  /** The status part of `RecordTerminal`, for an operation whose counters are already advanced. */
  lemma FinishKeeps(db: Db, o: string, now: int, before: set<string>, lag: set<string>)
    requires ParentsOk(db.tasks, db.ops, {}) && CountsOk(db.tasks, db.ops, lag) && LinksOk(db.ops, db.links)
    requires CompletedOk(db.tasks, db.ops, db.links, before) && o in db.ops
    requires lag <= before && before - lag <= Children(db.tasks, o) && !(Children(db.tasks, o) !! before)
    ensures var d := FinishIfDrained(db, o, now);
      && d == db.(ops := d.ops) && d.ops.Keys == db.ops.Keys
      && ParentsOk(db.tasks, d.ops, {}) && CountsOk(db.tasks, d.ops, lag)
      && CompletedOk(db.tasks, d.ops, db.links, lag) && LinksOk(d.ops, db.links)
  {
    if Finishes(db, o) {
      FinishedIsCompletedOk(db, o, now, before, lag);
      FinishedKeepsParents(db, o, now);
      TerminalKeeps(db, o, FinishedRow(db, o, now), now, lag, {});
    } else {
      UnfinishedIsCompletedOk(db, o, before, lag);
    }
  }

  /** A status statement that makes one operation terminal, with its trigger. */
  lemma TerminalKeeps(db: Db, o: string, row: Operation, now: int, lag: set<string>, open: set<string>)
    requires o in db.ops && !Active(row.status) && SameCounters(row, db.ops[o]) && row.kind == db.ops[o].kind
    requires CountsOk(db.tasks, db.ops, lag) && LinksOk(db.ops, db.links)
    requires ParentsOk(db.tasks, db.ops[o := row], open) && CompletedOk(db.tasks, db.ops[o := row], db.links, lag)
    ensures var d := UpdateStatus(db, o, row, now);
      && d == db.(ops := d.ops) && d.ops.Keys == db.ops.Keys && d.ops[o] == row && StatusOnly(db.ops, d.ops)
      && ParentsOk(db.tasks, d.ops, open) && CountsOk(db.tasks, d.ops, lag)
      && CompletedOk(db.tasks, d.ops, db.links, lag) && LinksOk(d.ops, db.links)
  {
    var updated := db.(ops := db.ops[o := row]);
    StatusKeepsCounts(db.tasks, db.ops, updated.ops, lag);
    StatusKeepsLinks(db.ops, updated.ops, db.links);
    if Active(db.ops[o].status) { ReleaseKeeps(updated, o, now, lag, open); }
  }

  lemma FinishedKeepsParents(db: Db, o: string, now: int)
    requires ParentsOk(db.tasks, db.ops, {}) && o in db.ops && Finishes(db, o)
    ensures ParentsOk(db.tasks, db.ops[o := FinishedRow(db, o, now)], {})
  {
    var ops := db.ops[o := FinishedRow(db, o, now)];
    forall t | t in db.tasks ensures ParentOk(db.tasks[t], ops, {}) {
      assert ParentOk(db.tasks[t], db.ops, {});
    }
  }

  lemma FinishedIsCompletedOk(db: Db, o: string, now: int, before: set<string>, lag: set<string>)
    requires CountsOk(db.tasks, db.ops, lag) && CompletedOk(db.tasks, db.ops, db.links, before)
    requires o in db.ops && Finishes(db, o)
    requires lag <= before && before - lag <= Children(db.tasks, o)
    ensures CompletedOk(db.tasks, db.ops[o := FinishedRow(db, o, now)], db.links, lag)
  {
    var row := FinishedRow(db, o, now);
    var ops := db.ops[o := row];
    forall p | p in ops ensures DoneOk(db.tasks, ops, db.links, lag, p) {
      assert ProducerActive(ops, db.links, p) ==> ProducerActive(db.ops, db.links, p);
      if p != o {
        assert DoneOk(db.tasks, db.ops, db.links, before, p);
        SameLag(db.tasks, o, p, before, lag);
      } else {
        CountersAddUp(db.tasks, db.ops[o], lag, o);
        if row.status.Completed? && Children(db.tasks, o) !! lag { AllCompleted(db.tasks, db.ops, o, lag); }
      }
    }
  }

  lemma UnfinishedIsCompletedOk(db: Db, o: string, before: set<string>, lag: set<string>)
    requires CountsOk(db.tasks, db.ops, lag) && CompletedOk(db.tasks, db.ops, db.links, before)
    requires o in db.ops && !Finishes(db, o) && !(Children(db.tasks, o) !! before)
    requires lag <= before && before - lag <= Children(db.tasks, o)
    ensures CompletedOk(db.tasks, db.ops, db.links, lag)
  {
    forall p | p in db.ops ensures DoneOk(db.tasks, db.ops, db.links, lag, p) {
      assert DoneOk(db.tasks, db.ops, db.links, before, p);
      if p != o { SameLag(db.tasks, o, p, before, lag); }
      else { CountersAddUp(db.tasks, db.ops[o], lag, o); }
    }
  }

  lemma CountingKeepsParents(db: Db, o: string, row: Operation)
    requires o in db.ops && row.status == db.ops[o].status && ParentsOk(db.tasks, db.ops, {})
    ensures ParentsOk(db.tasks, db.ops[o := row], {})
  {
    forall t | t in db.tasks ensures ParentOk(db.tasks[t], db.ops[o := row], {}) {
      assert ParentOk(db.tasks[t], db.ops, {});
    }
  }

  lemma RecordParts(db: Db, o: string, t: string, now: int, lag: set<string>)
    requires ParentsOk(db.tasks, db.ops, {}) && CountsOk(db.tasks, db.ops, lag) && LinksOk(db.ops, db.links)
    requires CompletedOk(db.tasks, db.ops, db.links, lag)
    requires t in lag && t in db.tasks && db.tasks[t].op == Some(o) && o in db.ops
    ensures var r := RecordTerminal(db, Some(o), now, Delta(db.tasks[t], Completed), Delta(db.tasks[t], Failed));
      && r.Ok? && r.value == db.(ops := r.value.ops) && r.value.ops.Keys == db.ops.Keys
      && ParentsOk(db.tasks, r.value.ops, {}) && CountsOk(db.tasks, r.value.ops, lag - {t})
      && CompletedOk(db.tasks, r.value.ops, db.links, lag - {t}) && LinksOk(r.value.ops, db.links)
  {
    CountingParts(db, o, t, lag);
    var counted := db.(ops := db.ops[o := CountedRow(db.ops[o], db.tasks[t])]);
    FinishKeeps(counted, o, now, lag, lag - {t});
  }

  lemma CountingParts(db: Db, o: string, t: string, lag: set<string>)
    requires ParentsOk(db.tasks, db.ops, {}) && CountsOk(db.tasks, db.ops, lag) && LinksOk(db.ops, db.links)
    requires CompletedOk(db.tasks, db.ops, db.links, lag)
    requires t in lag && t in db.tasks && db.tasks[t].op == Some(o) && o in db.ops
    ensures var ops := db.ops[o := CountedRow(db.ops[o], db.tasks[t])];
      && ParentsOk(db.tasks, ops, {}) && CountsOk(db.tasks, ops, lag - {t}) && LinksOk(ops, db.links)
      && CompletedOk(db.tasks, ops, db.links, lag) && t in Children(db.tasks, o)
  {
    var row := CountedRow(db.ops[o], db.tasks[t]);
    CountingKeepsCounts(db.tasks, db.ops, lag, t);
    CountingKeepsCompleted(db, o, row, lag);
    CountingKeepsParents(db, o, row);
    StatusKeepsLinks(db.ops, db.ops[o := row], db.links);
  }

  /** Counting one ended child: it cannot fail, and the child leaves the lag. */
  lemma RecordKeeps(db: Db, t: string, now: int, lag: set<string>)
    requires Lagging(db, lag) && t in lag
    ensures var r := RecordTerminal(db, db.tasks[t].op, now, Delta(db.tasks[t], Completed), Delta(db.tasks[t], Failed));
      && r.Ok? && Lagging(r.value, lag - {t}) && r.value == db.(ops := r.value.ops) && r.value.ops.Keys == db.ops.Keys
  {
    match db.tasks[t].op
    case None => DetachedLag(db, t, lag);
    case Some(o) =>
      assert ParentOk(db.tasks[t], db.ops, {});
      RecordParts(db, o, t, now, lag);
  }

  lemma DetachedLag(db: Db, t: string, lag: set<string>)
    requires Lagging(db, lag) && t in lag && db.tasks[t].op.None?
    ensures Lagging(db, lag - {t})
  {
    forall o | o in db.ops ensures CountOk(db.tasks, db.ops[o], lag - {t}, o)
      && DoneOk(db.tasks, db.ops, db.links, lag - {t}, o) {
      assert CountOk(db.tasks, db.ops[o], lag, o) && DoneOk(db.tasks, db.ops, db.links, lag, o);
      assert t !in Children(db.tasks, o);
      CountedStep(db.tasks, lag, t, o, Completed);
      CountedStep(db.tasks, lag, t, o, Failed);
    }
  }

  /** Statuses unchanged: the meaning of "completed" is unchanged. */
  lemma CountingKeepsCompleted(db: Db, o: string, row: Operation, lag: set<string>)
    requires o in db.ops && row.status == db.ops[o].status && row.total == db.ops[o].total
      && row.attached == db.ops[o].attached
    requires CompletedOk(db.tasks, db.ops, db.links, lag)
    ensures CompletedOk(db.tasks, db.ops[o := row], db.links, lag)
  {
    var ops := db.ops[o := row];
    forall p | p in ops ensures DoneOk(db.tasks, ops, db.links, lag, p) {
      assert DoneOk(db.tasks, db.ops, db.links, lag, p);
      assert ProducerActive(ops, db.links, p) <==> ProducerActive(db.ops, db.links, p);
    }
  }

  // ---------------------------------------------------------------- one task row changes

  /** A step of one task's life: the description stays, and a terminal task stays terminal. */
  predicate Evolves(was: Task, row: Task) {
    row.op == was.op && row.work == was.work && Active(was.status) && TaskOk(row)
  }

  /** The parent a newly running task leaves behind until it is marked as started. */
  function Opened(was: Task, row: Task): set<string> {
    if row.status.Running? && !was.status.Running? && row.op.Some? then {row.op.value} else {}
  }

  function Ended(t: string, row: Task): set<string> { if Active(row.status) then {} else {t} }

  lemma RowKeepsRows(tasks: Tasks, t: string, row: Task)
    requires TasksOk(tasks) && DedupeOk(tasks) && t in tasks && Evolves(tasks[t], row)
    ensures TasksOk(tasks[t := row]) && DedupeOk(tasks[t := row])
  {
    var tasks' := tasks[t := row];
    forall u | u in tasks' ensures u != "" && TaskOk(tasks'[u]) {
      assert TaskOk(tasks[u]);
    }
  }

  lemma RowKeepsParents(tasks: Tasks, ops: Ops, t: string, row: Task)
    requires ParentsOk(tasks, ops, {}) && t in tasks && Evolves(tasks[t], row)
    ensures ParentsOk(tasks[t := row], ops, Opened(tasks[t], row))
  {
    var tasks' := tasks[t := row];
    forall u | u in tasks' ensures ParentOk(tasks'[u], ops, Opened(tasks[t], row)) {
      assert ParentOk(tasks[u], ops, {});
    }
  }

  lemma RowKeepsSets(tasks: Tasks, t: string, row: Task, o: string)
    requires t in tasks && Evolves(tasks[t], row)
    ensures Children(tasks[t := row], o) == Children(tasks, o)
    ensures Counted(tasks[t := row], Ended(t, row), o, Completed) == Counted(tasks, {}, o, Completed)
    ensures Counted(tasks[t := row], Ended(t, row), o, Failed) == Counted(tasks, {}, o, Failed)
  {
  }

  lemma RowKeepsSizes(tasks: Tasks, t: string, row: Task, o: string)
    requires t in tasks && Evolves(tasks[t], row)
    ensures |Children(tasks[t := row], o)| == |Children(tasks, o)|
    ensures |Counted(tasks[t := row], Ended(t, row), o, Completed)| == |Counted(tasks, {}, o, Completed)|
    ensures |Counted(tasks[t := row], Ended(t, row), o, Failed)| == |Counted(tasks, {}, o, Failed)|
  {
    RowKeepsSets(tasks, t, row, o);
  }

  lemma RowKeepsCounts(tasks: Tasks, ops: Ops, t: string, row: Task)
    requires CountsOk(tasks, ops, {}) && t in tasks && Evolves(tasks[t], row)
    ensures CountsOk(tasks[t := row], ops, Ended(t, row))
  {
    forall o | o in ops ensures CountOk(tasks[t := row], ops[o], Ended(t, row), o) {
      assert CountOk(tasks, ops[o], {}, o);
      RowKeepsSizes(tasks, t, row, o);
    }
  }

  lemma RowKeepsCompleted(tasks: Tasks, ops: Ops, links: map<Link, string>, t: string, row: Task)
    requires ParentsOk(tasks, ops, {}) && CompletedOk(tasks, ops, links, {})
    requires t in tasks && Evolves(tasks[t], row)
    ensures CompletedOk(tasks[t := row], ops, links, Ended(t, row))
  {
    assert ParentOk(tasks[t], ops, {});
    forall o | o in ops ensures DoneOk(tasks[t := row], ops, links, Ended(t, row), o) {
      assert DoneOk(tasks, ops, links, {}, o);
      RowKeepsSets(tasks, t, row, o);
    }
  }

  lemma RowKeepsOps(tasks: Tasks, ops: Ops, links: map<Link, string>, t: string, row: Task)
    requires ParentsOk(tasks, ops, {}) && CountsOk(tasks, ops, {}) && CompletedOk(tasks, ops, links, {})
    requires t in tasks && Evolves(tasks[t], row)
    ensures CountsOk(tasks[t := row], ops, Ended(t, row)) && CompletedOk(tasks[t := row], ops, links, Ended(t, row))
  {
    RowKeepsCounts(tasks, ops, t, row);
    RowKeepsCompleted(tasks, ops, links, t, row);
  }

  // ---------------------------------------------------------------- attempts

  lemma CloseKeeps(tasks: Tasks, attempts: map<Gen, Attempt>, t: string, row: Task, closed: Attempt)
    requires AttemptsOk(tasks, attempts) && t in tasks && tasks[t].status.Running? && tasks[t].attemptCount >= 1
    requires !row.status.Running? && row.attemptCount == tasks[t].attemptCount && !closed.outcome.InProgress?
    requires closed.finishedAt.Some?
    ensures AttemptsOk(tasks[t := row], attempts[Gen(t, row.attemptCount) := closed])
  {
    var tasks' := tasks[t := row];
    var attempts' := attempts[Gen(t, row.attemptCount) := closed];
    forall g | g in attempts' ensures AttemptOk(tasks', attempts', g) {
      if g in attempts { assert AttemptOk(tasks, attempts, g); }
    }
    forall u | u in tasks' ensures NumberedOk(attempts', u, tasks'[u].attemptCount) {
      assert NumberedOk(attempts, u, tasks[u].attemptCount);
    }
  }

  lemma OpenKeeps(tasks: Tasks, attempts: map<Gen, Attempt>, t: string, row: Task, begun: Attempt)
    requires AttemptsOk(tasks, attempts) && t in tasks && !tasks[t].status.Running?
    requires row.status.Running? && row.attemptCount == tasks[t].attemptCount + 1
    requires begun.outcome.InProgress? && begun.finishedAt.None? && begun.worker == row.leaseOwner
    ensures Gen(t, row.attemptCount) !in attempts
    ensures AttemptsOk(tasks[t := row], attempts[Gen(t, row.attemptCount) := begun])
  {
    var tasks' := tasks[t := row];
    var attempts' := attempts[Gen(t, row.attemptCount) := begun];
    assert Gen(t, row.attemptCount) in attempts ==> AttemptOk(tasks, attempts, Gen(t, row.attemptCount));
    forall g | g in attempts' ensures AttemptOk(tasks', attempts', g) {
      if g in attempts { assert AttemptOk(tasks, attempts, g); }
    }
    forall u | u in tasks' ensures NumberedOk(attempts', u, tasks'[u].attemptCount) {
      assert NumberedOk(attempts, u, tasks[u].attemptCount);
    }
  }

  /** A row change that neither opens nor closes an attempt. */
  lemma IdleKeeps(tasks: Tasks, attempts: map<Gen, Attempt>, t: string, row: Task)
    requires AttemptsOk(tasks, attempts) && t in tasks && row.attemptCount == tasks[t].attemptCount
    requires row.status.Running? == tasks[t].status.Running? && row.leaseOwner == tasks[t].leaseOwner
    ensures AttemptsOk(tasks[t := row], attempts)
  {
    var tasks' := tasks[t := row];
    forall g | g in attempts ensures AttemptOk(tasks', attempts, g) { assert AttemptOk(tasks, attempts, g); }
    forall u | u in tasks' ensures NumberedOk(attempts, u, tasks'[u].attemptCount) {
      assert NumberedOk(attempts, u, tasks[u].attemptCount);
    }
  }

  /** The open attempt of a running task exists and belongs to the lease owner. */
  lemma OpenAttempt(db: Db, t: string)
    requires TasksOk(db.tasks) && AttemptsOk(db.tasks, db.attempts) && t in db.tasks && db.tasks[t].status.Running?
    ensures CurrentAttemptOpen(db, t) && db.attempts[CurrentGen(db, t)].worker == db.tasks[t].leaseOwner
    ensures db.tasks[t].leaseExpires.Some?
  {
    assert TaskOk(db.tasks[t]) && NumberedOk(db.attempts, t, db.tasks[t].attemptCount);
    assert AttemptOk(db.tasks, db.attempts, CurrentGen(db, t));
  }

  /** A row and attempt change that leaves the operation tables alone. */
  lemma RowKeeps(db: Db, t: string, row: Task, attempts: map<Gen, Attempt>)
    requires Inv(db) && t in db.tasks && Evolves(db.tasks[t], row) && Opened(db.tasks[t], row) == {}
    requires AttemptsOk(db.tasks[t := row], attempts)
    ensures Lagging(db.(tasks := db.tasks[t := row], attempts := attempts), Ended(t, row))
  {
    RowKeepsRows(db.tasks, t, row);
    RowKeepsParents(db.tasks, db.ops, t, row);
    RowKeepsOps(db.tasks, db.ops, db.links, t, row);
  }
}
