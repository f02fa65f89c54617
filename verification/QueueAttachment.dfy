/** What bounded admission, repeated attachment and producer associations promise, in one call and over runs. */
module QueueAttachment {
  import opened Basics
  import opened QueueModel
  import opened QueueSpec
  import opened QueueInvariant
  import opened QueueTransactions
  import opened QueueRuns
  import opened QueueHistory

  // ---------------------------------------------------------------- bounded admission

  /** An operation is admitted exactly when its arguments are valid, its id is new and fewer operations of its kind
      are pending than allowed; then one more is pending, and still no more than allowed. */
  lemma AdmissionIsBounded(db: Db, o: string, kind: string, visible: bool, total: int, maxPending: int)
    ensures AdmitOperation(db, o, kind, visible, total, maxPending).Ok? <==>
      o != "" && kind != "" && total >= 0 && maxPending >= 1 && o !in db.ops && PendingOfKind(db, kind) < maxPending
    ensures var d := Apply(db, DoAdmit(o, kind, visible, total, maxPending));
      if AdmitOperation(db, o, kind, visible, total, maxPending).Ok?
      then PendingOfKind(d, kind) == PendingOfKind(db, kind) + 1 <= maxPending && o in d.ops
      else d == db
  {
    var d := Apply(db, DoAdmit(o, kind, visible, total, maxPending));
    if AdmitOperation(db, o, kind, visible, total, maxPending).Ok? { OneMorePending(db, d, o, kind); }
  }

  lemma OneMorePending(db: Db, d: Db, o: string, kind: string)
    requires o !in db.ops && o in d.ops && d.ops == db.ops[o := d.ops[o]]
    requires d.ops[o].kind == kind && d.ops[o].status.Pending?
    ensures PendingOfKind(d, kind) == PendingOfKind(db, kind) + 1
  {
    var was := set p | p in db.ops && db.ops[p].kind == kind && db.ops[p].status.Pending?;
    assert (set p | p in d.ops && d.ops[p].kind == kind && d.ops[p].status.Pending?) == was + {o};
  }

  // ---------------------------------------------------------------- repeated attachment

  lemma AttachedRow(db: Db, o: string, checkpoint: string, n: NewTask, now: int)
    requires AttachChild(db, o, checkpoint, n, now).Ok?
    ensures NewRow(n.(op := Some(o)), now).Ok?
    ensures var d, row := AttachChild(db, o, checkpoint, n, now).value.0, NewRow(n.(op := Some(o)), now).value;
      n.id in d.tasks && SameAttachment(d.tasks[n.id], o, row.work, row.cleanup)
  {
  }

  lemma {:induction false} DescriptionStays(run: seq<Event>, more: seq<Event>, t: string)
    requires forall k {:trigger more[..k]} | 0 <= k <= |more| :: t in After(run + more[..k]).tasks
    ensures t in After(run).tasks && t in After(run + more).tasks
    ensures After(run + more).tasks[t].work == After(run).tasks[t].work
      && After(run + more).tasks[t].cleanup == After(run).tasks[t].cleanup
    decreases |more|
  {
    assert more[..|more|] == more && more[..0] == [] && run + [] == run;
    if more != [] {
      var before := more[..|more| - 1];
      forall k | 0 <= k <= |before| ensures t in After(run + before[..k]).tasks { assert before[..k] == more[..k]; }
      DescriptionStays(run, before, t);
      LastStep(run, more);
      assert TaskStep(After(run + before).tasks[t], After(run + more).tasks[t]);
    }
  }

  lemma MatchingIsNoop(db: Db, o: string, checkpoint: string, n: NewTask, now: int)
    requires o != "" && o in db.ops && n.id in db.tasks && NewRow(n.(op := Some(o)), now).Ok?
    requires var row := NewRow(n.(op := Some(o)), now).value; SameAttachment(db.tasks[n.id], o, row.work, row.cleanup)
    ensures AttachChild(db, o, checkpoint, n, now) == Ok((db, false))
  {
  }

  /** What a description normalizes to does not depend on the time. */
  lemma SameDescription(n: NewTask, now: int, later: int)
    ensures NewRow(n, now).Ok? <==> NewRow(n, later).Ok?
    ensures NewRow(n, now).Ok? ==> NewRow(n, now).value.work == NewRow(n, later).value.work
                                   && NewRow(n, now).value.cleanup == NewRow(n, later).value.cleanup
  {
  }

  /** Attaching a child again, with the same description and at any later time while it is still the operation's,
      reports it as existing and changes nothing, whatever has become of the child and of the operation. */
  lemma AttachingAgainChangesNothing(run: seq<Event>, e: Event, more: seq<Event>, checkpoint: string, now: int)
    requires e.DoAttachChild? && Attempted(After(run), e).Ok?
    requires forall k {:trigger more[..k]} | 0 <= k <= |more| :: e.n.id in After(run + [e] + more[..k]).tasks
    requires var db := After(run + [e] + more); e.n.id in db.tasks && db.tasks[e.n.id].op == Some(e.op)
    ensures var db := After(run + [e] + more); AttachChild(db, e.op, checkpoint, e.n, now) == Ok((db, false))
  {
    var db, n := After(run + [e] + more), e.n.(op := Some(e.op));
    AttachedAfter(run, e);
    DescriptionStays(run + [e], more, e.n.id);
    SameDescription(n, e.now, now);
    ReachableInv(run + [e] + more);
    assert ParentOk(db.tasks[e.n.id], db.ops, {});
    MatchingIsNoop(db, e.op, checkpoint, e.n, now);
  }

  lemma AttachedAfter(run: seq<Event>, e: Event)
    requires e.DoAttachChild? && Attempted(After(run), e).Ok?
    ensures e.op != "" && NewRow(e.n.(op := Some(e.op)), e.now).Ok?
    ensures var d, row := After(run + [e]), NewRow(e.n.(op := Some(e.op)), e.now).value;
      e.n.id in d.tasks && SameAttachment(d.tasks[e.n.id], e.op, row.work, row.cleanup)
  {
    assert (run + [e])[..|run|] == run;
    AttachedRow(After(run), e.op, e.checkpoint, e.n, e.now);
  }

  // ---------------------------------------------------------------- associations

  lemma RecordKeepsLinks(db: Db, op: Option<string>, now: int, a: nat, b: nat)
    requires RecordTerminal(db, op, now, a, b).Ok?
    ensures RecordTerminal(db, op, now, a, b).value.links == db.links
  {
  }

  lemma ExhaustKeepsLinks(db: Db, t: string, now: int)
    requires t in db.tasks && Exhaust(db, t, now).Ok?
    ensures Exhaust(db, t, now).value.links == db.links
  {
    RecordKeepsLinks(db, db.tasks[t].op, now, 0, 1);
  }

  lemma {:induction false} ExhaustAllKeepsLinks(db: Db, rows: seq<string>, now: int)
    requires ExhaustAll(db, rows, now).Ok?
    ensures ExhaustAll(db, rows, now).value.links == db.links
    decreases |rows|
  {
    if rows != [] {
      if rows[0] in db.tasks && db.tasks[rows[0]].status.Failed? {
        ExhaustKeepsLinks(db, rows[0], now);
        ExhaustAllKeepsLinks(Exhaust(db, rows[0], now).value, rows[1..], now);
      } else {
        ExhaustAllKeepsLinks(db, rows[1..], now);
      }
    }
  }

  lemma {:induction false} InterruptAllKeepsLinks(db: Db, rows: seq<string>, now: int)
    ensures InterruptAll(db, rows, now).links == db.links
    decreases |rows|
  {
    if rows != [] && rows[0] in db.ops {
      InterruptAllKeepsLinks(UpdateStatus(db, rows[0], InterruptedRow(db.ops[rows[0]], now), now), rows[1..], now);
    }
  }

  lemma LeaseEventKeepsLinks(db: Db, e: Event)
    requires e.DoClaim? || e.DoRenew? || e.DoPostpone? || e.DoCompleteByWorker? || e.DoCompleteByGeneration?
      || e.DoCancelTask?
    ensures Apply(db, e).links == db.links
  {
  }

  lemma FailKeepsLinks(db: Db, t: string, worker: string, now: int, retryAt: Option<int>, code: string)
    requires Fail(db, t, worker, now, retryAt, code).Ok?
    ensures Fail(db, t, worker, now, retryAt, code).value.links == db.links
  {
    var row, g := db.tasks[t], Gen(t, db.tasks[t].attemptCount);
    var ended := RetriedRow(row, now, Coalesce(retryAt, now), code);
    var d := db.(tasks := db.tasks[t := ended],
      attempts := db.attempts[g := ClosedAttempt(db.attempts[g], Errored, now, code)]);
    if ended.status.Failed? { ExhaustKeepsLinks(d, t, now); }
  }

  lemma FailureKeepsLinks(db: Db, e: Event)
    requires (e.DoFail? || e.DoRecover?) && Attempted(db, e).Ok?
    ensures Apply(db, e).links == db.links
  {
    match e
    case DoFail(t, worker, now, retryAt, code) => FailKeepsLinks(db, t, worker, now, retryAt, code);
    case DoRecover(rows, now) => ExhaustAllKeepsLinks(Requeue(db, now), rows, now);
  }

  lemma EnqueueKeepsLinks(db: Db, n: NewTask, now: int)
    requires EnqueueOnce(db, n, now).Ok?
    ensures EnqueueOnce(db, n, now).value.links == db.links
  {
  }

  lemma TerminateKeepsLinks(db: Db, o: string, now: int, code: string, cleanup: Option<NewTask>)
    requires o in db.ops && Terminate(db, o, now, code, cleanup).Ok?
    ensures Terminate(db, o, now, code, cleanup).value.links == db.links
  {
    if cleanup.Some? {
      EnqueueKeepsLinks(RefreshCounts(RevokeChildren(db, o, now, code), o),
                        Delayed(cleanup.value, now, MaxOf(Leases(db.tasks, o))), now);
    }
  }

  lemma StatusKeepsTheLinks(db: Db, o: string, row: Operation, now: int)
    requires o in db.ops
    ensures UpdateStatus(db, o, row, now).links == db.links && o in UpdateStatus(db, o, row, now).ops
  {
  }

  lemma CancelKeepsLinks(db: Db, o: string, now: int, cleanup: Option<NewTask>)
    requires CancelOperation(db, o, now, cleanup).Ok?
    ensures CancelOperation(db, o, now, cleanup).value.links == db.links
  {
    StatusKeepsTheLinks(db, o, CanceledRow(db.ops[o], now), now);
    TerminateKeepsLinks(UpdateStatus(db, o, CanceledRow(db.ops[o], now), now), o, now, "", cleanup);
  }

  lemma FailOperationKeepsLinks(db: Db, o: string, now: int, code: string, cleanup: Option<NewTask>)
    requires FailOperation(db, o, now, code, cleanup).Ok?
    ensures FailOperation(db, o, now, code, cleanup).value.links == db.links
  {
    StatusKeepsTheLinks(db, o, FailedRow(db.ops[o], now, code), now);
    TerminateKeepsLinks(UpdateStatus(db, o, FailedRow(db.ops[o], now, code), now), o, now, code,
                        if |Children(db.tasks, o)| > 0 then cleanup else None);
  }

  lemma ClosingKeepsLinks(db: Db, e: Event)
    requires (e.DoCancelOperation? || e.DoFailOperation?) && Attempted(db, e).Ok?
    ensures Apply(db, e).links == db.links
  {
    match e
    case DoCancelOperation(o, now, cleanup) => CancelKeepsLinks(db, o, now, cleanup);
    case DoFailOperation(o, now, code, cleanup) => FailOperationKeepsLinks(db, o, now, code, cleanup);
  }

  lemma MutateKeepsLinks(db: Db, o: string, seen: Mutation, targets: set<string>, byQuery: bool, claim: Option<Gen>,
      now: int)
    requires Mutate(db, o, seen, targets, byQuery, claim, now).Ok?
    ensures Mutate(db, o, seen, targets, byQuery, claim, now).value.links == db.links
  {
    if claim.Some? { CompletionKeepsLinks(Applied(db, o, seen, targets, byQuery), claim.value, now); }
  }

  lemma CompletionKeepsLinks(db: Db, g: Gen, now: int)
    requires CompleteByGeneration(db, g, now).Ok?
    ensures CompleteByGeneration(db, g, now).value.links == db.links
  {
  }

  lemma AttachAndRevealKeepsLinks(db: Db, o: string, checkpoint: string, n: NewTask, now: int)
    requires AttachAndReveal(db, o, checkpoint, n, now).Ok?
    ensures AttachAndReveal(db, o, checkpoint, n, now).value.links == db.links
  {
    EnqueueKeepsLinks(SetCheckpoint(db, o, checkpoint).value, n.(op := Some(o)), now);
  }

  lemma MutationEventKeepsLinks(db: Db, e: Event)
    requires MutationEvent(e) && Attempted(db, e).Ok?
    ensures Apply(db, e).links == db.links
  {
    match e
    case DoCreateMutation(o, opKind, total, maxPending, kind, tags, targetKind, targets, checkpoint, n, now) =>
      var admitted := AdmitOperation(db, o, opKind, false, total, maxPending).value;
      AttachAndRevealKeepsLinks(Snapshot(admitted, o, kind, tags, targetKind, targets).value, o, checkpoint, n, now);
    case DoExecuteQuery(o, seen, claim, now) =>
      MutateKeepsLinks(db, o, seen.value, if o in db.mutations then db.mutations[o].targets else {}, true, claim, now);
    case DoExecuteFiles(o, seen, hashes, registered, claim, now) =>
      MutateKeepsLinks(db.(contents := db.contents + registered), o, seen.value, (set h | h in hashes), false, claim,
        now);
  }

  lemma ManagementKeepsLinks(db: Db, e: Event)
    requires !TaskEvent(e) && !MutationEvent(e) && !e.DoAssociate? && !e.DoClear? && !e.DoCancelUnattached?
    requires Attempted(db, e).Ok?
    ensures Apply(db, e).links == db.links
  {
    if e.DoAttachAndReveal? { AttachAndRevealKeepsLinks(db, e.op, e.checkpoint, e.n, e.now); }
  }

  lemma EventKeepsLinks(db: Db, e: Event)
    requires !e.DoAssociate? && !e.DoClear? && Attempted(db, e).Ok?
    ensures Apply(db, e).links == db.links
  {
    if e.DoFail? || e.DoRecover? { FailureKeepsLinks(db, e); }
    else if e.DoCancelOperation? || e.DoFailOperation? { ClosingKeepsLinks(db, e); }
    else if TaskEvent(e) { LeaseEventKeepsLinks(db, e); }
    else if MutationEvent(e) { MutationEventKeepsLinks(db, e); }
    else if e.DoCancelUnattached? { InterruptAllKeepsLinks(db, e.rows, e.now); }
    else { ManagementKeepsLinks(db, e); }
  }

  /** One transaction never gives the link of an active auxiliary to another operation. */
  lemma ActiveLinkStep(db: Db, e: Event, l: Link)
    requires l in db.links && l in Apply(db, e).links
    ensures Apply(db, e).links[l] == db.links[l] || (db.links[l] in db.ops && !Active(db.ops[db.links[l]].status))
  {
    if !e.DoAssociate? && !e.DoClear? && Attempted(db, e).Ok? { EventKeepsLinks(db, e); }
  }

  /** Over any run that keeps the link: while the auxiliary stays active, the link leads to it. */
  lemma {:induction false} AuxiliaryIsNotTaken(run: seq<Event>, more: seq<Event>, l: Link)
    requires forall k {:trigger more[..k]} | 0 <= k <= |more| :: l in After(run + more[..k]).links
    requires l in After(run).links
    requires var aux := After(run).links[l];
      forall k {:trigger more[..k]} | 0 <= k < |more| ::
        aux in After(run + more[..k]).ops ==> Active(After(run + more[..k]).ops[aux].status)
    ensures l in After(run + more).links && After(run + more).links[l] == After(run).links[l]
    decreases |more|
  {
    assert more[..|more|] == more && more[..0] == [] && run + [] == run;
    if more != [] {
      var before := more[..|more| - 1];
      forall k | 0 <= k <= |before| ensures before[..k] == more[..k] { }
      AuxiliaryIsNotTaken(run, before, l);
      assert (run + more)[..|run + more| - 1] == run + before && (run + more)[|run + more| - 1] == more[|more| - 1];
      ActiveLinkStep(After(run + before), more[|more| - 1], l);
    }
  }
}
