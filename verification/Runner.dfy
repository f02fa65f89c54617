/** The background runner: each runner recovers, claims one task, handles it under a renewed lease, and then
    writes the outcome under its worker id. Many runners, their crashes and all other users of the store
    interleave. Worker ids are unique, and the id of a task that some runner still handles is not given to
    another task. */
module Runner {
  import opened Basics
  import opened QueueModel
  import opened QueueSpec
  import opened QueueInvariant
  import opened QueueTransactions
  import opened QueueRuns
  import opened QueueHistory
  import opened QueueRules
  import opened QueueMutations

  datatype Phase =
    | Recovering                            // startup recovery, or recovery after a lost lease
    | Claiming
    | Handling(gen: Gen)                    // the handler runs and the lease is renewed beside it
    | Losing(gen: Gen)                      // a renewal found the lease lost; the handler has not returned yet
    | Finishing(gen: Gen, success: bool)    // the handler returned; its outcome is not written yet
    | Stopped

  datatype World = World(db: Db, runners: map<string, Phase>)

  datatype Action =
    | Starts
    | Recovers(rows: seq<string>, now: int)
    | Claims(task: string, pool: string, now: int, lease: int)
    | Renews(now: int, lease: int)
    | Returns(success: bool)
    | Finalized                             // the handler completed its own task
    | Completes(now: int)
    | Fails(now: int, retryAt: int, code: string)
    | Contended                             // the store was busy: nothing changed, the loop tries again
    | Crashes

  datatype Move = By(worker: string, action: Action) | Other(event: Event)

  /** The claim a phase still answers for. */
  function Held(p: Phase): Option<Gen> {
    match p
    case Handling(g) => Some(g)
    case Losing(g) => Some(g)
    case Finishing(g, _) => Some(g)
    case _ => None
  }

  /** The store transaction an action runs. */
  function EventOf(w: string, p: Phase, a: Action): Option<Event> {
    match a
    case Recovers(rows, now) => if p.Recovering? then Some(DoRecover(rows, now)) else None
    case Claims(t, pool, now, lease) => if p.Claiming? then Some(DoClaim(t, pool, w, now, lease)) else None
    case Renews(now, lease) => if p.Handling? || p.Finishing? then Some(DoRenew(p.gen.task, w, now, lease)) else None
    case Completes(now) => if p.Finishing? && p.success then Some(DoCompleteByWorker(p.gen.task, w, now)) else None
    case Fails(now, retryAt, code) =>
      if p.Finishing? && !p.success then Some(DoFail(p.gen.task, w, now, Some(retryAt), code)) else None
    case _ => None
  }

  /** Where the runner goes, given how its transaction on `db` ended. */
  ghost function NextPhase(db: Db, w: string, p: Phase, a: Action): Phase {
    var e := EventOf(w, p, a);
    var done := e.Some? && Attempted(db, e.value).Ok?;
    var lost := e.Some? && Attempted(db, e.value) == Err(LeaseLost);
    match a
    case Starts => p
    case Contended => p
    case Crashes => Stopped
    case Recovers(_, _) => if e.None? then p else if done then Claiming else Stopped
    case Claims(t, _, _, _) => if done then Handling(Gen(t, db.tasks[t].attemptCount + 1)) else p
    case Renews(_, _) => if lost then (if p.Handling? then Losing(p.gen) else Recovering) else p
    case Returns(success) => if p.Handling? then Finishing(p.gen, success) else if p.Losing? then Recovering else p
    case Finalized => if p.Handling? || p.Losing? then Claiming else p
    case Completes(_) => if e.None? then p else if done then Claiming else if lost then Recovering else Stopped
    case Fails(_, _, _) => if e.None? then p else if done then Claiming else if lost then Recovering else Stopped
  }

  ghost function Moved(w: World, m: Move): World {
    match m
    case Other(e) => w.(db := Apply(w.db, e))
    case By(id, Starts) => if id in w.runners then w else w.(runners := w.runners[id := Recovering])
    case By(id, a) =>
      if id !in w.runners then w
      else
        var p := w.runners[id];
        var e := EventOf(id, p, a);
        World(if e.Some? then Apply(w.db, e.value) else w.db, w.runners[id := NextPhase(w.db, id, p, a)])
  }

  ghost function EventAt(w: World, m: Move): Option<Event> {
    match m
    case Other(e) => Some(e)
    case By(id, a) => if id in w.runners then EventOf(id, w.runners[id], a) else None
  }

  /** Nobody else claims under a runner's id, no runner takes an id that was used before, and no new task
      takes the id of one that a runner still handles. */
  ghost predicate Fair(w: World, m: Move) {
    && (m.Other? && m.event.DoClaim? ==> m.event.worker !in w.runners)
    && (m.By? && m.action.Starts?
      ==> m.worker in w.runners || forall g | g in w.db.attempts :: w.db.attempts[g].worker != m.worker)
    && (forall t, id | t in Moved(w, m).db.tasks && t !in w.db.tasks && id in w.runners && Held(w.runners[id]).Some? ::
          Held(w.runners[id]).value.task != t)
  }

  ghost function WorldAfter(moves: seq<Move>): World
    decreases |moves|
  {
    if moves == [] then World(EMPTY, map[]) else Moved(WorldAfter(moves[..|moves| - 1]), moves[|moves| - 1])
  }

  ghost predicate AllFair(moves: seq<Move>)
    decreases |moves|
  {
    moves == [] || (AllFair(moves[..|moves| - 1]) && Fair(WorldAfter(moves[..|moves| - 1]), moves[|moves| - 1]))
  }

  // ---------------------------------------------------------------- what ties a runner to its claim

  /** The claimed generation belongs to the worker, and the worker has not claimed the task again since. */
  ghost predicate Owns(db: Db, w: string, g: Gen) {
    && w != "" && g.task != "" && g.number >= 1
    && (g.task in db.tasks ==> g in db.attempts && db.attempts[g].worker == w)
    && (forall n {:trigger Gen(g.task, n)} | n > g.number && Gen(g.task, n) in db.attempts ::
      db.attempts[Gen(g.task, n)].worker != w)
  }

  ghost predicate WorldInv(w: World) {
    && Inv(w.db)
    && forall id | id in w.runners && Held(w.runners[id]).Some? :: Owns(w.db, id, Held(w.runners[id]).value)
  }

  /** A transaction that is not a claim by this worker keeps its ownership. */
  lemma OwnershipStays(db: Db, e: Event, w: string, g: Gen)
    requires Inv(db) && Owns(db, w, g) && (e.DoClaim? ==> e.worker != w)
    requires g.task in Apply(db, e).tasks ==> g.task in db.tasks
    ensures Owns(Apply(db, e), w, g)
  {
    var d := Apply(db, e);
    EveryEventIsStep(db, e);
    StepKeepsInv(db, e);
    OnlyExecutionsChangeTags(db, e);
    if g.task in d.tasks {
      assert TaskStep(db.tasks[g.task], d.tasks[g.task]);
      assert AttemptOk(db.tasks, db.attempts, g) && NumberedOk(d.attempts, g.task, d.tasks[g.task].attemptCount);
      assert g in d.attempts && AttemptStep(db.attempts[g], d.attempts[g]);
    }
    forall n | n > g.number && Gen(g.task, n) in d.attempts ensures d.attempts[Gen(g.task, n)].worker != w {
      if Gen(g.task, n) in db.attempts { assert AttemptStep(db.attempts[Gen(g.task, n)], d.attempts[Gen(g.task, n)]); }
    }
  }

  /** A successful claim makes the worker the owner of the new generation. */
  lemma ClaimOwns(db: Db, t: string, pool: string, w: string, now: int, lease: int)
    requires Inv(db) && Claim(db, t, pool, w, now, lease).Ok?
    ensures Owns(Apply(db, DoClaim(t, pool, w, now, lease)), w, Gen(t, db.tasks[t].attemptCount + 1))
  {
    var e := DoClaim(t, pool, w, now, lease);
    var g := Gen(t, db.tasks[t].attemptCount + 1);
    var d := Apply(db, e);
    StepKeepsInv(db, e);
    assert TaskOk(db.tasks[t]);
    forall n | n > g.number ensures Gen(t, n) !in d.attempts {
      assert Gen(t, n) in d.attempts ==> AttemptOk(d.tasks, d.attempts, Gen(t, n));
    }
  }

  lemma MoveKeepsOwner(w: World, m: Move, id: string)
    requires WorldInv(w) && Fair(w, m) && id in Moved(w, m).runners && Held(Moved(w, m).runners[id]).Some?
    ensures Owns(Moved(w, m).db, id, Held(Moved(w, m).runners[id]).value)
  {
    var v := Moved(w, m);
    var g := Held(v.runners[id]).value;
    if m.By? && m.worker == id && m.action.Claims? && w.runners[id].Claiming? {
      var e := EventOf(id, w.runners[id], m.action).value;
      ClaimOwns(w.db, e.task, e.pool, id, e.now, e.lease);
    } else {
      assert id in w.runners && Held(w.runners[id]) == Some(g);
      if EventAt(w, m).Some? { OwnershipStays(w.db, EventAt(w, m).value, id, g); }
    }
  }

  lemma MoveKeepsInv(w: World, m: Move)
    requires WorldInv(w) && Fair(w, m)
    ensures WorldInv(Moved(w, m))
  {
    if EventAt(w, m).Some? { StepKeepsInv(w.db, EventAt(w, m).value); }
    forall id | id in Moved(w, m).runners && Held(Moved(w, m).runners[id]).Some?
      ensures Owns(Moved(w, m).db, id, Held(Moved(w, m).runners[id]).value) {
      MoveKeepsOwner(w, m, id);
    }
  }

  lemma {:induction false} WorldStaysCoherent(moves: seq<Move>)
    requires AllFair(moves)
    ensures WorldInv(WorldAfter(moves))
    decreases |moves|
  {
    if moves == [] {
      EmptyInv();
    } else {
      WorldStaysCoherent(moves[..|moves| - 1]);
      MoveKeepsInv(WorldAfter(moves[..|moves| - 1]), moves[|moves| - 1]);
    }
  }

  // ---------------------------------------------------------------- worker-keyed refines generation-keyed

  /** Holding the lease by worker id and by claim generation is the same thing for the claim's owner. */
  lemma SameHold(db: Db, w: string, g: Gen, now: int)
    requires Inv(db) && Owns(db, w, g)
    ensures Holds(db, g.task, w, now) <==> HoldsGen(db, g, now)
  {
    if g.task in db.tasks && db.tasks[g.task].status.Running? {
      OpenAttempt(db, g.task);
      assert AttemptOk(db.tasks, db.attempts, g);
      if db.tasks[g.task].leaseOwner == w {
        assert db.attempts[CurrentGen(db, g.task)].worker == w;
        assert CurrentGen(db, g.task) == Gen(g.task, db.tasks[g.task].attemptCount);
      }
    }
  }

  /** In every reachable world, whatever was recovered, reclaimed, canceled or cleared meanwhile: completing
      under the worker id is completing the generation the runner claimed. */
  lemma RunnerCompletesItsGeneration(moves: seq<Move>, id: string, now: int)
    requires AllFair(moves) && id in WorldAfter(moves).runners && Held(WorldAfter(moves).runners[id]).Some?
    ensures var w := WorldAfter(moves); var g := Held(w.runners[id]).value;
      CompleteByWorker(w.db, g.task, id, now) == CompleteByGeneration(w.db, g, now)
  {
    WorldStaysCoherent(moves);
    var w := WorldAfter(moves);
    var g := Held(w.runners[id]).value;
    SameHold(w.db, id, g, now);
    if Holds(w.db, g.task, id, now) { OpenAttempt(w.db, g.task); }
  }

  /** A failure the runner manages to write closes exactly the attempt it claimed, and no other. */
  lemma RunnerFailsItsGeneration(moves: seq<Move>, id: string, now: int, retryAt: int, code: string)
    requires AllFair(moves) && id in WorldAfter(moves).runners && Held(WorldAfter(moves).runners[id]).Some?
    ensures var w := WorldAfter(moves); var g := Held(w.runners[id]).value;
      var r := Fail(w.db, g.task, id, now, Some(retryAt), code);
      && (r.Ok? ==> g in w.db.attempts && w.db.attempts[g].outcome.InProgress?
                    && r.value.attempts == w.db.attempts[g := ClosedAttempt(w.db.attempts[g], Errored, now, code)])
      && (!HoldsGen(w.db, g, now) ==> r == Err(LeaseLost))
  {
    WorldStaysCoherent(moves);
    var w := WorldAfter(moves);
    var g := Held(w.runners[id]).value;
    SameHold(w.db, id, g, now);
    var r := Fail(w.db, g.task, id, now, Some(retryAt), code);
    if r.Ok? {
      OpenAttempt(w.db, g.task);
      assert TaskOk(w.db.tasks[g.task]);
      var row := RetriedRow(w.db.tasks[g.task], now, retryAt, code);
      assert CurrentGen(w.db, g.task) == g;
      if row.status.Failed? {
        ActiveParent(w.db, g.task);
        ExhaustStep(w.db.ops, EndAttempt(w.db, g.task, row, Errored, now, code), g.task, now);
      }
    }
  }

  // ---------------------------------------------------------------- what a runner's moves do

  /** A runner at work keeps its lease alive while it has it, and learns of its loss otherwise. */
  lemma RenewalMove(moves: seq<Move>, id: string, g: Gen, now: int, lease: int)
    requires AllFair(moves) && id in WorldAfter(moves).runners && lease > 0
    requires WorldAfter(moves).runners[id] in {Handling(g), Finishing(g, true), Finishing(g, false)}
    ensures var w := WorldAfter(moves); var v := Moved(w, By(id, Renews(now, lease)));
      if HoldsGen(w.db, g, now)
      then v.db == w.db.(tasks := w.db.tasks[g.task := w.db.tasks[g.task].(leaseExpires := Some(now + lease))])
           && v.runners == w.runners
      else v.db == w.db && v.runners == w.runners[id := if w.runners[id].Handling? then Losing(g) else Recovering]
  {
    WorldStaysCoherent(moves);
    Renewed(WorldAfter(moves), id, g, now, lease);
  }

  lemma Renewed(w: World, id: string, g: Gen, now: int, lease: int)
    requires WorldInv(w) && id in w.runners && lease > 0
    requires w.runners[id] in {Handling(g), Finishing(g, true), Finishing(g, false)}
    ensures var v := Moved(w, By(id, Renews(now, lease)));
      if HoldsGen(w.db, g, now)
      then v.db == w.db.(tasks := w.db.tasks[g.task := w.db.tasks[g.task].(leaseExpires := Some(now + lease))])
           && v.runners == w.runners
      else v.db == w.db && v.runners == w.runners[id := if w.runners[id].Handling? then Losing(g) else Recovering]
  {
    SameHold(w.db, id, g, now);
    assert w.runners[id := w.runners[id]] == w.runners;
  }

  /** A finished handler's success is written iff its claim generation still holds the task; otherwise nothing is. */
  lemma CompletionMove(moves: seq<Move>, id: string, g: Gen, now: int)
    requires AllFair(moves) && id in WorldAfter(moves).runners && WorldAfter(moves).runners[id] == Finishing(g, true)
    ensures var w := WorldAfter(moves); var v := Moved(w, By(id, Completes(now)));
      if HoldsGen(w.db, g, now)
      then CompleteByGeneration(w.db, g, now) == Ok(v.db) && v.runners == w.runners[id := Claiming]
      else v.db == w.db && v.runners == w.runners[id := Recovering]
  {
    WorldStaysCoherent(moves);
    RunnerCompletesItsGeneration(moves, id, now);
    CompletedOrLost(WorldAfter(moves), id, g, now);
  }

  lemma CompletedOrLost(w: World, id: string, g: Gen, now: int)
    requires WorldInv(w) && id in w.runners && w.runners[id] == Finishing(g, true)
    requires CompleteByWorker(w.db, g.task, id, now) == CompleteByGeneration(w.db, g, now)
    ensures var v := Moved(w, By(id, Completes(now)));
      if HoldsGen(w.db, g, now)
      then CompleteByGeneration(w.db, g, now) == Ok(v.db) && v.runners == w.runners[id := Claiming]
      else v.db == w.db && v.runners == w.runners[id := Recovering]
  {
    SameHold(w.db, id, g, now);
    CompleteByWorkerKeeps(w.db, g.task, id, now);
    assert Attempted(w.db, DoCompleteByWorker(g.task, id, now)) == CompleteByWorker(w.db, g.task, id, now);
  }

  /** The runner handles the next generation of the task and holds it. */
  ghost predicate Takes(w: World, v: World, id: string, t: string, now: int) {
    && t in w.db.tasks
    && v.runners == w.runners[id := Handling(Gen(t, w.db.tasks[t].attemptCount + 1))]
    && HoldsGen(v.db, Gen(t, w.db.tasks[t].attemptCount + 1), now)
  }

  /** A runner claims the most urgent due task of the pool, and then handles the generation it opened. */
  lemma ClaimMove(moves: seq<Move>, id: string, t: string, pool: string, now: int, lease: int)
    requires AllFair(moves) && id in WorldAfter(moves).runners && WorldAfter(moves).runners[id] == Claiming
    requires id != "" && pool != "" && lease > 0
    ensures var w := WorldAfter(moves); var v := Moved(w, By(id, Claims(t, pool, now, lease)));
      if MostUrgent(w.db.tasks, pool, now, t) then Takes(w, v, id, t, now) else v == w
  {
    WorldStaysCoherent(moves);
    ClaimedOrNot(WorldAfter(moves), id, t, pool, now, lease);
  }

  lemma ClaimedOrNot(w: World, id: string, t: string, pool: string, now: int, lease: int)
    requires Inv(w.db) && id in w.runners && w.runners[id] == Claiming && id != "" && pool != "" && lease > 0
    ensures var v := Moved(w, By(id, Claims(t, pool, now, lease)));
      if MostUrgent(w.db.tasks, pool, now, t) then Takes(w, v, id, t, now) else v == w
  {
    ClaimOutcome(w.db, t, pool, id, now, lease);
    ClaimMoved(w, id, t, pool, now, lease);
  }

  lemma ClaimOutcome(db: Db, t: string, pool: string, worker: string, now: int, lease: int)
    requires Inv(db) && pool != "" && worker != "" && lease > 0
    ensures var r := Claim(db, t, pool, worker, now, lease);
      && (r.Ok? <==> MostUrgent(db.tasks, pool, now, t))
      && (r.Ok? ==> t in db.tasks && HoldsGen(r.value, Gen(t, db.tasks[t].attemptCount + 1), now))
  {
    NextIsMostUrgent(db, pool, now, t);
    ClaimKeeps(db, t, pool, worker, now, lease);
    if Claim(db, t, pool, worker, now, lease).Ok? { ClaimTakesMostUrgent(db, t, pool, worker, now, lease); }
  }

  lemma ClaimMoved(w: World, id: string, t: string, pool: string, now: int, lease: int)
    requires id in w.runners && w.runners[id] == Claiming
    requires Claim(w.db, t, pool, id, now, lease).Ok? ==> t in w.db.tasks
    ensures var v := Moved(w, By(id, Claims(t, pool, now, lease))); var r := Claim(w.db, t, pool, id, now, lease);
      if r.Ok? then v == World(r.value, w.runners[id := Handling(Gen(t, w.db.tasks[t].attemptCount + 1))]) else v == w
  {
    var e := DoClaim(t, pool, id, now, lease);
    assert Attempted(w.db, e) == Claim(w.db, t, pool, id, now, lease);
    assert w.runners[id := w.runners[id]] == w.runners;
  }
}
