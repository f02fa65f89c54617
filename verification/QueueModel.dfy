/** The tables of the durable work queue: operations, tasks, attempts, producer associations and
    tag mutations, together with the content tags a mutation edits. */
module QueueModel {
  import opened Basics

  datatype Status = Pending | Running | Completed | Failed | Canceled

  /** status IN ('pending', 'running') */
  predicate Active(s: Status) { s.Pending? || s.Running? }

  /** The immutable description of a task; BackgroundTaskCleanup has exactly the same fields. */
  datatype Work = Work(dedupe: string, kind: string, subjectKind: string, subjectId: string,
                       inputKey: string, resourceClass: string, priority: int, maxAttempts: int)

  datatype Task = Task(op: Option<string>, work: Work, cleanup: Option<Work>, status: Status,
                       availableAt: int, leaseOwner: string, leaseExpires: Option<int>,
                       createdAt: int, startedAt: Option<int>, finishedAt: Option<int>,
                       attemptCount: nat, errorCode: string)

  datatype Outcome = InProgress | Succeeded | Errored | Revoked | Abandoned

  datatype Attempt = Attempt(worker: string, startedAt: int, finishedAt: Option<int>,
                             outcome: Outcome, errorCode: string)

  /** A claim generation: one task and the value attempt_count had when it was claimed. */
  datatype Gen = Gen(task: string, number: nat)

  datatype Operation = Operation(kind: string, visible: bool, status: Status, total: nat,
                                 completed: nat, failed: nat, attached: nat,
                                 startedAt: Option<int>, finishedAt: Option<int>, errorCode: string,
                                 result: string, checkpoint: string, producerClaimed: bool)

  /** Primary key of background_operation_associations. */
  datatype Link = Link(producer: string, auxKind: string)

  datatype MutationKind = AddTags | SetTags | RemoveTags
  datatype TargetKind = FileIds | ContentHashes

  datatype Mutation = Mutation(kind: MutationKind, tags: set<string>, targetKind: TargetKind,
                               targets: set<string>, matched: nat, affected: Option<nat>)

  datatype Db = Db(tasks: map<string, Task>, attempts: map<Gen, Attempt>,
                   ops: map<string, Operation>, links: map<Link, string>,
                   mutations: map<string, Mutation>,
                   contents: set<string>, contentTags: set<(string, string)>)

  const EMPTY := Db(map[], map[], map[], map[], map[], {}, {})

  /** Why a transaction is rolled back. */
  datatype Error =
    | Invalid            // an argument the method rejects before it touches the store
    | LeaseLost          // ErrBackgroundTaskLeaseLost
    | AttemptMismatch    // "updated 0 attempt rows, want 1" and its batch form
    | MissingLease       // "running background task is missing a lease expiry"
    | ParentCanceled     // raised by the insert trigger
    | MissingRow         // a row that must exist does not
    | DuplicateId        // primary key conflict
    | DedupeActive       // a cleanup or child whose dedupe key is already active
    | NotAccepting       // the operation does not accept this change in its present state
    | AlreadyFinal       // a mutation result is written once
    | NothingToDo        // the statement matched no row; the method reports this as a value

  datatype Result<+T> = Ok(value: T) | Err(error: Error) {
    predicate IsFailure() { Err? }
    function PropagateFailure<U>(): Result<U> requires Err? { Err(error) }
    function Extract(): T requires Ok? { value }
  }

  function Check(condition: bool, error: Error): Result<()> {
    if condition then Ok(()) else Err(error)
  }

  type Tasks = map<string, Task>

  /** The rows below one operation: all of them, and those in one state. */
  function Children(tasks: Tasks, o: string): set<string> {
    set t | t in tasks && tasks[t].op == Some(o)
  }

  function InState(tasks: Tasks, o: string, s: Status): set<string> {
    set t | t in tasks && tasks[t].op == Some(o) && tasks[t].status == s
  }

  predicate HasActiveChild(tasks: Tasks, o: string) {
    exists t | t in tasks :: tasks[t].op == Some(o) && Active(tasks[t].status)
  }

  predicate ActiveDedupe(tasks: Tasks, key: string) {
    exists t | t in tasks :: tasks[t].work.dedupe == key && Active(tasks[t].status)
  }

  /** An active producer keeps its auxiliaries open. */
  predicate ProducerActive(ops: map<string, Operation>, links: map<Link, string>, o: string) {
    exists l | l in links :: links[l] == o && l.producer in ops && Active(ops[l.producer].status)
  }
}
