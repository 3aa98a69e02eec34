/**
 The asynchronous task engine as a transition system.

 Two mutexes do not cover each other: the task manager's makes each of its calls one
 atomic step; the scheduler's spans several such calls inside one Enqueue or one
 Dequeue.  Cancels, sweeps, progress writes and finalizations take only the first, so
 they interleave freely between the inner steps of a scheduler call.

 `Step` labels the atomic steps, `Enabled` says when one may happen, and `Apply` says
 what it does.  A run is any sequence of enabled steps from an initial state.
 */
module TaskEngine {
  import opened Wrappers
  import opened TaskStore

  type WorkerId = nat

  /** Where a worker thread of WorkerPool::WorkerLoop stands. */
  datatype WorkerPc =
    | Idle
    | Running(id: TaskId, snap: Row)     // dispatched, handler executing
    | SawCancel(id: TaskId, snap: Row)   // a checkpoint read cancel_requested
    | Releasing(id: TaskId, snap: Row)   // terminal write persisted, input not yet released
    | Returning(id: TaskId, snap: Row)   // handler returned or threw, reservation still held

  /** Where the holder of the scheduler mutex stands. */
  datatype SchedulerPc =
    | Free
    | Picked(w: WorkerId, id: TaskId, snap: Row)            // Dequeue: selected and reserved
    | Looked(req: Request, found: Option<(TaskId, Row)>)    // Enqueue: debounce lookup done
    | Refreshed(req: Request, id: TaskId)                   // Enqueue: refresh written, row not yet re-read
    | MustCreate(req: Request)                              // Enqueue: no merge, no refresh

  datatype Config = Config(paths: Paths, managedDir: string)

  datatype State = State(
    rows: Rows,
    used: set<TaskId>,                  // every id ever given to a row (ULIDs are not reissued)
    active: set<DocKey>,                // TaskScheduler::active_docs_
    sched: SchedulerPc,
    workers: map<WorkerId, WorkerPc>,
    cancels: set<(TaskId, Row)>,        // CancelTask calls between RequestCancel and the release
    files: set<string>)                 // resolved paths of existing files

  datatype Outcome = Success(docId: string) | Failure | Cancellation

  datatype Step =
    // Enqueue
    | Lookup(req: Request, window: int, now: int, fault: bool, found: Option<TaskId>)
    | Claim(fault: bool, lostRead: bool, now: int)
    | Refresh(fault: bool, now: int)
    | Reread(fault: bool)
    | Create(fault: bool, id: TaskId, now: int)
    // Dequeue and the worker loop
    | Pick(w: WorkerId, id: TaskId)
    | Mark(fault: bool, now: int)
    | Checkpoint(w: WorkerId)
    | Finalize(w: WorkerId, outcome: Outcome, fault: bool, now: int)
    | ReleaseInput(w: WorkerId, fault: bool)
    | HandlerEnds(w: WorkerId)          // returns without finalizing, throws, or is missing
    | TaskCompleted(w: WorkerId)
    // everything that takes only the manager's mutex
    | Cancel(id: TaskId, now: int)
    | CancelRelease(id: TaskId, row: Row, fault: bool)
    | Progress(id: TaskId, worker: Option<int>, now: int)
    | ZombieSweep(nowSecs: int, hours: int, stamp: int)
    | TimeoutSweep(nowSecs: int, seconds: int, stamp: int)
    | Retention(nowSecs: int, days: int)
    // the outside world
    | FilesChange(files: set<string>)
    | Restart(requeued: bool, skipped: set<TaskId>, nowSecs: int, hours: int, stamp: int)

  /** The steps inside an Enqueue. */
  predicate EnqueueStep(step: Step) {
    step.Lookup? || step.Claim? || step.Refresh? || step.Reread? || step.Create?
  }

  /** The steps a worker takes on its own, between a Dequeue and OnTaskCompleted. */
  predicate HandlerStep(step: Step) {
    step.Checkpoint? || step.Finalize? || step.ReleaseInput? || step.HandlerEnds?
  }

  /** The bulk statements over the table. */
  predicate SweepStep(step: Step) {
    step.ZombieSweep? || step.TimeoutSweep? || step.Retention?
  }

  // ----------------------------------------------------------------- guards

  predicate Executing(pc: WorkerPc) {
    pc.Running? || pc.SawCancel?
  }

  predicate WorkerAt(s: State, w: WorkerId) {
    w in s.workers && !s.workers[w].Idle?
  }

  predicate Enabled(c: Config, s: State, step: Step) {
    match step
    case Lookup(req, window, now, fault, found) =>
      && s.sched.Free?
      && (if req.docId != "" && window > 0 && !fault
          then IsRecent(s.rows, found, req, DebounceCutoff(now, window))
          else found.None?)
    case Claim(_, _, _) =>
      s.sched.Looked? && s.sched.found.Some? && s.sched.found.value.1.contentHash == s.sched.req.contentHash
    case Refresh(_, _) =>
      && s.sched.Looked? && s.sched.found.Some? && s.sched.found.value.1.contentHash != s.sched.req.contentHash
      && s.sched.found.value.1.status == Queued
    case Reread(_) => s.sched.Refreshed?
    case Create(_, id, _) => CreatesNext(s.sched) && id !in s.used
    case Pick(w, id) =>
      && s.sched.Free? && w in s.workers && s.workers[w].Idle?
      && IsOldestEligible(s.rows, s.active, Some(id))
    case Mark(_, _) => s.sched.Picked?
    case Checkpoint(w) =>
      && w in s.workers && s.workers[w].Running?
      && s.workers[w].id in s.rows && s.rows[s.workers[w].id].cancelRequested
    case Finalize(w, outcome, _, _) =>
      && w in s.workers
      && (if outcome.Cancellation? then s.workers[w].SawCancel? else s.workers[w].Running?)
    case ReleaseInput(w, _) => w in s.workers && s.workers[w].Releasing?
    case HandlerEnds(w) => w in s.workers && s.workers[w].Running?
    case TaskCompleted(w) => s.sched.Free? && w in s.workers && s.workers[w].Returning?
    case Cancel(_, _) => true
    case CancelRelease(id, row, _) => (id, row) in s.cancels
    case Progress(_, _, _) => true
    case ZombieSweep(_, _, _) => true
    case TimeoutSweep(_, _, _) => true
    case Retention(_, _) => true
    case FilesChange(_) => true
    case Restart(_, _, _, _, _) => true
  }

  /** Enqueue falls through to a task of its own: no candidate, a candidate that is
      in flight with other content, or a lost claim or refresh. */
  predicate CreatesNext(pc: SchedulerPc) {
    || pc.MustCreate?
    || (pc.Looked? && pc.found.None?)
    || (pc.Looked? && pc.found.Some? && pc.found.value.1.contentHash != pc.req.contentHash
        && pc.found.value.1.status != Queued)
  }

  // ---------------------------------------------------------------- effects

  function Snapshot(s: State, found: Option<TaskId>): Option<(TaskId, Row)> {
    if found.Some? && found.value in s.rows then Some((found.value, s.rows[found.value])) else None
  }

  function Reserve(active: set<DocKey>, row: Row): set<DocKey> {
    if row.docId == "" then active else active + {KeyOf(row)}
  }

  function Unreserve(active: set<DocKey>, row: Row): set<DocKey> {
    if row.docId == "" then active else active - {KeyOf(row)}
  }

  /** A table write that the store may also fail: on any error the table is unchanged. */
  function Written(rows: Rows, fault: bool, attempt: Result<Rows, StoreError>): Rows {
    if !fault && attempt.Ok? then attempt.value else rows
  }

  function TerminalWrite(rows: Rows, id: TaskId, outcome: Outcome, now: int): Result<Rows, StoreError> {
    match outcome
    case Success(docId) => MarkCompleted(rows, id, docId, now)
    case Failure => MarkFailed(rows, id, now)
    case Cancellation => MarkCancelled(rows, id, now)
  }

  function Removed(c: Config, s: State, snap: Row, id: TaskId, fault: bool): set<string> {
    var path := ReleasablePath(c.paths, c.managedDir, s.rows, snap.filepath, id);
    if !fault && path.Some? then s.files - {path.value} else s.files
  }

  function Apply(c: Config, s: State, step: Step): State
    requires Enabled(c, s, step)
  {
    match step
    case Lookup(req, window, now, fault, found) =>
      s.(sched := Looked(req, Snapshot(s, found)))
    case Claim(fault, lostRead, now) =>
      var attempt := TryClaimDebounceMerge(s.rows, s.sched.found.value.0, now);
      if fault || attempt.Err? then s.(sched := MustCreate(s.sched.req))
      else s.(rows := attempt.value, sched := if lostRead then MustCreate(s.sched.req) else Free)
    case Refresh(fault, now) =>
      var id := s.sched.found.value.0;
      var attempt := UpdateTaskForDebounce(s.rows, id, s.sched.req, now);
      if fault || attempt.Err? then s.(sched := MustCreate(s.sched.req))
      else s.(rows := attempt.value, sched := Refreshed(s.sched.req, id))
    case Reread(fault) =>
      if fault || s.sched.id !in s.rows then s.(sched := MustCreate(s.sched.req))
      else s.(sched := Free)
    case Create(fault, id, now) =>
      var attempt := CreateTask(c.paths, s.rows, id, s.sched.req, now);
      if fault || attempt.Err? then s.(sched := Free)
      else s.(rows := attempt.value, used := s.used + {id}, sched := Free)
    case Pick(w, id) =>
      s.(active := Reserve(s.active, s.rows[id]), sched := Picked(w, id, s.rows[id]))
    case Mark(fault, now) =>
      var Picked(w, id, snap) := s.sched;
      var attempt := MarkProcessing(s.rows, id, w, now);
      if fault || attempt.Err? then s.(active := Unreserve(s.active, snap), sched := Free)
      else s.(rows := attempt.value, sched := Free, workers := s.workers[w := Running(id, snap)])
    case Checkpoint(w) =>
      s.(workers := s.workers[w := SawCancel(s.workers[w].id, s.workers[w].snap)])
    case Finalize(w, outcome, fault, now) =>
      var pc := s.workers[w];
      var attempt := TerminalWrite(s.rows, pc.id, outcome, now);
      if fault || attempt.Err? then s.(workers := s.workers[w := Returning(pc.id, pc.snap)])
      else s.(rows := attempt.value, workers := s.workers[w := Releasing(pc.id, pc.snap)])
    case ReleaseInput(w, fault) =>
      var pc := s.workers[w];
      s.(files := Removed(c, s, pc.snap, pc.id, fault), workers := s.workers[w := Returning(pc.id, pc.snap)])
    case HandlerEnds(w) =>
      s.(workers := s.workers[w := Returning(s.workers[w].id, s.workers[w].snap)])
    case TaskCompleted(w) =>
      s.(active := Unreserve(s.active, s.workers[w].snap), workers := s.workers[w := Idle])
    case Cancel(id, now) =>
      var attempt := RequestCancel(s.rows, id, now);
      if attempt.Err? then s
      else if attempt.value[id].status == Cancelled
      then s.(rows := attempt.value, cancels := s.cancels + {(id, attempt.value[id])})
      else s.(rows := attempt.value)
    case CancelRelease(id, row, fault) =>
      s.(files := Removed(c, s, row, id, fault), cancels := s.cancels - {(id, row)})
    case Progress(id, worker, now) =>
      s.(rows := Written(s.rows, false, UpdateProgress(s.rows, id, worker, now)))
    case ZombieSweep(nowSecs, hours, stamp) =>
      s.(rows := SweepZombies(s.rows, nowSecs, hours, stamp))
    case TimeoutSweep(nowSecs, seconds, stamp) =>
      s.(rows := SweepTimedOut(s.rows, nowSecs, seconds, stamp))
    case Retention(nowSecs, days) =>
      s.(rows := DeleteExpired(s.rows, nowSecs, days))
    case FilesChange(files) =>
      s.(files := files)
    case Restart(requeued, skipped, nowSecs, hours, stamp) =>
      var filled := BackfillCanonicalInputs(c.paths, s.rows, skipped);
      s.(rows := if requeued then RequeueStaleProcessing(filled, nowSecs, hours, stamp) else filled,
         active := {}, sched := Free, workers := map w | w in s.workers :: Idle, cancels := {})
  }

  // ------------------------------------------------------------------- runs

  /** cancel_requested excludes queued and processing; cancelling implies it. */
  ghost predicate StatusFlagsAgree(rows: Rows) {
    forall id | id in rows ::
      && (rows[id].cancelRequested ==> rows[id].status !in {Queued, Processing})
      && (rows[id].status == Cancelling ==> rows[id].cancelRequested)
  }

  /** A stored identity is the one the stored path resolves to (rows of an older
      binary may still lack it). */
  ghost predicate IdentitiesAgree(paths: Paths, rows: Rows) {
    forall id | id in rows && rows[id].canonical.Some? ::
      rows[id].canonical == Canonicalize(paths, rows[id].filepath)
  }

  /** A freshly started process over any table that satisfies the two agreements,
      the empty table among them. */
  ghost predicate Init(c: Config, s: State) {
    && StatusFlagsAgree(s.rows) && IdentitiesAgree(c.paths, s.rows)
    && s.rows.Keys <= s.used
    && s.active == {} && s.sched.Free? && s.cancels == {}
    && forall w | w in s.workers :: s.workers[w].Idle?
  }

  /** Names a position of a run; a proof looks at the step there only when it says so. */
  ghost predicate At(i: int) {
    true
  }

  ghost predicate IsRun(c: Config, states: seq<State>, steps: seq<Step>) {
    && |states| == |steps| + 1
    && Init(c, states[0])
    && forall i {:trigger At(i)} | 0 <= i < |steps| ::
         At(i) ==> Enabled(c, states[i], steps[i]) && states[i + 1] == Apply(c, states[i], steps[i])
  }

  lemma StepAt(c: Config, states: seq<State>, steps: seq<Step>, i: nat)
    requires IsRun(c, states, steps) && i < |steps|
    ensures Enabled(c, states[i], steps[i]) && states[i + 1] == Apply(c, states[i], steps[i])
  {
    assert At(i);
  }
}
