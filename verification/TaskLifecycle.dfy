/**
 What the table operations mean to one another: the edges of the task state machine, what
 the stamps written by one operation let the sweeps of another do, which task a
 resubmission finds, and which input a release gives up.
 */
module TaskLifecycle {
  import opened Wrappers
  import opened TaskStore
  import opened TaskEngine
  import opened TaskInvariants

  // ---------------------------------------------------------- state machine

  lemma StatusClasses(s: Status)
    ensures Terminal(s) <==> s in {Completed, Failed, Cancelled}
    ensures Live(s) <==> s in {Queued, Processing, Cancelling}
    ensures Mergeable(s) <==> s in {Queued, Processing, Completed}
  {
    match s
    case Queued =>
    case Processing =>
    case Cancelling =>
    case Completed =>
    case Failed =>
    case Cancelled =>
  }

  /** A dispatch: only from queued, and to processing, under the worker's number. */
  lemma DispatchEdge(rows: Rows, id: TaskId, worker: int, now: int)
    ensures var r := MarkProcessing(rows, id, worker, now);
            && (r.Ok? <==> id in rows && rows[id].status == Queued)
            && (r.Err? ==> r.error == if id in rows then InProgress else TaskNotFound)
            && (r.Ok? ==>
                  && r.value[id].status == Processing && r.value[id].workerId == Some(worker)
                  && r.value[id].cancelRequested == rows[id].cancelRequested
                  && r.value == rows[id := r.value[id]] && SameContent(r.value[id], rows[id]))
  {
  }

  /** A terminal write: completed and failed only from processing or cancelling, cancelled
      only from queued or cancelling. */
  lemma TerminalEdges(rows: Rows, id: TaskId, outcome: Outcome, now: int)
    ensures var r := TerminalWrite(rows, id, outcome, now);
            && (r.Ok? <==>
                  && id in rows
                  && (rows[id].status == Cancelling
                      || rows[id].status == if outcome.Cancellation? then Queued else Processing))
            && (r.Err? ==> r.error == if id in rows then InProgress else TaskNotFound)
            && (r.Ok? ==>
                  && r.value == rows[id := r.value[id]]
                  && r.value[id].cancelRequested == rows[id].cancelRequested
                  && r.value[id].docId == (if outcome.Success? then outcome.docId else rows[id].docId)
                  && match outcome
                     case Success(_) => r.value[id].status == Completed
                     case Failure => r.value[id].status == Failed
                     case Cancellation => r.value[id].status == Cancelled)
  {
  }

  /** A cancel: a queued task ends, a processing one is told, any other is refused. */
  lemma CancelEdges(rows: Rows, id: TaskId, now: int)
    ensures var r := RequestCancel(rows, id, now);
            && (id !in rows <==> r == Err(TaskNotFound))
            && (id in rows && rows[id].status !in {Queued, Processing} <==> r == Err(TaskCancelling))
            && (r.Ok? <==> id in rows && rows[id].status in {Queued, Processing})
            && (r.Ok? ==>
                  && r.value == rows[id := r.value[id]] && r.value[id].cancelRequested
                  && r.value[id].status == (if rows[id].status == Queued then Cancelled else Cancelling)
                  && SameContent(r.value[id], rows[id]))
  {
  }

  /** A debounce: a claim takes any task that will carry its content or has, a refresh only
      one that is still queued. */
  lemma DebounceEdges(rows: Rows, id: TaskId, req: Request, now: int)
    ensures var claim := TryClaimDebounceMerge(rows, id, now);
            && (claim.Ok? <==> id in rows && rows[id].status in {Queued, Processing, Completed})
            && (claim.Err? ==> claim.error == if id in rows then InProgress else TaskNotFound)
            && (claim.Ok? ==> claim.value == rows[id := rows[id].(updatedAt := now)])
    ensures var refresh := UpdateTaskForDebounce(rows, id, req, now);
            && (refresh.Ok? <==> id in rows && rows[id].status == Queued)
            && (refresh.Err? ==> refresh.error == if id in rows then InProgress else TaskNotFound)
            && (refresh.Ok? ==>
                  && refresh.value == rows[id := refresh.value[id]]
                  && refresh.value[id].status == Queued && !refresh.value[id].cancelRequested
                  && refresh.value[id].contentHash == req.contentHash && refresh.value[id].filepath == req.filepath
                  && refresh.value[id].docId == rows[id].docId && refresh.value[id].ns == rows[id].ns
                  && refresh.value[id].canonical == rows[id].canonical)
  {
    if id in rows { StatusClasses(rows[id].status); }
  }

  /** A cancel of a task whose handler is running reaches it: in every reachable state, once
      the cancel of a processing task is recorded, the worker's next checkpoint sees it. */
  lemma CancelReachesCheckpoint(c: Config, states: seq<State>, steps: seq<Step>, i: nat, w: WorkerId, id: TaskId)
    requires IsRun(c, states, steps) && i < |steps| && steps[i].Cancel? && steps[i].id == id
    requires w in states[i].workers && states[i].workers[w].Running? && states[i].workers[w].id == id
    requires id in states[i].rows && states[i].rows[id].status == Processing
    ensures id in states[i + 1].rows && states[i + 1].rows[id].status == Cancelling
    ensures Enabled(c, states[i + 1], Checkpoint(w))
  {
    StepAt(c, states, steps, i);
    CancelEdges(states[i].rows, id, steps[i].now);
  }

  // ---------------------------------------------------- the engine's steps

  /** A selected task that is still queued when it is marked goes to the worker that
      selected it, with the row it was selected as, and its document is reserved. */
  lemma DispatchGoesThrough(c: Config, s: State, w: WorkerId, id: TaskId, now: int)
    requires Enabled(c, s, Pick(w, id))
    ensures var picked := Apply(c, s, Pick(w, id));
            && picked.sched == Picked(w, id, s.rows[id]) && picked.rows == s.rows
            && (s.rows[id].docId != "" ==> (s.rows[id].ns, s.rows[id].docId) in picked.active)
            && Enabled(c, picked, Mark(false, now))
            && var marked := Apply(c, picked, Mark(false, now));
               && marked.sched == Free && marked.active == picked.active
               && w in marked.workers && marked.workers[w] == Running(id, s.rows[id])
               && id in marked.rows && marked.rows[id].status == Processing
  {
    DispatchEdge(s.rows, id, w, now);
  }

  /** A resubmission merges into a candidate of the same content, refreshes a queued one of
      other content, and becomes a task of its own otherwise, unless a statement fails. */
  lemma SubmissionGoesThrough(c: Config, s: State, id: TaskId, newId: TaskId, now: int)
    requires s.sched.Looked? && (s.sched.found.Some? ==> s.sched.found.value.0 == id) && newId !in s.used
    requires s.rows.Keys <= s.used
    ensures
      && s.sched.found.Some? && s.sched.found.value.1.contentHash == s.sched.req.contentHash
      && id in s.rows && s.rows[id].status in {Queued, Processing, Completed} ==>
      && Enabled(c, s, Claim(false, false, now))
      && var t := Apply(c, s, Claim(false, false, now));
         t.sched == Free && t.rows == s.rows[id := s.rows[id].(updatedAt := now)]
    ensures
      && s.sched.found.Some? && s.sched.found.value.1.contentHash != s.sched.req.contentHash
      && s.sched.found.value.1.status == Queued && id in s.rows && s.rows[id].status == Queued ==>
      && Enabled(c, s, Refresh(false, now))
      && var t := Apply(c, s, Refresh(false, now));
         t.sched == Refreshed(s.sched.req, id) && id in t.rows && t.rows[id].contentHash == s.sched.req.contentHash
    ensures s.sched.found.None? ==>
      && Enabled(c, s, Create(false, newId, now))
      && var t := Apply(c, s, Create(false, newId, now));
         t.sched == Free && newId in t.rows && t.rows[newId].status == Queued
         && t.rows[newId].contentHash == s.sched.req.contentHash && t.rows[newId].docId == s.sched.req.docId
  {
    DebounceEdges(s.rows, id, s.sched.req, now);
  }

  /** A handler's outcome is recorded, its input given up if it is releasable, and its
      document freed. */
  lemma OutcomeGoesThrough(c: Config, s: State, w: WorkerId, outcome: Outcome, now: int)
    requires Enabled(c, s, Finalize(w, outcome, false, now))
    requires var id := s.workers[w].id; TerminalWrite(s.rows, id, outcome, now).Ok?
    ensures var (id, snap) := (s.workers[w].id, s.workers[w].snap);
            var done := Apply(c, s, Finalize(w, outcome, false, now));
            && done.rows == TerminalWrite(s.rows, id, outcome, now).value && done.files == s.files
            && Enabled(c, done, ReleaseInput(w, false))
            && var released := Apply(c, done, ReleaseInput(w, false));
               var path := ReleasablePath(c.paths, c.managedDir, done.rows, snap.filepath, id);
               && released.files == (if path.Some? then s.files - {path.value} else s.files)
               && released.workers[w] == Returning(id, snap)
               && (s.sched.Free? ==>
                     && Enabled(c, released, TaskCompleted(w))
                     && Apply(c, released, TaskCompleted(w)).workers[w] == Idle
                     && (snap.docId != "" ==> (snap.ns, snap.docId) !in Apply(c, released, TaskCompleted(w)).active))
  {
  }

  /** A cancelled queued task's input is given up by the same rule. */
  lemma CancelReleaseGoesThrough(c: Config, s: State, id: TaskId, now: int)
    requires id in s.rows && s.rows[id].status == Queued
    ensures var t := Apply(c, s, Cancel(id, now));
            && id in t.rows && t.rows[id].status == Cancelled
            && Enabled(c, t, CancelRelease(id, t.rows[id], false))
            && var path := ReleasablePath(c.paths, c.managedDir, t.rows, s.rows[id].filepath, id);
               Apply(c, t, CancelRelease(id, t.rows[id], false)).files
               == if path.Some? then s.files - {path.value} else s.files
  {
    CancelEdges(s.rows, id, now);
  }

  // ------------------------------------------------------------------ stamps

  /** A dispatched task is timed out exactly when it was dispatched before the budget. */
  lemma DispatchedIsTimedOutIff(
    rows: Rows, id: TaskId, worker: int, now: int, nowSecs: int, seconds: int, stamp: int)
    requires MarkProcessing(rows, id, worker, now).Ok?
    ensures var after := SweepTimedOut(MarkProcessing(rows, id, worker, now).value, nowSecs, seconds, stamp);
            after[id].status == if now < 1000 * (nowSecs - seconds) then Failed else Processing
  {
  }

  /** A progress write keeps a processing task from the zombie sweep exactly as long as the
      threshold, and decides likewise what a restart requeues. */
  lemma ProgressPostponesZombieIff(
    rows: Rows, id: TaskId, worker: Option<int>, now: int, nowSecs: int, hours: int, stamp: int)
    requires id in rows && rows[id].status == Processing
    ensures var touched := UpdateProgress(rows, id, worker, now).value;
            var (swept, requeued) :=
              (SweepZombies(touched, nowSecs, hours, stamp), RequeueStaleProcessing(touched, nowSecs, hours, stamp));
            if now < 1000 * (nowSecs - 3600 * hours)
            then swept[id].status == Failed && requeued[id].status == Processing
            else swept[id].status == Processing && requeued[id].status == Queued
  {
  }

  /** An ended task is kept exactly as long as the retention after its last write. */
  lemma EndedIsDeletedIff(rows: Rows, id: TaskId, outcome: Outcome, now: int, nowSecs: int, days: int)
    requires TerminalWrite(rows, id, outcome, now).Ok?
    ensures var after := DeleteExpired(TerminalWrite(rows, id, outcome, now).value, nowSecs, days);
            id !in after <==> now < 1000 * (nowSecs - 86400 * days)
  {
  }

  /** Retention deletes nothing that has not ended, and leaves every row it keeps. */
  lemma RetentionKeepsLive(rows: Rows, id: TaskId, nowSecs: int, days: int)
    requires id in rows
    ensures var after := DeleteExpired(rows, nowSecs, days);
            && (id in after ==> after[id] == rows[id])
            && (rows[id].status in {Queued, Processing, Cancelling} ==> id in after)
  {
  }

  // --------------------------------------------------------------- debounce

  /** What a lookup finds, in terms of the clock: a newest task of the identity that will
      carry content, created no more than `window` seconds ago; and none only if there is
      no such task. */
  lemma RecentMeans(rows: Rows, found: Option<TaskId>, req: Request, now: int, window: int)
    requires IsRecent(rows, found, req, DebounceCutoff(now, window))
    ensures found.Some? ==>
      && found.value in rows
      && var row := rows[found.value];
         && row.ns == req.ns && row.docId == req.docId != "" && row.taskType == req.taskType
         && row.createdAt / 1000 >= now / 1000 - window
         && row.status in {Queued, Processing, Completed}
    ensures forall id | id in rows ::
      && rows[id].ns == req.ns && rows[id].docId == req.docId != "" && rows[id].taskType == req.taskType
      && rows[id].createdAt / 1000 >= now / 1000 - window
      && rows[id].status in {Queued, Processing, Completed}
      ==> found.Some? && rows[id].createdAt <= rows[found.value].createdAt
  {
    forall id | id in rows ensures IsCandidate(rows, id, req, DebounceCutoff(now, window)) <==>
      && rows[id].ns == req.ns && rows[id].docId == req.docId != "" && rows[id].taskType == req.taskType
      && rows[id].createdAt / 1000 >= now / 1000 - window
      && rows[id].status in {Queued, Processing, Completed}
    {
      StatusClasses(rows[id].status);
    }
  }

  /** A new task is what a resubmission within the window would find, and no longer. */
  lemma CreatedIsCandidateIff(paths: Paths, rows: Rows, id: TaskId, req: Request, now: int, later: int, window: int)
    requires CreateTask(paths, rows, id, req, now).Ok? && req.docId != ""
    ensures var after := CreateTask(paths, rows, id, req, now).value;
            && after == rows[id := after[id]] && id !in rows
            && after[id].status == Queued && !after[id].cancelRequested
            && after[id].contentHash == req.contentHash && after[id].filepath == req.filepath
            && (IsCandidate(after, id, req, DebounceCutoff(later, window)) <==> now / 1000 >= later / 1000 - window)
  {
  }

  /** What the select finds: an oldest queued task whose document is free, none only if
      there is none. */
  lemma OldestMeans(rows: Rows, active: set<(string, string)>, picked: Option<TaskId>)
    requires IsOldestEligible(rows, active, picked)
    ensures picked.Some? ==>
      && picked.value in rows && rows[picked.value].status == Queued
      && (rows[picked.value].docId == "" || (rows[picked.value].ns, rows[picked.value].docId) !in active)
    ensures forall id | id in rows ::
      && rows[id].status == Queued && (rows[id].docId == "" || (rows[id].ns, rows[id].docId) !in active)
      ==> picked.Some? && rows[picked.value].createdAt <= rows[id].createdAt
  {
    forall id | id in rows ensures Eligible(rows, active, id) <==>
      rows[id].status == Queued && (rows[id].docId == "" || (rows[id].ns, rows[id].docId) !in active)
    {
    }
  }

  // ---------------------------------------------------------------- release

  /** Exactly which path a release gives up: a resolved, non-empty one directly in the
      resolved managed directory, that no other live row carries as its identity, while no
      other live row with an input lacks one. */
  lemma ReleasableIff(
    paths: Paths, managedDir: string, rows: Rows, filepath: string, exclude: TaskId, path: string)
    ensures ReleasablePath(paths, managedDir, rows, filepath, exclude) == Some(path) <==>
      && managedDir != "" && filepath != "" && path != ""
      && paths.resolve(filepath) == Some(path) && paths.resolve(managedDir) == Some(paths.parent(path))
      && forall id | id in rows && id != exclude && rows[id].status in {Queued, Processing, Cancelling} ::
           rows[id].canonical != Some(path) && (rows[id].filepath != "" ==> rows[id].canonical.Some?)
  {
    assert LookupReleases(rows, path, exclude) <==>
      && path != ""
      && forall id | id in rows && id != exclude && rows[id].status in {Queued, Processing, Cancelling} ::
           rows[id].canonical != Some(path) && (rows[id].filepath != "" ==> rows[id].canonical.Some?)
    by {
      forall id | id in rows ensures Live(rows[id].status) <==> rows[id].status in {Queued, Processing, Cancelling} {
        StatusClasses(rows[id].status);
      }
    }
  }

  /** The identity stored at creation and by the backfill: what the path resolves to, unless
      it is empty, does not resolve, or resolves to nothing. */
  lemma StoredIdentityIff(paths: Paths, rows: Rows, id: TaskId, req: Request, now: int, path: string)
    requires id !in rows
    ensures CreateTask(paths, rows, id, req, now).Ok?
    ensures CreateTask(paths, rows, id, req, now).value[id].canonical == Some(path) <==>
            req.filepath != "" && paths.resolve(req.filepath) == Some(path) && path != ""
    ensures forall row: Row | row.filepath == req.filepath && row.status == Queued && row.canonical == None ::
            BackfilledRow(paths, row).canonical == CreateTask(paths, rows, id, req, now).value[id].canonical
  {
  }
}
