/**
 The task manager and the release of inputs in their own, mutable form.  Every method is
 one critical section of the source and is proved against the table functions of
 TaskStore, which are the steps of TaskEngine.  A statement may fail; a method then
 reports the source's error and changes nothing unless it says so.

 `TaskManager.WhileScheduling` and `TaskManager.Meanwhile` stand for other threads at a
 moment when the manager's mutex is free: the first beside a caller that holds the
 scheduler's mutex, the second beside one that does not.  Module Interference proves
 that the engine's steps, any number of them, stay within the two.
 */
module TaskManagement {
  import opened Wrappers
  import TaskStore
  import TaskEngine
  import TaskLifecycle
  import Interference

  type TaskId = TaskStore.TaskId
  type Row = TaskStore.Row
  type Rows = TaskStore.Rows
  type Request = TaskStore.Request
  type StoreError = TaskStore.StoreError
  type DocKey = TaskStore.DocKey

  /** How the statements of a guarded write may fail: its first statement, the probe that
      tells a missing row from a moved one (taken for a missing row), or the write after
      a read. */
  datatype Fault = NoFault | StatementFails | ProbeFails | WriteFails

  /** How a SELECT may fail; a failing step is not told from an empty result. */
  datatype ReadFault = Reads | CannotPrepare | CannotStep

  /** A guarded UPDATE with its probe. */
  function Guarded(fault: Fault, attempt: Result<Rows, StoreError>): Result<Rows, StoreError> {
    match fault
    case NoFault => attempt
    case ProbeFails => if attempt.Ok? then attempt else Err(TaskStore.TaskNotFound)
    case _ => Err(TaskStore.StorageFailed)
  }

  /** RequestCancel reads, decides and writes. */
  function Decided(fault: Fault, attempt: Result<Rows, StoreError>): Result<Rows, StoreError> {
    match fault
    case NoFault => attempt
    case StatementFails => Err(TaskStore.StorageFailed)
    case ProbeFails => Err(TaskStore.TaskNotFound)
    case WriteFails => if attempt.Ok? then Err(TaskStore.StorageFailed) else attempt
  }

  /** The table after an attempted write: a rejected one changes nothing. */
  function After(rows: Rows, attempt: Result<Rows, StoreError>): Rows {
    if attempt.Ok? then attempt.value else rows
  }

  function Outcome(id: TaskId, attempt: Result<Rows, StoreError>): Result<Row, StoreError>
    requires attempt.Ok? ==> id in attempt.value
  {
    if attempt.Ok? then Ok(attempt.value[id]) else Err(attempt.error)
  }

  lemma {:induction false} OldestExists(rows: Rows, active: set<DocKey>, among: set<TaskId>) returns (id: TaskId)
    requires among != {} && among <= rows.Keys && forall j | j in among :: TaskStore.Eligible(rows, active, j)
    ensures id in among && forall j | j in among :: rows[id].createdAt <= rows[j].createdAt
    decreases |among|
  {
    id :| id in among;
    if among != {id} {
      var rest := OldestExists(rows, active, among - {id});
      if rows[rest].createdAt < rows[id].createdAt { id := rest; }
    }
  }

  lemma {:induction false} NewestExists(rows: Rows, req: Request, cutoff: int, among: set<TaskId>) returns (id: TaskId)
    requires among != {} && among <= rows.Keys && forall j | j in among :: TaskStore.IsCandidate(rows, j, req, cutoff)
    ensures id in among && forall j | j in among :: rows[j].createdAt <= rows[id].createdAt
    decreases |among|
  {
    id :| id in among;
    if among != {id} {
      var rest := NewestExists(rows, req, cutoff, among - {id});
      if rows[id].createdAt < rows[rest].createdAt { id := rest; }
    }
  }

  /** The rows that went from one status to another. */
  function Moved(before: Rows, after: Rows, from: TaskStore.Status, to: TaskStore.Status): set<TaskId> {
    set id | id in before && id in after && before[id].status == from && after[id].status == to
  }

  /** No row came or went, and every row that did not move is the same. */
  ghost predicate OthersKept(before: Rows, after: Rows, from: TaskStore.Status, to: TaskStore.Status) {
    && after.Keys == before.Keys
    && forall id | id in after && id !in Moved(before, after, from, to) :: after[id] == before[id]
  }

  class TaskManager {
    const paths: TaskStore.Paths
    var rows: Rows

    constructor (paths: TaskStore.Paths, rows: Rows, skipped: set<TaskId>)
      ensures this.paths == paths
      ensures this.rows == TaskStore.BackfillCanonicalInputs(paths, rows, skipped)
    {
      this.paths := paths;
      this.rows := rows;
      new;
      Backfill(skipped);
    }

    /** Any number of steps of other threads beside a caller in a scheduler call. */
    method WhileScheduling()
      modifies this
      ensures Interference.WhileScheduling(old(rows), rows)
    {
    }

    /** Any number of steps of other threads beside a caller that holds no lock; the caller
        knows the ids in `used` to have been given out. */
    method Meanwhile(ghost used: set<TaskId>)
      modifies this
      ensures Interference.Onward(used, old(rows), rows)
    {
    }

    /** The startup migration: resolve each pending live row in turn; the UPDATE of a
        skipped one fails. */
    method Backfill(skipped: set<TaskId>)
      modifies this
      ensures rows == TaskStore.BackfillCanonicalInputs(paths, old(rows), skipped)
    {
      var pending := set id | id in rows && TaskStore.NeedsBackfill(rows[id]);
      ghost var target := TaskStore.BackfillCanonicalInputs(paths, rows, skipped);
      while pending != {}
        invariant rows.Keys == old(rows).Keys && pending <= rows.Keys
        invariant forall id | id in rows :: rows[id] == if id in pending then old(rows)[id] else target[id]
        decreases |pending|
      {
        var id :| id in pending;
        var canonical := TaskStore.Canonicalize(paths, rows[id].filepath);
        if id !in skipped && TaskStore.NeedsBackfill(rows[id]) && canonical.Some? {
          rows := rows[id := rows[id].(canonical := canonical)];
        }
        pending := pending - {id};
      }
    }

    method CreateTask(id: TaskId, req: Request, now: int, fails: bool) returns (r: Result<Row, StoreError>)
      modifies this
      ensures var attempt := TaskStore.CreateTask(paths, old(rows), id, req, now);
              if fails then r == Err(TaskStore.StorageFailed) && rows == old(rows)
              else r == Outcome(id, attempt) && rows == After(old(rows), attempt)
    {
      if fails || id in rows {
        return Err(TaskStore.StorageFailed);
      }
      var canonical: Option<string> := None;
      if req.filepath != "" {
        canonical := paths.resolve(req.filepath);
        if canonical == Some("") { canonical := None; }
      }
      var row := TaskStore.Row(req.ns, req.docId, req.taskType, req.contentHash, req.filepath, canonical,
                               TaskStore.Queued, false, None, now, now, None);
      rows := rows[id := row];
      r := Ok(row);
    }

    method Rejection(id: TaskId, fault: Fault) returns (error: StoreError)
      ensures error == if fault.ProbeFails? then TaskStore.TaskNotFound else TaskStore.Rejected(rows, id)
    {
      error := if !fault.ProbeFails? && id in rows then TaskStore.InProgress else TaskStore.TaskNotFound;
    }

    method MarkProcessing(id: TaskId, worker: int, now: int, fault: Fault) returns (r: Result<Row, StoreError>)
      modifies this
      ensures var attempt := Guarded(fault, TaskStore.MarkProcessing(old(rows), id, worker, now));
              r == Outcome(id, attempt) && rows == After(old(rows), attempt)
    {
      if fault.StatementFails? || fault.WriteFails? { return Err(TaskStore.StorageFailed); }
      if id !in rows || rows[id].status != TaskStore.Queued {
        var error := Rejection(id, fault);
        return Err(error);
      }
      var row := rows[id].(status := TaskStore.Processing, workerId := Some(worker), startedAt := Some(now),
        updatedAt := now);
      rows := rows[id := row];
      r := Ok(row);
    }

    method MarkTerminal(id: TaskId, outcome: TaskEngine.Outcome, now: int, fault: Fault)
      returns (r: Result<Row, StoreError>)
      modifies this
      ensures var attempt := Guarded(fault, TaskEngine.TerminalWrite(old(rows), id, outcome, now));
              r == Outcome(id, attempt) && rows == After(old(rows), attempt)
    {
      if fault.StatementFails? || fault.WriteFails? { return Err(TaskStore.StorageFailed); }
      var sources := if outcome.Cancellation? then {TaskStore.Queued, TaskStore.Cancelling}
                     else {TaskStore.Processing, TaskStore.Cancelling};
      if id !in rows || rows[id].status !in sources {
        var error := Rejection(id, fault);
        return Err(error);
      }
      if outcome.Cancellation? {
        rows := rows[id := rows[id].(status := TaskStore.Cancelled, updatedAt := now)];
      } else if outcome.Success? {
        rows := rows[id := rows[id].(status := TaskStore.Completed, docId := outcome.docId, updatedAt := now)];
      } else {
        rows := rows[id := rows[id].(status := TaskStore.Failed, updatedAt := now)];
      }
      r := Ok(rows[id]);
    }

    method RequestCancel(id: TaskId, now: int, fault: Fault) returns (r: Result<Row, StoreError>)
      modifies this
      ensures var attempt := Decided(fault, TaskStore.RequestCancel(old(rows), id, now));
              r == Outcome(id, attempt) && rows == After(old(rows), attempt)
      ensures fault.NoFault? && id in old(rows) && old(rows)[id].status == TaskStore.Processing ==>
        && r.Ok? && id in rows && rows[id].status == TaskStore.Cancelling && rows[id].cancelRequested
      ensures fault.NoFault? && id in old(rows) && old(rows)[id].status == TaskStore.Queued ==>
        && r.Ok? && id in rows && rows[id].status == TaskStore.Cancelled && rows[id].cancelRequested
      ensures r == Err(TaskStore.TaskCancelling) ==>
        id in old(rows) && old(rows)[id].status !in {TaskStore.Queued, TaskStore.Processing}
      ensures r.Ok? ==> id in old(rows) && rows == old(rows)[id := r.value]
    {
      if fault.StatementFails? { return Err(TaskStore.StorageFailed); }
      if fault.ProbeFails? || id !in rows { return Err(TaskStore.TaskNotFound); }
      var next;
      if rows[id].status == TaskStore.Queued {
        next := TaskStore.Cancelled;
      } else if rows[id].status == TaskStore.Processing {
        next := TaskStore.Cancelling;
      } else {
        return Err(TaskStore.TaskCancelling);
      }
      if fault.WriteFails? { return Err(TaskStore.StorageFailed); }
      rows := rows[id := rows[id].(cancelRequested := true, status := next, updatedAt := now)];
      r := Ok(rows[id]);
    }

    method UpdateProgress(id: TaskId, worker: Option<int>, now: int, fails: bool) returns (r: Result<Row, StoreError>)
      modifies this
      ensures var attempt := TaskStore.UpdateProgress(old(rows), id, worker, now);
              if fails then r == Err(TaskStore.StorageFailed) && rows == old(rows)
              else r == Outcome(id, attempt) && rows == After(old(rows), attempt)
    {
      if fails { return Err(TaskStore.StorageFailed); }
      if id !in rows { return Err(TaskStore.TaskNotFound); }
      rows := rows[id := rows[id].(workerId := worker, updatedAt := now)];
      r := Ok(rows[id]);
    }

    method GetTask(id: TaskId, fault: ReadFault) returns (r: Result<Row, StoreError>)
      ensures r == if fault.CannotPrepare? then Err(TaskStore.StorageFailed)
                   else if fault.CannotStep? || id !in rows then Err(TaskStore.TaskNotFound) else Ok(rows[id])
    {
      if fault.CannotPrepare? { return Err(TaskStore.StorageFailed); }
      if fault.CannotStep? || id !in rows { return Err(TaskStore.TaskNotFound); }
      r := Ok(rows[id]);
    }

    method FindRecentTaskByDocId(req: Request, now: int, window: int, fault: ReadFault)
      returns (found: Result<Option<(TaskId, Row)>, StoreError>)
      ensures found.Ok? && found.value.Some? ==>
        && TaskStore.IsRecent(rows, Some(found.value.value.0), req, TaskStore.DebounceCutoff(now, window))
        && found.value.value.1 == rows[found.value.value.0]
      ensures found == Ok(None) && (fault.Reads? || req.docId == "") ==>
        TaskStore.IsRecent(rows, None, req, TaskStore.DebounceCutoff(now, window))
      ensures found.Ok? && found.value.Some? ==>
        var (id, row) := found.value.value;
        && id in rows && row == rows[id]
        && row.ns == req.ns && row.docId == req.docId != "" && row.taskType == req.taskType
        && row.createdAt / 1000 >= now / 1000 - window
        && row.status in {TaskStore.Queued, TaskStore.Processing, TaskStore.Completed}
      ensures found.Ok? && (fault.Reads? || req.docId == "") ==> forall id | id in rows ::
        && rows[id].ns == req.ns && rows[id].docId == req.docId != "" && rows[id].taskType == req.taskType
        && rows[id].createdAt / 1000 >= now / 1000 - window
        && rows[id].status in {TaskStore.Queued, TaskStore.Processing, TaskStore.Completed}
        ==> found.value.Some? && rows[id].createdAt <= found.value.value.1.createdAt
      ensures found.Err? <==> req.docId != "" && fault.CannotPrepare?
      ensures fault.CannotStep? ==> found == Ok(None)
    {
      if req.docId == "" { return Ok(None); }
      var cutoff := TaskStore.DebounceCutoff(now, window);
      if fault.CannotPrepare? { return Err(TaskStore.StorageFailed); }
      if fault.CannotStep? { return Ok(None); }
      var candidates := set id | id in rows && TaskStore.IsCandidate(rows, id, req, cutoff);
      if candidates == {} {
        forall id | id in rows ensures !TaskStore.IsCandidate(rows, id, req, cutoff) {
          assert id !in candidates;
        }
        TaskLifecycle.RecentMeans(rows, None, req, now, window);
        return Ok(None);
      }
      ghost var newest := NewestExists(rows, req, cutoff, candidates);
      assert TaskStore.IsRecent(rows, Some(newest), req, cutoff);
      var id :| id in rows && TaskStore.IsRecent(rows, Some(id), req, cutoff);
      TaskLifecycle.RecentMeans(rows, Some(id), req, now, window);
      found := Ok(Some((id, rows[id])));
    }

    /** `lost` is the error of a read-back that fails after the claim is written. */
    method TryClaimDebounceMerge(id: TaskId, now: int, fault: Fault, lost: Option<StoreError>)
      returns (r: Result<Row, StoreError>)
      modifies this
      ensures var attempt := Guarded(fault, TaskStore.TryClaimDebounceMerge(old(rows), id, now));
              && rows == After(old(rows), attempt)
              && r == if attempt.Ok? && lost.Some? then Err(lost.value) else Outcome(id, attempt)
    {
      if fault.StatementFails? || fault.WriteFails? { return Err(TaskStore.StorageFailed); }
      if id !in rows || !TaskStore.Mergeable(rows[id].status) {
        var error := Rejection(id, fault);
        return Err(error);
      }
      rows := rows[id := rows[id].(updatedAt := now)];
      if lost.Some? { return Err(lost.value); }
      r := Ok(rows[id]);
    }

    /** The guarded write, and a re-read in a critical section of its own: other threads
        may run in between.  `written` is the table right after the write. */
    method UpdateTaskForDebounce(id: TaskId, req: Request, now: int, fault: Fault, reread: ReadFault)
      returns (r: Result<Row, StoreError>, ghost written: Rows)
      modifies this
      ensures var attempt := Guarded(fault, TaskStore.UpdateTaskForDebounce(old(rows), id, req, now));
              && written == After(old(rows), attempt)
              && (attempt.Err? ==> rows == written && r == Err(attempt.error))
              && (attempt.Ok? ==>
                    && Interference.WhileScheduling(written, rows)
                    && (r.Ok? <==> reread.Reads? && id in rows) && (r.Ok? ==> r.value == rows[id]))
    {
      if fault.StatementFails? || fault.WriteFails? { return Err(TaskStore.StorageFailed), rows; }
      if id !in rows || rows[id].status != TaskStore.Queued {
        var error := Rejection(id, fault);
        return Err(error), rows;
      }
      rows := rows[id := rows[id].(contentHash := req.contentHash, filepath := req.filepath, status := TaskStore.Queued,
                                   workerId := None, startedAt := None, cancelRequested := false, updatedAt := now)];
      written := rows;
      WhileScheduling();
      r := GetTask(id, reread);
    }

    method SelectOldestQueuedTaskExcluding(active: set<DocKey>, fault: ReadFault)
      returns (picked: Result<Option<(TaskId, Row)>, StoreError>)
      ensures picked.Ok? && picked.value.Some? ==>
        && TaskStore.IsOldestEligible(rows, active, Some(picked.value.value.0))
        && picked.value.value.1 == rows[picked.value.value.0]
      ensures picked == Ok(None) && fault.Reads? ==> TaskStore.IsOldestEligible(rows, active, None)
      ensures picked.Ok? && fault.Reads? ==> forall id | id in rows ::
        && rows[id].status == TaskStore.Queued && (rows[id].docId == "" || (rows[id].ns, rows[id].docId) !in active)
        ==> picked.value.Some? && picked.value.value.1.createdAt <= rows[id].createdAt
      ensures picked.Ok? && picked.value.Some? ==>
        var row := picked.value.value.1;
        row.status == TaskStore.Queued && (row.docId == "" || (row.ns, row.docId) !in active)
      ensures fault.CannotStep? ==> picked == Ok(None)
      ensures picked.Err? ==> picked.error == TaskStore.StorageFailed
      ensures picked.Err? <==> fault.CannotPrepare?
    {
      if fault.CannotPrepare? { return Err(TaskStore.StorageFailed); }
      if fault.CannotStep? { return Ok(None); }
      var eligible := set id | id in rows && TaskStore.Eligible(rows, active, id);
      if eligible == {} {
        forall id | id in rows ensures !TaskStore.Eligible(rows, active, id) {
          assert id !in eligible;
        }
        TaskLifecycle.OldestMeans(rows, active, None);
        return Ok(None);
      }
      ghost var oldest := OldestExists(rows, active, eligible);
      assert TaskStore.IsOldestEligible(rows, active, Some(oldest));
      var id :| id in rows && TaskStore.IsOldestEligible(rows, active, Some(id));
      TaskLifecycle.OldestMeans(rows, active, Some(id));
      picked := Ok(Some((id, rows[id])));
    }

    /** UPDATE ... WHERE, row by row; the result is sqlite3_changes. */
    method UpdateRows(ids: set<TaskId>, write: Row -> Row) returns (count: nat)
      requires ids <= rows.Keys
      modifies this
      ensures count == |ids| && rows.Keys == old(rows).Keys
      ensures forall id | id in rows :: rows[id] == if id in ids then write(old(rows)[id]) else old(rows)[id]
    {
      count := 0;
      var pending := ids;
      while pending != {}
        invariant pending <= ids && count + |pending| == |ids| && rows.Keys == old(rows).Keys
        invariant forall id | id in rows ::
          rows[id] == if id in ids && id !in pending then write(old(rows)[id]) else old(rows)[id]
        decreases |pending|
      {
        var id :| id in pending;
        rows := rows[id := write(rows[id])];
        pending := pending - {id};
        count := count + 1;
      }
    }

    /** Afterwards no processing row is older than the cutoff: exactly those have failed,
        everything else is as it was, and the result is how many failed. */
    method SweepZombies(nowSecs: int, hours: int, stamp: int, fails: bool) returns (r: Result<nat, StoreError>)
      modifies this
      ensures fails ==> r == Err(TaskStore.StorageFailed) && rows == old(rows)
      ensures !fails ==>
        && r == Ok(|Moved(old(rows), rows, TaskStore.Processing, TaskStore.Failed)|)
        && OthersKept(old(rows), rows, TaskStore.Processing, TaskStore.Failed)
        && forall id | id in rows && rows[id].status == TaskStore.Processing ::
             1000 * (nowSecs - 3600 * hours) <= rows[id].updatedAt
      ensures !fails ==> rows == TaskStore.SweepZombies(old(rows), nowSecs, hours, stamp)
    {
      if fails { return Err(TaskStore.StorageFailed); }
      var cutoff := TaskStore.Cutoff(nowSecs, hours * 3600);
      var ids := set id | id in rows && rows[id].status == TaskStore.Processing && rows[id].updatedAt < cutoff;
      var count := UpdateRows(ids, (row: Row) => row.(status := TaskStore.Failed, updatedAt := stamp));
      assert ids == Moved(old(rows), rows, TaskStore.Processing, TaskStore.Failed);
      r := Ok(count);
    }

    /** Afterwards every processing row is older than the cutoff: exactly the others are
        back in the queue, and the result is how many. */
    method RequeueStaleProcessing(nowSecs: int, hours: int, stamp: int, fails: bool)
      returns (r: Result<nat, StoreError>)
      modifies this
      ensures fails ==> r == Err(TaskStore.StorageFailed) && rows == old(rows)
      ensures !fails ==>
        && r == Ok(|Moved(old(rows), rows, TaskStore.Processing, TaskStore.Queued)|)
        && OthersKept(old(rows), rows, TaskStore.Processing, TaskStore.Queued)
        && forall id | id in rows && rows[id].status == TaskStore.Processing ::
             rows[id].updatedAt < 1000 * (nowSecs - 3600 * hours)
      ensures !fails ==> rows == TaskStore.RequeueStaleProcessing(old(rows), nowSecs, hours, stamp)
    {
      if fails { return Err(TaskStore.StorageFailed); }
      var cutoff := TaskStore.Cutoff(nowSecs, hours * 3600);
      var ids := set id | id in rows && rows[id].status == TaskStore.Processing && rows[id].updatedAt >= cutoff;
      var count := UpdateRows(ids, (row: Row) =>
        row.(status := TaskStore.Queued, workerId := None, startedAt := None, updatedAt := stamp));
      assert ids == Moved(old(rows), rows, TaskStore.Processing, TaskStore.Queued);
      r := Ok(count);
    }

    /** What a starting process does to the table it finds: the engine's restart. */
    method Recover(skipped: set<TaskId>, nowSecs: int, hours: int, stamp: int, fails: bool)
      modifies this
      ensures var filled := TaskStore.BackfillCanonicalInputs(paths, old(rows), skipped);
              rows == if fails then filled else TaskStore.RequeueStaleProcessing(filled, nowSecs, hours, stamp)
    {
      Backfill(skipped);
      var _ := RequeueStaleProcessing(nowSecs, hours, stamp, fails);
    }

    /** Decide and remove under one lock.  An unanswerable lookup keeps the file. */
    method ReleaseInputIfUnreferenced(path: string, exclude: TaskId, disk: Disk, f: ReleaseFaults)
      returns (r: Result<bool, StoreError>)
      modifies disk
      ensures r == Ok(true) ==> TaskStore.LookupReleases(rows, path, exclude) && path in old(disk.files)
      ensures TaskStore.LookupReleases(rows, path, exclude) && path in old(disk.files)
        && f == ReleaseFaults(false, false, false)
        ==> r == Ok(true)
      ensures r.Err? ==> f.first || f.second
      ensures disk.files == if r == Ok(true) then old(disk.files) - {path} else old(disk.files)
    {
      if path == "" { return Ok(false); }
      if f.first { return Err(TaskStore.StorageFailed); }
      if TaskStore.NamedByLiveRow(rows, path, exclude) { return Ok(false); }
      if f.second { return Err(TaskStore.StorageFailed); }
      if TaskStore.UnknownLiveIdentity(rows, exclude) { return Ok(false); }
      var removed := disk.Remove(path, f.remove);
      r := Ok(removed);
    }
  }

  /** Which of the two lookups, and whether the removal, fails. */
  datatype ReleaseFaults = ReleaseFaults(first: bool, second: bool, remove: bool)

  /** The resolved paths of the files that exist. */
  class Disk {
    var files: set<string>

    constructor (files: set<string>)
      ensures this.files == files
    {
      this.files := files;
    }

    method Remove(path: string, fails: bool) returns (removed: bool)
      modifies this
      ensures removed == (path in old(files) && !fails)
      ensures files == if removed then old(files) - {path} else old(files)
    {
      removed := path in files && !fails;
      if removed { files := files - {path}; }
    }
  }

  // -------------------------------------------------------- managed inputs

  /** What a release may do to the files: nothing, or remove the one releasable path, which
      it does remove when nothing fails. */
  ghost predicate Releases(
    paths: TaskStore.Paths, managedDir: string, rows: Rows, filepath: string, exclude: TaskId,
    f: ReleaseFaults, files: set<string>, files': set<string>)
  {
    var path := TaskStore.ReleasablePath(paths, managedDir, rows, filepath, exclude);
    && (files' == files || (path.Some? && files' == files - {path.value}))
    && (path.Some? && f == ReleaseFaults(false, false, false) ==> files' == files - {path.value})
  }

  method ReleaseManagedPath(
    managedDir: string, filepath: string, exclude: TaskId, mgr: TaskManager, disk: Disk, f: ReleaseFaults)
    returns (released: bool)
    modifies disk
    ensures Releases(mgr.paths, managedDir, mgr.rows, filepath, exclude, f, old(disk.files), disk.files)
    ensures released <==> disk.files != old(disk.files)
  {
    if managedDir == "" || filepath == "" { return false; }
    var dir := mgr.paths.resolve(managedDir);
    if dir.None? { return false; }
    var path := mgr.paths.resolve(filepath);
    if path.None? { return false; }
    if mgr.paths.parent(path.value) != dir.value { return false; }
    var r := mgr.ReleaseInputIfUnreferenced(path.value, exclude, disk, f);
    released := r == Ok(true);
  }

  /** TaskFinalizer::Complete, Fail and Cancel: persist first, and give up the input
      only if the terminal state was accepted.  Other threads run in between and may well
      create or refresh a task that names the same file; the release is judged by the
      table they leave. */
  method FinalizeTask(
    managedDir: string, id: TaskId, snap: Row, outcome: TaskEngine.Outcome, now: int, mgr: TaskManager, disk: Disk,
    fault: Fault, f: ReleaseFaults, ghost used: set<TaskId>)
    returns (persisted: bool)
    modifies mgr, disk
    ensures var attempt := Guarded(fault, TaskEngine.TerminalWrite(old(mgr.rows), id, outcome, now));
            && (persisted <==> attempt.Ok?)
            && Interference.Onward(used, After(old(mgr.rows), attempt), mgr.rows)
    ensures if persisted
            then Releases(mgr.paths, managedDir, mgr.rows, snap.filepath, id, f, old(disk.files), disk.files)
            else disk.files == old(disk.files)
  {
    var marked := mgr.MarkTerminal(id, outcome, now, fault);
    persisted := marked.Ok?;
    mgr.Meanwhile(used);
    if persisted {
      var _ := ReleaseManagedPath(managedDir, snap.filepath, id, mgr, disk, f);
    }
  }

  /** DocumentTaskHandler::CancelTask: only a cancel that ends the task releases its
      input here. */
  method CancelTask(
    managedDir: string, id: TaskId, now: int, mgr: TaskManager, disk: Disk, fault: Fault, f: ReleaseFaults,
    ghost used: set<TaskId>)
    returns (r: Result<Row, StoreError>)
    modifies mgr, disk
    ensures var attempt := Decided(fault, TaskStore.RequestCancel(old(mgr.rows), id, now));
            && r == Outcome(id, attempt)
            && Interference.Onward(used, After(old(mgr.rows), attempt), mgr.rows)
    ensures fault.NoFault? && id in old(mgr.rows) && old(mgr.rows)[id].status == TaskStore.Processing ==>
      r.Ok? && r.value.status == TaskStore.Cancelling && r.value.cancelRequested
    ensures fault.NoFault? && id in old(mgr.rows) && old(mgr.rows)[id].status == TaskStore.Queued ==>
      r.Ok? && r.value.status == TaskStore.Cancelled && (id in mgr.rows ==> mgr.rows[id].status == TaskStore.Cancelled)
    ensures r == Err(TaskStore.TaskCancelling) ==>
      id in old(mgr.rows) && old(mgr.rows)[id].status !in {TaskStore.Queued, TaskStore.Processing}
    ensures if r.Ok? && r.value.status == TaskStore.Cancelled
            then Releases(mgr.paths, managedDir, mgr.rows, r.value.filepath, id, f, old(disk.files), disk.files)
            else disk.files == old(disk.files)
  {
    r := mgr.RequestCancel(id, now, fault);
    ghost var recorded := mgr.rows;
    mgr.Meanwhile(used);
    assert id in mgr.rows && id in recorded ==> Interference.RowMoves(recorded[id], mgr.rows[id]);
    if r.Ok? && r.value.status == TaskStore.Cancelled {
      var _ := ReleaseManagedPath(managedDir, r.value.filepath, id, mgr, disk, f);
    }
  }
}
