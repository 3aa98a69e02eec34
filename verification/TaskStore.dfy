/**
 The `tasks` table (src/async/task_manager.cpp) as a value: one row per task, and
 one function per mutexed operation of TaskManager.  Every operation takes the
 table and yields either the new table or the error the source reports.

 Instants are milliseconds since the epoch; module Timestamps proves that the
 source's string comparisons on its ISO 8601 columns order rows the same way.
 */
module TaskStore {
  import opened Wrappers

  type TaskId = string

  datatype Status = Queued | Processing | Cancelling | Completed | Failed | Cancelled

  /** The columns that steer scheduling, cancellation and input release.  An absent
      doc_id or content_hash is SQL NULL in the table and "" here. */
  datatype Row = Row(
    ns: string, docId: string, taskType: int, contentHash: string,
    filepath: string, canonical: Option<string>,
    status: Status, cancelRequested: bool, workerId: Option<int>,
    createdAt: int, updatedAt: int, startedAt: Option<int>)

  type Rows = map<TaskId, Row>

  datatype Request = Request(ns: string, docId: string, taskType: int, contentHash: string, filepath: string)

  datatype StoreError = TaskNotFound | InProgress | TaskCancelling | StorageFailed

  /** The file system seen by the engine: weakly_canonical as a fixed partial
      function, and parent_path on resolved paths. */
  datatype Paths = Paths(resolve: string -> Option<string>, parent: string -> string)

  predicate Terminal(s: Status) {
    s in {Completed, Failed, Cancelled}
  }

  predicate Live(s: Status) {
    !Terminal(s)
  }

  /** The identity CreateTask and the backfill store for a path: none for an empty
      path, an unresolvable one, or one that resolves to the empty string. */
  function Canonicalize(paths: Paths, filepath: string): Option<string> {
    if filepath == "" || paths.resolve(filepath) == Some("") then None else paths.resolve(filepath)
  }

  // ---------------------------------------------------------------- creation

  function NewRow(paths: Paths, req: Request, now: int): Row {
    Row(req.ns, req.docId, req.taskType, req.contentHash, req.filepath, Canonicalize(paths, req.filepath),
        Queued, false, None, now, now, None)
  }

  function CreateTask(paths: Paths, rows: Rows, id: TaskId, req: Request, now: int): Result<Rows, StoreError> {
    if id in rows then Err(StorageFailed) else Ok(rows[id := NewRow(paths, req, now)])
  }

  // ------------------------------------------------------- guarded transitions

  function Rejected(rows: Rows, id: TaskId): StoreError {
    if id in rows then InProgress else TaskNotFound
  }

  function MarkProcessing(rows: Rows, id: TaskId, worker: int, now: int): Result<Rows, StoreError> {
    if id in rows && rows[id].status == Queued then
      Ok(rows[id := rows[id].(status := Processing, workerId := Some(worker), startedAt := Some(now),
        updatedAt := now)])
    else Err(Rejected(rows, id))
  }

  function MarkCompleted(rows: Rows, id: TaskId, docId: string, now: int): Result<Rows, StoreError> {
    if id in rows && rows[id].status in {Processing, Cancelling} then
      Ok(rows[id := rows[id].(status := Completed, docId := docId, updatedAt := now)])
    else Err(Rejected(rows, id))
  }

  function MarkFailed(rows: Rows, id: TaskId, now: int): Result<Rows, StoreError> {
    if id in rows && rows[id].status in {Processing, Cancelling} then
      Ok(rows[id := rows[id].(status := Failed, updatedAt := now)])
    else Err(Rejected(rows, id))
  }

  function MarkCancelled(rows: Rows, id: TaskId, now: int): Result<Rows, StoreError> {
    if id in rows && rows[id].status in {Queued, Cancelling} then
      Ok(rows[id := rows[id].(status := Cancelled, updatedAt := now)])
    else Err(Rejected(rows, id))
  }

  function RequestCancel(rows: Rows, id: TaskId, now: int): Result<Rows, StoreError> {
    if id !in rows then Err(TaskNotFound)
    else match rows[id].status
      case Queued => Ok(rows[id := rows[id].(cancelRequested := true, status := Cancelled, updatedAt := now)])
      case Processing => Ok(rows[id := rows[id].(cancelRequested := true, status := Cancelling, updatedAt := now)])
      case _ => Err(TaskCancelling)
  }

  function UpdateProgress(rows: Rows, id: TaskId, worker: Option<int>, now: int): Result<Rows, StoreError> {
    if id in rows then Ok(rows[id := rows[id].(workerId := worker, updatedAt := now)]) else Err(TaskNotFound)
  }

  // ----------------------------------------------------------------- debounce

  /** A status a resubmission may still be merged into. */
  predicate Mergeable(s: Status) {
    s !in {Cancelled, Cancelling, Failed}
  }

  /** Start of the debounce window: whole seconds, as the source computes it. */
  function DebounceCutoff(now: int, window: int): int {
    (now / 1000 - window) * 1000
  }

  predicate IsCandidate(rows: Rows, id: TaskId, req: Request, cutoff: int) {
    && id in rows
    && rows[id].ns == req.ns && req.docId != "" && rows[id].docId == req.docId && rows[id].taskType == req.taskType
    && rows[id].createdAt >= cutoff
    && Mergeable(rows[id].status)
  }

  /** What FindRecentTaskByDocId may return: a newest candidate, or nothing when
      there is none. */
  predicate IsRecent(rows: Rows, found: Option<TaskId>, req: Request, cutoff: int) {
    match found
    case None => forall id | id in rows :: !IsCandidate(rows, id, req, cutoff)
    case Some(id) =>
      && IsCandidate(rows, id, req, cutoff)
      && forall other | other in rows && IsCandidate(rows, other, req, cutoff) ::
        rows[other].createdAt <= rows[id].createdAt
  }

  function TryClaimDebounceMerge(rows: Rows, id: TaskId, now: int): Result<Rows, StoreError> {
    if id in rows && Mergeable(rows[id].status) then Ok(rows[id := rows[id].(updatedAt := now)])
    else Err(Rejected(rows, id))
  }

  /** The refresh rewrites filepath and leaves filepath_canonical as it was. */
  function UpdateTaskForDebounce(rows: Rows, id: TaskId, req: Request, now: int): Result<Rows, StoreError> {
    if id in rows && rows[id].status == Queued then
      Ok(rows[id := rows[id].(contentHash := req.contentHash, filepath := req.filepath, status := Queued,
                              workerId := None, startedAt := None, cancelRequested := false, updatedAt := now)])
    else Err(Rejected(rows, id))
  }

  // ----------------------------------------------------------------- dispatch

  type DocKey = (string, string)

  function KeyOf(row: Row): DocKey {
    (row.ns, row.docId)
  }

  predicate Eligible(rows: Rows, active: set<DocKey>, id: TaskId) {
    id in rows && rows[id].status == Queued && (rows[id].docId == "" || KeyOf(rows[id]) !in active)
  }

  /** What SelectOldestQueuedTaskExcluding may return. */
  predicate IsOldestEligible(rows: Rows, active: set<DocKey>, picked: Option<TaskId>) {
    match picked
    case None => forall id | id in rows :: !Eligible(rows, active, id)
    case Some(id) =>
      && Eligible(rows, active, id)
      && forall other | other in rows && Eligible(rows, active, other) :: rows[id].createdAt <= rows[other].createdAt
  }

  // ------------------------------------------------------------------- sweeps

  function Cutoff(nowSecs: int, ageSecs: int): int {
    (nowSecs - ageSecs) * 1000
  }

  predicate Expired(row: Row, cutoff: int) {
    Terminal(row.status) && row.updatedAt < cutoff
  }

  function DeleteExpired(rows: Rows, nowSecs: int, retentionDays: int): Rows {
    map id | id in rows && !Expired(rows[id], Cutoff(nowSecs, retentionDays * 86400)) :: rows[id]
  }

  predicate Zombie(row: Row, cutoff: int) {
    row.status == Processing && row.updatedAt < cutoff
  }

  function SweepZombies(rows: Rows, nowSecs: int, zombieHours: int, stamp: int): Rows {
    map id | id in rows ::
      if Zombie(rows[id], Cutoff(nowSecs, zombieHours * 3600)) then rows[id].(status := Failed, updatedAt := stamp)
      else rows[id]
  }

  predicate TimedOut(row: Row, cutoff: int) {
    row.status == Processing && row.startedAt.Some? && row.startedAt.value < cutoff
  }

  function SweepTimedOut(rows: Rows, nowSecs: int, timeoutSecs: int, stamp: int): Rows {
    map id | id in rows ::
      if TimedOut(rows[id], Cutoff(nowSecs, timeoutSecs)) then rows[id].(status := Failed, updatedAt := stamp)
      else rows[id]
  }

  predicate Stale(row: Row, cutoff: int) {
    row.status == Processing && row.updatedAt >= cutoff
  }

  function RequeueStaleProcessing(rows: Rows, nowSecs: int, zombieHours: int, stamp: int): Rows {
    map id | id in rows ::
      if Stale(rows[id], Cutoff(nowSecs, zombieHours * 3600))
      then rows[id].(status := Queued, workerId := None, startedAt := None, updatedAt := stamp)
      else rows[id]
  }

  /** At one instant and threshold, the requeue and the zombie sweep split the processing
      rows between them, whatever each writes as its stamp: each row goes to exactly one
      of queued and failed, every other row is left alone, and the order of the two is
      irrelevant. */
  lemma RequeueAndSweepPartition(rows: Rows, nowSecs: int, hours: int, requeued: int, swept: int)
    ensures var a := SweepZombies(RequeueStaleProcessing(rows, nowSecs, hours, requeued), nowSecs, hours, swept);
            var b := RequeueStaleProcessing(SweepZombies(rows, nowSecs, hours, swept), nowSecs, hours, requeued);
            && a == b && a.Keys == rows.Keys
            && forall id | id in rows ::
                 if rows[id].status != Processing then a[id] == rows[id]
                 else if rows[id].updatedAt < Cutoff(nowSecs, hours * 3600) then a[id].status == Failed
                 else a[id].status == Queued
  {
    var a := SweepZombies(RequeueStaleProcessing(rows, nowSecs, hours, requeued), nowSecs, hours, swept);
    var b := RequeueStaleProcessing(SweepZombies(rows, nowSecs, hours, swept), nowSecs, hours, requeued);
    assert a.Keys == rows.Keys && b.Keys == rows.Keys;
    forall id | id in rows ensures a[id] == b[id] {
    }
  }

  // ------------------------------------------------------------ input release

  predicate NeedsBackfill(row: Row) {
    Live(row.status) && row.filepath != "" && row.canonical in {None, Some("")}
  }

  function BackfilledRow(paths: Paths, row: Row): Row {
    if NeedsBackfill(row) && Canonicalize(paths, row.filepath).Some?
    then row.(canonical := Canonicalize(paths, row.filepath))
    else row
  }

  /** A row whose UPDATE fails is skipped. */
  function BackfillCanonicalInputs(paths: Paths, rows: Rows, skipped: set<TaskId>): Rows {
    map id | id in rows :: if id in skipped then rows[id] else BackfilledRow(paths, rows[id])
  }

  /** First lookup of ReleaseInputIfUnreferenced: a live row other than the releasing
      one carries this resolved path. */
  predicate NamedByLiveRow(rows: Rows, path: string, exclude: TaskId) {
    exists id | id in rows :: id != exclude && Live(rows[id].status) && rows[id].canonical == Some(path)
  }

  /** Second lookup: a live row other than the releasing one names an input whose
      identity is unknown. */
  predicate UnknownLiveIdentity(rows: Rows, exclude: TaskId) {
    exists id | id in rows ::
      id != exclude && Live(rows[id].status) && rows[id].filepath != "" && rows[id].canonical == None
  }

  predicate LookupReleases(rows: Rows, path: string, exclude: TaskId) {
    path != "" && !NamedByLiveRow(rows, path, exclude) && !UnknownLiveIdentity(rows, exclude)
  }

  /** The rule of managed_input.cpp: the path to remove, if any. */
  function ReleasablePath(
    paths: Paths, managedDir: string, rows: Rows, filepath: string, exclude: TaskId): Option<string>
  {
    if managedDir == "" || filepath == "" then None
    else match (paths.resolve(managedDir), paths.resolve(filepath))
      case (Some(dir), Some(path)) =>
        if paths.parent(path) == dir && LookupReleases(rows, path, exclude) then Some(path) else None
      case _ => None
  }
}
