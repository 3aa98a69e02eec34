/**
 The scheduler in its own, mutable form.  Its mutex spans several calls of the manager,
 between which other threads run.

 What a call did is stated through its writes: the table before and after each of its
 own atomic calls, with nothing but interference around them.
 */
module TaskScheduling {
  import opened Wrappers
  import TaskStore
  import TaskEngine
  import TaskInvariants
  import opened Interference
  import opened TaskManagement

  /** One atomic write of a scheduler call. */
  datatype Write = Write(before: Rows, after: Rows)

  /** The table went from `rows` to `rows'` through these writes, in this order, and
      otherwise by interference only. */
  ghost predicate Linked(rows: Rows, writes: seq<Write>, rows': Rows)
    decreases writes
  {
    if writes == [] then WhileScheduling(rows, rows')
    else WhileScheduling(rows, writes[0].before) && Linked(writes[0].after, writes[1..], rows')
  }

  lemma LinkedByOne(rows: Rows, w: Write, rows': Rows)
    requires WhileScheduling(rows, w.before) && WhileScheduling(w.after, rows')
    ensures Linked(rows, [w], rows')
  {
    assert [w][1..] == [];
  }

  lemma LinkedByTwo(rows: Rows, v: Write, w: Write, rows': Rows)
    requires WhileScheduling(rows, v.before) && WhileScheduling(v.after, w.before) && WhileScheduling(w.after, rows')
    ensures Linked(rows, [v, w], rows')
  {
    assert [v, w][1..] == [w];
    LinkedByOne(v.after, w, rows');
  }

  lemma Unchanged(rows: Rows)
    ensures WhileScheduling(rows, rows)
  {
  }

  predicate IsClaim(w: Write, id: TaskId, now: int) {
    TaskStore.TryClaimDebounceMerge(w.before, id, now) == Ok(w.after)
  }

  predicate IsRefresh(w: Write, id: TaskId, req: Request, now: int) {
    TaskStore.UpdateTaskForDebounce(w.before, id, req, now) == Ok(w.after)
  }

  predicate IsCreate(paths: TaskStore.Paths, w: Write, id: TaskId, req: Request, now: int) {
    TaskStore.CreateTask(paths, w.before, id, req, now) == Ok(w.after)
  }

  /** The task holds the submitted content and will process it, is processing it, or
      has. */
  predicate CarriesRequest(rows: Rows, id: TaskId, req: Request) {
    && id in rows
    && rows[id].ns == req.ns && rows[id].taskType == req.taskType && rows[id].contentHash == req.contentHash
    && rows[id].status in {TaskStore.Queued, TaskStore.Processing, TaskStore.Completed}
  }

  datatype Disposition = Created | Merged | Refreshed

  /** The last write put the submission into the returned task, by the way reported, and
      the task is there when the call returns. */
  ghost predicate Delivers(
    paths: TaskStore.Paths, last: Write, id: TaskId, how: Disposition, req: Request, now: int, rows: Rows)
  {
    && CarriesRequest(last.after, id, req)
    && id in rows
    && match how
       case Created => IsCreate(paths, last, id, req, now) && rows == last.after
       case Merged => IsClaim(last, id, now) && rows == last.after
       case Refreshed => IsRefresh(last, id, req, now) && WhileScheduling(last.after, rows)
  }

  /** The candidate an Enqueue found, and the table on which it tried to claim or refresh
      it. */
  datatype Attempt = Attempt(id: TaskId, seen: Rows)

  /** Why an Enqueue that found `rows` and left the table at `rows'` did not debounce: it
      was not asked to, the lookup failed, there was no candidate, or the newest one was
      in flight with other content or refused the write. */
  ghost predicate Declined(
    rows: Rows, rows': Rows, req: Request, window: int, now: int, f: EnqueueFaults, tried: Option<Attempt>)
  {
    || req.docId == "" || window <= 0 || f.lookup.CannotStep?
    || (tried.None? && TaskStore.IsRecent(rows, None, req, TaskStore.DebounceCutoff(now, window)))
    || (tried.Some?
        && var Attempt(id, seen) := tried.value;
           && TaskStore.IsRecent(rows, Some(id), req, TaskStore.DebounceCutoff(now, window))
           && WhileScheduling(rows, seen) && WhileScheduling(seen, rows')
           && (if rows[id].contentHash == req.contentHash
               then Guarded(f.merge, TaskStore.TryClaimDebounceMerge(seen, id, now)).Err?
               else rows[id].status == TaskStore.Queued ==>
                      Guarded(f.refresh, TaskStore.UpdateTaskForDebounce(seen, id, req, now)).Err?))
  }

  /** A claim or refresh that was written and then not read back: its read failed, or the
      refreshed row was gone, as it still is in the table `later`. */
  predicate LostWrite(w: Write, id: TaskId, req: Request, now: int, f: EnqueueFaults, later: Rows) {
    || (IsClaim(w, id, now) && f.readBack.Some?)
    || (IsRefresh(w, id, req, now) && (!f.reread.Reads? || id !in later))
  }

  lemma StillLost(w: Write, id: TaskId, req: Request, now: int, f: EnqueueFaults, rows: Rows, rows': Rows)
    requires LostWrite(w, id, req, now, f, rows) && WhileScheduling(rows, rows')
    ensures LostWrite(w, id, req, now, f, rows')
  {
    assert id in rows' ==> id in rows;
  }

  /** Which statements of an Enqueue fail. */
  datatype EnqueueFaults = EnqueueFaults(
    lookup: ReadFault, merge: Fault, readBack: Option<StoreError>, refresh: Fault, reread: ReadFault, create: bool)

  /** The reservations are exactly what the workers hold, each held by one of them. */
  ghost predicate HeldExactly(active: set<DocKey>, held: map<int, DocKey>) {
    && active == (set w | w in held :: held[w])
    && (forall w | w in held :: held[w].1 != "")
    && forall v, w | v in held && w in held && held[v] == held[w] :: v == w
  }

  lemma ReserveKeepsHeld(active: set<DocKey>, held: map<int, DocKey>, worker: int, key: DocKey)
    requires HeldExactly(active, held) && worker !in held && key !in active && key.1 != ""
    ensures HeldExactly(active + {key}, held[worker := key])
  {
    var held' := held[worker := key];
    assert held'[worker] == key;
    forall w | w in held ensures held'[w] == held[w] && held[w] in active {
    }
  }

  lemma ReleaseKeepsHeld(active: set<DocKey>, held: map<int, DocKey>, worker: int)
    requires HeldExactly(active, held) && worker in held
    ensures HeldExactly(active - {held[worker]}, held - {worker})
  {
    var held' := held - {worker};
    forall w | w in held && held[w] != held[worker] ensures w in held' && held'[w] == held[w] {
    }
  }

  class TaskScheduler {
    const mgr: TaskManager
    var active: set<DocKey>

    /** Which worker holds which reservation. */
    ghost var held: map<int, DocKey>

    ghost predicate Valid()
      reads this
    {
      HeldExactly(active, held)
    }

    constructor (mgr: TaskManager)
      ensures Valid() && this.mgr == mgr && held == map[]
    {
      this.mgr := mgr;
      this.active := {};
      this.held := map[];
    }

    /** Calls of other workers, at a moment when both mutexes are free: they reserve and
        release, but never what this worker holds. */
    method OtherWorkers(ghost worker: int)
      requires Valid()
      modifies this
      ensures Valid()
      ensures worker in held <==> worker in old(held)
      ensures worker in held ==> held[worker] == old(held)[worker]
    {
    }

    /** Nothing is dispatched if and only if nothing was eligible, the select failed, or
        the mark was refused; a dispatched task was oldest among the eligible, is
        processing with exactly the content of the snapshot, and its document was free and
        is now reserved.  `mark` is the one write, if the select found a task. */
    method Dequeue(worker: int, now: int, select: ReadFault, fault: Fault)
      returns (picked: Result<Option<(TaskId, Row)>, StoreError>, ghost id: Option<TaskId>, ghost mark: Write)
      requires Valid() && worker !in held
      modifies this, mgr
      ensures Valid()
      ensures id.None? ==>
        && (select.Reads? ==> TaskStore.IsOldestEligible(old(mgr.rows), old(active), None))
        && picked == (if select.CannotPrepare? then Err(TaskStore.StorageFailed) else Ok(None))
        && mgr.rows == old(mgr.rows) && active == old(active) && held == old(held)
      ensures id.Some? ==>
        && select.Reads? && TaskStore.IsOldestEligible(old(mgr.rows), old(active), id)
        && WhileScheduling(old(mgr.rows), mark.before) && mgr.rows == mark.after
        && var attempt := Guarded(fault, TaskStore.MarkProcessing(mark.before, id.value, worker, now));
           && mark.after == After(mark.before, attempt)
           && (attempt.Err? ==>
                 && picked == (if attempt.error == TaskStore.InProgress then Ok(None) else Err(attempt.error))
                 && active == old(active) && held == old(held))
           && (attempt.Ok? ==>
                 && picked.Ok? && picked.value.Some? && picked.value.value.0 == id.value
                 && var task := picked.value.value.1;
                    && task == old(mgr.rows)[id.value].(status := TaskStore.Processing, workerId := Some(worker))
                    && mgr.rows[id.value].status == TaskStore.Processing
                    && TaskInvariants.SameContent(mgr.rows[id.value], task)
                    && (task.docId != "" ==> TaskStore.KeyOf(task) !in old(active))
                    && active == TaskEngine.Reserve(old(active), task)
                    && held == if task.docId == "" then old(held) else old(held)[worker := TaskStore.KeyOf(task)])
    {
      id, mark := None, Write(mgr.rows, mgr.rows);
      var selected := mgr.SelectOldestQueuedTaskExcluding(active, select);
      if selected.Err? { return Err(selected.error), id, mark; }
      if selected.value.None? { return Ok(None), id, mark; }
      var (found, task) := selected.value.value;
      id := Some(found);
      if task.docId != "" { active := active + {TaskStore.KeyOf(task)}; }
      mgr.WhileScheduling();
      ghost var before := mgr.rows;
      var marked := mgr.MarkProcessing(found, worker, now, fault);
      mark := Write(before, mgr.rows);
      if marked.Err? {
        if task.docId != "" { active := active - {TaskStore.KeyOf(task)}; }
        assert active == old(active);
        return (if marked.error == TaskStore.InProgress then Ok(None) else Err(marked.error)), id, mark;
      }
      if task.docId != "" {
        ReserveKeepsHeld(old(active), held, worker, TaskStore.KeyOf(task));
        held := held[worker := TaskStore.KeyOf(task)];
      }
      picked := Ok(Some((found, task.(status := TaskStore.Processing, workerId := Some(worker)))));
    }

    method OnTaskCompleted(task: Row, ghost worker: int)
      requires Valid()
      requires if task.docId == "" then worker !in held else worker in held && held[worker] == TaskStore.KeyOf(task)
      modifies this
      ensures Valid() && worker !in held && held == old(held) - {worker}
      ensures active == TaskEngine.Unreserve(old(active), task)
    {
      if task.docId != "" {
        active := active - {TaskStore.KeyOf(task)};
        ReleaseKeepsHeld(old(active), held, worker);
        held := held - {worker};
      } else {
        assert held - {worker} == held;
      }
    }

    /** The debounce: a newest candidate is claimed or refreshed, or none of it succeeds.
        `write` is the write that went through, even if its read-back then failed. */
    method Debounce(req: Request, window: int, now: int, f: EnqueueFaults)
      returns (r: Result<Option<(TaskId, Disposition)>, StoreError>,
               ghost write: Option<Write>, ghost tried: Option<Attempt>)
      modifies mgr
      ensures r.Err? <==> req.docId != "" && window > 0 && f.lookup.CannotPrepare?
      ensures r == Ok(None) && write.None? ==> Declined(old(mgr.rows), mgr.rows, req, window, now, f, tried)
      ensures write.None? ==> WhileScheduling(old(mgr.rows), mgr.rows) && (r.Err? || r.value.None?)
      ensures write.Some? ==>
        && r.Ok?
        && WhileScheduling(old(mgr.rows), write.value.before) && WhileScheduling(write.value.after, mgr.rows)
        && (r.value.None? ==>
              && tried.Some?
              && TaskStore.IsRecent(old(mgr.rows), Some(tried.value.id), req, TaskStore.DebounceCutoff(now, window))
              && LostWrite(write.value, tried.value.id, req, now, f, mgr.rows))
      ensures r.Ok? && r.value.Some? ==>
        && write.Some? && req.docId != "" && window > 0
        && var (id, how) := r.value.value;
           && TaskStore.IsRecent(old(mgr.rows), Some(id), req, TaskStore.DebounceCutoff(now, window))
           && CarriesRequest(write.value.after, id, req)
           && (how == Merged || how == Refreshed)
           && (how == Merged ==> IsClaim(write.value, id, now) && mgr.rows == write.value.after)
           && (how == Refreshed ==> IsRefresh(write.value, id, req, now) && id in mgr.rows)
    {
      write, tried := None, None;
      Unchanged(mgr.rows);
      if req.docId == "" || window <= 0 { return Ok(None), write, tried; }
      var recent := mgr.FindRecentTaskByDocId(req, now, window, f.lookup);
      if recent.Err? { return Err(recent.error), write, tried; }
      if recent.value.None? { return Ok(None), write, tried; }
      var (id, found) := recent.value.value;
      mgr.WhileScheduling();
      ghost var before := mgr.rows;
      Unchanged(before);
      tried := Some(Attempt(id, before));
      if found.contentHash == req.contentHash {
        var claimed := mgr.TryClaimDebounceMerge(id, now, f.merge, f.readBack);
        ghost var claim := Write(before, mgr.rows);
        Unchanged(mgr.rows);
        if claimed.Ok? { return Ok(Some((id, Merged))), Some(claim), tried; }
        if Guarded(f.merge, TaskStore.TryClaimDebounceMerge(before, id, now)).Ok? {
          assert IsClaim(claim, id, now);
          write := Some(claim);
        }
      } else if found.status == TaskStore.Queued {
        var refreshed, written := mgr.UpdateTaskForDebounce(id, req, now, f.refresh, f.reread);
        ghost var refresh := Write(before, written);
        if refreshed.Ok? { return Ok(Some((id, Refreshed))), Some(refresh), tried; }
        if Guarded(f.refresh, TaskStore.UpdateTaskForDebounce(before, id, req, now)).Ok? {
          assert IsRefresh(refresh, id, req, now);
          write := Some(refresh);
        }
      }
      r := Ok(None);
    }

    /** A successful Enqueue returns a task that carried the submission right after the
        call's last write: a claim of a newest candidate, a refresh of one, or a new
        task.  Whatever else changed in the table was other threads' doing, save a claim
        or refresh whose read-back failed. */
    method Enqueue(req: Request, window: int, now: int, newId: TaskId, f: EnqueueFaults)
      returns (r: Result<(TaskId, Disposition), StoreError>, ghost writes: seq<Write>, ghost tried: Option<Attempt>)
      modifies mgr
      ensures Linked(old(mgr.rows), writes, mgr.rows)
      ensures r.Ok? ==>
        && writes != []
        && Delivers(mgr.paths, writes[|writes| - 1], r.value.0, r.value.1, req, now, mgr.rows)
      ensures r.Ok? && r.value.1.Created? ==>
        && r.value.0 == newId
        && (|writes| == 1 ==> Declined(old(mgr.rows), writes[0].before, req, window, now, f, tried))
      ensures r.Err? ==> f.create || newId in mgr.rows || (req.docId != "" && window > 0 && f.lookup.CannotPrepare?)
      ensures r.Ok? && !r.value.1.Created? ==>
        && |writes| == 1 && req.docId != "" && window > 0
        && TaskStore.IsRecent(old(mgr.rows), Some(r.value.0), req, TaskStore.DebounceCutoff(now, window))
      ensures |writes| == 2 || (r.Err? && |writes| == 1) ==>
        && tried.Some?
        && TaskStore.IsRecent(old(mgr.rows), Some(tried.value.id), req, TaskStore.DebounceCutoff(now, window))
        && LostWrite(writes[0], tried.value.id, req, now, f, if |writes| == 2 then writes[1].before else mgr.rows)
      ensures |writes| <= if r.Ok? && r.value.1.Created? then 2 else 1
    {
      ghost var start := mgr.rows;
      var merged, write, tried' := Debounce(req, window, now, f);
      tried := tried';
      writes := if write.Some? then [write.value] else [];
      if write.Some? { LinkedByOne(start, write.value, mgr.rows); }
      if merged.Err? { return Err(merged.error), writes, tried; }
      if merged.value.Some? { return Ok(merged.value.value), writes, tried; }
      ghost var debounced := mgr.rows;
      mgr.WhileScheduling();
      ghost var before := mgr.rows;
      if write.Some? {
        WhileSchedulingComposes(write.value.after, debounced, before);
        StillLost(write.value, tried.value.id, req, now, f, debounced, before);
      }
      else {
        WhileSchedulingComposes(start, debounced, before);
        if tried.Some? && WhileScheduling(tried.value.seen, debounced) {
          WhileSchedulingComposes(tried.value.seen, debounced, before);
        }
      }
      var created := mgr.CreateTask(newId, req, now, f.create);
      Unchanged(mgr.rows);
      if created.Err? {
        if write.Some? { LinkedByOne(start, write.value, mgr.rows); }
        return Err(created.error), writes, tried;
      }
      ghost var create := Write(before, mgr.rows);
      if write.Some? { LinkedByTwo(start, write.value, create, mgr.rows); }
      else { LinkedByOne(start, create, mgr.rows); }
      r, writes := Ok((newId, Created)), writes + [create];
    }
  }
}
