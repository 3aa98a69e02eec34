/**
 A worker thread's own code: WorkerPool::WorkerLoop (src/async/worker_pool.cpp) and
 DocumentProcessor::ProcessTask (src/async/document_processor.cpp).  Parsing and storing
 a document are outcomes chosen outside; what the rest of the engine may do meanwhile is
 `Rely`, and every engine step is proved to stay within it.
 */
module Workers {
  import opened Wrappers
  import opened TaskStore
  import opened TaskEngine
  import opened TaskInvariants
  import opened Interference
  import Management = TaskManagement
  import Scheduling = TaskScheduling

  // ------------------------------------------------------------------- rely

  /** What a worker executing task `id` may count on across other threads' steps: nobody
      else ends or refreshes its row short of a sweep, a recorded cancel stays recorded,
      and the cancel columns keep agreeing. */
  ghost predicate Rely(id: TaskId, snap: Row, rows: Rows, rows': Rows) {
    && (StatusFlagsAgree(rows) ==> StatusFlagsAgree(rows'))
    && (id in rows' ==> id in rows && (OwnedRow(rows[id], snap) ==> OwnedRow(rows'[id], snap)))
    && (BeingCancelled(rows, id) ==> BeingCancelled(rows', id))
  }

  predicate BeingCancelled(rows: Rows, id: TaskId) {
    id in rows && rows[id].status == Cancelling
  }

  lemma RelyComposes(id: TaskId, snap: Row, a: Rows, b: Rows, c: Rows)
    requires Rely(id, snap, a, b) && Rely(id, snap, b, c)
    ensures Rely(id, snap, a, c)
  {
  }

  predicate OwnStep(step: Step, w: WorkerId) {
    (HandlerStep(step) || step.TaskCompleted?) && step.w == w
  }

  lemma OtherFinalizeKeepsRow(c: Config, s: State, step: Step, w: WorkerId)
    requires Owned(s) && Enabled(c, s, step) && step.Finalize? && step.w != w && WorkerAt(s, w)
    ensures var id := s.workers[w].id;
            && (id in Apply(c, s, step).rows <==> id in s.rows)
            && (id in s.rows ==> Apply(c, s, step).rows[id] == s.rows[id])
  {
    assert WorkerAt(s, step.w);
  }

  /** No step but the worker's own, or a restart, ends a row that is being cancelled. */
  lemma CancellingStays(c: Config, s: State, step: Step, w: WorkerId)
    requires Owned(s) && Enabled(c, s, step) && !step.Restart? && !OwnStep(step, w)
    requires WorkerAt(s, w) && BeingCancelled(s.rows, s.workers[w].id)
    ensures BeingCancelled(Apply(c, s, step).rows, s.workers[w].id)
  {
    if step.Finalize? {
      OtherFinalizeKeepsRow(c, s, step, w);
    } else if TableStep(step) && (SweepStep(step) || step.Progress? || step.Cancel?) {
      ManagerStepIsQuiet(c, s, step);
    }
  }

  lemma OthersLeaveWorker(c: Config, s: State, step: Step, w: WorkerId)
    requires ReservationsExact(s) && Enabled(c, s, step) && !step.Restart? && !OwnStep(step, w)
    requires w in s.workers && Executing(s.workers[w])
    ensures w in Apply(c, s, step).workers && Apply(c, s, step).workers[w] == s.workers[w]
  {
  }

  /** In every reachable state, every step of another thread is within the rely. */
  lemma OthersStepsAreRelied(c: Config, states: seq<State>, steps: seq<Step>, i: nat, w: WorkerId)
    requires IsRun(c, states, steps) && i < |steps| && !steps[i].Restart? && !OwnStep(steps[i], w)
    requires w in states[i].workers && Executing(states[i].workers[w])
    ensures w in states[i + 1].workers && states[i + 1].workers[w] == states[i].workers[w]
    ensures Rely(states[i].workers[w].id, states[i].workers[w].snap, states[i].rows, states[i + 1].rows)
  {
    var s, t := states[i], states[i + 1];
    var id := s.workers[w].id;
    StepAt(c, states, steps, i);
    RunInvariant(c, states, steps, i);
    RunInvariant(c, states, steps, i + 1);
    OthersLeaveWorker(c, s, steps[i], w);
    assert WorkerOwns(s, s.workers[w]) && WorkerOwns(t, t.workers[w]);
    if id !in s.rows { OnlyNewIdsAppear(c, s, steps[i], id); }
    if BeingCancelled(s.rows, id) { CancellingStays(c, s, steps[i], w); }
  }

  /** And so is any number of them, until the worker itself or a restart steps. */
  lemma {:induction false} OthersRunsAreRelied(
    c: Config, states: seq<State>, steps: seq<Step>, i: nat, j: nat, w: WorkerId)
    requires IsRun(c, states, steps) && i <= j <= |steps|
    requires forall k | i <= k < j :: !steps[k].Restart? && !OwnStep(steps[k], w)
    requires w in states[i].workers && Executing(states[i].workers[w])
    ensures w in states[j].workers && states[j].workers[w] == states[i].workers[w]
    ensures Rely(states[i].workers[w].id, states[i].workers[w].snap, states[i].rows, states[j].rows)
    decreases j
  {
    if i < j {
      var (id, snap) := (states[i].workers[w].id, states[i].workers[w].snap);
      OthersRunsAreRelied(c, states, steps, i, j - 1, w);
      OthersStepsAreRelied(c, states, steps, j - 1, w);
      RelyComposes(id, snap, states[i].rows, states[j - 1].rows, states[j].rows);
    }
  }

  /** Nor does any other thread's step give away or take what a worker has reserved. */
  lemma OthersKeepReservation(c: Config, states: seq<State>, steps: seq<Step>, i: nat, w: WorkerId)
    requires IsRun(c, states, steps) && i < |steps| && !steps[i].Restart? && !OwnStep(steps[i], w)
    requires w in states[i].workers && !states[i].workers[w].Idle?
    ensures w in states[i + 1].workers && InFlight(states[i + 1], w) == InFlight(states[i], w)
    ensures states[i].workers[w].snap.docId != "" ==> KeyOf(states[i].workers[w].snap) in states[i + 1].active
  {
    var s, t := states[i], states[i + 1];
    StepAt(c, states, steps, i);
    RunInvariant(c, states, steps, i);
    RunInvariant(c, states, steps, i + 1);
    OthersKeepInFlight(c, s, steps[i], w);
    assert HoldsDoc(t, w, KeyOf(s.workers[w].snap));
  }

  lemma OthersKeepInFlight(c: Config, s: State, step: Step, w: WorkerId)
    requires ReservationsExact(s) && Enabled(c, s, step) && !step.Restart? && !OwnStep(step, w)
    requires w in s.workers && !s.workers[w].Idle?
    ensures w in Apply(c, s, step).workers && InFlight(Apply(c, s, step), w) == Some(s.workers[w].snap)
  {
  }

  /** The rest of the engine, any number of its steps, while this worker holds no lock: the
      rely, and what every step but a restart keeps. */
  method Elsewhere(mgr: Management.TaskManager, ghost id: TaskId, ghost snap: Row, ghost used: set<TaskId>)
    modifies mgr
    ensures Rely(id, snap, old(mgr.rows), mgr.rows) && Onward(used, old(mgr.rows), mgr.rows)
  {
  }

  // ---------------------------------------------------------------- the task

  function StatusOf(outcome: Outcome): Status {
    match outcome
    case Success(_) => Completed
    case Failure => Failed
    case Cancellation => Cancelled
  }

  /** The default cancel checker; a read that fails counts as not cancelled. */
  method CancelRequested(mgr: Management.TaskManager, id: TaskId, read: Management.ReadFault) returns (seen: bool)
    ensures seen <==> read.Reads? && id in mgr.rows && mgr.rows[id].cancelRequested
  {
    var row := mgr.GetTask(id, read);
    seen := row.Ok? && row.value.cancelRequested;
  }

  ghost predicate Executed(rows: Rows, id: TaskId, task: Row) {
    StatusFlagsAgree(rows) && (id in rows ==> OwnedRow(rows[id], task))
  }

  /** A parsed page: how its checkpoint reads, whether it parsed, whether its progress
      write fails. */
  datatype Page = Page(checkpoint: Management.ReadFault, ok: bool, writeFails: bool)

  /** What happens around one call of the handler: whether it throws, its pages, the parse
      and store results, the last checkpoint, and the finalizer's faults. */
  datatype Turn = Turn(
    throws: bool, pages: seq<Page>, parsed: bool, recheck: Management.ReadFault, stored: bool,
    fault: Management.Fault, release: Management.ReleaseFaults, now: int)

  /** The accumulator mirrored into the row. */
  datatype Tally = Tally(processed: nat, failed: seq<nat>)

  /** The numbers, from one, of the pages that did not parse. */
  function FailedPages(pages: seq<Page>): seq<nat> {
    if pages == [] then []
    else
      var n := |pages| - 1;
      FailedPages(pages[..n]) + if pages[n].ok then [] else [n + 1]
  }

  predicate SomeRead(pages: seq<Page>, n: nat)
    requires n <= |pages|
  {
    exists i | 0 <= i < n :: pages[i].checkpoint.Reads?
  }

  lemma ProgressKeepsTask(rows: Rows, id: TaskId, task: Row, worker: int, now: int, used: set<TaskId>)
    requires Executed(rows, id, task) && id in rows
    ensures var rows' := UpdateProgress(rows, id, Some(worker), now).value;
            && Executed(rows', id, task) && Onward(used, rows, rows')
            && (BeingCancelled(rows, id) ==> BeingCancelled(rows', id))
  {
    WriteIsOnward(used, rows, UpdateProgress(rows, id, Some(worker), now).value, id);
  }

  /** One call of the page callback: a checkpoint, then a progress write unless the
      checkpoint throws. */
  method ParsePage(
    id: TaskId, task: Row, worker: int, page: Page, now: int, mgr: Management.TaskManager, ghost used: set<TaskId>)
    returns (cancelled: bool)
    requires Executed(mgr.rows, id, task) && mgr.rows.Keys <= used
    modifies mgr
    ensures Executed(mgr.rows, id, task) && Onward(used, old(mgr.rows), mgr.rows)
    ensures BeingCancelled(old(mgr.rows), id) ==>
      BeingCancelled(mgr.rows, id) && (page.checkpoint.Reads? ==> cancelled)
    ensures cancelled ==> BeingCancelled(mgr.rows, id) && page.checkpoint.Reads?
    ensures !cancelled && !page.writeFails && id in mgr.rows ==>
      mgr.rows[id].workerId == Some(worker) && mgr.rows[id].updatedAt == now
  {
    ghost var start := mgr.rows;
    Elsewhere(mgr, id, task, used);
    cancelled := CancelRequested(mgr, id, page.checkpoint);
    if !cancelled {
      ghost var checked := mgr.rows;
      Elsewhere(mgr, id, task, used);
      ghost var before := mgr.rows;
      OnwardComposes(used, start, checked, before);
      var _ := mgr.UpdateProgress(id, Some(worker), now, page.writeFails);
      if id in before && !page.writeFails {
        ProgressKeepsTask(before, id, task, worker, now, used);
        OnwardComposes(used, start, before, mgr.rows);
      }
    }
  }

  /** The parser calls back for each page, until it is done or the checkpoint throws.  A
      cancel is seen at the first checkpoint that can be read; every page before it is
      accounted for; and after the last page the row carries this worker's stamp if its
      write went through. */
  method ParsePages(
    id: TaskId, task: Row, worker: int, turn: Turn, mgr: Management.TaskManager, ghost used: set<TaskId>)
    returns (cancelled: bool, prog: Tally)
    requires Executed(mgr.rows, id, task) && mgr.rows.Keys <= used
    modifies mgr
    ensures Executed(mgr.rows, id, task) && Onward(used, old(mgr.rows), mgr.rows)
    ensures BeingCancelled(old(mgr.rows), id) ==>
      BeingCancelled(mgr.rows, id) && (SomeRead(turn.pages, |turn.pages|) ==> cancelled)
    ensures cancelled ==> BeingCancelled(mgr.rows, id)
    ensures prog.processed <= |turn.pages| && prog.failed == FailedPages(turn.pages[..prog.processed])
    ensures if cancelled then prog.processed < |turn.pages| && turn.pages[prog.processed].checkpoint.Reads?
            else prog.processed == |turn.pages|
    ensures !cancelled && turn.pages != [] && !turn.pages[|turn.pages| - 1].writeFails && id in mgr.rows ==>
      mgr.rows[id].workerId == Some(worker) && mgr.rows[id].updatedAt == turn.now
  {
    prog := Tally(0, []);
    OnwardFromHere(used, mgr.rows);
    while prog.processed < |turn.pages|
      invariant prog.processed <= |turn.pages| && prog.failed == FailedPages(turn.pages[..prog.processed])
      invariant Executed(mgr.rows, id, task) && Onward(used, old(mgr.rows), mgr.rows)
      invariant BeingCancelled(old(mgr.rows), id) ==>
        BeingCancelled(mgr.rows, id) && !SomeRead(turn.pages, prog.processed)
      invariant prog.processed > 0 && !turn.pages[prog.processed - 1].writeFails && id in mgr.rows ==>
        mgr.rows[id].workerId == Some(worker) && mgr.rows[id].updatedAt == turn.now
    {
      var page := turn.pages[prog.processed];
      ghost var before := mgr.rows;
      cancelled := ParsePage(id, task, worker, page, turn.now, mgr, used + before.Keys);
      OnwardComposes(used, old(mgr.rows), before, mgr.rows);
      if cancelled { return; }
      assert turn.pages[..prog.processed + 1][..prog.processed] == turn.pages[..prog.processed];
      prog := Tally(prog.processed + 1, if page.ok then prog.failed else prog.failed + [prog.processed + 1]);
    }
    assert turn.pages[..|turn.pages|] == turn.pages;
    cancelled := false;
  }

  /** The terminal write of a task being executed. */
  lemma FinalWriteIsLast(
    rows: Rows, id: TaskId, task: Row, outcome: Outcome, now: int, fault: Management.Fault, used: set<TaskId>)
    requires Executed(rows, id, task)
    ensures var attempt := Management.Guarded(fault, TerminalWrite(rows, id, outcome, now));
            var after := Management.After(rows, attempt);
            && StatusFlagsAgree(after) && Onward(used, rows, after)
            && (attempt.Ok? ==> id in after && after[id].status == StatusOf(outcome))
            && (id in after ==> after[id].status != Queued)
            && (id in after && fault.NoFault? && (outcome.Cancellation? ==> BeingCancelled(rows, id)) ==>
                  Terminal(after[id].status))
            && (outcome.Cancellation? && BeingCancelled(rows, id) && fault.NoFault? ==> attempt.Ok?)
  {
    var attempt := Management.Guarded(fault, TerminalWrite(rows, id, outcome, now));
    if attempt.Ok? { WriteIsOnward(used, rows, attempt.value, id); }
  }

  /** What one call of the handler did: its outcome, whether it was persisted, and the table
      on which the one terminal write was tried. */
  datatype Handling = Handling(outcome: Outcome, persisted: bool, seen: Rows)

  /** Exactly one finalization, tried on `seen`: accepted, it is the row's last word and
      decides the input by the release rule; refused, the input stays; and unless the store
      fails the row, if it is still there, has ended. */
  ghost predicate Finalized(
    paths: Paths, managedDir: string, id: TaskId, task: Row, turn: Turn, used: set<TaskId>,
    h: Handling, after: Rows, files: set<string>, files': set<string>)
  {
    var attempt := Management.Guarded(turn.fault, TerminalWrite(h.seen, id, h.outcome, turn.now));
    && Executed(h.seen, id, task)
    && (h.persisted <==> attempt.Ok?) && Onward(used, Management.After(h.seen, attempt), after)
    && (id in after ==> after[id].status != Queued)
    && (turn.fault.NoFault? && id in after ==> after[id].status in {Completed, Failed, Cancelled})
    && (h.persisted && id in after ==>
          match h.outcome
          case Success(_) => after[id].status == Completed
          case Failure => after[id].status == Failed
          case Cancellation => after[id].status == Cancelled)
    && if h.persisted
       then Management.Releases(paths, managedDir, after, task.filepath, id, turn.release, files, files')
       else files' == files
  }

  /** Which outcome: success if and only if the document was parsed and stored and no cancel
      was seen, failure if it was not; a cancellation only where a readable checkpoint saw
      the row being cancelled, and always where one was recorded beforehand. */
  ghost predicate Judged(id: TaskId, task: Row, turn: Turn, before: Rows, h: Handling) {
    && (h.outcome.Success? ==> h.outcome.docId == task.docId && turn.parsed && turn.stored)
    && (h.outcome.Failure? ==> !turn.parsed || !turn.stored)
    && (h.outcome.Cancellation? ==>
          && (SomeRead(turn.pages, |turn.pages|) || (turn.parsed && turn.recheck.Reads?))
          && BeingCancelled(h.seen, id) && (turn.fault.NoFault? ==> h.persisted))
    && (BeingCancelled(before, id) ==>
          SomeRead(turn.pages, |turn.pages|) || (turn.parsed && turn.recheck.Reads?) ==> h.outcome.Cancellation?)
  }

  /** The handler: parse page by page, check for a cancel once more, store, and finalize
      once.  Other threads, new submissions included, run throughout. */
  method ProcessTask(
    managedDir: string, id: TaskId, task: Row, worker: int, turn: Turn,
    mgr: Management.TaskManager, disk: Management.Disk, ghost used: set<TaskId>)
    returns (outcome: Outcome, persisted: bool, ghost seen: Rows)
    requires Executed(mgr.rows, id, task) && mgr.rows.Keys <= used && id in used
    modifies mgr, disk
    ensures StatusFlagsAgree(mgr.rows) && Onward(used, old(mgr.rows), mgr.rows) && Onward(used, old(mgr.rows), seen)
    ensures Finalized(mgr.paths, managedDir, id, task, turn, used, Handling(outcome, persisted, seen), mgr.rows,
                      old(disk.files), disk.files)
    ensures Judged(id, task, turn, old(mgr.rows), Handling(outcome, persisted, seen))
  {
    ghost var start := mgr.rows;
    var cancelled, _ := ParsePages(id, task, worker, turn, mgr, used);
    ghost var parsed := mgr.rows;
    if !cancelled && turn.parsed {
      Elsewhere(mgr, id, task, used);
      OnwardComposes(used, start, parsed, mgr.rows);
      cancelled := CancelRequested(mgr, id, turn.recheck);
    }
    outcome := if cancelled then Cancellation else if turn.parsed && turn.stored then Success(task.docId) else Failure;
    ghost var decided := mgr.rows;
    Elsewhere(mgr, id, task, used);
    OnwardComposes(used, start, decided, mgr.rows);
    seen := mgr.rows;
    FinalWriteIsLast(seen, id, task, outcome, turn.now, turn.fault, used);
    ghost var attempt := Management.Guarded(turn.fault, TerminalWrite(seen, id, outcome, turn.now));
    ghost var written := Management.After(seen, attempt);
    OnwardComposes(used, start, seen, written);
    persisted := Management.FinalizeTask(
      managedDir, id, task, outcome, turn.now, mgr, disk, turn.fault, turn.release, used);
    OnwardComposes(used, start, written, mgr.rows);
    MeanwhileKeepsFlags(written, mgr.rows);
    assert id in mgr.rows ==> RowMoves(written[id], mgr.rows[id]);
  }

  // ---------------------------------------------------------------- the loop

  /** How the two statements of a Dequeue may fail. */
  datatype Pull = Pull(select: Management.ReadFault, mark: Management.Fault)

  /** What one turn of the loop did: the table, reservations and files it began with, the
      task its select found, the mark, the worker's hold while it served it, what the
      handler did if it ran to its end, and the table and files it left. */
  datatype Entry = Entry(
    start: Rows, active: set<DocKey>, files: set<string>, used: set<TaskId>,
    id: Option<TaskId>, mark: Scheduling.Write, hold: Option<DocKey>, handling: Option<Handling>,
    finish: Rows, files': set<string>)

  /** The mark of the selected task went through. */
  predicate MarkedBy(id: Option<TaskId>, mark: Scheduling.Write, worker: int, pull: Pull, now: int) {
    id.Some? && Management.Guarded(pull.mark, MarkProcessing(mark.before, id.value, worker, now)).Ok?
  }

  /** The select found an oldest eligible task if there was one, and the mark is the one
      write that followed. */
  ghost predicate SelectedBy(
    start: Rows, active: set<DocKey>, id: Option<TaskId>, mark: Scheduling.Write, worker: int, pull: Pull, now: int)
  {
    && (id.None? && pull.select.Reads? ==> IsOldestEligible(start, active, None))
    && (id.Some? ==>
          && IsOldestEligible(start, active, id) && WhileScheduling(start, mark.before)
          && var attempt := Management.Guarded(pull.mark, MarkProcessing(mark.before, id.value, worker, now));
             mark.after == Management.After(mark.before, attempt))
  }

  /** The task as it is handed to the handler. */
  function Handed(row: Row, worker: int): Row {
    row.(status := Processing, workerId := Some(worker))
  }

  /** The worker held the task's document, if any, and left the task past queued.  The
      handler of its type ran to its end if there is one and it did not throw, on the task
      as dispatched; otherwise no input was touched. */
  ghost predicate Ran(
    e: Entry, paths: Paths, managedDir: string, worker: int, turn: Turn, handlers: set<int>)
    requires e.id.Some? && e.id.value in e.start
  {
    var (id, row) := (e.id.value, e.start[e.id.value]);
    && (e.hold == if row.docId == "" then None else Some((row.ns, row.docId)))
    && (id in e.finish ==> e.finish[id].status != Queued)
    && if row.taskType in handlers && !turn.throws
       then
         && e.handling.Some?
         && Finalized(paths, managedDir, id, Handed(row, worker), turn, e.used, e.handling.value, e.finish,
                      e.files, e.files')
         && Judged(id, Handed(row, worker), turn, e.mark.after, e.handling.value)
       else e.handling.None? && e.files' == e.files
  }

  /** What a turn of the loop must do. */
  ghost predicate Served(
    e: Entry, paths: Paths, managedDir: string, worker: int, pull: Pull, turn: Turn, handlers: set<int>)
  {
    && SelectedBy(e.start, e.active, e.id, e.mark, worker, pull, turn.now)
    && if MarkedBy(e.id, e.mark, worker, pull, turn.now) then Ran(e, paths, managedDir, worker, turn, handlers)
       else e.hold.None? && e.handling.None? && e.files' == e.files
  }

  lemma DequeueIsOnward(
    rows: Rows, mark: Scheduling.Write, id: TaskId, worker: int, now: int, fault: Management.Fault, used: set<TaskId>)
    requires StatusFlagsAgree(rows) && WhileScheduling(rows, mark.before) && rows.Keys <= used
    requires var attempt := Management.Guarded(fault, MarkProcessing(mark.before, id, worker, now));
             mark.after == Management.After(mark.before, attempt)
    ensures StatusFlagsAgree(mark.after) && Onward(used, rows, mark.after)
  {
    WhileSchedulingKeepsFlags(rows, mark.before);
    WhileSchedulingIsOnward(used, rows, mark.before);
    if mark.after != mark.before {
      WriteIsOnward(used, mark.before, mark.after, id);
      OnwardComposes(used, rows, mark.before, mark.after);
    }
  }

  /** Running the handler of a dispatched task, if there is one.  A throw may come after
      any number of progress writes, which the rely covers. */
  method Handle(
    id: TaskId, task: Row, worker: int, turn: Turn, handlers: set<int>, managedDir: string,
    mgr: Management.TaskManager, disk: Management.Disk, ghost used: set<TaskId>)
    returns (ghost handling: Option<Handling>)
    requires Executed(mgr.rows, id, task) && mgr.rows.Keys <= used && id in used
    modifies mgr, disk
    ensures StatusFlagsAgree(mgr.rows) && Onward(used, old(mgr.rows), mgr.rows)
    ensures id in mgr.rows ==> mgr.rows[id].status != Queued
    ensures handling.Some? <==> task.taskType in handlers && !turn.throws
    ensures handling.Some? ==>
      && Finalized(mgr.paths, managedDir, id, task, turn, used, handling.value, mgr.rows, old(disk.files), disk.files)
      && Judged(id, task, turn, old(mgr.rows), handling.value)
    ensures handling.None? ==> disk.files == old(disk.files)
  {
    handling := None;
    if task.taskType in handlers {
      if turn.throws {
        Elsewhere(mgr, id, task, used);
      } else {
        var outcome, persisted, seen := ProcessTask(managedDir, id, task, worker, turn, mgr, disk, used);
        handling := Some(Handling(outcome, persisted, seen));
      }
    } else {
      OnwardFromHere(used, mgr.rows);
    }
  }

  /** Pulling a task, as the worker sees it: what is dispatched is the worker's to execute,
      and its document is held. */
  method Take(worker: int, pull: Pull, now: int, scheduler: Scheduling.TaskScheduler, ghost used: set<TaskId>)
    returns (picked: Option<(TaskId, Row)>, ghost id: Option<TaskId>, ghost mark: Scheduling.Write,
             ghost hold: Option<DocKey>)
    requires StatusFlagsAgree(scheduler.mgr.rows) && scheduler.Valid() && worker !in scheduler.held
    requires scheduler.mgr.rows.Keys <= used
    modifies scheduler, scheduler.mgr
    ensures StatusFlagsAgree(scheduler.mgr.rows) && scheduler.Valid()
    ensures scheduler.mgr.rows.Keys <= used && Onward(used, old(scheduler.mgr.rows), scheduler.mgr.rows)
    ensures SelectedBy(old(scheduler.mgr.rows), old(scheduler.active), id, mark, worker, pull, now)
    ensures picked.Some? <==> MarkedBy(id, mark, worker, pull, now)
    ensures picked.Some? ==>
      && id == Some(picked.value.0) && id.value in old(scheduler.mgr.rows)
      && picked.value.1 == Handed(old(scheduler.mgr.rows)[id.value], worker)
      && scheduler.mgr.rows == mark.after && id.value in mark.after
      && Executed(mark.after, id.value, picked.value.1)
    ensures hold == if picked.None? || picked.value.1.docId == "" then None
                    else Some((picked.value.1.ns, picked.value.1.docId))
    ensures worker in scheduler.held <==> hold.Some?
    ensures hold.Some? ==> scheduler.held[worker] == hold.value
  {
    ghost var start := scheduler.mgr.rows;
    var result, found, write := scheduler.Dequeue(worker, now, pull.select, pull.mark);
    id, mark := found, write;
    picked := if result.Ok? then result.value else None;
    hold := if worker in scheduler.held then Some(scheduler.held[worker]) else None;
    if found.Some? {
      DequeueIsOnward(start, mark, found.value, worker, now, pull.mark, used);
    } else {
      WhileSchedulingIsOnward(used, start, scheduler.mgr.rows);
    }
  }

  /** One turn of the loop, with other workers reserving and releasing all the time.
      Whichever way the task ends, by a normal return, a throw or a missing handler, its
      reservation is given back. */
  method WorkerTurn(
    worker: int, pull: Pull, turn: Turn, handlers: set<int>, managedDir: string,
    scheduler: Scheduling.TaskScheduler, disk: Management.Disk, ghost used: set<TaskId>)
    returns (ghost entry: Entry)
    requires StatusFlagsAgree(scheduler.mgr.rows) && scheduler.Valid() && worker !in scheduler.held
    requires scheduler.mgr.rows.Keys <= used
    modifies scheduler, scheduler.mgr, disk
    ensures StatusFlagsAgree(scheduler.mgr.rows) && scheduler.Valid() && worker !in scheduler.held
    ensures Onward(used, old(scheduler.mgr.rows), scheduler.mgr.rows)
    ensures Served(entry, scheduler.mgr.paths, managedDir, worker, pull, turn, handlers)
    ensures entry.start == old(scheduler.mgr.rows) && entry.active == old(scheduler.active)
    ensures entry.files == old(disk.files) && entry.used == used
    ensures entry.finish == scheduler.mgr.rows && entry.files' == disk.files
  {
    var mgr := scheduler.mgr;
    ghost var start, active, files := mgr.rows, scheduler.active, disk.files;
    ghost var handling := None;
    var picked, found, mark, hold := Take(worker, pull, turn.now, scheduler, used);
    ghost var taken := mgr.rows;
    scheduler.OtherWorkers(worker);
    if picked.Some? {
      var (id, task) := picked.value;
      handling := Handle(id, task, worker, turn, handlers, managedDir, mgr, disk, used);
      OnwardComposes(used, start, taken, mgr.rows);
      scheduler.OtherWorkers(worker);
      scheduler.OnTaskCompleted(task, worker);
    } else {
      mgr.Meanwhile(used);
      MeanwhileKeepsFlags(taken, mgr.rows);
      OnwardComposes(used, start, taken, mgr.rows);
    }
    scheduler.OtherWorkers(worker);
    entry := Entry(start, active, files, used, found, mark, hold, handling, mgr.rows, disk.files);
  }

  /** Every turn did what it must, beginning on the table and files the previous one left. */
  ghost predicate ServedInTurn(
    paths: Paths, managedDir: string, worker: int, pulls: seq<Pull>, turns: seq<Turn>, handlers: set<int>,
    first: Rows, files: set<string>, log: seq<Entry>, last: Rows, files': set<string>)
    requires |log| <= |pulls| == |turns|
    decreases |log|
  {
    if log == [] then last == first && files' == files
    else
      var n := |log| - 1;
      && log[n].finish == last && log[n].files' == files'
      && Served(log[n], paths, managedDir, worker, pulls[n], turns[n], handlers)
      && ServedInTurn(paths, managedDir, worker, pulls, turns, handlers, first, files,
                      log[..n], log[n].start, log[n].files)
  }

  /** The loop runs until stop_ is seen, here after the given turns: each serves as one turn
      does, on the table the previous one left. */
  method WorkerLoop(
    worker: int, pulls: seq<Pull>, turns: seq<Turn>, handlers: set<int>, managedDir: string,
    scheduler: Scheduling.TaskScheduler, disk: Management.Disk)
    returns (ghost log: seq<Entry>)
    requires |pulls| == |turns|
    requires StatusFlagsAgree(scheduler.mgr.rows) && scheduler.Valid() && worker !in scheduler.held
    modifies scheduler, scheduler.mgr, disk
    ensures StatusFlagsAgree(scheduler.mgr.rows) && scheduler.Valid() && worker !in scheduler.held
    ensures |log| == |turns|
    ensures ServedInTurn(scheduler.mgr.paths, managedDir, worker, pulls, turns, handlers,
                         old(scheduler.mgr.rows), old(disk.files), log, scheduler.mgr.rows, disk.files)
  {
    log := [];
    for i := 0 to |turns|
      invariant StatusFlagsAgree(scheduler.mgr.rows) && scheduler.Valid() && worker !in scheduler.held
      invariant |log| == i
      invariant ServedInTurn(scheduler.mgr.paths, managedDir, worker, pulls, turns, handlers,
                             old(scheduler.mgr.rows), old(disk.files), log, scheduler.mgr.rows, disk.files)
    {
      var entry := WorkerTurn(
        worker, pulls[i], turns[i], handlers, managedDir, scheduler, disk, scheduler.mgr.rows.Keys);
      assert (log + [entry])[..|log|] == log;
      log := log + [entry];
    }
  }
}
