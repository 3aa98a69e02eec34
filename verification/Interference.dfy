/**
 What other threads may do to the table between two atomic calls of one thread, as
 relations on tables, and the proof that the engine's steps stay within them.

 A thread inside a scheduler call is met by `WhileScheduling`: nobody else can create,
 refresh, claim or mark.  A thread that holds no lock is met by `Meanwhile`: all of that
 may happen.  Only a restart is in neither.
 */
module Interference {
  import opened Wrappers
  import opened TaskStore
  import opened TaskEngine
  import opened TaskInvariants

  predicate FlagsAgree(row: Row) {
    && (row.cancelRequested ==> row.status !in {Queued, Processing})
    && (row.status == Cancelling ==> row.cancelRequested)
  }

  // ------------------------------------------------ with the scheduler mutex

  /** No row appears, a queued row keeps its content or is cancelled, no row becomes
      queued, terminal rows stay as they ended, and the cancel columns keep agreeing. */
  ghost predicate WhileScheduling(rows: Rows, rows': Rows) {
    forall id | id in rows' :: id in rows && RowKeepsContent(rows[id], rows'[id])
  }

  predicate RowKeepsContent(before: Row, after: Row) {
    && after.ns == before.ns && after.taskType == before.taskType && after.createdAt == before.createdAt
    && after.contentHash == before.contentHash && after.filepath == before.filepath
      && after.canonical == before.canonical
    && (after.status == Queued ==> before.status == Queued && after.docId == before.docId)
    && (Terminal(before.status) ==> after.status == before.status)
    && (FlagsAgree(before) ==> FlagsAgree(after))
  }

  lemma WhileSchedulingKeepsFlags(rows: Rows, rows': Rows)
    requires WhileScheduling(rows, rows') && StatusFlagsAgree(rows)
    ensures StatusFlagsAgree(rows')
  {
    forall id | id in rows' ensures FlagsAgree(rows'[id]) {
      assert FlagsAgree(rows[id]);
    }
  }

  lemma WhileSchedulingComposes(a: Rows, b: Rows, c: Rows)
    requires WhileScheduling(a, b) && WhileScheduling(b, c)
    ensures WhileScheduling(a, c)
  {
    forall id | id in c ensures id in a && RowKeepsContent(a[id], c[id]) {
      assert RowKeepsContent(b[id], c[id]) && RowKeepsContent(a[id], b[id]);
    }
  }

  lemma WriteKeepsContent(rows: Rows, rows': Rows, id: TaskId)
    requires rows'.Keys == rows.Keys && (forall j | j in rows && j != id :: rows'[j] == rows[j])
    requires id in rows ==> RowKeepsContent(rows[id], rows'[id])
    ensures WhileScheduling(rows, rows')
  {
  }

  lemma TerminalWriteKeepsContent(rows: Rows, id: TaskId, outcome: Outcome, now: int)
    requires TerminalWrite(rows, id, outcome, now).Ok?
    ensures WhileScheduling(rows, TerminalWrite(rows, id, outcome, now).value)
  {
    WriteKeepsContent(rows, TerminalWrite(rows, id, outcome, now).value, id);
  }

  lemma SweepKeepsContent(c: Config, s: State, step: Step)
    requires Enabled(c, s, step) && (step.ZombieSweep? || step.TimeoutSweep? || step.Retention?)
    ensures WhileScheduling(s.rows, Apply(c, s, step).rows)
  {
  }

  /** The steps inside an Enqueue or a Dequeue that write the table. */
  predicate SchedulerWrites(step: Step) {
    step.Claim? || step.Refresh? || step.Create? || step.Mark?
  }

  /** Every step that can fall inside another thread's scheduler call is such a change. */
  lemma StepWhileScheduling(c: Config, s: State, step: Step)
    requires Enabled(c, s, step) && !SchedulerWrites(step) && !step.Restart?
    ensures WhileScheduling(s.rows, Apply(c, s, step).rows)
  {
    match step
    case ZombieSweep(_, _, _) => SweepKeepsContent(c, s, step);
    case TimeoutSweep(_, _, _) => SweepKeepsContent(c, s, step);
    case Retention(_, _) => SweepKeepsContent(c, s, step);
    case Finalize(w, outcome, _, now) =>
      if TerminalWrite(s.rows, s.workers[w].id, outcome, now).Ok? {
        TerminalWriteKeepsContent(s.rows, s.workers[w].id, outcome, now);
      }
    case Cancel(id, _) => WriteKeepsContent(s.rows, Apply(c, s, step).rows, id);
    case Progress(id, _, _) => WriteKeepsContent(s.rows, Apply(c, s, step).rows, id);
    case _ =>
  }

  /** And so is any number of them. */
  lemma {:induction false} RunWhileScheduling(c: Config, states: seq<State>, steps: seq<Step>, i: nat, j: nat)
    requires IsRun(c, states, steps) && i <= j <= |steps|
    requires forall k | i <= k < j :: !SchedulerWrites(steps[k]) && !steps[k].Restart?
    ensures WhileScheduling(states[i].rows, states[j].rows)
    decreases j
  {
    if i < j {
      RunWhileScheduling(c, states, steps, i, j - 1);
      StepAt(c, states, steps, j - 1);
      StepWhileScheduling(c, states[j - 1], steps[j - 1]);
      WhileSchedulingComposes(states[i].rows, states[j - 1].rows, states[j].rows);
    }
  }

  // ------------------------------------------------------------ with no lock

  /** Rows may appear; queued rows may be refreshed, dispatched or cancelled; a row past
      queued keeps its content and does not return to the queue; terminal rows stay as
      they ended; and the cancel columns keep agreeing. */
  ghost predicate Meanwhile(rows: Rows, rows': Rows) {
    forall id | id in rows' :: if id in rows then RowMoves(rows[id], rows'[id]) else FlagsAgree(rows'[id])
  }

  predicate RowMoves(before: Row, after: Row) {
    && after.ns == before.ns && after.taskType == before.taskType && after.createdAt == before.createdAt
    && (before.status != Queued ==>
          after.status != Queued && after.contentHash == before.contentHash && after.filepath == before.filepath)
    && (Terminal(before.status) ==> after.status == before.status)
    && (FlagsAgree(before) ==> FlagsAgree(after))
  }

  lemma MeanwhileKeepsFlags(rows: Rows, rows': Rows)
    requires Meanwhile(rows, rows') && StatusFlagsAgree(rows)
    ensures StatusFlagsAgree(rows')
  {
    forall id | id in rows' ensures FlagsAgree(rows'[id]) {
      if id in rows { assert FlagsAgree(rows[id]); }
    }
  }

  lemma MeanwhileComposes(a: Rows, b: Rows, c: Rows)
    requires Meanwhile(a, b) && Meanwhile(b, c) && forall id | id in a && id in c :: id in b
    ensures Meanwhile(a, c)
  {
    forall id | id in c ensures if id in a then RowMoves(a[id], c[id]) else FlagsAgree(c[id]) {
      if id in b { assert RowMoves(b[id], c[id]); }
    }
  }

  lemma WriteMovesRow(rows: Rows, rows': Rows, id: TaskId)
    requires rows'.Keys == rows.Keys + {id} && (forall j | j in rows && j != id :: rows'[j] == rows[j])
    requires if id in rows then RowMoves(rows[id], rows'[id]) else FlagsAgree(rows'[id])
    ensures Meanwhile(rows, rows')
  {
  }

  /** Every step of the engine but a restart is such a change. */
  lemma StepMeanwhile(c: Config, s: State, step: Step)
    requires Enabled(c, s, step) && !step.Restart?
    ensures Meanwhile(s.rows, Apply(c, s, step).rows)
  {
    var t := Apply(c, s, step);
    if !SchedulerWrites(step) {
      StepWhileScheduling(c, s, step);
    } else if t.rows != s.rows {
      var id :=
        if step.Create? then step.id else if step.Mark? then s.sched.id else s.sched.found.value.0;
      WriteMovesRow(s.rows, t.rows, id);
    }
  }

  lemma {:induction false} UsedGrows(c: Config, states: seq<State>, steps: seq<Step>, i: nat, j: nat)
    requires IsRun(c, states, steps) && i <= j <= |steps|
    ensures states[i].used <= states[j].used
    decreases j
  {
    if i < j {
      UsedGrows(c, states, steps, i, j - 1);
      StepAt(c, states, steps, j - 1);
    }
  }

  lemma OnlyNewIdsAppear(c: Config, s: State, step: Step, id: TaskId)
    requires Enabled(c, s, step) && id in s.used && id !in s.rows
    ensures id !in Apply(c, s, step).rows
  {
  }

  /** As Meanwhile, and an id that was used and has left the table does not come back. */
  ghost predicate Onward(used: set<TaskId>, rows: Rows, rows': Rows) {
    Meanwhile(rows, rows') && forall id | id in used && id !in rows :: id !in rows'
  }

  lemma OnwardFromHere(used: set<TaskId>, rows: Rows)
    ensures Onward(used, rows, rows)
  {
  }

  lemma OnwardComposes(used: set<TaskId>, a: Rows, b: Rows, c: Rows)
    requires Onward(used, a, b) && Onward(used, b, c) && a.Keys <= used
    ensures Onward(used, a, c)
  {
    MeanwhileComposes(a, b, c);
  }

  lemma WhileSchedulingIsOnward(used: set<TaskId>, rows: Rows, rows': Rows)
    requires WhileScheduling(rows, rows')
    ensures Onward(used, rows, rows')
  {
    forall id | id in rows' ensures RowMoves(rows[id], rows'[id]) {
      assert RowKeepsContent(rows[id], rows'[id]);
    }
  }

  lemma WriteIsOnward(used: set<TaskId>, rows: Rows, rows': Rows, id: TaskId)
    requires rows'.Keys == rows.Keys && id in rows && (forall j | j in rows && j != id :: rows'[j] == rows[j])
    requires RowMoves(rows[id], rows'[id])
    ensures Onward(used, rows, rows')
  {
  }

  /** And so is any number of them. */
  lemma {:induction false} RunOnward(c: Config, states: seq<State>, steps: seq<Step>, i: nat, j: nat)
    requires IsRun(c, states, steps) && i <= j <= |steps| && forall k | i <= k < j :: !steps[k].Restart?
    ensures Onward(states[i].used, states[i].rows, states[j].rows)
    decreases j
  {
    RunInvariant(c, states, steps, i);
    if i < j {
      var (used, s) := (states[i].used, states[j - 1]);
      RunOnward(c, states, steps, i, j - 1);
      StepAt(c, states, steps, j - 1);
      StepMeanwhile(c, s, steps[j - 1]);
      UsedGrows(c, states, steps, i, j - 1);
      forall id | id in used && id !in s.rows ensures id !in states[j].rows {
        OnlyNewIdsAppear(c, s, steps[j - 1], id);
      }
      OnwardComposes(used, states[i].rows, s.rows, states[j].rows);
    }
  }
}
