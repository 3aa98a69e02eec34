/**
 What every step of the task engine keeps, and so what holds in every state of
 every run.
 */
module TaskInvariants {
  import opened Wrappers
  import opened TaskStore
  import opened TaskEngine

  // ------------------------------------------------------------ reservations

  /** The task a worker holds a reservation for, if any: between Dequeue's select and
      OnTaskCompleted. */
  function InFlight(s: State, w: WorkerId): Option<Row>
    requires w in s.workers
  {
    if s.sched.Picked? && s.sched.w == w then Some(s.sched.snap)
    else if s.workers[w].Idle? then None
    else Some(s.workers[w].snap)
  }

  predicate HoldsDoc(s: State, w: WorkerId, key: DocKey) {
    w in s.workers && InFlight(s, w).Some? && KeyOf(InFlight(s, w).value) == key
  }

  /** active_docs_ is exactly the set of non-empty documents in flight, and no two
      workers hold the same one. */
  ghost predicate ReservationsExact(s: State) {
    && (s.sched.Picked? ==> s.sched.w in s.workers && s.workers[s.sched.w].Idle?)
    && (forall w, key | HoldsDoc(s, w, key) && key.1 != "" :: key in s.active)
    && (forall key | key in s.active :: key.1 != "" && exists w :: HoldsDoc(s, w, key))
    && (forall w, w', key | HoldsDoc(s, w, key) && HoldsDoc(s, w', key) && key.1 != "" :: w == w')
  }

  /** A step that changes neither the scheduler's hold nor any worker's reservation. */
  lemma SameReservations(s: State, t: State)
    requires ReservationsExact(s) && t.active == s.active && t.workers.Keys == s.workers.Keys
    requires t.sched.Picked? ==> t.sched == s.sched
    requires s.sched.Picked? ==> t.sched == s.sched
    requires forall w | w in s.workers :: t.workers[w].Idle? == s.workers[w].Idle?
    requires forall w | w in s.workers && !s.workers[w].Idle? :: t.workers[w].snap == s.workers[w].snap
    ensures ReservationsExact(t)
  {
    forall w, key ensures HoldsDoc(t, w, key) == HoldsDoc(s, w, key) {
    }
    forall key | key in t.active ensures exists w :: HoldsDoc(t, w, key) {
      var w :| HoldsDoc(s, w, key);
      assert HoldsDoc(t, w, key);
    }
  }

  lemma PickKeepsReservations(c: Config, s: State, step: Step)
    requires step.Pick? && Enabled(c, s, step) && ReservationsExact(s)
    ensures ReservationsExact(Apply(c, s, step))
  {
    var t := Apply(c, s, step);
    var row := s.rows[step.id];
    forall w, key ensures HoldsDoc(t, w, key) == (HoldsDoc(s, w, key) || (w == step.w && key == KeyOf(row))) {
    }
    forall key | key in t.active ensures key.1 != "" && exists w :: HoldsDoc(t, w, key) {
      if key == KeyOf(row) {
        assert HoldsDoc(t, step.w, key);
      } else {
        var w :| HoldsDoc(s, w, key);
        assert HoldsDoc(t, w, key);
      }
    }
  }

  /** Giving up one worker's reservation frees that worker's document and no other. */
  lemma DropKeepsReservations(s: State, t: State, w: WorkerId)
    requires ReservationsExact(s) && w in s.workers && InFlight(s, w).Some?
    requires t.active == Unreserve(s.active, InFlight(s, w).value)
    requires t.workers.Keys == s.workers.Keys && t.workers[w].Idle?
    requires forall v | v in s.workers && v != w :: t.workers[v] == s.workers[v]
    requires if s.sched.Picked? && s.sched.w == w then t.sched.Free? else t.sched == s.sched
    ensures ReservationsExact(t)
    ensures forall v | v in s.workers && v != w :: InFlight(t, v) == InFlight(s, v)
  {
    var own := KeyOf(InFlight(s, w).value);
    forall v, key ensures HoldsDoc(t, v, key) == (HoldsDoc(s, v, key) && v != w) {
    }
    assert HoldsDoc(s, w, own);
    forall v, key | HoldsDoc(t, v, key) && key.1 != "" ensures key in t.active {
      assert HoldsDoc(s, v, key) && key != own;
    }
    forall key | key in t.active ensures exists v :: HoldsDoc(t, v, key) {
      var v :| HoldsDoc(s, v, key);
      assert HoldsDoc(t, v, key);
    }
  }

  lemma MarkKeepsReservations(c: Config, s: State, step: Step)
    requires step.Mark? && Enabled(c, s, step) && ReservationsExact(s)
    ensures ReservationsExact(Apply(c, s, step))
  {
    var t := Apply(c, s, step);
    var w := s.sched.w;
    if t.workers[w].Idle? {
      DropKeepsReservations(s, t, w);
    } else {
      forall v, key ensures HoldsDoc(t, v, key) == HoldsDoc(s, v, key) {
      }
      forall key | key in t.active ensures exists v :: HoldsDoc(t, v, key) {
        var v :| HoldsDoc(s, v, key);
        assert HoldsDoc(t, v, key);
      }
    }
  }

  lemma CompletionKeepsReservations(c: Config, s: State, step: Step)
    requires step.TaskCompleted? && Enabled(c, s, step) && ReservationsExact(s)
    ensures ReservationsExact(Apply(c, s, step))
  {
    DropKeepsReservations(s, Apply(c, s, step), step.w);
  }

  lemma RestartKeepsReservations(c: Config, s: State, step: Step)
    requires step.Restart? && Enabled(c, s, step) && ReservationsExact(s)
    ensures ReservationsExact(Apply(c, s, step))
  {
    forall w, key ensures !HoldsDoc(Apply(c, s, step), w, key) {
    }
  }

  lemma EnqueueKeepsReservations(c: Config, s: State, step: Step)
    requires EnqueueStep(step) && Enabled(c, s, step) && ReservationsExact(s)
    ensures ReservationsExact(Apply(c, s, step))
  {
    SameReservations(s, Apply(c, s, step));
  }

  lemma HandlerKeepsReservations(c: Config, s: State, step: Step)
    requires HandlerStep(step) && Enabled(c, s, step) && ReservationsExact(s)
    ensures ReservationsExact(Apply(c, s, step))
  {
    SameReservations(s, Apply(c, s, step));
  }

  /** Steps that change neither the scheduler nor a worker. */
  predicate TableStep(step: Step) {
    SweepStep(step) || step.Cancel? || step.CancelRelease? || step.Progress? || step.FilesChange?
  }

  lemma TableStepKeepsReservations(c: Config, s: State, step: Step)
    requires TableStep(step) && Enabled(c, s, step) && ReservationsExact(s)
    ensures ReservationsExact(Apply(c, s, step))
  {
    SameReservations(s, Apply(c, s, step));
  }

  lemma StepKeepsReservations(c: Config, s: State, step: Step)
    requires Enabled(c, s, step) && ReservationsExact(s)
    ensures ReservationsExact(Apply(c, s, step))
  {
    if step.Pick? {
      PickKeepsReservations(c, s, step);
    } else if step.Mark? {
      MarkKeepsReservations(c, s, step);
    } else if step.TaskCompleted? {
      CompletionKeepsReservations(c, s, step);
    } else if step.Restart? {
      RestartKeepsReservations(c, s, step);
    } else if EnqueueStep(step) {
      EnqueueKeepsReservations(c, s, step);
    } else if HandlerStep(step) {
      HandlerKeepsReservations(c, s, step);
    } else {
      TableStepKeepsReservations(c, s, step);
    }
  }

  // --------------------------------------------------------------- ownership

  /** The row of a task whose handler is executing: still in flight or swept, with the
      content the worker was given, and `cancelling` as soon as a cancel is recorded. */
  predicate OwnedRow(row: Row, snap: Row) {
    && row.status in {Processing, Cancelling, Failed}
    && (row.cancelRequested ==> row.status == Cancelling)
    && SameContent(row, snap)
  }

  predicate SameContent(row: Row, snap: Row) {
    row.filepath == snap.filepath && row.contentHash == snap.contentHash && row.docId == snap.docId && row.ns == snap.ns
  }

  ghost predicate Finished(s: State, id: TaskId) {
    id in s.used && (id in s.rows ==> Terminal(s.rows[id].status))
  }

  ghost predicate WorkerOwns(s: State, pc: WorkerPc) {
    match pc
    case Idle => true
    case Running(id, snap) => id in s.used && (id in s.rows ==> OwnedRow(s.rows[id], snap))
    case SawCancel(id, snap) => id in s.rows && OwnedRow(s.rows[id], snap) && s.rows[id].status == Cancelling
    case Releasing(id, _) => Finished(s, id)
    case Returning(id, _) => id in s.used && (id in s.rows ==> s.rows[id].status != Queued)
  }

  ghost predicate SchedulerOwns(s: State) {
    match s.sched
    case Picked(_, id, snap) =>
      && id in s.used && snap.status == Queued
      && (id in s.rows && s.rows[id].status == Queued ==> SameContent(s.rows[id], snap))
    case Looked(req, found) =>
      found.Some? ==>
        && found.value.0 in s.used
        && (found.value.0 in s.rows ==>
              && s.rows[found.value.0].contentHash == found.value.1.contentHash
              && s.rows[found.value.0].ns == req.ns && s.rows[found.value.0].taskType == req.taskType)
    case _ => true
  }

  /** Everything the engine's two locks keep besides the reservations. */
  ghost predicate Owned(s: State) {
    && s.rows.Keys <= s.used
    && StatusFlagsAgree(s.rows)
    && SchedulerOwns(s)
    && (forall w | w in s.workers :: WorkerOwns(s, s.workers[w]))
    && (forall w, w' | WorkerAt(s, w) && WorkerAt(s, w') && s.workers[w].id == s.workers[w'].id :: w == w')
    && (forall p | p in s.cancels :: Finished(s, p.0))
  }

  /** How a single atomic step may move one row, seen by everyone but the worker that
      owns it and the holder of the scheduler mutex. */
  predicate Interferes(before: Row, after: Row) {
    && SameContent(after, before) && after.createdAt == before.createdAt && after.taskType == before.taskType
    && (Terminal(before.status) ==> after.status == before.status && after.cancelRequested == before.cancelRequested)
    && (before.status == Cancelling ==> after.status == Cancelling && after.cancelRequested == before.cancelRequested)
    && (before.status == Processing ==> after.status in {Processing, Cancelling, Failed})
    && (before.status == Processing && after.status in {Processing, Failed} ==>
      after.cancelRequested == before.cancelRequested)
    && (before.status == Queued ==> after.status in {Queued, Cancelled})
    && (after.status == Cancelling ==> before.status == Cancelling || after.cancelRequested)
    && (after.status == Queued ==> after.cancelRequested == before.cancelRequested)
  }

  /** Rows only disappear when terminal, never appear, and move as Interferes allows. */
  ghost predicate QuietChange(rows: Rows, rows': Rows) {
    && rows'.Keys <= rows.Keys
    && (forall id | id in rows && id !in rows' :: Terminal(rows[id].status))
    && (forall id | id in rows' :: Interferes(rows[id], rows'[id]))
  }

  lemma QuietChangeKeepsOwned(s: State, t: State)
    requires Owned(s) && QuietChange(s.rows, t.rows) && StatusFlagsAgree(t.rows)
    requires t.used == s.used && t.sched == s.sched && t.workers == s.workers
    requires forall p | p in t.cancels :: p in s.cancels || Finished(t, p.0)
    ensures Owned(t)
  {
    forall w | w in t.workers ensures WorkerOwns(t, t.workers[w]) {
      assert WorkerOwns(s, s.workers[w]);
    }
    forall w, w' | WorkerAt(t, w) && WorkerAt(t, w') && t.workers[w].id == t.workers[w'].id ensures w == w' {
      assert WorkerAt(s, w) && WorkerAt(s, w');
    }
  }

  /** A row update is quiet when it moves that one row as Interferes allows. */
  lemma OneRowIsQuiet(rows: Rows, rows': Rows, id: TaskId)
    requires StatusFlagsAgree(rows) && id in rows && rows'.Keys == rows.Keys && rows' == rows[id := rows'[id]]
    requires Interferes(rows[id], rows'[id])
    ensures QuietChange(rows, rows') && StatusFlagsAgree(rows')
  {
  }

  lemma SweepIsQuiet(rows: Rows, rows': Rows)
    requires StatusFlagsAgree(rows) && rows'.Keys == rows.Keys
    requires forall id | id in rows ::
      || rows'[id] == rows[id]
      || (rows[id].status == Processing && rows'[id] == rows[id].(status := Failed, updatedAt := rows'[id].updatedAt))
    ensures QuietChange(rows, rows') && StatusFlagsAgree(rows')
  {
  }

  lemma RetentionIsQuiet(rows: Rows, nowSecs: int, days: int)
    requires StatusFlagsAgree(rows)
    ensures QuietChange(rows, DeleteExpired(rows, nowSecs, days))
    ensures StatusFlagsAgree(DeleteExpired(rows, nowSecs, days))
  {
  }

  lemma CancelIsQuiet(rows: Rows, id: TaskId, now: int)
    requires StatusFlagsAgree(rows) && RequestCancel(rows, id, now).Ok?
    ensures var rows' := RequestCancel(rows, id, now).value; QuietChange(rows, rows') && StatusFlagsAgree(rows')
  {
    OneRowIsQuiet(rows, RequestCancel(rows, id, now).value, id);
  }

  lemma ProgressIsQuiet(rows: Rows, id: TaskId, worker: Option<int>, now: int)
    requires StatusFlagsAgree(rows) && UpdateProgress(rows, id, worker, now).Ok?
    ensures var rows' := UpdateProgress(rows, id, worker, now).value;
            QuietChange(rows, rows') && StatusFlagsAgree(rows')
  {
    OneRowIsQuiet(rows, UpdateProgress(rows, id, worker, now).value, id);
  }

  lemma ManagerStepIsQuiet(c: Config, s: State, step: Step)
    requires StatusFlagsAgree(s.rows) && Enabled(c, s, step) && (SweepStep(step) || step.Progress? || step.Cancel?)
    ensures QuietChange(s.rows, Apply(c, s, step).rows) && StatusFlagsAgree(Apply(c, s, step).rows)
  {
    if step.Progress? {
      if step.id in s.rows { ProgressIsQuiet(s.rows, step.id, step.worker, step.now); }
    } else if step.Cancel? {
      if RequestCancel(s.rows, step.id, step.now).Ok? { CancelIsQuiet(s.rows, step.id, step.now); }
    } else if step.Retention? {
      RetentionIsQuiet(s.rows, step.nowSecs, step.days);
    } else {
      SweepIsQuiet(s.rows, Apply(c, s, step).rows);
    }
  }

  /** Enqueue's steps leave workers and cancels alone, and touch only rows that are
      queued, mergeable or new. */
  lemma EnqueueChangeKeepsOwned(s: State, t: State, id: TaskId)
    requires Owned(s) && t.workers == s.workers && t.cancels == s.cancels
    requires s.used <= t.used && t.rows.Keys <= t.used && StatusFlagsAgree(t.rows) && SchedulerOwns(t)
    requires s.rows.Keys <= t.rows.Keys <= s.rows.Keys + {id} && (id in t.rows && id !in s.rows ==> id !in s.used)
    requires forall j | j in s.rows && j != id :: t.rows[j] == s.rows[j]
    requires id in s.rows ==>
      || s.rows[id].status == Queued == t.rows[id].status
      || t.rows[id] == s.rows[id].(updatedAt := t.rows[id].updatedAt)
    ensures Owned(t)
  {
    forall w | w in t.workers ensures WorkerOwns(t, t.workers[w]) {
      assert WorkerOwns(s, s.workers[w]);
    }
    forall w, w' | WorkerAt(t, w) && WorkerAt(t, w') && t.workers[w].id == t.workers[w'].id ensures w == w' {
      assert WorkerAt(s, w) && WorkerAt(s, w');
    }
    forall p | p in t.cancels ensures Finished(t, p.0) {
      assert Finished(s, p.0);
    }
  }

  lemma LookupKeepsOwned(c: Config, s: State, step: Step)
    requires Enabled(c, s, step) && Owned(s) && step.Lookup?
    ensures Owned(Apply(c, s, step))
  {
    EnqueueChangeKeepsOwned(s, Apply(c, s, step), "");
  }

  lemma ClaimKeepsOwned(c: Config, s: State, step: Step)
    requires Enabled(c, s, step) && Owned(s) && step.Claim?
    ensures Owned(Apply(c, s, step))
  {
    EnqueueChangeKeepsOwned(s, Apply(c, s, step), s.sched.found.value.0);
  }

  lemma RefreshKeepsOwned(c: Config, s: State, step: Step)
    requires Enabled(c, s, step) && Owned(s) && step.Refresh?
    ensures Owned(Apply(c, s, step))
  {
    EnqueueChangeKeepsOwned(s, Apply(c, s, step), s.sched.found.value.0);
  }

  lemma RereadKeepsOwned(c: Config, s: State, step: Step)
    requires Enabled(c, s, step) && Owned(s) && step.Reread?
    ensures Owned(Apply(c, s, step))
  {
    EnqueueChangeKeepsOwned(s, Apply(c, s, step), "");
  }

  lemma CreateKeepsOwned(c: Config, s: State, step: Step)
    requires Enabled(c, s, step) && Owned(s) && step.Create?
    ensures Owned(Apply(c, s, step))
  {
    EnqueueChangeKeepsOwned(s, Apply(c, s, step), step.id);
  }

  lemma PickKeepsOwned(c: Config, s: State, step: Step)
    requires Enabled(c, s, step) && Owned(s) && step.Pick?
    ensures Owned(Apply(c, s, step))
  {
    var t := Apply(c, s, step);
    EnqueueChangeKeepsOwned(s, t, step.id);
  }

  /** A worker moves on and writes at most the row of its own task. */
  lemma WorkerChangeKeepsOwned(s: State, t: State, w: WorkerId, id: TaskId)
    requires Owned(s) && w in s.workers && t.used == s.used && t.cancels == s.cancels
    requires t.rows.Keys == s.rows.Keys && StatusFlagsAgree(t.rows) && SchedulerOwns(t)
    requires forall j | j in s.rows && j != id :: t.rows[j] == s.rows[j]
    requires id in s.rows && t.rows[id] != s.rows[id] ==> !Terminal(s.rows[id].status) && t.rows[id].status != Queued
    requires t.workers.Keys == s.workers.Keys && forall v | v in s.workers && v != w :: t.workers[v] == s.workers[v]
    requires WorkerOwns(t, t.workers[w])
    requires WorkerAt(t, w) ==> t.workers[w].id == id
    requires forall v | v != w && WorkerAt(s, v) :: s.workers[v].id != id
    ensures Owned(t)
  {
    forall v | v in t.workers ensures WorkerOwns(t, t.workers[v]) {
      assert WorkerOwns(s, s.workers[v]);
      if v != w && WorkerAt(s, v) {
        assert s.workers[v].id != id;
      }
    }
    forall v, v' | WorkerAt(t, v) && WorkerAt(t, v') && t.workers[v].id == t.workers[v'].id ensures v == v' {
      if v != w { assert WorkerAt(s, v); }
      if v' != w { assert WorkerAt(s, v'); }
    }
    forall p | p in t.cancels ensures Finished(t, p.0) {
      assert Finished(s, p.0);
    }
  }

  lemma MarkKeepsOwned(c: Config, s: State, step: Step)
    requires Enabled(c, s, step) && Owned(s) && ReservationsExact(s) && step.Mark?
    ensures Owned(Apply(c, s, step))
  {
    var t := Apply(c, s, step);
    var Picked(w, id, snap) := s.sched;
    if step.fault || id !in s.rows || s.rows[id].status != Queued {
      EnqueueChangeKeepsOwned(s, t, id);
    } else {
      forall v | v != w && WorkerAt(s, v) ensures s.workers[v].id != id {
        assert WorkerOwns(s, s.workers[v]);
      }
      WorkerChangeKeepsOwned(s, t, w, id);
    }
  }

  /** A worker that moves on without writing the table. */
  lemma WorkerMoveKeepsOwned(s: State, t: State, w: WorkerId)
    requires Owned(s) && WorkerAt(s, w) && w in t.workers && t.workers == s.workers[w := t.workers[w]]
    requires t.rows == s.rows && t.used == s.used && t.cancels == s.cancels && t.sched == s.sched
    requires WorkerOwns(t, t.workers[w]) && (WorkerAt(t, w) ==> t.workers[w].id == s.workers[w].id)
    ensures Owned(t)
  {
    WorkerChangeKeepsOwned(s, t, w, s.workers[w].id);
  }

  lemma HandlerMoveKeepsOwned(c: Config, s: State, step: Step)
    requires Enabled(c, s, step) && Owned(s) && (step.Checkpoint? || step.HandlerEnds?)
    ensures Owned(Apply(c, s, step))
  {
    assert WorkerOwns(s, s.workers[step.w]);
    WorkerMoveKeepsOwned(s, Apply(c, s, step), step.w);
  }

  lemma ReturnKeepsOwned(c: Config, s: State, step: Step)
    requires Enabled(c, s, step) && Owned(s) && (step.ReleaseInput? || step.TaskCompleted?)
    ensures Owned(Apply(c, s, step))
  {
    assert WorkerOwns(s, s.workers[step.w]);
    WorkerMoveKeepsOwned(s, Apply(c, s, step), step.w);
  }

  lemma WriteKeepsSchedulerOwns(s: State, t: State, id: TaskId)
    requires SchedulerOwns(s) && t.sched == s.sched && t.used == s.used && t.rows.Keys == s.rows.Keys
    requires forall j | j in s.rows && j != id :: t.rows[j] == s.rows[j]
    requires id in s.rows ==>
      && t.rows[id].status != Queued && t.rows[id].contentHash == s.rows[id].contentHash
      && t.rows[id].ns == s.rows[id].ns && t.rows[id].taskType == s.rows[id].taskType
    ensures SchedulerOwns(t)
  {
  }

  /** An accepted terminal write, and a rejected one, whatever the outcome. */
  lemma AcceptedKeepsOwned(s: State, w: WorkerId, rows: Rows)
    requires Owned(s) && w in s.workers && Executing(s.workers[w]) && s.workers[w].id in s.rows
    requires var id := s.workers[w].id;
             && !Terminal(s.rows[id].status) && rows.Keys == s.rows.Keys && rows == s.rows[id := rows[id]]
             && Terminal(rows[id].status) && StatusFlagsAgree(rows) && rows[id].contentHash == s.rows[id].contentHash
             && rows[id].ns == s.rows[id].ns && rows[id].taskType == s.rows[id].taskType
    ensures Owned(s.(rows := rows, workers := s.workers[w := Releasing(s.workers[w].id, s.workers[w].snap)]))
  {
    assert WorkerOwns(s, s.workers[w]) && WorkerAt(s, w);
    var t := s.(rows := rows, workers := s.workers[w := Releasing(s.workers[w].id, s.workers[w].snap)]);
    WriteKeepsSchedulerOwns(s, t, s.workers[w].id);
    WorkerChangeKeepsOwned(s, t, w, s.workers[w].id);
  }

  lemma RejectedKeepsOwned(s: State, w: WorkerId)
    requires Owned(s) && w in s.workers && Executing(s.workers[w])
    ensures Owned(s.(workers := s.workers[w := Returning(s.workers[w].id, s.workers[w].snap)]))
  {
    assert WorkerOwns(s, s.workers[w]);
    WorkerMoveKeepsOwned(s, s.(workers := s.workers[w := Returning(s.workers[w].id, s.workers[w].snap)]), w);
  }

  lemma FinalizeKeepsOwned(c: Config, s: State, step: Step)
    requires Enabled(c, s, step) && Owned(s) && step.Finalize?
    ensures Owned(Apply(c, s, step))
  {
    var attempt := TerminalWrite(s.rows, s.workers[step.w].id, step.outcome, step.now);
    if step.fault || attempt.Err? {
      RejectedKeepsOwned(s, step.w);
    } else {
      FinalizeWrites(s, step.w, step.outcome, step.now);
      AcceptedKeepsOwned(s, step.w, attempt.value);
    }
  }

  /** What a finalizer's terminal write does to the row of the task it finishes. */
  lemma FinalizeWrites(s: State, w: WorkerId, outcome: Outcome, now: int)
    requires Owned(s) && w in s.workers && Executing(s.workers[w])
    ensures var id := s.workers[w].id;
            var attempt := TerminalWrite(s.rows, id, outcome, now);
            attempt.Ok? ==>
              && id in s.rows && !Terminal(s.rows[id].status)
              && attempt.value.Keys == s.rows.Keys
              && attempt.value == s.rows[id := attempt.value[id]]
              && Terminal(attempt.value[id].status) && StatusFlagsAgree(attempt.value)
              && attempt.value[id].contentHash == s.rows[id].contentHash
              && attempt.value[id].ns == s.rows[id].ns && attempt.value[id].taskType == s.rows[id].taskType
  {
  }

  lemma CancelKeepsOwned(c: Config, s: State, step: Step)
    requires Enabled(c, s, step) && Owned(s) && step.Cancel?
    ensures Owned(Apply(c, s, step))
  {
    var t := Apply(c, s, step);
    ManagerStepIsQuiet(c, s, step);
    forall p | p in t.cancels ensures p in s.cancels || Finished(t, p.0) {
    }
    QuietChangeKeepsOwned(s, t);
  }

  lemma RestartKeepsOwned(c: Config, s: State, step: Step)
    requires Enabled(c, s, step) && Owned(s) && step.Restart?
    ensures Owned(Apply(c, s, step))
  {
  }

  lemma EnqueueStepKeepsOwned(c: Config, s: State, step: Step)
    requires Enabled(c, s, step) && Owned(s) && EnqueueStep(step)
    ensures Owned(Apply(c, s, step))
  {
    if step.Lookup? {
      LookupKeepsOwned(c, s, step);
    } else if step.Claim? {
      ClaimKeepsOwned(c, s, step);
    } else if step.Refresh? {
      RefreshKeepsOwned(c, s, step);
    } else if step.Reread? {
      RereadKeepsOwned(c, s, step);
    } else {
      CreateKeepsOwned(c, s, step);
    }
  }

  lemma HandlerStepKeepsOwned(c: Config, s: State, step: Step)
    requires Enabled(c, s, step) && Owned(s) && HandlerStep(step)
    ensures Owned(Apply(c, s, step))
  {
    if step.Finalize? {
      FinalizeKeepsOwned(c, s, step);
    } else if step.ReleaseInput? {
      ReturnKeepsOwned(c, s, step);
    } else {
      HandlerMoveKeepsOwned(c, s, step);
    }
  }

  lemma TableStepKeepsOwned(c: Config, s: State, step: Step)
    requires Enabled(c, s, step) && Owned(s) && TableStep(step)
    ensures Owned(Apply(c, s, step))
  {
    if step.Cancel? {
      CancelKeepsOwned(c, s, step);
    } else {
      if SweepStep(step) || step.Progress? { ManagerStepIsQuiet(c, s, step); }
      QuietChangeKeepsOwned(s, Apply(c, s, step));
    }
  }

  lemma StepKeepsOwned(c: Config, s: State, step: Step)
    requires Enabled(c, s, step) && Owned(s) && ReservationsExact(s)
    ensures Owned(Apply(c, s, step))
  {
    if EnqueueStep(step) {
      EnqueueStepKeepsOwned(c, s, step);
    } else if HandlerStep(step) {
      HandlerStepKeepsOwned(c, s, step);
    } else if step.Pick? {
      PickKeepsOwned(c, s, step);
    } else if step.Mark? {
      MarkKeepsOwned(c, s, step);
    } else if step.TaskCompleted? {
      ReturnKeepsOwned(c, s, step);
    } else if step.Restart? {
      RestartKeepsOwned(c, s, step);
    } else {
      TableStepKeepsOwned(c, s, step);
    }
  }

  // -------------------------------------------------------------------- runs

  /** In every state of every run the reservation set is exact and every lock's
      holdings are as claimed. */
  lemma {:induction false} RunInvariant(c: Config, states: seq<State>, steps: seq<Step>, i: nat)
    requires IsRun(c, states, steps) && i < |states|
    ensures ReservationsExact(states[i]) && Owned(states[i])
  {
    if i == 0 {
      forall w, key ensures !HoldsDoc(states[0], w, key) {
      }
    } else {
      RunInvariant(c, states, steps, i - 1);
      StepAt(c, states, steps, i - 1);
      StepKeepsReservations(c, states[i - 1], steps[i - 1]);
      StepKeepsOwned(c, states[i - 1], steps[i - 1]);
    }
  }
}
