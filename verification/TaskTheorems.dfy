/** What holds over whole runs of the task engine: mutual exclusion per document,
    immutability of terminal states, cancellation, and dispatch. */
module TaskTheorems {
  import opened Wrappers
  import opened TaskStore
  import opened TaskEngine
  import opened TaskInvariants
  import opened Interference

  // ------------------------------------------------------- mutual exclusion

  function InFlightDocs(s: State): set<DocKey> {
    set w | w in s.workers && InFlight(s, w).Some? && InFlight(s, w).value.docId != "" :: KeyOf(InFlight(s, w).value)
  }

  /** In every interleaving the reservation set is exactly the set of documents in
      flight, and two workers never hold the same non-empty document: no reservation
      is lost, leaked or shared, whichever way a handler ends. */
  lemma ActiveDocsAreTheDocsInFlight(c: Config, states: seq<State>, steps: seq<Step>, i: nat)
    requires IsRun(c, states, steps) && i < |states|
    ensures states[i].active == InFlightDocs(states[i])
    ensures forall w, w' ::
      w in states[i].workers && w' in states[i].workers && w != w'
      && InFlight(states[i], w).Some? && InFlight(states[i], w').Some? && InFlight(states[i], w).value.docId != ""
      ==> KeyOf(InFlight(states[i], w).value) != KeyOf(InFlight(states[i], w').value)
  {
    var s := states[i];
    RunInvariant(c, states, steps, i);
    forall key ensures key in s.active <==> key in InFlightDocs(s) {
      if key in s.active {
        var w :| HoldsDoc(s, w, key);
      }
      if key in InFlightDocs(s) {
        var w :| w in s.workers && InFlight(s, w).Some? && InFlight(s, w).value.docId != ""
          && KeyOf(InFlight(s, w).value) == key;
        assert HoldsDoc(s, w, key);
      }
    }
    forall w, w' |
      w in s.workers && w' in s.workers && w != w' && InFlight(s, w).Some? && InFlight(s, w').Some?
      && InFlight(s, w).value.docId != ""
      ensures KeyOf(InFlight(s, w).value) != KeyOf(InFlight(s, w').value)
    {
      assert HoldsDoc(s, w, KeyOf(InFlight(s, w).value));
      assert HoldsDoc(s, w', KeyOf(InFlight(s, w').value));
    }
  }

  /** A Dequeue that loses the row between select and mark gives back its own
      reservation and leaves every other worker's in place. */
  lemma LostMarkKeepsOtherReservations(c: Config, states: seq<State>, steps: seq<Step>, i: nat, w: WorkerId)
    requires IsRun(c, states, steps) && i < |steps| && steps[i].Mark?
    requires states[i + 1].rows == states[i].rows
    requires w in states[i].workers && !(states[i].sched.Picked? && states[i].sched.w == w)
    requires InFlight(states[i], w).Some? && InFlight(states[i], w).value.docId != ""
    ensures w in states[i + 1].workers && InFlight(states[i + 1], w) == InFlight(states[i], w)
    ensures KeyOf(InFlight(states[i], w).value) in states[i + 1].active
  {
    var s, t := states[i], states[i + 1];
    StepAt(c, states, steps, i);
    RunInvariant(c, states, steps, i);
    RunInvariant(c, states, steps, i + 1);
    assert HoldsDoc(t, w, KeyOf(InFlight(s, w).value));
  }

  // ------------------------------------------------------ terminal states

  ghost predicate Ended(s: State, id: TaskId, status: Status) {
    id in s.used && (id in s.rows ==> s.rows[id].status == status)
  }

  lemma RestartKeepsEnded(c: Config, s: State, step: Step, id: TaskId, status: Status)
    requires Enabled(c, s, step) && step.Restart? && Ended(s, id, status) && Terminal(status)
    ensures Ended(Apply(c, s, step), id, status)
  {
  }

  lemma StepKeepsEnded(c: Config, s: State, step: Step, id: TaskId, status: Status)
    requires Enabled(c, s, step) && s.rows.Keys <= s.used && Ended(s, id, status) && Terminal(status)
    ensures Ended(Apply(c, s, step), id, status)
  {
    if step.Restart? {
      RestartKeepsEnded(c, s, step, id, status);
    } else {
      StepMeanwhile(c, s, step);
      if id !in s.rows { OnlyNewIdsAppear(c, s, step, id); }
      assert id in Apply(c, s, step).rows ==> RowMoves(s.rows[id], Apply(c, s, step).rows[id]);
    }
  }

  /** A terminal status never changes until the row is deleted, and a deleted task
      never comes back. */
  lemma {:induction false} TerminalIsForever(
    c: Config, states: seq<State>, steps: seq<Step>, i: nat, j: nat, id: TaskId, status: Status)
    requires IsRun(c, states, steps) && i <= j < |states|
    requires Ended(states[i], id, status) && Terminal(status)
    ensures Ended(states[j], id, status)
    decreases j
  {
    if i < j {
      TerminalIsForever(c, states, steps, i, j - 1, id, status);
      RunInvariant(c, states, steps, j - 1);
      StepAt(c, states, steps, j - 1);
      StepKeepsEnded(c, states[j - 1], steps[j - 1], id, status);
    }
  }

  // ---------------------------------------------------------- cancellation

  /** A cancel seen at a worker checkpoint finds its row in `cancelling`, and from
      then until the worker finalizes, MarkCancelled is accepted. */
  lemma SeenCancelIsCancelling(c: Config, states: seq<State>, steps: seq<Step>, i: nat, w: WorkerId, now: int)
    requires IsRun(c, states, steps) && i < |states| && w in states[i].workers
    ensures i < |steps| && steps[i] == Checkpoint(w) ==>
      && states[i].workers[w].Running?
      && states[i].workers[w].id in states[i].rows
      && states[i].rows[states[i].workers[w].id].status == Cancelling
    ensures states[i].workers[w].SawCancel? ==>
      && states[i].workers[w].id in states[i].rows
      && states[i].rows[states[i].workers[w].id].status == Cancelling
      && MarkCancelled(states[i].rows, states[i].workers[w].id, now).Ok?
  {
    RunInvariant(c, states, steps, i);
    assert WorkerOwns(states[i], states[i].workers[w]);
    if i < |steps| { StepAt(c, states, steps, i); }
  }

  /** The status columns never disagree on any run. */
  lemma CancelFlagsOnEveryRun(c: Config, states: seq<State>, steps: seq<Step>, i: nat, id: TaskId)
    requires IsRun(c, states, steps) && i < |states| && id in states[i].rows
    ensures states[i].rows[id].cancelRequested ==> states[i].rows[id].status !in {Queued, Processing}
    ensures states[i].rows[id].status == Cancelling ==> states[i].rows[id].cancelRequested
  {
    RunInvariant(c, states, steps, i);
  }

  // -------------------------------------------------------------- dispatch

  /** Step i hands task `id` to a worker. */
  ghost predicate Dispatches(states: seq<State>, steps: seq<Step>, i: nat, id: TaskId)
    requires |states| == |steps| + 1
  {
    && i < |steps| && steps[i].Mark?
    && states[i].sched.Picked? && states[i].sched.id == id
    && states[i].sched.w in states[i + 1].workers
    && states[i + 1].workers[states[i].sched.w].Running?
    && states[i + 1].workers[states[i].sched.w].id == id
  }

  /** Every dispatch is one queued-to-processing edge of an uncancelled task, and the
      snapshot handed over agrees with the row although it was read in an earlier
      step. */
  lemma DispatchIsFaithful(c: Config, states: seq<State>, steps: seq<Step>, i: nat, id: TaskId)
    requires IsRun(c, states, steps) && Dispatches(states, steps, i, id)
    ensures id in states[i].rows && id in states[i + 1].rows
    ensures states[i].rows[id].status == Queued && !states[i].rows[id].cancelRequested
    ensures states[i + 1].rows[id].status == Processing && !states[i + 1].rows[id].cancelRequested
    ensures SameContent(states[i + 1].rows[id], states[i + 1].workers[states[i].sched.w].snap)
  {
    StepAt(c, states, steps, i);
    RunInvariant(c, states, steps, i);
  }

  /** As long as the handler runs, the row keeps the content it was dispatched with. */
  lemma ContentIsStableWhileRunning(c: Config, states: seq<State>, steps: seq<Step>, i: nat, w: WorkerId)
    requires IsRun(c, states, steps) && i < |states| && w in states[i].workers && Executing(states[i].workers[w])
    requires states[i].workers[w].id in states[i].rows
    ensures SameContent(states[i].rows[states[i].workers[w].id], states[i].workers[w].snap)
  {
    RunInvariant(c, states, steps, i);
    assert WorkerOwns(states[i], states[i].workers[w]);
  }

  /** A task that has ended, cancelled ones included, is never dispatched again. */
  lemma EndedIsNeverDispatched(
    c: Config, states: seq<State>, steps: seq<Step>, i: nat, j: nat, id: TaskId, status: Status)
    requires IsRun(c, states, steps) && i <= j < |steps|
    requires Ended(states[i], id, status) && Terminal(status)
    ensures !Dispatches(states, steps, j, id)
  {
    TerminalIsForever(c, states, steps, i, j, id, status);
    if Dispatches(states, steps, j, id) {
      DispatchIsFaithful(c, states, steps, j, id);
    }
  }

  ghost predicate NotQueued(s: State, id: TaskId) {
    id in s.used && (id in s.rows ==> s.rows[id].status != Queued)
  }

  /** Only a restart moves a task back to queued, and only from processing. */
  predicate Requeues(states: seq<State>, steps: seq<Step>, k: nat, id: TaskId)
    requires |states| == |steps| + 1
  {
    && k < |steps| && steps[k].Restart?
    && id in states[k].rows && states[k].rows[id].status == Processing
    && id in states[k + 1].rows && states[k + 1].rows[id].status == Queued
  }

  lemma BackToQueuedIsRequeue(c: Config, s: State, step: Step, id: TaskId)
    requires Enabled(c, s, step) && s.rows.Keys <= s.used && NotQueued(s, id)
    ensures NotQueued(Apply(c, s, step), id) || (step.Restart? && id in s.rows && s.rows[id].status == Processing)
  {
    if !step.Restart? {
      StepMeanwhile(c, s, step);
      if id !in s.rows { OnlyNewIdsAppear(c, s, step, id); }
      assert id in Apply(c, s, step).rows ==> RowMoves(s.rows[id], Apply(c, s, step).rows[id]);
    }
  }

  lemma {:induction false} FindRequeue(c: Config, states: seq<State>, steps: seq<Step>, i: nat, j: nat, id: TaskId)
    returns (k: nat)
    requires IsRun(c, states, steps) && i <= j < |states|
    requires NotQueued(states[i], id) && !NotQueued(states[j], id)
    ensures i <= k < j && Requeues(states, steps, k, id)
    decreases j - i
  {
    RunInvariant(c, states, steps, i);
    StepAt(c, states, steps, i);
    if NotQueued(states[i + 1], id) {
      k := FindRequeue(c, states, steps, i + 1, j, id);
    } else {
      BackToQueuedIsRequeue(c, states[i], steps[i], id);
      RunInvariant(c, states, steps, i + 1);
      k := i;
    }
  }

  /** A task is dispatched a second time only after a restart requeued it in between. */
  lemma SecondDispatchNeedsRequeue(c: Config, states: seq<State>, steps: seq<Step>, i: nat, j: nat, id: TaskId)
    requires IsRun(c, states, steps) && i < j
    requires Dispatches(states, steps, i, id) && Dispatches(states, steps, j, id)
    ensures exists k :: i < k < j && Requeues(states, steps, k, id)
  {
    DispatchIsFaithful(c, states, steps, i, id);
    DispatchIsFaithful(c, states, steps, j, id);
    RunInvariant(c, states, steps, i + 1);
    var k := FindRequeue(c, states, steps, i + 1, j, id);
  }
}
