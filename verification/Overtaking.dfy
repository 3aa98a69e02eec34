/** First-come dispatch: a queued task is overtaken at most once per older queued task
    that was ahead of it. */
module Overtaking {
  import opened Wrappers
  import opened TaskStore
  import opened TaskEngine
  import opened TaskInvariants
  import opened Interference

  function Ahead(rows: Rows, id: TaskId): set<TaskId> {
    set j | j in rows && id in rows && rows[j].status == Queued && rows[j].createdAt < rows[id].createdAt
  }

  ghost predicate DistinctStamps(rows: Rows) {
    forall i, j | i in rows && j in rows && i != j :: rows[i].createdAt != rows[j].createdAt
  }

  /** The clock has advanced since every row was created. */
  ghost predicate FreshStamp(s: State, step: Step) {
    step.Create? ==> forall j | j in s.rows :: s.rows[j].createdAt < step.now
  }

  predicate QueuedAt(s: State, id: TaskId) {
    id in s.rows && s.rows[id].status == Queued
  }

  /** While a Dequeue is between select and mark: the task's document was free when the
      select ran. */
  predicate WasEligible(s: State, id: TaskId)
    requires s.sched.Picked?
  {
    QueuedAt(s, id) && (s.rows[id].docId == "" || KeyOf(s.rows[id]) !in s.active - {KeyOf(s.sched.snap)})
  }

  ghost predicate PickIsOldest(s: State) {
    s.sched.Picked? ==> forall id | WasEligible(s, id) :: s.sched.snap.createdAt <= s.rows[id].createdAt
  }

  /** Creation stamps never change, and only a create or a restart puts a task into
      the queue. */
  ghost predicate QueueOnlyShrinks(rows: Rows, rows': Rows) {
    forall id | id in rows' :: id in rows && rows'[id].createdAt == rows[id].createdAt
      && (rows'[id].status == Queued ==> rows[id].status == Queued && KeyOf(rows'[id]) == KeyOf(rows[id]))
  }

  lemma StepShrinksQueue(c: Config, s: State, step: Step)
    requires Enabled(c, s, step) && !step.Create? && !step.Restart?
    ensures QueueOnlyShrinks(s.rows, Apply(c, s, step).rows)
  {
    if !SchedulerWrites(step) {
      StepWhileScheduling(c, s, step);
      forall id | id in Apply(c, s, step).rows
        ensures id in s.rows && RowKeepsContent(s.rows[id], Apply(c, s, step).rows[id])
      {
      }
    }
  }

  lemma CreateKeepsDistinctStamps(c: Config, s: State, step: Step)
    requires step.Create? && Enabled(c, s, step) && FreshStamp(s, step) && DistinctStamps(s.rows)
    ensures DistinctStamps(Apply(c, s, step).rows)
  {
  }

  lemma RestartKeepsDistinctStamps(c: Config, s: State, step: Step)
    requires step.Restart? && Enabled(c, s, step) && DistinctStamps(s.rows)
    ensures DistinctStamps(Apply(c, s, step).rows)
  {
    var after := Apply(c, s, step).rows;
    forall id | id in after ensures id in s.rows && after[id].createdAt == s.rows[id].createdAt {
    }
  }

  lemma StepKeepsDistinctStamps(c: Config, s: State, step: Step)
    requires Enabled(c, s, step) && FreshStamp(s, step) && DistinctStamps(s.rows)
    ensures DistinctStamps(Apply(c, s, step).rows)
  {
    if step.Create? {
      CreateKeepsDistinctStamps(c, s, step);
    } else if step.Restart? {
      RestartKeepsDistinctStamps(c, s, step);
    } else {
      StepShrinksQueue(c, s, step);
    }
  }

  lemma StepKeepsPickOldest(c: Config, s: State, step: Step)
    requires Enabled(c, s, step) && PickIsOldest(s) && ReservationsExact(s)
    ensures PickIsOldest(Apply(c, s, step))
  {
    var t := Apply(c, s, step);
    if t.sched.Picked? {
      StepShrinksQueue(c, s, step);
      if step.Pick? {
        forall id | WasEligible(t, id) ensures t.sched.snap.createdAt <= t.rows[id].createdAt {
          assert Eligible(s.rows, s.active, id);
        }
      } else {
        forall id | WasEligible(t, id) ensures t.sched.snap.createdAt <= t.rows[id].createdAt {
          assert WasEligible(s, id);
        }
      }
    }
  }

  /** Everything the overtaking bound rests on, in every state of a run whose creation
      stamps increase. */
  lemma {:induction false} RunKeepsOrder(c: Config, states: seq<State>, steps: seq<Step>, i: nat)
    requires IsRun(c, states, steps) && i < |states| && DistinctStamps(states[0].rows)
    requires forall k | 0 <= k < i :: FreshStamp(states[k], steps[k])
    ensures DistinctStamps(states[i].rows) && PickIsOldest(states[i])
  {
    if i > 0 {
      RunKeepsOrder(c, states, steps, i - 1);
      RunInvariant(c, states, steps, i - 1);
      StepAt(c, states, steps, i - 1);
      StepKeepsDistinctStamps(c, states[i - 1], steps[i - 1]);
      StepKeepsPickOldest(c, states[i - 1], steps[i - 1]);
    }
  }

  /** No step but a restart adds to the tasks ahead of a queued one. */
  lemma AheadNeverGrows(c: Config, s: State, step: Step, id: TaskId)
    requires Enabled(c, s, step) && FreshStamp(s, step) && !step.Restart?
    requires QueuedAt(s, id) && QueuedAt(Apply(c, s, step), id)
    ensures Ahead(Apply(c, s, step).rows, id) <= Ahead(s.rows, id)
  {
    if !step.Create? {
      StepShrinksQueue(c, s, step);
    }
  }

  /** The step dispatches another task although this one's document was free when the
      dispatched task was selected. */
  predicate Overtakes(s: State, step: Step, id: TaskId) {
    && step.Mark? && !step.fault
    && s.sched.Picked? && s.sched.id != id && QueuedAt(s, s.sched.id)
    && WasEligible(s, id)
  }

  lemma OvertakingFallsAhead(c: Config, s: State, step: Step, id: TaskId)
    requires Enabled(c, s, step) && Overtakes(s, step, id) && QueuedAt(Apply(c, s, step), id)
    requires DistinctStamps(s.rows) && PickIsOldest(s) && s.rows[s.sched.id].createdAt == s.sched.snap.createdAt
    ensures Ahead(Apply(c, s, step).rows, id) < Ahead(s.rows, id)
  {
    AheadNeverGrows(c, s, step, id);
    assert s.sched.id in Ahead(s.rows, id);
    assert s.sched.id !in Ahead(Apply(c, s, step).rows, id);
  }

  /** A task the scheduler has selected keeps the creation stamp it was selected with. */
  ghost predicate PickedStampHolds(s: State) {
    s.sched.Picked? && s.sched.id in s.rows ==> s.rows[s.sched.id].createdAt == s.sched.snap.createdAt
  }

  lemma {:induction false} RunKeepsPickedStamp(c: Config, states: seq<State>, steps: seq<Step>, i: nat)
    requires IsRun(c, states, steps) && i < |states|
    ensures PickedStampHolds(states[i])
  {
    if i > 0 && states[i].sched.Picked? {
      RunKeepsPickedStamp(c, states, steps, i - 1);
      StepAt(c, states, steps, i - 1);
      StepShrinksQueue(c, states[i - 1], steps[i - 1]);
    }
  }

  /** How often the task is overtaken by steps a .. b. */
  function Overtakings(states: seq<State>, steps: seq<Step>, a: nat, b: nat, id: TaskId): nat
    requires a <= b <= |steps| <= |states|
  {
    if a == b then 0
    else Overtakings(states, steps, a, b - 1, id) + if Overtakes(states[b - 1], steps[b - 1], id) then 1 else 0
  }

  lemma SubsetIsSmaller(x: set<TaskId>, y: set<TaskId>)
    requires x <= y
    ensures |x| <= |y| && (x < y ==> |x| < |y|)
  {
    assert y == x + (y - x);
  }

  lemma StepPaysForOvertaking(c: Config, s: State, step: Step, id: TaskId)
    requires Enabled(c, s, step) && FreshStamp(s, step) && !step.Restart?
    requires QueuedAt(s, id) && QueuedAt(Apply(c, s, step), id)
    requires DistinctStamps(s.rows) && PickIsOldest(s) && PickedStampHolds(s)
    ensures (if Overtakes(s, step, id) then 1 else 0) + |Ahead(Apply(c, s, step).rows, id)| <= |Ahead(s.rows, id)|
  {
    AheadNeverGrows(c, s, step, id);
    if Overtakes(s, step, id) {
      OvertakingFallsAhead(c, s, step, id);
    }
    SubsetIsSmaller(Ahead(Apply(c, s, step).rows, id), Ahead(s.rows, id));
  }

  /** Step k pays for its overtaking, if it is one, with a task that leaves the ones
      ahead. */
  ghost predicate Pays(states: seq<State>, steps: seq<Step>, k: nat, id: TaskId)
    requires k < |steps| < |states|
  {
    (if Overtakes(states[k], steps[k], id) then 1 else 0) + |Ahead(states[k + 1].rows, id)|
    <= |Ahead(states[k].rows, id)|
  }

  lemma RunPays(c: Config, states: seq<State>, steps: seq<Step>, k: nat, id: TaskId)
    requires IsRun(c, states, steps) && k < |steps| && DistinctStamps(states[0].rows)
    requires forall i | 0 <= i <= k :: FreshStamp(states[i], steps[i])
    requires !steps[k].Restart? && QueuedAt(states[k], id) && QueuedAt(states[k + 1], id)
    ensures Pays(states, steps, k, id)
  {
    RunKeepsOrder(c, states, steps, k);
    RunKeepsPickedStamp(c, states, steps, k);
    StepAt(c, states, steps, k);
    StepPaysForOvertaking(c, states[k], steps[k], id);
  }

  lemma {:induction false} SumOfPayments(states: seq<State>, steps: seq<Step>, a: nat, b: nat, id: TaskId)
    requires a <= b <= |steps| < |states| && forall k | a <= k < b :: Pays(states, steps, k, id)
    ensures Overtakings(states, steps, a, b, id) + |Ahead(states[b].rows, id)| <= |Ahead(states[a].rows, id)|
    decreases b
  {
    if a < b {
      SumOfPayments(states, steps, a, b - 1, id);
      assert Pays(states, steps, b - 1, id);
    }
  }

  /** Bounded overtaking: on any stretch of a run without a restart, with increasing
      creation stamps, the dispatches that overtake a task which stays queued, plus the
      older tasks still ahead of it at the end, are at most the older tasks that were
      ahead of it at the start. */
  lemma OvertakingIsBounded(c: Config, states: seq<State>, steps: seq<Step>, a: nat, b: nat, id: TaskId)
    requires IsRun(c, states, steps) && a <= b <= |steps| && DistinctStamps(states[0].rows)
    requires forall k | 0 <= k < b :: FreshStamp(states[k], steps[k])
    requires forall k | a <= k < b :: !steps[k].Restart?
    requires forall k | a <= k <= b :: QueuedAt(states[k], id)
    ensures Overtakings(states, steps, a, b, id) + |Ahead(states[b].rows, id)| <= |Ahead(states[a].rows, id)|
  {
    forall k | a <= k < b ensures Pays(states, steps, k, id) {
      RunPays(c, states, steps, k, id);
    }
    SumOfPayments(states, steps, a, b, id);
  }
}
