/** Debounced submission: however cancels interleave between the lookup, the claim,
    the refresh and the create, no successful Enqueue swallows its submission. */
module Submission {
  import opened Wrappers
  import opened TaskStore
  import opened TaskEngine
  import opened TaskInvariants

  /** The scheduler mutex is held by an Enqueue of this request. */
  predicate InCall(pc: SchedulerPc, req: Request) {
    (pc.Looked? || pc.Refreshed? || pc.MustCreate?) && pc.req == req
  }

  /** Step k returns task `id` to the caller that submitted `req`: a merge, a refresh
      or a new task. */
  predicate Returns(states: seq<State>, steps: seq<Step>, k: nat, req: Request, id: TaskId)
    requires |states| == |steps| + 1
  {
    && k < |steps| && InCall(states[k].sched, req) && states[k + 1].sched.Free?
    && match steps[k]
       case Claim(_, _, _) =>
         states[k].sched.Looked? && states[k].sched.found.Some? && states[k].sched.found.value.0 == id
       case Reread(_) => states[k].sched.Refreshed? && states[k].sched.id == id
       case Create(_, created, _) => created == id && id in states[k + 1].rows
       case _ => false
  }

  /** The task holds the submitted content for the submitting namespace, and will
      process it, is processing it, or has. */
  predicate Carries(s: State, id: TaskId, req: Request) {
    && id in s.rows
    && s.rows[id].ns == req.ns && s.rows[id].taskType == req.taskType && s.rows[id].contentHash == req.contentHash
    && s.rows[id].status in {Queued, Processing, Completed}
  }

  lemma RefreshCarries(c: Config, s: State, step: Step)
    requires Enabled(c, s, step) && SchedulerOwns(s) && Apply(c, s, step).sched.Refreshed?
    ensures var t := Apply(c, s, step);
            t.sched == s.sched || (InCall(s.sched, t.sched.req) && Carries(t, t.sched.id, t.sched.req))
  {
    if step.Refresh? {
      var id := s.sched.found.value.0;
      assert Apply(c, s, step).rows[id].contentHash == s.sched.req.contentHash;
    }
  }

  lemma RefreshedBefore(c: Config, states: seq<State>, steps: seq<Step>, k: nat)
    requires IsRun(c, states, steps) && k < |states| && states[k].sched.Refreshed?
    ensures k > 0 && (states[k - 1].sched == states[k].sched
                      || (InCall(states[k - 1].sched, states[k].sched.req)
                        && Carries(states[k], states[k].sched.id, states[k].sched.req)))
  {
    RunInvariant(c, states, steps, k - 1);
    StepAt(c, states, steps, k - 1);
    RefreshCarries(c, states[k - 1], steps[k - 1]);
  }

  /** The refresh that put the scheduler where it is, found by walking back. */
  lemma {:induction false} FindRefresh(c: Config, states: seq<State>, steps: seq<Step>, k: nat)
    returns (j: nat)
    requires IsRun(c, states, steps) && k < |states| && states[k].sched.Refreshed?
    ensures 0 < j <= k && Carries(states[j], states[k].sched.id, states[k].sched.req)
    ensures forall m | j - 1 <= m <= k :: InCall(states[m].sched, states[k].sched.req)
  {
    RefreshedBefore(c, states, steps, k);
    if states[k - 1].sched == states[k].sched {
      j := FindRefresh(c, states, steps, k - 1);
    } else {
      j := k;
    }
  }

  /** Every successful Enqueue has a point during the call at which the returned task
      carries the submission. */
  lemma NoSubmissionIsSwallowed(c: Config, states: seq<State>, steps: seq<Step>, k: nat, req: Request, id: TaskId)
    requires IsRun(c, states, steps) && Returns(states, steps, k, req, id)
    ensures exists j: nat :: 0 < j <= k + 1 && Carries(states[j], id, req)
                             && forall m | j - 1 <= m <= k :: InCall(states[m].sched, req)
  {
    RunInvariant(c, states, steps, k);
    StepAt(c, states, steps, k);
    if steps[k].Reread? {
      var j := FindRefresh(c, states, steps, k);
    } else {
      assert Carries(states[k + 1], id, req);
    }
  }
}
