/**
 The bounded executor (src/common/executor_engine.cpp): worker threads and producers
 over one queue, one mutex and two condition variables.

 Each critical section is one atomic step.  A notification is sent after the mutex is
 released, so it is a step of its own: until then it is pending.  A thread waiting on a
 condition variable is parked; a notification, or a spurious wake-up, makes it ready to
 re-evaluate its predicate under the mutex.
 */
module Executor {

  /** Jobs are named by numbers; two submissions may carry the same name. */
  type Job = nat

  /** WorkerLoop. */
  datatype WorkerPc =
    | Ready                  // about to lock and evaluate the wait predicate
    | Parked                 // waiting on not_empty_
    | Took(job: Job)         // popped a job; not_full_ not yet notified
    | Running(job: Job)
    | Ran                    // job finished; active_workers_ not yet decremented
    | Exited

  /** A thread that calls Enqueue, any number of times. */
  datatype ProducerPc =
    | Outside
    | Trying(job: Job)       // about to lock and evaluate the wait predicate
    | Waiting(job: Job)      // waiting on not_full_
    | Pushed                 // not_empty_ not yet notified

  /** The first caller of Shutdown; every later caller returns at once. */
  datatype StopperPc = NotCalled | FlagSet | EmptyNotified | Joining | Returned

  datatype State = State(
    capacity: nat, queue: seq<Job>, shutdown: bool, active: int,
    workers: seq<WorkerPc>, producers: seq<ProducerPc>, stopper: StopperPc,
    submitted: seq<Job>,     // history: calls of Enqueue
    dropped: seq<Job>,       // history: calls that returned without pushing
    accepted: seq<Job>,      // history: jobs pushed, in order
    started: seq<Job>,       // history: jobs popped, in order
    ran: seq<Job>)           // history: jobs that have finished

  datatype Step =
    | Submit(p: nat, job: Job)
    | TryPush(p: nat)
    | NotifyEmpty(p: nat, woken: nat)    // notify_one on not_empty_
    | TryTake(w: nat)
    | NotifyFull(w: nat, woken: nat)     // notify_one on not_full_
    | Run(w: nat)
    | Finish(w: nat)
    | WakeWorker(w: nat)                 // spurious
    | WakeProducer(p: nat)               // spurious
    | Shutdown
    | NotifyAllEmpty
    | NotifyAllFull
    | Join

  // ----------------------------------------------------------------- steps

  predicate SomeWorkerParked(s: State) {
    exists w | 0 <= w < |s.workers| :: s.workers[w].Parked?
  }

  predicate SomeProducerWaiting(s: State) {
    exists p | 0 <= p < |s.producers| :: s.producers[p].Waiting?
  }

  predicate Enabled(s: State, step: Step) {
    match step
    case Submit(p, _) => p < |s.producers| && s.producers[p].Outside?
    case TryPush(p) => p < |s.producers| && s.producers[p].Trying?
    case NotifyEmpty(p, woken) =>
      && p < |s.producers| && s.producers[p].Pushed?
      && (SomeWorkerParked(s) ==> woken < |s.workers| && s.workers[woken].Parked?)
    case TryTake(w) => w < |s.workers| && s.workers[w].Ready?
    case NotifyFull(w, woken) =>
      && w < |s.workers| && s.workers[w].Took?
      && (SomeProducerWaiting(s) ==> woken < |s.producers| && s.producers[woken].Waiting?)
    case Run(w) => w < |s.workers| && s.workers[w].Running?
    case Finish(w) => w < |s.workers| && s.workers[w].Ran?
    case WakeWorker(w) => w < |s.workers| && s.workers[w].Parked?
    case WakeProducer(p) => p < |s.producers| && s.producers[p].Waiting?
    case Shutdown => s.stopper.NotCalled?
    case NotifyAllEmpty => s.stopper.FlagSet?
    case NotifyAllFull => s.stopper.EmptyNotified?
    case Join => s.stopper.Joining? && forall w | 0 <= w < |s.workers| :: s.workers[w].Exited?
  }

  function WakeOneWorker(s: State, woken: nat): seq<WorkerPc>
    requires SomeWorkerParked(s) ==> woken < |s.workers|
  {
    if SomeWorkerParked(s) then s.workers[woken := Ready] else s.workers
  }

  function WakeOneProducer(s: State, woken: nat): seq<ProducerPc>
    requires SomeProducerWaiting(s) ==> woken < |s.producers| && s.producers[woken].Waiting?
  {
    if SomeProducerWaiting(s) then s.producers[woken := Trying(s.producers[woken].job)] else s.producers
  }

  function Apply(s: State, step: Step): State
    requires Enabled(s, step)
  {
    match step
    case Submit(p, job) => s.(producers := s.producers[p := Trying(job)], submitted := s.submitted + [job])
    case TryPush(p) =>
      var job := s.producers[p].job;
      if s.shutdown then s.(producers := s.producers[p := Outside], dropped := s.dropped + [job])
      else if |s.queue| < s.capacity
      then s.(producers := s.producers[p := Pushed], queue := s.queue + [job], accepted := s.accepted + [job])
      else s.(producers := s.producers[p := Waiting(job)])
    case NotifyEmpty(p, woken) =>
      s.(producers := s.producers[p := Outside], workers := WakeOneWorker(s, woken))
    case TryTake(w) =>
      if s.queue == [] then s.(workers := s.workers[w := if s.shutdown then Exited else Parked])
      else s.(workers := s.workers[w := Took(s.queue[0])], queue := s.queue[1..], active := s.active + 1,
              started := s.started + [s.queue[0]])
    case NotifyFull(w, woken) =>
      s.(workers := s.workers[w := Running(s.workers[w].job)], producers := WakeOneProducer(s, woken))
    case Run(w) => s.(workers := s.workers[w := Ran], ran := s.ran + [s.workers[w].job])
    case Finish(w) => s.(workers := s.workers[w := Ready], active := s.active - 1)
    case WakeWorker(w) => s.(workers := s.workers[w := Ready])
    case WakeProducer(p) => s.(producers := s.producers[p := Trying(s.producers[p].job)])
    case Shutdown => s.(shutdown := true, stopper := FlagSet)
    case NotifyAllEmpty =>
      s.(workers := seq(|s.workers|, i requires 0 <= i < |s.workers| =>
           if s.workers[i].Parked? then Ready else s.workers[i]),
         stopper := EmptyNotified)
    case NotifyAllFull =>
      s.(producers := seq(|s.producers|, i requires 0 <= i < |s.producers| =>
           if s.producers[i].Waiting? then Trying(s.producers[i].job) else s.producers[i]),
         stopper := Joining)
    case Join => s.(stopper := Returned)
  }

  /** The constructor clamps both sizes to at least one. */
  ghost predicate Init(s: State, workers: int, queueSize: int) {
    && s.capacity == (if queueSize < 1 then 1 else queueSize)
    && |s.workers| == (if workers < 1 then 1 else workers)
    && s.queue == [] && !s.shutdown && s.active == 0 && s.stopper.NotCalled?
    && (forall w | 0 <= w < |s.workers| :: s.workers[w].Ready?)
    && (forall p | 0 <= p < |s.producers| :: s.producers[p].Outside?)
    && s.submitted == [] && s.dropped == [] && s.accepted == [] && s.started == [] && s.ran == []
  }

  ghost predicate IsRun(states: seq<State>, steps: seq<Step>, workers: int, queueSize: int) {
    && |states| == |steps| + 1 && Init(states[0], workers, queueSize)
    && forall i | 0 <= i < |steps| :: Enabled(states[i], steps[i]) && states[i + 1] == Apply(states[i], steps[i])
  }

  // -------------------------------------------------------------- counting

  function Sum<T>(s: seq<T>, f: T -> nat): nat {
    if s == [] then 0 else f(s[0]) + Sum(s[1..], f)
  }

  lemma {:induction false} SumUpdate<T>(s: seq<T>, i: nat, x: T, f: T -> nat)
    requires i < |s|
    ensures Sum(s[i := x], f) == Sum(s, f) - f(s[i]) + f(x)
  {
    if i == 0 {
      assert s[i := x][1..] == s[1..];
    } else {
      assert s[i := x][1..] == s[1..][i - 1 := x];
      SumUpdate(s[1..], i - 1, x, f);
    }
  }

  lemma {:induction false} SumCovers<T>(s: seq<T>, i: nat, f: T -> nat)
    requires i < |s|
    ensures f(s[i]) <= Sum(s, f)
  {
    if i > 0 { SumCovers(s[1..], i - 1, f); }
  }

  lemma {:induction false} SumWitness<T>(s: seq<T>, f: T -> nat) returns (i: nat)
    requires Sum(s, f) > 0
    ensures i < |s| && f(s[i]) > 0
  {
    if f(s[0]) > 0 {
      i := 0;
    } else {
      i := SumWitness(s[1..], f);
      i := i + 1;
    }
  }

  lemma {:induction false} SumMonotone<T>(s: seq<T>, t: seq<T>, f: T -> nat)
    requires |s| == |t| && forall i | 0 <= i < |s| :: f(t[i]) <= f(s[i])
    ensures Sum(t, f) <= Sum(s, f)
    ensures (forall i | 0 <= i < |s| :: f(t[i]) == f(s[i])) ==> Sum(t, f) == Sum(s, f)
  {
    if s != [] { SumMonotone(s[1..], t[1..], f); }
  }

  function IsReady(pc: WorkerPc): nat { if pc.Ready? then 1 else 0 }
  function IsParked(pc: WorkerPc): nat { if pc.Parked? then 1 else 0 }
  function IsTook(pc: WorkerPc): nat { if pc.Took? then 1 else 0 }
  function IsBusy(pc: WorkerPc): nat { if pc.Took? || pc.Running? || pc.Ran? then 1 else 0 }
  function IsTrying(pc: ProducerPc): nat { if pc.Trying? then 1 else 0 }
  function IsWaiting(pc: ProducerPc): nat { if pc.Waiting? then 1 else 0 }
  function IsPushed(pc: ProducerPc): nat { if pc.Pushed? then 1 else 0 }

  /** Occurrences of one job in a history, and in workers' hands: taken, not yet run. */
  function Times(job: Job): Job -> nat {
    (j: Job) => if j == job then 1 else 0
  }

  function Holding(job: Job): WorkerPc -> nat {
    (pc: WorkerPc) => if (pc.Took? || pc.Running?) && pc.job == job then 1 else 0
  }

  /** In a producer's hands: submitted, not yet pushed or dropped. */
  function Offering(job: Job): ProducerPc -> nat {
    (pc: ProducerPc) => if (pc.Trying? || pc.Waiting?) && pc.job == job then 1 else 0
  }

  lemma {:induction false} SumAppend<T>(s: seq<T>, x: T, f: T -> nat)
    ensures Sum(s + [x], f) == Sum(s, f) + f(x)
  {
    if s == [] {
      assert [] + [x] == [x];
    } else {
      assert (s + [x])[1..] == s[1..] + [x];
      SumAppend(s[1..], x, f);
    }
  }

  lemma {:induction false} SumZero<T>(s: seq<T>, f: T -> nat)
    requires forall i | 0 <= i < |s| :: f(s[i]) == 0
    ensures Sum(s, f) == 0
  {
    if s != [] { SumZero(s[1..], f); }
  }

  // ------------------------------------------------------------ invariants

  /** Every job is somewhere: accepted jobs are the started ones followed by the queue,
      and started jobs have run or are in a worker's hand. */
  ghost predicate JobsAccounted(s: State) {
    && s.accepted == s.started + s.queue
    && forall job :: Sum(s.started, Times(job)) == Sum(s.ran, Times(job)) + Sum(s.workers, Holding(job))
  }

  /** Every submission is accepted, dropped, or still offered, and nothing is dropped
      before shutdown. */
  ghost predicate OffersAccounted(s: State) {
    && (!s.shutdown ==> s.dropped == [])
    && forall job ::
         Sum(s.submitted, Times(job)) ==
         Sum(s.accepted, Times(job)) + Sum(s.producers, Offering(job)) + Sum(s.dropped, Times(job))
  }

  ghost predicate Bounded(s: State) {
    && 1 <= s.capacity && |s.queue| <= s.capacity
    && s.active == Sum(s.workers, IsBusy)
  }

  /** Each queued job beyond the first parked worker is matched by a notification on
      its way or by a worker already awake; each free slot likewise for producers. */
  ghost predicate WakeupsCovered(s: State) {
    && (Sum(s.workers, IsParked) > 0 ==> |s.queue| <= Sum(s.producers, IsPushed) + Sum(s.workers, IsReady))
    && (Sum(s.producers, IsWaiting) > 0 && !s.shutdown ==>
          s.capacity - |s.queue| <= Sum(s.workers, IsTook) + Sum(s.producers, IsTrying))
  }

  ghost predicate ShutdownOrderly(s: State) {
    && (s.shutdown <==> !s.stopper.NotCalled?)
    && (s.shutdown && !s.stopper.FlagSet? ==> Sum(s.workers, IsParked) == 0)
    && (s.stopper.Joining? || s.stopper.Returned? ==> Sum(s.producers, IsWaiting) == 0)
    && (forall w | 0 <= w < |s.workers| && s.workers[w].Exited? :: s.shutdown && s.queue == [])
    && (s.stopper.Returned? ==> forall w | 0 <= w < |s.workers| :: s.workers[w].Exited?)
  }

  ghost predicate CountsHold(s: State) {
    Bounded(s) && WakeupsCovered(s) && ShutdownOrderly(s)
  }

  ghost predicate Inv(s: State) {
    JobsAccounted(s) && OffersAccounted(s) && CountsHold(s)
  }

  lemma SubmitKeepsOffers(s: State, step: Step)
    requires OffersAccounted(s) && Enabled(s, step) && step.Submit?
    ensures OffersAccounted(Apply(s, step))
  {
    var t := Apply(s, step);
    forall job
      ensures Sum(t.submitted, Times(job)) ==
              Sum(t.accepted, Times(job)) + Sum(t.producers, Offering(job)) + Sum(t.dropped, Times(job))
    {
      SumAppend(s.submitted, step.job, Times(job));
      SumUpdate(s.producers, step.p, Trying(step.job), Offering(job));
    }
  }

  lemma PushKeepsOffers(s: State, step: Step)
    requires OffersAccounted(s) && Enabled(s, step) && step.TryPush?
    ensures OffersAccounted(Apply(s, step))
  {
    var (t, offered) := (Apply(s, step), s.producers[step.p].job);
    forall job
      ensures Sum(t.submitted, Times(job)) ==
              Sum(t.accepted, Times(job)) + Sum(t.producers, Offering(job)) + Sum(t.dropped, Times(job))
    {
      SumAppend(s.accepted, offered, Times(job));
      SumAppend(s.dropped, offered, Times(job));
      SumUpdate(s.producers, step.p, t.producers[step.p], Offering(job));
    }
  }

  predicate SameOffer(a: ProducerPc, b: ProducerPc) {
    && ((a.Trying? || a.Waiting?) <==> (b.Trying? || b.Waiting?))
    && (a.Trying? || a.Waiting? ==> a.job == b.job)
  }

  /** The other steps leave every producer's offer, and the histories, as they are. */
  lemma OtherStepsKeepOffers(s: State, step: Step)
    requires OffersAccounted(s) && Enabled(s, step) && !step.Submit? && !step.TryPush?
    ensures OffersAccounted(Apply(s, step))
  {
    var t := Apply(s, step);
    assert |t.producers| == |s.producers|;
    assert forall i | 0 <= i < |s.producers| :: SameOffer(s.producers[i], t.producers[i]);
    forall job ensures Sum(t.producers, Offering(job)) == Sum(s.producers, Offering(job)) {
      SumMonotone(s.producers, t.producers, Offering(job));
    }
  }

  lemma StepKeepsOffers(s: State, step: Step)
    requires OffersAccounted(s) && Enabled(s, step)
    ensures OffersAccounted(Apply(s, step))
  {
    if step.Submit? {
      SubmitKeepsOffers(s, step);
    } else if step.TryPush? {
      PushKeepsOffers(s, step);
    } else {
      OtherStepsKeepOffers(s, step);
    }
  }

  lemma TakeKeepsJobs(s: State, step: Step)
    requires JobsAccounted(s) && Enabled(s, step) && step.TryTake?
    ensures JobsAccounted(Apply(s, step))
  {
    var t := Apply(s, step);
    assert t.accepted == t.started + t.queue;
    forall job ensures Sum(t.started, Times(job)) == Sum(t.ran, Times(job)) + Sum(t.workers, Holding(job)) {
      SumUpdate(s.workers, step.w, t.workers[step.w], Holding(job));
      if s.queue != [] { SumAppend(s.started, s.queue[0], Times(job)); }
    }
  }

  lemma RunKeepsJobs(s: State, step: Step)
    requires JobsAccounted(s) && Enabled(s, step) && step.Run?
    ensures JobsAccounted(Apply(s, step))
  {
    var t := Apply(s, step);
    forall job ensures Sum(t.started, Times(job)) == Sum(t.ran, Times(job)) + Sum(t.workers, Holding(job)) {
      SumUpdate(s.workers, step.w, Ran, Holding(job));
      SumAppend(s.ran, s.workers[step.w].job, Times(job));
    }
  }

  predicate SameHand(a: WorkerPc, b: WorkerPc) {
    && ((a.Took? || a.Running?) <==> (b.Took? || b.Running?))
    && (a.Took? || a.Running? ==> a.job == b.job)
  }

  /** The other steps leave every worker's hand, and the histories, as they are. */
  lemma OtherStepsKeepHands(s: State, step: Step)
    requires Enabled(s, step) && !step.TryTake? && !step.Run?
    ensures var t := Apply(s, step);
            && |t.workers| == |s.workers| && (forall i | 0 <= i < |s.workers| :: SameHand(s.workers[i], t.workers[i]))
            && t.started == s.started && t.ran == s.ran
            && (s.accepted == s.started + s.queue ==> t.accepted == t.started + t.queue)
  {
    var t := Apply(s, step);
    if step.TryPush? && t.queue != s.queue {
      assert s.started + s.queue + [s.producers[step.p].job] == s.started + (s.queue + [s.producers[step.p].job]);
    }
  }

  lemma SameHandsKeepJobs(s: State, t: State)
    requires JobsAccounted(s) && t.started == s.started && t.ran == s.ran && t.accepted == t.started + t.queue
    requires |t.workers| == |s.workers| && forall i | 0 <= i < |s.workers| :: SameHand(s.workers[i], t.workers[i])
    ensures JobsAccounted(t)
  {
    forall job ensures Sum(t.workers, Holding(job)) == Sum(s.workers, Holding(job)) {
      SumMonotone(s.workers, t.workers, Holding(job));
    }
  }

  lemma StepKeepsJobs(s: State, step: Step)
    requires JobsAccounted(s) && Enabled(s, step)
    ensures JobsAccounted(Apply(s, step))
  {
    if step.TryTake? {
      TakeKeepsJobs(s, step);
    } else if step.Run? {
      RunKeepsJobs(s, step);
    } else {
      OtherStepsKeepHands(s, step);
      SameHandsKeepJobs(s, Apply(s, step));
    }
  }

  /** How every worker count moves when one worker changes place. */
  lemma WorkerCounts(ws: seq<WorkerPc>, i: nat, pc: WorkerPc)
    requires i < |ws|
    ensures var vs := ws[i := pc];
      && Sum(vs, IsReady) == Sum(ws, IsReady) - IsReady(ws[i]) + IsReady(pc)
      && Sum(vs, IsParked) == Sum(ws, IsParked) - IsParked(ws[i]) + IsParked(pc)
      && Sum(vs, IsTook) == Sum(ws, IsTook) - IsTook(ws[i]) + IsTook(pc)
      && Sum(vs, IsBusy) == Sum(ws, IsBusy) - IsBusy(ws[i]) + IsBusy(pc)
  {
    SumUpdate(ws, i, pc, IsReady);
    SumUpdate(ws, i, pc, IsParked);
    SumUpdate(ws, i, pc, IsTook);
    SumUpdate(ws, i, pc, IsBusy);
  }

  lemma ProducerCounts(ps: seq<ProducerPc>, i: nat, pc: ProducerPc)
    requires i < |ps|
    ensures var qs := ps[i := pc];
      && Sum(qs, IsTrying) == Sum(ps, IsTrying) - IsTrying(ps[i]) + IsTrying(pc)
      && Sum(qs, IsWaiting) == Sum(ps, IsWaiting) - IsWaiting(ps[i]) + IsWaiting(pc)
      && Sum(qs, IsPushed) == Sum(ps, IsPushed) - IsPushed(ps[i]) + IsPushed(pc)
  {
    SumUpdate(ps, i, pc, IsTrying);
    SumUpdate(ps, i, pc, IsWaiting);
    SumUpdate(ps, i, pc, IsPushed);
  }

  lemma ParkedCount(s: State)
    ensures SomeWorkerParked(s) <==> Sum(s.workers, IsParked) > 0
    ensures SomeProducerWaiting(s) <==> Sum(s.producers, IsWaiting) > 0
  {
    if Sum(s.workers, IsParked) > 0 {
      var w := SumWitness(s.workers, IsParked);
    }
    if SomeWorkerParked(s) {
      var w :| 0 <= w < |s.workers| && s.workers[w].Parked?;
      SumCovers(s.workers, w, IsParked);
    }
    if Sum(s.producers, IsWaiting) > 0 {
      var p := SumWitness(s.producers, IsWaiting);
    }
    if SomeProducerWaiting(s) {
      var p :| 0 <= p < |s.producers| && s.producers[p].Waiting?;
      SumCovers(s.producers, p, IsWaiting);
    }
  }

  lemma ProducerStepKeepsCounts(s: State, step: Step)
    requires CountsHold(s) && Enabled(s, step) && (step.Submit? || step.TryPush? || step.WakeProducer?)
    ensures CountsHold(Apply(s, step))
  {
    var t := Apply(s, step);
    ProducerCounts(s.producers, step.p, t.producers[step.p]);
    assert t.producers == s.producers[step.p := t.producers[step.p]];
  }

  lemma TakeKeepsCounts(s: State, step: Step)
    requires CountsHold(s) && Enabled(s, step) && step.TryTake?
    ensures CountsHold(Apply(s, step))
  {
    var t := Apply(s, step);
    WorkerCounts(s.workers, step.w, t.workers[step.w]);
    assert t.workers == s.workers[step.w := t.workers[step.w]];
  }

  lemma WorkerStepKeepsCounts(s: State, step: Step)
    requires CountsHold(s) && Enabled(s, step) && (step.Run? || step.Finish? || step.WakeWorker?)
    ensures CountsHold(Apply(s, step))
  {
    var t := Apply(s, step);
    WorkerCounts(s.workers, step.w, t.workers[step.w]);
    assert t.workers == s.workers[step.w := t.workers[step.w]];
  }

  lemma NotifyEmptyKeepsCounts(s: State, step: Step)
    requires CountsHold(s) && Enabled(s, step) && step.NotifyEmpty?
    ensures CountsHold(Apply(s, step))
  {
    ParkedCount(s);
    ProducerCounts(s.producers, step.p, Outside);
    if SomeWorkerParked(s) {
      WorkerCounts(s.workers, step.woken, Ready);
    }
  }

  lemma NotifyFullKeepsCounts(s: State, step: Step)
    requires CountsHold(s) && Enabled(s, step) && step.NotifyFull?
    ensures CountsHold(Apply(s, step))
  {
    ParkedCount(s);
    WorkerCounts(s.workers, step.w, Running(s.workers[step.w].job));
    if SomeProducerWaiting(s) {
      ProducerCounts(s.producers, step.woken, Trying(s.producers[step.woken].job));
    }
  }

  lemma StopperStepKeepsCounts(s: State, step: Step)
    requires CountsHold(s) && Enabled(s, step) && (step.Shutdown? || step.NotifyAllEmpty? || step.NotifyAllFull?
      || step.Join?)
    ensures CountsHold(Apply(s, step))
  {
    var t := Apply(s, step);
    if step.NotifyAllEmpty? {
      SumMonotone(s.workers, t.workers, IsBusy);
      SumMonotone(s.workers, t.workers, IsTook);
      ParkedCount(t);
    }
    if step.NotifyAllFull? {
      SumMonotone(s.producers, t.producers, IsPushed);
      ParkedCount(t);
    }
  }

  lemma StepKeepsCounts(s: State, step: Step)
    requires CountsHold(s) && Enabled(s, step)
    ensures CountsHold(Apply(s, step))
  {
    match step
    case Submit(_, _) => ProducerStepKeepsCounts(s, step);
    case TryPush(_) => ProducerStepKeepsCounts(s, step);
    case NotifyEmpty(_, _) => NotifyEmptyKeepsCounts(s, step);
    case TryTake(_) => TakeKeepsCounts(s, step);
    case NotifyFull(_, _) => NotifyFullKeepsCounts(s, step);
    case Run(_) => WorkerStepKeepsCounts(s, step);
    case Finish(_) => WorkerStepKeepsCounts(s, step);
    case WakeWorker(_) => WorkerStepKeepsCounts(s, step);
    case WakeProducer(_) => ProducerStepKeepsCounts(s, step);
    case Shutdown => StopperStepKeepsCounts(s, step);
    case NotifyAllEmpty => StopperStepKeepsCounts(s, step);
    case NotifyAllFull => StopperStepKeepsCounts(s, step);
    case Join => StopperStepKeepsCounts(s, step);
  }

  lemma InitHolds(s: State, workers: int, queueSize: int)
    requires Init(s, workers, queueSize)
    ensures Inv(s)
  {
    ParkedCount(s);
    forall job ensures Sum(s.workers, Holding(job)) == 0 && Sum(s.producers, Offering(job)) == 0 {
      SumZero(s.workers, Holding(job));
      SumZero(s.producers, Offering(job));
    }
    if Sum(s.workers, IsBusy) > 0 {
      var w := SumWitness(s.workers, IsBusy);
    }
  }

  lemma {:induction false} RunInvariant(states: seq<State>, steps: seq<Step>, workers: int, queueSize: int, i: nat)
    requires IsRun(states, steps, workers, queueSize) && i < |states|
    ensures Inv(states[i]) && |states[i].workers| == |states[0].workers|
  {
    if i == 0 {
      InitHolds(states[0], workers, queueSize);
    } else {
      RunInvariant(states, steps, workers, queueSize, i - 1);
      StepKeepsJobs(states[i - 1], steps[i - 1]);
      StepKeepsOffers(states[i - 1], steps[i - 1]);
      StepKeepsCounts(states[i - 1], steps[i - 1]);
    }
  }

  // -------------------------------------------------------------- theorems

  predicate NotifyPending(s: State) {
    exists p | 0 <= p < |s.producers| :: s.producers[p].Pushed?
  }

  predicate WorkerAwake(s: State) {
    exists w | 0 <= w < |s.workers| :: s.workers[w].Ready?
  }

  predicate SlotNotifyPending(s: State) {
    exists w | 0 <= w < |s.workers| :: s.workers[w].Took?
  }

  predicate ProducerAwake(s: State) {
    exists p | 0 <= p < |s.producers| :: s.producers[p].Trying?
  }

  /** No wake-up is lost.  A worker parked beside a queued job has a notification on its
      way or an awake colleague; a producer parked beside a free slot likewise, or the
      stopper is about to wake it; and a worker parked during shutdown is about to be
      woken. */
  lemma NoLostWakeup(states: seq<State>, steps: seq<Step>, workers: int, queueSize: int, i: nat)
    requires IsRun(states, steps, workers, queueSize) && i < |states|
    ensures states[i].queue != [] && SomeWorkerParked(states[i]) ==> NotifyPending(states[i]) || WorkerAwake(states[i])
    ensures |states[i].queue| < states[i].capacity && SomeProducerWaiting(states[i]) ==>
      || SlotNotifyPending(states[i]) || ProducerAwake(states[i])
      || states[i].stopper.FlagSet? || states[i].stopper.EmptyNotified?
    ensures states[i].shutdown && SomeWorkerParked(states[i]) ==> states[i].stopper.FlagSet?
  {
    var s := states[i];
    RunInvariant(states, steps, workers, queueSize, i);
    ParkedCount(s);
    if Sum(s.producers, IsPushed) > 0 { var p := SumWitness(s.producers, IsPushed); }
    if Sum(s.workers, IsReady) > 0 { var w := SumWitness(s.workers, IsReady); }
    if Sum(s.workers, IsTook) > 0 { var w := SumWitness(s.workers, IsTook); }
    if Sum(s.producers, IsTrying) > 0 { var p := SumWitness(s.producers, IsTrying); }
  }

  /** On every run the queue is bounded, jobs start in the order they were accepted and
      none is lost or duplicated; when the first Shutdown returns, every accepted job
      has run exactly as often as it was accepted. */
  lemma AcceptedJobsRunExactlyOnce(
    states: seq<State>, steps: seq<Step>, workers: int, queueSize: int, i: nat, job: Job)
    requires IsRun(states, steps, workers, queueSize) && i < |states|
    ensures |states[i].queue| <= states[i].capacity
    ensures states[i].accepted == states[i].started + states[i].queue
    ensures Sum(states[i].ran, Times(job)) <= Sum(states[i].started, Times(job))
    ensures 0 <= states[i].active <= |states[i].workers|
    ensures states[i].stopper.Returned? ==>
      && states[i].queue == [] && states[i].active == 0
      && Sum(states[i].ran, Times(job)) == Sum(states[i].accepted, Times(job))
  {
    var s := states[i];
    RunInvariant(states, steps, workers, queueSize, i);
    BusyBound(s.workers);
    if s.stopper.Returned? {
      SumZero(s.workers, Holding(job));
      assert s.workers[0].Exited?;
      assert s.accepted == s.started;
      if Sum(s.workers, IsBusy) > 0 { var w := SumWitness(s.workers, IsBusy); }
    }
  }

  /** No submission is lost: each is accepted, or is still offered by a producer, or was
      dropped, and nothing is dropped before shutdown.  So when the first Shutdown returns,
      every submission has run, is about to be dropped, or was dropped. */
  lemma NoSubmissionIsLost(
    states: seq<State>, steps: seq<Step>, workers: int, queueSize: int, i: nat, job: Job)
    requires IsRun(states, steps, workers, queueSize) && i < |states|
    ensures Sum(states[i].submitted, Times(job)) ==
            Sum(states[i].accepted, Times(job)) + Sum(states[i].producers, Offering(job))
            + Sum(states[i].dropped, Times(job))
    ensures !states[i].shutdown ==> states[i].dropped == []
    ensures states[i].stopper.Returned? ==>
      Sum(states[i].submitted, Times(job)) ==
      Sum(states[i].ran, Times(job)) + Sum(states[i].producers, Offering(job)) + Sum(states[i].dropped, Times(job))
  {
    RunInvariant(states, steps, workers, queueSize, i);
    AcceptedJobsRunExactlyOnce(states, steps, workers, queueSize, i, job);
  }

  lemma {:induction false} BusyBound(ws: seq<WorkerPc>)
    ensures Sum(ws, IsBusy) <= |ws|
  {
    if ws != [] { BusyBound(ws[1..]); }
  }

  // --------------------------------------------------------------- draining

  function WorkerRank(pc: WorkerPc): nat {
    match pc
    case Took(_) => 4
    case Running(_) => 3
    case Ran => 2
    case Parked => 2
    case Ready => 1
    case Exited => 0
  }

  function ProducerRank(pc: ProducerPc): nat {
    match pc
    case Waiting(_) => 2
    case Trying(_) => 1
    case Pushed => 1
    case Outside => 0
  }

  function StopperRank(pc: StopperPc): nat {
    match pc
    case NotCalled => 4
    case FlagSet => 3
    case EmptyNotified => 2
    case Joining => 1
    case Returned => 0
  }

  function Rank(s: State): nat {
    4 * |s.queue| + Sum(s.workers, WorkerRank) + Sum(s.producers, ProducerRank) + StopperRank(s.stopper)
  }

  lemma WorkerDrains(s: State, step: Step)
    requires s.shutdown && Enabled(s, step) && (step.TryTake? || step.Run? || step.Finish? || step.WakeWorker?)
    ensures Rank(Apply(s, step)) < Rank(s)
  {
    var t := Apply(s, step);
    SumUpdate(s.workers, step.w, t.workers[step.w], WorkerRank);
  }

  lemma NotifyDrains(s: State, step: Step)
    requires s.shutdown && Enabled(s, step) && (step.NotifyEmpty? || step.NotifyFull?)
    ensures Rank(Apply(s, step)) < Rank(s)
  {
    if step.NotifyEmpty? {
      SumUpdate(s.producers, step.p, Outside, ProducerRank);
      if SomeWorkerParked(s) { SumUpdate(s.workers, step.woken, Ready, WorkerRank); }
    } else {
      SumUpdate(s.workers, step.w, Running(s.workers[step.w].job), WorkerRank);
      if SomeProducerWaiting(s) {
        SumUpdate(s.producers, step.woken, Trying(s.producers[step.woken].job), ProducerRank);
      }
    }
  }

  lemma StopperDrains(s: State, step: Step)
    requires s.shutdown && Enabled(s, step) && (step.NotifyAllEmpty? || step.NotifyAllFull? || step.Join?)
    ensures Rank(Apply(s, step)) < Rank(s)
  {
    var t := Apply(s, step);
    if step.NotifyAllEmpty? { SumMonotone(s.workers, t.workers, WorkerRank); }
    if step.NotifyAllFull? { SumMonotone(s.producers, t.producers, ProducerRank); }
  }

  /** Once shutdown has begun, every step but a new call of Enqueue brings the executor
      closer to rest, spurious wake-ups included. */
  lemma DrainingDecreases(s: State, step: Step)
    requires CountsHold(s) && s.shutdown && Enabled(s, step) && !step.Submit?
    ensures Rank(Apply(s, step)) < Rank(s) && Apply(s, step).shutdown
  {
    if step.TryTake? || step.Run? || step.Finish? || step.WakeWorker? {
      WorkerDrains(s, step);
    } else if step.NotifyEmpty? || step.NotifyFull? {
      NotifyDrains(s, step);
    } else if step.TryPush? || step.WakeProducer? {
      SumUpdate(s.producers, step.p, Apply(s, step).producers[step.p], ProducerRank);
    } else if !step.Shutdown? {
      StopperDrains(s, step);
    }
  }

  /** The step an unfinished worker, or failing that the stopper, can take. */
  function NextDrainStep(s: State, w: nat): Step
    requires w < |s.workers|
  {
    if s.stopper.FlagSet? then NotifyAllEmpty
    else if s.stopper.EmptyNotified? then NotifyAllFull
    else match s.workers[w]
      case Ready => TryTake(w)
      case Parked => WakeWorker(w)
      case Took(_) => NotifyFull(w, 0)
      case Running(_) => Run(w)
      case Ran => Finish(w)
      case Exited => Join
  }

  /** Shutdown never gets stuck: until it returns, some step other than a new call or a
      spurious wake-up is enabled. */
  lemma DrainingIsNeverStuck(states: seq<State>, steps: seq<Step>, workers: int, queueSize: int, i: nat)
    returns (step: Step)
    requires IsRun(states, steps, workers, queueSize) && i < |states|
    requires states[i].shutdown && !states[i].stopper.Returned?
    ensures Enabled(states[i], step) && !step.Submit? && !step.WakeWorker? && !step.WakeProducer?
  {
    var s := states[i];
    RunInvariant(states, steps, workers, queueSize, i);
    ParkedCount(s);
    if w :| 0 <= w < |s.workers| && !s.workers[w].Exited? {
      step := NextDrainStep(s, w);
    } else {
      step := NextDrainStep(s, 0);
    }
  }

  /** Before shutdown too: while jobs are queued, somebody can move without a spurious
      wake-up. */
  lemma QueuedJobsAreNeverStuck(states: seq<State>, steps: seq<Step>, workers: int, queueSize: int, i: nat)
    returns (step: Step)
    requires IsRun(states, steps, workers, queueSize) && i < |states| && states[i].queue != []
    ensures Enabled(states[i], step) && !step.Submit? && !step.WakeWorker? && !step.WakeProducer? && !step.Shutdown?
  {
    var s := states[i];
    RunInvariant(states, steps, workers, queueSize, i);
    NoLostWakeup(states, steps, workers, queueSize, i);
    if WorkerAwake(s) {
      var w :| 0 <= w < |s.workers| && s.workers[w].Ready?;
      step := TryTake(w);
    } else if SomeWorkerParked(s) {
      var w :| 0 <= w < |s.workers| && s.workers[w].Parked?;
      var p :| 0 <= p < |s.producers| && s.producers[p].Pushed?;
      step := NotifyEmpty(p, w);
    } else {
      match s.workers[0]
      case Took(_) =>
        if SomeProducerWaiting(s) {
          var p :| 0 <= p < |s.producers| && s.producers[p].Waiting?;
          step := NotifyFull(0, p);
        } else {
          step := NotifyFull(0, 0);
        }
      case Running(_) => step := Run(0);
      case Ran => step := Finish(0);
    }
  }

  // ------------------------------------------------------ the object itself

  datatype PushResult = Accepted | Dropped | MustWait

  datatype TakeResult = Got(job: Job) | Exit | MustPark

  /** The engine's guarded fields and its critical sections, each the effect of one step
      above. */
  class ExecutorEngine {
    const capacity: nat
    var queue: seq<Job>
    var shutdown: bool
    var active: int

    constructor (queueSize: int)
      ensures capacity == (if queueSize < 1 then 1 else queueSize)
      ensures queue == [] && !shutdown && active == 0
    {
      capacity := if queueSize < 1 then 1 else queueSize;
      queue := [];
      shutdown := false;
      active := 0;
    }

    ghost predicate Matches(s: State)
      reads this
    {
      s.capacity == capacity && s.queue == queue && s.shutdown == shutdown && s.active == active
    }

    /** The body of Enqueue's lock: it pushes, drops or waits as TryPush does. */
    method EnqueueLocked(job: Job, ghost s: State, ghost p: nat) returns (r: PushResult)
      requires Matches(s) && Enabled(s, TryPush(p)) && s.producers[p].job == job
      modifies this
      ensures Matches(Apply(s, TryPush(p)))
      ensures match Apply(s, TryPush(p)).producers[p]
              case Pushed => r == Accepted
              case Outside => r == Dropped
              case _ => r == MustWait
      ensures r == Dropped <==> old(shutdown)
      ensures r == Accepted <==> !old(shutdown) && |old(queue)| < capacity
      ensures queue == if r == Accepted then old(queue) + [job] else old(queue)
      ensures shutdown == old(shutdown) && active == old(active)
    {
      if !(|queue| < capacity || shutdown) { return MustWait; }
      if shutdown { return Dropped; }
      queue := queue + [job];
      r := Accepted;
    }

    /** The first lock of WorkerLoop's body. */
    method TakeLocked(ghost s: State, ghost w: nat) returns (r: TakeResult)
      requires Matches(s) && Enabled(s, TryTake(w))
      modifies this
      ensures Matches(Apply(s, TryTake(w)))
      ensures match Apply(s, TryTake(w)).workers[w]
              case Took(job) => r == Got(job)
              case Exited => r == Exit
              case _ => r == MustPark
      ensures r == Exit <==> old(queue) == [] && old(shutdown)
      ensures r == MustPark <==> old(queue) == [] && !old(shutdown)
      ensures r.Got? ==> old(queue) == [r.job] + queue && active == old(active) + 1
      ensures !r.Got? ==> queue == old(queue) && active == old(active)
      ensures shutdown == old(shutdown)
    {
      if !(queue != [] || shutdown) { return MustPark; }
      if queue == [] { return Exit; }
      r := Got(queue[0]);
      queue := queue[1..];
      active := active + 1;
    }

    method FinishLocked(ghost s: State, ghost w: nat)
      requires Matches(s) && Enabled(s, Finish(w))
      modifies this
      ensures Matches(Apply(s, Finish(w)))
      ensures active == old(active) - 1 && queue == old(queue) && shutdown == old(shutdown)
    {
      active := active - 1;
    }

    /** Only the first caller goes on to notify and join. */
    method ShutdownLocked(ghost s: State) returns (first: bool)
      requires Matches(s) && (s.shutdown <==> !s.stopper.NotCalled?)
      modifies this
      ensures first <==> Enabled(s, Shutdown)
      ensures first <==> !old(shutdown)
      ensures shutdown && queue == old(queue) && active == old(active)
      ensures Matches(if first then Apply(s, Shutdown) else s)
    {
      first := !shutdown;
      shutdown := true;
    }
  }
}
