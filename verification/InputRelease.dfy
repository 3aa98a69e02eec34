/**
 When a task's input file may be deleted.

 The rule of managed_input.cpp rests on two indexed lookups over stored identities.
 This module proves that they refine the plain scan that resolves every live input,
 exactly which refreshes break the agreement they rest on, and that on every run
 without one nothing a live task needs is ever removed.
 */
module InputRelease {
  import opened Wrappers
  import opened TaskStore
  import opened TaskEngine
  import opened TaskInvariants
  import opened Interference

  // --------------------------------------------------- lookups against a scan

  /** The reference rule: resolve every live input; keep the file if any of them is
      it, or cannot be resolved. */
  predicate ScanReleases(paths: Paths, rows: Rows, path: string, exclude: TaskId) {
    && path != ""
    && forall id | id in rows && id != exclude && Live(rows[id].status) && rows[id].filepath != "" ::
         Canonicalize(paths, rows[id].filepath).Some? && Canonicalize(paths, rows[id].filepath) != Some(path)
  }

  /** Every live input that can be resolved has its identity stored. */
  ghost predicate Backfilled(paths: Paths, rows: Rows) {
    forall id | id in rows && Live(rows[id].status) && Canonicalize(paths, rows[id].filepath).Some? ::
      rows[id].canonical.Some?
  }

  ghost predicate Resolvable(paths: Paths, rows: Rows) {
    forall id | id in rows && Live(rows[id].status) && rows[id].filepath != "" ::
      Canonicalize(paths, rows[id].filepath).Some?
  }

  lemma LookupRefinesScan(paths: Paths, rows: Rows, path: string, exclude: TaskId)
    requires IdentitiesAgree(paths, rows) && LookupReleases(rows, path, exclude)
    ensures ScanReleases(paths, rows, path, exclude)
  {
    forall id | id in rows && id != exclude && Live(rows[id].status) && rows[id].filepath != ""
      ensures Canonicalize(paths, rows[id].filepath).Some? && Canonicalize(paths, rows[id].filepath) != Some(path)
    {
      assert rows[id].canonical.Some?;
    }
  }

  lemma LookupIsScan(paths: Paths, rows: Rows, path: string, exclude: TaskId)
    requires IdentitiesAgree(paths, rows) && Backfilled(paths, rows)
    ensures LookupReleases(rows, path, exclude) <==> ScanReleases(paths, rows, path, exclude)
  {
    if LookupReleases(rows, path, exclude) {
      LookupRefinesScan(paths, rows, path, exclude);
    }
  }

  /** Some non-empty path differs from every string of a finite set. */
  lemma {:induction false} FreshPath(taken: set<string>) returns (path: string)
    ensures path != "" && path !in taken && forall p | p in taken :: |p| < |path|
    decreases |taken|
  {
    if taken == {} {
      path := "x";
    } else {
      var p :| p in taken;
      var rest := FreshPath(taken - {p});
      path := rest + p + "x";
      forall q | q in taken ensures |q| < |path| {
        if q != p { assert q in taken - {p}; }
      }
    }
  }

  /** Backfill is exactly what makes the lookups as permissive as the scan: over a
      table whose live inputs all resolve, the two agree on every question if and only
      if every one of them has its identity stored. */
  lemma AgreementIsBackfill(paths: Paths, rows: Rows)
    requires IdentitiesAgree(paths, rows) && Resolvable(paths, rows)
    ensures (forall path, exclude :: LookupReleases(rows, path, exclude) == ScanReleases(paths, rows, path, exclude))
            <==> Backfilled(paths, rows)
  {
    if Backfilled(paths, rows) {
      forall path, exclude ensures LookupReleases(rows, path, exclude) == ScanReleases(paths, rows, path, exclude) {
        LookupIsScan(paths, rows, path, exclude);
      }
    } else {
      var id :| id in rows && Live(rows[id].status) && Canonicalize(paths, rows[id].filepath).Some?
        && rows[id].canonical.None?;
      var identities := set j | j in rows && Canonicalize(paths, rows[j].filepath).Some? ::
                          Canonicalize(paths, rows[j].filepath).value;
      var path := FreshPath(identities);
      var exclude := FreshPath(rows.Keys);
      assert UnknownLiveIdentity(rows, exclude);
      forall j | j in rows && Canonicalize(paths, rows[j].filepath).Some?
        ensures Canonicalize(paths, rows[j].filepath) != Some(path)
      {
        assert Canonicalize(paths, rows[j].filepath).value in identities;
      }
      assert ScanReleases(paths, rows, path, exclude);
      assert LookupReleases(rows, path, exclude) != ScanReleases(paths, rows, path, exclude);
    }
  }

  /** The startup backfill keeps identities right and changes no other column, and it
      leaves every resolvable live identity stored if and only if it skipped none of
      them. */
  lemma BackfillFills(paths: Paths, rows: Rows, skipped: set<TaskId>)
    requires IdentitiesAgree(paths, rows)
    ensures var filled := BackfillCanonicalInputs(paths, rows, skipped);
            && IdentitiesAgree(paths, filled) && filled.Keys == rows.Keys
            && (forall id | id in rows :: filled[id].(canonical := rows[id].canonical) == rows[id])
            && (Backfilled(paths, filled) <==>
                forall id | id in rows && id in skipped && Live(rows[id].status) && rows[id].canonical.None? ::
                  Canonicalize(paths, rows[id].filepath).None?)
  {
    var filled := BackfillCanonicalInputs(paths, rows, skipped);
    forall id | id in rows && id in skipped ensures filled[id] == rows[id] {
    }
  }

  // ------------------------------------------------------------ whole runs

  /** The step is a refresh that writes: no fault, and the row is still queued. */
  predicate RefreshWrites(s: State, step: Step) {
    && step.Refresh? && !step.fault && s.sched.Looked? && s.sched.found.Some?
    && s.sched.found.value.0 in s.rows && s.rows[s.sched.found.value.0].status == Queued
  }

  /** The identity stored for the row a refresh rewrites. */
  function RefreshedIdentity(s: State, step: Step): Option<string>
    requires RefreshWrites(s, step)
  {
    s.rows[s.sched.found.value.0].canonical
  }

  /** The step is no refresh that leaves a wrong identity behind. */
  predicate KeepsIdentities(c: Config, s: State, step: Step) {
    RefreshWrites(s, step) && RefreshedIdentity(s, step).Some? ==>
      Canonicalize(c.paths, s.sched.req.filepath) == RefreshedIdentity(s, step)
  }

  /** The step is no refresh that leaves a wrong or a missing identity behind. */
  predicate KeepsBackfill(c: Config, s: State, step: Step) {
    RefreshWrites(s, step) ==> Canonicalize(c.paths, s.sched.req.filepath) == RefreshedIdentity(s, step)
  }

  /** Every remaining row keeps its input columns, and none comes back to life. */
  ghost predicate InputsUnmoved(rows: Rows, rows': Rows) {
    forall id | id in rows' ::
      && id in rows
      && rows'[id].filepath == rows[id].filepath && rows'[id].canonical == rows[id].canonical
      && (Live(rows'[id].status) ==> Live(rows[id].status))
  }

  lemma StepMovesNoInput(c: Config, s: State, step: Step)
    requires Enabled(c, s, step) && !step.Refresh? && !step.Create? && !step.Restart?
    ensures InputsUnmoved(s.rows, Apply(c, s, step).rows)
  {
    if !SchedulerWrites(step) {
      StepWhileScheduling(c, s, step);
      forall id | id in Apply(c, s, step).rows
        ensures id in s.rows && RowKeepsContent(s.rows[id], Apply(c, s, step).rows[id])
      {
      }
    }
  }

  lemma RestartKeepsIdentities(c: Config, s: State, step: Step)
    requires Enabled(c, s, step) && step.Restart? && IdentitiesAgree(c.paths, s.rows)
    ensures IdentitiesAgree(c.paths, Apply(c, s, step).rows)
    ensures Backfilled(c.paths, s.rows) ==> Backfilled(c.paths, Apply(c, s, step).rows)
  {
    var filled := BackfillCanonicalInputs(c.paths, s.rows, step.skipped);
    BackfillFills(c.paths, s.rows, step.skipped);
    assert InputsUnmoved(filled, Apply(c, s, step).rows);
  }

  lemma CreateKeepsIdentities(c: Config, s: State, step: Step)
    requires Enabled(c, s, step) && step.Create? && IdentitiesAgree(c.paths, s.rows)
    ensures IdentitiesAgree(c.paths, Apply(c, s, step).rows)
    ensures Backfilled(c.paths, s.rows) ==> Backfilled(c.paths, Apply(c, s, step).rows)
  {
  }

  lemma RefreshIdentities(c: Config, s: State, step: Step)
    requires Enabled(c, s, step) && step.Refresh? && IdentitiesAgree(c.paths, s.rows)
    ensures IdentitiesAgree(c.paths, Apply(c, s, step).rows) <==> KeepsIdentities(c, s, step)
    ensures Backfilled(c.paths, s.rows) ==>
      (IdentitiesAgree(c.paths, Apply(c, s, step).rows) && Backfilled(c.paths, Apply(c, s, step).rows)
       <==> KeepsBackfill(c, s, step))
  {
    if RefreshWrites(s, step) {
      var id := s.sched.found.value.0;
      var after := Apply(c, s, step).rows;
      assert after[id].canonical == s.rows[id].canonical && after[id].filepath == s.sched.req.filepath;
      forall j | j in s.rows && j != id ensures after[j] == s.rows[j] {
      }
    }
  }

  /** The only step that can break the agreement between stored identities and paths is a
      refresh that writes: it keeps it if and only if the row has no identity stored or
      the new path resolves to it.  It keeps the backfill too if and only if the new path
      resolves to exactly what is stored. */
  lemma StepKeepsIdentitiesIff(c: Config, s: State, step: Step)
    requires Enabled(c, s, step) && IdentitiesAgree(c.paths, s.rows)
    ensures IdentitiesAgree(c.paths, Apply(c, s, step).rows) <==> KeepsIdentities(c, s, step)
    ensures Backfilled(c.paths, s.rows) ==>
      (IdentitiesAgree(c.paths, Apply(c, s, step).rows) && Backfilled(c.paths, Apply(c, s, step).rows)
       <==> KeepsBackfill(c, s, step))
  {
    if step.Restart? {
      RestartKeepsIdentities(c, s, step);
    } else if step.Create? {
      CreateKeepsIdentities(c, s, step);
    } else if step.Refresh? {
      RefreshIdentities(c, s, step);
    } else {
      StepMovesNoInput(c, s, step);
    }
  }

  /** No refresh before step i left a wrong identity behind. */
  ghost predicate IdentitiesKept(c: Config, states: seq<State>, steps: seq<Step>, i: nat)
    requires |states| == |steps| + 1 && i <= |steps|
  {
    forall k | 0 <= k < i :: KeepsIdentities(c, states[k], steps[k])
  }

  /** Nor a missing one. */
  ghost predicate BackfillKept(c: Config, states: seq<State>, steps: seq<Step>, i: nat)
    requires |states| == |steps| + 1 && i <= |steps|
  {
    forall k | 0 <= k < i :: KeepsBackfill(c, states[k], steps[k])
  }

  lemma {:induction false} RunKeepsIdentities(c: Config, states: seq<State>, steps: seq<Step>, i: nat)
    requires IsRun(c, states, steps) && i <= |steps| && IdentitiesKept(c, states, steps, i)
    ensures IdentitiesAgree(c.paths, states[i].rows)
    ensures Backfilled(c.paths, states[0].rows) && BackfillKept(c, states, steps, i) ==>
      Backfilled(c.paths, states[i].rows)
  {
    if i > 0 {
      RunKeepsIdentities(c, states, steps, i - 1);
      StepAt(c, states, steps, i - 1);
      StepKeepsIdentitiesIff(c, states[i - 1], steps[i - 1]);
    }
  }

  /** In every state of a run that starts from a backfilled table and has no refresh that
      moves a queued task to another input, the two lookups answer as the full scan
      would. */
  lemma LookupIsScanOnEveryRun(
    c: Config, states: seq<State>, steps: seq<Step>, i: nat, path: string, exclude: TaskId)
    requires IsRun(c, states, steps) && i <= |steps| && BackfillKept(c, states, steps, i)
    requires Backfilled(c.paths, states[0].rows)
    ensures LookupReleases(states[i].rows, path, exclude) <==> ScanReleases(c.paths, states[i].rows, path, exclude)
  {
    forall k | 0 <= k < i ensures KeepsIdentities(c, states[k], steps[k]) {
      assert KeepsBackfill(c, states[k], steps[k]);
    }
    RunKeepsIdentities(c, states, steps, i);
    LookupIsScan(c.paths, states[i].rows, path, exclude);
  }

  /** What a release step removed was the releasable path of a finished task. */
  lemma RemovedIsReleasable(c: Config, s: State, step: Step, path: string) returns (own: TaskId)
    requires Enabled(c, s, step) && Owned(s) && (step.ReleaseInput? || step.CancelRelease?)
    requires path in s.files && path !in Apply(c, s, step).files
    ensures Finished(s, own)
    ensures c.paths.resolve(c.managedDir) == Some(c.paths.parent(path)) && LookupReleases(s.rows, path, own)
  {
    if step.ReleaseInput? {
      own := s.workers[step.w].id;
      assert WorkerOwns(s, s.workers[step.w]);
    } else {
      own := step.id;
    }
  }

  /** Whenever the finalizer or CancelTask removes a file, on any run in which no refresh
      has left a wrong identity behind, the file lies directly in the managed directory
      and no live row, the releasing task's own included, resolves to it at that
      moment. */
  lemma RemovedInputIsUnreferenced(c: Config, states: seq<State>, steps: seq<Step>, i: nat, path: string)
    requires IsRun(c, states, steps) && i < |steps| && IdentitiesKept(c, states, steps, i)
    requires steps[i].ReleaseInput? || steps[i].CancelRelease?
    requires path in states[i].files && path !in states[i + 1].files
    ensures c.paths.resolve(c.managedDir) == Some(c.paths.parent(path))
    ensures forall id | id in states[i].rows && Live(states[i].rows[id].status) && states[i].rows[id].filepath != "" ::
              c.paths.resolve(states[i].rows[id].filepath) != Some(path)
  {
    var s := states[i];
    StepAt(c, states, steps, i);
    RunInvariant(c, states, steps, i);
    RunKeepsIdentities(c, states, steps, i);
    var own := RemovedIsReleasable(c, s, steps[i], path);
    LookupRefinesScan(c.paths, s.rows, path, own);
    forall id | id in s.rows && Live(s.rows[id].status) && s.rows[id].filepath != ""
      ensures c.paths.resolve(s.rows[id].filepath) != Some(path)
    {
      assert id != own;
    }
  }

  // ------------------------------------------- what a path-changing refresh breaks

  /** A refresh keeps stored identities right exactly when the row has none, or the
      new input resolves to the stored one. */
  lemma RefreshKeepsIdentitiesIff(paths: Paths, rows: Rows, id: TaskId, req: Request, now: int)
    requires IdentitiesAgree(paths, rows) && id in rows && rows[id].status == Queued
    ensures IdentitiesAgree(paths, UpdateTaskForDebounce(rows, id, req, now).value)
            <==> rows[id].canonical.None? || Canonicalize(paths, req.filepath) == rows[id].canonical
  {
    var after := UpdateTaskForDebounce(rows, id, req, now).value;
    assert after[id].canonical == rows[id].canonical && after[id].filepath == req.filepath;
    forall j | j in rows && j != id ensures after[j] == rows[j] {
    }
  }

  /** After a refresh, the refreshed task's new input is protected from release by any
      other task exactly when it resolves to the identity stored for the old one: when
      it resolves elsewhere and nobody else holds it, the lookups release a file that a
      live task resolves to. */
  lemma RefreshedInputIsProtectedIff(
    paths: Paths, rows: Rows, id: TaskId, req: Request, now: int, path: string, exclude: TaskId)
    requires IdentitiesAgree(paths, rows) && id in rows && rows[id].status == Queued && rows[id].canonical.Some?
    requires Canonicalize(paths, req.filepath) == Some(path) && exclude != id
    requires forall j | j in rows && j != id && Live(rows[j].status) && rows[j].filepath != "" ::
               rows[j].canonical.Some? && (j != exclude ==> rows[j].canonical != Some(path))
    ensures var after := UpdateTaskForDebounce(rows, id, req, now).value;
            && Live(after[id].status) && Canonicalize(paths, after[id].filepath) == Some(path)
            && !ScanReleases(paths, after, path, exclude)
            && (LookupReleases(after, path, exclude) <==> rows[id].canonical != Some(path))
  {
    var after := UpdateTaskForDebounce(rows, id, req, now).value;
    forall j | j in rows && j != id ensures after[j] == rows[j] {
    }
    if rows[id].canonical == Some(path) {
      assert id in after && Live(after[id].status) && after[id].canonical == Some(path);
      assert NamedByLiveRow(after, path, exclude);
    }
  }

  lemma ExtendRun(c: Config, states: seq<State>, steps: seq<Step>, step: Step)
    requires IsRun(c, states, steps) && Enabled(c, states[|steps|], step)
    ensures IsRun(c, states + [Apply(c, states[|steps|], step)], steps + [step])
  {
    forall i | 0 <= i < |steps|
      ensures Enabled(c, states[i], steps[i]) && states[i + 1] == Apply(c, states[i], steps[i])
    {
      StepAt(c, states, steps, i);
    }
  }

  /** Every path resolves to itself and lies in the managed directory "d". */
  function FlatConfig(): Config {
    Config(Paths(p => Some(p), p => "d"), "d")
  }

  /** Submit a document with input "a". */
  lemma SubmitRun() returns (states: seq<State>, steps: seq<Step>)
    ensures IsRun(FlatConfig(), states, steps)
    ensures states[|steps|] ==
            State(map["1" := Row("n", "doc", 1, "h1", "a", Some("a"), Queued, false, None, 0, 0, None)],
                  {"1"}, {}, Free, map[], {}, {"a", "b"})
  {
    var c := FlatConfig();
    var s := State(map[], {}, {}, Free, map[], {}, {"a", "b"});
    states, steps := [s], [];
    var lookup := Lookup(Request("n", "doc", 1, "h1", "a"), 5, 0, false, None);
    ExtendRun(c, states, steps, lookup);
    states, steps, s := states + [Apply(c, s, lookup)], steps + [lookup], Apply(c, s, lookup);
    var create := Create(false, "1", 0);
    ExtendRun(c, states, steps, create);
    states, steps := states + [Apply(c, s, create)], steps + [create];
  }

  /** Resubmit that document with other content in input "b" within the window. */
  lemma RefreshRun() returns (states: seq<State>, steps: seq<Step>)
    ensures IsRun(FlatConfig(), states, steps)
    ensures states[|steps|] ==
            State(map["1" := Row("n", "doc", 1, "h2", "b", Some("a"), Queued, false, None, 0, 1, None)],
                  {"1"}, {}, Free, map[], {}, {"a", "b"})
  {
    var c := FlatConfig();
    states, steps := SubmitRun();
    var s := states[|steps|];
    var req := Request("n", "doc", 1, "h2", "b");
    var lookup := Lookup(req, 5, 1, false, Some("1"));
    ExtendRun(c, states, steps, lookup);
    states, steps, s := states + [Apply(c, s, lookup)], steps + [lookup], Apply(c, s, lookup);
    assert s.sched == Looked(req, Some(("1", s.rows["1"])));
    var refresh := Refresh(false, 1);
    ExtendRun(c, states, steps, refresh);
    states, steps, s := states + [Apply(c, s, refresh)], steps + [refresh], Apply(c, s, refresh);
    var reread := Reread(false);
    ExtendRun(c, states, steps, reread);
    states, steps := states + [Apply(c, s, reread)], steps + [reread];
  }

  /** The failure is reachable: after that refresh, submit a second task with input
      "b" and cancel it.  The cancel removes "b" while the first task, still queued,
      resolves to it. */
  lemma RefreshRunRemovesLiveInput() returns (states: seq<State>, steps: seq<Step>, i: nat)
    ensures IsRun(FlatConfig(), states, steps) && i < |steps| && steps[i].CancelRelease?
    ensures "b" in states[i].files && "b" !in states[i + 1].files
    ensures "1" in states[i].rows && states[i].rows["1"].status == Queued
    ensures FlatConfig().paths.resolve(states[i].rows["1"].filepath) == Some("b")
  {
    var c := FlatConfig();
    states, steps := RefreshRun();
    i := |steps| + 3;
    var s := states[|steps|];
    var lookup := Lookup(Request("n", "", 1, "h3", "b"), 5, 2, false, None);
    ExtendRun(c, states, steps, lookup);
    states, steps, s := states + [Apply(c, s, lookup)], steps + [lookup], Apply(c, s, lookup);
    var create := Create(false, "2", 2);
    ExtendRun(c, states, steps, create);
    states, steps, s := states + [Apply(c, s, create)], steps + [create], Apply(c, s, create);
    var cancel := Cancel("2", 3);
    ExtendRun(c, states, steps, cancel);
    states, steps, s := states + [Apply(c, s, cancel)], steps + [cancel], Apply(c, s, cancel);
    assert s.rows["1"].status == Queued && s.rows["2"].status == Cancelled;
    var release := CancelRelease("2", s.rows["2"], false);
    ExtendRun(c, states, steps, release);
    states, steps := states + [Apply(c, s, release)], steps + [release];
    assert ReleasablePath(c.paths, "d", s.rows, "b", "2") == Some("b");
  }
}
