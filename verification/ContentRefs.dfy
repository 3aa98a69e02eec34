/**
 Reference counting of content-addressed files
 (src/catalog/default_content_ref_store.cpp) under statement failures.

 content_refs is authoritative; file_locations.ref_count is an aggregate kept beside
 it.  Every statement may fail on its own; a ROLLBACK does not.
 */
module ContentRefs {
  import opened Wrappers

  datatype Ref = Ref(file: string, ns: string, doc: string)

  /** A row of file_locations: count, and the instant of the soft delete if any. */
  datatype Location = Location(refCount: int, deleted: bool, deletedAt: Option<int>)

  /** `refs` maps each content_refs row to whether it is active. */
  datatype Db = Db(refs: map<Ref, bool>, locations: map<string, Location>)

  datatype Error = TransactionRetry | InternalError | RefCountNegative

  /** Which statements of one IncrementRef fail. */
  datatype IncrementFaults = IncrementFaults(
    begin: bool, probePrepare: bool, probeStep: bool, upsert: bool, bump: bool, commit: bool)

  /** Which statements of one DecrementRef fail; `read` is the inner SELECT of the count. */
  datatype DecrementFaults = DecrementFaults(
    begin: bool, remove: bool, read: bool, write: bool, commit: bool, countPrepare: bool, countStep: bool)

  predicate Active(db: Db, ref: Ref) {
    ref in db.refs && db.refs[ref]
  }

  // ------------------------------------------------------- specifications

  function AddCount(db: Db, file: string, n: int): map<string, Location> {
    if file in db.locations
    then db.locations[file := db.locations[file].(refCount := db.locations[file].refCount + n)]
    else db.locations
  }

  function Increment(db: Db, ref: Ref, f: IncrementFaults): (Db, Option<Error>) {
    if f.begin then (db, Some(TransactionRetry))
    else if f.probePrepare then (db, Some(InternalError))
    else if Active(db, ref) && !f.probeStep then (db, if f.commit then Some(TransactionRetry) else None)
    else if f.upsert || f.bump then (db, Some(InternalError))
    else if f.commit then (db, Some(TransactionRetry))
    else (Db(db.refs[ref := true], AddCount(db, ref.file, 1)), None)
  }

  /** What the inner SELECT yields: -1 when it fails or finds no row. */
  function ReadCount(db: Db, file: string, fails: bool): int {
    if fails || file !in db.locations then -1 else db.locations[file].refCount
  }

  function Decrement(db: Db, ref: Ref, f: DecrementFaults): (Db, Result<int, Error>) {
    if f.begin then (db, Err(TransactionRetry))
    else if f.remove then (db, Err(InternalError))
    else if !Active(db, ref) then (db, if f.commit then Err(TransactionRetry) else CountAfter(db, ref.file, f))
    else if ReadCount(db, ref.file, f.read) == 0 then (db, Err(RefCountNegative))
    else if ReadCount(db, ref.file, f.read) > 0 && f.write then (db, Err(InternalError))
    else if f.commit then (db, Err(TransactionRetry))
    else
      var after := Db(db.refs[ref := false],
                      if ReadCount(db, ref.file, f.read) > 0 then AddCount(db, ref.file, -1) else db.locations);
      (after, CountAfter(after, ref.file, f))
  }

  function CountAfter(db: Db, file: string, f: DecrementFaults): Result<int, Error> {
    if f.countPrepare then Err(InternalError)
    else Ok(if f.countStep || file !in db.locations then 0 else db.locations[file].refCount)
  }

  function GcCandidates(db: Db, before: int): set<string> {
    set file | file in db.locations
               && db.locations[file].refCount <= 0 && db.locations[file].deleted
               && db.locations[file].deletedAt.Some? && db.locations[file].deletedAt.value < before
  }

  // ------------------------------------------------------------ the store

  class DefaultContentRefStore {
    var db: Db

    constructor (db: Db)
      ensures this.db == db
    {
      this.db := db;
    }

    method IncrementRef(ref: Ref, f: IncrementFaults) returns (error: Option<Error>)
      modifies this
      ensures (db, error) == Increment(old(db), ref, f)
    {
      if f.begin { return Some(TransactionRetry); }
      var saved := db;
      if f.probePrepare { return Some(InternalError); }
      var alreadyActive := !f.probeStep && Active(db, ref);
      if !alreadyActive {
        if f.upsert { db := saved; return Some(InternalError); }
        db := db.(refs := db.refs[ref := true]);
        if f.bump { db := saved; return Some(InternalError); }
        if ref.file in db.locations {
          var location := db.locations[ref.file];
          db := db.(locations := db.locations[ref.file := location.(refCount := location.refCount + 1)]);
        }
      }
      if f.commit { db := saved; return Some(TransactionRetry); }
      error := None;
    }

    method DecrementRef(ref: Ref, f: DecrementFaults) returns (r: Result<int, Error>)
      modifies this
      ensures (db, r) == Decrement(old(db), ref, f)
    {
      if f.begin { return Err(TransactionRetry); }
      var saved := db;
      if f.remove { return Err(InternalError); }
      var removed := Active(db, ref);
      if removed {
        db := db.(refs := db.refs[ref := false]);
        var current := -1;
        if !f.read && ref.file in db.locations { current := db.locations[ref.file].refCount; }
        if current == 0 { db := saved; return Err(RefCountNegative); }
        if current > 0 {
          if f.write { db := saved; return Err(InternalError); }
          var location := db.locations[ref.file];
          db := db.(locations := db.locations[ref.file := location.(refCount := location.refCount - 1)]);
        }
      }
      if f.commit { db := saved; return Err(TransactionRetry); }
      r := GetRefCountLocked(ref.file, f);
    }

    method GetRefCountLocked(file: string, f: DecrementFaults) returns (r: Result<int, Error>)
      ensures r == CountAfter(db, file, f)
    {
      if f.countPrepare { return Err(InternalError); }
      var count := 0;
      if !f.countStep && file in db.locations { count := db.locations[file].refCount; }
      r := Ok(count);
    }

    method GetGCCandidates(before: int) returns (files: set<string>)
      ensures files == GcCandidates(db, before)
    {
      files := set file | file in db.locations && db.locations[file].refCount <= 0 && db.locations[file].deleted
                          && db.locations[file].deletedAt.Some? && db.locations[file].deletedAt.value < before;
    }
  }

  // --------------------------------------------------------------- counting

  function ActiveRefs(db: Db, file: string): set<Ref> {
    set ref | ref in db.refs && ref.file == file && db.refs[ref]
  }

  /** How far the aggregate is ahead of the references it counts. */
  function Drift(db: Db, file: string): int
    requires file in db.locations
  {
    db.locations[file].refCount - |ActiveRefs(db, file)|
  }

  lemma ActivateCounts(db: Db, ref: Ref, file: string, locations: map<string, Location>)
    ensures |ActiveRefs(Db(db.refs[ref := true], locations), file)|
            == |ActiveRefs(db, file)| + if ref.file == file && !Active(db, ref) then 1 else 0
  {
    var after := Db(db.refs[ref := true], locations);
    if ref.file == file {
      assert ActiveRefs(after, file) == ActiveRefs(db, file) + {ref};
    } else {
      assert ActiveRefs(after, file) == ActiveRefs(db, file);
    }
  }

  lemma DeactivateCounts(db: Db, ref: Ref, file: string, locations: map<string, Location>)
    requires Active(db, ref)
    ensures |ActiveRefs(Db(db.refs[ref := false], locations), file)|
            == |ActiveRefs(db, file)| - if ref.file == file then 1 else 0
  {
    var after := Db(db.refs[ref := false], locations);
    if ref.file == file {
      assert ActiveRefs(after, file) == ActiveRefs(db, file) - {ref};
    } else {
      assert ActiveRefs(after, file) == ActiveRefs(db, file);
    }
  }

  // ------------------------------------------------------------------- runs

  datatype Op =
    | Add(ref: Ref, inc: IncrementFaults)
    | Remove(ref: Ref, dec: DecrementFaults)

  function ApplyOp(db: Db, op: Op): Db {
    match op
    case Add(ref, f) => Increment(db, ref, f).0
    case Remove(ref, f) => Decrement(db, ref, f).0
  }

  function Run(db: Db, ops: seq<Op>): Db
    decreases ops
  {
    if ops == [] then db else Run(ApplyOp(db, ops[0]), ops[1..])
  }

  /** The operation commits although the read it decides on failed: the probe of an
      already active reference, or the count of a reference just removed. */
  predicate Slips(db: Db, op: Op, file: string) {
    match op
    case Add(ref, f) =>
      && ref.file == file && Active(db, ref) && f.probeStep
      && !f.begin && !f.probePrepare && !f.upsert && !f.bump && !f.commit
    case Remove(ref, f) =>
      ref.file == file && Active(db, ref) && f.read && !f.begin && !f.remove && !f.commit
  }

  function SlipCount(db: Db, ops: seq<Op>, file: string): nat
    decreases ops
  {
    if ops == [] then 0
    else (if Slips(db, ops[0], file) then 1 else 0) + SlipCount(ApplyOp(db, ops[0]), ops[1..], file)
  }

  lemma OpDrift(db: Db, op: Op, file: string)
    requires file in db.locations && Drift(db, file) >= 0
    ensures file in ApplyOp(db, op).locations
    ensures Drift(ApplyOp(db, op), file) == Drift(db, file) + if Slips(db, op, file) then 1 else 0
  {
    var after := ApplyOp(db, op);
    match op
    case Add(ref, f) =>
      ActivateCounts(db, ref, file, after.locations);
    case Remove(ref, f) =>
      if Active(db, ref) {
        DeactivateCounts(db, ref, file, after.locations);
        if ref.file == file {
          assert ref in ActiveRefs(db, file);
        }
      }
  }

  /** Conservation: over any run in which any statement may fail, the aggregate moves
      away from the number of active references by exactly the number of slips. */
  lemma {:induction false} DriftIsSlips(db: Db, ops: seq<Op>, file: string)
    requires file in db.locations && Drift(db, file) >= 0
    ensures file in Run(db, ops).locations
    ensures Drift(Run(db, ops), file) == Drift(db, file) + SlipCount(db, ops, file)
    decreases ops
  {
    if ops != [] {
      OpDrift(db, ops[0], file);
      DriftIsSlips(ApplyOp(db, ops[0]), ops[1..], file);
    }
  }

  /** A slip, on the smallest case: adding a reference that is already active, when the
      probe for it fails, leaves a count of two for one reference. */
  lemma OneSlip() returns (db: Db, op: Op)
    ensures "f" in db.locations && Drift(db, "f") == 0 && Slips(db, op, "f")
    ensures var after := ApplyOp(db, op);
            "f" in after.locations && after.locations["f"].refCount == 2 && |ActiveRefs(after, "f")| == 1
            && Drift(after, "f") == 1
  {
    var ref := Ref("f", "n", "d");
    db := Db(map[ref := true], map["f" := Location(1, false, None)]);
    op := Add(ref, IncrementFaults(false, false, true, false, false, false));
    assert ActiveRefs(db, "f") == {ref};
    OpDrift(db, op, "f");
  }

  /** What a caller is told.  An IncrementRef that returns no error leaves the reference
      active, and has raised the count of a known file by one unless a readable probe found
      the reference active already; with an error nothing has changed. */
  lemma IncrementTellsTrue(db: Db, ref: Ref, f: IncrementFaults)
    ensures var (after, error) := Increment(db, ref, f);
            && (error.Some? ==> after == db)
            && (error.None? ==> ref in after.refs && after.refs[ref])
            && (error.None? ==> forall other | other != ref :: (other in after.refs) == (other in db.refs)
                                  && (other in db.refs ==> after.refs[other] == db.refs[other]))
            && after.locations.Keys == db.locations.Keys
            && (error.None? && ref.file in db.locations ==>
                  after.locations[ref.file].refCount ==
                  db.locations[ref.file].refCount
                  + if ref in db.refs && db.refs[ref] && !f.probeStep then 0 else 1)
    ensures f == IncrementFaults(false, false, false, false, false, false) ==> Increment(db, ref, f).1.None?
  {
  }

  /** A DecrementRef that reports a count leaves the reference inactive, and the count it
      reports is the file's, one lower if the reference was active and the count could be
      read; a refused one has changed nothing. */
  lemma DecrementTellsTrue(db: Db, ref: Ref, f: DecrementFaults)
    ensures var (after, r) := Decrement(db, ref, f);
            && (r.Ok? ==> !(ref in after.refs && after.refs[ref]))
            && (r.Ok? && !f.countStep ==>
                  r.value == if ref.file in after.locations then after.locations[ref.file].refCount else 0)
            && (r == Err(RefCountNegative) ==>
                  after == db && ref.file in db.locations && db.locations[ref.file].refCount == 0)
            && (forall other | other != ref :: (other in after.refs) == (other in db.refs)
                  && (other in db.refs ==> after.refs[other] == db.refs[other]))
            && after.locations.Keys == db.locations.Keys
            && (r.Ok? && ref.file in db.locations ==>
                  after.locations[ref.file].refCount ==
                  db.locations[ref.file].refCount
                  - if ref in db.refs && db.refs[ref] && !f.read && db.locations[ref.file].refCount > 0 then 1 else 0)
    ensures var fine := DecrementFaults(false, false, false, false, false, false, false);
            f == fine ==>
              (Decrement(db, ref, f).1.Ok? <==>
               !(ref in db.refs && db.refs[ref] && ref.file in db.locations && db.locations[ref.file].refCount == 0))
  {
  }

  /** Which files the collector is offered. */
  lemma CandidateIff(db: Db, before: int, file: string)
    ensures file in GcCandidates(db, before) <==>
      && file in db.locations && db.locations[file].refCount <= 0 && db.locations[file].deleted
      && db.locations[file].deletedAt.Some? && db.locations[file].deletedAt.value < before
  {
  }

  predicate ReadsSucceed(op: Op) {
    match op
    case Add(_, f) => !f.probeStep
    case Remove(_, f) => !f.read
  }

  lemma {:induction false} NoSlipWithoutFailedRead(db: Db, ops: seq<Op>, file: string)
    requires forall i | 0 <= i < |ops| :: ReadsSucceed(ops[i])
    ensures SlipCount(db, ops, file) == 0
    decreases ops
  {
    if ops != [] {
      NoSlipWithoutFailedRead(ApplyOp(db, ops[0]), ops[1..], file);
    }
  }

  /** A file whose count starts equal to its active references: the count never falls
      below them on any run, and stays equal on every run whose reads succeed, failed
      writes and commits notwithstanding. */
  lemma CountCoversReferences(db: Db, ops: seq<Op>, file: string)
    requires file in db.locations && Drift(db, file) == 0
    ensures file in Run(db, ops).locations
    ensures Run(db, ops).locations[file].refCount >= |ActiveRefs(Run(db, ops), file)|
    ensures (forall i | 0 <= i < |ops| :: ReadsSucceed(ops[i])) ==>
              Run(db, ops).locations[file].refCount == |ActiveRefs(Run(db, ops), file)|
  {
    DriftIsSlips(db, ops, file);
    if forall i | 0 <= i < |ops| :: ReadsSucceed(ops[i]) {
      NoSlipWithoutFailedRead(db, ops, file);
    }
  }

  /** DecrementRef never reports a negative count for such a file, and the garbage
      collector is never offered a file that a reference still needs. */
  lemma NeverNegativeNeverCollected(db: Db, ops: seq<Op>, ref: Ref, f: DecrementFaults, before: int)
    requires ref.file in db.locations && Drift(db, ref.file) == 0
    ensures var (after, r) := Decrement(Run(db, ops), ref, f);
            && r != Err(RefCountNegative) && (r.Ok? ==> r.value >= 0)
            && (ref.file in GcCandidates(after, before) ==> ActiveRefs(after, ref.file) == {})
    ensures Active(Run(db, ops), ref) ==> ref.file !in GcCandidates(Run(db, ops), before)
  {
    var now := Run(db, ops);
    CountCoversReferences(db, ops, ref.file);
    if Active(now, ref) {
      assert ref in ActiveRefs(now, ref.file);
    }
    OpDrift(now, Remove(ref, f), ref.file);
  }
}
