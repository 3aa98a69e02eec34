/**
 The signing-secret lifecycle (src/auth/jwt_secret_service.cpp) over the auth_secrets
 table: startup, rotation with a 24-hour dual-key window, and cleanup.  Statements may
 fail; a rotation that fails is rolled back, an environment override is not a
 transaction.
 */
module JwtSecrets {
  import opened Wrappers
  import Base64Url

  type Secret = seq<Base64Url.Byte>

  datatype Status = Current | Prev | Retired

  /** Rows in insertion order; nothing ever deletes one. */
  datatype Row = Row(id: string, value: Secret, status: Status, expiresAt: Option<int>)

  datatype Service = Service(rows: seq<Row>, current: Secret, up: bool)

  const PREV_WINDOW_MS := 24 * 60 * 60 * 1000

  // ------------------------------------------------------------- statements

  function Moved(row: Row, from: Status, to: Status, expires: Option<int>): Row {
    if row.status != from then row
    else row.(status := to, expiresAt := if expires.Some? then expires else row.expiresAt)
  }

  /** UPDATE ... SET status = `to` [, expires_at = e] WHERE status = `from`. */
  function SetStatus(rows: seq<Row>, from: Status, to: Status, expires: Option<int>): seq<Row> {
    seq(|rows|, i requires 0 <= i < |rows| => Moved(rows[i], from, to, expires))
  }

  predicate HasId(rows: seq<Row>, id: string) {
    exists i | 0 <= i < |rows| :: rows[i].id == id
  }

  /** InsertCurrentSecret: fails on its own or on a duplicate id. */
  function Insert(rows: seq<Row>, id: string, secret: Secret, fault: bool): Option<seq<Row>> {
    if fault || HasId(rows, id) then None else Some(rows + [Row(id, secret, Current, None)])
  }

  /** The value the SELECT ... LIMIT 1 of a current row yields; "" when there is none. */
  function FirstCurrent(rows: seq<Row>): Secret {
    if rows == [] then [] else if rows[0].status == Current then rows[0].value else FirstCurrent(rows[1..])
  }

  predicate ExpiredPrev(row: Row, now: int) {
    row.status == Prev && row.expiresAt.Some? && row.expiresAt.value <= now
  }

  // ------------------------------------------------------------- operations

  /** Which statements of a start fail.  `prepare` and `step` are those of the SELECT: a
      failing step is not told from an empty result. */
  datatype StartFaults = StartFaults(demote: bool, prepare: bool, step: bool, generate: bool, insert: bool)

  function Loaded(rows: seq<Row>, f: StartFaults): Secret {
    if f.step then [] else FirstCurrent(rows)
  }

  /** `env` is CORTRIX_JWT_SECRET ("" when unset), `generated` a fresh random secret.  A
      start that fails leaves the in-memory secret, here `current`, as it was. */
  function LoadOrInit(
    rows: seq<Row>, current: Secret, env: Secret, generated: Secret, id: string, f: StartFaults): Service
  {
    if env != [] then
      if f.demote then Service(rows, current, false)
      else
        var demoted := SetStatus(rows, Current, Retired, None);
        var inserted := Insert(demoted, id, env, f.insert);
        if inserted.None? then Service(demoted, current, false) else Service(inserted.value, env, true)
    else if f.prepare then Service(rows, current, false)
    else if Loaded(rows, f) != [] then Service(rows, Loaded(rows, f), true)
    else if f.generate then Service(rows, current, false)
    else
      var inserted := Insert(rows, id, generated, f.insert);
      if inserted.None? then Service(rows, current, false) else Service(inserted.value, generated, true)
  }

  /** The two updates of a rotation: prev retires, current becomes prev until `expires`. */
  function Demoted(rows: seq<Row>, expires: int): seq<Row> {
    SetStatus(SetStatus(rows, Prev, Retired, None), Current, Prev, Some(expires))
  }

  /** Any failing statement rolls the transaction back.  A rotation also repairs a service
      whose start failed. */
  function Rotate(s: Service, now: int, generated: Secret, id: string, fault: bool): Service {
    var demoted := Demoted(s.rows, now + PREV_WINDOW_MS);
    var inserted := Insert(demoted, id, generated, fault);
    if inserted.None? then s else Service(inserted.value, generated, true)
  }

  lemma DemotedIds(rows: seq<Row>, expires: int, id: string)
    ensures HasId(Demoted(rows, expires), id) <==> HasId(rows, id)
  {
    var demoted := Demoted(rows, expires);
    forall j | 0 <= j < |demoted| ensures demoted[j].id == rows[j].id {
    }
    if j :| 0 <= j < |rows| && rows[j].id == id { assert demoted[j].id == id; }
  }

  function Cleanup(rows: seq<Row>, now: int): seq<Row> {
    seq(|rows|, i requires 0 <= i < |rows| => Cleaned(rows[i], now))
  }

  /** Non-empty values with the given status, expired prev secrets left out. */
  function Values(rows: seq<Row>, status: Status, now: int): seq<Secret> {
    if rows == [] then []
    else (if rows[0].status == status && rows[0].value != [] && !ExpiredPrev(rows[0], now) then [rows[0].value] else [])
         + Values(rows[1..], status, now)
  }

  /** GetAcceptSecrets: current first, then a still valid prev. */
  function Accepted(rows: seq<Row>, now: int): seq<Secret> {
    Values(rows, Current, now) + Values(rows, Prev, now)
  }

  // --------------------------------------------------------------- the object

  class JwtSecretService {
    var rows: seq<Row>
    var current: Secret

    constructor (rows: seq<Row>)
      ensures this.rows == rows && current == []
    {
      this.rows := rows;
      this.current := [];
    }

    method Start(env: Secret, generated: Secret, id: string, f: StartFaults) returns (ok: bool)
      modifies this
      ensures Service(rows, current, ok) == LoadOrInit(old(rows), old(current), env, generated, id, f)
    {
      if env != [] {
        if f.demote { return false; }
        rows := SetStatus(rows, Current, Retired, None);
        if f.insert || HasId(rows, id) { return false; }
        rows := rows + [Row(id, env, Current, None)];
        current := env;
        return true;
      }
      if f.prepare { return false; }
      var found := Loaded(rows, f);
      if found != [] {
        current := found;
        return true;
      }
      if f.generate { return false; }
      if f.insert || HasId(rows, id) { return false; }
      rows := rows + [Row(id, generated, Current, None)];
      current := generated;
      ok := true;
    }

    method RotateJwtSecret(now: int, generated: Secret, id: string, fault: bool) returns (ok: bool)
      modifies this
      ensures Service(rows, current, true) == Rotate(Service(old(rows), old(current), true), now, generated, id, fault)
      ensures ok <==> !fault && !HasId(old(rows), id)
      ensures if ok then current == generated else rows == old(rows) && current == old(current)
    {
      var saved := rows;
      DemotedIds(rows, now + PREV_WINDOW_MS, id);
      rows := SetStatus(rows, Prev, Retired, None);
      rows := SetStatus(rows, Current, Prev, Some(now + PREV_WINDOW_MS));
      if fault || HasId(rows, id) {
        rows := saved;
        return false;
      }
      rows := rows + [Row(id, generated, Current, None)];
      current := generated;
      ok := true;
    }

    /** Afterwards no prev secret has expired: exactly those that had are retired, in
        place, and the result is how many. */
    method CleanupExpiredPrev(now: int, fails: bool) returns (count: Option<nat>)
      modifies this
      ensures current == old(current) && (fails <==> count.None?)
      ensures fails ==> rows == old(rows)
      ensures !fails ==> rows == Cleanup(old(rows), now) && count.value == |ExpiredAt(old(rows), now)|
      ensures !fails ==> ExpiredAt(rows, now) == {}
    {
      if fails { return None; }
      var n := 0;
      for i := 0 to |rows|
        invariant |rows| == |old(rows)| && current == old(current)
        invariant forall j | 0 <= j < |rows| :: rows[j] == if j < i then Cleaned(old(rows)[j], now) else old(rows)[j]
        invariant n == |ExpiredAt(old(rows)[..i], now)|
      {
        ExpiredAtNext(old(rows), i, now);
        if rows[i].status == Prev && rows[i].expiresAt.Some? && rows[i].expiresAt.value <= now {
          rows := rows[i := rows[i].(status := Retired)];
          n := n + 1;
        }
      }
      assert old(rows)[..|rows|] == old(rows);
      count := Some(n);
    }

    /** The row loop of GetAcceptSecrets over what the scan yields: rows ordered current
        first, and cut short without an error when a step fails. */
    method GetAcceptSecrets(now: int, fails: bool, yielded: nat) returns (out: Option<seq<Secret>>)
      ensures fails <==> out.None?
      ensures !fails ==> out.value == Kept(Prefix(Ordered(rows), yielded), now)
      ensures !fails && |Ordered(rows)| <= yielded ==> out.value == Accepted(rows, now)
    {
      if fails { return None; }
      KeptOrdered(rows, now);
      var scan := Prefix(Ordered(rows), yielded);
      var secrets := [];
      for i := 0 to |scan|
        invariant secrets == Kept(scan[..i], now)
      {
        assert scan[..i + 1][..i] == scan[..i] && scan[..i + 1][i] == scan[i];
        if scan[i].value != [] && !ExpiredPrev(scan[i], now) { secrets := secrets + [scan[i].value]; }
      }
      assert scan[..|scan|] == scan;
      out := Some(secrets);
    }
  }

  function Cleaned(row: Row, now: int): Row {
    if ExpiredPrev(row, now) then row.(status := Retired) else row
  }

  /** The positions of expired prev rows. */
  function ExpiredAt(rows: seq<Row>, now: int): set<int> {
    set i | 0 <= i < |rows| && ExpiredPrev(rows[i], now)
  }

  lemma ExpiredAtNext(rows: seq<Row>, i: nat, now: int)
    requires i < |rows|
    ensures |ExpiredAt(rows[..i + 1], now)| == |ExpiredAt(rows[..i], now)| + if ExpiredPrev(rows[i], now) then 1 else 0
  {
    var before, after := ExpiredAt(rows[..i], now), ExpiredAt(rows[..i + 1], now);
    if ExpiredPrev(rows[i], now) {
      assert after == before + {i};
    } else {
      assert after == before;
    }
  }

  // --------------------------------------------------------- the ordered scan

  function WithStatus(rows: seq<Row>, status: Status): seq<Row> {
    if rows == [] then [] else (if rows[0].status == status then [rows[0]] else []) + WithStatus(rows[1..], status)
  }

  function Ordered(rows: seq<Row>): seq<Row> {
    WithStatus(rows, Current) + WithStatus(rows, Prev)
  }

  function Prefix(rows: seq<Row>, n: nat): seq<Row> {
    if n < |rows| then rows[..n] else rows
  }

  /** What the loop keeps of the rows it sees. */
  function Kept(rows: seq<Row>, now: int): seq<Secret> {
    if rows == [] then []
    else
      var last := rows[|rows| - 1];
      Kept(rows[..|rows| - 1], now) + if last.value != [] && !ExpiredPrev(last, now) then [last.value] else []
  }

  lemma {:induction false} KeptAppend(a: seq<Row>, b: seq<Row>, now: int)
    ensures Kept(a + b, now) == Kept(a, now) + Kept(b, now)
    decreases |b|
  {
    if b == [] {
      assert a + b == a;
    } else {
      var n := |b| - 1;
      assert (a + b)[..|a + b| - 1] == a + b[..n] && (a + b)[|a + b| - 1] == b[n];
      KeptAppend(a, b[..n], now);
    }
  }

  lemma KeptOne(row: Row, now: int)
    ensures Kept([row], now) == if row.value != [] && !ExpiredPrev(row, now) then [row.value] else []
  {
    assert [row][..0] == [];
  }

  lemma {:induction false} KeptIsValues(rows: seq<Row>, status: Status, now: int)
    ensures Kept(WithStatus(rows, status), now) == Values(rows, status, now)
  {
    if rows != [] {
      KeptIsValues(rows[1..], status, now);
      if rows[0].status == status {
        KeptAppend([rows[0]], WithStatus(rows[1..], status), now);
        KeptOne(rows[0], now);
      } else {
        assert WithStatus(rows, status) == WithStatus(rows[1..], status);
      }
    }
  }

  lemma KeptOrdered(rows: seq<Row>, now: int)
    ensures Kept(Ordered(rows), now) == Accepted(rows, now)
  {
    KeptAppend(WithStatus(rows, Current), WithStatus(rows, Prev), now);
    KeptIsValues(rows, Current, now);
    KeptIsValues(rows, Prev, now);
  }

  // ------------------------------------------------------------------- runs

  datatype Op =
    | Restart(env: Secret, generated: Secret, id: string, faults: StartFaults)
    | Rotation(now: int, generated: Secret, id: string, fault: bool)
    | Cleaning(now: int)

  /** Generated secrets are not empty.  Rotations and cleanups reach a service whose start
      failed too. */
  predicate Allowed(op: Op) {
    match op
    case Restart(_, generated, _, _) => generated != []
    case Rotation(_, generated, _, _) => generated != []
    case Cleaning(_) => true
  }

  function Apply(s: Service, op: Op): Service {
    match op
    case Restart(env, generated, id, f) => LoadOrInit(s.rows, [], env, generated, id, f)
    case Rotation(now, generated, id, fault) => Rotate(s, now, generated, id, fault)
    case Cleaning(now) => s.(rows := Cleanup(s.rows, now))
  }

  function Run(s: Service, ops: seq<Op>): Service
    decreases ops
  {
    if ops == [] then s else Run(Apply(s, ops[0]), ops[1..])
  }

  /** The start that inserts a second current secret beside one it failed to read. */
  predicate Blinded(s: Service, op: Op) {
    && op.Restart? && op.env == [] && !op.faults.prepare && op.faults.step && !op.faults.generate
    && !op.faults.insert && !HasId(s.rows, op.id)
    && exists i | 0 <= i < |s.rows| :: s.rows[i].status == Current
  }

  /** Every operation is allowed, and no start goes blind. */
  predicate AllAllowed(s: Service, ops: seq<Op>)
    decreases ops
  {
    ops == [] || (Allowed(ops[0]) && !Blinded(s, ops[0]) && AllAllowed(Apply(s, ops[0]), ops[1..]))
  }

  ghost predicate AtMostOne(rows: seq<Row>, status: Status) {
    forall i, j | 0 <= i < |rows| && 0 <= j < |rows| && rows[i].status == status && rows[j].status == status :: i == j
  }

  ghost predicate CurrentIs(rows: seq<Row>, secret: Secret) {
    exists i | 0 <= i < |rows| :: rows[i].status == Current && rows[i].value == secret
  }

  /** At most one current and one prev secret, no empty current one, and a started
      service signs with the current one. */
  ghost predicate Healthy(s: Service) {
    && AtMostOne(s.rows, Current) && AtMostOne(s.rows, Prev)
    && (forall i | 0 <= i < |s.rows| && s.rows[i].status == Current :: s.rows[i].value != [])
    && (s.up ==> s.current != [] && CurrentIs(s.rows, s.current))
  }

  lemma {:induction false} FirstCurrentIs(rows: seq<Row>)
    ensures (exists i | 0 <= i < |rows| :: rows[i].status == Current) ==> CurrentIs(rows, FirstCurrent(rows))
    ensures !(exists i | 0 <= i < |rows| :: rows[i].status == Current) ==> FirstCurrent(rows) == []
  {
    if rows != [] {
      FirstCurrentIs(rows[1..]);
      if rows[0].status != Current {
        if i :| 0 <= i < |rows| && rows[i].status == Current {
          assert rows[1..][i - 1].status == Current;
          var j :| 0 <= j < |rows[1..]| && rows[1..][j].status == Current
            && rows[1..][j].value == FirstCurrent(rows[1..]);
          assert rows[j + 1].status == Current && rows[j + 1].value == FirstCurrent(rows);
        }
      }
    }
  }

  /** Adding the one current row to a table that has none. */
  lemma InsertIsHealthy(rows: seq<Row>, id: string, secret: Secret)
    requires secret != [] && AtMostOne(rows, Prev) && forall i | 0 <= i < |rows| :: rows[i].status != Current
    ensures Healthy(Service(rows + [Row(id, secret, Current, None)], secret, true))
  {
    var after := rows + [Row(id, secret, Current, None)];
    assert after[|rows|].status == Current && after[|rows|].value == secret;
    forall i | 0 <= i < |rows| ensures after[i] == rows[i] {
    }
  }

  lemma DemotedToRetired(rows: seq<Row>)
    requires AtMostOne(rows, Prev)
    ensures var d := SetStatus(rows, Current, Retired, None);
            AtMostOne(d, Prev) && forall i | 0 <= i < |d| :: d[i].status != Current
  {
  }

  lemma DemotedToPrev(rows: seq<Row>, expires: int)
    requires AtMostOne(rows, Current)
    ensures var d := Demoted(rows, expires);
            AtMostOne(d, Prev) && forall i | 0 <= i < |d| :: d[i].status != Current
  {
    var retired := SetStatus(rows, Prev, Retired, None);
    forall i | 0 <= i < |rows|
      ensures retired[i].status != Prev && (retired[i].status == Current ==> rows[i].status == Current)
    {
    }
    assert AtMostOne(retired, Current);
    var d := SetStatus(retired, Current, Prev, Some(expires));
    forall i | 0 <= i < |d| && d[i].status == Prev ensures retired[i].status == Current {
    }
  }

  lemma OverrideKeepsHealthy(s: Service, op: Op)
    requires Healthy(s) && op.Restart? && op.env != []
    ensures Healthy(Apply(s, op))
  {
    DemotedToRetired(s.rows);
    InsertIsHealthy(SetStatus(s.rows, Current, Retired, None), op.id, op.env);
  }

  lemma LoadKeepsHealthyIff(s: Service, op: Op)
    requires Healthy(s) && op.Restart? && op.env == [] && op.generated != []
    ensures Healthy(Apply(s, op)) <==> !Blinded(s, op)
  {
    FirstCurrentIs(s.rows);
    if Blinded(s, op) {
      var rows := Apply(s, op).rows;
      var i :| 0 <= i < |s.rows| && s.rows[i].status == Current;
      assert rows[i].status == Current && rows[|s.rows|].status == Current;
    } else if Loaded(s.rows, op.faults) == [] && !(exists i | 0 <= i < |s.rows| :: s.rows[i].status == Current) {
      InsertIsHealthy(s.rows, op.id, op.generated);
    }
  }

  lemma RotationKeepsHealthy(s: Service, op: Op)
    requires Healthy(s) && op.Rotation? && Allowed(op)
    ensures Healthy(Apply(s, op))
  {
    var expires := op.now + PREV_WINDOW_MS;
    DemotedToPrev(s.rows, expires);
    InsertIsHealthy(Demoted(s.rows, expires), op.id, op.generated);
  }

  lemma CleaningKeepsHealthy(s: Service, now: int)
    requires Healthy(s)
    ensures Healthy(s.(rows := Cleanup(s.rows, now)))
  {
    var cleaned := Cleanup(s.rows, now);
    if i :| 0 <= i < |s.rows| && s.rows[i].status == Current && s.rows[i].value == s.current {
      assert cleaned[i] == s.rows[i];
    }
    forall j | 0 <= j < |cleaned| ensures cleaned[j].status == s.rows[j].status || cleaned[j].status == Retired {
    }
  }

  /** Every operation, failing or not, keeps the table healthy, except a start whose read
      of the current secret fails and whose insert then succeeds. */
  lemma StepKeepsHealthyIff(s: Service, op: Op)
    requires Healthy(s) && Allowed(op)
    ensures Healthy(Apply(s, op)) <==> !Blinded(s, op)
  {
    match op
    case Restart(env, _, _, _) => if env != [] { OverrideKeepsHealthy(s, op); } else { LoadKeepsHealthyIff(s, op); }
    case Rotation(_, _, _, _) => RotationKeepsHealthy(s, op);
    case Cleaning(now) => CleaningKeepsHealthy(s, now);
  }

  lemma {:induction false} RunKeepsHealthy(s: Service, ops: seq<Op>)
    requires Healthy(s) && AllAllowed(s, ops)
    ensures Healthy(Run(s, ops))
    decreases ops
  {
    if ops != [] {
      StepKeepsHealthyIff(s, ops[0]);
      RunKeepsHealthy(Apply(s, ops[0]), ops[1..]);
    }
  }

  // ----------------------------------------------------------- what a start does

  /** A start over a current secret, with a readable table and no override, signs with that
      secret and writes nothing. */
  lemma StartLoads(rows: seq<Row>, current: Secret, generated: Secret, id: string, f: StartFaults, i: nat)
    requires AtMostOne(rows, Current) && i < |rows| && rows[i].status == Current && rows[i].value != []
    requires !f.prepare && !f.step
    ensures LoadOrInit(rows, current, [], generated, id, f) == Service(rows, rows[i].value, true)
  {
    FirstCurrentIs(rows);
  }

  /** An override with a new id, when nothing fails, signs with the override, which is then
      the only current secret; the former ones are retired. */
  lemma StartOverrides(rows: seq<Row>, current: Secret, env: Secret, generated: Secret, id: string, f: StartFaults)
    requires env != [] && !f.demote && !f.insert && !HasId(rows, id)
    ensures var s := LoadOrInit(rows, current, env, generated, id, f);
            && s.up && s.current == env
            && |s.rows| == |rows| + 1 && s.rows[|rows|] == Row(id, env, Current, None)
            && forall i | 0 <= i < |rows| ::
                 s.rows[i] == if rows[i].status == Current then rows[i].(status := Retired) else rows[i]
  {
    var demoted := SetStatus(rows, Current, Retired, None);
    forall i | 0 <= i < |demoted| ensures demoted[i].id == rows[i].id {
    }
    assert !HasId(demoted, id);
  }

  /** A start that finds no current secret, when nothing fails, generates one, stores it
      under a new id and signs with it. */
  lemma StartGenerates(rows: seq<Row>, current: Secret, generated: Secret, id: string, f: StartFaults)
    requires !f.prepare && !f.generate && !f.insert && !HasId(rows, id)
    requires forall i | 0 <= i < |rows| :: rows[i].status != Current
    ensures LoadOrInit(rows, current, [], generated, id, f)
            == Service(rows + [Row(id, generated, Current, None)], generated, true)
  {
    FirstCurrentIs(rows);
  }

  /** A start succeeds only with a secret that is then in the table as current, and a
      failing one keeps whatever secret it had. */
  lemma StartTellsTrue(
    rows: seq<Row>, current: Secret, env: Secret, generated: Secret, id: string, f: StartFaults)
    requires generated != []
    ensures var s := LoadOrInit(rows, current, env, generated, id, f);
            if s.up then s.current != [] && CurrentIs(s.rows, s.current) else s.current == current
  {
    var s := LoadOrInit(rows, current, env, generated, id, f);
    FirstCurrentIs(rows);
    if s.up && |s.rows| == |rows| + 1 {
      assert s.rows[|rows|].status == Current && s.rows[|rows|].value == s.current;
    }
  }

  // ------------------------------------------------------------- acceptance

  lemma {:induction false} ValuesOfNone(rows: seq<Row>, status: Status, now: int)
    requires forall i | 0 <= i < |rows| :: rows[i].status != status
    ensures Values(rows, status, now) == []
  {
    if rows != [] { ValuesOfNone(rows[1..], status, now); }
  }

  lemma {:induction false} ValuesOfOne(rows: seq<Row>, i: nat, status: Status, now: int)
    requires i < |rows| && rows[i].status == status && AtMostOne(rows, status)
    ensures Values(rows, status, now) ==
            if rows[i].value != [] && !ExpiredPrev(rows[i], now) then [rows[i].value] else []
  {
    if i == 0 {
      forall j | 0 <= j < |rows[1..]| ensures rows[1..][j].status != status {
        assert rows[1..][j] == rows[j + 1];
      }
      ValuesOfNone(rows[1..], status, now);
    } else {
      forall j, k | 0 <= j < |rows[1..]| && 0 <= k < |rows[1..]| && rows[1..][j].status == status
        && rows[1..][k].status == status
        ensures j == k
      {
        assert rows[j + 1].status == status && rows[k + 1].status == status;
      }
      ValuesOfOne(rows[1..], i - 1, status, now);
    }
  }

  /** After any mix of succeeding and failing restarts, rotations and cleanups, a started
      service has exactly one current and at most one prev secret, and the accepted list
      is its signing secret followed by at most that prev one. */
  lemma AcceptedStartsWithSigningSecret(s: Service, ops: seq<Op>, now: int)
    requires Healthy(s) && AllAllowed(s, ops) && Run(s, ops).up
    ensures var t := Run(s, ops);
            && AtMostOne(t.rows, Current) && AtMostOne(t.rows, Prev) && CurrentIs(t.rows, t.current)
            && 1 <= |Accepted(t.rows, now)| <= 2 && Accepted(t.rows, now)[0] == t.current
  {
    var t := Run(s, ops);
    RunKeepsHealthy(s, ops);
    var i :| 0 <= i < |t.rows| && t.rows[i].status == Current && t.rows[i].value == t.current;
    ValuesOfOne(t.rows, i, Current, now);
    if j :| 0 <= j < |t.rows| && t.rows[j].status == Prev {
      ValuesOfOne(t.rows, j, Prev, now);
    } else {
      ValuesOfNone(t.rows, Prev, now);
    }
  }

  lemma {:induction false} WithStatusOfNone(rows: seq<Row>, status: Status)
    requires forall i | 0 <= i < |rows| :: rows[i].status != status
    ensures WithStatus(rows, status) == []
  {
    if rows != [] { WithStatusOfNone(rows[1..], status); }
  }

  lemma {:induction false} WithStatusOfOne(rows: seq<Row>, i: nat, status: Status)
    requires i < |rows| && rows[i].status == status && AtMostOne(rows, status)
    ensures WithStatus(rows, status) == [rows[i]]
  {
    forall j | 0 <= j < |rows[1..]| ensures rows[1..][j] == rows[j + 1] {
    }
    if i == 0 {
      WithStatusOfNone(rows[1..], status);
    } else {
      assert rows[0].status != status;
      WithStatusOfOne(rows[1..], i - 1, status);
    }
  }

  /** A scan that stops early is not told from a complete one.  For a started service it
      yields the whole accepted list if it gets as far as two rows, the signing secret
      alone after one, and nothing at all before that. */
  lemma CutScanAccepts(s: Service, now: int, yielded: nat)
    requires Healthy(s) && s.up
    ensures Kept(Prefix(Ordered(s.rows), yielded), now) ==
            if yielded == 0 then [] else if yielded == 1 then [s.current] else Accepted(s.rows, now)
  {
    var i :| 0 <= i < |s.rows| && s.rows[i].status == Current && s.rows[i].value == s.current;
    WithStatusOfOne(s.rows, i, Current);
    if j :| 0 <= j < |s.rows| && s.rows[j].status == Prev {
      WithStatusOfOne(s.rows, j, Prev);
    } else {
      WithStatusOfNone(s.rows, Prev);
    }
    var ordered := Ordered(s.rows);
    assert ordered[..1] == [s.rows[i]];
    KeptOne(s.rows[i], now);
    KeptOrdered(s.rows, now);
  }

  /** A started service with one secret. */
  function Single(): Service {
    Service([Row("a", [1], Current, None)], [1], true)
  }

  lemma SingleIsFirstStart()
    ensures Single() == LoadOrInit([], [], [], [1], "a", StartFaults(false, false, false, false, false))
    ensures Healthy(Single())
  {
    assert Single() == LoadOrInit([], [], [], [1], "a", StartFaults(false, false, false, false, false));
    FirstStartIsHealthy([], [1], "a", StartFaults(false, false, false, false, false));
  }

  lemma SingleIsBlinded(op: Op)
    requires op == Restart([], [2], "b", StartFaults(false, false, true, false, false))
    ensures Blinded(Single(), op)
    ensures Apply(Single(), op) == Service([Row("a", [1], Current, None), Row("b", [2], Current, None)], [2], true)
  {
    assert Single().rows[0].status == Current && Single().rows[0].id == "a";
    assert !HasId(Single().rows, "b");
  }

  /** The interrupted scan, on the smallest case: the secret the service signs with is not
      in the list it gets. */
  lemma CutScanRejectsSigner(now: int)
    ensures Accepted(Single().rows, now) == [[1]] && Kept(Prefix(Ordered(Single().rows), 0), now) == []
  {
    SingleIsFirstStart();
    CutScanAccepts(Single(), now, 0);
    ValuesOfOne(Single().rows, 0, Current, now);
    ValuesOfNone(Single().rows, Prev, now);
  }

  /** The failing start, on the smallest case: a service that started once restarts, fails
      to read its secret, and leaves two current ones. */
  lemma BlindStartMakesTwo() returns (op: Op)
    ensures Healthy(Single()) && Allowed(op)
    ensures Apply(Single(), op) == Service([Row("a", [1], Current, None), Row("b", [2], Current, None)], [2], true)
    ensures !Healthy(Apply(Single(), op))
  {
    op := Restart([], [2], "b", StartFaults(false, false, true, false, false));
    SingleIsFirstStart();
    SingleIsBlinded(op);
    StepKeepsHealthyIff(Single(), op);
  }

  /** A fresh service over an empty table, once started, is such a service. */
  lemma FirstStartIsHealthy(env: Secret, generated: Secret, id: string, f: StartFaults)
    requires generated != []
    ensures Healthy(LoadOrInit([], [], env, generated, id, f))
  {
    StepKeepsHealthyIff(Service([], [], false), Restart(env, generated, id, f));
  }

  lemma {:induction false} ValuesAreLive(rows: seq<Row>, status: Status, now: int, v: Secret)
    requires v in Values(rows, status, now)
    ensures exists i | 0 <= i < |rows| :: rows[i].status == status && rows[i].value == v && !ExpiredPrev(rows[i], now)
  {
    if rows[0].status == status && rows[0].value == v && !ExpiredPrev(rows[0], now) {
    } else {
      ValuesAreLive(rows[1..], status, now, v);
      var i :| 0 <= i < |rows[1..]| && rows[1..][i].status == status && rows[1..][i].value == v
        && !ExpiredPrev(rows[1..][i], now);
      assert rows[i + 1].status == status;
    }
  }

  ghost predicate RetiredAt(rows: seq<Row>, i: nat, row: Row) {
    i < |rows| && rows[i] == row && row.status == Retired
  }

  lemma {:induction false} RetiredIsForever(s: Service, ops: seq<Op>, i: nat, row: Row)
    requires RetiredAt(s.rows, i, row)
    ensures RetiredAt(Run(s, ops).rows, i, row)
    decreases ops
  {
    if ops != [] {
      RetiredIsForever(Apply(s, ops[0]), ops[1..], i, row);
    }
  }

  /** A retired row stays retired through anything that follows, and every accepted
      secret is the value of another row, current or prev and unexpired. */
  lemma RetiredIsNeverAccepted(s: Service, ops: seq<Op>, i: nat, row: Row, now: int, v: Secret)
    requires RetiredAt(s.rows, i, row) && v in Accepted(Run(s, ops).rows, now)
    ensures RetiredAt(Run(s, ops).rows, i, row)
    ensures var rows := Run(s, ops).rows;
            exists j | 0 <= j < |rows| ::
              && j != i && rows[j].value == v && rows[j].status in {Current, Prev} && !ExpiredPrev(rows[j], now)
  {
    RetiredIsForever(s, ops, i, row);
    var rows := Run(s, ops).rows;
    if v in Values(rows, Current, now) {
      ValuesAreLive(rows, Current, now, v);
    } else {
      ValuesAreLive(rows, Prev, now, v);
    }
  }

  // ---------------------------------------------------------------- cleanup

  /** `b` is `a` with some prev rows that had expired by t0 retired. */
  ghost predicate Cleaner(a: seq<Row>, b: seq<Row>, t0: int) {
    && |a| == |b|
    && forall i | 0 <= i < |a| :: b[i] == a[i] || (ExpiredPrev(a[i], t0) && b[i] == a[i].(status := Retired))
  }

  lemma CleanerTail(a: seq<Row>, b: seq<Row>, t0: int)
    requires Cleaner(a, b, t0) && a != []
    ensures b[0] == a[0] || (ExpiredPrev(a[0], t0) && b[0] == a[0].(status := Retired))
    ensures Cleaner(a[1..], b[1..], t0)
  {
    forall i | 0 <= i < |a[1..]|
      ensures b[1..][i] == a[1..][i] || (ExpiredPrev(a[1..][i], t0) && b[1..][i] == a[1..][i].(status := Retired))
    {
      assert a[1..][i] == a[i + 1] && b[1..][i] == b[i + 1];
    }
  }

  lemma {:induction false} CleanerAccepts(a: seq<Row>, b: seq<Row>, t0: int, now: int, status: Status)
    requires Cleaner(a, b, t0) && t0 <= now && status != Retired
    ensures Values(b, status, now) == Values(a, status, now)
  {
    if a != [] {
      CleanerTail(a, b, t0);
      CleanerAccepts(a[1..], b[1..], t0, now, status);
    }
  }

  lemma {:induction false} CleanerFirstCurrent(a: seq<Row>, b: seq<Row>, t0: int)
    requires Cleaner(a, b, t0)
    ensures FirstCurrent(b) == FirstCurrent(a)
  {
    if a != [] {
      CleanerTail(a, b, t0);
      CleanerFirstCurrent(a[1..], b[1..], t0);
    }
  }

  lemma CleanerIds(a: seq<Row>, b: seq<Row>, t0: int, id: string)
    requires Cleaner(a, b, t0)
    ensures HasId(b, id) == HasId(a, id)
  {
    if i :| 0 <= i < |a| && a[i].id == id { assert b[i].id == id; }
    if i :| 0 <= i < |b| && b[i].id == id { assert a[i].id == id; }
  }

  predicate NotBefore(op: Op, t0: int) {
    match op
    case Restart(_, _, _, _) => true
    case Rotation(now, _, _, _) => t0 <= now
    case Cleaning(now) => t0 <= now
  }

  lemma RotationKeepsCleaner(s: Service, t: Service, t0: int, op: Op)
    requires Cleaner(s.rows, t.rows, t0) && s.current == t.current && s.up == t.up && op.Rotation?
    ensures Cleaner(Apply(s, op).rows, Apply(t, op).rows, t0)
    ensures Apply(t, op).current == Apply(s, op).current && Apply(t, op).up == Apply(s, op).up
  {
    var p := Demoted(s.rows, op.now + PREV_WINDOW_MS);
    var q := Demoted(t.rows, op.now + PREV_WINDOW_MS);
    assert p == q;
  }

  lemma OverrideKeepsCleaner(s: Service, t: Service, t0: int, op: Op)
    requires Cleaner(s.rows, t.rows, t0) && op.Restart? && op.env != []
    ensures Cleaner(Apply(s, op).rows, Apply(t, op).rows, t0)
    ensures Apply(t, op).current == Apply(s, op).current && Apply(t, op).up == Apply(s, op).up
  {
    var (p, q) := (SetStatus(s.rows, Current, Retired, None), SetStatus(t.rows, Current, Retired, None));
    assert Cleaner(p, q, t0);
    CleanerIds(p, q, t0, op.id);
    CleanerAppend(p, q, t0, Row(op.id, op.env, Current, None));
  }

  lemma CleanerAppend(a: seq<Row>, b: seq<Row>, t0: int, row: Row)
    requires Cleaner(a, b, t0)
    ensures Cleaner(a + [row], b + [row], t0)
  {
  }

  lemma RestartKeepsCleaner(s: Service, t: Service, t0: int, op: Op)
    requires Cleaner(s.rows, t.rows, t0) && op.Restart?
    ensures Cleaner(Apply(s, op).rows, Apply(t, op).rows, t0)
    ensures Apply(t, op).current == Apply(s, op).current && Apply(t, op).up == Apply(s, op).up
  {
    if op.env != [] {
      OverrideKeepsCleaner(s, t, t0, op);
    } else {
      CleanerFirstCurrent(s.rows, t.rows, t0);
      CleanerIds(s.rows, t.rows, t0, op.id);
      CleanerAppend(s.rows, t.rows, t0, Row(op.id, op.generated, Current, None));
    }
  }

  lemma CleaningKeepsCleaner(a: seq<Row>, b: seq<Row>, t0: int, now: int)
    requires Cleaner(a, b, t0) && t0 <= now
    ensures Cleaner(Cleanup(a, now), Cleanup(b, now), t0)
  {
  }

  lemma {:induction false} CleanerRun(s: Service, t: Service, t0: int, ops: seq<Op>)
    requires Cleaner(s.rows, t.rows, t0) && s.current == t.current && s.up == t.up
    requires forall i | 0 <= i < |ops| :: NotBefore(ops[i], t0)
    ensures Cleaner(Run(s, ops).rows, Run(t, ops).rows, t0)
    ensures Run(t, ops).current == Run(s, ops).current && Run(t, ops).up == Run(s, ops).up
    decreases ops
  {
    if ops != [] {
      match ops[0] {
        case Restart(_, _, _, _) => RestartKeepsCleaner(s, t, t0, ops[0]);
        case Rotation(_, _, _, _) => RotationKeepsCleaner(s, t, t0, ops[0]);
        case Cleaning(now) => CleaningKeepsCleaner(s.rows, t.rows, t0, now);
      }
      CleanerRun(Apply(s, ops[0]), Apply(t, ops[0]), t0, ops[1..]);
    }
  }

  /** CleanupExpiredPrev is invisible: a service that ran it at t0 and one that did not
      accept the same secrets, and sign with the same one, after any further operations
      and at every time from t0 on. */
  lemma CleanupIsInvisible(s: Service, t0: int, ops: seq<Op>, now: int)
    requires t0 <= now && forall i | 0 <= i < |ops| :: NotBefore(ops[i], t0)
    ensures var cleaned := Run(s.(rows := Cleanup(s.rows, t0)), ops);
            && Accepted(cleaned.rows, now) == Accepted(Run(s, ops).rows, now)
            && cleaned.current == Run(s, ops).current
  {
    var t := s.(rows := Cleanup(s.rows, t0));
    CleanerRun(s, t, t0, ops);
    CleanerAccepts(Run(s, ops).rows, Run(t, ops).rows, t0, now, Current);
    CleanerAccepts(Run(s, ops).rows, Run(t, ops).rows, t0, now, Prev);
  }

  /** A rotation that goes through appends the new current row and leaves the outgoing
      one where it was, as prev. */
  lemma RotatedRows(s: Service, at: int, generated: Secret, id: string, i: nat)
    requires !HasId(s.rows, id) && i < |s.rows| && s.rows[i].status == Current
    ensures var t := Rotate(s, at, generated, id, false).rows;
            && |t| == |s.rows| + 1 && t[|s.rows|] == Row(id, generated, Current, None)
            && t[i] == s.rows[i].(status := Prev, expiresAt := Some(at + PREV_WINDOW_MS))
  {
    DemotedIds(s.rows, at + PREV_WINDOW_MS, id);
  }

  /** The dual-key window: right after a rotation the outgoing secret is accepted for
      exactly the following 24 hours, unless another rotation cuts it short. */
  lemma RotationOpensWindow(s: Service, at: int, generated: Secret, id: string, now: int)
    requires Healthy(s) && s.up && generated != [] && !HasId(s.rows, id)
    ensures Accepted(Rotate(s, at, generated, id, false).rows, now) ==
            if now < at + 86_400_000 then [generated, s.current] else [generated]
  {
    var i :| 0 <= i < |s.rows| && s.rows[i].status == Current && s.rows[i].value == s.current;
    RotatedRows(s, at, generated, id, i);
    RotationKeepsHealthy(s, Rotation(at, generated, id, false));
    var rows := Rotate(s, at, generated, id, false).rows;
    ValuesOfOne(rows, |s.rows|, Current, now);
    ValuesOfOne(rows, i, Prev, now);
  }
}
