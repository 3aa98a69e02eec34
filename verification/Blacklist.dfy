/**
 Revoked access tokens (AuthService in src/auth/auth_service.cpp): the token_blacklist
 table, the in-memory set that validation consults, the cleanup that drops both, and the
 refresh tokens a logout revokes.  Operations run one at a time and the clock does not go
 back.  Statements may fail; the source goes on regardless.
 */
module Blacklist {
  import opened Wrappers
  import opened Jwt
  import opened Base64Url

  type Hash = string

  datatype Codec = Codec(crypto: Crypto, hash: string -> Hash)

  datatype RefreshToken = RefreshToken(user: string, revoked: bool, expiresAt: int)

  /** `table` maps a revoked hash to expires_at, `refresh` a jti to its row. */
  datatype State = State(table: map<Hash, int>, cache: set<Hash>, refresh: map<string, RefreshToken>)

  const EMPTY := State(map[], {}, map[])

  /** `yielded` holds the hashes a scan of the table gets to see: none when it cannot be
      prepared, some when a step fails, all when it completes.  The source tells the
      second from the third as little as the model does. */
  datatype Op =
    | Logout(token: string, accept: seq<seq<Byte>>, now: int, insertFails: bool, revokeFails: bool)
    | Load(now: int, yielded: set<Hash>)
    | Cleanup(now: int, reload: int, deleteFails: bool, purgeFails: bool, yielded: set<Hash>)
    | Restart(now: int, yielded: set<Hash>)

  // ------------------------------------------------------------- operations

  function Live(table: map<Hash, int>, now: int): set<Hash> {
    set h | h in table && table[h] > now
  }

  /** A token that does not decode is left alone; a hash already in the table keeps its
      row; a session's logout revokes all refresh tokens of its user. */
  function LoggedOut(k: Codec, s: State, op: Op): State
    requires op.Logout?
  {
    var decoded := DecodeToken(k.crypto, op.token, op.accept, op.now);
    if decoded.Err? then s
    else
      var (h, p) := (k.hash(op.token), decoded.value);
      State(if h in s.table || op.insertFails then s.table else s.table[h := p.exp],
            s.cache + {h},
            if p.sid == "" || op.revokeFails then s.refresh else RevokedFor(s.refresh, p.sub))
  }

  function RevokedFor(refresh: map<string, RefreshToken>, user: string): map<string, RefreshToken> {
    map jti | jti in refresh :: if refresh[jti].user == user then refresh[jti].(revoked := true) else refresh[jti]
  }

  function Unexpired(table: map<Hash, int>, now: int): map<Hash, int> {
    map h | h in table && table[h] >= now :: table[h]
  }

  function UnexpiredTokens(refresh: map<string, RefreshToken>, now: int): map<string, RefreshToken> {
    map jti | jti in refresh && refresh[jti].expiresAt >= now :: refresh[jti]
  }

  /** The cache is emptied before it is rebuilt. */
  function Cleaned(s: State, op: Op): State
    requires op.Cleanup?
  {
    var table := if op.deleteFails then s.table else Unexpired(s.table, op.now);
    State(table, Live(table, op.reload) * op.yielded,
          if op.purgeFails then s.refresh else UnexpiredTokens(s.refresh, op.now))
  }

  function Apply(k: Codec, s: State, op: Op): State {
    match op
    case Logout(_, _, _, _, _) => LoggedOut(k, s, op)
    case Load(now, yielded) => s.(cache := s.cache + Live(s.table, now) * yielded)
    case Cleanup(_, _, _, _, _) => Cleaned(s, op)
    case Restart(now, yielded) => s.(cache := Live(s.table, now) * yielded)
  }

  predicate Validates(k: Codec, s: State, token: string, accept: seq<seq<Byte>>, now: int) {
    var decoded := DecodeToken(k.crypto, token, accept, now);
    decoded.Ok? && !decoded.value.IsRefresh() && k.hash(token) !in s.cache
  }

  /** The rows a scan yields that have not expired. */
  method Scan(table: map<Hash, int>, now: int, yielded: set<Hash>) returns (live: set<Hash>)
    ensures live == Live(table, now) * yielded
    ensures forall h :: h in live <==> h in table && table[h] > now && h in yielded
  {
    live := {};
    var pending := table.Keys * yielded;
    while pending != {}
      invariant pending <= table.Keys * yielded
      invariant forall h :: h in live <==> h in table && table[h] > now && h in yielded && h !in pending
      decreases |pending|
    {
      var h :| h in pending;
      if table[h] > now { live := live + {h}; }
      pending := pending - {h};
    }
  }

  class AuthService {
    const codec: Codec
    var signSecret: seq<Byte>
    var accept: seq<seq<Byte>>
    var table: map<Hash, int>
    var cache: set<Hash>
    var refresh: map<string, RefreshToken>

    /** A starting service accepts its one secret and loads the blacklist. */
    constructor (
      codec: Codec, secret: seq<Byte>, table: map<Hash, int>, refresh: map<string, RefreshToken>, now: int,
      yielded: set<Hash>)
      ensures this.codec == codec && signSecret == secret && accept == [secret]
      ensures Value() == Apply(codec, State(table, {}, refresh), Restart(now, yielded))
    {
      this.codec := codec;
      this.signSecret := secret;
      this.accept := [secret];
      this.table := table;
      this.cache := {};
      this.refresh := refresh;
      new;
      var _ := LoadBlacklist(now, false, yielded);
    }

    function Value(): State
      reads this
    {
      State(table, cache, refresh)
    }

    method SetAcceptSecrets(sign: seq<Byte>, accept: seq<seq<Byte>>)
      modifies this`signSecret, this`accept
      ensures this.signSecret == sign && this.accept == accept
    {
      this.signSecret := sign;
      this.accept := accept;
    }

    method LogOut(token: string, now: int, insertFails: bool, revokeFails: bool)
      modifies this`table, this`cache, this`refresh
      ensures Value() == Apply(codec, old(Value()), Logout(token, accept, now, insertFails, revokeFails))
      ensures DecodeToken(codec.crypto, token, accept, now).Ok? ==>
        && codec.hash(token) in cache && old(cache) <= cache
        && (!insertFails ==> codec.hash(token) in table)
      ensures DecodeToken(codec.crypto, token, accept, now).Err? ==> Value() == old(Value())
    {
      var decoded := DecodeJwt(codec.crypto, token, accept, now);
      if decoded.Ok? {
        var h := codec.hash(token);
        cache := cache + {h};
        if h !in table && !insertFails { table := table[h := decoded.value.exp]; }
        if decoded.value.sid != "" && !revokeFails { RevokeRefreshTokens(decoded.value.sub); }
      }
    }

    /** UPDATE ... SET revoked = 1, row by row. */
    method RevokeRefreshTokens(user: string)
      modifies this`refresh
      ensures refresh == RevokedFor(old(refresh), user)
    {
      var pending := set jti | jti in refresh && refresh[jti].user == user && !refresh[jti].revoked;
      ghost var target := RevokedFor(refresh, user);
      while pending != {}
        invariant refresh.Keys == old(refresh).Keys && pending <= refresh.Keys
        invariant forall jti | jti in refresh ::
          refresh[jti] == if jti in pending then old(refresh)[jti] else target[jti]
        invariant forall jti | jti in pending :: old(refresh)[jti].user == user
        decreases |pending|
      {
        var jti :| jti in pending;
        refresh := refresh[jti := refresh[jti].(revoked := true)];
        pending := pending - {jti};
      }
    }

    /** Against the secrets stored with SetAcceptSecrets, whatever has become of them. */
    method ValidateAccessToken(token: string, now: int) returns (r: Option<Payload>)
      ensures r.Some? <==> Validates(codec, Value(), token, accept, now)
      ensures r.Some? ==> DecodeToken(codec.crypto, token, accept, now) == Ok(r.value)
    {
      var decoded := DecodeJwt(codec.crypto, token, accept, now);
      if decoded.Err? || decoded.value.IsRefresh() || codec.hash(token) in cache { return None; }
      r := Some(decoded.value);
    }

    /** The row loop, adding to whatever the set holds.  A scan that stops early is
        reported as a success. */
    method LoadBlacklist(now: int, fails: bool, yielded: set<Hash>) returns (ok: bool)
      modifies this`cache
      ensures Value() == Apply(codec, old(Value()), Load(now, if fails then {} else yielded))
      ensures ok == !fails
    {
      if fails { return false; }
      var live := Scan(table, now, yielded);
      cache := cache + live;
      ok := true;
    }

    /** Two deletes that fail on their own, and a reload at a later clock reading. */
    method CleanupExpired(
      now: int, reload: int, deleteFails: bool, purgeFails: bool, loadFails: bool, yielded: set<Hash>)
      returns (ok: bool)
      requires now <= reload
      modifies this`table, this`cache, this`refresh
      ensures Value() == Apply(codec, old(Value()),
                               Cleanup(now, reload, deleteFails, purgeFails, if loadFails then {} else yielded))
      ensures ok == !loadFails
      ensures forall h | h in old(table) :: h in table <==> deleteFails || old(table)[h] >= now
      ensures forall h | h in table :: h in old(table) && table[h] == old(table)[h]
      ensures forall jti | jti in old(refresh) :: jti in refresh <==> purgeFails || old(refresh)[jti].expiresAt >= now
    {
      if !deleteFails { table := Unexpired(table, now); }
      if !purgeFails { refresh := UnexpiredTokens(refresh, now); }
      cache := {};
      ok := LoadBlacklist(reload, loadFails, yielded);
    }
  }

  // ------------------------------------------------------------------- runs

  function Begin(op: Op): int { op.now }

  function End(op: Op): int { if op.Cleanup? then op.reload else op.now }

  function Run(k: Codec, s: State, ops: seq<Op>): State {
    if ops == [] then s else Apply(k, Run(k, s, ops[..|ops| - 1]), ops[|ops| - 1])
  }

  /** The clock starts at `from`, never goes back, and ends at `until`. */
  predicate Orderly(ops: seq<Op>, from: int, until: int)
    decreases |ops|
  {
    if ops == [] then from <= until
    else
      var last := ops[|ops| - 1];
      Begin(last) <= End(last) <= until && Orderly(ops[..|ops| - 1], from, Begin(last))
  }

  /** An operation that empties the cache sees the hash again when it reloads. */
  predicate Reloads(op: Op, h: Hash) {
    op.Cleanup? || op.Restart? ==> h in op.yielded
  }

  predicate AllReload(ops: seq<Op>, h: Hash) {
    forall i | 0 <= i < |ops| :: Reloads(ops[i], h)
  }

  /** The payload a token carries, whoever signed it and whatever the time. */
  function Carried(k: Crypto, token: string): Option<Payload> {
    var parts := SplitToken(token);
    if parts.None? then None
    else
      var payload := Decode(parts.value.payload);
      if payload.Err? || k.parse(payload.value).None? then None
      else PayloadOf(k.parse(payload.value).value)
  }

  lemma DecodedIsCarried(k: Crypto, token: string, accept: seq<seq<Byte>>, now: int)
    requires DecodeToken(k, token, accept, now).Ok?
    ensures Carried(k, token) == Some(DecodeToken(k, token, accept, now).value)
    ensures !Expired(DecodeToken(k, token, accept, now).value, now)
  {
  }

  // ------------------------------------------------------ a logout is final

  /** The token is past its expiry, or both its row and its cache entry are there and the
      row will outlive it. */
  predicate Revoked(s: State, h: Hash, exp: int, now: int) {
    exp <= now || (h in s.table && s.table[h] >= exp && h in s.cache)
  }

  /** While the row lives, an operation keeps the entry if and only if it does not empty
      the cache or sees the hash when it reloads. */
  lemma StepKeepsEntryIff(k: Codec, s: State, op: Op, h: Hash)
    requires h in s.table && h in s.cache && Begin(op) <= End(op) < s.table[h]
    ensures h in Apply(k, s, op).table && Apply(k, s, op).table[h] == s.table[h]
    ensures h in Apply(k, s, op).cache <==> Reloads(op, h)
  {
  }

  lemma StepKeepsRevoked(k: Codec, s: State, op: Op, h: Hash, exp: int, from: int)
    requires Revoked(s, h, exp, from) && from <= Begin(op) <= End(op) && Reloads(op, h)
    ensures Revoked(Apply(k, s, op), h, exp, End(op))
  {
    if End(op) < exp { StepKeepsEntryIff(k, s, op, h); }
  }

  lemma {:induction false} RunKeepsRevoked(
    k: Codec, s: State, ops: seq<Op>, h: Hash, exp: int, from: int, until: int)
    requires Revoked(s, h, exp, from) && Orderly(ops, from, until) && AllReload(ops, h)
    ensures Revoked(Run(k, s, ops), h, exp, until)
    decreases |ops|
  {
    if ops != [] {
      var (rest, last) := (ops[..|ops| - 1], ops[|ops| - 1]);
      assert AllReload(rest, h);
      RunKeepsRevoked(k, s, rest, h, exp, from, Begin(last));
      StepKeepsRevoked(k, Run(k, s, rest), last, h, exp, Begin(last));
    }
  }

  /** No run from `s` at time `from` whose reloads see the token's hash ever validates it
      again. */
  ghost predicate NeverValidates(k: Codec, s: State, token: string, from: int) {
    forall ops, accept, now | Orderly(ops, from, now) && AllReload(ops, k.hash(token)) ::
      !Validates(k, Run(k, s, ops), token, accept, now)
  }

  lemma RevokedNeverValidates(k: Codec, s: State, token: string, p: Payload, from: int)
    requires Carried(k.crypto, token) == Some(p) && p.exp != 0 && Revoked(s, k.hash(token), p.exp, from)
    ensures NeverValidates(k, s, token, from)
  {
    forall ops, accept, now | Orderly(ops, from, now) && AllReload(ops, k.hash(token))
      ensures !Validates(k, Run(k, s, ops), token, accept, now)
    {
      RunKeepsRevoked(k, s, ops, k.hash(token), p.exp, from, now);
      if Validates(k, Run(k, s, ops), token, accept, now) {
        DecodedIsCarried(k.crypto, token, accept, now);
      }
    }
  }

  /** A reload that does not see a hash leaves it off the list, whatever was there. */
  lemma MissedReloadForgets(k: Codec, s: State, op: Op, token: string, accept: seq<seq<Byte>>, now: int)
    requires (op.Cleanup? || op.Restart?) && !Reloads(op, k.hash(token))
    ensures var d := DecodeToken(k.crypto, token, accept, now);
            Validates(k, Apply(k, s, op), token, accept, now) <==> d.Ok? && !d.value.IsRefresh()
  {
  }

  lemma RunOne(k: Codec, s: State, op: Op)
    ensures Run(k, s, [op]) == Apply(k, s, op)
  {
    assert [op][..0] == [];
    assert Run(k, s, [op][..0]) == s;
  }

  lemma CleanupForgets(k: Codec, s: State, h: Hash, at: int) returns (op: Op)
    requires h in s.table ==> s.table[h] <= at
    ensures op.Cleanup? && Begin(op) == End(op) == at && Reloads(op, h) && h !in Run(k, s, [op]).cache
  {
    op := Cleanup(at, at, false, false, {h});
    RunOne(k, s, op);
  }

  lemma OneOpIsOrderly(op: Op, from: int)
    requires from <= Begin(op) <= End(op)
    ensures Orderly([op], from, End(op))
  {
    assert [op][..0] == [];
    assert Orderly([op][..0], from, Begin(op));
  }

  lemma DecodesUntilExpiry(k: Crypto, token: string, accept: seq<seq<Byte>>, now: int, at: int)
    requires DecodeToken(k, token, accept, now).Ok? && !Expired(DecodeToken(k, token, accept, now).value, at)
    ensures DecodeToken(k, token, accept, at) == DecodeToken(k, token, accept, now)
  {
  }

  /** The row a logout leaves for the token outlives it. */
  predicate RowOutlives(k: Codec, s: State, op: Op, exp: int)
    requires op.Logout?
  {
    var h := k.hash(op.token);
    exp != 0 && if h in s.table then exp <= s.table[h] else !op.insertFails
  }

  /** One cleanup brings the token back. */
  lemma LogoutIsForgotten(k: Codec, s: State, op: Op, p: Payload)
    requires op.Logout? && DecodeToken(k.crypto, op.token, op.accept, op.now) == Ok(p) && !p.IsRefresh()
    requires !RowOutlives(k, s, op, p.exp)
    ensures !NeverValidates(k, LoggedOut(k, s, op), op.token, op.now)
  {
    var h, after := k.hash(op.token), LoggedOut(k, s, op);
    DecodedIsCarried(k.crypto, op.token, op.accept, op.now);
    var at := if h in after.table && op.now <= after.table[h] then after.table[h] else op.now;
    var cleanup := CleanupForgets(k, after, h, at);
    OneOpIsOrderly(cleanup, op.now);
    DecodesUntilExpiry(k.crypto, op.token, op.accept, op.now, at);
    assert AllReload([cleanup], h);
    assert Validates(k, Run(k, after, [cleanup]), op.token, op.accept, at);
  }

  /** As long as reloads see its hash, logging out an access token keeps it out for ever
      exactly when the token has an expiry and its row, the one written now or an older one
      of the same hash, does not expire before it. */
  lemma LogoutIsFinalIff(k: Codec, s: State, op: Op, p: Payload)
    requires op.Logout? && DecodeToken(k.crypto, op.token, op.accept, op.now) == Ok(p) && !p.IsRefresh()
    ensures NeverValidates(k, LoggedOut(k, s, op), op.token, op.now) <==> RowOutlives(k, s, op, p.exp)
  {
    if RowOutlives(k, s, op, p.exp) {
      DecodedIsCarried(k.crypto, op.token, op.accept, op.now);
      RevokedNeverValidates(k, LoggedOut(k, s, op), op.token, p, op.now);
    } else {
      LogoutIsForgotten(k, s, op, p);
    }
  }

  function AccessPayload(exp: int): Payload {
    Payload("user", "session", 0, exp, "", "", "", "", "", "", "")
  }

  lemma RunTwo(k: Codec, s: State, a: Op, b: Op)
    ensures Run(k, s, [a, b]) == Apply(k, Apply(k, s, a), b)
  {
    assert [a, b][..1] == [a];
    RunOne(k, s, a);
  }

  /** The failing case at an actual token: one without an expiry, signed by the service,
      logged out with every write succeeding, validates again after a cleanup. */
  lemma ExpiryFreeTokenReturns(k: Codec, secret: seq<Byte>, now: nat)
    requires JsonRoundTrips(k.crypto)
    ensures var token := EncodeToken(k.crypto, AccessPayload(0), secret);
            var logout := Logout(token, [secret], now, false, false);
            var cleanup := Cleanup(now, now, false, false, {k.hash(token)});
            && !Validates(k, Run(k, EMPTY, [logout]), token, [secret], now)
            && Validates(k, Run(k, EMPTY, [logout, cleanup]), token, [secret], now)
  {
    var token := EncodeToken(k.crypto, AccessPayload(0), secret);
    AnyAcceptedSecretRecovers(k.crypto, AccessPayload(0), [secret], 0, now);
    var logout := Logout(token, [secret], now, false, false);
    RunOne(k, EMPTY, logout);
    RunTwo(k, EMPTY, logout, Cleanup(now, now, false, false, {k.hash(token)}));
  }

  /** The other one: a token with an expiry, logged out with every write succeeding,
      validates again after a cleanup whose reload fails. */
  lemma FailedReloadForgets(k: Codec, secret: seq<Byte>, now: nat)
    requires JsonRoundTrips(k.crypto)
    ensures var token := EncodeToken(k.crypto, AccessPayload(now + 1), secret);
            var logout := Logout(token, [secret], now, false, false);
            && !Validates(k, Run(k, EMPTY, [logout]), token, [secret], now)
            && Validates(k, Run(k, EMPTY, [logout, Cleanup(now, now, false, false, {})]), token, [secret], now)
  {
    var token := EncodeToken(k.crypto, AccessPayload(now + 1), secret);
    AnyAcceptedSecretRecovers(k.crypto, AccessPayload(now + 1), [secret], 0, now);
    var logout := Logout(token, [secret], now, false, false);
    RunOne(k, EMPTY, logout);
    RunTwo(k, EMPTY, logout, Cleanup(now, now, false, false, {}));
  }

  // -------------------------------------------------------- refresh tokens

  /** A session's logout revokes every refresh token of its user and no other. */
  lemma LogoutRevokesSession(k: Codec, s: State, op: Op, p: Payload, jti: string)
    requires op.Logout? && !op.revokeFails && DecodeToken(k.crypto, op.token, op.accept, op.now) == Ok(p) && p.sid != ""
    requires jti in s.refresh
    ensures jti in LoggedOut(k, s, op).refresh
    ensures LoggedOut(k, s, op).refresh[jti] ==
            s.refresh[jti].(revoked := s.refresh[jti].revoked || s.refresh[jti].user == p.sub)
  {
  }

  lemma StepKeepsRefreshRevoked(k: Codec, s: State, op: Op, jti: string)
    requires jti in s.refresh ==> s.refresh[jti].revoked
    ensures jti in Apply(k, s, op).refresh ==> Apply(k, s, op).refresh[jti].revoked
  {
  }

  /** And none of the operations here gives it back. */
  lemma {:induction false} RefreshStaysRevoked(k: Codec, s: State, ops: seq<Op>, jti: string)
    requires jti in s.refresh && s.refresh[jti].revoked
    ensures jti in Run(k, s, ops).refresh ==> Run(k, s, ops).refresh[jti].revoked
    decreases |ops|
  {
    if ops != [] {
      RefreshStaysRevoked(k, s, ops[..|ops| - 1], jti);
      StepKeepsRefreshRevoked(k, Run(k, s, ops[..|ops| - 1]), ops[|ops| - 1], jti);
    }
  }

  // ------------------------------------------------- validation is exact

  ghost predicate CollisionFree(k: Codec) {
    forall a, b | k.hash(a) == k.hash(b) :: a == b
  }

  predicate SuccessfulLogout(k: Codec, op: Op, token: string) {
    op.Logout? && op.token == token && DecodeToken(k.crypto, token, op.accept, op.now).Ok?
  }

  /** Some logout of the token wrote a row. */
  predicate Rowed(k: Codec, ops: seq<Op>, token: string) {
    exists i | 0 <= i < |ops| :: SuccessfulLogout(k, ops[i], token) && !ops[i].insertFails
  }

  /** Operation i puts the token on the list: a logout of it, or a scan that sees its row
      before its expiry. */
  predicate Remembers(k: Codec, ops: seq<Op>, i: nat, token: string, exp: int)
    requires i < |ops|
  {
    if ops[i].Logout? then SuccessfulLogout(k, ops[i], token)
    else k.hash(token) in ops[i].yielded && Rowed(k, ops[..i], token) && End(ops[i]) < exp
  }

  /** Operation i takes it off: it empties the cache and does not put it back. */
  predicate Drops(k: Codec, ops: seq<Op>, i: nat, token: string, exp: int)
    requires i < |ops|
  {
    (ops[i].Cleanup? || ops[i].Restart?) && !Remembers(k, ops, i, token, exp)
  }

  predicate ListedSince(k: Codec, ops: seq<Op>, i: nat, token: string, exp: int)
    requires i < |ops|
  {
    Remembers(k, ops, i, token, exp) && forall j | i < j < |ops| :: !Drops(k, ops, j, token, exp)
  }

  /** Something put the token on the list, and nothing after it took it off. */
  predicate Listed(k: Codec, ops: seq<Op>, token: string, exp: int) {
    exists i | 0 <= i < |ops| :: ListedSince(k, ops, i, token, exp)
  }

  lemma RowedNext(k: Codec, ops: seq<Op>, token: string)
    requires ops != []
    ensures var (rest, last) := (ops[..|ops| - 1], ops[|ops| - 1]);
            Rowed(k, ops, token) <==>
              Rowed(k, rest, token) || (SuccessfulLogout(k, last, token) && !last.insertFails)
  {
    var rest := ops[..|ops| - 1];
    forall i | 0 <= i < |rest| ensures rest[i] == ops[i] {
    }
  }

  lemma RemembersBefore(k: Codec, ops: seq<Op>, n: nat, i: nat, token: string, exp: int)
    requires i < n <= |ops|
    ensures Remembers(k, ops[..n], i, token, exp) <==> Remembers(k, ops, i, token, exp)
    ensures Drops(k, ops[..n], i, token, exp) <==> Drops(k, ops, i, token, exp)
  {
    assert ops[..n][i] == ops[i] && ops[..n][..i] == ops[..i];
  }

  lemma SinceNext(k: Codec, ops: seq<Op>, i: nat, token: string, exp: int)
    requires i + 1 < |ops|
    ensures var n := |ops| - 1;
            ListedSince(k, ops, i, token, exp) <==>
              ListedSince(k, ops[..n], i, token, exp) && !Drops(k, ops, n, token, exp)
  {
    var n := |ops| - 1;
    forall j | 0 <= j < n
      ensures Remembers(k, ops[..n], j, token, exp) <==> Remembers(k, ops, j, token, exp)
      ensures Drops(k, ops[..n], j, token, exp) <==> Drops(k, ops, j, token, exp)
    {
      RemembersBefore(k, ops, n, j, token, exp);
    }
  }

  lemma ListedNext(k: Codec, ops: seq<Op>, token: string, exp: int)
    requires ops != []
    ensures var n := |ops| - 1;
            Listed(k, ops, token, exp) <==>
              Remembers(k, ops, n, token, exp) || (Listed(k, ops[..n], token, exp) && !Drops(k, ops, n, token, exp))
  {
    var n := |ops| - 1;
    forall i | 0 <= i < n
      ensures ListedSince(k, ops, i, token, exp) <==>
                ListedSince(k, ops[..n], i, token, exp) && !Drops(k, ops, n, token, exp)
    {
      SinceNext(k, ops, i, token, exp);
    }
    assert ListedSince(k, ops, n, token, exp) <==> Remembers(k, ops, n, token, exp);
  }

  /** The table holds the token's row, with its expiry, if some logout wrote it and no
      cleanup has come after its expiry. */
  ghost predicate RowIs(k: Codec, ops: seq<Op>, token: string, exp: int, until: int) {
    var (table, h) := (Run(k, EMPTY, ops).table, k.hash(token));
    && (h in table ==> table[h] == exp && Rowed(k, ops, token))
    && (Rowed(k, ops, token) && until <= exp ==> h in table)
  }

  lemma StepKeepsRow(k: Codec, s: State, op: Op, token: string, p: Payload)
    requires CollisionFree(k) && Carried(k.crypto, token) == Some(p)
    requires k.hash(token) in s.table ==> s.table[k.hash(token)] == p.exp
    ensures var (t, h) := (Apply(k, s, op).table, k.hash(token));
            && (h in t ==> t[h] == p.exp)
            && (h in t ==> h in s.table || (SuccessfulLogout(k, op, token) && !op.insertFails))
            && (h in s.table && End(op) <= p.exp && Begin(op) <= End(op) ==> h in t)
            && (SuccessfulLogout(k, op, token) && !op.insertFails ==> h in t)
  {
    if SuccessfulLogout(k, op, token) { DecodedIsCarried(k.crypto, token, op.accept, op.now); }
  }

  lemma {:induction false} RunKeepsRow(k: Codec, ops: seq<Op>, token: string, p: Payload, from: int, until: int)
    requires CollisionFree(k) && Carried(k.crypto, token) == Some(p) && Orderly(ops, from, until)
    ensures RowIs(k, ops, token, p.exp, until)
    decreases |ops|
  {
    if ops != [] {
      var (rest, last) := (ops[..|ops| - 1], ops[|ops| - 1]);
      RunKeepsRow(k, rest, token, p, from, Begin(last));
      StepKeepsRow(k, Run(k, EMPTY, rest), last, token, p);
      RowedNext(k, ops, token);
    }
  }

  /** What an operation does to one entry, given its row. */
  lemma StepEntry(k: Codec, s: State, op: Op, token: string, exp: int)
    requires CollisionFree(k) && Begin(op) <= End(op)
    requires k.hash(token) in s.table ==> s.table[k.hash(token)] == exp
    ensures var h := k.hash(token);
            var scanned := !op.Logout? && h in op.yielded && h in s.table && End(op) < exp;
            h in Apply(k, s, op).cache <==>
              if op.Logout? then h in s.cache || SuccessfulLogout(k, op, token)
              else if op.Load? then h in s.cache || scanned
              else scanned
  {
  }

  /** The cache holds exactly the listed tokens, after any run in which any statement may
      fail and any scan may stop early. */
  lemma {:induction false} CacheIsListed(k: Codec, ops: seq<Op>, token: string, p: Payload, from: int, until: int)
    requires CollisionFree(k) && Carried(k.crypto, token) == Some(p) && Orderly(ops, from, until)
    ensures k.hash(token) in Run(k, EMPTY, ops).cache <==> Listed(k, ops, token, p.exp)
    decreases |ops|
  {
    if ops != [] {
      var (rest, last) := (ops[..|ops| - 1], ops[|ops| - 1]);
      CacheIsListed(k, rest, token, p, from, Begin(last));
      RunKeepsRow(k, rest, token, p, from, Begin(last));
      StepEntry(k, Run(k, EMPTY, rest), last, token, p.exp);
      ListedNext(k, ops, token, p.exp);
    }
  }

  /** Exactly when a token validates, after any run at all: it decodes as an access token
      and is not listed, that is, every operation that put it on the list is followed by a
      cleanup or restart that missed it. */
  lemma ValidatesIffNotListed(k: Codec, ops: seq<Op>, from: int, token: string, accept: seq<seq<Byte>>, now: int)
    requires CollisionFree(k) && Orderly(ops, from, now)
    ensures var d := DecodeToken(k.crypto, token, accept, now);
            Validates(k, Run(k, EMPTY, ops), token, accept, now)
            <==> d.Ok? && !d.value.IsRefresh() && !Listed(k, ops, token, d.value.exp)
  {
    if DecodeToken(k.crypto, token, accept, now).Ok? {
      DecodedIsCarried(k.crypto, token, accept, now);
      CacheIsListed(k, ops, token, Carried(k.crypto, token).value, from, now);
    }
  }

  predicate LoggedOutBy(k: Codec, ops: seq<Op>, token: string) {
    exists i | 0 <= i < |ops| :: SuccessfulLogout(k, ops[i], token)
  }

  /** Only a token that was logged out is ever listed. */
  lemma ListedWasLoggedOut(k: Codec, ops: seq<Op>, token: string, exp: int)
    requires Listed(k, ops, token, exp)
    ensures LoggedOutBy(k, ops, token)
  {
    var i :| 0 <= i < |ops| && ListedSince(k, ops, i, token, exp);
    if !ops[i].Logout? {
      var j :| 0 <= j < i && SuccessfulLogout(k, ops[..i][j], token);
      assert ops[j] == ops[..i][j];
    }
  }

  /** The row of every logout was written. */
  predicate Persisted(ops: seq<Op>) {
    forall i | 0 <= i < |ops| && ops[i].Logout? :: !ops[i].insertFails
  }

  lemma {:induction false} OrderlyEnds(ops: seq<Op>, from: int, until: int, i: nat)
    requires Orderly(ops, from, until) && i < |ops|
    ensures Begin(ops[i]) <= End(ops[i]) <= until
    decreases |ops|
  {
    if i < |ops| - 1 {
      var (rest, last) := (ops[..|ops| - 1], ops[|ops| - 1]);
      OrderlyEnds(rest, from, Begin(last), i);
      assert rest[i] == ops[i];
    }
  }

  /** A token logged out stays listed until its expiry when rows are written and reloads
      see them. */
  lemma LoggedOutIsListed(k: Codec, ops: seq<Op>, token: string, exp: int, from: int, until: int)
    requires Orderly(ops, from, until) && until < exp && Persisted(ops) && AllReload(ops, k.hash(token))
    requires LoggedOutBy(k, ops, token)
    ensures Listed(k, ops, token, exp)
  {
    var i :| 0 <= i < |ops| && SuccessfulLogout(k, ops[i], token);
    forall j | i < j < |ops| ensures !Drops(k, ops, j, token, exp) {
      OrderlyEnds(ops, from, until, j);
      RowedByThen(k, ops, i, j, token);
      assert Reloads(ops[j], k.hash(token));
    }
    assert ListedSince(k, ops, i, token, exp);
  }

  lemma RowedByThen(k: Codec, ops: seq<Op>, i: nat, j: nat, token: string)
    requires i < j <= |ops| && Persisted(ops) && SuccessfulLogout(k, ops[i], token)
    ensures Rowed(k, ops[..j], token)
  {
    assert ops[..j][i] == ops[i];
  }

  /** Where rows are written and reloads see them, an unexpired access token with an expiry
      is refused exactly when it was logged out on the way: cleanups, loads and restarts
      neither bring a revoked token back nor revoke another one. */
  lemma ValidatesIffNeverLoggedOut(k: Codec, ops: seq<Op>, from: int, token: string, accept: seq<seq<Byte>>, now: int)
    requires CollisionFree(k) && Orderly(ops, from, now) && Persisted(ops) && AllReload(ops, k.hash(token))
    requires var d := DecodeToken(k.crypto, token, accept, now); d.Ok? && !d.value.IsRefresh() && d.value.exp != 0
    ensures Validates(k, Run(k, EMPTY, ops), token, accept, now) <==> !LoggedOutBy(k, ops, token)
  {
    var exp := DecodeToken(k.crypto, token, accept, now).value.exp;
    ValidatesIffNotListed(k, ops, from, token, accept, now);
    DecodedIsCarried(k.crypto, token, accept, now);
    if Listed(k, ops, token, exp) { ListedWasLoggedOut(k, ops, token, exp); }
    if LoggedOutBy(k, ops, token) { LoggedOutIsListed(k, ops, token, exp, from, now); }
  }

  /** A refresh token is no access token: whoever accepts its signature, at any time and
      whatever is on the list, it does not validate. */
  lemma RefreshTokenNeverValidates(
    k: Codec, s: State, p: Payload, secret: seq<Byte>, accept: seq<seq<Byte>>, now: int)
    requires JsonRoundTrips(k.crypto) && p.kind == "refresh"
    ensures !Validates(k, s, EncodeToken(k.crypto, p, secret), accept, now)
  {
    DecodeOfEncode(k.crypto, p, secret, accept, now);
  }

  // -------------------------------------------------------- other spellings

  /** The blacklist knows a token by its text.  Two texts of one token are judged each by
      its own listing, so the one that was never logged out validates whatever happened to
      the other. */
  lemma RespelledTokenValidatesIff(
    k: Codec, ops: seq<Op>, from: int, a: string, b: string, accept: seq<seq<Byte>>, now: int)
    requires CollisionFree(k) && Orderly(ops, from, now) && Respells(a, b)
    requires var d := DecodeToken(k.crypto, a, accept, now); d.Ok? && !d.value.IsRefresh()
    ensures var exp := DecodeToken(k.crypto, a, accept, now).value.exp;
            && (Validates(k, Run(k, EMPTY, ops), a, accept, now) <==> !Listed(k, ops, a, exp))
            && (Validates(k, Run(k, EMPTY, ops), b, accept, now) <==> !Listed(k, ops, b, exp))
    ensures !LoggedOutBy(k, ops, b) ==> Validates(k, Run(k, EMPTY, ops), b, accept, now)
  {
    var exp := DecodeToken(k.crypto, a, accept, now).value.exp;
    RespellingDecodesAlike(k.crypto, a, b, accept, now);
    ValidatesIffNotListed(k, ops, from, a, accept, now);
    ValidatesIffNotListed(k, ops, from, b, accept, now);
    if Listed(k, ops, b, exp) { ListedWasLoggedOut(k, ops, b, exp); }
  }

  /** So a logout is undone by a padding character... */
  lemma PaddedTokenSurvivesLogout(
    k: Codec, ops: seq<Op>, from: int, token: string, accept: seq<seq<Byte>>, now: int)
    requires CollisionFree(k) && Orderly(ops, from, now) && !LoggedOutBy(k, ops, token + "=")
    requires var d := DecodeToken(k.crypto, token, accept, now); d.Ok? && !d.value.IsRefresh()
    ensures token + "=" != token && Validates(k, Run(k, EMPTY, ops), token + "=", accept, now)
  {
    AcceptedTokensAreSigned(k.crypto, token, accept, now);
    PaddingRespells(token);
    assert |token + "="| == |token| + 1;
    RespelledTokenValidatesIff(k, ops, from, token, token + "=", accept, now);
  }

  /** ... at an actual token: signed, with an expiry, logged out, refused, and accepted with
      one more character ... */
  lemma PaddedTokenReturns(k: Codec, secret: seq<Byte>, now: nat)
    requires JsonRoundTrips(k.crypto) && CollisionFree(k)
    ensures var token := EncodeToken(k.crypto, AccessPayload(now + 1), secret);
            var ops := [Logout(token, [secret], now, false, false)];
            && !Validates(k, Run(k, EMPTY, ops), token, [secret], now)
            && Validates(k, Run(k, EMPTY, ops), token + "=", [secret], now)
  {
    var token := EncodeToken(k.crypto, AccessPayload(now + 1), secret);
    var logout := Logout(token, [secret], now, false, false);
    AnyAcceptedSecretRecovers(k.crypto, AccessPayload(now + 1), [secret], 0, now);
    RunOne(k, EMPTY, logout);
    OneOpIsOrderly(logout, now);
    assert |token + "="| == |token| + 1;
    PaddedTokenSurvivesLogout(k, [logout], now, token, [secret], now);
  }

  /** ... and complete where tokens are spelled as the encoder spells them: one text's
      listing then decides for every text. */
  lemma CanonicalLogoutIsComplete(
    k: Codec, ops: seq<Op>, from: int, a: string, b: string, accept: seq<seq<Byte>>, now: int)
    requires CollisionFree(k) && Orderly(ops, from, now)
    requires var d := DecodeToken(k.crypto, a, accept, now); d.Ok? && !d.value.IsRefresh()
    requires Respells(a, b) && Canonical(a) && Canonical(b)
    ensures Validates(k, Run(k, EMPTY, ops), b, accept, now)
            <==> !Listed(k, ops, a, DecodeToken(k.crypto, a, accept, now).value.exp)
  {
    CanonicalIsUnique(a, b);
    RespelledTokenValidatesIff(k, ops, from, a, b, accept, now);
  }
}
