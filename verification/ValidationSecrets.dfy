/**
 The secrets tokens are validated against.  AuthService keeps a list of its own, set once
 and replaced only by SetAcceptSecrets (src/auth/auth_service.cpp), which no rotation
 calls; JwtSecretService keeps the table (src/auth/jwt_secret_service.cpp).
 */
module ValidationSecrets {
  import opened Wrappers
  import opened Base64Url
  import opened Jwt
  import opened Blacklist
  import Secrets = JwtSecrets

  /** Different secrets sign differently. */
  ghost predicate SignsApart(k: Crypto) {
    forall a, b, message | k.hmac(a, message) == k.hmac(b, message) :: a == b
  }

  /** A token that is not revoked validates exactly while it is unexpired and the secret
      that signed it is in the stored list, whatever the table says of that secret. */
  lemma ValidatesIffStored(
    k: Codec, s: State, p: Payload, secret: seq<Byte>, stored: seq<seq<Byte>>, now: int)
    requires JsonRoundTrips(k.crypto) && SignsApart(k.crypto) && !p.IsRefresh()
    requires k.hash(EncodeToken(k.crypto, p, secret)) !in s.cache
    ensures Validates(k, s, EncodeToken(k.crypto, p, secret), stored, now)
            <==> secret in stored && !Expired(p, now)
  {
    DecodeOfEncode(k.crypto, p, secret, stored, now);
    var message := SigningInput(k.crypto, p);
    if i :| 0 <= i < |stored| && k.crypto.hmac(stored[i], message) == k.crypto.hmac(secret, message) {
      assert stored[i] == secret;
    }
    if secret in stored {
      var i :| 0 <= i < |stored| && stored[i] == secret;
      assert k.crypto.hmac(stored[i], message) == k.crypto.hmac(secret, message);
    }
  }

  /** Validation, with nothing revoked, answers for every unexpired access token as the
      table would. */
  ghost predicate FollowsTable(k: Codec, stored: seq<seq<Byte>>, rows: seq<Secrets.Row>, now: int) {
    forall p: Payload, secret: seq<Byte> | !p.IsRefresh() && !Expired(p, now) ::
      Validates(k, EMPTY, EncodeToken(k.crypto, p, secret), stored, now)
      <==> secret in Secrets.Accepted(rows, now)
  }

  /** That is so if and only if the stored list holds the secrets the table accepts now. */
  lemma FollowsTableIff(k: Codec, stored: seq<seq<Byte>>, rows: seq<Secrets.Row>, now: int)
    requires JsonRoundTrips(k.crypto) && SignsApart(k.crypto)
    ensures FollowsTable(k, stored, rows, now)
            <==> forall secret: seq<Byte> :: secret in stored <==> secret in Secrets.Accepted(rows, now)
  {
    forall p: Payload, secret: seq<Byte> | !p.IsRefresh() && !Expired(p, now)
      ensures Validates(k, EMPTY, EncodeToken(k.crypto, p, secret), stored, now) <==> secret in stored
    {
      ValidatesIffStored(k, EMPTY, p, secret, stored, now);
    }
    if FollowsTable(k, stored, rows, now) {
      forall secret: seq<Byte> ensures secret in stored <==> secret in Secrets.Accepted(rows, now) {
        var p := AccessPayload(0);
        assert !p.IsRefresh() && !Expired(p, now);
        assert Validates(k, EMPTY, EncodeToken(k.crypto, p, secret), stored, now)
               <==> secret in Secrets.Accepted(rows, now);
      }
    }
  }

  /** The table of a service with one secret after two rotations. */
  function TwiceRotated(now: int): seq<Secrets.Row> {
    [Secrets.Row("a", [1], Secrets.Retired, Some(now + Secrets.PREV_WINDOW_MS)),
     Secrets.Row("b", [2], Secrets.Prev, Some(now + Secrets.PREV_WINDOW_MS)),
     Secrets.Row("c", [3], Secrets.Current, None)]
  }

  lemma RotateTwice(now: int)
    ensures var once := Secrets.Rotate(Secrets.Single(), now, [2], "b", false);
            Secrets.Rotate(once, now, [3], "c", false).rows == TwiceRotated(now)
  {
    var until := now + Secrets.PREV_WINDOW_MS;
    var (first, second) := (Secrets.Single().rows, TwiceRotated(now)[..2]);
    Secrets.DemotedIds(first, until, "b");
    assert !Secrets.HasId(first, "b");
    var once := Secrets.Rotate(Secrets.Single(), now, [2], "b", false).rows;
    assert once == [Secrets.Row("a", [1], Secrets.Prev, Some(until)), Secrets.Row("b", [2], Secrets.Current, None)];
    Secrets.DemotedIds(once, until, "c");
    assert !Secrets.HasId(once, "c");
    assert Secrets.Demoted(once, until) == second;
  }

  lemma TwiceRotatedAccepts(now: int)
    ensures [1] !in Secrets.Accepted(TwiceRotated(now), now)
  {
    var rows := TwiceRotated(now);
    Secrets.ValuesOfOne(rows, 2, Secrets.Current, now);
    Secrets.ValuesOfOne(rows, 1, Secrets.Prev, now);
    assert Secrets.Accepted(rows, now) == [[3], [2]];
  }

  lemma StoredSingle(now: int)
    ensures [1] in Secrets.Accepted(Secrets.Single().rows, now)
  {
    Secrets.CutScanRejectsSigner(now);
  }

  /** A retired secret at work: after two rotations the table never accepts the first
      secret again, and the service, whose list was stored before, still validates a token
      signed with it. */
  lemma RetiredSecretStillValidates(k: Codec, now: nat)
    requires JsonRoundTrips(k.crypto) && SignsApart(k.crypto)
    ensures var stored := Secrets.Accepted(Secrets.Single().rows, now);
            var once := Secrets.Rotate(Secrets.Single(), now, [2], "b", false);
            var twice := Secrets.Rotate(once, now, [3], "c", false);
            && [1] !in Secrets.Accepted(twice.rows, now)
            && Validates(k, EMPTY, EncodeToken(k.crypto, AccessPayload(now + 1), [1]), stored, now)
  {
    RotateTwice(now);
    TwiceRotatedAccepts(now);
    StoredSingle(now);
    ValidatesIffStored(k, EMPTY, AccessPayload(now + 1), [1], Secrets.Accepted(Secrets.Single().rows, now), now);
  }
}
