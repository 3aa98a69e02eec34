/**
 The HS256 compact token codec (JwtCodec in src/auth/jwt_utils.cpp; section 7.1 of
 RFC 7515, section 4.1.4 of RFC 7519).  HMAC-SHA256 and the JSON writer and reader are
 parameters; JSON is only assumed to read back what it wrote.
 */
module Jwt {
  import opened Wrappers
  import opened Base64Url

  datatype Payload = Payload(
    sub: string, sid: string, iat: int, exp: int, iss: string, aud: string,
    email: string, tenantId: string, role: string,
    kind: string, jti: string)
  {
    predicate IsRefresh() { kind == "refresh" }
  }

  datatype Value = Text(text: string) | Number(number: int)

  type Claims = map<string, Value>

  datatype Crypto = Crypto(
    hmac: (seq<Byte>, string) -> seq<Byte>,
    dump: Claims -> seq<Byte>,
    parse: seq<Byte> -> Option<Claims>)

  datatype AuthError = Unauthorized | TokenExpired

  ghost predicate JsonRoundTrips(k: Crypto) {
    forall c :: k.parse(k.dump(c)) == Some(c)
  }

  // --------------------------------------------------------------- encoding

  const HEADER: Claims := map["alg" := Text("HS256"), "typ" := Text("JWT")]

  function ClaimsOf(p: Payload): Claims {
    var common: Claims :=
      map["sub" := Text(p.sub), "sid" := Text(p.sid), "iat" := Number(p.iat), "exp" := Number(p.exp),
          "iss" := Text(p.iss), "aud" := Text(p.aud)];
    if p.IsRefresh() then common["type" := Text(p.kind)]["jti" := Text(p.jti)]
    else common["email" := Text(p.email)]["tenant_id" := Text(p.tenantId)]["role" := Text(p.role)]
  }

  function SigningInput(k: Crypto, p: Payload): string {
    Encode(k.dump(HEADER)) + "." + Encode(k.dump(ClaimsOf(p)))
  }

  function EncodeToken(k: Crypto, p: Payload, secret: seq<Byte>): string {
    SigningInput(k, p) + "." + Encode(k.hmac(secret, SigningInput(k, p)))
  }

  // --------------------------------------------------------------- decoding

  /** Position of the first `c` at or after `from`, or the length. */
  function Find(s: string, c: char, from: nat): (i: nat)
    requires from <= |s|
    ensures from <= i <= |s| && (i < |s| ==> s[i] == c) && forall j | from <= j < i :: s[j] != c
    decreases |s| - from
  {
    if from == |s| || s[from] == c then from else Find(s, c, from + 1)
  }

  datatype Segments = Segments(header: string, payload: string, signature: string, signed: string)

  /** The token's three segments, if it has exactly three. */
  function SplitToken(token: string): Option<Segments> {
    var dot1 := Find(token, '.', 0);
    if dot1 == |token| then None
    else
      var dot2 := Find(token, '.', dot1 + 1);
      if dot2 == |token| || Find(token, '.', dot2 + 1) < |token| then None
      else Some(Segments(token[..dot1], token[dot1 + 1..dot2], token[dot2 + 1..], token[..dot2]))
  }

  /** json.value(key, default): the default when absent, an exception on another type. */
  function TextClaim(c: Claims, key: string): Option<string> {
    if key !in c then Some("") else if c[key].Text? then Some(c[key].text) else None
  }

  function NumberClaim(c: Claims, key: string): Option<int> {
    if key !in c then Some(0) else if c[key].Number? then Some(c[key].number) else None
  }

  function PayloadOf(c: Claims): Option<Payload> {
    var texts := ["sub", "sid", "iss", "aud", "email", "tenant_id", "role", "type", "jti"];
    if (exists i | 0 <= i < |texts| :: TextClaim(c, texts[i]).None?) || NumberClaim(c, "iat").None?
      || NumberClaim(c, "exp").None?
    then None
    else
      assert forall i | 0 <= i < |texts| :: TextClaim(c, texts[i]).Some?;
      assert texts[0] == "sub" && texts[1] == "sid" && texts[2] == "iss" && texts[3] == "aud" && texts[4] == "email";
      assert texts[5] == "tenant_id" && texts[6] == "role" && texts[7] == "type" && texts[8] == "jti";
      Some(Payload(TextClaim(c, "sub").value, TextClaim(c, "sid").value, NumberClaim(c, "iat").value,
                   NumberClaim(c, "exp").value, TextClaim(c, "iss").value, TextClaim(c, "aud").value,
                   TextClaim(c, "email").value, TextClaim(c, "tenant_id").value, TextClaim(c, "role").value,
                   TextClaim(c, "type").value, TextClaim(c, "jti").value))
  }

  predicate HeaderOk(k: Crypto, header: seq<Byte>) {
    var h := k.parse(header);
    h.Some? && "alg" in h.value && h.value["alg"] == Text("HS256")
  }

  predicate SignedBy(k: Crypto, accept: seq<seq<Byte>>, signed: string, signature: seq<Byte>) {
    exists i | 0 <= i < |accept| :: k.hmac(accept[i], signed) == signature
  }

  predicate Expired(p: Payload, now: int) {
    p.exp != 0 && now >= p.exp
  }

  function DecodeToken(k: Crypto, token: string, accept: seq<seq<Byte>>, now: int): Result<Payload, AuthError> {
    var parts := SplitToken(token);
    if parts.None? then Err(Unauthorized)
    else
      var header := Decode(parts.value.header);
      if header.Err? || !HeaderOk(k, header.value) then Err(Unauthorized)
      else
        var signature := Decode(parts.value.signature);
        if signature.Err? || !SignedBy(k, accept, parts.value.signed, signature.value) then Err(Unauthorized)
        else
          var payload := Decode(parts.value.payload);
          if payload.Err? || k.parse(payload.value).None? || PayloadOf(k.parse(payload.value).value).None?
          then Err(Unauthorized)
          else
            var p := PayloadOf(k.parse(payload.value).value).value;
            if Expired(p, now) then Err(TokenExpired) else Ok(p)
  }

  /** The codec's own control flow: checks in order, and a loop over the accepted
      secrets. */
  method DecodeJwt(k: Crypto, token: string, accept: seq<seq<Byte>>, now: int) returns (r: Result<Payload, AuthError>)
    ensures r == DecodeToken(k, token, accept, now)
  {
    var parts := SplitToken(token);
    if parts.None? { return Err(Unauthorized); }
    var header := Base64UrlDecode(parts.value.header);
    if header.Err? || !HeaderOk(k, header.value) { return Err(Unauthorized); }
    var signature := Base64UrlDecode(parts.value.signature);
    if signature.Err? { return Err(Unauthorized); }
    var signed := false;
    var i := 0;
    while i < |accept| && !signed
      invariant 0 <= i <= |accept|
      invariant signed ==> SignedBy(k, accept, parts.value.signed, signature.value)
      invariant !signed ==> forall j | 0 <= j < i :: k.hmac(accept[j], parts.value.signed) != signature.value
    {
      signed := k.hmac(accept[i], parts.value.signed) == signature.value;
      i := i + 1;
    }
    if !signed { return Err(Unauthorized); }
    var payload := Base64UrlDecode(parts.value.payload);
    if payload.Err? { return Err(Unauthorized); }
    var claims := k.parse(payload.value);
    if claims.None? || PayloadOf(claims.value).None? { return Err(Unauthorized); }
    var p := PayloadOf(claims.value).value;
    if p.exp != 0 && now >= p.exp { return Err(TokenExpired); }
    r := Ok(p);
  }

  // --------------------------------------------------------------- theorems

  lemma FindIs(s: string, c: char, from: nat, p: nat)
    requires from <= p <= |s| && (p < |s| ==> s[p] == c) && forall j | from <= j < p :: s[j] != c
    ensures Find(s, c, from) == p
  {
  }

  /** Three dot-free parts joined by dots are found again. */
  lemma SplitUndoesJoin(a: string, b: string, c: string)
    requires '.' !in a && '.' !in b && '.' !in c
    ensures SplitToken(a + "." + b + "." + c) == Some(Segments(a, b, c, a + "." + b))
  {
    var token := a + "." + b + "." + c;
    var (dot1, dot2) := (|a|, |a| + 1 + |b|);
    assert token[..dot1] == a && token[dot1 + 1..dot2] == b && token[dot2 + 1..] == c && token[..dot2] == a + "." + b;
    assert token[dot1] == '.' && token[dot2] == '.';
    forall j | 0 <= j < |token| && j != dot1 && j != dot2 ensures token[j] != '.' {
      if j < dot1 {
        assert token[j] == a[j];
      } else if j < dot2 {
        assert token[j] == b[j - dot1 - 1];
      } else {
        assert token[j] == c[j - dot2 - 1];
      }
    }
    FindIs(token, '.', 0, dot1);
    FindIs(token, '.', dot1 + 1, dot2);
    FindIs(token, '.', dot2 + 1, |token|);
  }

  /** And conversely: segments that are found are dot-free and make up the token. */
  lemma JoinUndoesSplit(token: string)
    requires SplitToken(token).Some?
    ensures var parts := SplitToken(token).value;
            && token == parts.header + "." + parts.payload + "." + parts.signature
            && parts.signed == parts.header + "." + parts.payload
            && '.' !in parts.header && '.' !in parts.payload && '.' !in parts.signature
  {
    var dot1 := Find(token, '.', 0);
    var dot2 := Find(token, '.', dot1 + 1);
    assert token[..dot2] == token[..dot1] + "." + token[dot1 + 1..dot2];
    assert token == token[..dot2] + "." + token[dot2 + 1..];
  }

  /** The claims an encoded token carries: the other kind's fields are not emitted. */
  function Emitted(p: Payload): Payload {
    if p.IsRefresh() then p.(email := "", tenantId := "", role := "") else p.(kind := "", jti := "")
  }

  lemma ClaimsReadBack(p: Payload)
    ensures PayloadOf(ClaimsOf(p)) == Some(Emitted(p))
  {
    var c := ClaimsOf(p);
    var texts := ["sub", "sid", "iss", "aud", "email", "tenant_id", "role", "type", "jti"];
    forall i | 0 <= i < |texts| ensures TextClaim(c, texts[i]).Some? {
    }
  }

  lemma DecodeEncoding(k: Crypto, p: Payload, secret: seq<Byte>, accept: seq<seq<Byte>>, now: int)
    requires JsonRoundTrips(k)
    ensures DecodeToken(k, EncodeToken(k, p, secret), accept, now) ==
            if !SignedBy(k, accept, SigningInput(k, p), k.hmac(secret, SigningInput(k, p))) then Err(Unauthorized)
            else if Expired(p, now) then Err(TokenExpired)
            else Ok(Emitted(p))
  {
    var (header, claims) := (k.dump(HEADER), k.dump(ClaimsOf(p)));
    var signature := k.hmac(secret, SigningInput(k, p));
    DecodeUndoesEncode(header);
    DecodeUndoesEncode(claims);
    DecodeUndoesEncode(signature);
    SplitUndoesJoin(Encode(header), Encode(claims), Encode(signature));
    ClaimsReadBack(p);
    assert k.parse(header) == Some(HEADER) && k.parse(claims) == Some(ClaimsOf(p));
  }

  /** Decoding an encoded token, against any accepted list and at any time, yields every
      emitted claim exactly when some accepted secret signs as the encoder's did and the
      token has not expired; otherwise it fails with the matching error. */
  lemma DecodeOfEncode(k: Crypto, p: Payload, secret: seq<Byte>, accept: seq<seq<Byte>>, now: int)
    requires JsonRoundTrips(k)
    ensures DecodeToken(k, EncodeToken(k, p, secret), accept, now) ==
            if !SignedBy(k, accept, SigningInput(k, p), k.hmac(secret, SigningInput(k, p))) then Err(Unauthorized)
            else if p.exp != 0 && now >= p.exp then Err(TokenExpired)
            else Ok(Emitted(p))
  {
    DecodeEncoding(k, p, secret, accept, now);
  }

  /** The dual-key window: a token signed with any secret of the list is recovered. */
  lemma AnyAcceptedSecretRecovers(k: Crypto, p: Payload, accept: seq<seq<Byte>>, i: nat, now: int)
    requires JsonRoundTrips(k) && i < |accept| && !Expired(p, now)
    ensures DecodeToken(k, EncodeToken(k, p, accept[i]), accept, now) == Ok(Emitted(p))
  {
    DecodeOfEncode(k, p, accept[i], accept, now);
    assert SignedBy(k, accept, SigningInput(k, p), k.hmac(accept[i], SigningInput(k, p)));
  }

  /** Whatever is accepted was signed: an accepted secret produces the last segment of a
      token that decodes over everything before its last dot, and it has not expired. */
  lemma AcceptedTokensAreSigned(k: Crypto, token: string, accept: seq<seq<Byte>>, now: int)
    requires DecodeToken(k, token, accept, now).Ok?
    ensures var parts := SplitToken(token);
            && parts.Some?
            && Decode(parts.value.signature).Ok?
            && SignedBy(k, accept, parts.value.signed, Decode(parts.value.signature).value)
            && token == parts.value.signed + "." + parts.value.signature
            && '.' !in parts.value.signature
            && var p := DecodeToken(k, token, accept, now).value; p.exp == 0 || now < p.exp
  {
    JoinUndoesSplit(token);
  }

  /** No other algorithm: a token that decodes has a header that says HS256. */
  lemma AcceptedHeaderIsHs256(k: Crypto, token: string, accept: seq<seq<Byte>>, now: int)
    requires DecodeToken(k, token, accept, now).Ok?
    ensures SplitToken(token).Some? && Decode(SplitToken(token).value.header).Ok?
    ensures var header := k.parse(Decode(SplitToken(token).value.header).value);
            header.Some? && "alg" in header.value && header.value["alg"] == Text("HS256")
  {
  }

  /** The claims under their names: six common ones, then a refresh token's two or an
      access token's three. */
  lemma ClaimsAreNamed(p: Payload)
    ensures var c := ClaimsOf(p);
            && c.Keys == {"sub", "sid", "iat", "exp", "iss", "aud"}
                         + (if p.kind == "refresh" then {"type", "jti"} else {"email", "tenant_id", "role"})
            && c["sub"] == Text(p.sub) && c["sid"] == Text(p.sid) && c["iat"] == Number(p.iat)
            && c["exp"] == Number(p.exp) && c["iss"] == Text(p.iss) && c["aud"] == Text(p.aud)
            && (p.kind == "refresh" ==> c["type"] == Text("refresh") && c["jti"] == Text(p.jti))
            && (p.kind != "refresh" ==>
                  c["email"] == Text(p.email) && c["tenant_id"] == Text(p.tenantId) && c["role"] == Text(p.role))
  {
  }

  // -------------------------------------------------------------- spellings

  /** Two texts of one token: the same signed text, and signatures that decode alike.  The
      signature alone can be respelled, since the rest is signed as text. */
  predicate Respells(a: string, b: string) {
    && SplitToken(a).Some? && SplitToken(b).Some?
    && SplitToken(a).value.header == SplitToken(b).value.header
    && SplitToken(a).value.payload == SplitToken(b).value.payload
    && Decode(SplitToken(a).value.signature).Ok?
    && Decode(SplitToken(b).value.signature) == Decode(SplitToken(a).value.signature)
  }

  lemma RespellingDecodesAlike(k: Crypto, a: string, b: string, accept: seq<seq<Byte>>, now: int)
    requires Respells(a, b)
    ensures DecodeToken(k, a, accept, now) == DecodeToken(k, b, accept, now)
  {
    JoinUndoesSplit(a);
    JoinUndoesSplit(b);
  }

  /** The signature is spelled as the encoder spells it. */
  predicate Canonical(token: string) {
    && SplitToken(token).Some?
    && Decode(SplitToken(token).value.signature).Ok?
    && SplitToken(token).value.signature == Encode(Decode(SplitToken(token).value.signature).value)
  }

  lemma EncodedIsCanonical(k: Crypto, p: Payload, secret: seq<Byte>)
    ensures Canonical(EncodeToken(k, p, secret))
  {
    var (header, claims) := (k.dump(HEADER), k.dump(ClaimsOf(p)));
    var signature := k.hmac(secret, SigningInput(k, p));
    DecodeUndoesEncode(header);
    DecodeUndoesEncode(claims);
    DecodeUndoesEncode(signature);
    SplitUndoesJoin(Encode(header), Encode(claims), Encode(signature));
  }

  /** A token has one canonical text. */
  lemma CanonicalIsUnique(a: string, b: string)
    requires Respells(a, b) && Canonical(a) && Canonical(b)
    ensures a == b
  {
    JoinUndoesSplit(a);
    JoinUndoesSplit(b);
  }

  /** And others: the decoder ignores padding. */
  lemma PaddingRespells(token: string)
    requires SplitToken(token).Some? && Decode(SplitToken(token).value.signature).Ok?
    ensures Respells(token, token + "=") && !Canonical(token + "=")
  {
    JoinUndoesSplit(token);
    var parts := SplitToken(token).value;
    assert token + "=" == parts.header + "." + parts.payload + "." + (parts.signature + "=");
    SplitUndoesJoin(parts.header, parts.payload, parts.signature + "=");
    ReadAppend(parts.signature, '=');
    DecodeUndoesEncode(Decode(parts.signature).value);
    assert (parts.signature + "=")[|parts.signature|] == '=';
  }
}
