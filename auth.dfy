/**
 * internal/auth: credential extraction from the Authorization header, the
 * hex encoding of refresh tokens, and the claim set of access tokens.
 * Signing and verifying access tokens is done by a JWT library and is
 * represented by the functions of a `Jwt` value.
 */
module Auth {
  import opened Wrappers
  import opened GoStrings

  /** An http.Header: canonical header name to its list of values. */
  type Header = map<string, seq<string>>

  /** http.Header.Get: the first value, or "" when the header is absent. */
  function HeaderGet(h: Header, key: string): (r: string)
    ensures key !in h || h[key] == [] ==> r == ""
    ensures key in h && h[key] != [] ==> r == h[key][0]
  {
    if key in h && |h[key]| > 0 then h[key][0] else ""
  }

  function Authorization(h: Header): string {
    HeaderGet(h, "Authorization")
  }

  /** The three distinct errors of GetBearerToken and GetAPIKey. */
  datatype CredentialError = MissingHeader | MalformedHeader | EmptyCredential

  const BearerPrefix: string := "Bearer "
  const ApiKeyPrefix: string := "ApiKey "

  /**
   * The guard chain shared by GetBearerToken and GetAPIKey: a non-empty
   * value, the exact case-sensitive prefix, and a non-blank remainder,
   * which is returned with its surrounding white space removed.
   */
  function ParseCredential(value: string, prefix: string): (r: Result<string, CredentialError>)
    ensures r == Failure(MissingHeader) <==> value == ""
    ensures r == Failure(MalformedHeader) <==> value != "" && !(prefix <= value)
    ensures r == Failure(EmptyCredential) <==> value != "" && prefix <= value && AllSpace(value[|prefix|..])
    ensures r.Success? ==> prefix <= value && r.value == TrimSpace(value[|prefix|..])
    ensures r.Success? ==> r.value != "" && Trimmed(r.value)
  {
    if value == "" then Failure(MissingHeader)
    else if !(prefix <= value) then Failure(MalformedHeader)
    else
      var token := TrimSpace(value[|prefix|..]);
      if token == "" then Failure(EmptyCredential) else Success(token)
  }

  /** Any amount of white space around a trimmed credential after the prefix is accepted and removed. */
  lemma ParseCredentialRoundTrip(prefix: string, lead: string, t: string, trail: string)
    requires AllSpace(lead) && AllSpace(trail)
    requires t != "" && Trimmed(t)
    ensures ParseCredential(prefix + lead + t + trail, prefix) == Success(t)
  {
    var value := prefix + lead + t + trail;
    assert value == prefix + (lead + t + trail);
    assert value[|prefix|..] == lead + t + trail;
    TrimSpacePadded(lead, t, trail);
  }

  /** The scheme must match character for character: a prefix differing anywhere is a format error. */
  lemma ParseCredentialCaseSensitive(prefix: string, other: string, rest: string)
    requires |other| == |prefix| && other != prefix
    ensures ParseCredential(other + rest, prefix) == Failure(MalformedHeader)
  {
    assert (other + rest)[..|prefix|] == other;
  }

  /** auth.GetBearerToken. */
  function GetBearerToken(headers: Header): (r: Result<string, CredentialError>)
    ensures Authorization(headers) == "" ==> r == Failure(MissingHeader)
    ensures r.Success? ==> BearerPrefix <= Authorization(headers) && r.value != "" && Trimmed(r.value)
  {
    ParseCredential(Authorization(headers), BearerPrefix)
  }

  /** auth.GetAPIKey. */
  function GetAPIKey(headers: Header): (r: Result<string, CredentialError>)
    ensures Authorization(headers) == "" ==> r == Failure(MissingHeader)
    ensures r.Success? ==> ApiKeyPrefix <= Authorization(headers) && r.value != "" && Trimmed(r.value)
  {
    ParseCredential(Authorization(headers), ApiKeyPrefix)
  }

  function AuthorizationHeader(value: string): Header {
    map["Authorization" := [value]]
  }

  lemma GetBearerTokenRoundTrip(t: string)
    requires t != "" && Trimmed(t)
    ensures GetBearerToken(AuthorizationHeader(BearerPrefix + t)) == Success(t)
  {
    ParseCredentialRoundTrip(BearerPrefix, "", t, "");
    assert BearerPrefix + "" + t + "" == BearerPrefix + t;
  }

  lemma GetAPIKeyRoundTrip(k: string)
    requires k != "" && Trimmed(k)
    ensures GetAPIKey(AuthorizationHeader(ApiKeyPrefix + k)) == Success(k)
  {
    ParseCredentialRoundTrip(ApiKeyPrefix, "", k, "");
    assert ApiKeyPrefix + "" + k + "" == ApiKeyPrefix + k;
  }

  /**
   * The "missing" error comes exactly from a header set without an
   * Authorization entry, with no values under it, or whose first value is empty.
   */
  lemma GetBearerTokenMissing(h: Header)
    ensures GetBearerToken(h) == Failure(MissingHeader) <==>
      "Authorization" !in h || h["Authorization"] == [] || h["Authorization"][0] == ""
    ensures GetBearerToken(map[]) == Failure(MissingHeader)
    ensures GetBearerToken(AuthorizationHeader("")) == Failure(MissingHeader)
  {
  }

  /** A lower-case scheme, a scheme without its space and another scheme are format errors. */
  lemma GetBearerTokenMalformed()
    ensures GetBearerToken(AuthorizationHeader("bearer x")) == Failure(MalformedHeader)
    ensures GetBearerToken(AuthorizationHeader("Bearer")) == Failure(MalformedHeader)
    ensures GetBearerToken(AuthorizationHeader("Basic abc123")) == Failure(MalformedHeader)
  {
    ParseCredentialCaseSensitive(BearerPrefix, "bearer ", "x");
    assert "bearer " + "x" == "bearer x";
    assert "Basic a"[1] != BearerPrefix[1];
  }

  /** A blank remainder is the "token is missing" error, not the format error. */
  lemma GetBearerTokenBlank()
    ensures GetBearerToken(AuthorizationHeader("Bearer    ")) == Failure(EmptyCredential)
  {
    var v := "Bearer    ";
    assert BearerPrefix <= v;
    assert v[|BearerPrefix|..] == "   ";
    assert AllSpace("   ");
  }

  lemma GetBearerTokenExample()
    ensures GetBearerToken(AuthorizationHeader("Bearer abc123")) == Success("abc123")
  {
    GetBearerTokenRoundTrip("abc123");
    assert BearerPrefix + "abc123" == "Bearer abc123";
  }

  /** The failure cases of GetAPIKey, one input each. */
  lemma GetAPIKeyFailures()
    ensures GetAPIKey(map[]) == Failure(MissingHeader)
    ensures GetAPIKey(AuthorizationHeader("apikey k")) == Failure(MalformedHeader)
    ensures GetAPIKey(AuthorizationHeader("ApiKey")) == Failure(MalformedHeader)
    ensures GetAPIKey(AuthorizationHeader("Bearer k")) == Failure(MalformedHeader)
  {
    ParseCredentialCaseSensitive(ApiKeyPrefix, "apikey ", "k");
    assert "apikey " + "k" == "apikey k";
    assert "Bearer k"[0] != ApiKeyPrefix[0];
  }

  lemma GetAPIKeyBlank()
    ensures GetAPIKey(AuthorizationHeader("ApiKey  \t ")) == Failure(EmptyCredential)
  {
    var v := "ApiKey  \t ";
    assert ApiKeyPrefix <= v;
    assert v[|ApiKeyPrefix|..] == " \t ";
    assert AllSpace(" \t ");
  }

  // ---------------------------------------------------------------------
  // Refresh tokens: 32 random bytes written as lower-case hexadecimal.

  newtype byte = x: int | 0 <= x < 256

  /** Number of random bytes in a refresh token. */
  const RefreshKeyBytes: nat := 32

  /** The character of encoding/hex's table "0123456789abcdef" for a 4-bit value. */
  function HexDigit(d: int): (c: char)
    requires 0 <= d < 16
  {
    if d < 10 then ('0' as int + d) as char else ('a' as int + d - 10) as char
  }

  ghost predicate IsLowerHex(s: string) {
    forall i :: 0 <= i < |s| ==> '0' <= s[i] <= '9' || 'a' <= s[i] <= 'f'
  }

  /** hex.EncodeToString: each byte becomes its high and then its low 4-bit digit. */
  function HexEncode(bs: seq<byte>): (r: string)
    ensures |r| == 2 * |bs|
    ensures IsLowerHex(r)
  {
    if bs == [] then ""
    else
      var rest := HexEncode(bs[1..]);
      var r := [HexDigit(bs[0] as int / 16), HexDigit(bs[0] as int % 16)] + rest;
      assert forall i :: 2 <= i < |r| ==> r[i] == rest[i - 2];
      r
  }

  lemma HexDigitInjective(d: int, e: int)
    requires 0 <= d < 16 && 0 <= e < 16
    ensures HexDigit(d) == HexDigit(e) ==> d == e
  {
  }

  /** Distinct byte strings have distinct encodings. */
  lemma {:induction false} HexEncodeInjective(a: seq<byte>, b: seq<byte>)
    ensures HexEncode(a) == HexEncode(b) ==> a == b
  {
    if HexEncode(a) == HexEncode(b) && a != [] {
      var r := HexEncode(a);
      assert b != [];
      var x, y := a[0] as int, b[0] as int;
      HexDigitInjective(x / 16, y / 16);
      HexDigitInjective(x % 16, y % 16);
      assert r[0] == HexDigit(x / 16) == HexDigit(y / 16);
      assert r[1] == HexDigit(x % 16) == HexDigit(y % 16);
      assert x == 16 * (x / 16) + x % 16;
      assert HexEncode(a[1..]) == r[2..] == HexEncode(b[1..]);
      HexEncodeInjective(a[1..], b[1..]);
      assert a == [a[0]] + a[1..] && b == [b[0]] + b[1..];
    }
  }

  /** Hex digits are not white space, so a refresh token passes through TrimSpace unchanged. */
  lemma HexEncodeTrimmed(bs: seq<byte>)
    requires bs != []
    ensures HexEncode(bs) != "" && NoSpace(HexEncode(bs)) && Trimmed(HexEncode(bs))
  {
  }

  /**
   * auth.MakeRefreshToken. `key` stands for the 32 bytes crypto/rand wrote
   * into the buffer and `readFailed` for rand.Read reporting an error.
   */
  function MakeRefreshToken(key: seq<byte>, readFailed: bool): (r: Result<string, string>)
    requires |key| == RefreshKeyBytes
    ensures r.Failure? <==> readFailed
    ensures r.Success? ==> |r.value| == 64 && IsLowerHex(r.value)
  {
    if readFailed then Failure("Error creating a refresh key")
    else Success(HexEncode(key))
  }

  /** Distinct random keys give distinct refresh tokens. */
  lemma RefreshTokenInjective(k1: seq<byte>, k2: seq<byte>)
    requires |k1| == RefreshKeyBytes && |k2| == RefreshKeyBytes
    ensures k1 != k2 ==> MakeRefreshToken(k1, false) != MakeRefreshToken(k2, false)
  {
    HexEncodeInjective(k1, k2);
  }

  // ---------------------------------------------------------------------
  // Access tokens.

  /** A uuid.UUID. */
  datatype Uuid = Uuid(bytes: seq<byte>)

  /** A point in time, in seconds. */
  type Time = int

  const Issuer: string := "chirpy"

  /** The access-token lifetime MakeJWT fixes: one hour, in seconds. */
  const AccessTokenTtl: int := 3600

  /** jwt.RegisteredClaims as MakeJWT fills them. */
  datatype Claims = Claims(issuer: string, subject: Uuid, issuedAt: Time, expiresAt: Time)

  /**
   * The JWT library: `sign` is HS256 signing of a claim set with a secret
   * (None when signing fails), `verify` parses and checks a token against
   * a secret at a given time and yields the subject (None on any failure).
   */
  datatype Jwt = Jwt(sign: (Claims, string) -> Option<string>, verify: (string, string, Time) -> Option<Uuid>)

  /** Compact JWS serialisations are base64url segments and dots: no white space. */
  ghost predicate SignsCompact(jwt: Jwt) {
    forall c: Claims, key: string :: jwt.sign(c, key).Some? ==> IsField(jwt.sign(c, key).value)
  }

  /** A token signed with a key verifies under that key, to its subject, while its claims are current. */
  ghost predicate VerifiesOwnTokens(jwt: Jwt) {
    forall c: Claims, key: string, t: Time ::
      jwt.sign(c, key).Some? && c.issuedAt <= t < c.expiresAt ==>
        jwt.verify(jwt.sign(c, key).value, key, t) == Some(c.subject)
  }

  /** What the model assumes of the JWT library. */
  ghost predicate JwtSound(jwt: Jwt) {
    SignsCompact(jwt) && VerifiesOwnTokens(jwt)
  }

  /** The claim set of auth.MakeJWT: issuer "chirpy", the user as subject, issued now, expiring one hour later. */
  function AccessClaims(userId: Uuid, now: Time): (c: Claims)
    ensures c.issuer == Issuer && c.subject == userId
    ensures c.issuedAt == now && c.expiresAt - c.issuedAt == AccessTokenTtl
  {
    Claims(Issuer, userId, now, now + AccessTokenTtl)
  }

  /** auth.MakeJWT: a signed token that authenticates the user for the next hour. */
  function MakeJWT(jwt: Jwt, userId: Uuid, secret: string, now: Time): (r: Option<string>)
    ensures JwtSound(jwt) && r.Some? ==> IsField(r.value)
    ensures JwtSound(jwt) && r.Some? ==>
      forall t :: now <= t < now + AccessTokenTtl ==> jwt.verify(r.value, secret, t) == Some(userId)
  {
    jwt.sign(AccessClaims(userId, now), secret)
  }

  /** auth.ValidateJWT: the subject of a current token signed with the secret. */
  function ValidateJWT(jwt: Jwt, token: string, secret: string, now: Time): (r: Option<Uuid>)
    ensures JwtSound(jwt) ==>
      forall c :: jwt.sign(c, secret) == Some(token) && c.issuedAt <= now < c.expiresAt ==> r == Some(c.subject)
  {
    jwt.verify(token, secret, now)
  }

  /** An access token from MakeJWT validates to its user at any time in its hour. */
  lemma AccessTokenRoundTrip(jwt: Jwt, userId: Uuid, secret: string, issued: Time, later: Time)
    requires JwtSound(jwt)
    requires MakeJWT(jwt, userId, secret, issued).Some?
    requires issued <= later < issued + AccessTokenTtl
    ensures ValidateJWT(jwt, MakeJWT(jwt, userId, secret, issued).value, secret, later) == Some(userId)
  {
  }

  /** A bearer header carrying an access token from MakeJWT yields that token. */
  lemma BearerAccessToken(jwt: Jwt, userId: Uuid, secret: string, issued: Time)
    requires JwtSound(jwt)
    requires MakeJWT(jwt, userId, secret, issued).Some?
    ensures GetBearerToken(AuthorizationHeader(BearerPrefix + MakeJWT(jwt, userId, secret, issued).value))
         == Success(MakeJWT(jwt, userId, secret, issued).value)
  {
    var tok := MakeJWT(jwt, userId, secret, issued).value;
    assert Trimmed(tok);
    GetBearerTokenRoundTrip(tok);
  }
}
