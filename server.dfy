/**
 * The handlers of chirps.go and users.go, as methods of the server
 * configuration. The database is abstracted to three tables held in
 * fields; a `...Fault` parameter stands for the database reporting an
 * error that the tables do not explain (the service being unavailable).
 * Request bodies arrive decoded: None means the JSON did not decode.
 */
module Server {
  import opened Wrappers
  import opened GoStrings
  import opened Auth
  import opened Http
  import Chirps

  /** A row of the users table. */
  datatype User = User(createdAt: Time, updatedAt: Time, email: string, hashedPassword: string, isChirpyRed: bool)

  /** A row of the refresh_tokens table; revokedAt None means active. */
  datatype RefreshToken = RefreshToken(userId: Uuid, expiresAt: Time, revokedAt: Option<Time>)

  /** The refresh-token lifetime handlerLogin sets: 60 days, in seconds. */
  const RefreshTokenLifetime: int := 60 * 24 * 60 * 60

  /** The expires_in_seconds handlerLogin substitutes for 0. */
  const DefaultExpiresIn: int := 3600

  /** The event that handlerUpgradeUser acts on. */
  const UpgradeEvent: string := "user.upgraded"

  datatype LoginParams = LoginParams(password: string, email: string, expiresIn: int)

  /** The webhook body; userId is None when uuid.Parse rejects data.user_id. */
  datatype UpgradeParams = UpgradeParams(event: string, userId: Option<Uuid>)

  /** What a handler writes after the status line. */
  datatype Payload =
    | NoBody
    | ErrorBody(error: string)
    | JsonString(text: string)
    | ChirpBody(row: Chirps.DbChirp)
    | ChirpList(chirps: seq<Chirps.Chirp>)
    | LoginBody(id: Uuid, createdAt: Time, updatedAt: Time, email: string, isChirpyRed: bool,
                token: string, refreshToken: string)

  datatype Reply = Reply(status: int, payload: Payload)

  /** What a successful credential check of handlerLogin has produced. */
  datatype Grant = Grant(userId: Uuid, user: User, token: string, refreshToken: string)

  /** No refresh token disappears and no revocation is undone. */
  ghost predicate RevocationsKept(before: map<string, RefreshToken>, after: map<string, RefreshToken>) {
    forall t :: t in before ==> t in after && (before[t].revokedAt.Some? ==> after[t].revokedAt.Some?)
  }

  /** Every existing refresh token keeps its revokedAt. */
  ghost predicate RevokedAtUnchanged(before: map<string, RefreshToken>, after: map<string, RefreshToken>) {
    forall t :: t in before ==> t in after && after[t].revokedAt == before[t].revokedAt
  }

  /** The users table's constraint: no two users share an e-mail address. */
  ghost predicate EmailsUnique(users: map<Uuid, User>) {
    forall a, b :: a in users && b in users && users[a].email == users[b].email ==> a == b
  }

  /** The chirps table's constraint: every row is stored under its own id. */
  ghost predicate ChirpsKeyed(chirps: map<Uuid, Chirps.DbChirp>) {
    forall id :: id in chirps ==> chirps[id].id == id
  }

  /** Every stored chirp body is within the length limit, in UTF-8 bytes. */
  ghost predicate ChirpsFit(chirps: map<Uuid, Chirps.DbChirp>) {
    forall id :: id in chirps ==> ByteLen(chirps[id].body) <= Chirps.MaxChirpLength
  }

  /** Changing a user's row without touching the e-mail address keeps the addresses unique. */
  lemma UpdateKeepsEmailsUnique(users: map<Uuid, User>, id: Uuid, u: User)
    requires EmailsUnique(users) && id in users && u.email == users[id].email
    ensures EmailsUnique(users[id := u])
  {
    var after := users[id := u];
    forall a, b | a in after && b in after && after[a].email == after[b].email ensures a == b {
      assert after[a].email == users[a].email && after[b].email == users[b].email;
    }
  }

  /** The apiConfig of the server, with the database tables it reads and writes. */
  class ApiConfig {
    const secret: string
    const polkaKey: string
    const jwt: Jwt
    /** bcrypt.CompareHashAndPassword(hash, password) reporting no error. */
    const passwordMatches: (string, string) -> bool

    var users: map<Uuid, User>
    var chirps: map<Uuid, Chirps.DbChirp>
    var refreshTokens: map<string, RefreshToken>

    /** The table constraints: unique e-mail addresses, chirps keyed by their id and within the length limit. */
    ghost predicate Valid()
      reads this
    {
      EmailsUnique(users) && ChirpsKeyed(chirps) && ChirpsFit(chirps)
    }

    constructor(secret: string, polkaKey: string, jwt: Jwt, passwordMatches: (string, string) -> bool)
      ensures this.secret == secret && this.polkaKey == polkaKey
      ensures this.jwt == jwt && this.passwordMatches == passwordMatches
      ensures users == map[] && chirps == map[] && refreshTokens == map[]
      ensures Valid()
    {
      this.secret := secret;
      this.polkaKey := polkaKey;
      this.jwt := jwt;
      this.passwordMatches := passwordMatches;
      users, chirps, refreshTokens := map[], map[], map[];
    }

    /** The user the access token in the Authorization header authenticates, if any. */
    function AccessUser(headers: Header, now: Time): (r: Option<Uuid>)
      reads this
      ensures GetBearerToken(headers).Failure? ==> r.None?
      ensures GetBearerToken(headers).Success? ==> r == ValidateJWT(jwt, GetBearerToken(headers).value, secret, now)
    {
      var token := GetBearerToken(headers);
      if token.Failure? then None else ValidateJWT(jwt, token.value, secret, now)
    }

    /** A bearer header with an access token issued for a user authenticates that user for the token's hour. */
    lemma AccessUserOfIssued(userId: Uuid, issued: Time, later: Time)
      requires JwtSound(jwt)
      requires MakeJWT(jwt, userId, secret, issued).Some?
      requires issued <= later < issued + AccessTokenTtl
      ensures AccessUser(AuthorizationHeader(BearerPrefix + MakeJWT(jwt, userId, secret, issued).value), later)
           == Some(userId)
    {
      BearerAccessToken(jwt, userId, secret, issued);
      AccessTokenRoundTrip(jwt, userId, secret, issued, later);
    }

    // -------------------------------------------------------------------
    // chirps.go

    /** handlerDeleteChirp: only the owner of an existing chirp deletes it. */
    method DeleteChirp(headers: Header, chirpId: Option<Uuid>, now: Time, lookupFault: bool, deleteFault: bool)
      returns (reply: Reply)
      requires Valid()
      modifies this
      ensures Valid()
      ensures users == old(users) && refreshTokens == old(refreshTokens)
      ensures chirpId.None? || AccessUser(headers, now).None? ==>
        reply.status == StatusInternalServerError && chirps == old(chirps)
      ensures chirpId.Some? && AccessUser(headers, now).Some? ==>
        var id, user := chirpId.value, AccessUser(headers, now).value;
        if lookupFault || id !in old(chirps) then
          reply == Reply(StatusNotFound, ErrorBody("Chirp could not be found")) && chirps == old(chirps)
        else if old(chirps)[id].userId != user then
          reply == Reply(StatusForbidden, ErrorBody("Chirp does not belong to user")) && chirps == old(chirps)
        else if deleteFault then
          reply.status == StatusInternalServerError && chirps == old(chirps)
        else
          reply == Reply(StatusNoContent, NoBody) && chirps == old(chirps) - {id}
      ensures chirps != old(chirps) ==>
        reply.status == StatusNoContent && chirpId.Some? && chirpId.value in old(chirps)
        && AccessUser(headers, now) == Some(old(chirps)[chirpId.value].userId)
    {
      if chirpId.None? {
        return Reply(StatusInternalServerError, ErrorBody("Server could not parse the chirp ID"));
      }
      var token := GetBearerToken(headers);
      if token.Failure? {
        return Reply(StatusInternalServerError, ErrorBody("Server couldn't extract the authorization header"));
      }
      var userId := ValidateJWT(jwt, token.value, secret, now);
      if userId.None? {
        return Reply(StatusInternalServerError, ErrorBody("Server couldn't validate the access token"));
      }
      var id := chirpId.value;
      if lookupFault || id !in chirps {
        return Reply(StatusNotFound, ErrorBody("Chirp could not be found"));
      }
      if userId.value != chirps[id].userId {
        return Reply(StatusForbidden, ErrorBody("Chirp does not belong to user"));
      }
      if deleteFault {
        return Reply(StatusInternalServerError, ErrorBody("Server couldn't delete chirp"));
      }
      chirps := chirps - {id};
      return Reply(StatusNoContent, NoBody);
    }

    /** handlerGetAllChirps: `query` is the result of the GetAllChirps query, None when it fails. */
    method GetAllChirps(query: Option<seq<Chirps.DbChirp>>) returns (reply: Reply)
      ensures query.None? ==> reply == Reply(StatusInternalServerError, ErrorBody("Could not get Chirps"))
      ensures query.Some? ==> reply.status == StatusOK && reply.payload.ChirpList?
      ensures query.Some? ==> |reply.payload.chirps| == |query.value|
      ensures query.Some? ==>
        forall i :: 0 <= i < |query.value| ==> Chirps.Copies(reply.payload.chirps[i], query.value[i])
    {
      if query.None? {
        return Reply(StatusInternalServerError, ErrorBody("Could not get Chirps"));
      }
      var rows := query.value;
      var out: seq<Chirps.Chirp> := [];
      for i := 0 to |rows|
        invariant |out| == i
        invariant forall k :: 0 <= k < i ==> Chirps.Copies(out[k], rows[k])
      {
        var row := rows[i];
        out := out + [Chirps.Chirp(row.id, row.createdAt, row.updatedAt, row.body, row.userId)];
      }
      return Reply(StatusOK, ChirpList(out));
    }

    /**
     * handlerCreateChirp: an authenticated body of at most 140 bytes is
     * filtered and stored under the id the database assigns (`newId`).
     */
    method CreateChirp(headers: Header, body: Option<string>, now: Time, newId: Uuid, insertFault: bool)
      returns (reply: Reply)
      requires Valid()
      modifies this
      ensures Valid()
      ensures users == old(users) && refreshTokens == old(refreshTokens)
      ensures AccessUser(headers, now).None? ==> reply.status == StatusUnauthorized && chirps == old(chirps)
      ensures AccessUser(headers, now).Some? && body.None? ==>
        reply == Reply(StatusBadRequest, JsonString("Invalid JSON")) && chirps == old(chirps)
      ensures AccessUser(headers, now).Some? && body.Some? && ByteLen(body.value) > Chirps.MaxChirpLength ==>
        reply == Reply(StatusBadRequest, ErrorBody("Chirp is too long")) && chirps == old(chirps)
      ensures AccessUser(headers, now).Some? && body.Some? && ByteLen(body.value) <= Chirps.MaxChirpLength ==>
        var row := Chirps.DbChirp(newId, now, now, Chirps.Cleaned(body.value), AccessUser(headers, now).value);
        if insertFault || newId in old(chirps) then
          reply.status == StatusInternalServerError && chirps == old(chirps)
        else
          reply == Reply(StatusCreated, ChirpBody(row)) && chirps == old(chirps)[newId := row]
      ensures chirps != old(chirps) ==> reply.status == StatusCreated && body.Some? && ByteLen(body.value) <= Chirps.MaxChirpLength
    {
      var token := GetBearerToken(headers);
      if token.Failure? {
        return Reply(StatusUnauthorized, ErrorBody("User does not possess a login token"));
      }
      var userId := ValidateJWT(jwt, token.value, secret, now);
      if userId.None? {
        return Reply(StatusUnauthorized, ErrorBody("401 Unauthorized"));
      }
      if body.None? {
        return Reply(StatusBadRequest, JsonString("Invalid JSON"));
      }
      if ByteLen(body.value) > Chirps.MaxChirpLength {
        return Reply(StatusBadRequest, ErrorBody("Chirp is too long"));
      }
      var cleaned := Chirps.CleanChirp(body.value);
      if insertFault || newId in chirps {
        return Reply(StatusInternalServerError, ErrorBody("Could not create the chirp"));
      }
      var row := Chirps.DbChirp(newId, now, now, cleaned, userId.value);
      chirps := chirps[newId := row];
      return Reply(StatusCreated, ChirpBody(row));
    }

    // -------------------------------------------------------------------
    // users.go

    /**
     * handlerUpgradeUser: the payment provider's webhook, authenticated by
     * the "ApiKey" scheme and the configured polka key.
     */
    method UpgradeUser(headers: Header, params: Option<UpgradeParams>, fault: bool) returns (reply: Reply)
      requires Valid()
      modifies this
      ensures Valid()
      ensures chirps == old(chirps) && refreshTokens == old(refreshTokens)
      ensures GetAPIKey(headers) != Success(polkaKey) ==>
        reply == Reply(StatusUnauthorized, NoBody) && users == old(users)
      ensures GetAPIKey(headers) == Success(polkaKey) && params.None? ==>
        reply == Reply(StatusInternalServerError, NoBody) && users == old(users)
      ensures GetAPIKey(headers) == Success(polkaKey) && params.Some? && params.value.event != UpgradeEvent ==>
        reply == Reply(StatusNoContent, NoBody) && users == old(users)
      ensures GetAPIKey(headers) == Success(polkaKey) && params.Some? && params.value.event == UpgradeEvent ==>
        match params.value.userId
        case None => reply == Reply(StatusInternalServerError, NoBody) && users == old(users)
        case Some(id) =>
          if fault then
            reply == Reply(StatusNotFound, NoBody) && users == old(users)
          else if id !in old(users) then
            reply == Reply(StatusNoContent, NoBody) && users == old(users)
          else
            reply == Reply(StatusNoContent, NoBody)
            && users == old(users)[id := old(users)[id].(isChirpyRed := true)]
    {
      var apiKey := GetAPIKey(headers);
      if apiKey.Failure? {
        return Reply(StatusUnauthorized, NoBody);
      }
      if apiKey.value != polkaKey {
        return Reply(StatusUnauthorized, NoBody);
      }
      if params.None? {
        return Reply(StatusInternalServerError, NoBody);
      }
      if params.value.event != UpgradeEvent {
        return Reply(StatusNoContent, NoBody);
      }
      if params.value.userId.None? {
        return Reply(StatusInternalServerError, NoBody);
      }
      var id := params.value.userId.value;
      if fault {
        return Reply(StatusNotFound, NoBody);
      }
      if id !in users {
        // The UPDATE matches no row, which is not an error.
        return Reply(StatusNoContent, NoBody);
      }
      UpdateKeepsEmailsUnique(users, id, users[id].(isChirpyRed := true));
      users := users[id := users[id].(isChirpyRed := true)];
      return Reply(StatusNoContent, NoBody);
    }

    /** handlerRevokeRefresh: marks the presented refresh token revoked now. */
    method Revoke(headers: Header, now: Time, fault: bool) returns (reply: Reply)
      requires Valid()
      modifies this
      ensures Valid()
      ensures users == old(users) && chirps == old(chirps)
      ensures RevocationsKept(old(refreshTokens), refreshTokens)
      ensures GetBearerToken(headers).Failure? ==>
        reply == Reply(StatusBadRequest, ErrorBody("User does not possess a refresh token"))
        && refreshTokens == old(refreshTokens)
      ensures GetBearerToken(headers).Success? ==>
        var t := GetBearerToken(headers).value;
        if fault then
          reply == Reply(StatusBadRequest, ErrorBody("Unable to revoke refresh"))
          && refreshTokens == old(refreshTokens)
        else if t !in old(refreshTokens) then
          reply == Reply(StatusNoContent, NoBody) && refreshTokens == old(refreshTokens)
        else
          reply == Reply(StatusNoContent, NoBody)
          && refreshTokens == old(refreshTokens)[t := old(refreshTokens)[t].(revokedAt := Some(now))]
    {
      var token := GetBearerToken(headers);
      if token.Failure? {
        return Reply(StatusBadRequest, ErrorBody("User does not possess a refresh token"));
      }
      if fault {
        return Reply(StatusBadRequest, ErrorBody("Unable to revoke refresh"));
      }
      if token.value !in refreshTokens {
        // The UPDATE matches no row, which is not an error.
        return Reply(StatusNoContent, NoBody);
      }
      refreshTokens := refreshTokens[token.value := refreshTokens[token.value].(revokedAt := Some(now))];
      return Reply(StatusNoContent, NoBody);
    }

    /**
     * handlerRefresh as written: a known, unrevoked refresh token buys a new
     * access token for its owner. The token's expiresAt is never read.
     */
    method Refresh(headers: Header, now: Time, lookupFault: bool) returns (reply: Reply)
      ensures GetBearerToken(headers).Failure? ==>
        reply == Reply(StatusUnauthorized, ErrorBody("User does not possess a refresh token"))
      ensures GetBearerToken(headers).Success? ==>
        var t := GetBearerToken(headers).value;
        if lookupFault || t !in refreshTokens then
          reply == Reply(StatusUnauthorized, ErrorBody("Couldn't find the token in the DB"))
        else if refreshTokens[t].revokedAt.Some? then
          reply == Reply(StatusUnauthorized, ErrorBody("The refresh token has been revoked"))
        else
          match MakeJWT(jwt, refreshTokens[t].userId, secret, now)
          case None => reply.status == StatusInternalServerError
          case Some(access) => reply == Reply(StatusOK, JsonString(access))
      ensures reply.status == StatusOK ==>
        GetBearerToken(headers).Success? && GetBearerToken(headers).value in refreshTokens
        && refreshTokens[GetBearerToken(headers).value].revokedAt.None?
      // The gap: an active token whose expiry has passed is still exchanged.
      ensures GetBearerToken(headers).Success? && !lookupFault && GetBearerToken(headers).value in refreshTokens ==>
        var row := refreshTokens[GetBearerToken(headers).value];
        row.revokedAt.None? && row.expiresAt <= now && MakeJWT(jwt, row.userId, secret, now).Some? ==>
          reply.status == StatusOK
    {
      var token := GetBearerToken(headers);
      if token.Failure? {
        return Reply(StatusUnauthorized, ErrorBody("User does not possess a refresh token"));
      }
      if lookupFault || token.value !in refreshTokens {
        return Reply(StatusUnauthorized, ErrorBody("Couldn't find the token in the DB"));
      }
      var row := refreshTokens[token.value];
      if row.revokedAt.Some? {
        return Reply(StatusUnauthorized, ErrorBody("The refresh token has been revoked"));
      }
      var access := MakeJWT(jwt, row.userId, secret, now);
      if access.None? {
        return Reply(StatusInternalServerError, ErrorBody("Coudln't create a new access token"));
      }
      return Reply(StatusOK, JsonString(access.value));
    }

    /**
     * handlerRefresh with the expiry check it lacks: a token is exchanged
     * only when it exists, is unrevoked and expires strictly after now.
     */
    method RefreshCorrected(headers: Header, now: Time, lookupFault: bool) returns (reply: Reply)
      ensures GetBearerToken(headers).Failure? ==>
        reply == Reply(StatusUnauthorized, ErrorBody("User does not possess a refresh token"))
      ensures GetBearerToken(headers).Success? && (lookupFault || GetBearerToken(headers).value !in refreshTokens) ==>
        reply == Reply(StatusUnauthorized, ErrorBody("Couldn't find the token in the DB"))
      ensures reply.status == StatusOK <==>
        && GetBearerToken(headers).Success? && !lookupFault
        && GetBearerToken(headers).value in refreshTokens
        && refreshTokens[GetBearerToken(headers).value].revokedAt.None?
        && refreshTokens[GetBearerToken(headers).value].expiresAt > now
        && MakeJWT(jwt, refreshTokens[GetBearerToken(headers).value].userId, secret, now).Some?
      ensures reply.status == StatusOK ==>
        reply.payload == JsonString(MakeJWT(jwt, refreshTokens[GetBearerToken(headers).value].userId, secret, now).value)
      ensures GetBearerToken(headers).Success? && !lookupFault && GetBearerToken(headers).value in refreshTokens ==>
        var row := refreshTokens[GetBearerToken(headers).value];
        if row.revokedAt.Some? then
          reply == Reply(StatusUnauthorized, ErrorBody("The refresh token has been revoked"))
        else if row.expiresAt <= now then
          reply == Reply(StatusUnauthorized, ErrorBody("The refresh token has expired"))
        else
          reply.status in {StatusOK, StatusInternalServerError}
      ensures reply.status != StatusOK ==> reply.status in {StatusUnauthorized, StatusInternalServerError}
    {
      var token := GetBearerToken(headers);
      if token.Failure? {
        return Reply(StatusUnauthorized, ErrorBody("User does not possess a refresh token"));
      }
      if lookupFault || token.value !in refreshTokens {
        return Reply(StatusUnauthorized, ErrorBody("Couldn't find the token in the DB"));
      }
      var row := refreshTokens[token.value];
      if row.revokedAt.Some? {
        return Reply(StatusUnauthorized, ErrorBody("The refresh token has been revoked"));
      }
      if row.expiresAt <= now {
        return Reply(StatusUnauthorized, ErrorBody("The refresh token has expired"));
      }
      var access := MakeJWT(jwt, row.userId, secret, now);
      if access.None? {
        return Reply(StatusInternalServerError, ErrorBody("Coudln't create a new access token"));
      }
      return Reply(StatusOK, JsonString(access.value));
    }

    /** GetUserByEmail: the user with the given e-mail address, if any. */
    ghost function UserByEmail(email: string): (r: Option<Uuid>)
      reads this
      ensures r.Some? ==> r.value in users && users[r.value].email == email
      ensures r.None? ==> forall id :: id in users ==> users[id].email != email
      ensures EmailsUnique(users) ==> forall id :: id in users && users[id].email == email ==> r == Some(id)
    {
      if exists id :: id in users && users[id].email == email then
        Some(var id :| id in users && users[id].email == email; id)
      else None
    }

    /**
     * The checks handlerLogin makes before it stores the refresh token, in
     * their order: the body decodes, the e-mail is known, the password
     * matches, the access token is signed and the random source delivers.
     */
    ghost function LoginCheck(params: Option<LoginParams>, now: Time, lookupFault: bool, entropy: seq<byte>, randFails: bool)
      : Result<Grant, Reply>
      reads this
      requires |entropy| == RefreshKeyBytes
    {
      if params.None? then Failure(Reply(StatusBadRequest, ErrorBody("Invalid JSON")))
      else
        var p := params.value;
        var found := UserByEmail(p.email);
        if lookupFault || found.None? then Failure(Reply(StatusInternalServerError, ErrorBody("Error in the server")))
        else
          var id := found.value;
          if !passwordMatches(users[id].hashedPassword, p.password) then
            Failure(Reply(StatusUnauthorized, ErrorBody("Incorrect email or password")))
          else
            match MakeJWT(jwt, id, secret, now)
            case None => Failure(Reply(StatusInternalServerError, ErrorBody("Error creating login token")))
            case Some(token) =>
              match MakeRefreshToken(entropy, randFails)
              case Failure(_) => Failure(Reply(StatusInternalServerError, ErrorBody("Error creating refresh token")))
              case Success(refresh) => Success(Grant(id, users[id], token, refresh))
    }

    /** The 200 reply of handlerLogin for a grant. */
    function LoginReply(g: Grant): Reply {
      Reply(StatusOK, LoginBody(g.userId, g.user.createdAt, g.user.updatedAt, g.user.email, g.user.isChirpyRed,
                                g.token, g.refreshToken))
    }

    /** The row handlerLogin stores for a grant issued at `now`. */
    function IssuedRow(g: Grant, now: Time): RefreshToken {
      RefreshToken(g.userId, now + RefreshTokenLifetime, None)
    }

    /**
     * The imperative check sequence of handlerLogin, up to the refresh-token
     * insert: CheckLogin is the handler's order of steps, LoginCheck their meaning.
     */
    method CheckLogin(params: Option<LoginParams>, now: Time, lookupFault: bool, entropy: seq<byte>, randFails: bool)
      returns (r: Result<Grant, Reply>)
      requires Valid()
      requires |entropy| == RefreshKeyBytes
      ensures r == LoginCheck(params, now, lookupFault, entropy, randFails)
    {
      if params.None? {
        return Failure(Reply(StatusBadRequest, ErrorBody("Invalid JSON")));
      }
      var p := params.value;
      if p.expiresIn == 0 {
        // Rewritten in place and then never read: the token lifetime is fixed by MakeJWT.
        p := p.(expiresIn := DefaultExpiresIn);
      }
      if lookupFault || !(exists id :: id in users && users[id].email == p.email) {
        return Failure(Reply(StatusInternalServerError, ErrorBody("Error in the server")));
      }
      var id :| id in users && users[id].email == p.email;
      assert UserByEmail(p.email) == Some(id);
      var user := users[id];
      if !passwordMatches(user.hashedPassword, p.password) {
        return Failure(Reply(StatusUnauthorized, ErrorBody("Incorrect email or password")));
      }
      var token := MakeJWT(jwt, id, secret, now);
      if token.None? {
        return Failure(Reply(StatusInternalServerError, ErrorBody("Error creating login token")));
      }
      var refresh := MakeRefreshToken(entropy, randFails);
      if refresh.Failure? {
        return Failure(Reply(StatusInternalServerError, ErrorBody("Error creating refresh token")));
      }
      return Success(Grant(id, user, token.value, refresh.value));
    }

    /**
     * handlerLogin as written. When the refresh-token insert fails the
     * handler writes the 500 error and then carries on to write the 200
     * body as well, so `replies` holds both.
     */
    method Login(params: Option<LoginParams>, now: Time, lookupFault: bool, entropy: seq<byte>, randFails: bool,
                 insertFault: bool) returns (replies: seq<Reply>)
      requires Valid()
      requires |entropy| == RefreshKeyBytes
      modifies this
      ensures Valid()
      ensures users == old(users) && chirps == old(chirps)
      ensures RevokedAtUnchanged(old(refreshTokens), refreshTokens)
      ensures var c := old(LoginCheck(params, now, lookupFault, entropy, randFails));
        match c
        case Failure(err) => replies == [err] && refreshTokens == old(refreshTokens)
        case Success(g) =>
          if insertFault || g.refreshToken in old(refreshTokens) then
            replies == [Reply(StatusInternalServerError, ErrorBody("Could not create refresh token")), LoginReply(g)]
            && refreshTokens == old(refreshTokens)
          else
            replies == [LoginReply(g)] && refreshTokens == old(refreshTokens)[g.refreshToken := IssuedRow(g, now)]
    {
      var c := CheckLogin(params, now, lookupFault, entropy, randFails);
      if c.Failure? {
        return [c.error];
      }
      var g := c.value;
      replies := [];
      if insertFault || g.refreshToken in refreshTokens {
        replies := replies + [Reply(StatusInternalServerError, ErrorBody("Could not create refresh token"))];
      } else {
        refreshTokens := refreshTokens[g.refreshToken := IssuedRow(g, now)];
      }
      replies := replies + [LoginReply(g)];
    }

    /** handlerLogin with a return after the failed insert: exactly one reply on every path. */
    method LoginCorrected(params: Option<LoginParams>, now: Time, lookupFault: bool, entropy: seq<byte>,
                          randFails: bool, insertFault: bool) returns (replies: seq<Reply>)
      requires Valid()
      requires |entropy| == RefreshKeyBytes
      modifies this
      ensures Valid()
      ensures users == old(users) && chirps == old(chirps)
      ensures RevokedAtUnchanged(old(refreshTokens), refreshTokens)
      ensures |replies| == 1
      ensures replies[0].status == StatusOK <==> refreshTokens != old(refreshTokens)
      ensures var c := old(LoginCheck(params, now, lookupFault, entropy, randFails));
        match c
        case Failure(err) => replies == [err] && refreshTokens == old(refreshTokens)
        case Success(g) =>
          if insertFault || g.refreshToken in old(refreshTokens) then
            replies == [Reply(StatusInternalServerError, ErrorBody("Could not create refresh token"))]
            && refreshTokens == old(refreshTokens)
          else
            replies == [LoginReply(g)] && refreshTokens == old(refreshTokens)[g.refreshToken := IssuedRow(g, now)]
    {
      var c := CheckLogin(params, now, lookupFault, entropy, randFails);
      if c.Failure? {
        return [c.error];
      }
      var g := c.value;
      if insertFault || g.refreshToken in refreshTokens {
        return [Reply(StatusInternalServerError, ErrorBody("Could not create refresh token"))];
      }
      refreshTokens := refreshTokens[g.refreshToken := IssuedRow(g, now)];
      return [LoginReply(g)];
    }

    /**
     * A grant names the user holding the e-mail address, whose password
     * matched; its access token is signed over a one-hour claim set and its
     * refresh token is the 64-digit hex encoding of the random bytes.
     */
    lemma LoginCheckGrant(params: Option<LoginParams>, now: Time, lookupFault: bool, entropy: seq<byte>, randFails: bool)
      requires |entropy| == RefreshKeyBytes
      requires LoginCheck(params, now, lookupFault, entropy, randFails).Success?
      ensures var g := LoginCheck(params, now, lookupFault, entropy, randFails).value;
        && params.Some? && !lookupFault && !randFails
        && g.userId in users && g.user == users[g.userId] && g.user.email == params.value.email
        && passwordMatches(g.user.hashedPassword, params.value.password)
        && jwt.sign(Claims(Issuer, g.userId, now, now + AccessTokenTtl), secret) == Some(g.token)
        && g.refreshToken == HexEncode(entropy) && |g.refreshToken| == 64 && IsLowerHex(g.refreshToken)
    {
    }

    /** expires_in_seconds has no effect on the outcome of a login, 0 or not. */
    lemma LoginIgnoresExpiresIn(p: LoginParams, e: int, now: Time, lookupFault: bool, entropy: seq<byte>, randFails: bool)
      requires |entropy| == RefreshKeyBytes
      ensures LoginCheck(Some(p), now, lookupFault, entropy, randFails)
           == LoginCheck(Some(p.(expiresIn := e)), now, lookupFault, entropy, randFails)
    {
    }

    /**
     * An unknown e-mail address answers 500 while a wrong password for a
     * known one answers 401, so the status tells the two apart.
     */
    lemma LoginDistinguishesUnknownEmail(p: LoginParams, now: Time, entropy: seq<byte>, randFails: bool)
      requires |entropy| == RefreshKeyBytes
      ensures UserByEmail(p.email).None? ==>
        LoginCheck(Some(p), now, false, entropy, randFails) == Failure(Reply(StatusInternalServerError, ErrorBody("Error in the server")))
      ensures UserByEmail(p.email).Some? && !passwordMatches(users[UserByEmail(p.email).value].hashedPassword, p.password) ==>
        LoginCheck(Some(p), now, false, entropy, randFails) == Failure(Reply(StatusUnauthorized, ErrorBody("Incorrect email or password")))
    {
    }

    /**
     * The refresh-token life cycle on the handlers as written: a successful
     * login stores an active token, which buys an access token until it is
     * revoked; afterwards its exchange is refused with 401. Refresh never
     * reads the expiry, so `later` may lie past the token's 60 days.
     */
    method LoginRevokeRefresh(params: Option<LoginParams>, now: Time, entropy: seq<byte>, later: Time)
      returns (login: seq<Reply>, first: Reply, revoked: Reply, second: Reply)
      requires Valid()
      requires |entropy| == RefreshKeyBytes
      requires LoginCheck(params, now, false, entropy, false).Success?
      requires HexEncode(entropy) !in refreshTokens
      modifies this
      ensures Valid()
      ensures |login| == 1 && login[0].status == StatusOK && login[0].payload.LoginBody?
      ensures var owner := old(LoginCheck(params, now, false, entropy, false)).value.userId;
        MakeJWT(jwt, owner, secret, later).Some? ==> first == Reply(StatusOK, JsonString(MakeJWT(jwt, owner, secret, later).value))
      ensures revoked == Reply(StatusNoContent, NoBody)
      ensures second == Reply(StatusUnauthorized, ErrorBody("The refresh token has been revoked"))
    {
      ghost var g := LoginCheck(params, now, false, entropy, false).value;
      LoginCheckGrant(params, now, false, entropy, false);
      login := Login(params, now, false, entropy, false, false);
      var token := login[0].payload.refreshToken;
      assert token == g.refreshToken;
      HexEncodeTrimmed(entropy);
      GetBearerTokenRoundTrip(token);
      var h := AuthorizationHeader(BearerPrefix + token);
      assert GetBearerToken(h) == Success(token);
      assert refreshTokens[token] == IssuedRow(g, now);
      first := Refresh(h, later, false);
      revoked := Revoke(h, later, false);
      assert refreshTokens[token].revokedAt == Some(later);
      second := Refresh(h, later, false);
    }

    /**
     * The same life cycle on the corrected handlers, within the refresh
     * token's lifetime.
     */
    method LoginRevokeRefreshCorrected(params: Option<LoginParams>, now: Time, entropy: seq<byte>, later: Time)
      returns (login: seq<Reply>, first: Reply, revoked: Reply, second: Reply)
      requires Valid()
      requires |entropy| == RefreshKeyBytes
      requires LoginCheck(params, now, false, entropy, false).Success?
      requires HexEncode(entropy) !in refreshTokens
      requires later < now + RefreshTokenLifetime
      modifies this
      ensures Valid()
      ensures |login| == 1 && login[0].status == StatusOK && login[0].payload.LoginBody?
      ensures var owner := old(LoginCheck(params, now, false, entropy, false)).value.userId;
        MakeJWT(jwt, owner, secret, later).Some? ==> first == Reply(StatusOK, JsonString(MakeJWT(jwt, owner, secret, later).value))
      ensures revoked == Reply(StatusNoContent, NoBody)
      ensures second == Reply(StatusUnauthorized, ErrorBody("The refresh token has been revoked"))
    {
      ghost var g := LoginCheck(params, now, false, entropy, false).value;
      LoginCheckGrant(params, now, false, entropy, false);
      login := LoginCorrected(params, now, false, entropy, false, false);
      var token := login[0].payload.refreshToken;
      assert token == g.refreshToken;
      HexEncodeTrimmed(entropy);
      GetBearerTokenRoundTrip(token);
      var h := AuthorizationHeader(BearerPrefix + token);
      assert GetBearerToken(h) == Success(token);
      assert refreshTokens[token] == IssuedRow(g, now);
      first := RefreshCorrected(h, later, false);
      revoked := Revoke(h, later, false);
      assert refreshTokens[token].revokedAt == Some(later);
      second := RefreshCorrected(h, later, false);
    }
  }
}
