/** The `verifyToken` middleware: it finds the access token (the
    `accessToken` cookie first, then the `Authorization` header with
    "Bearer " removed), verifies it with the access secret, resolves the
    `_id` claim to a user, and turns every failure into a 401. */
module AuthMiddleware {
  import opened Common
  import opened JsString
  import opened UserModel

  const BearerPrefix: string := "Bearer "
  const NoTokenMessage: string := "Not authorized / no token provided"
  const InvalidTokenMessage: string := "Not Authorized/ invalid token provided "
  const DefaultMessage: string := "Invalid access token"

  /** `req.cookies?.accessToken || req.header("Authorization")?.replace("Bearer ", "")` */
  function ExtractToken(cookie: Option<string>, authorization: Option<string>): (r: Option<string>)
    ensures Truthy(cookie) ==> r == cookie
    ensures !Truthy(cookie) ==> (r.Some? <==> authorization.Some?)
    ensures !Truthy(cookie) && authorization.Some? ==>
      var h := authorization.value;
      && ((forall k :: 0 <= k <= |h| ==> !OccursAt(h, BearerPrefix, k)) ==> r == Some(h))
      && (forall k :: 0 <= k <= |h| && OccursAt(h, BearerPrefix, k) && FirstOccurrence(h, BearerPrefix, k) ==>
            r == Some(h[..k] + h[k + |BearerPrefix|..]))
  {
    if Truthy(cookie) then cookie
    else
      match authorization
      case None => None
      case Some(h) =>
        ReplaceWithEmpty(h, BearerPrefix);
        Some(ReplaceFirst(h, BearerPrefix, ""))
  }

  /** The `catch` block: whatever was thrown is re-thrown as a 401 carrying
      the error's message, or a default message when that is empty. */
  function Unauthorized(f: Failure): (g: Failure)
    ensures g.ApiError? && g.status == 401
    ensures g.message == (if f.Message() != "" then f.Message() else DefaultMessage)
    ensures g.message != ""
  {
    ApiError(401, if f.Message() != "" then f.Message() else DefaultMessage)
  }

  /** The guard as a whole. On success the result is what the middleware
      stores in `req.user`: the projection of the user whose id is the
      token's `_id` claim. The collection is only read. */
  function VerifyToken(users: seq<User>, cookie: Option<string>, authorization: Option<string>,
                       cfg: Config, svc: Services): (r: Result<Profile>)
    ensures r.Err? ==> r.failure.ApiError? && r.failure.status == 401
    ensures !Truthy(ExtractToken(cookie, authorization)) ==> r == Err(ApiError(401, NoTokenMessage))
    ensures Truthy(ExtractToken(cookie, authorization))
            && svc.verify(ExtractToken(cookie, authorization).value, cfg.accessSecret).Err?
            ==> r == Err(Unauthorized(svc.verify(ExtractToken(cookie, authorization).value, cfg.accessSecret).failure))
    ensures r.Ok? ==>
      && Truthy(ExtractToken(cookie, authorization))
      && var claims := svc.verify(ExtractToken(cookie, authorization).value, cfg.accessSecret);
      && claims.Ok?
      && exists i :: 0 <= i < |users| && Some(users[i].id) == claims.value.id && r.value == Project(users[i])
    ensures var token := ExtractToken(cookie, authorization);
      Truthy(token) && svc.verify(token.value, cfg.accessSecret).Ok? ==>
      var id := svc.verify(token.value, cfg.accessSecret).value.id;
      && ((exists i :: 0 <= i < |users| && Some(users[i].id) == id) ==> r.Ok?)
      && ((forall i :: 0 <= i < |users| ==> Some(users[i].id) != id) ==> r == Err(ApiError(401, InvalidTokenMessage)))
  {
    var token := ExtractToken(cookie, authorization);
    if !Truthy(token) then
      Err(Unauthorized(ApiError(401, NoTokenMessage)))
    else
      match svc.verify(token.value, cfg.accessSecret)
      case Err(f) => Err(Unauthorized(f))
      case Ok(claims) =>
        match FindOne(users, ById(claims.id))
        case None => Err(Unauthorized(ApiError(401, InvalidTokenMessage)))
        case Some(i) => Ok(Project(users[i]))
  }

  /** A non-empty `accessToken` cookie is used whatever the header says. */
  lemma CookieTakesPrecedence(cookie: Option<string>, authorization: Option<string>)
    requires Truthy(cookie)
    ensures ExtractToken(cookie, authorization) == cookie
  {
  }

  /** Without a usable cookie, an `Authorization: Bearer <t>` header yields
      `t`; a header without "Bearer " anywhere in it is taken whole. */
  lemma BearerHeaderYieldsToken(cookie: Option<string>, t: string, h: string)
    requires !Truthy(cookie)
    requires forall k :: 0 <= k <= |h| ==> !OccursAt(h, BearerPrefix, k)
    ensures ExtractToken(cookie, Some(BearerPrefix + t)) == Some(t)
    ensures ExtractToken(cookie, Some(h)) == Some(h)
  {
    ReplaceLeadingPattern(BearerPrefix, t);
    ReplaceAbsentPattern(h, BearerPrefix, "");
  }

  /** Only the first "Bearer " is removed, wherever it stands: a header
      `p + "Bearer " + x` whose part `p` holds no "Bearer " yields `p + x`
      (so "Token Bearer x" yields "Token x"). */
  lemma BearerRemovedAnywhere(p: string, x: string)
    requires forall k :: 0 <= k <= |p| ==> !OccursAt(p, BearerPrefix, k)
    ensures ExtractToken(None, Some(p + BearerPrefix + x)) == Some(p + x)
  {
    var h := p + BearerPrefix + x;
    assert OccursAt(h, BearerPrefix, |p|) by {
      assert h[|p|..|p| + 7] == BearerPrefix;
    }
    forall j | 0 <= j < |p| ensures !OccursAt(h, BearerPrefix, j) {
      if j + 7 <= |p| {
        assert h[j..j + 7] == p[j..j + 7];
        assert !OccursAt(p, BearerPrefix, j);
      } else {
        // "Bearer " has no 'B' after its first letter, so an occurrence
        // cannot start inside `p` and run into the one at `|p|`.
        var d := |p| - j;
        assert h[j..j + 7][d] == h[|p|] == 'B' != BearerPrefix[d];
      }
    }
    assert h[..|p|] == p && h[|p| + 7..] == x;
  }

  /** An access token minted for a stored user, presented in the cookie,
      resolves to that very user, provided `jwt.verify` gives back the
      payload that `jwt.sign` was given under the same secret. */
  lemma AccessTokenAuthenticates(users: seq<User>, nextId: UserId, i: nat, cfg: Config,
                                 svc: Services, token: string, authorization: Option<string>)
    requires ValidTable(users, nextId) && i < |users|
    requires GenerateAccessToken(users[i], cfg, svc) == Some(token) && token != ""
    requires svc.verify(token, cfg.accessSecret) == Ok(AccessTokenRequest(users[i], cfg).payload)
    ensures VerifyToken(users, Some(token), authorization, cfg, svc) == Ok(Project(users[i]))
  {
    FindByIdUnique(users, nextId, i);
  }

  /** The guard never looks at `refreshTokens`: rewriting that field of
      any user, as logout and login do, changes no outcome of the guard. A
      logged-out user's access token stays usable until it expires. */
  lemma GuardIgnoresRefreshTokens(users: seq<User>, i: nat, t: Option<string>,
                                  cookie: Option<string>, authorization: Option<string>,
                                  cfg: Config, svc: Services)
    requires i < |users|
    ensures var after := users[i := users[i].(refreshTokens := t)];
      && VerifyToken(after, cookie, authorization, cfg, svc).Ok? == VerifyToken(users, cookie, authorization, cfg, svc).Ok?
      && (VerifyToken(after, cookie, authorization, cfg, svc).Ok? ==>
            VerifyToken(after, cookie, authorization, cfg, svc).value.id
            == VerifyToken(users, cookie, authorization, cfg, svc).value.id)
  {
    var after := users[i := users[i].(refreshTokens := t)];
    forall id: Option<UserId> ensures FindOne(after, ById(id)) == FindOne(users, ById(id)) {
      FindByIdSameIds(after, users, id);
    }
  }
}
