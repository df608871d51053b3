/** The `User` Mongoose model: the schema with its setters and required paths,
    the `pre("save")` hook, the password check and the two token builders,
    plus the two queries the service runs against the collection (`findById`
    and `findOne` with an `$or` of field equalities). */
module UserModel {
  import opened Common
  import opened JsString

  type UserId = nat
  type VideoId = nat

  /** A stored user document. `coverImage` and `refreshTokens` are optional
      paths; `watchHistory` defaults to the empty array. */
  datatype User = User(
    id: UserId,
    username: string,
    email: string,
    fullName: string,
    avatar: string,
    coverImage: Option<string>,
    watchHistory: seq<VideoId>,
    password: string,
    refreshTokens: Option<string>)

  /** A user as read with the projection "-password -refreshToken". The path
      `refreshToken` names no field of the schema (the field is
      `refreshTokens`), so only the password is left out. */
  datatype Profile = Profile(
    id: UserId,
    username: string,
    email: string,
    fullName: string,
    avatar: string,
    coverImage: Option<string>,
    watchHistory: seq<VideoId>,
    refreshTokens: Option<string>)

  function Project(u: User): Profile {
    Profile(u.id, u.username, u.email, u.fullName, u.avatar, u.coverImage,
            u.watchHistory, u.refreshTokens)
  }

  /** The projection hides the password and nothing else: two users have
      the same projection exactly when they differ at most in the password. */
  lemma ProjectDropsOnlyPassword(u: User, v: User)
    ensures Project(u) == Project(v) <==> u.(password := v.password) == v
  {
  }

  /** The schema's constraints on one stored document: the `lowercase` and
      `trim` paths are normal, and every required string path is non-empty.
      The password is not constrained: what is stored is its digest. */
  predicate WellFormed(u: User) {
    && IsNormal(u.username) && u.username != ""
    && IsNormal(u.email) && u.email != ""
    && IsNormal(u.fullName) && u.fullName != ""
    && u.avatar != ""
  }

  /** The collection as a whole: every document is well formed, ids are below
      the next id to hand out, and `_id`, `username` and `email` are unique. */
  predicate ValidTable(us: seq<User>, nextId: UserId) {
    && (forall i :: 0 <= i < |us| ==> WellFormed(us[i]) && us[i].id < nextId)
    && (forall i, j :: 0 <= i < j < |us| ==>
          us[i].id != us[j].id && us[i].username != us[j].username && us[i].email != us[j].email)
  }

  // ---------------------------------------------------------------------------
  // Casting and validation at document creation

  /** The fields passed to `User.create`. A field the request body lacks is
      `None`; `avatar` and `coverImage` are always strings. */
  datatype Draft = Draft(
    username: Option<string>,
    email: Option<string>,
    fullName: Option<string>,
    avatar: string,
    coverImage: string,
    password: Option<string>)

  /** The `lowercase` and `trim` setters applied to a possibly missing value. */
  function Cast(v: Option<string>): (r: Option<string>)
    ensures r.Some? <==> v.Some?
    ensures r.Some? ==> IsNormal(r.value)
    ensures r.Some? ==> (r.value == "" <==> AllSpace(v.value))
    ensures v.Some? && IsNormal(v.value) ==> r == v
  {
    match v
    case None => None
    case Some(s) => Some(Normalize(s))
  }

  /** Mongoose's `required` check for a String path: present and non-empty. */
  predicate Present(v: Option<string>) {
    v.Some? && v.value != ""
  }

  /** The required paths that fail validation after casting, in schema order. */
  function MissingPaths(d: Draft): (ps: seq<Path>)
    ensures Username in ps <==> !Present(Cast(d.username))
    ensures Email in ps <==> !Present(Cast(d.email))
    ensures FullName in ps <==> !Present(Cast(d.fullName))
    ensures Avatar in ps <==> d.avatar == ""
    ensures Password in ps <==> !Present(d.password)
    ensures ps == [] <==>
      (&& Present(Cast(d.username)) && Present(Cast(d.email)) && Present(Cast(d.fullName))
       && d.avatar != "" && Present(d.password))
    ensures InSchemaOrder(ps)
  {
    Failing(Present(Cast(d.username)), Present(Cast(d.email)), Present(Cast(d.fullName)),
            d.avatar != "", Present(d.password))
  }

  /** The list of failed paths, given which of the five required paths passed. */
  function Failing(username: bool, email: bool, fullName: bool, avatar: bool, password: bool): (ps: seq<Path>)
    ensures Username in ps <==> !username
    ensures Email in ps <==> !email
    ensures FullName in ps <==> !fullName
    ensures Avatar in ps <==> !avatar
    ensures Password in ps <==> !password
    ensures ps == [] <==> username && email && fullName && avatar && password
    ensures InSchemaOrder(ps)
  {
    var checks := [(Username, username), (Email, email), (FullName, fullName),
                   (Avatar, avatar), (Password, password)];
    assert checks[0].0 == Username && checks[1].0 == Email && checks[2].0 == FullName
      && checks[3].0 == Avatar && checks[4].0 == Password;
    FailedChecksInOrder(checks);
    FailedChecks(checks)
  }

  /** Each path appears at most once, and in the order the schema declares them. */
  predicate InSchemaOrder(ps: seq<Path>) {
    forall i, j :: 0 <= i < j < |ps| ==> SchemaOrder(ps[i]) < SchemaOrder(ps[j])
  }

  predicate ChecksInSchemaOrder(checks: seq<(Path, bool)>) {
    forall i, j :: 0 <= i < j < |checks| ==> SchemaOrder(checks[i].0) < SchemaOrder(checks[j].0)
  }

  /** The paths whose check failed, in the order the checks ran. */
  function FailedChecks(checks: seq<(Path, bool)>): (ps: seq<Path>)
    ensures forall p :: p in ps ==> exists i :: 0 <= i < |checks| && checks[i] == (p, false)
    ensures forall i :: 0 <= i < |checks| && !checks[i].1 ==> checks[i].0 in ps
    ensures ps == [] <==> forall i :: 0 <= i < |checks| ==> checks[i].1
  {
    if checks == [] then []
    else
      var rest := FailedChecks(checks[1..]);
      assert forall i :: 1 <= i < |checks| ==> checks[i] == checks[1..][i - 1];
      if checks[0].1 then rest else [checks[0].0] + rest
  }

  /** Checks run in schema order report their failures in schema order. */
  lemma {:induction false} FailedChecksInOrder(checks: seq<(Path, bool)>)
    requires ChecksInSchemaOrder(checks)
    ensures InSchemaOrder(FailedChecks(checks))
  {
    if checks != [] {
      var rest := FailedChecks(checks[1..]);
      TailInSchemaOrder(checks);
      FailedChecksInOrder(checks[1..]);
      assert FailedChecks(checks) == if checks[0].1 then rest else [checks[0].0] + rest;
      if !checks[0].1 {
        FailedAfterFirst(checks);
        ConsInSchemaOrder(checks[0].0, rest);
      }
    }
  }

  lemma TailInSchemaOrder(checks: seq<(Path, bool)>)
    requires checks != [] && ChecksInSchemaOrder(checks)
    ensures ChecksInSchemaOrder(checks[1..])
  {
    var tail := checks[1..];
    forall i, j | 0 <= i < j < |tail| ensures SchemaOrder(tail[i].0) < SchemaOrder(tail[j].0) {
      assert tail[i] == checks[i + 1] && tail[j] == checks[j + 1];
    }
  }

  /** A later check's failure comes after the first check in schema order. */
  lemma FailedAfterFirst(checks: seq<(Path, bool)>)
    requires checks != [] && ChecksInSchemaOrder(checks)
    ensures forall p :: p in FailedChecks(checks[1..]) ==> SchemaOrder(checks[0].0) < SchemaOrder(p)
  {
    var tail := checks[1..];
    forall p | p in FailedChecks(tail) ensures SchemaOrder(checks[0].0) < SchemaOrder(p) {
      var i :| 0 <= i < |tail| && tail[i] == (p, false);
      assert checks[i + 1] == (p, false);
    }
  }

  lemma ConsInSchemaOrder(p: Path, rest: seq<Path>)
    requires InSchemaOrder(rest) && forall q :: q in rest ==> SchemaOrder(p) < SchemaOrder(q)
    ensures InSchemaOrder([p] + rest)
  {
    var ps := [p] + rest;
    forall i, j | 0 <= i < j < |ps| ensures SchemaOrder(ps[i]) < SchemaOrder(ps[j]) {
      assert ps[j] == rest[j - 1] && rest[j - 1] in rest;
      if i > 0 {
        assert ps[i] == rest[i - 1];
      }
    }
  }

  /** Casting a draft into a new document with the given id, and validating
      it: the document exists exactly when every required path is present
      after the setters ran, and it is then well formed. */
  function ApplySchema(id: UserId, d: Draft): (r: Result<User>)
    ensures r.Ok? <==> MissingPaths(d) == []
    ensures r.Err? ==> r.failure == ValidationError(MissingPaths(d))
    ensures r.Ok? ==> WellFormed(r.value) && r.value.id == id
    ensures r.Ok? ==> d.username.Some? && r.value.username == Normalize(d.username.value)
    ensures r.Ok? ==> d.email.Some? && r.value.email == Normalize(d.email.value)
    ensures r.Ok? ==> d.fullName.Some? && r.value.fullName == Normalize(d.fullName.value)
    ensures r.Ok? ==> r.value.avatar == d.avatar && r.value.coverImage == Some(d.coverImage)
    ensures r.Ok? ==> d.password == Some(r.value.password)
    ensures r.Ok? ==> r.value.watchHistory == [] && r.value.refreshTokens == None
  {
    if MissingPaths(d) != [] then Err(ValidationError(MissingPaths(d)))
    else
      Ok(User(id, Normalize(d.username.value), Normalize(d.email.value),
              Normalize(d.fullName.value), d.avatar, Some(d.coverImage), [],
              d.password.value, None))
  }

  // ---------------------------------------------------------------------------
  // External services

  /** The claims of a JSON Web Token payload this service reads or writes. */
  datatype Claims = Claims(
    id: Option<UserId>,
    email: Option<string>,
    username: Option<string>,
    fullName: Option<string>)

  /** The arguments of `jwt.sign(payload, secret, { expiresIn })`. */
  datatype SignRequest = SignRequest(payload: Claims, secret: string, expiresIn: string)

  /** The environment variables the token builders and the guard read. */
  datatype Config = Config(
    accessSecret: string,
    accessExpiry: string,
    refreshSecret: string,
    refreshExpiry: string)

  /** The library calls the service makes, as oracles:
      `hash` is `bcrypt.hash(p, 10)`; `compare(p, digest)` is `bcrypt.compare`;
      `sign` is `jwt.sign`, `None` when it throws; `verify(token, secret)` is
      `jwt.verify`, failing with the library's error; `upload(path)` is the
      Cloudinary upload, `None` when it yields nothing. */
  datatype Services = Services(
    hash: string -> string,
    compare: (string, string) -> bool,
    sign: SignRequest -> Option<string>,
    verify: (string, string) -> Result<Claims>,
    upload: Option<string> -> Option<string>)

  // ---------------------------------------------------------------------------
  // Document methods

  /** `user.isPasswordCorrect(candidate)`. */
  function IsPasswordCorrect(u: User, candidate: string, svc: Services): bool {
    svc.compare(candidate, u.password)
  }

  /** What `user.generateAccessToken()` passes to `jwt.sign`. */
  function AccessTokenRequest(u: User, cfg: Config): SignRequest {
    SignRequest(Claims(Some(u.id), Some(u.email), Some(u.username), Some(u.fullName)),
                cfg.accessSecret, cfg.accessExpiry)
  }

  /** What `user.generateRefreshToken()` passes to `jwt.sign`. */
  function RefreshTokenRequest(u: User, cfg: Config): SignRequest {
    SignRequest(Claims(Some(u.id), None, None, None), cfg.refreshSecret, cfg.refreshExpiry)
  }

  function GenerateAccessToken(u: User, cfg: Config, svc: Services): Option<string> {
    svc.sign(AccessTokenRequest(u, cfg))
  }

  function GenerateRefreshToken(u: User, cfg: Config, svc: Services): Option<string> {
    svc.sign(RefreshTokenRequest(u, cfg))
  }

  /** The access token depends on no field but the id, email, username and
      full name: changing the avatar, history, password or refresh token does
      not change it. */
  lemma AccessTokenDependsOnClaims(u: User, v: User, cfg: Config, svc: Services)
    requires u.id == v.id && u.email == v.email && u.username == v.username && u.fullName == v.fullName
    ensures GenerateAccessToken(u, cfg, svc) == GenerateAccessToken(v, cfg, svc)
  {
  }

  /** The refresh token depends on the id alone. */
  lemma RefreshTokenDependsOnId(u: User, v: User, cfg: Config, svc: Services)
    requires u.id == v.id
    ensures GenerateRefreshToken(u, cfg, svc) == GenerateRefreshToken(v, cfg, svc)
  {
  }

  /** The access token's payload is exactly the user's id, email, username
      and full name: two users get the same payload exactly when those four
      fields agree, and the token is signed with the access secret and
      expiry. */
  lemma AccessClaimsIdentifyUser(u: User, v: User, cfg: Config)
    ensures AccessTokenRequest(u, cfg).payload == AccessTokenRequest(v, cfg).payload
        <==> (u.id == v.id && u.email == v.email && u.username == v.username && u.fullName == v.fullName)
    ensures AccessTokenRequest(u, cfg).secret == cfg.accessSecret
    ensures AccessTokenRequest(u, cfg).expiresIn == cfg.accessExpiry
  {
  }

  /** The refresh token's payload carries the id and nothing else: it depends
      on no other field of the user, and it is signed with the refresh secret
      and expiry. */
  lemma RefreshClaimsCarryOnlyId(u: User, v: User, cfg: Config)
    ensures RefreshTokenRequest(u, cfg) == RefreshTokenRequest(v, cfg) <==> u.id == v.id
    ensures RefreshTokenRequest(u, cfg).payload.email.None?
    ensures RefreshTokenRequest(u, cfg).payload.username.None?
    ensures RefreshTokenRequest(u, cfg).payload.fullName.None?
    ensures RefreshTokenRequest(u, cfg).secret == cfg.refreshSecret
    ensures RefreshTokenRequest(u, cfg).expiresIn == cfg.refreshExpiry
  {
  }

  /** The document the `pre("save")` hook leaves behind, given the paths
      modified since the last save. */
  function AfterPreSave(u: User, modifiedPaths: set<Path>, hash: string -> string): (r: User)
    ensures r.(password := u.password) == u
    ensures Password !in modifiedPaths ==> r == u
    ensures Password in modifiedPaths ==> r.password == hash(u.password)
  {
    if Password in modifiedPaths then u.(password := hash(u.password)) else u
  }

  /** When bcrypt accepts every password against its own digest, a
      password saved through the hook passes `isPasswordCorrect`. */
  lemma SavedPasswordIsCorrect(u: User, modifiedPaths: set<Path>, svc: Services)
    requires Password in modifiedPaths
    requires forall p :: svc.compare(p, svc.hash(p))
    ensures IsPasswordCorrect(AfterPreSave(u, modifiedPaths, svc.hash), u.password, svc)
  {
  }

  /** A document as Mongoose tracks it between loading and saving: its
      values, the paths changed since it was loaded or last saved, and
      whether it is yet to be inserted. */
  class UserDocument {
    var data: User
    var modifiedPaths: set<Path>
    var isNew: bool

    /** `new User(fields)`: every path it sets counts as modified. */
    constructor New(u: User)
      ensures data == u && isNew
      ensures modifiedPaths == {Username, Email, FullName, Avatar, CoverImage, Password}
    {
      data := u;
      isNew := true;
      modifiedPaths := {Username, Email, FullName, Avatar, CoverImage, Password};
    }

    /** A document returned by a query: nothing is modified yet. */
    constructor Load(u: User)
      ensures data == u && !isNew && modifiedPaths == {}
    {
      data := u;
      isNew := false;
      modifiedPaths := {};
    }

    /** `doc.refreshTokens = t`. */
    method SetRefreshTokens(t: Option<string>)
      modifies this
      ensures data == old(data).(refreshTokens := t)
      ensures modifiedPaths == old(modifiedPaths) + {RefreshTokens}
      ensures isNew == old(isNew)
    {
      data := data.(refreshTokens := t);
      modifiedPaths := modifiedPaths + {RefreshTokens};
    }

    /** The `pre("save")` hook: the password is replaced by its digest only
        when the password path was modified; otherwise the document is left
        exactly as it was, so a stored digest is never hashed again. */
    method PreSave(hash: string -> string)
      modifies this`data
      ensures Password in modifiedPaths ==> data == old(data).(password := hash(old(data).password))
      ensures Password !in modifiedPaths ==> data == old(data)
      ensures data == AfterPreSave(old(data), modifiedPaths, hash)
    {
      if Password !in modifiedPaths {
        return;
      }
      data := data.(password := hash(data.password));
    }

    /** After a successful save nothing counts as modified and the document
        is no longer new. */
    method MarkSaved()
      modifies this`modifiedPaths, this`isNew
      ensures modifiedPaths == {} && !isNew
    {
      modifiedPaths := {};
      isNew := false;
    }
  }

  // ---------------------------------------------------------------------------
  // Queries

  /** A query filter as it reaches the collection: `{ _id: id }`, or
      `{ $or: [{ username }, { email }] }` after casting. A missing value
      matches no document. */
  datatype Filter =
    | ById(id: Option<UserId>)
    | AnyOf(username: Option<string>, email: Option<string>)

  /** The `$or` filter built from request values: Mongoose runs the paths'
      `lowercase` and `trim` setters on the query values before matching. */
  function UsernameOrEmail(username: Option<string>, email: Option<string>): (f: Filter)
    ensures f.AnyOf? && f.username.Some? == username.Some? && f.email.Some? == email.Some?
    ensures username.Some? ==> IsNormal(f.username.value) && f.username.value == Normalize(username.value)
    ensures email.Some? ==> IsNormal(f.email.value) && f.email.value == Normalize(email.value)
  {
    AnyOf(Cast(username), Cast(email))
  }

  predicate Matches(u: User, f: Filter) {
    match f
    case ById(id) => id == Some(u.id)
    case AnyOf(name, mail) => Some(u.username) == name || Some(u.email) == mail
  }

  /** `findOne(filter)` (and `findById`): the index of the first matching
      document in collection order, or `None` when nothing matches. */
  function FindOne(us: seq<User>, f: Filter): (r: Option<nat>)
    ensures r.Some? ==> r.value < |us| && Matches(us[r.value], f)
    ensures r.Some? ==> forall k :: 0 <= k < r.value ==> !Matches(us[k], f)
    ensures r.None? ==> forall k :: 0 <= k < |us| ==> !Matches(us[k], f)
    decreases |us|
  {
    if us == [] then None
    else if Matches(us[0], f) then Some(0)
    else
      var rest := FindOne(us[1..], f);
      assert forall k :: 1 <= k < |us| ==> us[k] == us[1..][k - 1];
      match rest
      case None => None
      case Some(k) => Some(k + 1)
  }

  /** In a valid collection `findById` finds the one document with that id. */
  lemma FindByIdUnique(us: seq<User>, nextId: UserId, i: nat)
    requires ValidTable(us, nextId) && i < |us|
    ensures FindOne(us, ById(Some(us[i].id))) == Some(i)
  {
    assert forall a, b :: 0 <= a < |us| && 0 <= b < |us| && a != b ==> us[a].id != us[b].id by {
      forall a, b | 0 <= a < |us| && 0 <= b < |us| && a != b ensures us[a].id != us[b].id {
        if a < b { assert us[a].id != us[b].id; } else { assert us[b].id != us[a].id; }
      }
    }
    FindDistinctId(us, i);
  }

  /** When no two documents share an id, `findById` finds the one with that id. */
  lemma FindDistinctId(us: seq<User>, i: nat)
    requires i < |us|
    requires forall a, b :: 0 <= a < |us| && 0 <= b < |us| && a != b ==> us[a].id != us[b].id
    ensures FindOne(us, ById(Some(us[i].id))) == Some(i)
  {
    var f := ById(Some(us[i].id));
    assert Matches(us[i], f);
    var k := FindOne(us, f).value;
    assert Matches(us[k], f);
  }

  /** Lookups by id only read the ids: two collections with the same ids in
      the same order answer every `findById` with the same index. */
  lemma {:induction false} FindByIdSameIds(us: seq<User>, vs: seq<User>, id: Option<UserId>)
    requires |us| == |vs|
    requires forall k :: 0 <= k < |us| ==> us[k].id == vs[k].id
    ensures FindOne(us, ById(id)) == FindOne(vs, ById(id))
    decreases |us|
  {
    if us != [] {
      assert Matches(us[0], ById(id)) == Matches(vs[0], ById(id));
      FindByIdSameIds(us[1..], vs[1..], id);
    }
  }

  /** Replacing a document by one with the same `_id`, `username` and
      `email` keeps the collection valid. */
  lemma ReplaceKeepsValid(us: seq<User>, nextId: UserId, i: nat, v: User)
    requires ValidTable(us, nextId) && i < |us| && WellFormed(v)
    requires v.id == us[i].id && v.username == us[i].username && v.email == us[i].email
    ensures ValidTable(us[i := v], nextId)
  {
    var vs := us[i := v];
    forall a, b | 0 <= a < b < |vs|
      ensures vs[a].id != vs[b].id && vs[a].username != vs[b].username && vs[a].email != vs[b].email
    {
      assert vs[a].id == us[a].id && vs[a].username == us[a].username && vs[a].email == us[a].email;
      assert vs[b].id == us[b].id && vs[b].username == us[b].username && vs[b].email == us[b].email;
    }
  }

  /** Inserting a well-formed document whose id is the next one and whose
      username and email are not taken keeps the collection valid. */
  lemma InsertKeepsValid(us: seq<User>, nextId: UserId, v: User)
    requires ValidTable(us, nextId) && WellFormed(v) && v.id == nextId
    requires forall k :: 0 <= k < |us| ==> us[k].username != v.username && us[k].email != v.email
    ensures ValidTable(us + [v], nextId + 1)
  {
    var vs := us + [v];
    forall a, b | 0 <= a < b < |vs|
      ensures vs[a].id != vs[b].id && vs[a].username != vs[b].username && vs[a].email != vs[b].email
    {
      assert vs[a] == us[a];
    }
  }
}
