/** The user controller: registration, login, logout and the token helper
    they share, as methods of a store that holds the `users` collection in
    insertion order. Each request runs as one sequential step. */
module UserController {
  import opened Common
  import opened JsString
  import opened UserModel
  import opened AuthMiddleware

  const BlankFieldMessage: string := "All fields are required"
  const ConflictMessage: string := "User with same username or email already exists"
  const AvatarMissingMessage: string := "Avatar file is required"
  const AvatarUploadMessage: string := "Avatar is required"
  const LoginFieldsMessage: string := "All field are required"
  const UnknownUserMessage: string := "User does not exist"
  const WrongPasswordMessage: string := "Invalid user password"
  const TokenFailureMessage: string := "error occured while generating access and refresh tokens"
  /** What `req.files.avatar[0]` throws when `req.files` has no `avatar`. */
  const NoAvatarFieldMessage: string := "Cannot read properties of undefined (reading '0')"
  /** What `bcrypt.compare` rejects with when the candidate is missing. */
  const NoPasswordMessage: string := "data and hash arguments required"
  /** What `save()` throws when the document is no longer in the collection. */
  const DocumentGoneMessage: string := "No document found for query"

  /** A file staged by the upload middleware. */
  datatype StagedFile = StagedFile(path: Option<string>)

  /** `req.files`: the staged files per form field. */
  datatype Files = Files(avatar: Option<seq<StagedFile>>, coverImage: Option<seq<StagedFile>>)

  /** The parts of a registration request the handler reads. */
  datatype RegisterRequest = RegisterRequest(
    fullName: Option<string>,
    username: Option<string>,
    email: Option<string>,
    password: Option<string>,
    files: Option<Files>)

  /** The parts of a login request the handler reads. */
  datatype LoginRequest = LoginRequest(
    email: Option<string>,
    username: Option<string>,
    password: Option<string>)

  datatype TokenPair = TokenPair(accessToken: string, refreshToken: string)

  /** The login response body: the user as re-read after the tokens were
      stored, and both tokens. */
  datatype LoginResponse = LoginResponse(user: Option<Profile>, accessToken: string, refreshToken: string)

  // ---------------------------------------------------------------------------
  // Registration checks

  /** `field?.trim() === ""`: true only for a present, blank field. */
  predicate IsBlank(v: Option<string>) {
    v.Some? && Trim(v.value) == ""
  }

  /** The registration guard over fullName, username, email and password. A
      field trips it exactly when it is present and made only of whitespace;
      an absent field never does. */
  function AnyBlank(req: RegisterRequest): (b: bool)
    ensures b <==>
      || (req.fullName.Some? && AllSpace(req.fullName.value))
      || (req.username.Some? && AllSpace(req.username.value))
      || (req.email.Some? && AllSpace(req.email.value))
      || (req.password.Some? && AllSpace(req.password.value))
  {
    IsBlank(req.fullName) || IsBlank(req.username) || IsBlank(req.email) || IsBlank(req.password)
  }

  /** `req.files?.avatar[0]?.path`: no files gives undefined, files without
      an `avatar` field throw, an empty list gives undefined. */
  function AvatarLocalPath(files: Option<Files>): (r: Result<Option<string>>)
    ensures r.Err? <==> files.Some? && files.value.avatar.None?
    ensures r.Err? ==> r.failure == Thrown(NoAvatarFieldMessage)
    ensures r.Ok? && r.value.Some? ==>
      files.Some? && files.value.avatar.Some? && files.value.avatar.value != []
      && r.value == files.value.avatar.value[0].path
    ensures files.None? ==> r == Ok(None)
    ensures files.Some? && files.value.avatar.Some? ==>
      var list := files.value.avatar.value;
      r == Ok(if list == [] then None else list[0].path)
  {
    match files
    case None => Ok(None)
    case Some(fs) =>
      match fs.avatar
      case None => Err(Thrown(NoAvatarFieldMessage))
      case Some(list) => if list == [] then Ok(None) else Ok(list[0].path)
  }

  /** The path of the first staged cover image, if there is one. */
  function CoverImageLocalPath(files: Option<Files>): (p: Option<string>)
    ensures p.Some? ==>
      files.Some? && files.value.coverImage.Some? && files.value.coverImage.value != []
      && p == files.value.coverImage.value[0].path
    ensures files.None? || files.value.coverImage.None? ==> p == None
    ensures files.Some? && files.value.coverImage.Some? ==>
      var list := files.value.coverImage.value;
      p == (if list == [] then None else list[0].path)
  {
    if files.Some? && files.value.coverImage.Some? && |files.value.coverImage.value| > 0
    then files.value.coverImage.value[0].path
    else None
  }

  /** The fields handed to `User.create`, once the avatar URL is known:
      `coverImage?.url || ""` is the cover upload's URL or "". Once the
      blank check has passed, schema validation fails on exactly the
      fields the request lacks, and on the avatar only for an empty URL. */
  function RegistrationDraft(req: RegisterRequest, avatarUrl: string, svc: Services): (d: Draft)
    ensures !AnyBlank(req) ==>
      var ps := MissingPaths(d);
      && (Username in ps <==> req.username.None?)
      && (Email in ps <==> req.email.None?)
      && (FullName in ps <==> req.fullName.None?)
      && (Password in ps <==> req.password.None?)
      && (Avatar in ps <==> avatarUrl == "")
  {
    Draft(req.username, req.email, req.fullName, avatarUrl,
          svc.upload(CoverImageLocalPath(req.files)).GetOr(""), req.password)
  }

  /** The record `User.create` followed by the `pre("save")` hook stores
      for a draft that passes validation: the cast document with its
      password hashed. */
  function CreatedRecord(id: UserId, d: Draft, hash: string -> string): (u: User)
    requires MissingPaths(d) == []
    ensures WellFormed(u) && u.id == id && d.password.Some? && u.password == hash(d.password.value)
    ensures u.(password := d.password.value) == ApplySchema(id, d).value
  {
    ApplySchema(id, d).value.(password := hash(d.password.value))
  }

  /** A registered record is built from the request: the setters ran on
      username, email and full name, the password is hashed, the avatar is
      the upload's URL, the cover image the cover upload's URL or "", and
      the history and refresh token start empty. */
  lemma RegistrationRecord(req: RegisterRequest, url: string, svc: Services, id: UserId)
    requires MissingPaths(RegistrationDraft(req, url, svc)) == []
    ensures var u := CreatedRecord(id, RegistrationDraft(req, url, svc), svc.hash);
      && u.id == id
      && req.username.Some? && u.username == Normalize(req.username.value)
      && req.email.Some? && u.email == Normalize(req.email.value)
      && req.fullName.Some? && u.fullName == Normalize(req.fullName.value)
      && req.password.Some? && u.password == svc.hash(req.password.value)
      && u.avatar == url
      && u.coverImage == Some(svc.upload(CoverImageLocalPath(req.files)).GetOr(""))
      && u.watchHistory == [] && u.refreshTokens == None
  {
  }

  // ---------------------------------------------------------------------------
  // Logout on the collection

  /** `findByIdAndUpdate(id, { $set: { refreshTokens: undefined } })`. */
  function ClearRefreshToken(us: seq<User>, id: UserId): (r: seq<User>)
    ensures |r| == |us|
    ensures forall k :: 0 <= k < |us| ==> r[k].(refreshTokens := us[k].refreshTokens) == us[k]
    ensures forall k :: 0 <= k < |us| && r[k] != us[k] ==> us[k].id == id && r[k].refreshTokens == None
    ensures (exists k :: 0 <= k < |us| && us[k].id == id) ==>
      exists k :: 0 <= k < |us| && us[k].id == id && r[k].refreshTokens == None
  {
    match FindOne(us, ById(Some(id)))
    case None => us
    case Some(i) => us[i := us[i].(refreshTokens := None)]
  }

  /** Logging out touches only the refresh token of the user with that id:
      every other field of that user and every other user stay as they were. */
  lemma ClearRefreshTokenEffect(us: seq<User>, nextId: UserId, id: UserId)
    requires ValidTable(us, nextId)
    ensures |ClearRefreshToken(us, id)| == |us|
    ensures forall k :: 0 <= k < |us| ==>
      ClearRefreshToken(us, id)[k] == if us[k].id == id then us[k].(refreshTokens := None) else us[k]
  {
    match FindOne(us, ById(Some(id)))
    case None =>
    case Some(i) =>
      forall k | 0 <= k < |us| && us[k].id == id ensures k == i {
        FindByIdUnique(us, nextId, k);
      }
  }

  /** Logging out twice leaves the collection as logging out once. */
  lemma ClearRefreshTokenIdempotent(us: seq<User>, id: UserId)
    ensures ClearRefreshToken(ClearRefreshToken(us, id), id) == ClearRefreshToken(us, id)
  {
    var once := ClearRefreshToken(us, id);
    FindByIdSameIds(once, us, Some(id));
  }

  /** Logging out keeps the collection valid. */
  lemma ClearRefreshTokenKeepsValid(us: seq<User>, nextId: UserId, id: UserId)
    requires ValidTable(us, nextId)
    ensures ValidTable(ClearRefreshToken(us, id), nextId)
  {
    match FindOne(us, ById(Some(id)))
    case None =>
    case Some(i) => ReplaceKeepsValid(us, nextId, i, us[i].(refreshTokens := None));
  }

  /** `{ $set: { refreshTokens: undefined } }` applied to one document. A
      library that writes `undefined` as `null` clears the field; one that
      strips `undefined` keys from updates is left with an empty update. */
  function SetRefreshTokensUndefined(u: User, stripsUndefined: bool): (v: User)
    ensures stripsUndefined ==> v == u
    ensures !stripsUndefined ==> v.refreshTokens == None && v.(refreshTokens := u.refreshTokens) == u
  {
    if stripsUndefined then u else u.(refreshTokens := None)
  }

  /** The logout update as written, under either treatment of `undefined`:
      at most the refresh token of a document with that id changes, and
      nothing changes where `undefined` keys are stripped. */
  function LogoutUpdate(us: seq<User>, id: UserId, stripsUndefined: bool): (r: seq<User>)
    ensures |r| == |us|
    ensures stripsUndefined ==> r == us
    ensures forall i :: 0 <= i < |us| ==> r[i].(refreshTokens := us[i].refreshTokens) == us[i]
    ensures forall i :: 0 <= i < |us| && r[i] != us[i] ==> us[i].id == id && r[i].refreshTokens == None
  {
    match FindOne(us, ById(Some(id)))
    case None => us
    case Some(i) => us[i := SetRefreshTokensUndefined(us[i], stripsUndefined)]
  }

  /** Where `undefined` is written as `null` the logout update is
      `ClearRefreshToken`; where `undefined` keys are stripped, a logged-in
      user keeps the refresh token after logging out. */
  lemma StrippedLogoutKeepsToken(us: seq<User>, nextId: UserId, i: nat)
    requires ValidTable(us, nextId) && i < |us| && us[i].refreshTokens.Some?
    ensures LogoutUpdate(us, us[i].id, false) == ClearRefreshToken(us, us[i].id)
    ensures ClearRefreshToken(us, us[i].id)[i].refreshTokens == None
    ensures LogoutUpdate(us, us[i].id, true)[i].refreshTokens == us[i].refreshTokens != None
  {
    FindByIdUnique(us, nextId, i);
  }

  /** The conflict query runs the same setters as document creation, so a
      draft that passed it takes neither a stored username nor a stored
      email. */
  lemma FreeAfterConflictCheck(us: seq<User>, nextId: UserId, d: Draft, hash: string -> string)
    requires FindOne(us, UsernameOrEmail(d.username, d.email)).None?
    ensures ApplySchema(nextId, d).Ok? ==>
      var u := ApplySchema(nextId, d).value.(password := hash(d.password.value));
      UniqueIndexCheck(us, u) == Ok(u)
  {
    if ApplySchema(nextId, d).Ok? {
      var u := ApplySchema(nextId, d).value.(password := hash(d.password.value));
      assert UsernameOrEmail(d.username, d.email) == AnyOf(Some(u.username), Some(u.email));
      NoMatchIsUnique(us, u);
    }
  }

  /** The conflict query sees through case and surrounding whitespace: a
      request whose username normalises to a stored username is found,
      whatever email it carries. */
  lemma ConflictIgnoresCase(us: seq<User>, i: nat, username: string, email: Option<string>)
    requires i < |us| && Normalize(username) == us[i].username
    ensures FindOne(us, UsernameOrEmail(Some(username), email)).Some?
    ensures FindOne(us, UsernameOrEmail(Some(username), email)).value <= i
  {
    assert Matches(us[i], UsernameOrEmail(Some(username), email));
  }

  /** A record that the `$or` query on its own username and email does not
      find passes both unique indexes. */
  lemma NoMatchIsUnique(us: seq<User>, u: User)
    requires FindOne(us, AnyOf(Some(u.username), Some(u.email))).None?
    ensures UniqueIndexCheck(us, u) == Ok(u)
  {
    forall k | 0 <= k < |us| ensures us[k].username != u.username && us[k].email != u.email {
      assert !Matches(us[k], AnyOf(Some(u.username), Some(u.email)));
    }
  }

  /** The unique indexes on `username` and `email`: an insert of `u` is
      refused with the first index that already holds its value. */
  function UniqueIndexCheck(us: seq<User>, u: User): (r: Result<User>)
    ensures r.Ok? <==> forall k :: 0 <= k < |us| ==> us[k].username != u.username && us[k].email != u.email
    ensures r.Ok? ==> r.value == u
    ensures r.Err? ==> r.failure.DuplicateKey?
    ensures r == Err(DuplicateKey("username")) <==> exists k :: 0 <= k < |us| && us[k].username == u.username
  {
    if exists k :: 0 <= k < |us| && us[k].username == u.username then Err(DuplicateKey("username"))
    else if exists k :: 0 <= k < |us| && us[k].email == u.email then Err(DuplicateKey("email"))
    else Ok(u)
  }

  lemma UpdateWithSame<T>(s: seq<T>, i: nat)
    requires i < |s|
    ensures s[i := s[i]] == s
  {
  }

  // ---------------------------------------------------------------------------
  // The store

  class UserStore {
    var users: seq<User>
    var nextId: UserId

    ghost predicate Valid()
      reads this
    {
      ValidTable(users, nextId)
    }

    constructor ()
      ensures Valid() && users == [] && nextId == 0
    {
      users := [];
      nextId := 0;
    }

    /** `doc.save()` on a new document: the `pre("save")` hook runs, then
        the document is inserted under the next id unless the unique index
        on username or email already holds its value. */
    method SaveNew(doc: UserDocument, hash: string -> string) returns (r: Result<User>)
      requires Valid() && WellFormed(doc.data) && doc.isNew && doc.data.id == nextId
      modifies this, doc
      ensures Valid()
      ensures doc.data == AfterPreSave(old(doc.data), old(doc.modifiedPaths), hash)
      ensures r.Err? ==> users == old(users) && nextId == old(nextId)
      ensures r == UniqueIndexCheck(old(users), doc.data)
      ensures r.Ok? ==> doc.modifiedPaths == {} && !doc.isNew
      ensures r.Ok? ==> users == old(users) + [doc.data] && nextId == old(nextId) + 1
    {
      doc.PreSave(hash);
      var d := doc.data;
      var checked := UniqueIndexCheck(users, d);
      if checked.Err? {
        return checked;
      }
      InsertKeepsValid(users, nextId, d);
      users := users + [d];
      nextId := nextId + 1;
      doc.MarkSaved();
      r := Ok(d);
    }

    /** `doc.save()` on a document read from the collection: the
        `pre("save")` hook runs, then the stored document with its id is
        overwritten. The document keeps its id, username and email. */
    method SaveExisting(doc: UserDocument, hash: string -> string) returns (r: Result<User>)
      requires Valid() && WellFormed(doc.data) && !doc.isNew
      requires forall k :: 0 <= k < |users| && users[k].id == doc.data.id ==>
        users[k].username == doc.data.username && users[k].email == doc.data.email
      modifies this, doc
      ensures Valid() && nextId == old(nextId)
      ensures doc.data == AfterPreSave(old(doc.data), old(doc.modifiedPaths), hash)
      ensures r.Ok? ==> r.value == doc.data && doc.modifiedPaths == {} && !doc.isNew
      ensures match FindOne(old(users), ById(Some(doc.data.id)))
        case None => r == Err(Thrown(DocumentGoneMessage)) && users == old(users)
        case Some(i) => r.Ok? && users == old(users)[i := doc.data]
    {
      doc.PreSave(hash);
      var d := doc.data;
      var found := FindOne(users, ById(Some(d.id)));
      if found.None? {
        return Err(Thrown(DocumentGoneMessage));
      }
      ReplaceKeepsValid(users, nextId, found.value, d);
      users := users[found.value := d];
      doc.MarkSaved();
      r := Ok(d);
    }

    /** `generateAccessAndRefreshTokens(userId)`: both tokens are minted
        from the stored user, the refresh token overwrites whatever
        `refreshTokens` held, and any failure on the way is a 500 that
        leaves the collection untouched. */
    method GenerateAccessAndRefreshTokens(userId: UserId, cfg: Config, svc: Services)
      returns (r: Result<TokenPair>)
      requires Valid()
      modifies this
      ensures Valid() && nextId == old(nextId)
      ensures r.Err? ==> r.failure == ApiError(500, TokenFailureMessage) && users == old(users)
      ensures r.Ok? <==>
        && FindOne(old(users), ById(Some(userId))).Some?
        && GenerateAccessToken(old(users)[FindOne(old(users), ById(Some(userId))).value], cfg, svc).Some?
        && GenerateRefreshToken(old(users)[FindOne(old(users), ById(Some(userId))).value], cfg, svc).Some?
      ensures r.Ok? ==>
        var i := FindOne(old(users), ById(Some(userId))).value;
        && Some(r.value.accessToken) == GenerateAccessToken(old(users)[i], cfg, svc)
        && Some(r.value.refreshToken) == GenerateRefreshToken(old(users)[i], cfg, svc)
        && users == old(users)[i := old(users)[i].(refreshTokens := Some(r.value.refreshToken))]
    {
      var found := FindOne(users, ById(Some(userId)));
      if found.None? {
        return Err(ApiError(500, TokenFailureMessage));
      }
      var i := found.value;
      var doc := new UserDocument.Load(users[i]);
      var accessToken := GenerateAccessToken(doc.data, cfg, svc);
      if accessToken.None? {
        return Err(ApiError(500, TokenFailureMessage));
      }
      var refreshToken := GenerateRefreshToken(doc.data, cfg, svc);
      if refreshToken.None? {
        return Err(ApiError(500, TokenFailureMessage));
      }
      doc.SetRefreshTokens(Some(refreshToken.value));
      forall k | 0 <= k < |users| && users[k].id == doc.data.id ensures k == i {
        FindByIdUnique(users, nextId, k);
      }
      var saved := SaveExisting(doc, svc.hash);
      assert saved.Ok?;
      r := Ok(TokenPair(accessToken.value, refreshToken.value));
    }

    /** `User.create(fields)` followed by `user.save()`: the draft is cast
        and validated, inserted with the next id and its password hashed by
        the hook; the second save finds nothing modified and re-hashes
        nothing. */
    method CreateUser(d: Draft, hash: string -> string) returns (r: Result<User>)
      requires Valid()
      modifies this
      ensures Valid()
      ensures r.Err? ==> users == old(users) && nextId == old(nextId)
      ensures MissingPaths(d) != [] ==> r == Err(ValidationError(MissingPaths(d)))
      ensures MissingPaths(d) == [] ==> r == UniqueIndexCheck(old(users), CreatedRecord(old(nextId), d, hash))
      ensures r.Ok? ==> users == old(users) + [r.value] && nextId == old(nextId) + 1
    {
      var cast := ApplySchema(nextId, d);
      if cast.Err? {
        return Err(cast.failure);
      }
      r := InsertCreated(d, cast.value, hash);
    }

    /** `User.create` for a draft that passed validation: the new document
        is saved, which hashes its password and inserts it unless a unique
        index refuses it, and then saved once more. */
    method InsertCreated(d: Draft, cast: User, hash: string -> string) returns (r: Result<User>)
      requires Valid() && MissingPaths(d) == [] && cast == ApplySchema(nextId, d).value
      modifies this
      ensures Valid()
      ensures r.Err? ==> users == old(users) && nextId == old(nextId)
      ensures r == UniqueIndexCheck(old(users), CreatedRecord(old(nextId), d, hash))
      ensures r.Ok? ==> users == old(users) + [r.value] && nextId == old(nextId) + 1
    {
      var user := new UserDocument.New(cast);
      ghost var stored := CreatedRecord(nextId, d, hash);
      var created := SaveNew(user, hash);
      assert user.data == stored;
      if created.Err? {
        return created;
      }
      assert users == old(users) + [stored] && users[|users| - 1] == stored;
      r := SaveAgain(user, hash);
    }

    /** A second `save()` of the document just inserted: nothing is
        modified, so the hook hashes nothing and the stored record is
        written back as it was. */
    method SaveAgain(doc: UserDocument, hash: string -> string) returns (r: Result<User>)
      requires Valid() && |users| > 0 && doc.data == users[|users| - 1]
      requires !doc.isNew && doc.modifiedPaths == {}
      modifies this, doc
      ensures Valid() && users == old(users) && nextId == old(nextId)
      ensures r == Ok(old(doc.data)) && doc.data == old(doc.data)
    {
      ghost var last := |users| - 1;
      forall k | 0 <= k < |users| && users[k].id == doc.data.id ensures k == last {
        FindByIdUnique(users, nextId, k);
      }
      FindByIdUnique(users, nextId, last);
      r := SaveExisting(doc, hash);
      UpdateWithSame(old(users), last);
    }

    /** `registerUser`. */
    method RegisterUser(req: RegisterRequest, svc: Services) returns (r: Result<Profile>)
      requires Valid()
      modifies this
      ensures Valid()
      ensures r.Err? ==> users == old(users) && nextId == old(nextId)
      // 400: a present field that trims to ""
      ensures AnyBlank(req) ==> r == Err(ApiError(400, BlankFieldMessage))
      // 409: a stored user has the username or the email
      ensures !AnyBlank(req) && FindOne(old(users), UsernameOrEmail(req.username, req.email)).Some?
        ==> r == Err(ApiError(409, ConflictMessage))
      // from here on the fields are not blank and neither is taken
      ensures !AnyBlank(req) && FindOne(old(users), UsernameOrEmail(req.username, req.email)).None? ==>
        match AvatarLocalPath(req.files)
        case Err(f) => r == Err(f)
        case Ok(avatarPath) =>
          if !Truthy(avatarPath) then r == Err(ApiError(400, AvatarMissingMessage))
          else
            match svc.upload(avatarPath)
            case None => r == Err(ApiError(404, AvatarUploadMessage))
            case Some(url) =>
              var draft := RegistrationDraft(req, url, svc);
              if MissingPaths(draft) != [] then r == Err(ValidationError(MissingPaths(draft)))
              else
                var u := CreatedRecord(old(nextId), draft, svc.hash);
                && r == Ok(Project(u))
                && users == old(users) + [u] && nextId == old(nextId) + 1
    {
      if AnyBlank(req) {
        return Err(ApiError(400, BlankFieldMessage));
      }
      var existedUser := FindOne(users, UsernameOrEmail(req.username, req.email));
      if existedUser.Some? {
        return Err(ApiError(409, ConflictMessage));
      }
      var avatarLocalPath := AvatarLocalPath(req.files);
      if avatarLocalPath.Err? {
        return Err(avatarLocalPath.failure);
      }
      var coverImageLocalPath := CoverImageLocalPath(req.files);
      if !Truthy(avatarLocalPath.value) {
        return Err(ApiError(400, AvatarMissingMessage));
      }
      var avatar := svc.upload(avatarLocalPath.value);
      var coverImage := svc.upload(coverImageLocalPath);
      if avatar.None? {
        return Err(ApiError(404, AvatarUploadMessage));
      }
      var draft := RegistrationDraft(req, avatar.value, svc);
      r := CreateAndFetch(draft, svc.hash);
    }

    /** The tail of `registerUser`: `User.create`, `save()`, then
        `findById(user._id).select("-password -refreshToken")`. Once the
        conflict query found nothing, the only failure left is validation. */
    method CreateAndFetch(draft: Draft, hash: string -> string) returns (r: Result<Profile>)
      requires Valid()
      requires FindOne(users, UsernameOrEmail(draft.username, draft.email)).None?
      modifies this
      ensures Valid()
      ensures MissingPaths(draft) != [] ==>
        r == Err(ValidationError(MissingPaths(draft))) && users == old(users) && nextId == old(nextId)
      ensures MissingPaths(draft) == [] ==>
        var u := CreatedRecord(old(nextId), draft, hash);
        && r == Ok(Project(u))
        && users == old(users) + [u] && nextId == old(nextId) + 1
    {
      FreeAfterConflictCheck(users, nextId, draft, hash);
      var user := CreateUser(draft, hash);
      if user.Err? {
        return Err(user.failure);
      }
      var createdUser := FindOne(users, ById(Some(user.value.id)));
      FindByIdUnique(users, nextId, |users| - 1);
      r := Ok(Project(users[createdUser.value]));
    }

    /** `loginUser`. */
    method LoginUser(req: LoginRequest, cfg: Config, svc: Services) returns (r: Result<LoginResponse>)
      requires Valid()
      modifies this
      ensures Valid() && nextId == old(nextId)
      // no failure changes any record, refresh tokens included
      ensures r.Err? ==> users == old(users)
      // 400 unless both username and email are given
      ensures !Truthy(req.username) || !Truthy(req.email) ==> r == Err(ApiError(400, LoginFieldsMessage))
      ensures Truthy(req.username) && Truthy(req.email) ==>
        match FindOne(old(users), UsernameOrEmail(req.username, req.email))
        case None => r == Err(ApiError(404, UnknownUserMessage))
        case Some(i) =>
          if req.password.None? then r == Err(Thrown(NoPasswordMessage))
          else if !IsPasswordCorrect(old(users)[i], req.password.value, svc) then
            r == Err(ApiError(401, WrongPasswordMessage))
          else if GenerateAccessToken(old(users)[i], cfg, svc).None?
               || GenerateRefreshToken(old(users)[i], cfg, svc).None? then
            r == Err(ApiError(500, TokenFailureMessage))
          else
            && r.Ok?
            && Some(r.value.accessToken) == GenerateAccessToken(old(users)[i], cfg, svc)
            && Some(r.value.refreshToken) == GenerateRefreshToken(old(users)[i], cfg, svc)
            // the new refresh token replaces any earlier one; nothing else changes
            && users == old(users)[i := old(users)[i].(refreshTokens := Some(r.value.refreshToken))]
            // the re-read user still carries the refresh token
            && r.value.user == Some(Project(users[i]))
            && r.value.user.value.refreshTokens == Some(r.value.refreshToken)
    {
      if !Truthy(req.username) || !Truthy(req.email) {
        return Err(ApiError(400, LoginFieldsMessage));
      }
      // `{ $or: [{ email }, { username }] }`: the order of the branches does not matter
      var found := FindOne(users, UsernameOrEmail(req.username, req.email));
      if found.None? {
        return Err(ApiError(404, UnknownUserMessage));
      }
      var user := users[found.value];
      if req.password.None? {
        return Err(Thrown(NoPasswordMessage));
      }
      var isPasswordValid := IsPasswordCorrect(user, req.password.value, svc);
      if !isPasswordValid {
        return Err(ApiError(401, WrongPasswordMessage));
      }
      FindByIdUnique(users, nextId, found.value);
      var tokens := GenerateAccessAndRefreshTokens(user.id, cfg, svc);
      if tokens.Err? {
        return Err(tokens.failure);
      }
      FindByIdUnique(users, nextId, found.value);
      var logged := FindOne(users, ById(Some(user.id)));
      var loggedUser := if logged.Some? then Some(Project(users[logged.value])) else None;
      r := Ok(LoginResponse(loggedUser, tokens.value.accessToken, tokens.value.refreshToken));
    }

    /** `logoutUser`, given `req.user._id` from the guard. */
    method LogoutUser(userId: UserId)
      requires Valid()
      modifies this
      ensures Valid() && nextId == old(nextId)
      ensures users == ClearRefreshToken(old(users), userId)
    {
      ClearRefreshTokenKeepsValid(users, nextId, userId);
      var found := FindOne(users, ById(Some(userId)));
      if found.Some? {
        users := users[found.value := users[found.value].(refreshTokens := None)];
      }
    }

    /** The logout route: `verifyToken`, then `logoutUser` for the user the
        guard resolved. A request the guard turns away changes nothing. */
    method Logout(cookie: Option<string>, authorization: Option<string>, cfg: Config, svc: Services)
      returns (r: Result<UserId>)
      requires Valid()
      modifies this
      ensures Valid() && nextId == old(nextId)
      ensures r.Err? ==> r.failure.ApiError? && r.failure.status == 401 && users == old(users)
      ensures r.Ok? <==> VerifyToken(old(users), cookie, authorization, cfg, svc).Ok?
      ensures r.Ok? ==>
        && r.value == VerifyToken(old(users), cookie, authorization, cfg, svc).value.id
        && users == ClearRefreshToken(old(users), r.value)
    {
      var who := VerifyToken(users, cookie, authorization, cfg, svc);
      if who.Err? {
        return Err(who.failure);
      }
      LogoutUser(who.value.id);
      r := Ok(who.value.id);
    }
  }
}
