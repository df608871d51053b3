# User service core, modelled in Dafny

This project models the user service of an Express and Mongoose video back
end. It covers three parts:

- the `User` model: the schema, the `pre("save")` hook, the password check and
  the two token builders;
- the `verifyToken` middleware that guards authenticated routes;
- the user controller: `registerUser`, `loginUser`, `logoutUser` and the
  shared `generateAccessAndRefreshTokens`.

The `users` collection is a sequence of records in insertion order. It is
held by the class `UserController.UserStore`, whose methods update it in
place. A Mongoose document being saved is the class `UserModel.UserDocument`.
That class has the fields Mongoose tracks: the values, the set of modified
paths, and whether the document is new.

bcrypt, `jsonwebtoken` and the Cloudinary upload are oracles. They are the
function fields of `UserModel.Services`, so every property holds for any
hashing, signing, verifying or uploading behaviour. Environment variables
are a `Config` value. Each request runs as one sequential step.

Files:

- `common.dfy`: `Option`, `Result`, the failures a handler can end with, and
  the schema paths.
- `js_string.dfy`: the JavaScript string behaviour the code relies on. This
  covers truthiness, `trim()`, the `lowercase` setter and
  `replace(string, string)`.
- `user_model.dfy`: the schema, validation, the hook, the token builders and
  the two queries.
- `auth_middleware.dfy`: the guard.
- `user_controller.dfy`: the handlers over the store.

The comments in `registerUser` (src/controllers/user.controller.js:28-36)
promise a non-empty check and a response without the password and refresh
token. The model follows the code where it does something else or something
unexpected:

- Registration rejects a field only when it is present and blank. A missing
  field passes that check and fails later in schema validation.
- Login demands both username and email (`!username || !email`), although
  either would be enough to find the user.
- Logout sets `refreshTokens` (plural), the schema's field.
- The projection `"-password -refreshToken"` names a path the schema does not
  have. The refresh token is therefore returned to the client by login and
  placed on `req.user` by the guard.
- `req.header("Authorization").replace("Bearer ", "")` removes the first
  "Bearer " wherever it occurs in the header, not only a leading one.

## Model

| member | source | states |
|---|---|---|
| JsString.Trim | src/controllers/user.controller.js:46-49 | `trim()` yields a string with no whitespace at either end; an already trimmed string is unchanged; the result is empty exactly when the input is all whitespace |
| JsString.TrimKeepsInfix | src/controllers/user.controller.js:46-49 | `trim()` returns the infix of its input that starts where the leading whitespace ends |
| JsString.TrimCutsSpace | src/controllers/user.controller.js:46-49 | what `trim()` removes before and after that infix is all whitespace |
| JsString.TrimStart | src/models/user.model.js:12 | leading whitespace removal returns a suffix whose removed prefix is all whitespace and whose first character is not whitespace |
| JsString.TrimEnd | src/models/user.model.js:12 | trailing whitespace removal returns a prefix whose removed suffix is all whitespace and whose last character is not whitespace |
| JsString.Lower | src/models/user.model.js:11 | the `lowercase` setter keeps the length and whitespace positions, maps each ASCII capital to the letter 32 code points higher and leaves every other character as it is, leaves no uppercase letter, and is the identity on lowercase strings |
| JsString.Normalize | src/models/user.model.js:7-27 | the `lowercase` + `trim` setters give a normal value (no uppercase, no outer whitespace), fix normal values, and give "" exactly for all-whitespace input |
| JsString.LowerKeepsSpaces | src/models/user.model.js:11-12 | lowercasing changes whether a string is all whitespace in neither direction |
| JsString.TrimKeepsNoUpper | src/models/user.model.js:11-12 | trimming a string without uppercase letters leaves none |
| JsString.LowerTrimStart | src/models/user.model.js:11-12 | lowercasing commutes with removing leading whitespace |
| JsString.LowerTrimEnd | src/models/user.model.js:11-12 | lowercasing commutes with removing trailing whitespace |
| JsString.LowerTrimCommute | src/models/user.model.js:11-12 | the two setters commute, so their order does not change the stored value |
| JsString.NormalizeIdempotent | src/models/user.model.js:11-12 | applying the setters to a stored value again changes nothing |
| JsString.IndexOfFrom | src/middlewares/auth.middleware.js:14 | the search returns the first occurrence of the pattern at or after the start, or none when there is no occurrence |
| JsString.ReplaceFirst | src/middlewares/auth.middleware.js:14 | `replace` with a string pattern and a replacement without `$` leaves a string without the pattern unchanged and otherwise substitutes the replacement for the first occurrence only |
| JsString.ReplaceWithEmpty | src/middlewares/auth.middleware.js:14 | replacing with "" deletes the first occurrence of the pattern and keeps what surrounds it |
| JsString.ReplaceLeadingPattern | src/middlewares/auth.middleware.js:14 | replacing a leading pattern by "" gives back the rest of the string |
| JsString.ReplaceAbsentPattern | src/middlewares/auth.middleware.js:14 | a string without the pattern is unchanged by `replace` |
| UserModel.ProjectDropsOnlyPassword | src/middlewares/auth.middleware.js:24 | the projection `"-password -refreshToken"` hides the password and nothing else: two users have the same projection exactly when they differ at most in the password |
| UserModel.Cast | src/models/user.model.js:7-27 | the setters keep a missing value missing, give a normal value, give "" exactly for all-whitespace input, and leave a normal value unchanged |
| UserModel.MissingPaths | src/models/user.model.js:7-47 | each required path (username, email, fullName, avatar, password) is reported exactly when its value is absent or "" after the setters; the list is empty exactly when all five pass; the paths are listed once each in schema order |
| UserModel.Failing | src/models/user.model.js:7-47 | the failed-paths list contains each path exactly when its check failed, each at most once and in schema order |
| UserModel.FailedChecks | src/models/user.model.js:7-47 | the paths reported are exactly those whose check failed, and the list is empty exactly when every check passed |
| UserModel.FailedChecksInOrder | src/models/user.model.js:7-47 | checks run in schema order report their failures in schema order |
| UserModel.ApplySchema | src/models/user.model.js:5-53 | creation succeeds exactly when no required path is missing, and otherwise fails with a validation error listing the missing paths; a created document is well formed, holds the normalised username, email and full name, the given avatar, cover image and password, an empty watch history and no refresh token |
| UserModel.AfterPreSave | src/models/user.model.js:55-66 | the hook changes nothing but the password; it leaves the document as it is when the password is not modified, and stores the password's digest when it is |
| UserModel.SavedPasswordIsCorrect | src/models/user.model.js:69-73 | when bcrypt accepts every password against its own digest, a password saved through the hook passes `isPasswordCorrect` |
| UserModel.AccessTokenDependsOnClaims | src/models/user.model.js:75-85 | `generateAccessToken` gives the same token for two users that agree on id, email, username and full name, whatever else differs |
| UserModel.RefreshTokenDependsOnId | src/models/user.model.js:87-95 | `generateRefreshToken` gives the same token for two users with the same id |
| UserModel.AccessClaimsIdentifyUser | src/models/user.model.js:75-85 | the access token payload is the id, email, username and full name (two users share it exactly when those agree), signed with the access secret and expiry |
| UserModel.RefreshClaimsCarryOnlyId | src/models/user.model.js:87-95 | the refresh token request carries only the id (two users share it exactly when their ids agree), signed with the refresh secret and expiry |
| UserModel.UserDocument.New | src/models/user.model.js:5-53 | a new document holds the given values, is new, and counts every path it sets as modified, the password included |
| UserModel.UserDocument.Load | src/controllers/user.controller.js:9 | a document read by a query is not new and has nothing modified |
| UserModel.UserDocument.SetRefreshTokens | src/controllers/user.controller.js:14 | assigning `refreshTokens` changes only that field and marks that path modified |
| UserModel.UserDocument.PreSave | src/models/user.model.js:55-66 | the hook replaces the password by its digest exactly when the password path is modified and otherwise leaves the document as it was |
| UserModel.UserDocument.MarkSaved | src/models/user.model.js:55-66 | after a save nothing counts as modified and the document is no longer new |
| UserModel.UsernameOrEmail | src/controllers/user.controller.js:54-56 | the `$or` filter carries the request's username and email after the setters, so its values are normal; a missing value stays missing |
| UserModel.FindOne | src/controllers/user.controller.js:54-56 | `findOne` returns the first document in collection order that matches, and none when no document matches |
| UserModel.FindByIdUnique | src/controllers/user.controller.js:9 | in a valid collection `findById` of a stored id returns exactly that document |
| UserModel.FindDistinctId | src/controllers/user.controller.js:9 | with pairwise distinct ids, `findById` of a document's id returns that document |
| UserModel.FindByIdSameIds | src/middlewares/auth.middleware.js:24 | `findById` reads only ids: two collections with the same ids in the same order give the same answer |
| UserModel.ReplaceKeepsValid | src/controllers/user.controller.js:16 | overwriting a document with one of the same id, username and email keeps the collection valid |
| UserModel.InsertKeepsValid | src/models/user.model.js:7-21 | inserting a well-formed document with a fresh id, username and email keeps the collection valid |
| AuthMiddleware.Unauthorized | src/middlewares/auth.middleware.js:35-38 | every error caught by the guard becomes a 401 carrying the error's message, or "Invalid access token" when that is empty |
| AuthMiddleware.ExtractToken | src/middlewares/auth.middleware.js:12-14 | a non-empty cookie is the token; otherwise the token is present exactly when the header is, is the whole header when it holds no "Bearer ", and is the header with its first "Bearer " deleted otherwise |
| AuthMiddleware.VerifyToken | src/middlewares/auth.middleware.js:9-39 | the guard fails only with 401: "no token provided" when there is no token, the verifier's error when verification fails, "invalid token provided" when no stored user has the token's `_id`; it succeeds whenever a stored user has that id, and then returns the projection of that user |
| AuthMiddleware.CookieTakesPrecedence | src/middlewares/auth.middleware.js:12-14 | a non-empty `accessToken` cookie is used whatever the header holds |
| AuthMiddleware.BearerHeaderYieldsToken | src/middlewares/auth.middleware.js:12-14 | without a cookie, `Authorization: Bearer t` yields `t`, and a header without "Bearer " is used whole |
| AuthMiddleware.BearerRemovedAnywhere | src/middlewares/auth.middleware.js:14 | the first "Bearer " is removed even mid-header: for any `p` without "Bearer " and any `x`, the header `p + "Bearer " + x` yields `p + x` |
| AuthMiddleware.AccessTokenAuthenticates | src/middlewares/auth.middleware.js:22-33 | an access token minted for a stored user, when the verifier returns the signed payload, authenticates as exactly that user |
| AuthMiddleware.GuardIgnoresRefreshTokens | src/middlewares/auth.middleware.js:24-33 | changing any user's refresh token changes neither whether the guard admits a request nor whom it admits, so logout does not revoke access tokens |
| UserController.AnyBlank | src/controllers/user.controller.js:46-52 | registration's blank check trips exactly when fullName, username, email or password is present and all whitespace; an absent field never trips it |
| UserController.AvatarLocalPath | src/controllers/user.controller.js:66 | the avatar path lookup throws exactly when files were sent without an `avatar` field; without files it yields nothing; with an `avatar` list it yields the first file's path, or nothing for an empty list |
| UserController.CoverImageLocalPath | src/controllers/user.controller.js:69-76 | without files or a cover image list there is no cover path; with a list it is the first file's path, or nothing for an empty list |
| UserController.RegistrationDraft | src/controllers/user.controller.js:94-101 | once the blank check has passed, schema validation of the fields handed to `User.create` reports username, email, full name or password exactly when the request lacks it, and the avatar exactly when its URL is empty |
| UserController.CreatedRecord | src/controllers/user.controller.js:94-103 | the record created for a valid draft is well formed, has the next id, and stores the hash of the draft's password in place of the password, all else as cast |
| UserController.RegistrationRecord | src/controllers/user.controller.js:94-101 | a registered record holds the normalised username, email and full name, the hashed password, the avatar URL, the cover URL or "", an empty history and no refresh token |
| UserController.ClearRefreshToken | src/controllers/user.controller.js:189-196 | the logout update keeps the collection's length, changes no field but `refreshTokens`, changes only documents with the given id, and clears the token of one such document when there is one |
| UserController.SetRefreshTokensUndefined | src/controllers/user.controller.js:189-196 | `$set` of `undefined` clears the field when `undefined` is written as null, and changes nothing when `undefined` keys are stripped |
| UserController.LogoutUpdate | src/controllers/user.controller.js:189-196 | the logout update as written keeps the collection's length, changes at most the refresh token of a document with the given id and only to none, and changes nothing where `undefined` keys are stripped |
| UserController.StrippedLogoutKeepsToken | src/controllers/user.controller.js:189-196 | when `undefined` is written as null the update is the modelled logout; when `undefined` keys are stripped, a logged-in user keeps the refresh token after logging out |
| UserController.ClearRefreshTokenEffect | src/controllers/user.controller.js:189-196 | logout clears the refresh token of the user with that id and changes no other field of that user and no other user |
| UserController.ClearRefreshTokenIdempotent | src/controllers/user.controller.js:189-196 | logging out twice leaves the collection as logging out once |
| UserController.ClearRefreshTokenKeepsValid | src/controllers/user.controller.js:189-196 | logout keeps the collection valid |
| UserController.FreeAfterConflictCheck | src/controllers/user.controller.js:54-65 | a draft that the conflict query did not find passes both unique indexes when it is created |
| UserController.ConflictIgnoresCase | src/controllers/user.controller.js:54-65 | a username that normalises to a stored username is found by the conflict query, whatever its case or surrounding whitespace |
| UserController.NoMatchIsUnique | src/models/user.model.js:7-21 | a record whose own username and email the `$or` query does not find passes both unique indexes |
| UserController.UniqueIndexCheck | src/models/user.model.js:7-21 | an insert is refused with a duplicate-key error exactly when some stored document has the same username or email, naming username when the username is taken |
| UserController.UserStore.constructor | src/models/user.model.js:97 | the collection starts empty and valid |
| UserController.UserStore.SaveNew | src/models/user.model.js:55-66 | saving a new document runs the hook, then inserts it under the next id unless a unique index refuses it; the collection stays valid and is unchanged on refusal |
| UserController.UserStore.SaveExisting | src/controllers/user.controller.js:16 | saving a loaded document runs the hook and overwrites the stored document with that id, or throws when none is left; the collection stays valid |
| UserController.UserStore.GenerateAccessAndRefreshTokens | src/controllers/user.controller.js:7-25 | the tokens are minted from the stored user and the refresh token overwrites any earlier one, changing nothing else; a missing user or a signing failure gives 500 and changes nothing |
| UserController.UserStore.CreateUser | src/controllers/user.controller.js:94-103 | creation fails with the validation error when paths are missing and with the unique-index outcome otherwise; on success exactly the created record is appended; on failure nothing changes |
| UserController.UserStore.InsertCreated | src/controllers/user.controller.js:94-103 | for a draft that passed validation, creation returns exactly the unique-index outcome for the created record; on success that record is appended and the id counter advances, on refusal nothing changes |
| UserController.UserStore.SaveAgain | src/controllers/user.controller.js:103 | the second `save()` after creation hashes nothing again and leaves the collection as it was |
| UserController.UserStore.CreateAndFetch | src/controllers/user.controller.js:94-116 | after a conflict query found nothing, creation fails only on validation; otherwise the created record is appended and its projection returned |
| UserController.UserStore.RegisterUser | src/controllers/user.controller.js:27-123 | registration answers 400 for a blank field, 409 when the username or email is taken, the lookup's error without `avatar` files, 400 without an avatar path, 404 when the avatar upload fails, the validation error for missing paths, and otherwise appends exactly the created record and returns its projection; no failure changes the collection |
| UserController.UserStore.LoginUser | src/controllers/user.controller.js:125-182 | login answers 400 unless both username and email are given, 404 for an unknown user, bcrypt's error without a password, 401 for a wrong password, 500 when signing fails; on success it stores the new refresh token in that user only and returns both tokens and the user, refresh token included; no failure changes the collection |
| UserController.UserStore.LogoutUser | src/controllers/user.controller.js:184-206 | logout clears the refresh token of the given user and changes nothing else |
| UserController.UserStore.Logout | src/controllers/user.controller.js:184-196 | the logout route succeeds exactly when the guard admits the request, then clears that user's refresh token; a request the guard refuses gets 401 and changes nothing |

## Left out

- Hashing, comparison, signing, verification and upload are oracles. bcrypt's random salt, the cost factor 10 and token expiry are not modelled.
- Cookies, response bodies and HTTP status codes of errors that are not `ApiError` are left out. Those codes are decided by the error handler, which is not part of this model.
- Time, the database connection and concurrent requests are left out. Each handler is one atomic step, so the source's `if (!createdUser)` 500 path after registration and `save()` finding its document gone during login cannot happen here.
- Request body values are strings or absent. Non-string JSON values, and the TypeError that `trim` would throw on them, are not modelled.
- JsString.Lower: lowercases ASCII letters only, not the full Unicode mapping of `toLowerCase`.
- Ids are natural numbers handed out in order, not ObjectIds. A malformed id (`CastError`) cannot arise.
- Mongoose runs the `lowercase` and `trim` setters on query values, and the model does the same. The model also assumes that a missing query value in `$or: [{ username }, { email }]` is sent as `null`, so it matches no stored document (every stored username and email is set). If the key were stripped instead, `{}` would match every document, and a registration without a username would get 409 whenever the collection is not empty.
- JsString.ReplaceFirst: inserts the replacement as it is and requires it to hold no `$`. JavaScript's `replace` expands `$&`, `$$` and the text before or after the match in the replacement. The only call, in the guard, passes "", where the two agree.
- The cover image upload runs even when the avatar upload then fails. Its outcome is discarded, and only its result value is modelled.
- UserController.UserStore.GenerateAccessAndRefreshTokens: `save({ validateBeforeSave: false })` skips validation. This model never revalidates on save, so the option has no separate effect.
- UserController.ClearRefreshToken / UserController.UserStore.LogoutUser: the model assumes that `$set: { refreshTokens: undefined }` clears the field. This is what Mongoose 6 does by writing `null`. A stored `null` and a missing field are both `None` here. Mongoose 7 and later strip `undefined` keys from updates, so the update is empty and the token stays (see Findings). The sources do not pin the Mongoose version.
- `watchHistory` holds ids that are never read or written by this core. The video and subscription models and the other routes are not part of this model.

## Findings

| source | as written | input that shows it | evidently intended | confidence | as-written member | corrected member |
|---|---|---|---|---|---|---|
| src/controllers/user.controller.js:189-196 | logout runs `findByIdAndUpdate(id, { $set: { refreshTokens: undefined } })` | a logged-in user whose document holds a refresh token logs out under Mongoose 7 or later, which strips `undefined` keys: the update is empty | the stored refresh token is removed (`$unset`, or `$set` to `null`) | medium: depends on the Mongoose version, which the sources do not pin; not executed | UserController.StrippedLogoutKeepsToken | UserController.ClearRefreshTokenEffect |
