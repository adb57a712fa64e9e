# UserManager in Dafny

A model of the rule-bearing core of UserManager, a Vapor service that registers, activates and
authenticates users, keeps per-user attributes and lets admins edit and delete users. The model
covers:

- the process-wide permission-level registry (`UserStatus`): an id-to-name table that only grows,
  gives each id one name, and writes a status as its bare id;
- the path-restriction literal (`*` at the end makes a prefix rule, anything else a full path);
- access and refresh token payloads, their lifetimes and the expiry check;
- the account lifecycle handlers `register`, `activate`, `newPassword`, `refreshAccessToken`,
  `login` and `status`;
- the profile and attribute handlers `profile`, `save`, `attributes`, `createAttribute`,
  `delete` and `deleteAttributes`, with the profile route restriction;
- the admin handlers `editUser` and `allUsers`;
- the `User` model class (its initialisers and its JSON decoding with defaults) and its helpers:
  attribute queries, the attribute map, the response projection, the `Language` header override,
  the login username key and the access-token hook;
- the two error converters for decoding failures.

The database is a `Store.Database` object holding the `users` and `attributes` tables as
sequences of rows, with autoincrement counters. Its invariant `Valid` says that stored rows have
distinct ids below the counter. Handlers are methods that take it as an argument; only the
table operations (insert, update, save, delete) are methods of the class. As in the Swift code, a handler loads
a row into a `Users.User` object, assigns its fields and saves or updates it. Beside each
state-changing handler there is a function over the tables (`Activation`, `PasswordReset`,
`Edited`, `Deletion`, `AttributeDeletion`, `Upsert`). The handler's postcondition ties it to that
function, and the lemmas about several calls are stated over the functions. Hashing, the md5 of
the date, the clock and JWT signing are parameters. Time is integer seconds.

Where a doc comment and the code disagree the model follows the code:

- `User.init(_:_:)` is documented as giving permission level 0, but it sets `.standard` (id 2).
- `delete` is documented as deleting the user along with its attributes, but it deletes only the
  attributes (see Findings).

`register` decodes the whole `User` from the body, so a caller can choose its own
`permissionLevel`, `confirmed` flag and even `id`. A body with an id updates that row instead of
inserting. `AuthController.RegisterKeepsSuppliedLevel` records this.

## Model

| member | source | states |
|---|---|---|
| UserStatuses.InitialStatuses | Sources/App/Models/UserStatus/UserStatus.swift:31-35 | the registry starts with exactly 0, 1 and 2, named admin, moderator and standard |
| UserStatuses.CustomName | Sources/App/Models/UserStatus/UserStatus.swift:63 | the default name is `custom-` followed by the decimal form of the id |
| UserStatuses.CustomNameInjective | Sources/App/Models/UserStatus/UserStatus.swift:63 | two different ids never get the same default name |
| UserStatuses.Resolve | Sources/App/Models/UserStatus/UserStatus.swift:57-66 | the status gets the requested id; a stored name wins and leaves the registry alone; otherwise the given name or `custom-<id>` is stored and used; afterwards the registry maps the id to the status's name, keeps every old entry and gains at most that id |
| UserStatuses.RawValue | Sources/App/Models/UserStatus/UserStatus.swift:48 | `rawValue` is the id |
| UserStatuses.Encode | Sources/App/Models/UserStatus/UserStatus.swift:76-79 | the wire form is the raw value alone |
| UserStatuses.RegisterTwice | Sources/App/Models/UserStatus/UserStatus.swift:60-65 | constructing a status for an id that is already registered returns the first name and does not change the registry, whatever name is passed |
| UserStatuses.DecodeEncode | Sources/App/Models/UserStatus/UserStatus.swift:68-79 | decoding the encoded form of a registered status gives back an equal status and leaves the registry unchanged |
| UserStatuses.EqualIffSameId | Sources/App/Models/UserStatus/UserStatus.swift:7-35 | two statuses from one registry are equal iff their ids are; a status is `.admin` iff its id is 0 |
| UserStatuses.StatusRegistry.Status | Sources/App/Models/UserStatus/UserStatus.swift:57-66 | `init(id:name:)` on the shared registry returns and stores what `Resolve` gives, keeping the built-in levels |
| UserStatuses.StatusRegistry.FromRawValue | Sources/App/Models/UserStatus/UserStatus.swift:74 | `init(rawValue:)` behaves as `init(id:name:nil)` |
| UserStatuses.StatusRegistry.FromIntegerLiteral | Sources/App/Models/UserStatus/UserStatus.swift:83-85 | `init(integerLiteral:)` behaves as `init(rawValue:)` |
| UserStatuses.StatusRegistry.Decode | Sources/App/Models/UserStatus/UserStatus.swift:68-72 | `init(from:)` reads an integer and goes through `init(rawValue:)` |
| UserStatuses.EncodeDecodeRoundTrip | Sources/App/Models/UserStatus/UserStatus.swift:57-79 | a status built on the registry, encoded and decoded again on the same registry, is the same status; the registry afterwards is what building the status made it, and unchanged when the id was registered already |
| Text.IntToDecimalInjective | Sources/App/Models/UserStatus/UserStatus.swift:63 | the decimal form of an integer, as interpolated into a string, determines the integer |
| Text.IntToDecimal | Sources/App/Models/UserStatus/UserStatus.swift:63 | the decimal form of an id as `\(id)` writes it: never empty, and starting with `-` exactly for a negative id |
| RouteRestrictions.FromLiteral | Sources/App/Services/RouteRestrictions.swift:13-21 | exactly one of `prefix` and `full` is set; `prefix` iff the literal ends in `*`; the literal is stored verbatim, star included |
| RouteRestrictions.FromLiteralInjective | Sources/App/Services/RouteRestrictions.swift:13-21 | different literals give different restrictions |
| RouteRestrictions.EmptyLiteralIsFullPath | Sources/App/Services/RouteRestrictions.swift:14-18 | the empty literal has no last character and becomes the full path `""` |
| AccessTokens.NewPayload | Sources/App/Models/AccessToken.swift:20-31 | fails iff the user has no id; otherwise `iat` is now, `exp - iat` is the lifetime, and status, names, language, email and id come from the user |
| AccessTokens.NewRefreshToken | Sources/App/Models/AccessToken.swift:45-51 | fails iff the user has no id; otherwise it holds the id, `iat` now and `exp - iat` the lifetime, and nothing else |
| AccessTokens.VerifyNotExpired | Sources/App/Models/AccessToken.swift:33-36 | the expiration claim passes iff now is before `exp`, else the token is expired |
| AccessTokens.VerifyPayload | Sources/App/Models/AccessToken.swift:33-36 | an access payload verifies by its `exp` alone |
| AccessTokens.VerifyRefreshToken | Sources/App/Models/AccessToken.swift:53-56 | a refresh token verifies by its `exp` alone |
| AccessTokens.VerifyJson | Sources/App/Models/AccessToken.swift:60-65 | a JSON payload always verifies |
| AccessTokens.AccessPayloadLifetime | Sources/App/Models/AccessToken.swift:20-36 | a default access payload issued at `now` verifies exactly before `now + 3600` |
| AccessTokens.RefreshTokenLifetime | Sources/App/Models/AccessToken.swift:45-56 | a default refresh token issued at `now` verifies exactly before `now + 2592000` (30 days) |
| AccessTokens.PayloadTracksLevel | Sources/App/Models/AccessToken.swift:23-30 | the payload's status is the user's current level, and the password never influences the payload |
| AuthController.ActivationEmail | Sources/App/Controllers/AuthController.swift:48-58 | the activation mail goes to the user's email with `url` = `emailURL` + code |
| AuthController.PasswordEmail | Sources/App/Controllers/AuthController.swift:107-114 | the password mail goes to the requested email and carries the password |
| AuthController.Registered | Sources/App/Controllers/AuthController.swift:37-42 | the saved row is the body with the password replaced by its hash and the email code set; a body without an id gets the next id; nothing else changes |
| AuthController.Register | Sources/App/Controllers/AuthController.swift:27-67 | a taken email is refused with badRequest and nothing is stored or sent; otherwise the registered row is inserted (or updates the row with the body's id), the activation mail is sent iff the user is not confirmed, and the answer is the profile response |
| AuthController.RegisterKeepsSuppliedLevel | Sources/App/Controllers/AuthController.swift:27-42 | `register` stores the permission level and confirmation flag the body sent |
| AuthController.Activated | Sources/App/Controllers/AuthController.swift:157-158 | an activated user is confirmed with no email code, and nothing else changes |
| AuthController.Activation | Sources/App/Controllers/AuthController.swift:150-159 | an unknown code is refused, an already confirmed user is refused, otherwise exactly the first user with the code is activated |
| AuthController.ActivationNeverRepeats | Sources/App/Controllers/AuthController.swift:151-159 | after an activation the code never finds the activated user again |
| AuthController.SecondActivationFails | Sources/App/Controllers/AuthController.swift:151-159 | when no other user shares the code, activating twice with it fails with "No user found with the given code." |
| AuthController.Activate | Sources/App/Controllers/AuthController.swift:147-161 | the handler leaves the users table as `Activation` says and answers with the activated user without attributes |
| AuthController.GeneratedPassword | Sources/App/Controllers/AuthController.swift:93-95 | the new password is the first eight characters of the digest |
| AuthController.PasswordReset | Sources/App/Controllers/AuthController.swift:84-98 | an unknown email and an unconfirmed user are refused with badRequest; otherwise only that user's password changes, to the hash of the generated password |
| AuthController.PasswordResetStoresMailedPassword | Sources/App/Controllers/AuthController.swift:88-114 | a reset succeeds only for a confirmed user with that email, and the stored hash is the hash of the mailed password; that password is the only field of the table that changes |
| AuthController.NewPassword | Sources/App/Controllers/AuthController.swift:78-117 | the handler leaves the users table as `PasswordReset` says, answers without attributes, and mails the password iff mail is configured |
| AuthController.RefreshPayload | Sources/App/Controllers/AuthController.swift:124-135 | a refresh fails if the token did not verify, has expired, or names no stored user; otherwise the payload is a default access payload built from the user stored now |
| AuthController.RefreshAccessToken | Sources/App/Controllers/AuthController.swift:120-144 | succeeds exactly when `RefreshPayload` does and answers `status: success` with the signed payload |
| AuthController.RefreshUsesStoredUser | Sources/App/Controllers/AuthController.swift:129-135 | when the row under the token's id is replaced, the refreshed payload reflects the new row |
| AuthController.RefreshUsesCurrentLevel | Sources/App/Controllers/AuthController.swift:129-135 | the refreshed payload carries the level stored at refresh time, not the level at issue |
| AuthController.StatusOf | Sources/App/Controllers/AuthController.swift:71-75 | `status` answers with the authenticated user, language header applied, without attributes; an unauthenticated request is refused |
| AuthController.Login | Sources/App/Controllers/AuthController.swift:166-190 | an unauthenticated request is refused and a user without id fails; otherwise the response holds the signed default access payload, a refresh token for the id valid 30 days, and the user without attributes |
| UserController.ProfileRestrictions | Sources/App/Controllers/UserController.swift:24 | one restriction: POST on `any/users/profile`, allowed for admins only |
| UserController.Profile | Sources/App/Controllers/UserController.swift:44-48 | `profile` answers with the authenticated user and its attributes |
| UserController.ListAttributes | Sources/App/Controllers/UserController.swift:67-69 | `attributes` answers with exactly the caller's attributes |
| UserController.ProfileSaved | Sources/App/Controllers/UserController.swift:58-59 | each name becomes the body's value, or `""` when the body leaves it out; nothing else changes |
| UserController.Save | Sources/App/Controllers/UserController.swift:52-63 | the caller's object and stored row become `ProfileSaved` of the caller (language header applied); the answer includes attributes |
| UserController.Upsert | Sources/App/Controllers/UserController.swift:78-84 | as written: the first attribute with the key, whoever owns it, gets the new text; otherwise a new attribute owned by the caller is appended |
| Store.FirstWithKey | Sources/App/Controllers/UserController.swift:78 | the first attribute carrying the key, whoever owns it: the lowest such index, or none when no attribute has the key |
| UserController.UpsertOverwritesOtherUser | Sources/App/Controllers/UserController.swift:78-84 | another user's attribute with the same key is overwritten, and the caller ends up with no attribute |
| UserController.UpsertOwn | Sources/App/Models/Attribute/Attribute.swift:14-26 | the intended upsert fails without a caller id; otherwise the caller's first attribute with the key gets the new text, and only when the caller has none is a new attribute appended |
| UserController.FirstOwnedWithKey | Sources/App/Models/Attribute/Attribute.swift:14-26 | finds an attribute with the key owned by the user, or says none exists |
| UserController.UpsertOwnOnlyTouchesCaller | Sources/App/Models/Attribute/Attribute.swift:14-26 | the intended upsert leaves every other user's attributes untouched, and the caller then has the key with the new text |
| UserController.UpsertOwnKeepsKeysUnique | Sources/App/Models/Attribute/Attribute.swift:14-26 | when every user's keys are unique, the intended upsert keeps them unique |
| UserController.UpsertOwnMapsKey | Sources/App/Models/Attribute/Attribute.swift:14-26 | when every user's keys are unique, after the intended upsert the caller's attribute map sends the key to the new text |
| Attributes.SelectKeepsKeysUnique | Sources/App/Models/Attribute/Attribute.swift:14-26 | selecting attributes from a table whose keys are unique per user keeps them unique |
| UserController.CreateAttribute | Sources/App/Controllers/UserController.swift:72-88 | the handler leaves the attributes table as `Upsert` says and answers with the caller's profile |
| UserController.CreateOwnAttribute | Sources/App/Controllers/UserController.swift:72-88 | the same handler with the lookup scoped to the caller, as `UpsertOwn` says |
| UserController.Deletion | Sources/App/Controllers/UserController.swift:92-108 | a non-admin is refused with unauthorized before anything else; an unknown target is not found; otherwise exactly the target's attributes are removed and the users table is unchanged |
| UserController.DeletionKeepsUserRow | Sources/App/Controllers/UserController.swift:104-107 | after a successful `delete` the user can still be found by id, and none of its attributes remain |
| UserController.DeletionWithUser | Sources/App/Controllers/UserController.swift:90-91 | the intended deletion makes the same checks and also removes the user's row |
| UserController.DeletionWithUserRemovesUser | Sources/App/Controllers/UserController.swift:90-91 | after the intended deletion neither the user nor its attributes remain, and every other user is kept |
| UserController.Delete | Sources/App/Controllers/UserController.swift:92-108 | the handler changes the attributes table as `Deletion` says, leaves the users table alone and answers 204 |
| UserController.RemoveAttributesOf | Sources/App/Controllers/UserController.swift:106 | deleting a user's attributes removes exactly those whose owner is that user |
| UserController.DeleteWithUser | Sources/App/Controllers/UserController.swift:90-108 | the intended handler changes both tables as `DeletionWithUser` says |
| UserController.AttributeDeletion | Sources/App/Controllers/UserController.swift:112-129 | with a key, the caller's attributes with that key go; otherwise with an id, the caller's attribute with that id; with neither, badRequest; no other user's attribute is ever removed |
| UserController.KeyTakesPrecedence | Sources/App/Controllers/UserController.swift:119-122 | when a key is given, the id makes no difference |
| UserController.DeleteAttributes | Sources/App/Controllers/UserController.swift:112-129 | the handler changes the attributes table as `AttributeDeletion` says and answers 204 |
| AdminController.Merge | Sources/App/Controllers/AdminController.swift:26-33 | each of the six fields is replaced only when the body supplies it; password, email code, id and deletion date never change |
| AdminController.MergeEmpty | Sources/App/Controllers/AdminController.swift:27-32 | an empty body leaves the user unchanged |
| AdminController.MergeIdempotent | Sources/App/Controllers/AdminController.swift:27-32 | applying the same edit twice is applying it once |
| AdminController.MergeCompose | Sources/App/Controllers/AdminController.swift:27-32 | two edits in a row equal one edit taking, field by field, the later supplied value |
| AdminController.Edited | Sources/App/Controllers/AdminController.swift:24-35 | an unknown id is not found; otherwise only the row with the id changes, to its merge with the body |
| AdminController.EditedStored | Sources/App/Controllers/AdminController.swift:24-35 | an edit keeps the table invariant and the edited user is still found at the same place |
| AdminController.EditUser | Sources/App/Controllers/AdminController.swift:24-35 | the handler leaves the users table as `Edited` says and answers with the merged user and its attributes |
| AdminController.ResponsesOf | Sources/App/Controllers/AdminController.swift:13-20 | one response per user in stored order, each with that user's own attributes; fails iff some user has no id |
| AdminController.AllUsers | Sources/App/Controllers/AdminController.swift:12-41 | the listing has status `success` and succeeds exactly when every user can be paired |
| AdminController.AllUsersListsEveryone | Sources/App/Controllers/AdminController.swift:12-22 | on a stored table every user is listed, at its own position, with exactly its own attributes and its level as an integer |
| Users.User.constructor | Sources/App/Models/User/User.swift:52-58 | empty password, standard level, confirmed iff email confirmation is off, no id, names or code |
| Users.User.WithPassword | Sources/App/Models/User/User.swift:70-77 | names and email code as given, and the hash of the password instead of the password |
| Users.Decode | Sources/App/Models/User/User.swift:81-94 | fails iff email or password is missing, reporting email first; language defaults to `en`, confirmed to the opposite of email confirmation, level to standard; other keys are taken as given or left nil |
| Users.DecodeToJson | Sources/App/Models/User/User.swift:81-94 | a body that lists every field decodes to exactly that user |
| Users.DecodeMinimalBody | Sources/App/Models/User/User.swift:81-94 | a body with only email and password decodes to what the plain initialiser gives with language `en` and that password |
| UserAttributes.AttributesOf | Sources/App/Models/User/User+Attributes.swift:5-8 | fails iff the user has no id; otherwise exactly the attributes whose owner is the user |
| UserAttributes.AttributesMapOf | Sources/App/Models/User/User+Attributes.swift:11-21 | fails iff the user has no id; otherwise the keys are exactly the keys of the user's attributes |
| Attributes.TextByKeyLastWins | Sources/App/Models/User/User+Attributes.swift:17-19 | a key maps to the text of the last attribute with that key |
| Attributes.TextByKey | Sources/App/Models/User/User+Attributes.swift:17-19 | the map's keys are exactly the keys of the attributes folded |
| Attributes.Select | Sources/App/Models/User/User+Attributes.swift:5-8 | a query filter keeps exactly the rows it matches, never more rows than there were |
| Attributes.Remove | Sources/App/Models/User/User+Attributes.swift:37-44 | deleting what a filter selects leaves exactly the rows it does not match |
| UserAttributes.CreateAttribute | Sources/App/Models/User/User+Attributes.swift:28-34 | fails without a user id; otherwise appends one attribute with the next id, the key, the text and the user as owner |
| UserAttributes.RemoveAttributeByKey | Sources/App/Models/User/User+Attributes.swift:37-39 | removes exactly the user's attributes with the key and nothing else |
| UserAttributes.RemoveAttributeById | Sources/App/Models/User/User+Attributes.swift:42-44 | removes exactly the user's attribute with the id and nothing else |
| Attributes.SelectRemoveSplit | Sources/App/Models/User/User+Attributes.swift:5-8 | a filter splits the table: what it selects and what deleting it leaves together are the whole table |
| UserResponses.ResponseOf | Sources/App/Models/User/User+JSON.swift:14-24 | id, names, email code, email, language and confirmed are copied; the level appears as its id |
| UserResponses.ResponseReveals | Sources/App/Models/User/User+JSON.swift:6-24 | two users give the same response iff they agree on the visible fields and the level's id: the password and deletion date never show |
| UserResponses.Respond | Sources/App/Models/User/User+JSON.swift:30-37 | without profile the response has no attributes; with profile it fails iff the user has no id and otherwise lists the user's attributes |
| UserHttp.WithLanguage | Sources/App/Models/User/User+HTTP.swift:17-20 | with a `Language` header the language becomes its first value; without one the user is unchanged |
| UserHttp.CurrentUser | Sources/App/Models/User/User+HTTP.swift:11-24 | fails without an authenticated user; otherwise returns that object, its language overwritten in place |
| UserHttp.UsernameQuery | Sources/App/Models/User/User+HTTP.swift:33-35 | the login lookup matches a user iff its email is the username |
| UserHttp.AccessTokenOf | Sources/App/Models/User/User+HTTP.swift:38-40 | the access token payload has the default one-hour lifetime and the user's level and id |
| DecodingTypeMismatch.PathString | Sources/App/Services/DecodingTypeMismatch.swift:8 | an empty path gives `""`, a single key gives that key |
| DecodingTypeMismatch.Message | Sources/App/Services/DecodingTypeMismatch.swift:9 | the message is the fixed start, the path, the fixed middle and the type name, in that order |
| DecodingTypeMismatch.Convert | Sources/App/Services/DecodingTypeMismatch.swift:6-12 | a result exactly for a type mismatch, always badRequest, with the message for the joined path |
| DecodingTypeMismatch.PathRecoverable | Sources/App/Services/DecodingTypeMismatch.swift:8 | for a non-empty path whose keys contain no dot, splitting the reported path at dots gives back the keys |
| Text.Join | Sources/App/Services/DecodingTypeMismatch.swift:8 | joining no parts gives `""` and one part gives that part |
| Text.SplitJoin | Sources/App/Services/DecodingTypeMismatch.swift:8 | joining dot-free parts with a dot and splitting at dots gives back the parts |
| URLFormDecodingFailed.Convert | Sources/App/Services/URLFormDecodingFailed.swift:6-11 | a result iff the error is debuggable with exactly the missing-string reason; it is then the fixed form message with badRequest |
| Store.First | Sources/App/Controllers/AuthController.swift:84 | a query's first match: the lowest index whose row satisfies it, or none when no row does |
| Store.Database.SaveUser | Sources/App/Controllers/AuthController.swift:42 | a row without id is inserted with the next id; a row with an id replaces the stored rows with that id |
| Store.Database.UpdateUser | Sources/App/Controllers/AuthController.swift:159 | replaces the stored row with the same id and keeps the table invariant |
| Store.Database.DeleteAttributes | Sources/App/Models/User/User+Attributes.swift:37-44 | removes exactly the attributes the filter selects and keeps the table invariant |
| Store.Database.InsertUser | Sources/App/Controllers/AuthController.swift:42 | a new user row gets the next id and is appended; the invariant holds and attributes are untouched |
| Store.Database.InsertAttribute | Sources/App/Models/User/User+Attributes.swift:32-33 | a new attribute gets the next id and is appended; the invariant holds and users are untouched |
| Store.Database.UpdateAttribute | Sources/App/Controllers/UserController.swift:80-81 | replaces the stored attribute with the same id and keeps the invariant |
| Store.WithoutUser | Sources/App/Controllers/UserController.swift:103-104 | the rows left after deleting a user are exactly those with another id |
| Store.Database.DeleteUser | Sources/App/Controllers/UserController.swift:103-104 | deleting a user by id leaves the users table as `WithoutUser` says and the attributes alone |
| Users.User.Load | Sources/App/Controllers/UserController.swift:101 | an instance fetched from the database holds exactly the stored row |
| Sessions.LoginThenRefresh | Sources/App/Controllers/AuthController.swift:166-190 | the refresh token a stored user gets at login works exactly until 30 days after login, and yields a payload for that user |
| Sessions.RefreshAfterEdit | Sources/App/Controllers/AdminController.swift:32-33 | after an admin sets a user's level, that user's next refresh carries the new level, even with an older refresh token |
| Sessions.RefreshAfterDeletion | Sources/App/Controllers/UserController.swift:104-107 | after `delete` as written, a deleted user's refresh token still works; after the intended deletion it is refused |

## Left out

- Route matching, the self-access bypass, JWT signing and verification, and the authentication middleware come from packages outside this repository. `Request.authenticated` stands for the user the middleware attached. Signing is a parameter function.
- The merge of data-provider claims into the access payload is defined by an outside package. `AuthController.RefreshAccessToken` and `AuthController.Login` pass the payload to an opaque `issue` function and do not say which side of the merge wins.
- BCrypt, md5 and `Date()` are parameters: a `hash` function, a 32-character digest value and `now`. Two registrations in the same second therefore get the same email code. The model takes the code as given and does not model that clash.
- `TimeInterval` is a floating-point number; the model uses integer seconds.
- Email delivery (SendGrid and Lingo localisation) is I/O. The handlers return the mail they would send. Whether a SendGrid key is set is the `mailConfigured` parameter.
- The database and futures are I/O; the model uses a sequential in-memory store that never fails. Soft deletion is not modelled: queries see every row, including rows with `deletedAt` set.
- Configuration, routing setup, `HashCommand.swift`, `Future.keyed` and the tests are wiring with no rules of their own.
- `UserStatus.statuses` is touched from one thread at a time in the model; concurrent access is not modelled.
- `Users.Decode`: a nested `permissionLevel` is taken already decoded. The status registry's own decoding is `UserStatuses.StatusRegistry.Decode`.
- `AuthController.Register`: the guard on a missing email code after saving can never fire, since the code was just set, so it has no branch in the model.
- `UserAttributes.AttributesMapOf`: the `reduce(into:)` is a recursive fold over the attributes (`Attributes.TextByKey`), not a loop. Last-write-wins is proved about the fold.
- Email lookups (`register`'s duplicate check, `newPassword`, login) compare strings exactly in `Store.Holds`. A database collation that ignores case would treat `A@x` and `a@x` as the same email; the model does not.
- `RouteRestrictions.FromLiteral` tests the last code point for `*`, while Swift's `String.last` is the last grapheme cluster. The two differ when a character such as U+0600 joins the `*` into one cluster; Unicode segmentation is not modelled.
- `AuthController.Activate`, `AuthController.NewPassword`, `AuthController.RefreshAccessToken`, `UserController.Delete` and `UserController.DeleteWithUser` take the decoded request value (`code`, `email`, `refreshToken`, target id) as a typed parameter. In the Swift code a missing or ill-typed `code` query item, `email` or `refreshToken` body field, or a non-integer target id fails during request decoding, before the handler logic runs; that failure is not modelled. For `refreshAccessToken`, the `token` argument of `AuthController.RefreshPayload` is a `Result`, and its Failure branch covers a missing or unverifiable `refreshToken`.
- `AdminController.UserUpdate` takes `permissionLevel` already decoded. Decoding an unknown level registers a new status as a side effect (`UserStatuses.StatusRegistry.Decode`), and that step is not part of the `editUser` model.
- `Store.Database.Valid` does not include the foreign key from `attributes.userID` to `users.id`, so the model does not promise that every attribute has an owner. `Request.authenticated` is not tied to a stored row either: the handlers take the middleware's user as given.

## Findings

| source | as written | input that shows it | evidently intended | confidence | as-written member | corrected member |
|---|---|---|---|---|---|---|
| Sources/App/Controllers/UserController.swift:104-107 | `delete` deletes the target's attributes and answers 204, but never deletes the user row | an admin deletes an existing user: the row stays, and the user's refresh token still yields access tokens | delete the attributes, then the user, as the doc comment and the inline comment say | high; not executed | UserController.DeletionKeepsUserRow | UserController.DeletionWithUserRemovesUser |
| Sources/App/Controllers/UserController.swift:78-84 | `createAttribute` looks the key up among all users' attributes | user 2 owns attribute key `k`; user 1 posts key `k` with text `new`: user 2's text becomes `new` and user 1 still has no `k` | look the key up among the caller's attributes, since a key is unique per user (Attribute.swift:14,24-25) | high; not executed | UserController.UpsertOverwritesOtherUser | UserController.UpsertOwnOnlyTouchesCaller |
