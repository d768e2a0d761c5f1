# Bookmark service: a verified model

This project models the core of a small Express/Mongoose bookmark service. Users sign up
with a username, an email and a password, or they arrive through GitHub OAuth. They
authenticate with a JSON Web Token carried in an `Authorization: Bearer` header. Each user
creates, lists, reads, updates and deletes their own bookmarks and nobody else's.

The two MongoDB collections are in-memory maps keyed by a counter id:
- `UserModel.Users` holds the users. `UserModel.UsersValid` is the collection invariant: the
  schema's validators, plus the unique indexes on username and the sparse unique indexes on
  email and githubId.
- `BookmarkModel.Bookmarks` holds the bookmarks, with `BookmarkModel.BookmarksValid` as its
  invariant.

Each request handler takes the collection and the request. A handler that writes
(`/register`, creating, updating and deleting bookmarks, the GitHub callback) is a method
that returns the status code with the response body and the collection afterwards. A
read-only handler (`/login`, listing and reading bookmarks) is a function that returns only
the response.

bcrypt and the JWT signature scheme are abstract and passed in as values:
- A `Hasher` is a pair of hash and compare functions. `HasherSound` states that a password
  compares equal to its own hash.
- A `JwtCodec` is a pair of encode and decode functions. `CodecSound` states that a signed
  token decodes to its payload and that only signed tokens decode.

The rest is concrete, each piece as the code does it:
- the 24-day expiry arithmetic;
- the failure of signing and verifying when `JWT_SECRET` is unset;
- the case-sensitive `"Bearer "` prefix and `slice(7)`;
- the Mongoose setters (`trim`, `lowercase`), which also apply to query filters;
- the validators (`required`, `minlength`/`maxlength` counted in UTF-16 code units, and the
  email `match` regex);
- the pre-save hashing hook;
- `createdAt`/`updatedAt`.

The Mongoose document that the GitHub strategy loads, mutates and saves is a class,
`UserModel.UserDocument`. Its pre-save hook changes the document's password field in place.
The authentication middleware mutates the request and response. They are modelled as the
class `Auth.Exchange`.

Modules, one per source file:
- `UserModel`: `models/User.js`.
- `BookmarkModel`: `models/Bookmark.js`.
- `Auth`: `utils/auth.js`.
- `GithubStrategy`: the verify callback in `config/passport.js`.
- `UserRoutes`: `routes/userRoutes.js`.
- `BookmarkRoutes`: `routes/bookmarkRoutes.js`.

Helper modules:
- `JsText`: JavaScript string semantics, namely `trim`, `toLowerCase`, UTF-16 length and
  truthiness.
- `Wrappers`: `Option` and `Result`.
- `Faults`: the errors that reach a `catch`.

Behaviour of the code worth knowing:
- Logging in with the email of a GitHub-only account (no password) gives 500.
  `bcrypt.compare` rejects an undefined hash, so the error reaches the catch. It is not a
  400 "Invalid credentials".
- `/register` creates the user before it calls `signToken`. With no secret configured it
  answers 500, but the user is already stored.
- The schema checks no URL format (models/Bookmark.js:7): any non-empty `url` is accepted
  (`BookmarkModel.NoUrlFormatCheck`).
- A GitHub login whose username is shorter than 3 characters fails validation. One whose
  username is already taken fails with a duplicate-key error at the write. Either way the
  callback passes the error to `done`.
- A profile id of `""` is a falsy githubId, so the password becomes required and creating
  that user fails.
- The validators run before the pre-save hook. The unique indexes are checked last, at the
  write.

## Model

| member | source | states |
|---|---|---|
| `JsText.TrimStart` | models/User.js:11 | the result is a suffix of the input that does not start with JavaScript whitespace, and everything removed is whitespace |
| `JsText.TrimEnd` | models/User.js:11 | the result is a prefix of the input that does not end with JavaScript whitespace, and everything removed is whitespace |
| `JsText.TrimIsSlice` | models/User.js:11 | `trim` returns one contiguous slice of the input, and only whitespace lies outside it |
| `JsText.TrimHasNoEdgeWhitespace` | models/User.js:11 | the result of `trim` has no whitespace at either end |
| `JsText.TrimIdempotent` | models/User.js:11 | trimming a trimmed string changes nothing, so re-saving never changes a stored username |
| `JsText.ToLowerCase` | models/User.js:19 | the length is kept, and each character is mapped on its own by the lower-case mapping |
| `JsText.ToLowerCaseNormalizes` | models/User.js:19 | a lower-cased string has no upper-case ASCII letter left, and lower-casing it again changes nothing |
| `JsText.Utf16Length` | models/User.js:12-13 | the UTF-16 length lies between the number of code points and twice that number |
| `UserModel.EmailPatternExamples` | models/User.js:21 | `^.+@.+\..+$` accepts `a@example.com` and rejects a missing `@`, an empty local part, an empty part after the dot, and a line break between the parts |
| `UserModel.HookedPassword` | models/User.js:41-48 | the password is hashed exactly when it was modified and is non-empty, otherwise it is kept unchanged; under a sound hasher the hash verifies against the plain password |
| `UserModel.IsCorrectPassword` | models/User.js:51-55 | it fails with "data and hash arguments required" exactly when the account has no password; otherwise the answer is `compare` of the candidate against the stored digest, so a candidate equal to the hashed password is accepted under a sound hasher |
| `UserModel.FindByGithubId` | config/passport.js:17 | it finds an account exactly when one has that githubId, and the account it returns has it |
| `UserModel.FindByEmail` | routes/userRoutes.js:21 | it finds an account exactly when one stores the filter value after the setters (trim, lowercase), and the account it returns stores it |
| `UserModel.FindByStoredEmail` | models/User.js:15-22 | it finds an account exactly when one stores that email, and the account it returns stores it |
| `UserModel.SaveKeepsUsersValid` | models/User.js:7-34 | a successful save keeps every user valid and keeps the unique indexes on username, email and githubId |
| `UserModel.SaveHashesOnlyModifiedPassword` | models/User.js:41-48 | a saved modified password is stored as a hash that verifies against it; a save that leaves the password untouched keeps the stored hash, so nothing is hashed twice |
| `UserModel.LinkSaveSucceeds` | config/passport.js:32-33 | saving a loaded account with a githubId that no account holds always succeeds, and writes only the githubId and `updatedAt` |
| `UserModel.SelectedHidesPassword` | models/User.js:29 | a normal read returns the same thing whatever the stored password is |
| `UserModel.UserDocument.Create` | routes/userRoutes.js:25-29 | a new document holds exactly the fields it was built with |
| `UserModel.UserDocument.Load` | config/passport.js:29 | a loaded document holds the stored fields, without the password and with nothing marked modified |
| `UserModel.UserDocument.SetGithubId` | config/passport.js:32 | assigning `githubId` sets that field, marks it modified when the value changes, and changes nothing else |
| `UserModel.UserDocument.PreSave` | models/User.js:41-48 | the hook replaces the password field with `HookedPassword` of it and touches no other field |
| `UserModel.Save` | models/User.js:41-48 | `save()` validates, then runs the hook, then writes; the resulting collection, or the error, is the one `SaveOutcome` describes; the document's password is the hook's result once validation passed (even if the write is then refused), and a successful save leaves the document not new with no path modified |
| `Auth.SignToken` | utils/auth.js:8-12 | it fails exactly when the secret is unset; otherwise the token is the encoding of `{_id, email, username}` with `iat = now` and `exp = now + 24 days` |
| `Auth.VerifyToken` | utils/auth.js:30 | a payload comes back exactly when the secret is configured, the signature check decodes the token, and `now < exp`; it is the decoded payload |
| `Auth.BearerToken` | utils/auth.js:19-21 | a token is extracted exactly when the header is `"Bearer "` followed by that token |
| `Auth.Authenticate` | utils/auth.js:17-43 | "Missing or invalid token" exactly for an absent header, a wrong prefix (case-sensitive) or an empty token; otherwise the token after the prefix is verified, and the result is "Invalid or expired token" or the identity `{id: _id, email, username}` |
| `Auth.SignedTokenAuthenticates` | utils/auth.js:8-12 | round trip: until it expires, a token from `signToken` authenticates as exactly the id, email and username it was issued for |
| `Auth.ExpiredTokenRejected` | utils/auth.js:39-42 | once the 24 days have passed, the same token is answered with "Invalid or expired token" |
| `Auth.AuthenticatedOnlyBySignedToken` | utils/auth.js:30-36 | every accepted identity comes from a token that was signed under the server's secret and has not expired |
| `Auth.Exchange.constructor` | utils/auth.js:17-18 | a request starts with its header, no `req.user`, no response sent and `next` not called |
| `Auth.AuthMiddleware` | utils/auth.js:17-43 | on success it sets `req.user` and calls `next` exactly once, without sending a response; on failure it sends 401 with the reason, leaves `req.user` alone and does not call `next` |
| `GithubStrategy.ProfileEmail` | config/passport.js:21-24 | the email is absent exactly when the profile has no emails; otherwise it is the first email, lower-cased |
| `GithubStrategy.ProfileEmailIgnoresLaterEmails` | config/passport.js:21-24 | emails after the first one do not matter |
| `GithubStrategy.FallbackUsername` | config/passport.js:42 | it is the profile's username when that is truthy, otherwise `"gh_"` followed by the profile id |
| `GithubStrategy.GithubUser` | config/passport.js:40-44 | the created account has the profile's githubId, no password, the fallback username and the normalised email (which may be absent) |
| `GithubStrategy.Resolve` | config/passport.js:14-53 | by githubId: that account is returned and nothing is written. Otherwise, linking by email: that account gets the githubId and nothing else is written. Otherwise exactly one account is inserted, provided it validates and collides with no unique index. Every success returns a stored account that carries the profile's githubId; every failure writes nothing; the collection stays valid |
| `GithubStrategy.LinkAccount` | config/passport.js:28-35 | the account found by email gets the githubId (and `updatedAt`) and nothing else changes; the save cannot fail |
| `GithubStrategy.CreateAccount` | config/passport.js:39-45 | the insert succeeds exactly when the GitHub user validates and collides with no unique index, and then it adds exactly that account |
| `GithubStrategy.ResolveTwice` | config/passport.js:17 | idempotence: after a successful resolution, resolving the same profile again returns the same account and writes nothing |
| `UserRoutes.RegisteredUser` | routes/userRoutes.js:25-29 | a registered user has the trimmed username, the lower-cased email, the hashed password and no githubId |
| `UserRoutes.Register` | routes/userRoutes.js:9-45 | 400 when a field is missing or empty; 400 "User already exists" for a taken lower-cased email; otherwise exactly one user is inserted exactly when it validates and collides with no index, answered with 201 and the token of `signToken`, or with 500 when signing fails; any other failure is 500 with nothing written; the body holds only id, username and email |
| `UserRoutes.Login` | routes/userRoutes.js:48-80 | 400 "email and password required"; 400 "Invalid credentials" for an unknown email or a wrong password; 500 for an account without a password or an unset secret; otherwise 200 with `signToken` of the matched user; the collection is never written |
| `UserRoutes.UnknownEmailLooksLikeWrongPassword` | routes/userRoutes.js:62-65 | an unknown email and a wrong password get identical responses |
| `UserRoutes.RegisterThenLogin` | routes/userRoutes.js:9-80 | after a successful registration, a login with the same email in any letter case and the same password succeeds as the same user, and its token authenticates that user until it expires |
| `BookmarkModel.NewBookmark` | models/Bookmark.js:6-10 | creation succeeds exactly when title and url are non-empty and an owner is given; both timestamps are set to now |
| `BookmarkModel.NoUrlFormatCheck` | models/Bookmark.js:7 | with a non-empty title and an owner, creation succeeds for every url exactly when the url is non-empty; without an owner it fails for every url |
| `BookmarkModel.Revised` | routes/bookmarkRoutes.js:70-80 | only the truthy given fields change, `updatedAt` becomes now, and id, owner and `createdAt` stay |
| `BookmarkRoutes.CreateBookmark` | routes/bookmarkRoutes.js:8-23 | 400 with nothing written unless title and url are both truthy; otherwise exactly one bookmark is inserted, owned by the caller, with both timestamps set to now, and it is returned with 201 |
| `BookmarkRoutes.OwnedBelow` | routes/bookmarkRoutes.js:29 | the `{user}` filter, scanning the ids below the bound; it yields no more entries than ids scanned, and `OwnedBelowExactly` characterises its contents |
| `BookmarkRoutes.Insert` | routes/bookmarkRoutes.js:30-32 | insertion adds exactly that bookmark, at the front or behind the old first element |
| `BookmarkRoutes.InsertKeepsNewestFirst` | routes/bookmarkRoutes.js:30-32 | inserting into a newest-first list keeps it newest first |
| `BookmarkRoutes.SortNewestFirst` | routes/bookmarkRoutes.js:30-32 | the result is a permutation of the input, ordered by `createdAt` descending |
| `BookmarkRoutes.ListBookmarks` | routes/bookmarkRoutes.js:26-41 | 200 with a newest-first permutation of the caller's bookmarks |
| `BookmarkRoutes.OwnedBelowExactly` | routes/bookmarkRoutes.js:29 | the filter `{user}` yields exactly the caller's stored bookmarks below the bound, each once, in increasing id order |
| `BookmarkRoutes.ListIsExactlyCallersBookmarks` | routes/bookmarkRoutes.js:26-41 | the listing holds every stored bookmark of the caller and nothing else, each exactly once |
| `BookmarkRoutes.DistinctIdsOccurOnce` | routes/bookmarkRoutes.js:29 | in a list with strictly increasing ids, no bookmark occurs twice |
| `BookmarkRoutes.IdsOfScan` | routes/bookmarkRoutes.js:29 | the scan has as many entries as the caller has bookmarks |
| `BookmarkRoutes.IncreasingIdsCount` | routes/bookmarkRoutes.js:29 | a list with strictly increasing ids has as many distinct ids as entries |
| `BookmarkRoutes.OwnedBelowDependsOnlyOnOwner` | routes/bookmarkRoutes.js:29 | two collections that agree on one owner's bookmarks give that owner the same scan |
| `BookmarkRoutes.OthersCreateLeavesListUnchanged` | routes/bookmarkRoutes.js:17-34 | a bookmark created by another user leaves this user's listing exactly as it was |
| `BookmarkRoutes.OthersChangeLeavesListUnchanged` | routes/bookmarkRoutes.js:70-98 | an update or delete of another user's bookmark leaves this user's listing exactly as it was |
| `BookmarkRoutes.CreatedBookmarkIsListed` | routes/bookmarkRoutes.js:17-34 | a bookmark just created appears in its owner's listing |
| `BookmarkRoutes.CreateThenList` | routes/bookmarkRoutes.js:8-41 | after one user creates a bookmark, another user's listing is the one from before, and the creator's listing contains the bookmark that was returned |
| `BookmarkRoutes.GetBookmark` | routes/bookmarkRoutes.js:44-57 | 200 with the bookmark exactly when it exists and the caller owns it; otherwise 404 "Not found" |
| `BookmarkRoutes.ForeignLooksMissing` | routes/bookmarkRoutes.js:47-52 | a bookmark owned by someone else is answered exactly like an id that does not exist |
| `BookmarkRoutes.UpdateBookmark` | routes/bookmarkRoutes.js:60-89 | 400 "Nothing to update" with nothing written; 404 with nothing written unless the caller owns the bookmark; otherwise only that bookmark changes, in its truthy given fields and `updatedAt`; no owner changes and no other bookmark changes |
| `BookmarkRoutes.DeleteBookmark` | routes/bookmarkRoutes.js:92-107 | for the caller's own bookmark, exactly that bookmark is removed, with "Deleted successfully"; otherwise 404 with nothing written; every other bookmark stays as it was |

## Left out

- Bcrypt and JWT cryptography. Hashing, comparing, signing and signature checking are
  abstract functions. What the service relies on is stated as `HasherSound` and
  `CodecSound`. The salt and the cost factor 10 are a parameter. The clock is a parameter
  `now` in seconds.
- I/O and bootstrap. The HTTP server, routing and mounting, the database connection,
  environment loading, sessions, logging and async sequencing are not modelled.
  `server.js` and `config/connection.js` are not part of this model.
- The unique-index races between concurrent requests are not modelled, because they are
  concurrency.
- `routes/oauth.js` is not part of this model. Its success path is `signToken(req.user)`,
  which `Auth.SignToken` covers.
- The strategy options, `serializeUser` and `deserializeUser` in `config/passport.js` are
  library configuration.
- ObjectId casting is not modelled. Ids are natural numbers, so the 500 "Server error"
  that a malformed id produces never arises.
- Request bodies are strings or absent. The casts and 500s that arrays, objects or numbers
  in a JSON body from the client would cause are not modelled.
- Only the error class of a caught exception is kept (`Faults.Fault`). The exact text of
  `err.message` in the `details` field is not.
- `JsText.ToLowerCase`: maps only the ASCII letters. The full Unicode case mapping that
  JavaScript performs would need tables that are not part of this model.
- `BookmarkRoutes.SortNewestFirst`: MongoDB leaves bookmarks with equal `createdAt` in an
  unspecified order. This model fixes one order, and its contract promises only ordering
  and permutation.
- `models/Bookmark.js:14` calls `mongoose.model` without importing `mongoose`, so that
  module throws when it is loaded. The model follows the schema as evidently intended.
- Bookmark documents are returned as whole records. `.lean()` is only about performance.
- Ids come from a counter, as in `Users.next` / `Bookmarks.next`. They are not random
  ObjectIds.
