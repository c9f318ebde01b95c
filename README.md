# Session, account and post rules of the finalbackend web application

A Dafny model of the state-changing core of a small Express/Mongoose web
application: users sign up and log in, administrators create, edit and
delete accounts (a deleted account leaves a tombstone), and anyone can
create, edit and delete image-backed posts. The model runs the route
handlers one after another over an in-memory stand-in for the database:

- `Schema` (schema.dfy): the `User`, `DeletedUser` and `Post` schemas as
  record datatypes, and Mongoose's required-field validation as `Cast...`
  functions from documents whose fields may be missing. A required String
  refuses a missing value and the empty string. A required Date or Boolean
  refuses only a missing value. A required array of strings refuses only
  null: an absent array defaults to the empty list, and an empty list passes.
- `Store` (store.dfy): the `users` collection as a sequence in insertion
  order with no unique index; `findOne({name})` is the first match.
  Uniqueness of names is proved as an invariant of the handlers, since the
  storage does not enforce it.
- `Dates` (dates.dfy): `formatDate`, with JavaScript's integer-to-text
  conversion written out, and a parser that reads its output back.
- `Auth` (auth.dfy): the session flags `isAuth`, `isAuthAdmin` and `lang`
  as a `Session` object, the two gates, the `'en'` language default, the
  process-wide `loggeduser` object, and bcrypt as an abstract `hash` /
  `compare` pair. The one property assumed of it is `compare(p, hash(p))`,
  together with the fact that a bcrypt digest is never empty.
- `Handlers` (handlers.dfy): class `App` holds the three collections
  (`users`, `deletedUsers`, `posts`), a post-id counter standing for
  ObjectId generation, the bcrypt pair and `loggeduser`. Each route handler
  is one method. A gated route evaluates its gate first and, when refused,
  answers with the gate's redirect and changes nothing. `App.Valid()` states
  that every stored record passed validation and that user names are unique.
  Every handler preserves it.
- `Scenarios` (scenarios.dfy): request sequences whose outcome follows
  from the handlers' contracts. Covered: signup then login, a duplicate
  signup, the stale admin flag after a revocation, a post edited without
  files, and the tombstone left by a delete.

Timestamps are the integer parameter `now`. Form fields are strings. A field
the client did not send is modelled as the empty string.

Some behaviour is modelled exactly as the code has it, though it looks
unintended:
- A post may be created with no image at all. Its `images` is then `[]`, and
  the schema accepts an empty list.
- `POST /newpost` and `PUT /editPost/:id` have no gate.
- A successful non-admin login does not clear an `isAuthAdmin` flag left in
  the same session.
- Logout does not reset `loggeduser`.
- Because `signup` and `/admin/new` have no try/catch, a validation failure
  (an empty name) leaves the request unanswered rather than reporting an error.

## Model

| member | source | states |
|---|---|---|
| Schema.CastUser | src/config.js:13-34 | a `users` document is stored iff name and password are non-empty strings and both dates and the admin flag are present; the record holds exactly the document's fields |
| Schema.CastDeletedUser | src/config.js:36-50 | a tombstone is stored iff its name is non-empty and both dates are present; it has no password or admin field |
| Schema.CastPost | src/config.js:51-78 | a post is stored iff images (any list), a non-empty name and description and createdAt are present; updatedAt and deletedAt are optional and carried through |
| Schema.UserRoundTrip | src/config.js:13-34 | validation accepts a user record written back unchanged exactly when it is valid |
| Schema.DeletedUserRoundTrip | src/config.js:36-50 | the same round trip for tombstones |
| Schema.PostRoundTrip | src/config.js:51-78 | the same round trip for posts, optional fields included |
| Store.FindByName | index.js:388 | `findOne({name})` returns the first record with that name, and none exactly when no record has it |
| Store.RemoveAt | index.js:194 | `deleteOne` leaves every other record, in order |
| Store.FindUnique | index.js:180-184 | with unique names, findOne by a record's name finds that very record |
| Store.InsertKeepsUnique | index.js:388-396 | inserting after a failed findOne keeps names unique, and findOne then finds the new record |
| Store.RemoveKeepsUnique | index.js:192-194 | removing a user keeps names unique, its name is no longer found, every other user still is |
| Store.ReplaceKeepsUnique | index.js:351-367 | overwriting a record with a name no other record holds keeps names unique |
| Dates.NatToString | index.js:132-134 | the decimal text of a number is digits only, without a leading zero, and ends in the number's last digit |
| Dates.IntToString | index.js:134-135 | a year's text starts with '-' exactly when the year is negative |
| Dates.TwoDigits | index.js:132-133 | `('0' + n).slice(-2)` is two digits denoting n modulo 100 |
| Dates.FormatDate | index.js:130-136 | `DD.MM.YYYY`: dots at positions 2 and 5, the day and the 1-based month as two digits each, the year's text after them |
| Dates.NatToStringValue | index.js:132-134 | the decimal text of n denotes n |
| Dates.IntToStringRoundTrip | index.js:134-135 | the year's text parses back to the year |
| Dates.FormatDateRoundTrip | index.js:130-136 | a formatted date parses back to day, 1-based month (each modulo 100) and year |
| Auth.IsAuth | index.js:103-109 | the request proceeds iff `session.isAuth` is set, and is otherwise redirected to /login |
| Auth.IsAuthAdmin | index.js:111-117 | the request proceeds iff `session.isAuthAdmin` is set (the plain flag is not consulted), and is otherwise redirected to /login |
| Auth.AdminGateImpliesAuthGate | index.js:445-448 | in a session the handlers keep valid, passing the admin gate implies passing the plain gate |
| Auth.RequestLanguage | index.js:96-101 | the request language is the session's language when set and non-empty, and 'en' otherwise |
| Auth.Session.constructor | index.js:88-93 | a new session has neither flag and no language |
| Auth.LoggedUser.constructor | index.js:74-77 | `loggeduser` starts with an empty name and a null admin flag |
| Handlers.App.constructor | src/config.js:80-88 | three empty, separate collections, and the invariant holds |
| Handlers.App.CreateUser | index.js:387-396 | a taken name changes nothing; otherwise exactly one record with the hashed password and both dates = now is appended, unless validation refuses an empty name; names stay unique |
| Handlers.App.Signup | index.js:379-403 | "User already exists" and no change for a taken name; otherwise one non-admin user with password = hash(input) and created = updated = now, then redirect to /login; no answer when validation fails |
| Handlers.App.AdminNew | index.js:405-430 | behind the admin gate, as signup, except the admin flag is true exactly when the checkbox is 'on' and the redirect is to /admin |
| Handlers.App.AdminEdit | index.js:344-376 | behind the admin gate: 404 and no change for an unknown name; "User already exists" and no change for a rename onto another user; otherwise name, password (rehashed even when empty), admin flag ('on') and updatedDate = now are overwritten in place, createdDate kept, names stay unique; 500 with the fixed body "Server error" and no change when the new name is empty |
| Handlers.App.AdminDelete | index.js:177-201 | behind the admin gate: 404 and neither table changed for an unknown name; otherwise exactly one tombstone (name, original createdDate, deletionDate = now) is appended, that user removed, the others untouched, the name no longer found, posts untouched |
| Handlers.App.Login | index.js:432-460 | "Wrong username" / "Wrong password" leave session and `loggeduser` unchanged; on a match `isAuth` is set, `isAuthAdmin` becomes its old value or the user's admin flag (never cleared), `loggeduser` takes the user's name and flag |
| Handlers.App.Logout | index.js:466-472 | the session is emptied (no flags, no language), redirect to /login |
| Handlers.App.ChangeLang | index.js:476-491 | the session's language becomes the requested one, the flags are kept, redirect to the referrer or / |
| Handlers.App.NewPost | index.js:265-289 | more than 3 files are refused; a request that is not multipart (no `req.files`) or an empty name or description gives 500 "Failed to create new post" and no change; otherwise one post with images = uploaded paths, createdAt = now, under a fresh id |
| Handlers.App.EditPost | index.js:305-341 | more than 3 files are refused; 404 and no change for a missing id; otherwise name and description overwritten, updatedAt = now, images = the uploaded paths, or [] when none or the request is not multipart (no merge), createdAt kept, other posts untouched |
| Handlers.App.DeletePost | index.js:294-302 | behind the plain gate: the post, if present, is removed and nothing else changes |
| Scenarios.SignupThenLogin | index.js:379-460 | signing up with a free name and logging in with the same password passes the plain gate |
| Scenarios.SignupTwice | index.js:387-401 | a second signup under a taken name is refused and only the first record exists |
| Scenarios.RevokedAdminKeepsSession | index.js:432-449 | an admin user logs in through one session; another admin's edit then clears that user's admin flag; the user's session still passes the admin gate |
| Scenarios.CreateThenEditWithoutFiles | index.js:330-334 | a post created with two images and edited with none has `images = []` |
| Scenarios.DeleteFreesName | index.js:186-194 | a delete appends one tombstone with the user's name and the name can be signed up again |

## Left out

- Express wiring, `app.listen`, EJS rendering of the GET pages, static files and method-override: framework plumbing. The GET pages render a view and change no state.
- The Deezer and Spotify searches (`/music-search`, `/artist-result`), including the OAuth token fetch: network clients.
- Multer's disk storage and the deletion of old image files on post edit (`unlinkAsync`): filesystem I/O. Uploads are an input list of path strings, or None when the request is not multipart. Multer refusing more than three files is modelled as an error passed to Express's default handler.
- bcrypt's salting and cost factor: foreign library. `hash` and `compare` are abstract. As a consequence, the property that a stored digest differs from the plaintext cannot be stated.
- bcrypt throwing on a missing password field: absent fields are modelled as empty strings.
- i18next's backend, detection order and `changeLanguage` errors: library. Only `session.lang` and its `'en'` default are kept.
- `mongoose.connect`, the MongoDB session store, session expiry, and database or store errors (the `catch` branches that only fire on them): database I/O.
- Interleaved concurrent requests, which can break check-then-insert uniqueness: the model is sequential.
- Malformed post ids: a malformed id makes Mongoose throw a cast error, answered with 500. Ids here are naturals, so this case does not arise.
- `new Date()` and time zones: `formatDate` takes the day, the 0-based month and the year as integers, and handlers take `now`. No ordering of successive `now` values is assumed, so "deletionDate >= createdDate" is not stated.
- Dates.FormatDate: the text of an invalid date (`NaN`) is not modelled. JavaScript's exponent notation for numbers of 10^21 and above is not modelled either; calendar fields never reach it.
- Handlers.App.Signup and Handlers.App.AdminNew: the model assumes Express 4 in a process that survives unhandled promise rejections. An empty name makes `insertMany` reject outside any try/catch, and the model answers `Unanswered` with all state kept. No `unhandledRejection` handler is installed, so on Node 15 or later that rejection ends the process instead: `loggeduser` returns to its initial value on restart and every request in flight is cut off. This is not modelled.
- Handlers.App.EditPost: the response body after a failed save is modelled only by its fixed prefix, without the exception message.
