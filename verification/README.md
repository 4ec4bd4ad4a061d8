# Entertainment backend: bookmark store state machine

This project models the core of a media-bookmarking backend. Users sign up
with an email and a password, then log in. Each user has two ordered lists
of bookmarked content ids, one for movies and one for TV series. Clients
add to, remove from and read those lists.

The unusual part is how a bookmark request finds its user. It never looks
at the request or the token. It reads one global file, `userData.txt`.
Every successful login overwrites that file with the id of the user who
logged in, whoever they are. The bookmark handlers trim the file's contents
and use the result as the user id.

The model has two layers.

- A value-level specification. `Store.Db` holds the user records by id,
  their ids in creation order and the session file (`None` while it cannot
  be read). `UserRoutes.Signup`, `UserRoutes.Login`, `BookmarkRoutes.Update`
  and `BookmarkRoutes.Query` give each handler's new state and response.
  The properties are lemmas about these functions.
- `Server.BookmarkServer`, a class whose fields are the collection and the
  session file. It has one method per route. Each method is straight-line code
  with the handler's early returns. Its `modifies` frame names the only
  fields the route can change. Its contract equates the new state and the
  response with the specification function.

Helper modules:

- `Text.Trim` is JavaScript's `String.prototype.trim`, over the full
  ECMAScript set of white space and line terminators.
- `ObjectIds.HexId` gives the ids the store generates.
- `Lists.RemoveAll` is MongoDB's `$pull` of a plain value.

Responses are `Text(code, body)` for `res.status(code).send('...')`,
`Json(code, msg)` for `{ msg }` bodies, `Issued(token)` for the login token
and `List(items)` for the get handlers. A plain `res.send` has code 200.

Two behaviours of the code worth knowing:

- A confirmation mismatch at signup is answered with status 200 and the text
  "Password does not matched", not with an error status.
- Signing up and then logging in with the same credentials does not always
  succeed. Login checks only the first record with the email. An earlier
  record with that email and another password makes the login fail with 401
  (`UserRoutes.SignupShadowedByEarlierRecord`).

## Model

| member | source | states |
|---|---|---|
| `Text.Trim` | index.js:254 | the trimmed id has no white space at either end and is no longer than the file contents |
| `Text.TrimSplitsOffSpace` | index.js:254 | trim removes only white space: the result is a slice of the input with nothing but white space before and after it |
| `Text.TrimOfTrimmed` | index.js:254 | a string without white space at its ends is read back unchanged |
| `Text.TrimIdempotent` | index.js:254 | trimming twice is trimming once |
| `ObjectIds.HexId` | routes/user.route.js:79-80 | every generated id is a non-empty string of lower-case hexadecimal digits |
| `ObjectIds.HexIdInjective` | routes/user.route.js:79-80 | records created at different positions get different ids |
| `ObjectIds.HexIdSurvivesTrim` | routes/user.route.js:102-103 | an id that login writes to the session file comes back unchanged through the handlers' trim |
| `Lists.RemoveAll` | index.js:372 | after `$pull` the value no longer occurs and the list is no longer than before |
| `Lists.RemoveAllConcat` | index.js:372 | `$pull` acts on each part of a list separately, so the kept entries stay in their original order |
| `Lists.RemoveAllCount` | index.js:372 | `$pull` leaves zero copies of the value and every other entry exactly as many times as before |
| `Lists.RemoveAllAbsent` | index.js:372 | `$pull` of a value that is not there leaves the list unchanged |
| `Lists.RemoveAllIdempotent` | index.js:303 | a second `$pull` of the same value changes nothing |
| `Lists.RemoveAllAfterAppend` | index.js:369-375 | `$pull` after any number of `$push` of the same value gives what `$pull` gives on the list before them |
| `Store.WithBookmarks` | index.js:333-339 | an update writes one list of a record and keeps the other list, the email and the password hash |
| `Store.Empty` | index.js:249-252 | a new service has no records and no session file |
| `Store.FindByEmail` | routes/user.route.js:94 | `find({ email })` returns only ids of stored records with that email |
| `Store.FindByEmailComplete` | routes/user.route.js:94 | every record with the email is among the results |
| `Store.FindByEmailFirst` | routes/user.route.js:97 | `user[0]` is the earliest-created record with the email |
| `Store.FindByEmailAfterInsert` | routes/user.route.js:79-80 | a newly saved record comes last among the results for its email and changes no other query |
| `Store.FreshId` | routes/user.route.js:79-80 | the id given to a new record is not in use |
| `Store.StoredIdSurvivesTrim` | index.js:254 | trimming a stored id gives the same id |
| `UserRoutes.VerifyOwnHash` | routes/user.route.js:97 | the hash stored for a password at signup accepts that same password at login |
| `UserRoutes.Signup` | routes/user.route.js:68-88 | signup never touches the session file and always answers with status 200 |
| `UserRoutes.Login` | routes/user.route.js:91-121 | login never changes a record, and the session file changes only on a 200 answer |
| `UserRoutes.SignupMismatch` | routes/user.route.js:71-74 | a confirmation that differs from the password gives "Password does not matched" with status 200 and creates nothing |
| `UserRoutes.SignupAddsOneRecord` | routes/user.route.js:75-82 | a matching confirmation adds exactly one record under an unused id, with the email, the password's hash and two empty lists; other records and the session file are unchanged |
| `UserRoutes.SignupPreservesValid` | routes/user.route.js:68-88 | signup keeps every record listed once, in creation order, under its generated id |
| `UserRoutes.SignupExtendsFind` | routes/user.route.js:79-80 | after signup a query for the email finds the earlier records and then the new one |
| `UserRoutes.SignupAllowsDuplicateEmail` | routes/user.route.js:68-84 | two signups with one email create two distinct records and a query finds both, the earlier first |
| `UserRoutes.LoginUnknownEmail` | routes/user.route.js:114-116 | an email without a record gives 404 "User not found" and changes nothing |
| `UserRoutes.LoginDecidedByFirstMatch` | routes/user.route.js:94-116 | the first record with the email decides: 404 without one; 200 with a token for the email and the session file set to that record's id when the password verifies; 401 with nothing changed when it does not |
| `UserRoutes.LoginIgnoresLaterDuplicates` | routes/user.route.js:97 | a later record with the same email that would accept the password is never consulted: the answer is 401 |
| `UserRoutes.SignupThenLogin` | routes/user.route.js:75-109 | signup then login with the same credentials on a new email gives a token for the email and points the file at the new record |
| `UserRoutes.SignupShadowedByEarlierRecord` | routes/user.route.js:94-111 | signup with an email already registered under another password, then login with the new password, gives 401 |
| `UserRoutes.LastLoginWins` | routes/user.route.js:102-107 | after login A then login B, the state is what login B alone would give, and the session file names B's record |
| `BookmarkRoutes.CurrentUserMeaning` | index.js:249-254 | the handlers have a user exactly when the session file can be read, and that user id is the file's contents with only white space cut from each end, so it has no white space left at either end |
| `BookmarkRoutes.EditMeaning` | index.js:264-270 | `$push` keeps the list and adds the id once at the end; `$pull` leaves no copy of the id and keeps every other id as often as before |
| `BookmarkRoutes.Update` | index.js:248-385 | a mutating handler changes no record except the current user's, never the session file, and never adds or removes a record |
| `BookmarkRoutes.Query` | index.js:387-425 | a get handler returns a list exactly when the trimmed session file names a record, and then that record's list of the requested kind |
| `BookmarkRoutes.UnreadableSession` | index.js:249-252 | an unreadable session file gives 500 "Error reading file" from all six handlers with nothing changed |
| `BookmarkRoutes.MissingMovieId` | index.js:325-328 | a missing or empty `movieId` gives 400 "Movie ID is required" with nothing changed, whether or not the user exists |
| `BookmarkRoutes.UnknownUser` | index.js:329-332 | a session file naming no record gives 404 "User not found" from every handler with nothing changed |
| `BookmarkRoutes.UpdateStatus` | index.js:318-343 | the checks run in the order 500, 400, 404, each code appears exactly in its case, and every non-200 answer leaves the state unchanged |
| `BookmarkRoutes.UpdateTouchesOneList` | index.js:333-343 | on success only the addressed list of the current user changes, to the `$push`/`$pull` result, and the answer is the success text |
| `BookmarkRoutes.AddAppends` | index.js:333-339 | adding puts the id at the end of the old list |
| `BookmarkRoutes.AddTwiceKeepsDuplicates` | index.js:264-270 | adding the same id twice appends two copies |
| `BookmarkRoutes.RemoveDeletesAll` | index.js:369-375 | removing yields the `$pull` result: the id is gone and every other entry keeps its count |
| `BookmarkRoutes.RemoveAfterAdds` | index.js:300-306 | a removal after two additions of the same id leaves what a removal alone would have left |
| `BookmarkRoutes.UpdateLeavesOtherKind` | index.js:336 | a movie operation leaves every series list, and what the series get returns, unchanged, and the other way round |
| `BookmarkRoutes.QueryReportsStoredList` | index.js:399 | the get handler returns the stored list as it is |
| `BookmarkRoutes.UpdatePreservesValid` | index.js:264-270 | the mutating handlers keep every record listed once under its generated id |
| `Scenarios.LoginSelectsBookmarkTarget` | index.js:324 | after a successful login the handlers act on the record that login matched, and it exists |
| `Scenarios.BookmarkFollowsLastLogin` | index.js:324 | login A, login B, add a movie: the movie is appended to B's record and no other record changes |
| `Scenarios.SignupThenLoginTargetsNewRecord` | routes/user.route.js:79-103 | signup then login on a new email makes the session file name the new record, whose lists are empty |
| `Scenarios.AddAddRemoveFromEmpty` | index.js:333-375 | from an empty movie list, add m, add m and remove m give `[m]`, `[m, m]` and `[]` |
| `Scenarios.SignupLoginAddAddRemove` | index.js:318-385 | signup, login, add m twice and remove m on a new email give the token and the lists `[m]`, `[m, m]`, `[]` |
| `Scenarios.NoLoginNoBookmarks` | index.js:319-322 | from a store with no session file, after any sequence of signups, the session file is still missing and every bookmark handler answers 500 without a change |
| `Server.BookmarkServer.constructor` | index.js:433-441 | a newly started service holds an empty, well-formed store: no records and no session file |
| `Server.BookmarkServer.Signup` | routes/user.route.js:68-88 | the method changes only the collection, as `UserRoutes.Signup` specifies, and keeps the store well formed |
| `Server.BookmarkServer.Login` | routes/user.route.js:91-121 | the method changes only the session file, as `UserRoutes.Login` specifies |
| `Server.BookmarkServer.EditBookmarks` | index.js:253-275 | the shared mutating body changes only the collection, as `BookmarkRoutes.Update` specifies |
| `Server.BookmarkServer.AddTvSeriesBookmark` | index.js:248-281 | `$push` on the series list of the logged-in user, as `BookmarkRoutes.Update` specifies |
| `Server.BookmarkServer.RemoveTvSeriesBookmark` | index.js:283-316 | `$pull` on the series list of the logged-in user, as `BookmarkRoutes.Update` specifies |
| `Server.BookmarkServer.AddMovieBookmark` | index.js:318-349 | `$push` on the movie list of the logged-in user, as `BookmarkRoutes.Update` specifies |
| `Server.BookmarkServer.RemoveMovieBookmark` | index.js:351-385 | `$pull` on the movie list of the logged-in user, as `BookmarkRoutes.Update` specifies |
| `Server.BookmarkServer.GetMovieBookmark` | index.js:387-405 | returns what `BookmarkRoutes.Query` gives for movies and changes nothing |
| `Server.BookmarkServer.GetTvSeriesBookmark` | index.js:407-425 | returns what `BookmarkRoutes.Query` gives for series and changes nothing |
| `Server.BookmarkServer.ListBookmarks` | index.js:393-399 | the shared get body returns the current user's list or the error response |
| `Server.ExampleSession` | index.js:318-405 | on a new service: signup, login, add m twice and remove m; the movie get then reports `[m]`, `[m, m]` and `[]` |

## Left out

- Express wiring is not modelled: JSON body parsing, CORS, the two `express-session` registrations, passport and Google OAuth routes, the `/`, `/fail` and empty `/usr` routes, and the `authenticate` middleware. These are transport and foreign-library setup.
- The Swagger documentation is not modelled. It is comments and doc generation only.
- Server start-up and the database connection are not modelled. The constructor stands for a newly deployed service with an empty collection and no session file. The collection and the file outliving a restart is not represented.
- bcrypt is not modelled: no salt, no cost factor 5, no asynchrony. The hash is the parameter `hash`, and a stored hash verifies a password when it equals that password's hash. A failing `bcrypt.compare` (500 "Internal server error") is not modelled, nor is the failing `bcrypt.hash` branch, which refers to an undefined `error`.
- JWT signing is not modelled: no signature and no hard-coded secret. The token is its payload, the email.
- The `catch` blocks' 500 answers for store and runtime failures are not modelled. One case matters here. Session file contents that are not a valid ObjectId make `findById` throw, and the source then answers 500 "Error updating bookmark" or "Error retrieving bookmarks". The model treats such contents as an id with no record and answers 404.
- The second `!updatedUser` 404 check after `findByIdAndUpdate` is not modelled. In a sequential model it cannot fail right after a successful `findById`.
- The session file write is atomic in the model. In the source, `fs.writeFile` at login is asynchronous and not awaited. A failed write is only logged, and the answer is still 200 with a token. The model's write always succeeds.
- Request interleaving and concurrency are not modelled. Each handler runs atomically, one after another.
- Request fields are modelled as strings, with `movieId` optional. Non-string JSON values are not modelled. This covers numbers, booleans, arrays and objects, including the falsy `0` and `false` that would also give 400. It also covers an absent login email, which makes `find` match every record.
- Schema validation by the user model on `save` is not modelled. models/user.model.js is not part of this model.
- Record ids are the hexadecimal numerals of the creation index, not 24-digit ObjectIds built from a timestamp. The model relies only on their uniqueness, their lack of white space, and on `find` returning records in creation order.
- The document's one-entry `bookmark` array is represented by the record's `movie` and `tvSeries` fields. Signup creates exactly one entry, and no handler adds or removes entries.
- Logging (`console.log`, `console.error`) is not modelled.
