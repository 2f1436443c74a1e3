# Practice tracker backend, modelled in Dafny

This project models the backend of a practice-tracking web application. Users register and log in.
They record practice sessions (a start time, a duration in minutes and an instrument) and link the
pieces they practised to those sessions. Pieces are one catalogue shared by every user. The backend
is a set of HTTP handlers over a Postgres database with four tables: `users`, `pieces`,
`practice_sessions` and `pieces_practiced`. A cookie session remembers the logged-in user's id.

The model is split into modules, one per file:

- `prelude.dfy` (`Prelude`): `Option`, order-preserving `Filter`, `Count`, subsequences, and sequences without duplicates.
- `text.dfy` (`Text`): the `ILIKE '%…%'` containment test and the UTF-8 byte length of a string.
- `models.dfy` (`Models`): the row records, the insertable records and the `Display` text of a link row.
- `schema.dfy` (`Schema`): the tables as one value, `Tables`. `Consistent` holds every rule the database keeps: primary keys, uniqueness, foreign keys, and id generators ahead of every id in use.
- `store.dfy` (`Store`): what each SQL statement the handlers send does to the tables and which failure it raises. For each insert and delete, a lemma proves that the store accepts the change exactly when the resulting tables are still `Consistent`.
- `lib.dfy` (`Lib`): the error type and its HTTP responses, the session and error-mapping helpers, the ownership check, `make_insertable` and `PracticeSessionWithPieces`.
- `queries.dfy` (`Queries`): the two read handlers, `get_practice_sessions` and `get_pieces`. They are pure functions of a snapshot of the tables and of the session.
- `handlers.dfy` (`Handlers`): the class `Backend`. Its fields are the four tables, the three id generators and the session's user id. Each handler that changes state is a method. Each method keeps `Valid`: the tables are `Consistent` and a logged-in session names an existing user. Each method states its whole new state.
- `load_pieces.dfy` (`LoadPieces`): the pure transform of the piece loader. It flattens the works of popular composers into pieces and keeps the first occurrence of each piece.

The model follows the code in these places, where its behaviour is easy to misread:

- `logout` without a logged-in user returns `Unauthorized`; it is not a no-op.
- The user-name limit is 100 bytes of UTF-8 (`String::len`), not 100 characters.
- `create_practice_session` never creates link rows: `make_insertable` ignores `pieces_practiced`.
- `delete_practice_session` runs its two deletes as separate statements, with no transaction.
- `verify_practice_session_ownership` returns the selected `user_id`, not the practice-session id its comment names.
- `src/main.rs` names the request types `IncompleteNewPracticeSession`, `NewPiece` and `NewPiecePracticedMapping`. These types are not defined in `src/lib.rs` or `src/models.rs`, so the model uses the types those files do define: `NewPracticeSessionData`, `InsertablePiece` and `PiecePracticedMapping`.

Three uniqueness rules are not declared in `src/schema.rs`: user names, `(title, composer)` of a piece, and `(user_id, start_datetime)` of a practice session. The handlers rely on them, since their `Conflict` arms only make sense if the database enforces them. `Schema.Consistent` therefore assumes the database has these constraints.

On insert, the store checks uniqueness before foreign keys. Every insert attempt takes a fresh id from its table's generator, including an attempt that is then rejected.

## Model

| member | source | states |
|---|---|---|
| Text.ILikeContains | src/main.rs:198-204 | true exactly when the needle occurs at some position of the text, comparing letters without regard to ASCII case |
| Text.Utf8Length | src/main.rs:325-327 | the byte length of the string's UTF-8 encoding; it lies between the number of characters and four times that, and equals the number of characters exactly when every character is ASCII |
| Models.MaterializeSession | src/models.rs:53-61 | the stored practice-session row carries the generated id and exactly the insertable's four fields |
| Models.SessionIsMaterialized | src/models.rs:31-61 | every practice-session row is its insertable fields under its own id, so the insertable shape is the row minus its id |
| Models.MaterializePiece | src/models.rs:83-89 | the stored piece carries the generated id, and its title and composer are the insertable's |
| Models.IntDecimalRoundTrip | src/models.rs:102-110 | the `{}` text of any integer, sign included, reads back as that integer |
| Models.IntToDecimal | src/models.rs:102-110 | the `{}` text of an integer: it has no space, starts with a minus sign exactly for a negative number, and is canonical (no leading zero, no `-0`) |
| Models.CanonicalIntUnique | src/models.rs:102-110 | a canonical text that reads back as an integer is that integer's `{}` text, so each integer has exactly one canonical spelling |
| Models.MappingDisplay | src/models.rs:102-110 | the text is `PRACTICE SESSION: `, a number, ` PIECE: `, a number; both numbers are in canonical (shortest) decimal form and read back as the row's practice session id and piece id |
| Models.MappingDisplayInjective | src/models.rs:102-110 | two link rows whose `PRACTICE SESSION: <sid> PIECE: <pid>` texts are equal are the same row |
| Schema.Consistent | src/schema.rs:3-38 | bundles the primary keys, the assumed uniqueness rules, the foreign keys and the id generators; from these it follows that the next id of every generator is still unused and that every link row leads through its practice session to an existing user |
| Schema.EmptyTables | src/schema.rs:3-38 | the empty database satisfies every key, uniqueness and foreign-key rule |
| Store.FirstUserNamed | src/main.rs:370-376 | finds a user exactly when some user has the name; the row found has that name; otherwise the failure is "not found" |
| Store.FirstOwnerOf | src/lib.rs:25-29 | finds a row exactly when some practice session has both the id and the owner; the value selected is the owner's id |
| Store.InsertUser | src/main.rs:339-344 | a successful insert yields the row under the next generated id with the given name and hash; a failure is a unique violation |
| Store.InsertUserKeepsRules | src/main.rs:339-350 | the tables stay consistent after the insert, and the insert succeeds exactly when adding the new row keeps every rule |
| Store.InsertPiece | src/main.rs:222-224 | a successful insert yields the piece under the next generated id; a failure is a unique violation |
| Store.InsertPieceKeepsRules | src/main.rs:222-230 | the tables stay consistent, and the insert succeeds exactly when adding the piece keeps every rule |
| Store.InsertPracticeSession | src/main.rs:132-134 | a successful insert yields the session under the next generated id; a failure is a unique or foreign-key violation |
| Store.InsertPracticeSessionKeepsRules | src/main.rs:132-140 | the tables stay consistent, and the insert succeeds exactly when adding the session keeps every rule |
| Store.InsertLink | src/main.rs:267-269 | a successful insert reports one row; a failure is a unique or foreign-key violation |
| Store.InsertLinkKeepsRules | src/main.rs:267-281 | the tables stay consistent, and the insert succeeds exactly when adding the link row keeps every rule |
| Store.DeleteLinksOfPracticeSession | src/main.rs:160-164 | the remaining link rows are exactly those of other practice sessions, in their old order; none refers to the session; the number removed is the number of its link rows |
| Store.DeleteLink | src/main.rs:301-306 | the remaining link rows are exactly the old ones other than the given pair, in their old order; the number removed is the number of rows equal to the pair |
| Store.DeleteLinksKeepRules | src/main.rs:160-164 | deleting any set of link rows keeps every rule |
| Store.DeletePiece | src/main.rs:241-244 | the delete fails, with a foreign-key violation, exactly when a link row refers to the piece; otherwise it removes exactly the rows with that id |
| Store.DeletePieceKeepsRules | src/main.rs:241-244 | a delete that succeeds leaves the tables consistent, and it succeeds exactly when removing the piece keeps every rule |
| Store.DeleteOwnedPracticeSession | src/main.rs:167-172 | the delete fails exactly when the caller's session exists and a link row refers to it; otherwise it removes exactly the caller's rows with that id |
| Store.DeleteOwnedPracticeSessionKeepsRules | src/main.rs:167-172 | a delete that succeeds leaves the tables consistent, and it succeeds exactly when removing the row keeps every rule |
| Lib.IntoResponse | src/lib.rs:67-104 | the status is 500, 400, 401 (login error and unauthorized), 403, 409 and 404 for the respective kinds; only a backend error is a 5xx; the body always has `success: false`; a backend error always shows "Server error" and never its detail; client, forbidden, conflict and not-found errors echo their message |
| Lib.GetUserId | src/lib.rs:50-55 | fails with `Unauthorized` exactly when the session holds no user id; otherwise yields that id |
| Lib.MapBackendErr | src/lib.rs:36-41 | a success passes through unchanged; any failure becomes a backend error carrying the failure's text |
| Lib.VerifyPracticeSessionOwnership | src/lib.rs:19-34 | succeeds exactly when some practice session has the given id and the caller as owner, and yields the caller's id; otherwise it is `NotFound("Practice session not found")` |
| Lib.MakeInsertable | src/lib.rs:114-125 | fails with `ClientError("Invalid practice session duration")` exactly when the duration exceeds 2147483647; otherwise it copies start, duration and instrument, takes the owner from its argument, and ignores the pieces |
| Lib.WithPieces | src/lib.rs:143-160 | the five session columns are unchanged and the pieces are attached as given |
| Queries.PiecesPracticedIn | src/main.rs:96-101 | a piece is listed exactly when it exists and a link row pairs it with the session |
| Queries.PiecesPracticedInCount | src/main.rs:96-101 | in a consistent database each link row of the session contributes exactly one piece |
| Queries.GroupWithPieces | src/main.rs:103-116 | one entry per selected session, in the same order, each carrying the pieces linked to that session |
| Queries.GetPracticeSessions | src/main.rs:48-121 | `Unauthorized` exactly without a login; a duration bound above 2147483647 is a `ClientError`, the minimum checked first; every entry is the caller's own, lies in the table and meets every supplied filter; every matching session of the caller is listed; the table order is kept; each entry carries its linked pieces |
| Queries.GetPieces | src/main.rs:186-209 | needs no login; a piece is listed exactly when it lies in the table, has the given id and contains the given title and composer without regard to case; the table order is kept |
| Handlers.Backend.CreatePracticeSession | src/main.rs:123-145 | `Unauthorized` without a login; the duration check; otherwise one id is used, and the insert succeeds exactly when the caller has no session at that start, else it is a `Conflict`, with the table unchanged; the new row is owned by the caller; no link rows are created; the foreign-key failure cannot happen; the rules are kept |
| Handlers.Backend.DeletePracticeSession | src/main.rs:147-177 | `Unauthorized` without a login; `NotFound` and nothing deleted unless the caller owns the session; otherwise exactly that session's link rows are removed, and their number is reported, then exactly one session row is removed, so `success` is true and the foreign-key failure cannot happen; the rules are kept |
| Handlers.Backend.CreatePiece | src/main.rs:211-233 | `Unauthorized` without a login; otherwise one id is used, and the piece is added exactly when no piece has its title and composer, else it is a `Conflict`; the rules are kept |
| Handlers.Backend.DeletePiece | src/main.rs:235-249 | no login needed; a piece still linked to a session is not deleted and gives a backend error; otherwise exactly the piece with that id is removed, and `success` and the count say whether there was one; the rules are kept |
| Handlers.Backend.CreatePiecePracticed | src/main.rs:251-286 | `Unauthorized`, then `NotFound` unless the caller owns the session, then `Conflict("Entry already exists")` for an existing pair, then `ClientError("Piece not found")` for a missing piece, otherwise the link row is added and 1 is reported; the rules are kept |
| Handlers.Backend.DeletePiecePracticed | src/main.rs:288-311 | `Unauthorized`, then `NotFound` unless the caller owns the session; otherwise only the row with both ids is removed, and `success` and the count say whether it existed; the rules are kept |
| Handlers.Backend.CreateUser | src/main.rs:313-356 | `Forbidden` while logged in, checked before the 100-byte name limit; a hashing failure is a backend error; otherwise one id is used, and the user is added exactly when the name is new, else it is a `Conflict`; the reply never carries the hash; the caller stays logged out; the rules are kept |
| Handlers.Backend.Login | src/main.rs:358-396 | `Forbidden` exactly while logged in; logged out, an unknown name gives `LoginError`, and for the user with that name a password that does not verify gives `LoginError` and a failing verification gives a backend error carrying the failure's text; success happens exactly when a user with that name has a hash that the password verifies against, and the session then holds that user's id; a failed login leaves the session as it was; the tables never change |
| Handlers.Backend.Logout | src/main.rs:398-404 | `Unauthorized` exactly without a login; otherwise the session is cleared, so the next user-id lookup is `Unauthorized` |
| LoadPieces.PiecesOfWorks | src/bin/load_pieces.rs:40-48 | one piece per work, in the order of the works, with the work's title and the composer's complete name |
| LoadPieces.FlattenAppend | src/bin/load_pieces.rs:36-51 | flattening follows the order of the composers: the pieces of a concatenation are the concatenation of the pieces |
| LoadPieces.FlattenOnlyPopular | src/bin/load_pieces.rs:39 | non-popular composers contribute nothing: flattening all composers equals flattening the popular ones |
| LoadPieces.Flatten | src/bin/load_pieces.rs:36-51 | a piece is in the flattened list exactly when it is made from some work of some popular composer |
| LoadPieces.FirstIndex | src/bin/load_pieces.rs:56 | the position of the first element equal to the value: that element equals it and no earlier one does |
| LoadPieces.KeepFirstFromFacts | src/bin/load_pieces.rs:53-58 | from position `i` on, an element is kept exactly when its value first occurs at or after `i`; the kept elements do not repeat and keep their order |
| LoadPieces.KeepFirstFromOrdered | src/bin/load_pieces.rs:53-58 | the kept elements appear in the order of the positions where their values first occur |
| LoadPieces.Dedup | src/bin/load_pieces.rs:53-58 | nothing is lost, nothing repeats, the result is an order-preserving subsequence of the input, and its elements come in the order of their first occurrences |
| LoadPieces.InFirstOrderUnique | src/bin/load_pieces.rs:53-58 | two lists that hold the same elements, each in the order of first occurrence in the same input, are equal |
| LoadPieces.DedupCharacterized | src/bin/load_pieces.rs:53-58 | any list holding exactly the input's values in the order of their first occurrences is the de-duplicated input, so the first occurrence of each value is the one kept |
| LoadPieces.DedupOfDistinct | src/bin/load_pieces.rs:53-58 | a list without repetitions is left unchanged |
| LoadPieces.DedupIdempotent | src/bin/load_pieces.rs:53-58 | de-duplicating twice is the same as de-duplicating once |
| LoadPieces.PiecesToLoad | src/bin/load_pieces.rs:36-58 | the pieces to insert are exactly those made from works of popular composers, without repetition, in the order of the flattened list, each at its first occurrence there |

## Left out

- Connection handling (`get_db_conn!`, `establish_connection`, `get_connection_pool`, src/lib.rs:43-48, 163-179) is not modelled. So the backend errors it raises, and those of a failed `load` in the read handlers, are not modelled either.
- The store's statements fail only through the modelled key rules: a unique violation, a foreign-key violation, or `.first()` finding no row. Other database errors of a write statement are not modelled. These are the `_ => AppError::BackendError(e.to_string())` arms at src/main.rs:139, 229, 280, 349 and 375 and at src/lib.rs:32, and `map_backend_err!` on the deletes at src/main.rs:160-172 and 301-306. So the handlers' `Fail(f) => BackendError` branches and the rule that any other failure becomes a `BackendError` are kept in the code but stated by no contract. The contracts that promise success, such as `CreatePiecePracticed` returning `Ok(1)`, assume a database that does not fault.
- The texts of store failures (`Store.UniqueViolationText`, `Store.ForeignKeyViolationText`) are placeholders for Postgres's messages, which name the table and constraint. `into_response` replaces a backend error's text with "Server error", so a client never sees them.
- Password hashing and verification with argon2 and a random salt are not modelled. `CreateUser` receives the outcome of hashing as a parameter, and `Login` receives a verification function whose outcome may itself be a failure.
- Handlers.Backend.Login: the model does not regenerate the session token, and a failed `session.insert` is not modelled. These belong to the session library.
- Concurrency and transactions are left out. The handlers run one at a time, and the two deletes of `delete_practice_session` are two sequential steps.
- Text.ILikeContains: case folding covers ASCII letters only. A `%`, `_` or `\` in the user's input is matched literally, whereas Postgres would treat the first two as wildcards and the backslash as `LIKE`'s default escape character.
- Queries.GetPieces: it inherits the restrictions of `Text.ILikeContains`.
- Users are assumed never to be deleted while their session lives, as `Handlers.Backend.Valid` requires the session's user to exist. The separate `delete_user` tool (src/bin/delete_user.rs:16) can delete that user; `create_practice_session` would then fail with a foreign-key violation, which src/main.rs:139 turns into a backend error.
- Timestamps are integers with their order, and are never parsed.
- Id generators are unbounded: running out of `Int4` ids is not modelled. JSON deserialisation is not modelled either; bodies and query strings arrive as already-typed values.
- Rows are kept in insertion order, and a query returns them in that order. Postgres promises no order without `ORDER BY`.
- A backend error is logged in `into_response`; logging is left out.
- The `Display` texts of `User`, `PracticeSession` and `Piece` are not modelled, as no handler uses them.
- The server set-up, router, CORS, session layer and request logger are framework plumbing and are left out.
- In the piece loader, the network fetch, the batch insert and the printed row count are I/O and are left out.
- The remaining command-line tools and the frontend are outside the backend core.
