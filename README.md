# DebTrack ledger: a verified model of the request handlers and the bulk import

DebTrack is a small shared-ledger web service. Users sign up, log in and
record debts ("entries") between each other. A "physical" entry waits for the
creditor's approval. All state lives in two SQLite tables:

- `users`, whose primary key is `username`, compared case-sensitively;
- `entries`, whose primary key is the integer `id`.

This project models the six request handlers of `server.js` and the one-shot
JSON import of `migrate.js` as operations on those two tables, and proves what
each one does to them.

- `rows.dfy` (module `Rows`) holds the row types and the key constraints of
  `db.js`. It also holds ASCII case folding, which is what SQLite's built-in
  `lower()` does, and JavaScript truthiness of request fields.
- `queries.dfy` (module `Queries`) holds the SQL statements the handlers run,
  as functions over the table. It also holds the lemmas about when a profile
  update can break the primary key.
- `server.dfy` (module `Server`) holds class `Ledger`, with the fields `users`
  and `entries` and one method per handler. Each method reads, checks and then
  reassigns a table field. Its `ensures` give the outcome and the whole new
  state for every branch, and keep `Valid()`, the key constraints.
  `ExampleSession` is a client that runs a short session on a fresh database
  and asserts each outcome, using nothing but the handlers' contracts.
- `migrate.dfy` (module `Migrate`) holds the two INSERT OR IGNORE loops as
  `while` loops over a `Ledger`. They are specified by the left folds
  `UsersAfterImport` and `EntriesAfterImport`, and the properties of the
  import are proved as lemmas about those folds.

Representation choices:

- The `users` table is a sequence in rowid order. `db.get` returns one
  matching row without saying which; the model takes the first in rowid
  order.
- The `entries` table is a map from id to row.
- `amount` and `startingBalance` are `real`. A value is truthy when it is
  non-zero.
- `approved` is `Option<bool>`: `None` is SQL NULL, `Some(false)` is 0 and
  `Some(true)` is 1. `paid` is a `bool`.
- An optional request field is `Option<string>`; `None` is an absent or null
  field. A required string field is a `string`, and `""` stands for both
  "missing" and "empty" in the truthiness checks.
- A handler's result is `Ok(payload)` or `Fail(message)`, with the response
  messages of the source.

Behaviour of the code that the model keeps as it is:

- Signup conflicts only on the exact-case key (`TEXT PRIMARY KEY`). Signing
  up "alice" while "Alice" exists creates a second user, although every
  lookup treats names as equal up to case (`Queries.CaseVariantAdded`).
- Create-entry checks only that `amount` is truthy. Zero is refused; nothing
  checks the sign, so a negative amount is accepted.
- Reset-password updates every row whose name matches case-insensitively,
  not only the row whose password it checked.
- Login looks for a row with a matching name AND the given password. Reset
  compares the password of the first row with a matching name only. With two
  case-variants the two handlers can disagree (`Queries.LoginAndResetDisagree`).
- The new-username check of update-profile also finds the user's own row, so
  renaming oneself to the same name in another case is refused as "already
  taken" (`Queries.SelfRenameIsTaken`).
- An empty new username skips that check and is written as `''` on every
  matching row. When the old name is not `''` and the update is not rolled
  back (see below), the response's lookup by the old name then finds no user
  (`Queries.EmptyRenameLosesUser`). When the old name is itself `''`, the
  lookup finds the row. When the update is rolled back, nothing is written
  and the answer is "Failed to update profile.".
- The import stores `approved` as 0 or 1, never NULL, even for a virtual
  entry, whereas create-entry leaves it NULL for virtual entries.

The update-profile statement can also violate the `users` primary key. This
happens when two case-variants of a name are both renamed, or when `''` is
written over a name that is not `''` while another row already has `''`.
SQLite then aborts the statement. The handler answers "Failed to update
profile." and the table is left as it was. The model checks the candidate
table for duplicate keys. For this statement that gives the same outcome as
SQLite's row-by-row UNIQUE check: every renamed row receives the same name,
and a truthy new name matches no stored row.

## Model

| member | source | states |
|---|---|---|
| `Rows.Lower` | server.js:54 | `lower()` turns each 'A'..'Z' into its lower-case letter, leaves every other character unchanged, and leaves no 'A'..'Z' in its result |
| `Rows.LowerIdempotent` | server.js:54 | folding an already folded name changes nothing |
| `Rows.SameNameLetterwise` | server.js:54 | two names compare equal under `lower()` only if they have equal length and differ, position by position, only in the case of ASCII letters |
| `Rows.CaseVariantsSameName` | server.js:54 | conversely, names of equal length that differ position by position only in ASCII case compare equal, so every lookup matches every case-variant |
| `Rows.SameName` | server.js:54 | the comparison `lower(username)=lower(?)` of every lookup and UPDATE (also server.js lines 37, 155 and 184): the two names are equal after `Lower` |
| `Rows.HasKey` | db.js:18 | the exact-case comparison of the `username TEXT PRIMARY KEY`: some row has exactly this name |
| `Rows.KeysDistinct` | db.js:18 | the `users` primary key: no two rows have the same exact-case name |
| `Rows.EntryKeysConsistent` | db.js:28 | the `entries` primary key: every entry is stored under its own `id` |
| `Rows.Present` | server.js:165 | JavaScript truthiness of an optional string field: present and not `''` (also the or-default at server.js line 115) |
| `Rows.OrElse` | server.js:115 | JavaScript's or-default on an optional string field: the field when truthy, else the default (also server.js lines 117 and 192, migrate.js lines 16, 34, 36 and 38) |
| `Queries.Known` | server.js:60 | the `if (!row)` / `if (conflict)` test after a case-insensitive `db.get`: some row matches the name (also server.js lines 161 and 168) |
| `Queries.Coalesce` | server.js:181-183 | `COALESCE(?, column)`: a NULL parameter keeps the column, any other value replaces it |
| `Rows.NonAsciiNotFolded` | server.js:54 | non-ASCII letters are not folded: "Ä" and "ä" are different names |
| `Queries.CaseVariantAdded` | server.js:17-24 | adding a case-variant of a stored name keeps the case-sensitive primary key, and leaves two rows that match the name case-insensitively |
| `Queries.FirstMatch` | server.js:54-55 | the lookup finds a row exactly when some username matches case-insensitively, and returns the first such row in rowid order |
| `Queries.FirstRow` | server.js:191-192 | the user returned after an update is a stored row matching the lookup name, and is absent exactly when no row matches |
| `Queries.FirstLogin` | server.js:37-38 | the login query finds a row exactly when some row matches the name case-insensitively AND has the byte-equal password, and returns the first |
| `Queries.SetPassword` | server.js:66-67 | every case-variant of the name gets the new password; keys, pictures, balances and all other rows are untouched |
| `Queries.ApplyProfile` | server.js:179-186 | on every case-insensitively matching row each supplied field replaces the column and each NULL field keeps it (COALESCE); other rows are unchanged |
| `Queries.SetPasswordKeepsKeys` | server.js:66 | a password reset cannot break the username primary key |
| `Queries.ProfileWithoutRenameKeepsKeys` | server.js:181-184 | an update without a new username cannot break the primary key |
| `Queries.RenameKeepsKeysIff` | server.js:179-190 | a rename keeps the primary key iff at most one row is renamed and no untouched row already holds the new name |
| `Queries.FreshRenameKeepsKeysIff` | server.js:165-190 | once the "already taken" check has passed, the rename fails on the key iff two or more case-variants of the old name exist |
| `Queries.SelfRenameIsTaken` | server.js:165-169 | a new name equal to the user's own name up to case always matches a row, so a non-empty one is refused as taken; an empty one (for a user named `''`) is falsy and skips the check |
| `Queries.EmptyRenameLosesUser` | server.js:165-192 | for a non-empty old name, an empty new username sets `''` on every matching row, after which no row matches the old name |
| `Queries.PictureOnlyUpdate` | server.js:181-183 | updating only the picture leaves every username, balance and password unchanged |
| `Queries.LoginAndResetDisagree` | server.js:37-63 | with rows "Alice"/pw1 and "alice"/pw2, login as "ALICE" with pw2 succeeds, yet reset checks pw2 against "Alice"'s password |
| `Server.NewEntry` | server.js:112-117 | a created entry has status "accepted" and is unpaid; payment method defaults to "virtual" and description to ''; `approved` is 0 for "physical" and NULL otherwise, never 1 |
| `Server.Ledger.constructor` | db.js:16-39 | a fresh database has both tables empty and satisfies the key constraints |
| `Server.Ledger.Signup` | server.js:12-31 | empty username or password fails with no change; an exact-case existing key fails "User already exists."; otherwise exactly one row with picture '' and balance 0 is appended and the entries are unchanged |
| `Server.Ledger.Login` | server.js:35-48 | succeeds iff some row matches the name case-insensitively with the byte-equal password, returns such a stored row, and changes nothing |
| `Server.Ledger.ResetPassword` | server.js:52-74 | "User not found." when no row matches; "Old password is incorrect." with no change when the first match's password differs; otherwise every case-variant gets the new password and nothing else changes |
| `Server.Ledger.CreateEntry` | server.js:102-123 | a falsy debtor, creditor or amount fails with no insert, and a negative amount is accepted; a used id fails on the key; otherwise exactly the entry `NewEntry` builds is inserted under its id |
| `Server.Ledger.ApproveEntry` | server.js:127-149 | an unknown id fails; an acting user not exactly equal to the creditor fails with no change; otherwise only that entry gets `approved = 1`, whatever its payment method, and a repeat changes nothing |
| `Server.Ledger.UpdateProfile` | server.js:153-201 | "User not found." when no row matches; a truthy new name matching any row, the user's own included, fails with no change; otherwise the COALESCE update is applied to every case-variant, or rolled back with "Failed to update profile." if it breaks the key; the response user is looked up by the new name when it is truthy, else by the old one |
| `Migrate.BalanceOrZero` | migrate.js:16 | the or-default of `user.startingBalance` to 0: the balance when present and non-zero, else 0 |
| `Migrate.ImportedUser` | migrate.js:14-16 | an imported user keeps name and password; the picture defaults to '' and the balance to 0 when falsy |
| `Migrate.ImportedEntry` | migrate.js:26-40 | an imported entry gets description '', status 'accepted' and payment method 'virtual' by default, with `paid` and `approved` stored as 1/0, never NULL |
| `Migrate.InsertUserOrIgnore` | migrate.js:13-16 | one INSERT OR IGNORE leaves the table unchanged when the exact-case name is already a key, and otherwise appends exactly `ImportedUser(rec)`; either way the name is a key afterwards, the old table is a prefix, and the primary key still holds |
| `Migrate.UsersAfterImport` | migrate.js:12 | the `forEach` over the users: INSERT OR IGNORE of each record in document order |
| `Migrate.UsersImportKeepsRows` | migrate.js:12-21 | stored users are never changed or reordered: the old table is a prefix of the new one |
| `Migrate.UsersImportCovers` | migrate.js:12-21 | after the import every username of the input is a key of the table |
| `Migrate.UsersImportKeepsKeysDistinct` | migrate.js:14 | INSERT OR IGNORE keeps the username primary key, even with repeated names in the input |
| `Migrate.UsersImportNewRows` | migrate.js:14-16 | every added row comes from an input record whose exact-case name was not stored, built with the import defaults |
| `Migrate.UsersImportNoOp` | migrate.js:14 | when every input name is already a key, the import leaves the table unchanged |
| `Migrate.UsersImportIdempotent` | migrate.js:12-21 | importing the same users twice gives the same table as importing them once |
| `Migrate.InsertEntryOrIgnore` | migrate.js:25-40 | one INSERT OR IGNORE adds exactly the record's id, keeps every stored entry, and stores the imported row when the id was new |
| `Migrate.EntriesAfterImport` | migrate.js:24 | the `forEach` over the entries: INSERT OR IGNORE of each record in document order |
| `Migrate.EntriesImportKeepsRows` | migrate.js:24-45 | stored entries keep their values, every input id is present afterwards, and every new id comes from the input |
| `Migrate.EntriesImportNewRows` | migrate.js:26-40 | every added entry comes from an input record, built with the import defaults, so its `approved` is never NULL |
| `Migrate.EntriesImportKeepsKeys` | migrate.js:26-30 | every entry stays stored under its own id |
| `Migrate.EntriesImportNoOp` | migrate.js:26 | when every input id is already stored, the import leaves the table unchanged |
| `Migrate.EntriesImportIdempotent` | migrate.js:24-45 | importing the same entries twice gives the same table as importing them once |
| `Migrate.ImportUsers` | migrate.js:12-21 | the users loop leaves the users table equal to the fold `UsersAfterImport` over the records in order, and the entries unchanged |
| `Migrate.ImportEntries` | migrate.js:24-45 | the entries loop leaves the entries table equal to the fold `EntriesAfterImport` over the records in order, and the users unchanged |
| `Migrate.Run` | migrate.js:11-45 | the script imports the users, then the entries, and keeps the key constraints |

## Left out

- Express setup, routing, JSON response shaping, static files and `app.listen` (server.js:1-9, 204-206) are transport. Results are `Ok`/`Fail` values carrying the response message.
- `GET /api/users` and `GET /api/entries` (server.js:78-99) only return the tables, in an order SQLite leaves open. They state nothing to prove.
- Opening the database, logging and the `CREATE TABLE` statements of db.js are I/O. Only the two primary keys enter the model, as `Valid()`.
- Reading and parsing `data.json` (migrate.js:6-9) is I/O. The import takes the parsed users and entries as sequences of records.
- Storage faults that only log and answer a generic failure (for example server.js:26-27 and 39-41) are not modelled. Constraint failures that the code can actually reach are modelled: a duplicate entry id, and an update that breaks the username key.
- Concurrency between requests, and the asynchronous callbacks, are not modelled. Each handler call and each import loop is one atomic sequence of steps.
- `Date.now()` and `new Date().toISOString()` (server.js:107, 112) are inputs: `CreateEntry` takes the id and the date as parameters.
- `parseFloat` and the REAL columns are not modelled: amounts and balances are exact `real` values. NaN, numbers sent as strings, and float rounding are out of scope. A balance sent as JSON null gives NaN from parseFloat, which is bound as a NULL parameter, so `COALESCE` keeps the stored balance and nothing is stored as NULL; the model treats it like an absent balance.
- Request fields of a non-string JSON type are not modelled. Neither is a missing required field that the source would bind as SQL NULL, such as a missing `newPassword` or an undefined `username` in login. The model's `""` covers only the truthiness check. In particular the strict comparisons `row.password !== oldPassword` (server.js:63) and `row.creditor !== username` (server.js:138) tell a missing field from `''`: after a reset to the empty password, a reset that omits `oldPassword` is refused while one sending `''` succeeds. The model has only the `''` case.
- Import records whose username, id or other column is missing or null are not modelled: every record carries a string name and an integer id. SQLite would store a NULL username or assign a fresh rowid for a NULL id.
