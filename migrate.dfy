/**
 * The one-shot import of migrate.js: two loops that INSERT OR IGNORE each
 * parsed user and each parsed entry into the tables, filling in defaults for
 * falsy fields. A record whose key is already stored is skipped, never
 * overwritten. The import is specified by two left folds over the input.
 */
module Migrate {
  import opened Rows
  import Server

  /**
   * A user record of the parsed document. Optional fields are None when
   * absent or null; only their truthiness matters to the import.
   */
  datatype UserRecord = UserRecord(username: string, password: string, profilePicture: Option<string>,
                                   startingBalance: Option<real>)

  /** An entry record of the parsed document; `paid` and `approved` stand for the truthiness of those fields. */
  datatype EntryRecord = EntryRecord(
    id: int,
    debtor: string,
    creditor: string,
    amount: real,
    description: Option<string>,
    date: string,
    status: Option<string>,
    paid: bool,
    paymentMethod: Option<string>,
    approved: bool)

  /** The parsed `{users, entries}` document. */
  datatype Document = Document(users: seq<UserRecord>, entries: seq<EntryRecord>)

  /** `user.startingBalance || 0`. */
  function BalanceOrZero(b: Option<real>): real {
    if b.Some? && b.value != 0.0 then b.value else 0.0
  }

  /** The row inserted for a user record: picture defaults to '' and balance to 0. */
  function ImportedUser(rec: UserRecord): (u: User)
    ensures u.username == rec.username && u.password == rec.password
    ensures u.profilePicture == (if Present(rec.profilePicture) then rec.profilePicture.value else "")
    ensures u.startingBalance == (if rec.startingBalance.Some? then rec.startingBalance.value else 0.0)
  {
    User(rec.username, rec.password, OrElse(rec.profilePicture, ""), BalanceOrZero(rec.startingBalance))
  }

  /**
   * The row inserted for an entry record: description '', status 'accepted'
   * and payment method 'virtual' by default, and `paid`/`approved` as 1/0, so
   * an imported entry never has a NULL `approved`.
   */
  function ImportedEntry(rec: EntryRecord): (e: Entry)
    ensures e.id == rec.id && e.debtor == rec.debtor && e.creditor == rec.creditor
    ensures e.amount == rec.amount && e.date == rec.date && e.paid == rec.paid
    ensures e.description == (if Present(rec.description) then rec.description.value else "")
    ensures e.status == (if Present(rec.status) then rec.status.value else "accepted")
    ensures e.paymentMethod == (if Present(rec.paymentMethod) then rec.paymentMethod.value else "virtual")
    ensures e.approved == Some(rec.approved)
  {
    Entry(rec.id, rec.debtor, rec.creditor, rec.amount, OrElse(rec.description, ""), rec.date,
          OrElse(rec.status, "accepted"), rec.paid, OrElse(rec.paymentMethod, "virtual"), Some(rec.approved))
  }

  // ---------------------------------------------------------------------
  // Users.

  /** `INSERT OR IGNORE INTO users`: appended unless the exact-case key is stored. */
  function InsertUserOrIgnore(users: seq<User>, rec: UserRecord): (r: seq<User>)
    ensures HasKey(users, rec.username) ==> r == users
    ensures !HasKey(users, rec.username) ==> |r| == |users| + 1 && r[|users|] == ImportedUser(rec)
    ensures HasKey(r, rec.username)
    ensures |users| <= |r| <= |users| + 1 && r[..|users|] == users
    ensures KeysDistinct(users) ==> KeysDistinct(r)
  {
    if HasKey(users, rec.username) then users
    else
      var added := users + [ImportedUser(rec)];
      assert added[|users|].username == rec.username;
      added
  }

  /** The users table after the first loop, records taken in document order. */
  function UsersAfterImport(users: seq<User>, input: seq<UserRecord>): seq<User>
    decreases |input|
  {
    if input == [] then users
    else UsersAfterImport(InsertUserOrIgnore(users, input[0]), input[1..])
  }

  /** Stored rows are never changed or moved: the old table is a prefix of the new one. */
  lemma {:induction false} UsersImportKeepsRows(users: seq<User>, input: seq<UserRecord>)
    ensures var r := UsersAfterImport(users, input); |users| <= |r| && r[..|users|] == users
    decreases |input|
  {
    if input != [] {
      var next := InsertUserOrIgnore(users, input[0]);
      UsersImportKeepsRows(next, input[1..]);
      var r := UsersAfterImport(next, input[1..]);
      assert r[..|users|] == r[..|next|][..|users|];
    }
  }

  /** A key, once stored, stays stored. */
  lemma KeyKept(users: seq<User>, longer: seq<User>, name: string)
    requires |users| <= |longer| && longer[..|users|] == users
    requires HasKey(users, name)
    ensures HasKey(longer, name)
  {
  }

  /** After the import every username of the input is a key of the table. */
  lemma {:induction false} UsersImportCovers(users: seq<User>, input: seq<UserRecord>)
    ensures forall k :: 0 <= k < |input| ==> HasKey(UsersAfterImport(users, input), input[k].username)
    decreases |input|
  {
    if input != [] {
      var next := InsertUserOrIgnore(users, input[0]);
      UsersImportCovers(next, input[1..]);
      UsersImportKeepsRows(next, input[1..]);
      var r := UsersAfterImport(next, input[1..]);
      assert HasKey(next, input[0].username) by {
        if !HasKey(users, input[0].username) {
          assert next[|users|].username == input[0].username;
        }
      }
      KeyKept(next, r, input[0].username);
      forall k | 1 <= k < |input| ensures HasKey(r, input[k].username) {
        assert input[k] == input[1..][k - 1];
      }
    }
  }

  /** The import keeps the PRIMARY KEY, however many times a name occurs in the input. */
  lemma {:induction false} UsersImportKeepsKeysDistinct(users: seq<User>, input: seq<UserRecord>)
    requires KeysDistinct(users)
    ensures KeysDistinct(UsersAfterImport(users, input))
    decreases |input|
  {
    if input != [] {
      UsersImportKeepsKeysDistinct(InsertUserOrIgnore(users, input[0]), input[1..]);
    }
  }

  /**
   * Every row the import adds comes from an input record whose username was
   * not stored before, built with the import defaults.
   */
  lemma {:induction false} UsersImportNewRows(users: seq<User>, input: seq<UserRecord>)
    ensures var r := UsersAfterImport(users, input);
      forall j :: |users| <= j < |r| ==>
        !HasKey(users, r[j].username) && exists k :: 0 <= k < |input| && r[j] == ImportedUser(input[k])
    decreases |input|
  {
    if input != [] {
      var next := InsertUserOrIgnore(users, input[0]);
      UsersImportNewRows(next, input[1..]);
      UsersImportKeepsRows(next, input[1..]);
      var r := UsersAfterImport(next, input[1..]);
      forall j | |users| <= j < |r|
        ensures !HasKey(users, r[j].username) && exists k :: 0 <= k < |input| && r[j] == ImportedUser(input[k])
      {
        if j < |next| {
          assert r[j] == r[..|next|][j];
          assert r[j] == ImportedUser(input[0]);
          assert !HasKey(users, input[0].username);
        } else {
          var k :| 0 <= k < |input[1..]| && r[j] == ImportedUser(input[1..][k]);
          assert r[j] == ImportedUser(input[k + 1]);
          if HasKey(users, r[j].username) {
            KeyKept(users, next, r[j].username);
          }
        }
      }
    }
  }

  /** When every input key is already stored the import changes nothing. */
  lemma {:induction false} UsersImportNoOp(users: seq<User>, input: seq<UserRecord>)
    requires forall k :: 0 <= k < |input| ==> HasKey(users, input[k].username)
    ensures UsersAfterImport(users, input) == users
    decreases |input|
  {
    if input != [] {
      assert HasKey(users, input[0].username);
      forall k | 0 <= k < |input[1..]| ensures HasKey(users, input[1..][k].username) {
        assert input[1..][k] == input[k + 1];
      }
      UsersImportNoOp(users, input[1..]);
    }
  }

  /** Importing the same users a second time yields the same table as importing them once. */
  lemma UsersImportIdempotent(users: seq<User>, input: seq<UserRecord>)
    ensures UsersAfterImport(UsersAfterImport(users, input), input) == UsersAfterImport(users, input)
  {
    UsersImportCovers(users, input);
    UsersImportNoOp(UsersAfterImport(users, input), input);
  }

  // ---------------------------------------------------------------------
  // Entries.

  /** `INSERT OR IGNORE INTO entries`: inserted unless the id is stored. */
  function InsertEntryOrIgnore(entries: map<int, Entry>, rec: EntryRecord): (r: map<int, Entry>)
    ensures r.Keys == entries.Keys + {rec.id}
    ensures forall id :: id in entries ==> r[id] == entries[id]
    ensures rec.id !in entries ==> r[rec.id] == ImportedEntry(rec)
  {
    if rec.id in entries then entries else entries[rec.id := ImportedEntry(rec)]
  }

  /** The entries table after the second loop, records taken in document order. */
  function EntriesAfterImport(entries: map<int, Entry>, input: seq<EntryRecord>): map<int, Entry>
    decreases |input|
  {
    if input == [] then entries
    else EntriesAfterImport(InsertEntryOrIgnore(entries, input[0]), input[1..])
  }

  /**
   * The ids after the import are the stored ids plus the input's, and every
   * stored entry keeps its value.
   */
  lemma {:induction false} EntriesImportKeepsRows(entries: map<int, Entry>, input: seq<EntryRecord>)
    ensures var r := EntriesAfterImport(entries, input);
      (forall id :: id in entries ==> id in r && r[id] == entries[id]) &&
      (forall k :: 0 <= k < |input| ==> input[k].id in r) &&
      (forall id :: id in r ==> id in entries || exists k :: 0 <= k < |input| && input[k].id == id)
    decreases |input|
  {
    if input != [] {
      var next := InsertEntryOrIgnore(entries, input[0]);
      EntriesImportKeepsRows(next, input[1..]);
      var r := EntriesAfterImport(next, input[1..]);
      forall k | 1 <= k < |input| ensures input[k].id in r {
        assert input[k] == input[1..][k - 1];
      }
      forall id | id in r ensures id in entries || exists k :: 0 <= k < |input| && input[k].id == id {
        if id !in next {
          var k :| 0 <= k < |input[1..]| && input[1..][k].id == id;
          assert input[k + 1].id == id;
        } else if id !in entries {
          assert input[0].id == id;
        }
      }
    }
  }

  /**
   * Every entry the import adds comes from an input record and was built with
   * the import defaults, so its `approved` is never NULL.
   */
  lemma {:induction false} EntriesImportNewRows(entries: map<int, Entry>, input: seq<EntryRecord>)
    ensures var r := EntriesAfterImport(entries, input);
      forall id :: id in r && id !in entries ==>
        r[id].approved.Some? && exists k :: 0 <= k < |input| && r[id] == ImportedEntry(input[k])
    decreases |input|
  {
    if input != [] {
      var next := InsertEntryOrIgnore(entries, input[0]);
      EntriesImportNewRows(next, input[1..]);
      EntriesImportKeepsRows(next, input[1..]);
      var r := EntriesAfterImport(next, input[1..]);
      forall id | id in r && id !in entries
        ensures r[id].approved.Some? && exists k :: 0 <= k < |input| && r[id] == ImportedEntry(input[k])
      {
        if id in next {
          assert r[id] == ImportedEntry(input[0]);
        } else {
          var k :| 0 <= k < |input[1..]| && r[id] == ImportedEntry(input[1..][k]);
          assert r[id] == ImportedEntry(input[k + 1]);
        }
      }
    }
  }

  /** The import keeps every entry stored under its own id. */
  lemma {:induction false} EntriesImportKeepsKeys(entries: map<int, Entry>, input: seq<EntryRecord>)
    requires EntryKeysConsistent(entries)
    ensures EntryKeysConsistent(EntriesAfterImport(entries, input))
    decreases |input|
  {
    if input != [] {
      EntriesImportKeepsKeys(InsertEntryOrIgnore(entries, input[0]), input[1..]);
    }
  }

  /** When every input id is already stored the import changes nothing. */
  lemma {:induction false} EntriesImportNoOp(entries: map<int, Entry>, input: seq<EntryRecord>)
    requires forall k :: 0 <= k < |input| ==> input[k].id in entries
    ensures EntriesAfterImport(entries, input) == entries
    decreases |input|
  {
    if input != [] {
      assert input[0].id in entries;
      forall k | 0 <= k < |input[1..]| ensures input[1..][k].id in entries {
        assert input[1..][k] == input[k + 1];
      }
      EntriesImportNoOp(entries, input[1..]);
    }
  }

  /** Importing the same entries a second time yields the same table as importing them once. */
  lemma EntriesImportIdempotent(entries: map<int, Entry>, input: seq<EntryRecord>)
    ensures EntriesAfterImport(EntriesAfterImport(entries, input), input) == EntriesAfterImport(entries, input)
  {
    EntriesImportKeepsRows(entries, input);
    EntriesImportNoOp(EntriesAfterImport(entries, input), input);
  }

  // ---------------------------------------------------------------------
  // The two loops.

  /** `data.users.forEach(...)`: insert or skip each user record in turn. */
  method ImportUsers(db: Server.Ledger, input: seq<UserRecord>)
    requires db.Valid()
    modifies db
    ensures db.Valid()
    ensures db.users == UsersAfterImport(old(db.users), input) && db.entries == old(db.entries)
  {
    var i := 0;
    while i < |input|
      invariant 0 <= i <= |input|
      invariant db.Valid() && db.entries == old(db.entries)
      invariant UsersAfterImport(db.users, input[i..]) == UsersAfterImport(old(db.users), input)
    {
      assert input[i..][1..] == input[i + 1..];
      var rec := input[i];
      if !HasKey(db.users, rec.username) {
        db.users := db.users + [ImportedUser(rec)];
      }
      i := i + 1;
    }
  }

  /** `data.entries.forEach(...)`: insert or skip each entry record in turn. */
  method ImportEntries(db: Server.Ledger, input: seq<EntryRecord>)
    requires db.Valid()
    modifies db
    ensures db.Valid()
    ensures db.entries == EntriesAfterImport(old(db.entries), input) && db.users == old(db.users)
  {
    var i := 0;
    while i < |input|
      invariant 0 <= i <= |input|
      invariant db.Valid() && db.users == old(db.users)
      invariant EntriesAfterImport(db.entries, input[i..]) == EntriesAfterImport(old(db.entries), input)
    {
      assert input[i..][1..] == input[i + 1..];
      var rec := input[i];
      if rec.id !in db.entries {
        db.entries := db.entries[rec.id := ImportedEntry(rec)];
      }
      i := i + 1;
    }
  }

  /** The whole script: users first, then entries. */
  method Run(db: Server.Ledger, data: Document)
    requires db.Valid()
    modifies db
    ensures db.Valid()
    ensures db.users == UsersAfterImport(old(db.users), data.users)
    ensures db.entries == EntriesAfterImport(old(db.entries), data.entries)
  {
    ImportUsers(db, data.users);
    ImportEntries(db, data.entries);
  }
}
