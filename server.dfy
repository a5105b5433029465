/**
 * The request handlers of server.js, each one atomic step over the two tables
 * of the ledger database. A handler reads, checks, and then updates the tables
 * in place; its result is either `Ok` with the payload the JSON response
 * carries or `Fail` with the response's message.
 */
module Server {
  import opened Rows
  import opened Queries

  datatype Outcome<+T> = Ok(value: T) | Fail(message: string)

  const MsgRequired := "Username and password are required."
  const MsgUserExists := "User already exists."
  const MsgInvalidCredentials := "Invalid credentials."
  const MsgUserNotFound := "User not found."
  const MsgOldPasswordIncorrect := "Old password is incorrect."
  const MsgMissingFields := "Missing required fields."
  const MsgAddFailed := "Failed to add entry."
  const MsgInvalidId := "Invalid transaction id."
  const MsgNotAuthorized := "Not authorized to approve this transaction."
  const MsgNameTaken := "New username is already taken."
  const MsgUpdateFailed := "Failed to update profile."

  /** The entry the create handler builds from a request that passed validation. */
  function NewEntry(id: int, date: string, debtor: string, creditor: string, amount: real,
                    description: Option<string>, paymentMethod: Option<string>): (e: Entry)
    ensures e.id == id && e.debtor == debtor && e.creditor == creditor && e.amount == amount && e.date == date
    ensures e.status == "accepted" && !e.paid
    ensures e.paymentMethod == (if Present(paymentMethod) then paymentMethod.value else "virtual")
    ensures e.description == (if Present(description) then description.value else "")
    ensures e.approved == (if e.paymentMethod == "physical" then Some(false) else None)
    ensures e.approved != Some(true)
  {
    var pm := OrElse(paymentMethod, "virtual");
    Entry(id, debtor, creditor, amount, OrElse(description, ""), date, "accepted", false, pm,
          if pm == "physical" then Some(false) else None)
  }

  /** The database both the server and the import script open: the `users` and `entries` tables. */
  class Ledger {
    var users: seq<User>
    var entries: map<int, Entry>

    /** The table-key constraints of db.js. */
    ghost predicate Valid()
      reads this
    {
      KeysDistinct(users) && EntryKeysConsistent(entries)
    }

    /** A freshly created database: both tables exist and are empty. */
    constructor ()
      ensures Valid() && users == [] && entries == map[]
    {
      users := [];
      entries := map[];
    }

    /**
     * POST /api/signup. Both fields are required; the INSERT fails on the
     * PRIMARY KEY only when the exact-case username is already stored, so a
     * case-variant of an existing name is accepted as a new user.
     */
    method Signup(username: string, password: string) returns (r: Outcome<User>)
      requires Valid()
      modifies this
      ensures Valid() && entries == old(entries)
      ensures (username == "" || password == "") ==> r == Fail(MsgRequired) && users == old(users)
      ensures username != "" && password != "" && HasKey(old(users), username) ==>
        r == Fail(MsgUserExists) && users == old(users)
      ensures username != "" && password != "" && !HasKey(old(users), username) ==>
        r == Ok(User(username, password, "", 0.0)) && users == old(users) + [r.value]
    {
      if username == "" || password == "" {
        return Fail(MsgRequired);
      }
      if HasKey(users, username) {
        return Fail(MsgUserExists);
      }
      var user := User(username, password, "", 0.0);
      users := users + [user];
      r := Ok(user);
    }

    /**
     * POST /api/login. Succeeds exactly when some stored row matches the
     * name case-insensitively and has the byte-equal password; returns that
     * stored row (with its stored spelling of the name) and changes nothing.
     */
    method Login(username: string, password: string) returns (r: Outcome<User>)
      ensures r.Ok? <==> exists i :: 0 <= i < |users| && SameName(users[i].username, username) && users[i].password == password
      ensures r.Ok? ==> r.value in users && SameName(r.value.username, username) && r.value.password == password
      ensures r.Fail? ==> r.message == MsgInvalidCredentials
    {
      var found := FirstLogin(users, username, password);
      if found.Some? {
        r := Ok(users[found.value]);
      } else {
        r := Fail(MsgInvalidCredentials);
      }
    }

    /**
     * POST /api/reset-password. The old password is compared with the first
     * case-insensitively matching row only; on success every case-variant of
     * the name gets the new password.
     */
    method ResetPassword(username: string, oldPassword: string, newPassword: string) returns (r: Outcome<()>)
      requires Valid()
      modifies this
      ensures Valid() && entries == old(entries)
      ensures !Known(old(users), username) ==> r == Fail(MsgUserNotFound) && users == old(users)
      ensures Known(old(users), username) ==>
        var row := old(users)[FirstMatch(old(users), username).value];
        (row.password != oldPassword ==> r == Fail(MsgOldPasswordIncorrect) && users == old(users)) &&
        (row.password == oldPassword ==> r == Ok(()) && users == SetPassword(old(users), username, newPassword))
    {
      var found := FirstMatch(users, username);
      if found.None? {
        return Fail(MsgUserNotFound);
      }
      if users[found.value].password != oldPassword {
        return Fail(MsgOldPasswordIncorrect);
      }
      SetPasswordKeepsKeys(users, username, newPassword);
      users := SetPassword(users, username, newPassword);
      r := Ok(());
    }

    /**
     * POST /api/entry. Debtor, creditor and amount must be truthy (an amount
     * of zero is refused, a negative one is not); `id` and `date` stand for
     * `Date.now()` and the ISO timestamp. An id already in use fails the
     * INSERT on the PRIMARY KEY.
     */
    method CreateEntry(id: int, date: string, debtor: string, creditor: string, amount: real,
                       description: Option<string>, paymentMethod: Option<string>) returns (r: Outcome<Entry>)
      requires Valid()
      modifies this
      ensures Valid() && users == old(users)
      ensures (debtor == "" || creditor == "" || amount == 0.0) ==> r == Fail(MsgMissingFields) && entries == old(entries)
      ensures debtor != "" && creditor != "" && amount != 0.0 && id in old(entries) ==>
        r == Fail(MsgAddFailed) && entries == old(entries)
      ensures debtor != "" && creditor != "" && amount != 0.0 && id !in old(entries) ==>
        r == Ok(NewEntry(id, date, debtor, creditor, amount, description, paymentMethod)) &&
        entries == old(entries)[id := r.value]
    {
      if debtor == "" || creditor == "" || amount == 0.0 {
        return Fail(MsgMissingFields);
      }
      if id in entries {
        return Fail(MsgAddFailed);
      }
      var entry := NewEntry(id, date, debtor, creditor, amount, description, paymentMethod);
      entries := entries[id := entry];
      r := Ok(entry);
    }

    /**
     * POST /api/entry/approve. Only the exact-case creditor may approve; the
     * update sets `approved = 1` whatever the payment method, and repeating it
     * changes nothing further.
     */
    method ApproveEntry(id: int, username: string) returns (r: Outcome<()>)
      requires Valid()
      modifies this
      ensures Valid() && users == old(users)
      ensures id !in old(entries) ==> r == Fail(MsgInvalidId) && entries == old(entries)
      ensures id in old(entries) && old(entries)[id].creditor != username ==>
        r == Fail(MsgNotAuthorized) && entries == old(entries)
      ensures id in old(entries) && old(entries)[id].creditor == username ==>
        r == Ok(()) && entries == old(entries)[id := old(entries)[id].(approved := Some(true))]
      ensures id in old(entries) && old(entries)[id].creditor == username && old(entries)[id].approved == Some(true) ==>
        entries == old(entries)
    {
      if id !in entries {
        return Fail(MsgInvalidId);
      }
      if entries[id].creditor != username {
        return Fail(MsgNotAuthorized);
      }
      entries := entries[id := entries[id].(approved := Some(true))];
      r := Ok(());
    }

    /**
     * PUT /api/user with its inner `updateUser`. A truthy new name that
     * matches any row case-insensitively, the user's own included, is
     * refused; an empty new name skips that check and is written as ''. The
     * UPDATE rewrites every case-variant of the old name and is rolled back
     * when it would break the PRIMARY KEY. The returned user is looked up by
     * `newUsername || username`, and may be absent.
     */
    method UpdateProfile(username: string, newUsername: Option<string>, profilePicture: Option<string>,
                         startingBalance: Option<real>) returns (r: Outcome<Option<User>>)
      requires Valid()
      modifies this
      ensures Valid() && entries == old(entries)
      ensures !Known(old(users), username) ==> r == Fail(MsgUserNotFound) && users == old(users)
      ensures Known(old(users), username) && Present(newUsername) && Known(old(users), newUsername.value) ==>
        r == Fail(MsgNameTaken) && users == old(users)
      ensures Known(old(users), username) && !(Present(newUsername) && Known(old(users), newUsername.value)) ==>
        var updated := ApplyProfile(old(users), username, newUsername, profilePicture, startingBalance);
        (!KeysDistinct(updated) ==> r == Fail(MsgUpdateFailed) && users == old(users)) &&
        (KeysDistinct(updated) ==> users == updated && r == Ok(FirstRow(updated, OrElse(newUsername, username))))
    {
      if FirstMatch(users, username).None? {
        return Fail(MsgUserNotFound);
      }
      if Present(newUsername) && FirstMatch(users, newUsername.value).Some? {
        return Fail(MsgNameTaken);
      }
      var updated := ApplyProfile(users, username, newUsername, profilePicture, startingBalance);
      if !KeysDistinct(updated) {
        return Fail(MsgUpdateFailed);
      }
      users := updated;
      r := Ok(FirstRow(users, OrElse(newUsername, username)));
    }
  }

  /**
   * A session on a fresh database: a case-variant of an existing name signs
   * up as a second user, login finds the original spelling, and only the
   * creditor can approve a physical entry.
   */
  method ExampleSession() {
    var db := new Ledger();
    var alice := db.Signup("Alice", "pw1");
    assert alice == Ok(User("Alice", "pw1", "", 0.0));
    var variant := db.Signup("alice", "pw2");
    assert variant.Ok? && |db.users| == 2;
    var again := db.Signup("Alice", "pw3");
    assert db.users[0].username == "Alice";
    assert again == Fail(MsgUserExists);

    assert Lower("ALICE") == Lower("Alice");
    var login := db.Login("ALICE", "pw1");
    assert SameName(db.users[0].username, "ALICE") && db.users[0].password == "pw1";
    assert login.Ok? && login.value.username == "Alice";

    var entry := db.CreateEntry(1, "2024-01-01T00:00:00.000Z", "Alice", "Bob", 50.0, Some("lunch"), Some("physical"));
    assert entry.Ok? && entry.value.approved == Some(false);
    var byDebtor := db.ApproveEntry(1, "Alice");
    assert byDebtor == Fail(MsgNotAuthorized) && db.entries[1].approved == Some(false);
    var byCreditor := db.ApproveEntry(1, "Bob");
    assert byCreditor == Ok(()) && db.entries[1].approved == Some(true);
    var twice := db.ApproveEntry(1, "Bob");
    assert twice == Ok(()) && db.entries[1].approved == Some(true);
  }
}
