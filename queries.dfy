/**
 * The SQL statements that the request handlers of server.js run against the
 * `users` table, as functions over the table value. The table is a sequence in
 * rowid order; a `SELECT` through `db.get` yields the first row that satisfies
 * its WHERE clause, and an `UPDATE ... WHERE` rewrites every row that does.
 */
module Queries {
  import opened Rows

  /** Some row's username matches `name` case-insensitively. */
  predicate Known(users: seq<User>, name: string) {
    exists i :: 0 <= i < |users| && SameName(users[i].username, name)
  }

  /** `SELECT * FROM users WHERE lower(username)=lower(?)`: the index of the first matching row. */
  function FirstMatch(users: seq<User>, name: string): (r: Option<nat>)
    ensures r.Some? <==> Known(users, name)
    ensures r.Some? ==> r.value < |users| && SameName(users[r.value].username, name)
    ensures r.Some? ==> forall j :: 0 <= j < r.value ==> !SameName(users[j].username, name)
  {
    if users == [] then None
    else if SameName(users[0].username, name) then Some(0)
    else
      match FirstMatch(users[1..], name)
      case None => None
      case Some(k) => Some(k + 1)
  }

  /** The row `db.get` hands back for a case-insensitive lookup, if any. */
  function FirstRow(users: seq<User>, name: string): (r: Option<User>)
    ensures r.Some? <==> Known(users, name)
    ensures r.Some? ==> r.value in users && SameName(r.value.username, name)
  {
    match FirstMatch(users, name)
    case None => None
    case Some(i) => Some(users[i])
  }

  /**
   * `SELECT * FROM users WHERE lower(username)=lower(?) AND password=?`: the
   * index of the first row that matches the name case-insensitively and has
   * exactly the given password.
   */
  function FirstLogin(users: seq<User>, name: string, password: string): (r: Option<nat>)
    ensures r.Some? <==> exists i :: 0 <= i < |users| && SameName(users[i].username, name) && users[i].password == password
    ensures r.Some? ==> r.value < |users| && SameName(users[r.value].username, name) && users[r.value].password == password
    ensures r.Some? ==> forall j :: 0 <= j < r.value ==> !(SameName(users[j].username, name) && users[j].password == password)
  {
    if users == [] then None
    else if SameName(users[0].username, name) && users[0].password == password then Some(0)
    else
      match FirstLogin(users[1..], name, password)
      case None => None
      case Some(k) => Some(k + 1)
  }

  /**
   * `UPDATE users SET password=? WHERE lower(username)=lower(?)`: every
   * case-variant of the name gets the new password; the key column and every
   * other row are untouched.
   */
  function SetPassword(users: seq<User>, name: string, password: string): (r: seq<User>)
    ensures |r| == |users|
    ensures forall i :: 0 <= i < |users| ==>
      r[i].username == users[i].username && r[i].profilePicture == users[i].profilePicture &&
      r[i].startingBalance == users[i].startingBalance
    ensures forall i :: 0 <= i < |users| ==>
      r[i].password == if SameName(users[i].username, name) then password else users[i].password
  {
    seq(|users|, i requires 0 <= i < |users| =>
      if SameName(users[i].username, name) then users[i].(password := password) else users[i])
  }

  /** `COALESCE(?, column)`: a NULL parameter keeps the column's value. */
  function Coalesce<T>(param: Option<T>, column: T): T {
    match param
    case None => column
    case Some(v) => v
  }

  /**
   * The UPDATE of `updateUser`: on every row whose name matches `name`
   * case-insensitively, each supplied field replaces the column and each
   * absent (NULL) field leaves it as it was. The result can violate the
   * primary key; the handler checks that before committing it.
   */
  function ApplyProfile(users: seq<User>, name: string, newName: Option<string>,
                        picture: Option<string>, balance: Option<real>): (r: seq<User>)
    ensures |r| == |users|
    ensures forall i :: 0 <= i < |users| && !SameName(users[i].username, name) ==> r[i] == users[i]
    ensures forall i :: 0 <= i < |users| && SameName(users[i].username, name) ==>
      r[i].password == users[i].password &&
      r[i].username == (if newName.Some? then newName.value else users[i].username) &&
      r[i].profilePicture == (if picture.Some? then picture.value else users[i].profilePicture) &&
      r[i].startingBalance == (if balance.Some? then balance.value else users[i].startingBalance)
  {
    seq(|users|, i requires 0 <= i < |users| =>
      if SameName(users[i].username, name) then
        users[i].(username := Coalesce(newName, users[i].username),
                  profilePicture := Coalesce(picture, users[i].profilePicture),
                  startingBalance := Coalesce(balance, users[i].startingBalance))
      else users[i])
  }

  /** At most one row matches `name` case-insensitively. */
  predicate AtMostOneMatch(users: seq<User>, name: string) {
    forall i, j :: 0 <= i < j < |users| && SameName(users[i].username, name) ==> !SameName(users[j].username, name)
  }

  // ---------------------------------------------------------------------
  // Properties of the statements.

  /**
   * The primary key compares names case-sensitively, so a case-variant of a
   * stored name can be added (as signup and the import do) without breaking
   * it; afterwards two rows match that name, and every case-insensitive
   * UPDATE for it rewrites both.
   */
  lemma CaseVariantAdded(users: seq<User>, u: User, v: string)
    requires KeysDistinct(users) && Known(users, v) && !HasKey(users, v) && u.username == v
    ensures KeysDistinct(users + [u]) && !AtMostOneMatch(users + [u], v)
  {
    var i :| 0 <= i < |users| && SameName(users[i].username, v);
    var t := users + [u];
    assert t[i] == users[i] && t[|users|] == u;
  }

  /** Changing passwords never touches a key, so the primary key still holds. */
  lemma SetPasswordKeepsKeys(users: seq<User>, name: string, password: string)
    requires KeysDistinct(users)
    ensures KeysDistinct(SetPassword(users, name, password))
  {
  }

  /** A profile update that supplies no new username keeps every key, so it cannot break the primary key. */
  lemma ProfileWithoutRenameKeepsKeys(users: seq<User>, name: string, picture: Option<string>, balance: Option<real>)
    requires KeysDistinct(users)
    ensures KeysDistinct(ApplyProfile(users, name, None, picture, balance))
  {
  }

  /**
   * A rename to `s` keeps the primary key exactly when at most one row is
   * renamed and no row left alone already has the key `s`.
   */
  lemma RenameKeepsKeysIff(users: seq<User>, name: string, s: string, picture: Option<string>, balance: Option<real>)
    requires KeysDistinct(users)
    ensures KeysDistinct(ApplyProfile(users, name, Some(s), picture, balance)) <==>
      (AtMostOneMatch(users, name) &&
       forall i, k ::
         (0 <= i < |users| && 0 <= k < |users| && SameName(users[i].username, name) &&
          !SameName(users[k].username, name)) ==> users[k].username != s)
  {
  }

  /**
   * In the handler the rename target `s` matches no row at all (otherwise it
   * reports the name as taken), so the rename fails on the primary key exactly
   * when two or more case-variants of the old name exist.
   */
  lemma FreshRenameKeepsKeysIff(users: seq<User>, name: string, s: string, picture: Option<string>, balance: Option<real>)
    requires KeysDistinct(users)
    requires !Known(users, s)
    ensures KeysDistinct(ApplyProfile(users, name, Some(s), picture, balance)) <==> AtMostOneMatch(users, name)
  {
  }

  /**
   * Renaming a user to their own name in a different case always finds the
   * user's own row in the "already taken" lookup.
   */
  lemma SelfRenameIsTaken(users: seq<User>, name: string, s: string)
    requires Known(users, name)
    requires SameName(s, name)
    ensures Known(users, s) && FirstMatch(users, s).Some?
  {
  }

  /**
   * An empty new username is written as '' on every matching row, after which
   * no row matches the old (non-empty) name any more: the lookup that builds
   * the response finds nothing.
   */
  lemma EmptyRenameLosesUser(users: seq<User>, name: string, picture: Option<string>, balance: Option<real>)
    requires name != ""
    ensures var r := ApplyProfile(users, name, Some(""), picture, balance);
      (forall i :: 0 <= i < |users| && SameName(users[i].username, name) ==> r[i].username == "") &&
      !Known(r, name)
  {
  }

  /** Updating only the picture leaves every username and every balance as it was. */
  lemma PictureOnlyUpdate(users: seq<User>, name: string, picture: string)
    ensures var r := ApplyProfile(users, name, None, Some(picture), None);
      |r| == |users| &&
      forall i :: 0 <= i < |users| ==>
        r[i].username == users[i].username && r[i].startingBalance == users[i].startingBalance &&
        r[i].password == users[i].password &&
        r[i].profilePicture == (if SameName(users[i].username, name) then picture else users[i].profilePicture)
  {
  }

  /**
   * Login and reset-password disagree when two case-variants exist: login
   * searches for a row with the right name AND password, while reset compares
   * the password of the first row with the right name only.
   */
  lemma LoginAndResetDisagree()
    ensures var users := [User("Alice", "pw1", "", 0.0), User("alice", "pw2", "", 0.0)];
      FirstLogin(users, "ALICE", "pw2") == Some(1) &&
      FirstMatch(users, "ALICE") == Some(0) && users[0].password != "pw2"
  {
  }
}
