/**
 * The two tables of the ledger database and the value-level rules shared by
 * the request handlers and the bulk import: the row types, the table-key
 * constraints declared in db.js, ASCII case folding as done by SQLite's
 * lower(), and JavaScript truthiness of the request fields.
 */
module Rows {

  datatype Option<+T> = None | Some(value: T)

  /** A row of the `users` table; `username` is the (case-sensitive) primary key. */
  datatype User = User(username: string, password: string, profilePicture: string, startingBalance: real)

  /**
   * A row of the `entries` table; `id` is the primary key. `paid` is the 0/1
   * column, and `approved` is the nullable 0/1 column: None is NULL.
   */
  datatype Entry = Entry(
    id: int,
    debtor: string,
    creditor: string,
    amount: real,
    description: string,
    date: string,
    status: string,
    paid: bool,
    paymentMethod: string,
    approved: Option<bool>)

  // ---------------------------------------------------------------------
  // Case folding: SQLite's built-in lower() folds the ASCII letters only.

  function LowerChar(c: char): char {
    if 'A' <= c <= 'Z' then (c as int + 32) as char else c
  }

  /**
   * SQLite's lower(): the ASCII capitals become lower case and every other
   * character, non-ASCII letters included, is left as it is.
   */
  function Lower(s: string): (r: string)
    ensures |r| == |s|
    ensures forall i :: 0 <= i < |s| && 'A' <= s[i] <= 'Z' ==> r[i] == (s[i] as int + 32) as char
    ensures forall i :: 0 <= i < |s| && !('A' <= s[i] <= 'Z') ==> r[i] == s[i]
    ensures forall i :: 0 <= i < |r| ==> !('A' <= r[i] <= 'Z')
  {
    seq(|s|, i requires 0 <= i < |s| => LowerChar(s[i]))
  }

  /** `lower(a) = lower(b)`, the comparison every case-insensitive lookup uses. */
  predicate SameName(a: string, b: string) {
    Lower(a) == Lower(b)
  }

  /** Folding a folded name changes nothing. */
  lemma LowerIdempotent(s: string)
    ensures Lower(Lower(s)) == Lower(s)
  {
    var r := Lower(s);
    forall i | 0 <= i < |r| ensures Lower(r)[i] == r[i] {
      assert !('A' <= r[i] <= 'Z');
    }
  }

  /**
   * Two names compare equal only when they have the same length and, position
   * by position, are equal or both ASCII letters that differ in case only. In
   * particular a non-ASCII letter only ever matches itself.
   */
  lemma SameNameLetterwise(a: string, b: string)
    requires SameName(a, b)
    ensures |a| == |b|
    ensures forall i :: 0 <= i < |a| && a[i] != b[i] ==>
      ('A' <= a[i] <= 'Z' || 'a' <= a[i] <= 'z') && ('A' <= b[i] <= 'Z' || 'a' <= b[i] <= 'z') &&
      LowerChar(a[i]) == LowerChar(b[i])
  {
    forall i | 0 <= i < |a| && a[i] != b[i]
      ensures ('A' <= a[i] <= 'Z' || 'a' <= a[i] <= 'z') && ('A' <= b[i] <= 'Z' || 'a' <= b[i] <= 'z')
      ensures LowerChar(a[i]) == LowerChar(b[i])
    {
      assert Lower(a)[i] == Lower(b)[i];
    }
  }

  /**
   * The converse: names of equal length that differ, position by position,
   * only in the case of ASCII letters compare equal, so every lookup finds
   * every case-variant of a stored name.
   */
  lemma CaseVariantsSameName(a: string, b: string)
    requires |a| == |b|
    requires forall i :: 0 <= i < |a| ==> LowerChar(a[i]) == LowerChar(b[i])
    ensures SameName(a, b)
  {
    assert forall i :: 0 <= i < |a| ==> Lower(a)[i] == Lower(b)[i];
  }

  /** Only ASCII is folded: "\U{C4}" and "\U{E4}" (A and a with diaeresis) are different names. */
  lemma NonAsciiNotFolded()
    ensures !SameName("\U{C4}", "\U{E4}")
  {
    assert Lower("\U{C4}")[0] == '\U{C4}';
  }

  // ---------------------------------------------------------------------
  // JavaScript truthiness of request and import fields.

  /** A string field is truthy when present and non-empty. */
  predicate Present(o: Option<string>) {
    o.Some? && o.value != ""
  }

  /** `o || d` on an optional string field. */
  function OrElse(o: Option<string>, d: string): string {
    if Present(o) then o.value else d
  }

  // ---------------------------------------------------------------------
  // Table keys (db.js): PRIMARY KEY on users.username and entries.id.

  /** Some row has exactly this username (the PRIMARY KEY comparison, case-sensitive). */
  predicate HasKey(users: seq<User>, name: string) {
    exists i :: 0 <= i < |users| && users[i].username == name
  }

  /** The PRIMARY KEY constraint on `users.username`. */
  predicate KeysDistinct(users: seq<User>) {
    forall i, j :: 0 <= i < j < |users| ==> users[i].username != users[j].username
  }

  /** Each entry is stored under its own id (`id INTEGER PRIMARY KEY`). */
  predicate EntryKeysConsistent(entries: map<int, Entry>) {
    forall id :: id in entries ==> entries[id].id == id
  }
}
