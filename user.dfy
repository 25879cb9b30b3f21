/** The credential store (`src/user.rs`): salted SHA-256 password hashes in the
    `auth` table, password checks, and the command-line user management. */
module Users {
  import opened Base

  datatype UserError =
    | Sqlite(msg: string)
    | IO(msg: string)
    | MissingValues(msg: string)
    | Authentication(msg: string)
    | Unknown

  /** A SHA-256 digest is 32 bytes. */
  type Digest32 = b: Bytes | |b| == 32 witness seq(32, _ => 0)

  /** SHA-256 of the UTF-8 bytes of a text (the `sha2` crate, kept abstract). */
  type Sha256 = string -> Digest32

  /** The 8 bytes `OsRng` fills for a salt. */
  type SaltSeed = b: Bytes | |b| == 8 witness [0, 0, 0, 0, 0, 0, 0, 0]

  /** `create_salt`: the hexadecimal text of 8 random bytes. */
  function CreateSalt(seed: SaltSeed): (salt: string)
    ensures |salt| == 16 && AllHex(salt)
    ensures UnHex(salt) == seed
  {
    HexRoundTrip(seed);
    Hex(seed)
  }

  /** `create_pass_hash`: hex(SHA-256(username ++ password ++ salt)) followed by the salt. */
  function CreatePassHash(sha256: Sha256, username: string, password: string, salt: string): (h: string)
    ensures |h| == 64 + |salt| && h[64..] == salt && AllHex(h[..64])
    ensures UnHex(h[..64]) == sha256(username + password + salt)
  {
    var digest := sha256(username + password + salt);
    HexRoundTrip(digest);
    assert (Hex(digest) + salt)[..64] == Hex(digest);
    Hex(digest) + salt
  }

  /** The salt `authenticate` cuts off a stored hash: its last 16 characters,
      or a panic when the hash is shorter than that (the index underflows). */
  function SaltOf(stored: string): (salt: Option<string>)
    ensures salt.Some? <==> |stored| >= 16
    ensures salt.Some? ==> |salt.value| == 16 && stored == stored[..|stored| - 16] + salt.value
  {
    if |stored| < 16 then None else Some(stored[|stored| - 16..])
  }

  /** A hash stored with a 16-character salt gives that salt back. */
  lemma SaltRecovered(sha256: Sha256, username: string, password: string, salt: string)
    requires |salt| == 16
    ensures SaltOf(CreatePassHash(sha256, username, password, salt)) == Some(salt)
  {
  }

  /** What `authenticate` does with the row it fetched for the user. */
  function CheckPassword(sha256: Sha256, username: string, password: string, stored: Option<string>)
    : (r: Result<(), UserError>)
    ensures r.Ok? <==> stored.Some? && |stored.value| >= 16
                       && CreatePassHash(sha256, username, password, SaltOf(stored.value).value) == stored.value
    ensures r.Panic? <==> stored.Some? && |stored.value| < 16
    ensures r.Err? ==> r.error.Authentication?
  {
    match stored
    case None => Err(Authentication("Authentication failed for nonexistent user " + username))
    case Some(expected) =>
      match SaltOf(expected)
      case None => Panic
      case Some(salt) =>
        if CreatePassHash(sha256, username, password, salt) == expected then Ok(())
        else Err(Authentication("Authentication failed for user " + username))
  }

  /** A hash made by `create_pass_hash` from a fresh salt authenticates the same credentials. */
  lemma PassHashAuthenticates(sha256: Sha256, username: string, password: string, seed: SaltSeed)
    ensures CheckPassword(sha256, username, password,
                          Some(CreatePassHash(sha256, username, password, CreateSalt(seed)))) == Ok(())
  {
    SaltRecovered(sha256, username, password, CreateSalt(seed));
  }

  /** A different password with a different digest does not authenticate, and
      the refusal is the same `Authentication` error an unknown user gets. */
  lemma WrongPasswordRefused(sha256: Sha256, username: string, password: string, other: string, salt: string)
    requires |salt| == 16
    requires sha256(username + other + salt) != sha256(username + password + salt)
    ensures CheckPassword(sha256, username, other, Some(CreatePassHash(sha256, username, password, salt))).Err?
    ensures CheckPassword(sha256, username, other, None).Err?
  {
    var stored := CreatePassHash(sha256, username, password, salt);
    SaltRecovered(sha256, username, password, salt);
    var attempt := CreatePassHash(sha256, username, other, salt);
    assert UnHex(attempt[..64]) != UnHex(stored[..64]);
  }

  // ------------------------------------------------------------ auth table

  /** A row of `auth (username VARCHAR PRIMARY KEY, hash VARCHAR)`. */
  datatype AuthRow = AuthRow(username: string, hash: string)

  function Names(rows: seq<AuthRow>): (names: seq<string>)
    ensures |names| == |rows|
    ensures forall i :: 0 <= i < |rows| ==> names[i] == rows[i].username
  {
    if rows == [] then [] else [rows[0].username] + Names(rows[1..])
  }

  ghost predicate UniqueNames(rows: seq<AuthRow>)
  {
    forall i, j :: 0 <= i < j < |rows| ==> rows[i].username != rows[j].username
  }

  /** `SELECT hash FROM auth WHERE username=?`, first row. */
  function LookupHash(rows: seq<AuthRow>, username: string): (h: Option<string>)
    ensures h.Some? <==> username in Names(rows)
    ensures h.Some? ==> exists i :: 0 <= i < |rows| && rows[i] == AuthRow(username, h.value)
  {
    if rows == [] then None
    else if rows[0].username == username then Some(rows[0].hash)
    else LookupHash(rows[1..], username)
  }

  /** `user_list`: `None` for an empty table, otherwise every username in row order. */
  function UserList(rows: seq<AuthRow>): (list: Option<seq<string>>)
    ensures list.None? <==> rows == []
    ensures list.Some? ==> list.value == Names(rows)
  {
    if rows == [] then None else Some(Names(rows))
  }

  /** The order-free content of the listing: on a table with unique names,
      each stored user appears exactly once and nothing else does. */
  lemma ListsEachUserOnce(rows: seq<AuthRow>)
    requires UniqueNames(rows) && rows != []
    ensures var list := UserList(rows).value;
            && |list| == |rows|
            && (forall u :: u in list <==> UserExists(rows, u))
            && (forall i, j :: 0 <= i < j < |list| ==> list[i] != list[j])
  {
  }

  /** `user_exists`. */
  function UserExists(rows: seq<AuthRow>, username: string): (b: bool)
    ensures b <==> exists i :: 0 <= i < |rows| && rows[i].username == username
  {
    match UserList(rows)
    case Some(names) => username in names
    case None => false
  }

  /** `UPDATE auth SET hash=? WHERE username=?`. */
  function SetHash(rows: seq<AuthRow>, username: string, hash: string): (r: seq<AuthRow>)
    ensures |r| == |rows| && Names(r) == Names(rows)
    ensures forall i :: 0 <= i < |rows| ==>
      r[i] == if rows[i].username == username then AuthRow(username, hash) else rows[i]
  {
    if rows == [] then []
    else [if rows[0].username == username then AuthRow(username, hash) else rows[0]]
         + SetHash(rows[1..], username, hash)
  }

  /** `DELETE FROM auth WHERE username=?`: the other rows, in their order. */
  function Without(rows: seq<AuthRow>, username: string): (r: seq<AuthRow>)
    ensures |r| <= |rows|
    ensures forall i :: 0 <= i < |r| ==> r[i].username != username && r[i] in rows
    ensures forall i :: 0 <= i < |rows| && rows[i].username != username ==> rows[i] in r
  {
    if rows == [] then []
    else if rows[0].username == username then Without(rows[1..], username)
    else [rows[0]] + Without(rows[1..], username)
  }

  /** Deleting keeps the usernames unique. */
  lemma {:induction false} WithoutUnique(rows: seq<AuthRow>, username: string)
    requires UniqueNames(rows)
    ensures UniqueNames(Without(rows, username))
  {
    if rows != [] {
      WithoutUnique(rows[1..], username);
      var rest := Without(rows[1..], username);
      forall i | 0 <= i < |rest| ensures rest[i].username != rows[0].username {
        assert rest[i] in rows[1..];
      }
    }
  }

  /** `del_user` for each name in turn. */
  function WithoutAll(rows: seq<AuthRow>, usernames: seq<string>): (r: seq<AuthRow>)
    decreases |usernames|
  {
    if usernames == [] then rows else WithoutAll(Without(rows, usernames[0]), usernames[1..])
  }

  /** After deleting a list of users none of them is left, and every other row is kept. */
  lemma {:induction false} WithoutAllRemoves(rows: seq<AuthRow>, usernames: seq<string>)
    ensures forall i :: 0 <= i < |WithoutAll(rows, usernames)| ==>
      WithoutAll(rows, usernames)[i].username !in usernames
    ensures forall i :: 0 <= i < |rows| && rows[i].username !in usernames ==>
      rows[i] in WithoutAll(rows, usernames)
    decreases |usernames|
  {
    if usernames != [] {
      var next := Without(rows, usernames[0]);
      WithoutAllRemoves(next, usernames[1..]);
      var r := WithoutAll(rows, usernames);
      assert r == WithoutAll(next, usernames[1..]);
      forall i | 0 <= i < |r| ensures r[i].username !in usernames {
        assert r[i].username !in usernames[1..];
        assert r[i] in next by { WithoutAllSubset(next, usernames[1..], r[i]); }
      }
      forall i | 0 <= i < |rows| && rows[i].username !in usernames ensures rows[i] in r {
        assert rows[i] in next;
      }
    }
  }

  lemma {:induction false} WithoutAllSubset(rows: seq<AuthRow>, usernames: seq<string>, row: AuthRow)
    requires row in WithoutAll(rows, usernames)
    ensures row in rows
    decreases |usernames|
  {
    if usernames != [] {
      WithoutAllSubset(Without(rows, usernames[0]), usernames[1..], row);
    }
  }

  /** The `user` sub-command: `-a name pw`, `-d names…`, `-p name pw`, `-l`. */
  datatype UserCommand = User(add: Option<seq<string>>, del: Option<seq<string>>,
                              pass: Option<seq<string>>, list: bool)

  /** The primary-key violation a second row for a username raises. */
  const DUPLICATE_USER := "UNIQUE constraint failed: auth.username"

  /** The row `add_user_to_auth_db` inserts: the name and a freshly salted hash. */
  function NewRow(sha256: Sha256, username: string, password: string, seed: SaltSeed): AuthRow
  {
    AuthRow(username, CreatePassHash(sha256, username, password, CreateSalt(seed)))
  }

  /** `set_password_for_user` on the table: a new salted hash for an existing user. */
  function Repassword(sha256: Sha256, rows: seq<AuthRow>, username: string, password: string, seed: SaltSeed)
    : seq<AuthRow>
  {
    if UserExists(rows, username) then SetHash(rows, username, CreatePassHash(sha256, username, password, CreateSalt(seed)))
    else rows
  }

  /** What the edits of `user_manage` leave behind: their outcome and the table. */
  datatype Edited = Edited(result: Result<(), UserError>, rows: seq<AuthRow>)

  /** The edits of `user_manage`, in the source's order: the addition (a panic
      with fewer than two values, an error for an existing user), every
      deletion, then the password change (a panic with fewer than two values,
      after the addition and the deletions are written). */
  ghost function UserEdit(sha256: Sha256, rows: seq<AuthRow>, cmd: UserCommand, addSeed: SaltSeed, passSeed: SaltSeed)
    : Edited
  {
    if cmd.add.Some? && |cmd.add.value| < 2 then Edited(Panic, rows)
    else if cmd.add.Some? && UserExists(rows, cmd.add.value[0]) then Edited(Err(Sqlite(DUPLICATE_USER)), rows)
    else
      var added := if cmd.add.Some? then rows + [NewRow(sha256, cmd.add.value[0], cmd.add.value[1], addSeed)] else rows;
      var deleted := if cmd.del.Some? then WithoutAll(added, cmd.del.value) else added;
      if cmd.pass.None? then Edited(Ok(()), deleted)
      else if |cmd.pass.value| < 2 then Edited(Panic, deleted)
      else Edited(Ok(()), Repassword(sha256, deleted, cmd.pass.value[0], cmd.pass.value[1], passSeed))
  }

  /** The addition, if any, was carried out. */
  ghost predicate AddAccepted(rows: seq<AuthRow>, cmd: UserCommand)
  {
    cmd.add.None? || (|cmd.add.value| >= 2 && !UserExists(rows, cmd.add.value[0]))
  }

  ghost predicate Deleted(cmd: UserCommand, username: string)
  {
    cmd.del.Some? && username in cmd.del.value
  }

  ghost predicate PassTarget(cmd: UserCommand, username: string)
  {
    cmd.pass.Some? && |cmd.pass.value| >= 2 && cmd.pass.value[0] == username
  }

  /** The `auth` table of one database file. Usernames are its primary key. */
  class AuthDb {
    var rows: seq<AuthRow>

    ghost predicate Valid()
      reads this
    {
      UniqueNames(rows)
    }

    constructor (initial: seq<AuthRow>)
      requires UniqueNames(initial)
      ensures Valid() && rows == initial
    {
      rows := initial;
    }

    /** `authenticate`: fetch the user's hash and compare it with a recomputed one. */
    function Authenticate(sha256: Sha256, username: string, password: string): (r: Result<(), UserError>)
      reads this
      ensures r.Ok? <==> (UserExists(rows, username) && |LookupHash(rows, username).value| >= 16
        && CreatePassHash(sha256, username, password, SaltOf(LookupHash(rows, username).value).value)
           == LookupHash(rows, username).value)
      ensures !UserExists(rows, username) ==> r.Err? && r.error.Authentication?
    {
      CheckPassword(sha256, username, password, LookupHash(rows, username))
    }

    /** `add_user_to_auth_db`: `INSERT INTO auth VALUES (?, ?)`; a second row for
        the same username violates the primary key. */
    method AddUserToAuthDb(sha256: Sha256, username: string, password: string, seed: SaltSeed)
      returns (r: Result<(), UserError>)
      requires Valid()
      modifies this
      ensures Valid()
      ensures r.Ok? <==> !UserExists(old(rows), username)
      ensures r.Err? ==> r == Err(Sqlite(DUPLICATE_USER))
      ensures !r.Panic?
      ensures r.Ok? ==> rows == old(rows) + [AuthRow(username, CreatePassHash(sha256, username, password, CreateSalt(seed)))]
      ensures r.Err? ==> rows == old(rows)
      ensures r.Ok? ==> Authenticate(sha256, username, password) == Ok(())
    {
      var salt := CreateSalt(seed);
      var passHash := CreatePassHash(sha256, username, password, salt);
      if UserExists(rows, username) {
        r := Err(Sqlite(DUPLICATE_USER));
      } else {
        assert username !in Names(rows);
        LookupAppend(rows, AuthRow(username, passHash));
        rows := rows + [AuthRow(username, passHash)];
        PassHashAuthenticates(sha256, username, password, seed);
        r := Ok(());
      }
    }

    /** `set_password_for_user`: a new salt and hash for an existing user; an
        unknown user leaves the table as it was. */
    method SetPasswordForUser(sha256: Sha256, username: string, newPassword: string, seed: SaltSeed)
      returns (r: Result<(), UserError>)
      requires Valid()
      modifies this
      ensures Valid() && r == Ok(())
      ensures UserExists(old(rows), username) ==>
        rows == SetHash(old(rows), username, CreatePassHash(sha256, username, newPassword, CreateSalt(seed)))
      ensures !UserExists(old(rows), username) ==> rows == old(rows)
      ensures rows == Repassword(sha256, old(rows), username, newPassword, seed)
      ensures UserExists(old(rows), username) ==> Authenticate(sha256, username, newPassword) == Ok(())
    {
      if UserExists(rows, username) {
        var hash := CreatePassHash(sha256, username, newPassword, CreateSalt(seed));
        LookupSetHash(rows, username, hash);
        rows := SetHash(rows, username, hash);
        PassHashAuthenticates(sha256, username, newPassword, seed);
      }
      r := Ok(());
    }

    /** `del_user`. */
    method DelUser(username: string)
      requires Valid()
      modifies this
      ensures Valid() && rows == Without(old(rows), username)
    {
      WithoutUnique(rows, username);
      rows := Without(rows, username);
    }

    /** The deletion loop of `user_manage`: `del_user` for each name in order. */
    method DelUsers(users: seq<string>)
      requires Valid()
      modifies this
      ensures Valid() && rows == WithoutAll(old(rows), users)
      ensures forall i :: 0 <= i < |rows| ==> rows[i].username !in users
    {
      var i := 0;
      while i < |users|
        invariant 0 <= i <= |users| && Valid()
        invariant rows == WithoutAll(old(rows), users[..i])
      {
        WithoutAllPrefix(old(rows), users, i);
        DelUser(users[i]);
        i := i + 1;
      }
      assert users[..i] == users;
      WithoutAllRemoves(old(rows), users);
    }

    /** The changing part of `user_manage`: the addition, then every
        deletion in order, then the password change. `add` and `pass` each
        need two values; fewer make the indexing panic. */
    method EditUsers(sha256: Sha256, cmd: UserCommand, addSeed: SaltSeed, passSeed: SaltSeed)
      returns (r: Result<(), UserError>)
      requires Valid()
      modifies this
      ensures Valid()
      ensures cmd.add.Some? && |cmd.add.value| < 2 ==> r.Panic? && rows == old(rows)
      ensures cmd.add.Some? && |cmd.add.value| >= 2 && UserExists(old(rows), cmd.add.value[0]) ==>
        r.Err? && rows == old(rows)
      ensures r == UserEdit(sha256, old(rows), cmd, addSeed, passSeed).result
      ensures rows == UserEdit(sha256, old(rows), cmd, addSeed, passSeed).rows
    {
      if cmd.add.Some? {
        var account := cmd.add.value;
        if |account| < 2 {
          return Panic;
        }
        var added := AddUserToAuthDb(sha256, account[0], account[1], addSeed);
        if added.Err? {
          return Err(added.error);
        }
      }
      if cmd.del.Some? {
        DelUsers(cmd.del.value);
      }
      if cmd.pass.Some? {
        var account := cmd.pass.value;
        if |account| < 2 {
          return Panic;
        }
        var _ := SetPasswordForUser(sha256, account[0], account[1], passSeed);
      }
      r := Ok(());
    }

    /** `user_manage`: the edits, then the listing (returned instead of printed). */
    method UserManage(sha256: Sha256, cmd: UserCommand, addSeed: SaltSeed, passSeed: SaltSeed)
      returns (r: Result<seq<string>, UserError>)
      requires Valid()
      modifies this
      ensures Valid()
      ensures var e := UserEdit(sha256, old(rows), cmd, addSeed, passSeed);
              && rows == e.rows
              && (r.Ok? <==> e.result.Ok?)
              && (e.result.Err? ==> r == Err(e.result.error))
              && (e.result.Panic? ==> r.Panic?)
      ensures r.Ok? ==> r.value == (if cmd.list && rows != [] then Names(rows) else [])
    {
      var edited := EditUsers(sha256, cmd, addSeed, passSeed);
      if edited.Err? {
        return Err(edited.error);
      } else if edited.Panic? {
        return Panic;
      }
      var listed: seq<string> := [];
      if cmd.list {
        var list := UserList(rows);
        if list.Some? {
          listed := list.value;
        }
      }
      r := Ok(listed);
    }
  }

  /** The table `user_manage` holds between the addition and the password change. */
  ghost function AfterDeletes(sha256: Sha256, rows: seq<AuthRow>, cmd: UserCommand, addSeed: SaltSeed): seq<AuthRow>
    requires cmd.add.Some? ==> |cmd.add.value| >= 2
  {
    var added := if cmd.add.Some? then rows + [NewRow(sha256, cmd.add.value[0], cmd.add.value[1], addSeed)] else rows;
    if cmd.del.Some? then WithoutAll(added, cmd.del.value) else added
  }

  /** Once the addition is carried out, the table is the one after the
      deletions, with the new password applied when one was given in full. */
  lemma EditAfterDeletes(sha256: Sha256, rows: seq<AuthRow>, cmd: UserCommand, addSeed: SaltSeed, passSeed: SaltSeed)
    requires AddAccepted(rows, cmd)
    ensures var e := UserEdit(sha256, rows, cmd, addSeed, passSeed);
            var deleted := AfterDeletes(sha256, rows, cmd, addSeed);
            e.rows == if PassGiven(cmd) then Repassword(sha256, deleted, cmd.pass.value[0], cmd.pass.value[1], passSeed)
                      else deleted
  {
  }

  ghost predicate PassGiven(cmd: UserCommand)
  {
    cmd.pass.Some? && |cmd.pass.value| >= 2
  }

  /** A row of the table before the deletions that names no deleted user is still there after them. */
  lemma SurvivesDeletes(added: seq<AuthRow>, cmd: UserCommand, row: AuthRow)
    requires row in added && !Deleted(cmd, row.username)
    ensures row in (if cmd.del.Some? then WithoutAll(added, cmd.del.value) else added)
  {
    if cmd.del.Some? {
      WithoutAllRemoves(added, cmd.del.value);
    }
  }

  /** The password change keeps every username and every other user's row. */
  lemma RepasswordKeeps(sha256: Sha256, rows: seq<AuthRow>, username: string, password: string, seed: SaltSeed)
    ensures Names(Repassword(sha256, rows, username, password, seed)) == Names(rows)
    ensures forall i :: 0 <= i < |rows| && rows[i].username != username ==>
              rows[i] in Repassword(sha256, rows, username, password, seed)
  {
    var r := Repassword(sha256, rows, username, password, seed);
    forall i | 0 <= i < |rows| && rows[i].username != username ensures rows[i] in r {
      assert r[i] == rows[i];
    }
  }

  /** After the edits no deleted user is left (whether the password change
      then succeeds or panics). */
  lemma {:induction false} EditRemovesDeleted(sha256: Sha256, rows: seq<AuthRow>, cmd: UserCommand,
                                              addSeed: SaltSeed, passSeed: SaltSeed)
    requires AddAccepted(rows, cmd)
    ensures var e := UserEdit(sha256, rows, cmd, addSeed, passSeed);
            forall i :: 0 <= i < |e.rows| ==> !Deleted(cmd, e.rows[i].username)
  {
    var e := UserEdit(sha256, rows, cmd, addSeed, passSeed);
    var deleted := AfterDeletes(sha256, rows, cmd, addSeed);
    EditAfterDeletes(sha256, rows, cmd, addSeed, passSeed);
    if cmd.del.Some? {
      var added := if cmd.add.Some? then rows + [NewRow(sha256, cmd.add.value[0], cmd.add.value[1], addSeed)] else rows;
      WithoutAllRemoves(added, cmd.del.value);
    }
    if PassGiven(cmd) {
      RepasswordKeeps(sha256, deleted, cmd.pass.value[0], cmd.pass.value[1], passSeed);
      SameNames(e.rows, deleted);
    }
  }

  /** Every row of a user that is neither deleted nor given a new password
      comes through the edits unchanged. */
  lemma {:induction false} EditKeepsOthers(sha256: Sha256, rows: seq<AuthRow>, cmd: UserCommand,
                                           addSeed: SaltSeed, passSeed: SaltSeed)
    ensures var e := UserEdit(sha256, rows, cmd, addSeed, passSeed);
            forall i :: 0 <= i < |rows| && !Deleted(cmd, rows[i].username) && !PassTarget(cmd, rows[i].username) ==>
              rows[i] in e.rows
  {
    if AddAccepted(rows, cmd) {
      var e := UserEdit(sha256, rows, cmd, addSeed, passSeed);
      var added := if cmd.add.Some? then rows + [NewRow(sha256, cmd.add.value[0], cmd.add.value[1], addSeed)] else rows;
      var deleted := AfterDeletes(sha256, rows, cmd, addSeed);
      EditAfterDeletes(sha256, rows, cmd, addSeed, passSeed);
      if PassGiven(cmd) {
        RepasswordKeeps(sha256, deleted, cmd.pass.value[0], cmd.pass.value[1], passSeed);
      }
      forall i | 0 <= i < |rows| && !Deleted(cmd, rows[i].username) && !PassTarget(cmd, rows[i].username)
        ensures rows[i] in e.rows
      {
        assert added[i] == rows[i];
        SurvivesDeletes(added, cmd, rows[i]);
      }
    }
  }

  /** An added user that is not deleted afterwards is in the table, with the
      row the addition wrote unless the password change targets it. */
  lemma {:induction false} EditAddsUser(sha256: Sha256, rows: seq<AuthRow>, cmd: UserCommand,
                                        addSeed: SaltSeed, passSeed: SaltSeed)
    requires cmd.add.Some? && AddAccepted(rows, cmd) && !Deleted(cmd, cmd.add.value[0])
    ensures var e := UserEdit(sha256, rows, cmd, addSeed, passSeed);
            var u := cmd.add.value[0];
            && UserExists(e.rows, u)
            && (!PassTarget(cmd, u) ==> NewRow(sha256, u, cmd.add.value[1], addSeed) in e.rows)
  {
    var e := UserEdit(sha256, rows, cmd, addSeed, passSeed);
    var row := NewRow(sha256, cmd.add.value[0], cmd.add.value[1], addSeed);
    var added := rows + [row];
    assert added[|rows|] == row;
    var deleted := AfterDeletes(sha256, rows, cmd, addSeed);
    SurvivesDeletes(added, cmd, row);
    EditAfterDeletes(sha256, rows, cmd, addSeed, passSeed);
    if PassGiven(cmd) {
      RepasswordKeeps(sha256, deleted, cmd.pass.value[0], cmd.pass.value[1], passSeed);
      var j :| 0 <= j < |deleted| && deleted[j] == row;
      assert Names(e.rows)[j] == row.username;
    }
  }

  /** When the edits succeed with a password change for a user who is then in
      the table, that user's hash is the new one. */
  lemma {:induction false} EditSetsPassword(sha256: Sha256, rows: seq<AuthRow>, cmd: UserCommand,
                                            addSeed: SaltSeed, passSeed: SaltSeed)
    requires UserEdit(sha256, rows, cmd, addSeed, passSeed).result.Ok? && cmd.pass.Some?
    requires UserExists(UserEdit(sha256, rows, cmd, addSeed, passSeed).rows, cmd.pass.value[0])
    ensures var u := cmd.pass.value[0];
            LookupHash(UserEdit(sha256, rows, cmd, addSeed, passSeed).rows, u)
            == Some(CreatePassHash(sha256, u, cmd.pass.value[1], CreateSalt(passSeed)))
  {
    var u := cmd.pass.value[0];
    var deleted := AfterDeletes(sha256, rows, cmd, addSeed);
    EditAfterDeletes(sha256, rows, cmd, addSeed, passSeed);
    LookupSetHash(deleted, u, CreatePassHash(sha256, u, cmd.pass.value[1], CreateSalt(passSeed)));
  }

  lemma SameNames(a: seq<AuthRow>, b: seq<AuthRow>)
    requires Names(a) == Names(b)
    ensures |a| == |b| && forall i :: 0 <= i < |a| ==> a[i].username == b[i].username
  {
    forall i | 0 <= i < |a| ensures a[i].username == b[i].username {
      assert Names(a)[i] == Names(b)[i];
    }
  }

  /** One more deletion extends the prefix of names already deleted. */
  lemma WithoutAllPrefix(rows: seq<AuthRow>, names: seq<string>, i: int)
    requires 0 <= i < |names|
    ensures WithoutAll(rows, names[..i + 1]) == Without(WithoutAll(rows, names[..i]), names[i])
  {
    assert names[..i + 1] == names[..i] + [names[i]];
    WithoutAllSnoc(rows, names[..i], names[i]);
  }

  lemma {:induction false} WithoutAllSnoc(rows: seq<AuthRow>, done: seq<string>, next: string)
    ensures WithoutAll(rows, done + [next]) == Without(WithoutAll(rows, done), next)
    decreases |done|
  {
    if done == [] {
      assert WithoutAll(Without(rows, next), []) == Without(rows, next);
    } else {
      assert (done + [next])[1..] == done[1..] + [next];
      WithoutAllSnoc(Without(rows, done[0]), done[1..], next);
    }
  }

  lemma {:induction false} LookupAppend(rows: seq<AuthRow>, row: AuthRow)
    requires row.username !in Names(rows)
    ensures LookupHash(rows + [row], row.username) == Some(row.hash)
    ensures UniqueNames(rows) ==> UniqueNames(rows + [row])
  {
    if rows != [] {
      assert (rows + [row])[1..] == rows[1..] + [row];
      assert Names(rows) == [rows[0].username] + Names(rows[1..]);
      LookupAppend(rows[1..], row);
    }
    AppendKeepsUnique(rows, row);
  }

  lemma AppendKeepsUnique(rows: seq<AuthRow>, row: AuthRow)
    requires row.username !in Names(rows)
    ensures UniqueNames(rows) ==> UniqueNames(rows + [row])
  {
    forall i | 0 <= i < |rows| ensures rows[i].username != row.username {
      assert Names(rows)[i] == rows[i].username;
    }
  }

  lemma {:induction false} LookupSetHash(rows: seq<AuthRow>, username: string, hash: string)
    requires username in Names(rows)
    ensures LookupHash(SetHash(rows, username, hash), username) == Some(hash)
    ensures UniqueNames(rows) ==> UniqueNames(SetHash(rows, username, hash))
  {
    var r := SetHash(rows, username, hash);
    if rows[0].username != username {
      assert Names(rows) == [rows[0].username] + Names(rows[1..]);
      LookupSetHash(rows[1..], username, hash);
      assert r[1..] == SetHash(rows[1..], username, hash);
    }
    SetHashKeepsUnique(rows, username, hash);
  }

  lemma SetHashKeepsUnique(rows: seq<AuthRow>, username: string, hash: string)
    ensures UniqueNames(rows) ==> UniqueNames(SetHash(rows, username, hash))
  {
    SameNames(SetHash(rows, username, hash), rows);
  }
}
