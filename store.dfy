/**
 * The users table and the operations the handlers run against it.
 * The table is a sequence of rows in storage order with a serial counter
 * for ids; the database enforces unique emails and unique ids. Each
 * operation has a specification function from the table before to the
 * result and the table after, and a method on `UserStore` that performs
 * it in place and is proved to meet that specification.
 */
module Store {
  import opened Wrappers
  import opened Errors
  import opened Models
  import opened Hashing

  predicate Matches(u: User, key: FindBy) {
    match key
    case ByEmail(e) => u.email == e
    case ById(id) => u.id == id
  }

  /** The position of the last row a filtered query loads for `key`, which is the one `pop` takes. */
  function LastMatch(rows: seq<User>, key: FindBy): (r: Option<nat>)
    ensures r.Some? ==> r.value < |rows| && Matches(rows[r.value], key)
    ensures r.Some? ==> forall j :: r.value < j < |rows| ==> !Matches(rows[j], key)
    ensures r.None? <==> forall j :: 0 <= j < |rows| ==> !Matches(rows[j], key)
  {
    if rows == [] then None
    else if Matches(rows[|rows| - 1], key) then Some(|rows| - 1)
    else LastMatch(rows[..|rows| - 1], key)
  }

  /** Replacing a row by one that matches `key` exactly when it did leaves the last match where it was. */
  lemma {:induction false} LastMatchAfterReplace(rows: seq<User>, i: nat, v: User, key: FindBy)
    requires i < |rows| && (Matches(v, key) <==> Matches(rows[i], key))
    ensures LastMatch(rows[i := v], key) == LastMatch(rows, key)
  {
    var rows' := rows[i := v];
    var n := |rows| - 1;
    if i < n && !Matches(rows[n], key) {
      assert rows'[..n] == rows[..n][i := v];
      LastMatchAfterReplace(rows[..n], i, v, key);
    } else if i == n && !Matches(rows[n], key) {
      assert rows'[..n] == rows[..n];
    }
  }

  /** Emails are unique and ids are unique. */
  ghost predicate UniqueKeys(rows: seq<User>) {
    forall i, j :: 0 <= i < j < |rows| ==> rows[i].email != rows[j].email && rows[i].id != rows[j].id
  }

  /** Every id was issued by the serial counter before it reached `nextId`. */
  ghost predicate IdsBelow(rows: seq<User>, nextId: int) {
    forall i :: 0 <= i < |rows| ==> rows[i].id < nextId
  }

  /** The users table: its rows in storage order and the next serial id. */
  datatype Table = Table(rows: seq<User>, nextId: int) {
    ghost predicate Valid() {
      UniqueKeys(rows) && IdsBelow(rows, nextId)
    }
  }

  /**
   * In a valid table at most one row has a given email or id, so the last
   * match, which the lookups and the update pick, is the only match.
   */
  lemma OnlyMatch(t: Table, key: FindBy, j: nat)
    requires t.Valid() && j < |t.rows| && Matches(t.rows[j], key)
    ensures LastMatch(t.rows, key) == Some(j)
  {
  }

  /** An operation's outcome: its result and the table it leaves behind. */
  datatype Step<T> = Step(result: Result<T>, table: Table)

  const NO_CHANGES := "There are no changes to save. This query cannot be built"
  const EMAIL_CONSTRAINT := "duplicate key value violates unique constraint \"users_email_key\""
  const DEMOTED := "change account type from admin to normal user"
  const PROMOTED := "change account type from normal user to admin"
  /** The clearance of a newly registered row (the column's default). */
  const DEFAULT_CLEARANCE := false

  /** The error the database reports when an email is already taken. */
  function EmailTaken(email: string): (e: DbError)
    ensures FromDbError(e) == BadRequest("Key (email)=(" + email + ") already exists.")
  {
    DatabaseError(UniqueViolation, DbErrorInfo(EMAIL_CONSTRAINT, Some("Key (email)=(" + email + ") already exists.")))
  }

  predicate EmailUsedElsewhere(rows: seq<User>, email: string, i: nat) {
    exists j :: 0 <= j < |rows| && j != i && rows[j].email == email
  }

  // login

  /**
   * Login: the last row with the email must exist and the password must
   * verify against its hash; every other outcome is Unauthorized.
   */
  function LoginDecision(rows: seq<User>, data: AuthData, h: Hasher): (r: Result<SlimUser>)
    ensures r.Ok? <==> LastMatch(rows, ByEmail(data.email)).Some? &&
                       h.verifyEncoded(rows[LastMatch(rows, ByEmail(data.email)).value].password, data.password) == Some(true)
    ensures r.Ok? ==> r.value == ToSlim(rows[LastMatch(rows, ByEmail(data.email)).value])
    ensures r.Err? ==> r.error == Unauthorized
  {
    match LastMatch(rows, ByEmail(data.email))
    case None => Err(Unauthorized)
    case Some(i) =>
      var verified := VerifyHash(h, rows[i].password, data.password);
      if verified.Ok? && verified.value then Ok(ToSlim(rows[i])) else Err(Unauthorized)
  }

  // delete_account

  /** The rows whose email differs from `email`, in their order. */
  function WithoutEmail(rows: seq<User>, email: string): (r: seq<User>)
    ensures |r| <= |rows|
    ensures |r| == |rows| <==> LastMatch(rows, ByEmail(email)).None?
  {
    if rows == [] then []
    else
      var n := |rows| - 1;
      assert rows == rows[..n] + [rows[n]];
      WithoutEmail(rows[..n], email) + (if rows[n].email == email then [] else [rows[n]])
  }

  /** The kept rows are exactly the rows with another email. */
  lemma {:induction false} WithoutEmailMembers(rows: seq<User>, email: string)
    ensures forall u :: u in WithoutEmail(rows, email) <==> u in rows && u.email != email
  {
    if rows != [] {
      var n := |rows| - 1;
      WithoutEmailMembers(rows[..n], email);
      assert rows == rows[..n] + [rows[n]];
    }
  }

  /** One more row considered: it is kept exactly when its email differs. */
  lemma WithoutEmailStep(rows: seq<User>, i: nat, email: string)
    requires i < |rows|
    ensures WithoutEmail(rows[..i + 1], email)
            == WithoutEmail(rows[..i], email) + (if rows[i].email == email then [] else [rows[i]])
  {
    assert rows[..i + 1][..i] == rows[..i];
  }

  lemma {:induction false} WithoutEmailValid(rows: seq<User>, email: string, nextId: int)
    requires UniqueKeys(rows) && IdsBelow(rows, nextId)
    ensures UniqueKeys(WithoutEmail(rows, email)) && IdsBelow(WithoutEmail(rows, email), nextId)
  {
    if rows != [] {
      var n := |rows| - 1;
      WithoutEmailValid(rows[..n], email, nextId);
      WithoutEmailMembers(rows[..n], email);
      var kept := WithoutEmail(rows[..n], email);
      forall k | 0 <= k < |kept|
        ensures kept[k].email != rows[n].email && kept[k].id != rows[n].id && kept[k].id < nextId
      {
        assert kept[k] in rows[..n];
      }
    }
  }

  /** Deletion removes exactly the rows with the email and says whether any was removed. */
  function DeleteSpec(t: Table, email: string): (s: Step<bool>)
    ensures s.result.Ok? && (s.result.value <==> LastMatch(t.rows, ByEmail(email)).Some?)
    ensures s.table.rows == WithoutEmail(t.rows, email) && s.table.nextId == t.nextId
    ensures LastMatch(s.table.rows, ByEmail(email)).None?
    ensures t.Valid() ==> s.table.Valid()
  {
    var kept := WithoutEmail(t.rows, email);
    assert LastMatch(kept, ByEmail(email)).None? by {
      WithoutEmailMembers(t.rows, email);
      forall j | 0 <= j < |kept|
        ensures kept[j].email != email
      {
        assert kept[j] in kept;
      }
    }
    assert t.Valid() ==> Table(kept, t.nextId).Valid() by {
      if t.Valid() { WithoutEmailValid(t.rows, email, t.nextId); }
    }
    Step(Ok(|kept| < |t.rows|), Table(kept, t.nextId))
  }

  // user_update

  /** The change actually written: a present password replaced by its hash. */
  function HashedChange(change: UserChange, h: Hasher): (r: Result<UserChange>)
    ensures r.Err? <==> change.password.Some? && h.hashEncoded(change.password.value).None?
    ensures r.Err? ==> r.error == InternalServerError
    ensures r.Ok? ==> r.value.name == change.name && r.value.email == change.email
    ensures r.Ok? ==> (change.password.None? ==> r.value.password.None?)
    ensures r.Ok? && change.password.Some? ==> r.value.password == h.hashEncoded(change.password.value)
  {
    match change.password
    case None => Ok(change)
    case Some(plain) =>
      match HashPassword(h, plain)
      case Ok(hash) => Ok(change.(password := Some(hash)))
      case Err(e) => Err(e)
  }

  /**
   * Update of the caller's own row: hash first, then write the present
   * fields to the row with the caller's email and read it back masked.
   * Nothing changes on failure, and no other row ever changes.
   */
  function UpdateSpec(t: Table, user: SlimUser, change: UserChange, h: Hasher): (s: Step<UserChange>)
    ensures s.result.Err? ==> s.table == t
    ensures s.result.Ok? ==> |s.table.rows| == |t.rows| && s.table.nextId == t.nextId
    ensures s.result.Ok? ==> forall j :: 0 <= j < |t.rows| && t.rows[j].email != user.email ==> s.table.rows[j] == t.rows[j]
    ensures s.result.Ok? ==> !IsEmptyChange(change) && s.result.value.password == Some(MASKED_PASSWORD)
    ensures s.result.Ok? ==>
              (LastMatch(t.rows, ByEmail(user.email)).Some? && HashedChange(change, h).Ok? &&
               var i := LastMatch(t.rows, ByEmail(user.email)).value;
               s.table.rows[i] == ApplyChange(t.rows[i], HashedChange(change, h).value) &&
               s.result.value == BuildChange(s.table.rows[i]))
    ensures s.result.Ok? <==>
              HashedChange(change, h).Ok? && !IsEmptyChange(change) && LastMatch(t.rows, ByEmail(user.email)).Some? &&
              !(change.email.Some? && EmailUsedElsewhere(t.rows, change.email.value, LastMatch(t.rows, ByEmail(user.email)).value))
    ensures HashedChange(change, h).Err? ==> s.result == Err(InternalServerError)
    ensures HashedChange(change, h).Ok? && IsEmptyChange(change) ==> s.result == Err(InternalServerError)
    ensures HashedChange(change, h).Ok? && !IsEmptyChange(change) && LastMatch(t.rows, ByEmail(user.email)).None? ==>
              s.result == Err(InternalServerError)
    ensures HashedChange(change, h).Ok? && !IsEmptyChange(change) && LastMatch(t.rows, ByEmail(user.email)).Some? &&
            change.email.Some? && EmailUsedElsewhere(t.rows, change.email.value, LastMatch(t.rows, ByEmail(user.email)).value) ==>
              s.result == Err(BadRequest("Key (email)=(" + change.email.value + ") already exists."))
    ensures s.result.Err? && s.result.error.BadRequest? ==> change.email.Some?
    ensures t.Valid() ==> s.table.Valid()
  {
    match HashedChange(change, h)
    case Err(e) => Step(Err(e), t)
    case Ok(c) =>
      if IsEmptyChange(c) then Step(Err(FromDbError(QueryBuilderError(NO_CHANGES))), t)
      else
        match LastMatch(t.rows, ByEmail(user.email))
        case None => Step(Err(FromDbError(RowNotFound)), t)
        case Some(i) =>
          if c.email.Some? && EmailUsedElsewhere(t.rows, c.email.value, i) then
            Step(Err(FromDbError(EmailTaken(c.email.value))), t)
          else
            var v := ApplyChange(t.rows[i], c);
            Step(Ok(BuildChange(v)), t.(rows := t.rows[i := v]))
  }

  // find_by

  /** Lookup of one user: the last matching row, or NotFound. */
  function FindSpec(rows: seq<User>, key: FindBy): (r: Result<User>)
    ensures r.Ok? <==> exists j :: 0 <= j < |rows| && Matches(rows[j], key)
    ensures r.Ok? ==> r.value in rows && Matches(r.value, key) && r.value == rows[LastMatch(rows, key).value]
    ensures r.Err? ==> r.error == NotFound
  {
    match LastMatch(rows, key)
    case Some(i) => Ok(rows[i])
    case None => Err(NotFound)
  }

  // change_account

  /**
   * Toggling the clearance of the row with the id. A missing row is an
   * internal error (the database's not-found error); otherwise the message
   * says which way the account went.
   */
  function ChangeSpec(t: Table, userId: int): (s: Step<string>)
    ensures s.result.Err? <==> LastMatch(t.rows, ById(userId)).None?
    ensures s.result.Err? ==> s.result.error == InternalServerError && s.table == t
    ensures s.result.Ok? ==>
              (|s.table.rows| == |t.rows| && s.table.nextId == t.nextId &&
               var i := LastMatch(t.rows, ById(userId)).value;
               s.table.rows[i] == t.rows[i].(clearance := !t.rows[i].clearance) &&
               (forall j :: 0 <= j < |t.rows| && j != i ==> s.table.rows[j] == t.rows[j]) &&
               s.result.value == (if t.rows[i].clearance then DEMOTED else PROMOTED))
    ensures t.Valid() ==> s.table.Valid()
  {
    match LastMatch(t.rows, ById(userId))
    case None => Step(Err(FromDbError(RowNotFound)), t)
    case Some(i) =>
      var row := t.rows[i];
      Step(Ok(if row.clearance then DEMOTED else PROMOTED), t.(rows := t.rows[i := row.(clearance := !row.clearance)]))
  }

  /** Toggling twice gives back the table, and the two messages are the two directions. */
  lemma ChangeTwiceRestores(t: Table, userId: int)
    requires ChangeSpec(t, userId).result.Ok?
    ensures ChangeSpec(ChangeSpec(t, userId).table, userId).table == t
    ensures {ChangeSpec(t, userId).result.value, ChangeSpec(ChangeSpec(t, userId).table, userId).result.value} == {DEMOTED, PROMOTED}
  {
    var i := LastMatch(t.rows, ById(userId)).value;
    var once := ChangeSpec(t, userId).table;
    LastMatchAfterReplace(t.rows, i, once.rows[i], ById(userId));
    assert once.rows[i := t.rows[i]] == t.rows;
  }

  // insert_user

  /**
   * Registration: hash the password, then add a row with the next id and
   * the default clearance, unless the email is taken. The plaintext
   * password is never what is stored.
   */
  function InsertSpec(t: Table, data: UserData, h: Hasher, now: Timestamp): (s: Step<SlimUser>)
    ensures s.result.Err? ==> s.table == t
    ensures s.result.Err? ==> (s.result.error.BadRequest? <==> h.hashEncoded(data.password).Some?)
    ensures h.hashEncoded(data.password).None? ==> s.result == Err(InternalServerError)
    ensures h.hashEncoded(data.password).Some? && LastMatch(t.rows, ByEmail(data.email)).Some? ==>
              s.result == Err(BadRequest("Key (email)=(" + data.email + ") already exists."))
    ensures s.result.Ok? <==> h.hashEncoded(data.password).Some? && LastMatch(t.rows, ByEmail(data.email)).None?
    ensures s.result.Ok? ==> s.result.value == SlimUser(data.email, DEFAULT_CLEARANCE)
    ensures s.result.Ok? ==>
              s.table == Table(t.rows + [User(t.nextId, data.name, data.email, h.hashEncoded(data.password).value, DEFAULT_CLEARANCE, now)], t.nextId + 1)
    ensures t.Valid() ==> s.table.Valid()
  {
    match HashPassword(h, data.password)
    case Err(e) => Step(Err(e), t)
    case Ok(hash) =>
      var ins := FromDetails(data.name, data.email, hash);
      if LastMatch(t.rows, ByEmail(ins.email)).Some? then
        Step(Err(FromDbError(EmailTaken(ins.email))), t)
      else
        var row := User(t.nextId, ins.name, ins.email, ins.password, DEFAULT_CLEARANCE, now);
        Step(Ok(ToSlim(row)), Table(t.rows + [row], t.nextId + 1))
  }

  /** With a hasher that hides passwords, registration never stores the plaintext. */
  lemma InsertNeverStoresPlaintext(t: Table, data: UserData, h: Hasher, now: Timestamp)
    requires Hides(h)
    requires InsertSpec(t, data, h, now).result.Ok?
    ensures InsertSpec(t, data, h, now).table.rows[|t.rows|].password != data.password
  {
    assert h.hashEncoded(data.password) != Some(data.password);
  }

  /** Right after registering, logging in with the same email and password succeeds. */
  lemma InsertThenLogin(t: Table, data: UserData, h: Hasher, now: Timestamp)
    requires Sound(h)
    requires InsertSpec(t, data, h, now).result.Ok?
    ensures LoginDecision(InsertSpec(t, data, h, now).table.rows, AuthData(data.email, data.password), h)
            == Ok(SlimUser(data.email, DEFAULT_CLEARANCE))
  {
    var rows := InsertSpec(t, data, h, now).table.rows;
    assert LastMatch(rows, ByEmail(data.email)) == Some(|t.rows|);
    assert h.verifyEncoded(h.hashEncoded(data.password).value, data.password) == Some(true);
  }

  /** After deleting an account, no login with its email succeeds. */
  lemma DeleteThenLoginFails(t: Table, email: string, password: string, h: Hasher)
    ensures LoginDecision(DeleteSpec(t, email).table.rows, AuthData(email, password), h) == Err(Unauthorized)
  {
  }

  /** After a password change that left the email alone, the new password logs in. */
  lemma UpdatePasswordThenLogin(t: Table, user: SlimUser, password: string, h: Hasher)
    requires Sound(h)
    requires UpdateSpec(t, user, UserChange(None, None, Some(password)), h).result.Ok?
    ensures LoginDecision(UpdateSpec(t, user, UserChange(None, None, Some(password)), h).table.rows,
                          AuthData(user.email, password), h).Ok?
  {
    var change := UserChange(None, None, Some(password));
    var i := LastMatch(t.rows, ByEmail(user.email)).value;
    var v := ApplyChange(t.rows[i], HashedChange(change, h).value);
    LastMatchAfterReplace(t.rows, i, v, ByEmail(user.email));
    assert h.verifyEncoded(h.hashEncoded(password).value, password) == Some(true);
  }

  class UserStore {
    var rows: seq<User>
    var nextId: int

    function Snapshot(): Table
      reads this
    {
      Table(rows, nextId)
    }

    /** An empty table whose serial starts at 1. */
    constructor ()
      ensures Snapshot() == Table([], 1) && Snapshot().Valid()
    {
      rows := [];
      nextId := 1;
    }

    method LoginUser(data: AuthData, h: Hasher) returns (r: Result<SlimUser>)
      ensures r == LoginDecision(rows, data, h)
    {
      var last := LastMatch(rows, ByEmail(data.email));
      if last.Some? {
        var user := rows[last.value];
        var matching := VerifyHash(h, user.password, data.password);
        if matching.Ok? && matching.value {
          return Ok(ToSlim(user));
        }
      }
      return Err(Unauthorized);
    }

    method DeleteAccount(email: string) returns (r: Result<bool>)
      modifies this
      ensures Snapshot() == DeleteSpec(old(Snapshot()), email).table
      ensures r == DeleteSpec(old(Snapshot()), email).result
    {
      var loaded := rows;
      var kept: seq<User> := [];
      var removed := 0;
      var i := 0;
      while i < |loaded|
        invariant 0 <= i <= |loaded|
        invariant kept == WithoutEmail(loaded[..i], email)
        invariant removed == i - |kept|
        invariant unchanged(this)
      {
        WithoutEmailStep(loaded, i, email);
        if loaded[i].email == email {
          removed := removed + 1;
        } else {
          kept := kept + [loaded[i]];
        }
        i := i + 1;
      }
      assert loaded[..i] == loaded;
      rows := kept;
      if removed > 0 {
        r := Ok(true);
      } else {
        r := Ok(false);
      }
    }

    method UserUpdate(user: SlimUser, updates: UserChange, h: Hasher) returns (r: Result<UserChange>)
      modifies this
      ensures Snapshot() == UpdateSpec(old(Snapshot()), user, updates, h).table
      ensures r == UpdateSpec(old(Snapshot()), user, updates, h).result
    {
      var change := updates;
      if change.password.Some? {
        var hashed := HashPassword(h, change.password.value);
        if hashed.Err? {
          return Err(hashed.error);
        }
        change := change.(password := Some(hashed.value));
      }
      if IsEmptyChange(change) {
        return Err(FromDbError(QueryBuilderError(NO_CHANGES)));
      }
      var target := LastMatch(rows, ByEmail(user.email));
      if target.None? {
        return Err(FromDbError(RowNotFound));
      }
      var i := target.value;
      if change.email.Some? && EmailUsedElsewhere(rows, change.email.value, i) {
        return Err(FromDbError(EmailTaken(change.email.value)));
      }
      rows := rows[i := ApplyChange(rows[i], change)];
      r := Ok(BuildChange(rows[i]));
    }

    method FindBy(key: FindBy) returns (r: Result<User>)
      ensures r == FindSpec(rows, key)
    {
      var last := LastMatch(rows, key);
      if last.Some? {
        return Ok(rows[last.value]);
      }
      return Err(NotFound);
    }

    method ChangeAccount(userId: int) returns (r: Result<string>)
      modifies this
      ensures Snapshot() == ChangeSpec(old(Snapshot()), userId).table
      ensures r == ChangeSpec(old(Snapshot()), userId).result
    {
      var returnString := "";
      var target := LastMatch(rows, ById(userId));
      if target.None? {
        return Err(FromDbError(RowNotFound));
      }
      var i := target.value;
      var currentClearance := rows[i].clearance;
      if currentClearance {
        returnString := returnString + DEMOTED;
        rows := rows[i := rows[i].(clearance := false)];
      } else {
        returnString := returnString + PROMOTED;
        rows := rows[i := rows[i].(clearance := true)];
      }
      assert returnString == if currentClearance then DEMOTED else PROMOTED;
      r := Ok(returnString);
    }

    method GetAllUsers() returns (r: Result<seq<SlimUser>>)
      ensures r.Ok? && |r.value| == |rows|
      ensures forall k :: 0 <= k < |rows| ==> r.value[k] == ToSlim(rows[k])
    {
      var all: seq<SlimUser> := [];
      var i := 0;
      while i < |rows|
        invariant 0 <= i <= |rows| && |all| == i
        invariant forall k :: 0 <= k < i ==> all[k] == ToSlim(rows[k])
      {
        all := all + [ToSlim(rows[i])];
        i := i + 1;
      }
      r := Ok(all);
    }

    method InsertUser(data: UserData, h: Hasher, now: Timestamp) returns (r: Result<SlimUser>)
      modifies this
      ensures Snapshot() == InsertSpec(old(Snapshot()), data, h, now).table
      ensures r == InsertSpec(old(Snapshot()), data, h, now).result
    {
      var password :- HashPassword(h, data.password);
      var newUser := FromDetails(data.name, data.email, password);
      if LastMatch(rows, ByEmail(newUser.email)).Some? {
        return Err(FromDbError(EmailTaken(newUser.email)));
      }
      var inserted := User(nextId, newUser.name, newUser.email, newUser.password, DEFAULT_CLEARANCE, now);
      rows := rows + [inserted];
      nextId := nextId + 1;
      r := Ok(ToSlim(inserted));
    }
  }
}
