/**
 * The records of the users table and the shapes derived from them:
 * the slim identity record, the change set of an update, the row to insert.
 */
module Models {
  import opened Wrappers
  import opened Http

  /** A row's creation time; only its calendar date is ever shown. */
  datatype Timestamp = Timestamp(date: string, time: string)

  /** A row of the users table; `clearance` is true for administrators. */
  datatype User = User(id: int, name: string, email: string, password: string, clearance: bool, createdAt: Timestamp)

  /** The identity record kept in the session: email and privilege flag only. */
  datatype SlimUser = SlimUser(email: string, clearance: bool)

  /** The fields an update may set; an absent field is left as it is. */
  datatype UserChange = UserChange(name: Option<string>, email: Option<string>, password: Option<string>)

  /** The columns a registration writes. */
  datatype UserInsert = UserInsert(name: string, email: string, password: string)

  /** Login credentials as posted. */
  datatype AuthData = AuthData(email: string, password: string)

  /** Registration data as posted. */
  datatype UserData = UserData(name: string, email: string, password: string)

  /** The key of a single-user lookup. */
  datatype FindBy = ByEmail(email: string) | ById(id: int)

  /** What an update result reports in place of the stored password. */
  const MASKED_PASSWORD := "sensitive content"

  /** The slim record of a row: its email and clearance, nothing else. */
  function ToSlim(u: User): (s: SlimUser)
    ensures s.email == u.email && s.clearance == u.clearance
  {
    SlimUser(u.email, u.clearance)
  }

  /** The slim record does not depend on id, name, password or creation time. */
  lemma SlimDropsPrivateFields(u: User, v: User)
    requires u.email == v.email && u.clearance == v.clearance
    ensures ToSlim(u) == ToSlim(v)
  {
  }

  /** The change set read back from an updated row: name and email as stored, the password masked. */
  function BuildChange(row: User): (c: UserChange)
    ensures c.name == Some(row.name) && c.email == Some(row.email)
    ensures c.password == Some(MASKED_PASSWORD)
  {
    UserChange(Some(row.name), Some(row.email), Some(MASKED_PASSWORD))
  }

  /** The change set read back never depends on the stored password (hash). */
  lemma BuildChangeHidesPassword(row: User, other: string)
    ensures BuildChange(row) == BuildChange(row.(password := other))
  {
  }

  /** The row to insert holds name, email and password exactly as given. */
  function FromDetails(name: string, email: string, password: string): (ins: UserInsert)
    ensures ins.name == name && ins.email == email && ins.password == password
  {
    UserInsert(name, email, password)
  }

  /** True when the change set sets no column at all. */
  predicate IsEmptyChange(c: UserChange) {
    c.name.None? && c.email.None? && c.password.None?
  }

  /** A row after an update: each present field replaced, every other column kept. */
  function ApplyChange(u: User, c: UserChange): (v: User)
    ensures v.id == u.id && v.clearance == u.clearance && v.createdAt == u.createdAt
    ensures v.name == (if c.name.Some? then c.name.value else u.name)
    ensures v.email == (if c.email.Some? then c.email.value else u.email)
    ensures v.password == (if c.password.Some? then c.password.value else u.password)
  {
    User(u.id,
         if c.name.Some? then c.name.value else u.name,
         if c.email.Some? then c.email.value else u.email,
         if c.password.Some? then c.password.value else u.password,
         u.clearance, u.createdAt)
  }

  // JSON shapes of the records, in field declaration order.

  function OptionJson(o: Option<string>): Json {
    match o
    case Some(s) => JStr(s)
    case None => JNull
  }

  function SlimJson(s: SlimUser): Json {
    JObj([("email", JStr(s.email)), ("clearance", JBool(s.clearance))])
  }

  function ChangeJson(c: UserChange): Json {
    JObj([("name", OptionJson(c.name)), ("email", OptionJson(c.email)), ("password", OptionJson(c.password))])
  }

  function SlimListJson(us: seq<SlimUser>): (j: Json)
    ensures j.JArr? && |j.items| == |us|
    ensures forall i :: 0 <= i < |us| ==> j.items[i] == SlimJson(us[i])
  {
    JArr(seq(|us|, i requires 0 <= i < |us| => SlimJson(us[i])))
  }

  /** The profile a user sees of themselves. */
  function ProfileJson(u: User): Json {
    JObj([("id", JInt(u.id)), ("email", JStr(u.email)), ("joined", JStr(u.createdAt.date)),
          ("name", JStr(u.name)), ("admin", JBool(u.clearance))])
  }

  /** What anyone may see of another user: id and email. */
  function PublicJson(u: User): Json {
    JObj([("id", JInt(u.id)), ("email", JStr(u.email))])
  }
}
