/**
 * Handlers under `/users`: registration, the admin listing and the admin
 * switch of an account's type. A handler receives the request's
 * `(email, clearance)` pair as the gate's headers carry it.
 */
module UsersController {
  import opened Wrappers
  import opened Http
  import opened Errors
  import opened Models
  import opened Hashing
  import opened Int64Parse
  import opened Store
  import Middleware

  const INVALID_USER_ID := "invalid user id"

  /** The `(email, clearance)` pair a handler reads from the request headers. */
  type Parsed = (string, string)

  /** The admin check `GET /users` performs: the clearance slot reads `admin`. */
  predicate IsAdminRequest(parsed: Parsed) {
    parsed.1 == "admin"
  }

  /** `POST /users`: registers the user and answers 201 with its email. */
  method PostUser(store: UserStore, data: UserData, h: Hasher, now: Timestamp) returns (r: Result<Response>)
    modifies store
    ensures store.Snapshot() == InsertSpec(old(store.Snapshot()), data, h, now).table
    ensures r.Ok? <==> InsertSpec(old(store.Snapshot()), data, h, now).result.Ok?
    ensures r.Ok? ==> r.value == Response(CREATED, JsonBody(JObj([("email", JStr(data.email))])))
    ensures r.Err? ==> r.error == InsertSpec(old(store.Snapshot()), data, h, now).result.error
  {
    var user :- store.InsertUser(data, h, now);
    r := Ok(Response(CREATED, JsonBody(JObj([("email", JStr(user.email))]))));
  }

  /**
   * `GET /users`: an admin request gets every stored user in its slim
   * form, in table order; any other request is refused with 401.
   */
  method GetUsers(store: UserStore, parsed: Parsed) returns (r: Result<Response>)
    ensures r.Err? <==> !IsAdminRequest(parsed)
    ensures r.Err? ==> r.error == Unauthorized
    ensures r.Ok? ==> r.value.status == OK && r.value.body.JsonBody? && r.value.body.value.JArr?
    ensures r.Ok? ==> |r.value.body.value.items| == |store.rows|
    ensures r.Ok? ==> forall k :: 0 <= k < |store.rows| ==> r.value.body.value.items[k] == SlimJson(ToSlim(store.rows[k]))
    ensures ToHttp(r).status == (if IsAdminRequest(parsed) then OK else UNAUTHORIZED)
  {
    if !(parsed.1 == "admin") {
      return Err(Unauthorized);
    }
    var users := store.GetAllUsers();
    r := Ok(Response(OK, JsonBody(SlimListJson(users.value))));
  }

  /**
   * On the wire, a listing refused to a non-admin and a request the gate
   * turns away for lack of an identity are both 401, but their bodies
   * differ: the handler's is the JSON string `Unauthorized`, the gate's
   * the fixed object asking the caller to log in.
   */
  lemma RefusedListingAndGateRejectionAre401(path: string, verb: string)
    requires !Middleware.AllowListed(path, verb)
    ensures Middleware.Gate(path, verb, None).Reject?
    ensures ToHttp(Err(Unauthorized)).status == Middleware.Gate(path, verb, None).response.status == UNAUTHORIZED
    ensures ToHttp(Err(Unauthorized)).body != Middleware.Gate(path, verb, None).response.body
  {
  }

  /**
   * `PATCH /users/{id}` once the permission check has decided `allowed`:
   * refused with 401, or a 400 for an id that is not an `i64`, or the
   * account switch and its message.
   */
  function ChangeTypeSpec(t: Table, rawId: string, allowed: bool): (s: Step<Response>)
    ensures !allowed ==> s == Step(Err(Unauthorized), t)
    ensures allowed && ParseI64(rawId).None? ==> s == Step(Err(BadRequest(INVALID_USER_ID)), t)
    ensures allowed && ParseI64(rawId).Some? && LastMatch(t.rows, ById(ParseI64(rawId).value)).None? ==>
              s == Step(Err(InternalServerError), t)
    ensures s.result.Ok? <==> allowed && ParseI64(rawId).Some? && LastMatch(t.rows, ById(ParseI64(rawId).value)).Some?
    ensures s.result.Ok? ==> (s.result.value.status == OK &&
              (s.result.value.body == JsonBody(Message(DEMOTED)) || s.result.value.body == JsonBody(Message(PROMOTED))))
    ensures s.result.Ok? ==>
              s.table == ChangeSpec(t, ParseI64(rawId).value).table &&
              s.result.value.body == JsonBody(Message(ChangeSpec(t, ParseI64(rawId).value).result.value))
    ensures s.table != t ==> allowed && s.result.Ok?
    ensures t.Valid() ==> s.table.Valid()
  {
    if !allowed then Step(Err(Unauthorized), t)
    else
      match ParseI64(rawId)
      case None => Step(Err(BadRequest(INVALID_USER_ID)), t)
      case Some(id) =>
        var step := ChangeSpec(t, id);
        match step.result
        case Ok(msg) => Step(Ok(Response(OK, JsonBody(Message(msg)))), step.table)
        case Err(e) => Step(Err(e), step.table)
  }

  /** The switch proper, shared by both permission checks below. */
  method ChangeType(store: UserStore, rawId: string, allowed: bool) returns (r: Result<Response>)
    modifies store
    ensures store.Snapshot() == ChangeTypeSpec(old(store.Snapshot()), rawId, allowed).table
    ensures r == ChangeTypeSpec(old(store.Snapshot()), rawId, allowed).result
  {
    if !allowed {
      return Err(Unauthorized);
    }
    var parsedId := ParseI64(rawId);
    if parsedId.None? {
      return Err(BadRequest(INVALID_USER_ID));
    }
    var msg :- store.ChangeAccount(parsedId.value);
    r := Ok(Response(OK, JsonBody(Message(msg))));
  }

  /**
   * `PATCH /users/{id}` as the handler is written: the value compared with
   * `admin` is the FIRST slot of the parsed pair, the email.
   */
  method ChangeAccountTypeAsWritten(store: UserStore, rawId: string, parsed: Parsed) returns (r: Result<Response>)
    modifies store
    ensures store.Snapshot() == ChangeTypeSpec(old(store.Snapshot()), rawId, parsed.0 == "admin").table
    ensures r == ChangeTypeSpec(old(store.Snapshot()), rawId, parsed.0 == "admin").result
  {
    r := ChangeType(store, rawId, parsed.0 == "admin");
  }

  /** `PATCH /users/{id}` with the check `GET /users` uses: the clearance slot. */
  method ChangeAccountType(store: UserStore, rawId: string, parsed: Parsed) returns (r: Result<Response>)
    modifies store
    ensures store.Snapshot() == ChangeTypeSpec(old(store.Snapshot()), rawId, IsAdminRequest(parsed)).table
    ensures r == ChangeTypeSpec(old(store.Snapshot()), rawId, IsAdminRequest(parsed)).result
  {
    r := ChangeType(store, rawId, IsAdminRequest(parsed));
  }

  /**
   * As written, the check lets a non-admin whose email is `admin` switch
   * any account (its own included), and refuses a genuine admin.
   */
  lemma AsWrittenGateIsWrongSlot(t: Table, rawId: string)
    requires ParseI64(rawId).Some? && LastMatch(t.rows, ById(ParseI64(rawId).value)).Some?
    ensures ChangeTypeSpec(t, rawId, ("admin", "non_admin").0 == "admin").result.Ok?
    ensures ChangeTypeSpec(t, rawId, ("root@example.com", "admin").0 == "admin").result == Err(Unauthorized)
    ensures !IsAdminRequest(("admin", "non_admin")) && IsAdminRequest(("root@example.com", "admin"))
  {
  }

  /**
   * With the clearance check, only an admin request can change the table,
   * and an admin's request for an existing id always succeeds.
   */
  lemma OnlyAdminsChangeAccountType(t: Table, rawId: string, parsed: Parsed)
    ensures ChangeTypeSpec(t, rawId, IsAdminRequest(parsed)).table != t ==> parsed.1 == "admin"
    ensures ChangeTypeSpec(t, rawId, IsAdminRequest(parsed)).result.Ok? <==>
              parsed.1 == "admin" && ParseI64(rawId).Some? && LastMatch(t.rows, ById(ParseI64(rawId).value)).Some?
  {
  }

  /** Two admin switches of the same existing account restore the table and report both directions. */
  lemma ChangeTypeTwiceRestores(t: Table, rawId: string)
    requires ChangeTypeSpec(t, rawId, true).result.Ok?
    ensures ChangeTypeSpec(ChangeTypeSpec(t, rawId, true).table, rawId, true).table == t
  {
    ChangeTwiceRestores(t, ParseI64(rawId).value);
  }
}
