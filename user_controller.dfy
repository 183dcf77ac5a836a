/**
 * Handlers under `/user` that read the caller from the gate's headers:
 * the caller's profile, another user's public card, the caller's update
 * and the caller's account removal.
 */
module UserController {
  import opened Wrappers
  import opened Http
  import opened Errors
  import opened Models
  import opened Hashing
  import opened Int64Parse
  import opened Store
  import opened UsersController

  const INVALID_ID := "invalid id"
  const DELETED := "account deleted successfully"
  const NOT_DELETED := "could not delete account"

  /** `GET /user`: the profile of the user whose email the request carries, or 404. */
  method GetMe(store: UserStore, parsed: Parsed) returns (r: Result<Response>)
    ensures r.Ok? <==> exists j :: 0 <= j < |store.rows| && store.rows[j].email == parsed.0
    ensures r.Err? ==> r.error == NotFound
    ensures r.Ok? ==> (exists j :: 0 <= j < |store.rows| && store.rows[j].email == parsed.0 &&
                         r.value == Response(OK, JsonBody(ProfileJson(store.rows[j]))))
    ensures r.Ok? ==> r.value == Response(OK, JsonBody(ProfileJson(FindSpec(store.rows, ByEmail(parsed.0)).value)))
  {
    var user :- store.FindBy(ByEmail(parsed.0));
    r := Ok(Response(OK, JsonBody(ProfileJson(user))));
  }

  /** `GET /user/{id}`: the public card (id and email) of the user with that id, 400 for a malformed id, 404 for none. */
  method GetUserById(store: UserStore, rawId: string) returns (r: Result<Response>)
    ensures ParseI64(rawId).None? ==> r == Err(BadRequest(INVALID_ID))
    ensures r.Ok? <==> ParseI64(rawId).Some? && exists j :: 0 <= j < |store.rows| && store.rows[j].id == ParseI64(rawId).value
    ensures ParseI64(rawId).Some? && r.Err? ==> r.error == NotFound
    ensures r.Ok? ==> (exists j :: 0 <= j < |store.rows| && store.rows[j].id == ParseI64(rawId).value &&
                         r.value == Response(OK, JsonBody(PublicJson(store.rows[j]))))
    ensures r.Ok? ==> r.value == Response(OK, JsonBody(PublicJson(FindSpec(store.rows, ById(ParseI64(rawId).value)).value)))
  {
    var id := ParseI64(rawId);
    if id.None? {
      return Err(BadRequest(INVALID_ID));
    }
    var user :- store.FindBy(ById(id.value));
    r := Ok(Response(OK, JsonBody(PublicJson(user))));
  }

  /** `PATCH /user`: applies the change to the caller's row and answers with the stored values, password masked. */
  method UpdateUser(store: UserStore, parsed: Parsed, updates: UserChange, h: Hasher) returns (r: Result<Response>)
    modifies store
    ensures store.Snapshot() == UpdateSpec(old(store.Snapshot()), SlimUser(parsed.0, parsed.1 == "admin"), updates, h).table
    ensures r.Ok? <==> UpdateSpec(old(store.Snapshot()), SlimUser(parsed.0, parsed.1 == "admin"), updates, h).result.Ok?
    ensures r.Ok? ==> r.value == Response(OK, JsonBody(ChangeJson(UpdateSpec(old(store.Snapshot()), SlimUser(parsed.0, parsed.1 == "admin"), updates, h).result.value)))
    ensures r.Err? ==> r.error == UpdateSpec(old(store.Snapshot()), SlimUser(parsed.0, parsed.1 == "admin"), updates, h).result.error
  {
    var clearance := if parsed.1 == "admin" then true else false;
    var user := SlimUser(parsed.0, clearance);
    var changed :- store.UserUpdate(user, updates, h);
    r := Ok(Response(OK, JsonBody(ChangeJson(changed))));
  }

  /** `DELETE /user`: removes every row with the caller's email; the message says whether any was removed. */
  method RemoveAccount(store: UserStore, parsed: Parsed) returns (r: Result<Response>)
    modifies store
    ensures store.Snapshot() == DeleteSpec(old(store.Snapshot()), parsed.0).table
    ensures r.Ok? && r.value.status == OK
    ensures r.value.body == JsonBody(Message(DELETED)) <==> LastMatch(old(store.rows), ByEmail(parsed.0)).Some?
    ensures r.value.body == JsonBody(Message(DELETED)) || r.value.body == JsonBody(Message(NOT_DELETED))
  {
    var b := store.DeleteAccount(parsed.0);
    if b.value {
      r := Ok(Response(OK, JsonBody(Message(DELETED))));
    } else {
      r := Ok(Response(OK, JsonBody(Message(NOT_DELETED))));
    }
  }
}
