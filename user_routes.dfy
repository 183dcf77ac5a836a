/**
 * The `/user` handlers of the routes layer. Each reads the logged user
 * from the session identity, runs its query on the blocking pool, and
 * (unlike the controller) touches the session: a password change logs
 * the user out, and so does a successful account removal.
 */
module UserRoutes {
  import opened Wrappers
  import opened Http
  import opened Errors
  import opened Models
  import opened Hashing
  import opened Int64Parse
  import opened Access
  import opened Store
  import opened Sessions
  import opened UserController

  /** This layer's lookup: a missing user is Unauthorized rather than not found. */
  method FindUser(store: UserStore, key: FindBy) returns (r: Result<User>)
    ensures r.Ok? <==> FindSpec(store.rows, key).Ok?
    ensures r.Ok? ==> r.value == FindSpec(store.rows, key).value
    ensures r.Err? ==> r.error == Unauthorized
  {
    var found := store.FindBy(key);
    if found.Ok? {
      return Ok(found.value);
    }
    r := Err(Unauthorized);
  }

  /**
   * `GET /user`: the logged user's profile. No identity is 401, an
   * unreadable identity 500, a canceled query 500, and a logged user who
   * is no longer stored 401.
   */
  method GetMe(store: UserStore, session: Session, canceled: bool) returns (r: Result<Response>)
    ensures GetLoggedUser(session.identity).Err? ==> r == Err(GetLoggedUser(session.identity).error)
    ensures GetLoggedUser(session.identity).Ok? && canceled ==> r == Err(InternalServerError)
    ensures r.Ok? <==> GetLoggedUser(session.identity).Ok? && !canceled &&
                       FindSpec(store.rows, ByEmail(GetLoggedUser(session.identity).value.email)).Ok?
    ensures GetLoggedUser(session.identity).Ok? && !canceled && r.Err? ==> r.error == Unauthorized
    ensures r.Ok? ==> r.value == Response(OK, JsonBody(ProfileJson(FindSpec(store.rows, ByEmail(GetLoggedUser(session.identity).value.email)).value)))
  {
    var user :- GetLoggedUser(session.identity);
    var res: Blocking<User>;
    if canceled {
      res := Canceled;
    } else {
      var found := FindUser(store, ByEmail(user.email));
      res := Finished(found);
    }
    var found :- FromBlocking(res);
    r := Ok(Response(OK, JsonBody(ProfileJson(found))));
  }

  /** `GET /user/{id}`: like the controller's, but a missing user is 401 and a canceled query 500. */
  method GetUserById(store: UserStore, rawId: string, canceled: bool) returns (r: Result<Response>)
    ensures ParseI64(rawId).None? ==> r == Err(BadRequest(INVALID_ID))
    ensures ParseI64(rawId).Some? && canceled ==> r == Err(InternalServerError)
    ensures r.Ok? <==> ParseI64(rawId).Some? && !canceled && FindSpec(store.rows, ById(ParseI64(rawId).value)).Ok?
    ensures ParseI64(rawId).Some? && !canceled && r.Err? ==> r.error == Unauthorized
    ensures r.Ok? ==> r.value == Response(OK, JsonBody(PublicJson(FindSpec(store.rows, ById(ParseI64(rawId).value)).value)))
  {
    var id := ParseI64(rawId);
    if id.None? {
      return Err(BadRequest(INVALID_ID));
    }
    var res: Blocking<User>;
    if canceled {
      res := Canceled;
    } else {
      var found := FindUser(store, ById(id.value));
      res := Finished(found);
    }
    var user :- FromBlocking(res);
    r := Ok(Response(OK, JsonBody(PublicJson(user))));
  }

  /**
   * `PATCH /user`: updates the logged user's row. A change that carries a
   * password clears the session before the update runs, so the user is
   * logged out whether or not the update then succeeds.
   */
  method UpdateUser(store: UserStore, session: Session, updates: UserChange, h: Hasher, canceled: bool) returns (r: Result<Response>)
    modifies store, session
    ensures GetLoggedUser(old(session.identity)).Err? ==>
              r == Err(GetLoggedUser(old(session.identity)).error) && session.identity == old(session.identity) &&
              store.Snapshot() == old(store.Snapshot())
    ensures GetLoggedUser(old(session.identity)).Ok? ==>
              session.identity == (if updates.password.Some? then None else old(session.identity))
    ensures GetLoggedUser(old(session.identity)).Ok? && canceled ==>
              r == Err(InternalServerError) && store.Snapshot() == old(store.Snapshot())
    ensures GetLoggedUser(old(session.identity)).Ok? && !canceled ==>
              store.Snapshot() == UpdateSpec(old(store.Snapshot()), GetLoggedUser(old(session.identity)).value, updates, h).table &&
              (r.Ok? <==> UpdateSpec(old(store.Snapshot()), GetLoggedUser(old(session.identity)).value, updates, h).result.Ok?)
    ensures GetLoggedUser(old(session.identity)).Ok? && !canceled && r.Err? ==>
              r.error == UpdateSpec(old(store.Snapshot()), GetLoggedUser(old(session.identity)).value, updates, h).result.error
    ensures r.Ok? ==> (r.value.status == OK && r.value.body.JsonBody? &&
              r.value.body.value == ChangeJson(UpdateSpec(old(store.Snapshot()), GetLoggedUser(old(session.identity)).value, updates, h).result.value))
  {
    var user :- GetLoggedUser(session.identity);
    if updates.password.Some? {
      session.Forget();
    }
    var res: Blocking<UserChange>;
    if canceled {
      res := Canceled;
    } else {
      var changed := store.UserUpdate(user, updates, h);
      res := Finished(changed);
    }
    var changed :- FromBlocking(res);
    r := Ok(Response(OK, JsonBody(ChangeJson(changed))));
  }

  /**
   * `DELETE /user`: removes the logged user's rows; when any row was
   * removed the session is cleared as well.
   */
  method RemoveAccount(store: UserStore, session: Session, canceled: bool) returns (r: Result<Response>)
    modifies store, session
    ensures GetLoggedUser(old(session.identity)).Err? ==>
              r == Err(GetLoggedUser(old(session.identity)).error) && session.identity == old(session.identity) &&
              store.Snapshot() == old(store.Snapshot())
    ensures GetLoggedUser(old(session.identity)).Ok? && canceled ==>
              r == Err(InternalServerError) && session.identity == old(session.identity) &&
              store.Snapshot() == old(store.Snapshot())
    ensures GetLoggedUser(old(session.identity)).Ok? && !canceled ==>
              store.Snapshot() == DeleteSpec(old(store.Snapshot()), GetLoggedUser(old(session.identity)).value.email).table &&
              r.Ok? && r.value.status == OK &&
              (r.value.body == JsonBody(Message(DELETED)) <==> LastMatch(old(store.rows), ByEmail(GetLoggedUser(old(session.identity)).value.email)).Some?) &&
              (r.value.body == JsonBody(Message(DELETED)) || r.value.body == JsonBody(Message(NOT_DELETED))) &&
              (session.identity == if r.value.body == JsonBody(Message(DELETED)) then None else old(session.identity))
  {
    var user :- GetLoggedUser(session.identity);
    var res: Blocking<bool>;
    if canceled {
      res := Canceled;
    } else {
      var deleted := store.DeleteAccount(user.email);
      res := Finished(deleted);
    }
    var b :- FromBlocking(res);
    if b {
      session.Forget();
      r := Ok(Response(OK, JsonBody(Message(DELETED))));
    } else {
      r := Ok(Response(OK, JsonBody(Message(NOT_DELETED))));
    }
  }
}
