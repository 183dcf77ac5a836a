/**
 * The `/auth` handlers of the routes layer. Logout and `GET /auth` are
 * the same as the controller's; login runs the credential query on the
 * blocking pool, whose cancellation becomes an internal error.
 */
module AuthRoutes {
  import opened Wrappers
  import opened Http
  import opened Errors
  import opened Models
  import opened Hashing
  import opened IdentityCodec
  import opened Store
  import opened Sessions

  /**
   * `POST /auth` through the blocking pool: `canceled` says whether the
   * pool dropped the query. A canceled query leaves the session as it
   * was and answers 500; otherwise this is the controller's login.
   */
  method Login(store: UserStore, session: Session, data: AuthData, h: Hasher, canceled: bool) returns (r: Result<Response>)
    modifies session
    ensures canceled ==> r == Err(InternalServerError) && session.identity == old(session.identity)
    ensures r.Ok? <==> !canceled && LoginDecision(store.rows, data, h).Ok?
    ensures r.Ok? ==> r.value == Response(OK, Empty) && session.identity == Some(Encode(LoginDecision(store.rows, data, h).value))
    ensures r.Err? ==> session.identity == old(session.identity)
    ensures !canceled && r.Err? ==> r.error == Unauthorized
  {
    var res: Blocking<SlimUser>;
    if canceled {
      res := Canceled;
    } else {
      var user := store.LoginUser(data, h);
      res := Finished(user);
    }
    match FromBlocking(res)
    case Ok(user) =>
      var userString := Encode(user);
      session.Remember(userString);
      r := Ok(Response(OK, Empty));
    case Err(e) =>
      r := Err(e);
  }
}
