/**
 * Handlers under `/auth`: login stores the logged user's identity blob in
 * the session, logout clears it, and `GET /auth` answers with the email
 * of the logged user.
 */
module AuthController {
  import opened Wrappers
  import opened Http
  import opened Errors
  import opened Models
  import opened Hashing
  import opened IdentityCodec
  import opened Access
  import opened Store
  import opened Sessions

  /** The body `GET /auth` answers with. */
  function EmailJson(email: string): Json {
    JObj([("email", JStr(email))])
  }

  /** `DELETE /auth`: clears the session identity and answers 200 with no body. */
  method Logout(session: Session) returns (r: Response)
    modifies session
    ensures session.identity == None
    ensures r == Response(OK, Empty)
  {
    session.Forget();
    r := Response(OK, Empty);
  }

  /**
   * `POST /auth`: on a successful credential check the session remembers
   * the slim user's identity blob; on failure the session is untouched
   * and the answer is 401.
   */
  method Login(store: UserStore, session: Session, data: AuthData, h: Hasher) returns (r: Result<Response>)
    modifies session
    ensures r.Ok? <==> LoginDecision(store.rows, data, h).Ok?
    ensures r.Ok? ==> r.value == Response(OK, Empty) && session.identity == Some(Encode(LoginDecision(store.rows, data, h).value))
    ensures r.Err? ==> r.error == Unauthorized && session.identity == old(session.identity)
  {
    var user :- store.LoginUser(data, h);
    var userString := Encode(user);
    session.Remember(userString);
    r := Ok(Response(OK, Empty));
  }

  /**
   * `GET /auth`: the logged-user extractor runs before the handler; with
   * a readable identity the answer is that user's email, otherwise 401.
   */
  function GetMe(identity: Option<string>): (r: Result<Response>)
    ensures r.Ok? <==> identity.Some? && Decode(identity.value).Some?
    ensures r.Ok? ==> r.value == Response(OK, JsonBody(EmailJson(Decode(identity.value).value.email)))
    ensures r.Err? ==> r.error == Unauthorized
  {
    match ExtractLoggedUser(identity)
    case Ok(loggedUser) => Ok(Response(OK, JsonBody(EmailJson(loggedUser.email))))
    case Err(e) => Err(e)
  }

  /**
   * After a successful login the session's identity is recognised: `GET
   * /auth` answers with the email the user logged in with, and the
   * logged-user lookup gives back the stored user's slim form.
   */
  lemma LoginThenGetMe(rows: seq<User>, data: AuthData, h: Hasher)
    requires LoginDecision(rows, data, h).Ok?
    ensures GetMe(Some(Encode(LoginDecision(rows, data, h).value))) == Ok(Response(OK, JsonBody(EmailJson(data.email))))
    ensures GetLoggedUser(Some(Encode(LoginDecision(rows, data, h).value))) == Ok(LoginDecision(rows, data, h).value)
  {
    var u := LoginDecision(rows, data, h).value;
    LoggedUserOfIssued(u);
  }
}
