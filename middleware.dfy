/**
 * The authentication gate in front of every handler. Registration and
 * login (`POST /users`, `POST /auth`) pass without an identity; any
 * request with an identity passes with `user_email` and `user_clearance`
 * headers attached; every other request is answered 401 without reaching
 * the handler. An identity that does not read as a slim user, or whose
 * email is not a legal header value, aborts the request.
 */
module Middleware {
  import opened Wrappers
  import opened Http
  import opened Models
  import opened IdentityCodec

  const USER_EMAIL := "user_email"
  const USER_CLEARANCE := "user_clearance"
  const ADMIN := "admin"
  const NON_ADMIN := "non_admin"

  /** The fixed answer to a request that may not pass. */
  const REJECTION := Response(UNAUTHORIZED, JsonBody(JObj([("error", JStr("Unauthorized")), ("msg", JStr("please login"))])))

  /** Why a request was aborted: an unwrap of a failed parse. */
  datatype Panic = IdentityNotSlimUser | EmailNotHeaderValue

  /** The gate's decision: forward to the handler, answer in its place, or abort. */
  datatype Decision = PassThrough | Reject(response: Response) | Abort(reason: Panic)

  /** The requests that need no identity: registration and login. */
  predicate AllowListed(path: string, verb: string) {
    (path == "/users" && verb == "POST") || (path == "/auth" && verb == "POST")
  }

  /** A character a header value may hold: tab, or anything visible from space up except DEL. */
  predicate HeaderValueChar(c: char) {
    c == '\t' || (' ' <= c && c as int != 0x7F)
  }

  predicate IsHeaderValue(s: string) {
    forall i :: 0 <= i < |s| ==> HeaderValueChar(s[i])
  }

  /** The clearance header's value for a privilege flag. */
  function ClearanceValue(clearance: bool): (v: string)
    ensures v == ADMIN <==> clearance
    ensures v == ADMIN || v == NON_ADMIN
  {
    if clearance then ADMIN else NON_ADMIN
  }

  /**
   * The gate's decision: a request reaches the handler exactly when it is
   * allow-listed or carries an identity, unless that identity cannot be
   * read; only a request with neither is rejected, always with the same
   * 401 answer.
   */
  function Gate(path: string, verb: string, identity: Option<string>): (d: Decision)
    ensures d.PassThrough? <==>
              (AllowListed(path, verb) || identity.Some?) &&
              (identity.Some? ==> Decode(identity.value).Some? && IsHeaderValue(Decode(identity.value).value.email))
    ensures d.Reject? <==> !AllowListed(path, verb) && identity.None?
    ensures d.Reject? ==> d.response == REJECTION
    ensures d.Abort? ==> identity.Some?
  {
    match identity
    case Some(blob) =>
      (match Decode(blob)
       case None => Abort(IdentityNotSlimUser)
       case Some(user) => if IsHeaderValue(user.email) then PassThrough else Abort(EmailNotHeaderValue))
    case None => if AllowListed(path, verb) then PassThrough else Reject(REJECTION)
  }

  /**
   * The request headers after the gate: with a readable identity, the
   * email and clearance headers replace whatever the client sent under
   * those names; otherwise the headers are as they came.
   */
  function Attached(headers: map<string, string>, identity: Option<string>): (h: map<string, string>)
    ensures identity.Some? && Decode(identity.value).Some? && IsHeaderValue(Decode(identity.value).value.email) ==>
              h.Keys == headers.Keys + {USER_EMAIL, USER_CLEARANCE} &&
              h[USER_EMAIL] == Decode(identity.value).value.email &&
              h[USER_CLEARANCE] == ClearanceValue(Decode(identity.value).value.clearance) &&
              forall k :: k in headers && k != USER_EMAIL && k != USER_CLEARANCE ==> h[k] == headers[k]
    ensures !(identity.Some? && Decode(identity.value).Some? && IsHeaderValue(Decode(identity.value).value.email)) ==>
              h == headers
  {
    if identity.Some? && Decode(identity.value).Some? && IsHeaderValue(Decode(identity.value).value.email) then
      var user := Decode(identity.value).value;
      headers[USER_EMAIL := user.email][USER_CLEARANCE := ClearanceValue(user.clearance)]
    else
      headers
  }

  /** A request as the gate sees it: where it goes, the session identity, and its mutable headers. */
  class ServiceRequest {
    const path: string
    const verb: string
    const identity: Option<string>
    var headers: map<string, string>

    constructor (path: string, verb: string, identity: Option<string>, headers: map<string, string>)
      ensures this.path == path && this.verb == verb && this.identity == identity && this.headers == headers
    {
      this.path := path;
      this.verb := verb;
      this.identity := identity;
      this.headers := headers;
    }
  }

  /** The gate's `call`: decides on the request and attaches the identity headers in place. */
  method Call(req: ServiceRequest) returns (d: Decision)
    modifies req
    ensures d == Gate(req.path, req.verb, req.identity)
    ensures req.headers == Attached(old(req.headers), req.identity)
  {
    var tokenVerified := false;
    if (req.path == "/users" && req.verb == "POST") || (req.path == "/auth" && req.verb == "POST") {
      tokenVerified := true;
    }
    if req.identity.Some? {
      var user := Decode(req.identity.value);
      if user.None? {
        return Abort(IdentityNotSlimUser);
      }
      if !IsHeaderValue(user.value.email) {
        return Abort(EmailNotHeaderValue);
      }
      req.headers := req.headers[USER_EMAIL := user.value.email];
      var userType := if user.value.clearance then ADMIN else NON_ADMIN;
      req.headers := req.headers[USER_CLEARANCE := userType];
      tokenVerified := true;
    }
    if tokenVerified {
      d := PassThrough;
    } else {
      d := Reject(REJECTION);
    }
  }

  /**
   * An identity issued at login (with a header-safe email) passes on any
   * path and method, and the handler sees that user's email and clearance.
   */
  lemma IssuedIdentityPasses(path: string, verb: string, u: SlimUser, headers: map<string, string>)
    requires IsHeaderValue(u.email)
    ensures Gate(path, verb, Some(Encode(u))) == PassThrough
    ensures Attached(headers, Some(Encode(u)))[USER_EMAIL] == u.email
    ensures Attached(headers, Some(Encode(u)))[USER_CLEARANCE] == ClearanceValue(u.clearance)
  {
    DecodeEncode(u);
  }

  /**
   * A request that reaches a handler other than registration and login
   * always carries the gate's own identity headers, never client-supplied
   * ones under those names.
   */
  lemma ForwardedCarriesIdentity(path: string, verb: string, identity: Option<string>, headers: map<string, string>)
    requires Gate(path, verb, identity).PassThrough? && !AllowListed(path, verb)
    ensures identity.Some? && Decode(identity.value).Some?
    ensures Attached(headers, identity)[USER_EMAIL] == Decode(identity.value).value.email
    ensures Attached(headers, identity)[USER_CLEARANCE] == ClearanceValue(Decode(identity.value).value.clearance)
  {
  }
}
