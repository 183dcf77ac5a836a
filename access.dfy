/**
 * The identity checks of the handlers: the administrator gate, the
 * logged-user lookup, and the logged-user request extractor. Each one is
 * a case split over "no identity / identity that does not read as a slim
 * user / slim user with or without clearance".
 */
module Access {
  import opened Wrappers
  import opened Errors
  import opened Models
  import opened IdentityCodec

  const ONLY_ADMINS := "only admins can access this route"

  /** The administrator gate: its only success is `Ok(true)`. */
  function IsAdmin(identity: Option<string>): (r: Result<bool>)
    ensures identity.None? ==> r == Err(Unauthorized)
    ensures identity.Some? && Decode(identity.value).None? ==> r == Err(Unauthorized)
    ensures identity.Some? && Decode(identity.value).Some? ==>
              r == (if Decode(identity.value).value.clearance then Ok(true) else Err(BadRequest(ONLY_ADMINS)))
    ensures r.Ok? ==> r.value
  {
    if identity.None? then Err(Unauthorized)
    else
      match Decode(identity.value)
      case Some(u) => if !u.clearance then Err(BadRequest(ONLY_ADMINS)) else Ok(true)
      case None => Err(Unauthorized)
  }

  /** The logged user: no identity is Unauthorized, an unreadable one is an internal error. */
  function GetLoggedUser(identity: Option<string>): (r: Result<SlimUser>)
    ensures identity.None? <==> r == Err(Unauthorized)
    ensures identity.Some? && Decode(identity.value).None? <==> r == Err(InternalServerError)
    ensures r.Ok? <==> identity.Some? && Decode(identity.value).Some?
    ensures r.Ok? ==> Encode(r.value) == identity.value
  {
    match identity
    case Some(blob) =>
      (match Decode(blob)
       case Some(u) => Ok(u)
       case None => Err(InternalServerError))
    case None => Err(Unauthorized)
  }

  /**
   * The logged-user request extractor: succeeds exactly when an identity is
   * present and reads as a slim user, and is Unauthorized otherwise.
   */
  function ExtractLoggedUser(identity: Option<string>): (r: Result<SlimUser>)
    ensures r.Ok? <==> identity.Some? && Decode(identity.value).Some?
    ensures r.Ok? ==> Encode(r.value) == identity.value
    ensures r.Err? ==> r.error == Unauthorized
  {
    if identity.Some? && Decode(identity.value).Some? then Ok(Decode(identity.value).value)
    else Err(Unauthorized)
  }

  /** The extractor and the logged-user lookup agree except on the error an unreadable identity gives. */
  lemma ExtractAgreesWithLoggedUser(identity: Option<string>)
    ensures GetLoggedUser(identity).Ok? <==> ExtractLoggedUser(identity).Ok?
    ensures GetLoggedUser(identity).Ok? ==> GetLoggedUser(identity) == ExtractLoggedUser(identity)
    ensures identity.None? ==> GetLoggedUser(identity) == ExtractLoggedUser(identity)
  {
  }

  /** For the identity issued at login, the administrator gate passes exactly for administrators. */
  lemma IsAdminOfIssued(u: SlimUser)
    ensures IsAdmin(Some(Encode(u))) == (if u.clearance then Ok(true) else Err(BadRequest(ONLY_ADMINS)))
  {
    DecodeEncode(u);
  }

  /** For the identity issued at login, both lookups give back the user that logged in. */
  lemma LoggedUserOfIssued(u: SlimUser)
    ensures GetLoggedUser(Some(Encode(u))) == Ok(u)
    ensures ExtractLoggedUser(Some(Encode(u))) == Ok(u)
  {
    DecodeEncode(u);
  }
}
