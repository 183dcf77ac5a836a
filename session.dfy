/**
 * The session identity carried by the identity cookie: absent, or an
 * identity blob. Handlers set it with `Remember` and clear it with
 * `Forget`.
 */
module Sessions {
  import opened Wrappers

  class Session {
    var identity: Option<string>

    constructor (identity: Option<string>)
      ensures this.identity == identity
    {
      this.identity := identity;
    }

    method Remember(blob: string)
      modifies this
      ensures identity == Some(blob)
    {
      identity := Some(blob);
    }

    method Forget()
      modifies this
      ensures identity == None
    {
      identity := None;
    }
  }
}
