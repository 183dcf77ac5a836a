/**
 * Password hashing. The Argon2 primitives themselves are not modelled:
 * a `Hasher` stands for them, keyed by the process-wide secret and the
 * fixed salt, with `None` for a library error. What is modelled is how
 * their outcomes become service outcomes.
 */
module Hashing {
  import opened Wrappers
  import opened Errors

  datatype Hasher = Hasher(
    hashEncoded: string -> Option<string>,
    verifyEncoded: (string, string) -> Option<bool>)

  /** A hash the hasher produced for a password verifies against that password. */
  ghost predicate Sound(h: Hasher) {
    forall p :: h.hashEncoded(p).Some? ==> h.verifyEncoded(h.hashEncoded(p).value, p) == Some(true)
  }

  /** The encoded hash of a password is never the password itself. */
  ghost predicate Hides(h: Hasher) {
    forall p :: h.hashEncoded(p) != Some(p)
  }

  /** Hashing a password; a library failure always surfaces as an internal error. */
  function HashPassword(h: Hasher, password: string): (r: Result<string>)
    ensures r.Ok? <==> h.hashEncoded(password).Some?
    ensures r.Ok? ==> Some(r.value) == h.hashEncoded(password)
    ensures r.Err? ==> r.error == InternalServerError
  {
    match h.hashEncoded(password)
    case Some(encoded) => Ok(encoded)
    case None => Err(InternalServerError)
  }

  /** Checking a password; a library failure surfaces as Unauthorized, never as a plain mismatch. */
  function VerifyHash(h: Hasher, hash: string, password: string): (r: Result<bool>)
    ensures r.Ok? <==> h.verifyEncoded(hash, password).Some?
    ensures r.Ok? ==> Some(r.value) == h.verifyEncoded(hash, password)
    ensures r.Err? ==> r.error == Unauthorized
  {
    match h.verifyEncoded(hash, password)
    case Some(matching) => Ok(matching)
    case None => Err(Unauthorized)
  }

  /** With a sound hasher, a password verifies against the hash made from it. */
  lemma VerifyOwnHash(h: Hasher, password: string)
    requires Sound(h)
    requires HashPassword(h, password).Ok?
    ensures VerifyHash(h, HashPassword(h, password).value, password) == Ok(true)
  {
    assert h.hashEncoded(password).Some?;
  }
}
