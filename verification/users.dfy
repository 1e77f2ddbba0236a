/** The user document kept by the credential store and the sanitized view
    of it that every successful authentication returns. */
module Users {

  /** Document identifiers. The store hands them out; in this model it
      draws them from a counter (see Auth.AuthService.nextId). */
  type UserId = nat

  /** An opaque signed bearer token. */
  type Token = string

  /** Only SUPERUSER is singled out by the authentication flow; every
      other role is represented by Regular. */
  datatype Role = Regular | SuperUser

  /** A stored user. `password` is the stored hash, `twoFactorSecret` the
      base32 TOTP secret ("" before enrolment), `isTOTP` whether two-factor
      authentication has been activated. */
  datatype User = User(
    id: UserId,
    email: string,
    username: string,
    password: string,
    role: Role,
    twoFactorSecret: string,
    isTOTP: bool,
    recoveryCodes: seq<string>)

  /** The claims signed into a token: the email and the `sub` claim of
      section 4.1.2 of RFC 7519, the user's id. */
  datatype Claims = Claims(email: string, sub: UserId)

  /** What an authenticating operation returns: the token plus every field
      of the user except the three secret ones. The type has no field that
      could carry a password, a TOTP secret or a recovery code. */
  datatype Authorized = Authorized(
    authorization: Token,
    id: UserId,
    email: string,
    username: string,
    role: Role,
    isTOTP: bool)

  /** The three fields the projection removes. */
  datatype Secrets = Secrets(password: string, twoFactorSecret: string, recoveryCodes: seq<string>)

  function SecretsOf(u: User): Secrets {
    Secrets(u.password, u.twoFactorSecret, u.recoveryCodes)
  }

  /** Puts a projection and the removed fields back together. */
  function Restore(a: Authorized, s: Secrets): User {
    User(a.id, a.email, a.username, s.password, a.role, s.twoFactorSecret, a.isTOTP, s.recoveryCodes)
  }

  /** The sanitized response: the token is signed over exactly the given
      email and the user's id, and the projection keeps every field except
      the secret ones, so that adding back precisely those three fields
      gives the stored record again. */
  function GenerateJWT(email: string, u: User, sign: Claims -> Token): (r: Authorized)
    ensures r.authorization == sign(Claims(email, u.id))
    ensures Restore(r, SecretsOf(u)) == u
  {
    Authorized(sign(Claims(email, u.id)), u.id, u.email, u.username, u.role, u.isTOTP)
  }

  /** The response does not depend on the secret fields at all: two records
      that differ only in password, TOTP secret and recovery codes give the
      same response. */
  lemma GenerateJWTHidesSecrets(email: string, u: User, s: Secrets, sign: Claims -> Token)
    ensures GenerateJWT(email, u, sign) == GenerateJWT(email, Restore(GenerateJWT(email, u, sign), s), sign)
  {
  }
}
