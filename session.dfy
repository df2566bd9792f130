/**
  Session issuer: `jwt.sign({ id, username }, secret, { expiresIn: '7d' })`.
  The token is the claims it carries; `iat` is the issue instant in whole seconds and
  `exp` is `iat` plus seven days.
 */
module Session {

  /** Seven days in seconds, the value of `expiresIn: '7d'`. */
  const SevenDaysSec := 7 * 24 * 60 * 60

  datatype Token = Token(id: nat, username: string, issuedAt: int, expiresAt: int)

  /** Signs a token for (id, username) at the instant `nowMs` (milliseconds). */
  function IssueToken(id: nat, username: string, nowMs: int): (t: Token)
    ensures t.id == id && t.username == username
    ensures t.issuedAt * 1000 <= nowMs < t.issuedAt * 1000 + 1000
    ensures 604799000 < t.expiresAt * 1000 - nowMs <= 604800000
  {
    var iat := nowMs / 1000;
    Token(id, username, iat, iat + SevenDaysSec)
  }
}
