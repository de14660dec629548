/**
 * Checking a username and password against the repository and issuing a
 * signed session token. Signing is a parameter: its internals are not part
 * of this model. The clock is a parameter too, in milliseconds since the
 * epoch, as `Date.now()` reports it.
 */
module Credentials {
  import opened Wrappers
  import opened Accounts

  const UnknownUserMessage := "Could not find username."
  const WrongPasswordMessage := "Incorrect password."

  /** A token is valid for sixty minutes. */
  const TokenLifetimeSeconds := 60 * 60

  /** The claims a session token carries. */
  datatype Payload = Payload(username: string, exp: int)

  /** What a successful check hands back: the claims and their signed form. */
  datatype Session = Session(payload: Payload, token: string)

  /** Whole seconds since the epoch, rounded down (`Math.floor(now / 1000)`). */
  function EpochSeconds(nowMs: int): (s: int)
    ensures s * 1000 <= nowMs < (s + 1) * 1000
  {
    nowMs / 1000
  }

  /** The expiry claim: the current second plus one token lifetime. */
  function Expiry(nowMs: int): (exp: int)
    ensures (exp - TokenLifetimeSeconds) * 1000 <= nowMs < (exp - TokenLifetimeSeconds + 1) * 1000
  {
    EpochSeconds(nowMs) + TokenLifetimeSeconds
  }

  /** A later clock never yields an earlier expiry. */
  lemma ExpiryMonotone(a: int, b: int)
    requires a <= b
    ensures Expiry(a) <= Expiry(b)
  {
  }

  /** `checkAuthCredentials`: the username must be known, then the stored
      password must equal the given one exactly; only then is a token signed. */
  function CheckAuthCredentials(
    repo: Repo, username: string, password: string, nowMs: int,
    sign: Payload -> string): (r: Result<Session, string>)
    ensures r.Success? <==> username in repo && repo[username].password == password
    ensures r == Failure(UnknownUserMessage) <==> username !in repo
    ensures r == Failure(WrongPasswordMessage) <==> username in repo && repo[username].password != password
    ensures r.Success? ==> r.value.payload.username == username
    ensures r.Success? ==> (r.value.payload.exp - TokenLifetimeSeconds) * 1000 <= nowMs
    ensures r.Success? ==> nowMs < (r.value.payload.exp - TokenLifetimeSeconds + 1) * 1000
    ensures r.Success? ==> r.value.token == sign(r.value.payload)
  {
    match FindByUsername(repo, username)
    case None => Failure(UnknownUserMessage)
    case Some(user) =>
      if user.password != password then Failure(WrongPasswordMessage)
      else
        var payload := Payload(username, Expiry(nowMs));
        Success(Session(payload, sign(payload)))
  }
}
