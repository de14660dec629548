/**
 * The two middlewares in front of account creation: the session resolver,
 * which turns the `token` cookie into an identity, and the role guard, which
 * turns students away. Token verification is a parameter; the downstream
 * handler is a parameter `next` that either completes with an outcome or
 * throws.
 */
module Middleware {
  import opened Wrappers
  import opened Accounts
  import opened Http

  /** What token verification reports: the `username` claim of a token it
      accepts, or the message of the error it throws. */
  datatype Verification = Verified(username: string) | Rejected(reason: string)

  const NotLoggedInMessage := "You need to be logged in to do that."
  const UnauthorizedMessage := "Unauthorized"
  const SessionMissingMessage := "Could not find your session."
  const StudentForbiddenMessage := "You are unauthorized to create an account."
  const RoleCheckFailedMessage := "Unauthorized."

  /** The resolver's decision: a 401 with a message, or go on with an identity. */
  datatype Decision = Reject(message: string) | Proceed(identity: Identity)

  /** A finished request: the response and the repository it leaves behind. */
  datatype Outcome = Outcome(response: Response, repo: Repo)

  /** How a downstream handler ends: with an outcome, or by throwing. */
  datatype Completion = Completed(outcome: Outcome) | Threw(message: string)

  /** The decision part of `verifyTokenFromCookie`: token present, token
      verified, account found, in that order. */
  function ResolveSession(repo: Repo, jar: Option<string>, verify: string -> Verification): (d: Decision)
    ensures d == Reject(NotLoggedInMessage) <==> !HasToken(jar)
    ensures d == Reject(UnauthorizedMessage) <==> HasToken(jar) && verify(jar.value).Rejected?
    ensures d == Reject(SessionMissingMessage) <==>
      HasToken(jar) && verify(jar.value).Verified? && verify(jar.value).username !in repo
    ensures d.Proceed? <==>
      HasToken(jar) && verify(jar.value).Verified? && verify(jar.value).username in repo
    ensures d.Proceed? ==> d.identity == Project(repo[verify(jar.value).username])
  {
    if !HasToken(jar) then Reject(NotLoggedInMessage)
    else
      match verify(jar.value)
      case Rejected(_) => Reject(UnauthorizedMessage)
      case Verified(username) =>
        match FindByUsername(repo, username)
        case None => Reject(SessionMissingMessage)
        case Some(user) => Proceed(Project(user))
  }

  /** In a well-formed repository the identity attached is the account the
      token names, with every field but the password. */
  lemma ResolvedIdentityIsTokenOwner(repo: Repo, jar: Option<string>, verify: string -> Verification)
    requires WellFormed(repo)
    requires ResolveSession(repo, jar, verify).Proceed?
    ensures var id := ResolveSession(repo, jar, verify).identity;
      && id.username == verify(jar.value).username
      && exists a :: a in repo.Values && Project(a) == id && a.username == id.username
  {
    var a := repo[verify(jar.value).username];
    assert a in repo.Values;
  }

  /** `verifyTokenFromCookie` around a downstream handler. A rejected session
      answers 401 without running the handler; a handler that throws is caught
      and answered with 401 `Unauthorized`. */
  function VerifyTokenFromCookie(
    repo: Repo, jar: Option<string>, verify: string -> Verification,
    next: Identity -> Completion): (o: Outcome)
    ensures !ResolveSession(repo, jar, verify).Proceed? ==>
      && o.repo == repo
      && o.response == Reply(401, ResolveSession(repo, jar, verify).message)
    ensures ResolveSession(repo, jar, verify).Proceed? ==>
      var id := ResolveSession(repo, jar, verify).identity;
      && (next(id).Completed? ==> o == next(id).outcome)
      && (next(id).Threw? ==> o == Outcome(Reply(401, UnauthorizedMessage), repo))
    ensures o.repo != repo ==> ResolveSession(repo, jar, verify).Proceed?
  {
    match ResolveSession(repo, jar, verify)
    case Reject(message) => Outcome(Reply(401, message), repo)
    case Proceed(identity) =>
      match next(identity)
      case Completed(outcome) => outcome
      case Threw(_) => Outcome(Reply(401, UnauthorizedMessage), repo)
  }

  /** `checkRole`. Without an identity, reading its role throws and the catch
      answers 401 `Unauthorized.`; a student is refused; anyone else goes on
      with the identity unchanged, and a throw further down is caught the
      same way. */
  function CheckRole(repo: Repo, user: Option<Identity>, next: Identity -> Completion): (o: Outcome)
    ensures user.None? ==> o == Outcome(Reply(401, RoleCheckFailedMessage), repo)
    ensures user.Some? && user.value.role == STUDENT ==>
      o == Outcome(Reply(401, StudentForbiddenMessage), repo)
    ensures user.Some? && user.value.role != STUDENT && next(user.value).Completed? ==>
      o == next(user.value).outcome
    ensures user.Some? && user.value.role != STUDENT && next(user.value).Threw? ==>
      o == Outcome(Reply(401, RoleCheckFailedMessage), repo)
  {
    match user
    case None => Outcome(Reply(401, RoleCheckFailedMessage), repo)
    case Some(identity) =>
      if identity.role == STUDENT then Outcome(Reply(401, StudentForbiddenMessage), repo)
      else
        match next(identity)
        case Completed(outcome) => outcome
        case Threw(_) => Outcome(Reply(401, RoleCheckFailedMessage), repo)
  }
}
