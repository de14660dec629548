/**
 * The authentication routes as functions from a request to a response (and,
 * for account creation, the repository afterwards): `POST /login`,
 * `POST /create_account` behind the session resolver and the role guard,
 * `GET /me` and `GET /logout`.
 */
module Routes {
  import opened Wrappers
  import opened Text
  import opened Accounts
  import opened Allocator
  import opened Creation
  import opened Credentials
  import opened Http
  import opened Middleware
  import opened Validation

  const LoggedInMessage := "Logged in successfully!"
  const LoggedOutMessage := "Logged out successfully!"
  const NotSignedInMessage := "You are not signed in."
  const CreatedPrefix := "Account created successfully with username: "

  /** The lifetime of the `token` cookie set at login: one day. */
  const CookieMaxAgeSeconds := 86400

  /** `POST /login`: validate the body, check the credentials, set the token cookie. */
  function Login(repo: Repo, username: string, password: string, nowMs: int, sign: Payload -> string):
    (resp: Response)
    ensures resp.status == 400 <==> |username| == 0 || |password| == 0
    ensures resp.status == 400 ==> resp.body == Message(ValidateCredentials(username, password).error)
    ensures resp.status == 200 <==>
      0 < |username| && 0 < |password| && username in repo && repo[username].password == password
    ensures resp.status == 200 ==> resp == Response(
      200, Message(LoggedInMessage),
      SetToken(sign(Payload(username, Expiry(nowMs))), CookieMaxAgeSeconds))
    ensures resp.status == 401 ==> resp == Reply(401, UnknownUserMessage) || resp == Reply(401, WrongPasswordMessage)
    ensures 0 < |username| && 0 < |password| && username !in repo ==> resp == Reply(401, UnknownUserMessage)
    ensures 0 < |username| && 0 < |password| && username in repo && repo[username].password != password ==>
      resp == Reply(401, WrongPasswordMessage)
    ensures resp.status == 200 || resp.status == 400 || resp.status == 401
    ensures resp.cookie != Keep ==> resp.status == 200
  {
    match ValidateCredentials(username, password)
    case Failure(message) => Reply(400, message)
    case Success(creds) =>
      match CheckAuthCredentials(repo, creds.username, creds.password, nowMs, sign)
      case Failure(message) => Reply(401, message)
      case Success(session) => Response(200, Message(LoggedInMessage), SetToken(session.token, CookieMaxAgeSeconds))
  }

  /** The handler at the end of `POST /create_account`: validate the body,
      create the account, report the username. */
  function CreateHandler(
    repo: Repo, password: string, first_name: string, last_name: string, role: Option<string>,
    insertSucceeds: bool): (o: Outcome)
    ensures o.response.status == 200 <==> ValidateCreation(password, first_name, last_name, role).Success? && insertSucceeds
    ensures o.response.status != 200 ==> o.repo == repo
    ensures o.response.status == 400 <==> ValidateCreation(password, first_name, last_name, role).Failure?
    ensures o.response.status == 400 ==> o.response == Reply(400, ValidateCreation(password, first_name, last_name, role).error)
    ensures o.response.status == 401 ==> o.response == Reply(401, CreateFailedMessage)
    ensures ValidateCreation(password, first_name, last_name, role).Success? && !insertSucceeds ==>
      o == Outcome(Reply(401, CreateFailedMessage), repo)
    ensures o.response.status == 200 ==>
      && o.response.body.Message?
      && CreatedPrefix <= o.response.body.text
      && var username := o.response.body.text[|CreatedPrefix|..];
      && o.response == Reply(200, CreatedPrefix + username)
      && username == CheckAndCreateUsername(repo, first_name, last_name)
      && username !in repo
      && o.repo.Keys == repo.Keys + {username}
      && (forall k :: k in repo ==> o.repo[k] == repo[k])
      && o.repo[username].username == username
      && o.repo[username].password == password
      && o.repo[username].first_name == first_name
      && o.repo[username].last_name == last_name
      && RoleName(o.repo[username].role) == ToUpper(role.value)
  {
    match ValidateCreation(password, first_name, last_name, role)
    case Failure(message) => Outcome(Reply(400, message), repo)
    case Success(data) =>
      match CreateAccount(repo, data.password, data.first_name, data.last_name, data.role, insertSucceeds)
      case Failure(message) => Outcome(Reply(401, message), repo)
      case Success(created) =>
        assert (CreatedPrefix + created.username)[|CreatedPrefix|..] == created.username;
        Outcome(Reply(200, CreatedPrefix + created.username), created.repo)
  }

  /** `POST /create_account`: the session resolver, then the role guard with
      the identity the resolver attached, then the handler. */
  function CreateAccountRoute(
    repo: Repo, jar: Option<string>, verify: string -> Verification,
    password: string, first_name: string, last_name: string, role: Option<string>,
    insertSucceeds: bool): (o: Outcome)
    ensures o.response.status == 200 <==>
      && ResolveSession(repo, jar, verify).Proceed?
      && ResolveSession(repo, jar, verify).identity.role != STUDENT
      && ValidateCreation(password, first_name, last_name, role).Success?
      && insertSucceeds
    ensures o.response.status != 200 ==> o.repo == repo
    ensures ResolveSession(repo, jar, verify).Proceed? && ResolveSession(repo, jar, verify).identity.role != STUDENT ==>
      o == CreateHandler(repo, password, first_name, last_name, role, insertSucceeds)
  {
    var handler := (id: Identity) => Completed(CreateHandler(repo, password, first_name, last_name, role, insertSucceeds));
    var guarded := (id: Identity) => Completed(CheckRole(repo, Some(id), handler));
    VerifyTokenFromCookie(repo, jar, verify, guarded)
  }

  /** A signed-in student is always refused, and nothing is created. */
  lemma StudentCannotCreateAccount(
    repo: Repo, jar: Option<string>, verify: string -> Verification,
    password: string, first_name: string, last_name: string, role: Option<string>,
    insertSucceeds: bool)
    requires ResolveSession(repo, jar, verify).Proceed?
    requires ResolveSession(repo, jar, verify).identity.role == STUDENT
    ensures CreateAccountRoute(repo, jar, verify, password, first_name, last_name, role, insertSucceeds)
         == Outcome(Reply(401, StudentForbiddenMessage), repo)
  {
  }

  /** Without a usable session the request is refused with the resolver's own
      message, before the body is even looked at. */
  lemma SignedOutCannotCreateAccount(
    repo: Repo, jar: Option<string>, verify: string -> Verification,
    password: string, first_name: string, last_name: string, role: Option<string>,
    insertSucceeds: bool)
    requires !ResolveSession(repo, jar, verify).Proceed?
    ensures var o := CreateAccountRoute(repo, jar, verify, password, first_name, last_name, role, insertSucceeds);
      && o.repo == repo
      && o.response == Reply(401, ResolveSession(repo, jar, verify).message)
      && (o.response.body.text == NotLoggedInMessage || o.response.body.text == UnauthorizedMessage
          || o.response.body.text == SessionMissingMessage)
  {
  }

  /** For a request body that parses as JSON (parsing is outside this model),
      the guard on this route always receives an identity and the handler never
      throws, so neither catch-all `Unauthorized.` answer can occur. */
  lemma CreateAccountNeverFallsThrough(
    repo: Repo, jar: Option<string>, verify: string -> Verification,
    password: string, first_name: string, last_name: string, role: Option<string>,
    insertSucceeds: bool)
    ensures CreateAccountRoute(repo, jar, verify, password, first_name, last_name, role, insertSucceeds).response
         != Reply(401, RoleCheckFailedMessage)
  {
    var o := CreateAccountRoute(repo, jar, verify, password, first_name, last_name, role, insertSucceeds);
    var d := ResolveSession(repo, jar, verify);
    if d.Proceed? && d.identity.role != STUDENT {
      var h := CreateHandler(repo, password, first_name, last_name, role, insertSucceeds);
      assert o == h;
      if h.response.status == 400 {
        var v := ValidateCreation(password, first_name, last_name, role);
        CreationIssuesAreMessages(password, first_name, last_name, role);
        assert h.response.body.text == v.error;
      }
    }
  }

  /** A failed account-creation validation never reads `Unauthorized.`: the
      joined text starts with one of the schema's own messages. */
  lemma CreationIssuesAreMessages(password: string, first_name: string, last_name: string, role: Option<string>)
    requires ValidateCreation(password, first_name, last_name, role).Failure?
    ensures ValidateCreation(password, first_name, last_name, role).error != RoleCheckFailedMessage
  {
    var checks := CreationChecks(password, first_name, last_name, role);
    var issues := Issues(checks);
    var m := issues[0];
    IssuesMember(checks, m);
    var i :| 0 <= i < |checks| && !checks[i].ok && checks[i].message == m;
    assert checks[3] == RoleChecks(role)[0];
    assert m[0] != RoleCheckFailedMessage[0];
  }

  /** `GET /me`: the account behind the token, `null` if the account is gone,
      or 401 with the verification error. */
  function Me(repo: Repo, jar: Option<string>, verify: string -> Verification): (resp: Response)
    ensures resp.cookie == Keep
    ensures !HasToken(jar) ==> resp == Reply(401, NotSignedInMessage)
    ensures resp.status == 200 <==> HasToken(jar) && verify(jar.value).Verified?
    ensures HasToken(jar) && verify(jar.value).Rejected? ==> resp == Reply(401, verify(jar.value).reason)
    ensures resp.status == 200 ==>
      && (resp.body.NullBody? <==> verify(jar.value).username !in repo)
      && (resp.body.IdentityBody? ==> resp.body.identity == Project(repo[verify(jar.value).username]))
    ensures resp.status == 200 && verify(jar.value).username in repo ==>
      resp.body == IdentityBody(Project(repo[verify(jar.value).username]))
  {
    if !HasToken(jar) then Reply(401, NotSignedInMessage)
    else
      match verify(jar.value)
      case Rejected(reason) => Reply(401, reason)
      case Verified(username) =>
        match FindByUsername(repo, username)
        case None => Response(200, NullBody, Keep)
        case Some(user) => Response(200, IdentityBody(Project(user)), Keep)
  }

  /** `/me` and the session resolver agree on who is signed in: `/me` shows an
      identity exactly when the resolver would attach it, and shows `null`
      exactly when the resolver cannot find the session's account. */
  lemma MeAgreesWithResolver(repo: Repo, jar: Option<string>, verify: string -> Verification, id: Identity)
    ensures Me(repo, jar, verify) == Response(200, IdentityBody(id), Keep)
        <==> ResolveSession(repo, jar, verify) == Proceed(id)
    ensures Me(repo, jar, verify) == Response(200, NullBody, Keep)
        <==> ResolveSession(repo, jar, verify) == Reject(SessionMissingMessage)
  {
  }

  /** `GET /logout`: clear the token cookie. */
  function Logout(): (resp: Response)
    ensures resp.status == 200 && resp.cookie == Clear
    ensures resp == Response(200, Message(LoggedOutMessage), Clear)
  {
    Response(200, Message(LoggedOutMessage), Clear)
  }

  /** After logging out, `/me` reports that nobody is signed in. */
  lemma LogoutThenMe(repo: Repo, jar: Option<string>, verify: string -> Verification)
    ensures Me(repo, ApplyCookie(jar, Logout().cookie), verify) == Reply(401, NotSignedInMessage)
  {
  }

  /** After a successful login, and with a verifier that accepts exactly what
      the signer issues, `/me` shows the account that logged in. */
  lemma LoginThenMe(
    repo: Repo, username: string, password: string, nowMs: int,
    sign: Payload -> string, verify: string -> Verification, jar: Option<string>)
    requires forall p :: sign(p) != "" && verify(sign(p)) == Verified(p.username)
    requires Login(repo, username, password, nowMs, sign).status == 200
    ensures Me(repo, ApplyCookie(jar, Login(repo, username, password, nowMs, sign).cookie), verify)
         == Response(200, IdentityBody(Project(repo[username])), Keep)
  {
    var token := sign(Payload(username, Expiry(nowMs)));
    assert verify(token) == Verified(username);
  }

  /** A freshly created account can log in at once with the password it was
      created with, under the username the creation reported. */
  lemma CreateThenLogin(
    repo: Repo, password: string, first_name: string, last_name: string, role: Option<string>,
    nowMs: int, sign: Payload -> string)
    requires CreateHandler(repo, password, first_name, last_name, role, true).response.status == 200
    ensures var o := CreateHandler(repo, password, first_name, last_name, role, true);
      var username := o.response.body.text[|CreatedPrefix|..];
      Login(o.repo, username, password, nowMs, sign).status == 200
  {
    var o := CreateHandler(repo, password, first_name, last_name, role, true);
    var username := o.response.body.text[|CreatedPrefix|..];
    var seed := Seed(first_name, last_name);
    assert username == CheckAndCreateUsername(repo, first_name, last_name);
    assert username == seed || HasDigit(username);
    assert 0 < |username|;
  }
}
