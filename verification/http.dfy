/**
 * The parts of an HTTP exchange the authentication routes decide: the
 * status, the JSON body and what happens to the `token` cookie.
 */
module Http {
  import opened Wrappers
  import opened Accounts

  /** A JSON body: a `{ message }` object, an identity, or `null`. */
  datatype Body = Message(text: string) | IdentityBody(identity: Identity) | NullBody

  /** What a response does to the `token` cookie. */
  datatype CookieChange = Keep | SetToken(token: string, maxAgeSeconds: nat) | Clear

  datatype Response = Response(status: nat, body: Body, cookie: CookieChange)

  /** A `{ message }` response that leaves the cookie alone. */
  function Reply(status: nat, message: string): Response {
    Response(status, Message(message), Keep)
  }

  /** The browser's `token` cookie after it receives a response. */
  function ApplyCookie(jar: Option<string>, change: CookieChange): (r: Option<string>)
    ensures HasToken(r) <==>
      (change.SetToken? && change.token != "") || (change.Keep? && HasToken(jar))
  {
    match change
    case Keep => jar
    case SetToken(token, _) => Some(token)
    case Clear => None
  }

  /** `getCookie` followed by the truthiness test: an empty cookie counts as no token. */
  predicate HasToken(jar: Option<string>) {
    jar.Some? && jar.value != ""
  }
}
