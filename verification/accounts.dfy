/**
 * Accounts, roles and the in-memory account repository that stands in for
 * the `account` table. Lookups by username are map lookups.
 */
module Accounts {
  import opened Wrappers
  import opened Text

  /** The `Role` enum. Only `STUDENT` is named by the authentication code. */
  datatype Role = STUDENT | INSTRUCTOR | ADMIN

  /** The string value of an enum member, as `Object.values(Role)` lists it. */
  function RoleName(role: Role): (name: string)
    ensures 0 < |name| && forall i :: 0 <= i < |name| ==> IsUpperLetter(name[i])
  {
    match role
    case STUDENT => "STUDENT"
    case INSTRUCTOR => "INSTRUCTOR"
    case ADMIN => "ADMIN"
  }

  /** Upper-case the input, then accept it only if it is the name of an enum member. */
  function ParseRole(s: string): (r: Option<Role>)
    ensures r.Some? ==> RoleName(r.value) == ToUpper(s)
    ensures r.None? ==> forall role: Role :: RoleName(role) != ToUpper(s)
  {
    var u := ToUpper(s);
    if u == RoleName(STUDENT) then Some(STUDENT)
    else if u == RoleName(INSTRUCTOR) then Some(INSTRUCTOR)
    else if u == RoleName(ADMIN) then Some(ADMIN)
    else None
  }

  /** Every role is recognised under its own name in any ASCII letter case. */
  lemma ParseRoleName(role: Role, s: string)
    requires ToUpper(s) == RoleName(role)
    ensures ParseRole(s) == Some(role)
  {
  }

  /** A stored account. The password is stored and compared as plain text. */
  datatype Account = Account(
    username: string,
    password: string,
    first_name: string,
    last_name: string,
    role: Role)

  /** The projection attached to a request after the session resolves; it has no password. */
  datatype Identity = Identity(
    username: string,
    role: Role,
    first_name: string,
    last_name: string)

  /** The `select` of username, role, first and last name. */
  function Project(a: Account): Identity {
    Identity(a.username, a.role, a.first_name, a.last_name)
  }

  /** The projection forgets the password and nothing else: two accounts
      project alike exactly when they agree on every other field. */
  lemma ProjectForgetsOnlyPassword(a: Account, b: Account)
    ensures Project(a) == Project(b) <==> a.(password := b.password) == b
  {
  }

  /** The account table, keyed by the unique username. */
  type Repo = map<string, Account>

  /** Every key is the username of the account stored under it. */
  ghost predicate WellFormed(repo: Repo) {
    forall k :: k in repo ==> repo[k].username == k
  }

  /** `findFirst({ where: { username } })`. */
  function FindByUsername(repo: Repo, username: string): (r: Option<Account>)
    ensures r.Some? ==> r.value in repo.Values
    ensures r.None? ==> forall k :: k in repo ==> k != username
    ensures WellFormed(repo) && r.Some? ==> r.value.username == username
  {
    if username in repo then Some(repo[username]) else None
  }

  /** The length of the longest username in the repository. */
  ghost function MaxLen(keys: set<string>): (m: nat)
    ensures forall k :: k in keys ==> |k| <= m
    decreases keys
  {
    if keys == {} then 0
    else
      var k :| k in keys;
      var rest := MaxLen(keys - {k});
      if |k| > rest then |k| else rest
  }
}
