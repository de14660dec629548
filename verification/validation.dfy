/**
 * The request-body schemas of login and account creation. A schema runs
 * every field check in field order and collects the message of each failing
 * check; a route answers 400 with those messages joined by single spaces.
 */
module Validation {
  import opened Wrappers
  import opened Text
  import opened Accounts

  const UsernameRequired := "Username is required."
  const PasswordRequired := "Password is required."
  const FirstNameRequired := "First name is required."
  const LastNameRequired := "Last name is required."
  const RoleRequired := "Role is required."
  const RoleInvalid := "Invalid role value."

  /** One field check: whether it passed and the message it reports otherwise. */
  datatype Check = Check(ok: bool, message: string)

  /** The messages of the failing checks, in check order. */
  function Issues(checks: seq<Check>): (r: seq<string>)
    ensures |r| <= |checks|
    ensures |r| == 0 <==> forall i :: 0 <= i < |checks| ==> checks[i].ok
  {
    if |checks| == 0 then []
    else (if checks[0].ok then [] else [checks[0].message]) + Issues(checks[1..])
  }

  /** A message is reported exactly when some check carrying it fails. */
  lemma {:induction false} IssuesMember(checks: seq<Check>, m: string)
    ensures m in Issues(checks) <==> exists i :: 0 <= i < |checks| && !checks[i].ok && checks[i].message == m
  {
    if |checks| > 0 {
      IssuesMember(checks[1..], m);
      if exists i :: 0 <= i < |checks| && !checks[i].ok && checks[i].message == m {
        var i :| 0 <= i < |checks| && !checks[i].ok && checks[i].message == m;
        if i > 0 {
          assert checks[1..][i - 1] == checks[i];
        }
      }
      if exists i :: 0 <= i < |checks[1..]| && !checks[1..][i].ok && checks[1..][i].message == m {
        var i :| 0 <= i < |checks[1..]| && !checks[1..][i].ok && checks[1..][i].message == m;
        assert checks[i + 1] == checks[1..][i];
      }
    }
  }

  /** A message carried by a single check is reported exactly when that check fails. */
  lemma IssuesUnique(checks: seq<Check>, i: nat)
    requires i < |checks|
    requires forall j :: 0 <= j < |checks| && j != i ==> checks[j].message != checks[i].message
    ensures checks[i].message in Issues(checks) <==> !checks[i].ok
  {
    IssuesMember(checks, checks[i].message);
  }

  /** Reports keep check order: the issues of a later block of checks come
      after those of an earlier one. */
  lemma {:induction false} IssuesAppend(a: seq<Check>, b: seq<Check>)
    ensures Issues(a + b) == Issues(a) + Issues(b)
  {
    if |a| == 0 {
      assert a + b == b;
    } else {
      assert (a + b)[1..] == a[1..] + b;
      IssuesAppend(a[1..], b);
    }
  }

  /** The validated login body. */
  datatype LoginBody = LoginBody(username: string, password: string)

  /** The validated account-creation body; the role is already upper-cased and recognised. */
  datatype CreationBody = CreationBody(password: string, first_name: string, last_name: string, role: Role)

  /** The checks of `credentialsSchema`: both fields are non-empty. */
  function CredentialChecks(username: string, password: string): seq<Check> {
    [Check(0 < |username|, UsernameRequired), Check(0 < |password|, PasswordRequired)]
  }

  /** `credentialsSchema.safeParse` followed by the route's joining of issue messages. */
  function ValidateCredentials(username: string, password: string): (r: Result<LoginBody, string>)
    ensures r.Success? <==> 0 < |username| && 0 < |password|
    ensures r.Success? ==> r.value == LoginBody(username, password)
    ensures r.Failure? ==> r.error == Join(Issues(CredentialChecks(username, password)), " ")
  {
    var checks := CredentialChecks(username, password);
    var issues := Issues(checks);
    if |issues| == 0 then
      assert checks[0].ok && checks[1].ok;
      Success(LoginBody(username, password))
    else Failure(Join(issues, " "))
  }

  /** The four login outcomes spelled out: each empty field contributes its
      message, username first. */
  lemma CredentialMessages(username: string, password: string)
    ensures |username| == 0 && |password| == 0 ==>
      ValidateCredentials(username, password) == Failure(UsernameRequired + " " + PasswordRequired)
    ensures |username| == 0 && 0 < |password| ==>
      ValidateCredentials(username, password) == Failure(UsernameRequired)
    ensures 0 < |username| && |password| == 0 ==>
      ValidateCredentials(username, password) == Failure(PasswordRequired)
  {
    var checks := CredentialChecks(username, password);
    assert checks[1..] == [checks[1]];
    assert Issues([checks[1]]) == (if checks[1].ok then [] else [PasswordRequired]);
    JoinPair(UsernameRequired, PasswordRequired, " ");
  }

  /** The role check: absent, not a role once upper-cased, or recognised. */
  function RoleChecks(role: Option<string>): seq<Check> {
    match role
    case None => [Check(false, RoleRequired)]
    case Some(s) => [Check(ParseRole(s).Some?, RoleInvalid)]
  }

  /** The checks of the name and password fields of `accountCreationSchema`, in field order. */
  function FieldChecks(password: string, first_name: string, last_name: string): seq<Check> {
    [ Check(0 < |password|, PasswordRequired),
      Check(0 < |first_name|, FirstNameRequired),
      Check(0 < |last_name|, LastNameRequired) ]
  }

  /** All checks of `accountCreationSchema`: the fields, then the role. */
  function CreationChecks(password: string, first_name: string, last_name: string, role: Option<string>): seq<Check> {
    FieldChecks(password, first_name, last_name) + RoleChecks(role)
  }

  /** `accountCreationSchema.safeParse` followed by the route's joining of issue messages. */
  function ValidateCreation(password: string, first_name: string, last_name: string, role: Option<string>):
    (r: Result<CreationBody, string>)
    ensures r.Success? <==>
      0 < |password| && 0 < |first_name| && 0 < |last_name| && role.Some? && ParseRole(role.value).Some?
    ensures r.Success? ==>
      && r.value.password == password && r.value.first_name == first_name && r.value.last_name == last_name
      && RoleName(r.value.role) == ToUpper(role.value)
    ensures r.Failure? ==> r.error == Join(Issues(CreationChecks(password, first_name, last_name, role)), " ")
  {
    var checks := CreationChecks(password, first_name, last_name, role);
    var issues := Issues(checks);
    if |issues| == 0 then
      assert checks[0].ok && checks[1].ok && checks[2].ok;
      assert checks[3] == RoleChecks(role)[0] && checks[3].ok;
      Success(CreationBody(password, first_name, last_name, ParseRole(role.value).value))
    else Failure(Join(issues, " "))
  }

  /** Which messages a failed creation reports: each one exactly when its
      field fails, the role reporting at most one of its two. */
  lemma CreationIssues(password: string, first_name: string, last_name: string, role: Option<string>)
    ensures var issues := Issues(CreationChecks(password, first_name, last_name, role));
      && (PasswordRequired in issues <==> |password| == 0)
      && (FirstNameRequired in issues <==> |first_name| == 0)
      && (LastNameRequired in issues <==> |last_name| == 0)
      && (RoleRequired in issues <==> role.None?)
      && (RoleInvalid in issues <==> role.Some? && ParseRole(role.value).None?)
  {
    var checks := CreationChecks(password, first_name, last_name, role);
    assert |checks| == 4 && checks[3] == RoleChecks(role)[0];
    assert checks[0].message == PasswordRequired && checks[1].message == FirstNameRequired;
    assert checks[2].message == LastNameRequired;
    assert |PasswordRequired| == 21 && |FirstNameRequired| == 23 && |LastNameRequired| == 22;
    assert |RoleRequired| == 17 && |RoleInvalid| == 19;
    IssuesUnique(checks, 0);
    IssuesUnique(checks, 1);
    IssuesUnique(checks, 2);
    IssuesUnique(checks, 3);
    if role.Some? {
      IssuesMember(checks, RoleRequired);
    } else {
      IssuesMember(checks, RoleInvalid);
    }
  }

  /** The role reports at most one issue, and reports it after every field issue. */
  lemma CreationIssuesOrder(password: string, first_name: string, last_name: string, role: Option<string>)
    ensures var issues := Issues(CreationChecks(password, first_name, last_name, role));
      var roleIssues := Issues(RoleChecks(role));
      && |roleIssues| <= 1
      && |roleIssues| <= |issues|
      && issues[|issues| - |roleIssues|..] == roleIssues
      && forall i :: 0 <= i < |issues| - |roleIssues| ==> issues[i] != RoleRequired && issues[i] != RoleInvalid
  {
    var fields := FieldChecks(password, first_name, last_name);
    IssuesAppend(fields, RoleChecks(role));
    var fieldIssues := Issues(fields);
    forall i | 0 <= i < |fieldIssues|
      ensures fieldIssues[i] != RoleRequired && fieldIssues[i] != RoleInvalid
    {
      IssuesMember(fields, fieldIssues[i]);
    }
  }
}
