/**
 * Account creation: allocate a free username for the names, then insert the
 * account under it. The insert itself is the repository's business; whether
 * it succeeds is a parameter.
 */
module Creation {
  import opened Wrappers
  import opened Accounts
  import opened Allocator

  /** The message thrown when the repository refuses the insert. */
  const CreateFailedMessage := "An error occurred while creating the account."

  /** The username handed back and the repository after the insert. */
  datatype Created = Created(username: string, repo: Repo)

  /** `createAccount`: the allocated username, the stored account, or the
      insert's failure message. */
  function CreateAccount(
    repo: Repo, password: string, first_name: string, last_name: string, role: Role,
    insertSucceeds: bool): (r: Result<Created, string>)
    ensures r.Failure? <==> !insertSucceeds
    ensures r.Failure? ==> r.error == CreateFailedMessage
    ensures r.Success? ==> r.value.username == CheckAndCreateUsername(repo, first_name, last_name)
    ensures r.Success? ==> r.value.username !in repo
    ensures r.Success? ==> r.value.repo.Keys == repo.Keys + {r.value.username}
    ensures r.Success? ==>
      r.value.repo[r.value.username] == Account(r.value.username, password, first_name, last_name, role)
    ensures r.Success? ==> forall k :: k in repo ==> r.value.repo[k] == repo[k]
  {
    var username := CheckAndCreateUsername(repo, first_name, last_name);
    if insertSucceeds then
      Success(Created(username, repo[username := Account(username, password, first_name, last_name, role)]))
    else
      Failure(CreateFailedMessage)
  }

  /** A successful creation keeps every key naming its own account, adds
      exactly one account, and returns the username it stored. */
  lemma CreatePreservesWellFormed(
    repo: Repo, password: string, first_name: string, last_name: string, role: Role)
    requires WellFormed(repo)
    ensures var r := CreateAccount(repo, password, first_name, last_name, role, true);
      && r.Success?
      && WellFormed(r.value.repo)
      && |r.value.repo| == |repo| + 1
      && FindByUsername(r.value.repo, r.value.username).Some?
      && FindByUsername(r.value.repo, r.value.username).value.username == r.value.username
  {
    var r := CreateAccount(repo, password, first_name, last_name, role, true);
    var u := r.value.username;
    forall k | k in r.value.repo
      ensures r.value.repo[k].username == k
    {
      if k != u {
        assert k in repo;
      }
    }
  }
}
