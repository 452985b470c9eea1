/** The in-memory user store of the tests: a map from login to user. */
module UserRepoMock {
  import opened Wrappers
  import opened Model

  datatype MockUserRepo = MockUserRepo(users: map<string, User>)

  /** Some stored user has this UUID text. */
  predicate HasUuid(repo: MockUserRepo, id: string) {
    exists login :: login in repo.users && repo.users[login].uuid.text == id
  }

  /** `SaveNewUser`: refuses a login that is already a key; otherwise adds exactly that entry. */
  function SaveNewUser(repo: MockUserRepo, user: User): (r: Result<MockUserRepo, Error>)
    ensures r.Failure? <==> user.login in repo.users
    ensures r.Failure? ==> r.error == DuplicateLogin
    ensures r.Success? ==> user.login in r.value.users && r.value.users[user.login] == user
    ensures r.Success? ==> r.value.users.Keys == repo.users.Keys + {user.login}
    ensures r.Success? ==> forall login :: login in repo.users ==> r.value.users[login] == repo.users[login]
  {
    if user.login in repo.users then Failure(DuplicateLogin)
    else Success(MockUserRepo(repo.users[user.login := user]))
  }

  /** `FindByLogin`: an exact, case-sensitive key lookup. */
  function FindByLogin(repo: MockUserRepo, login: string): (r: Result<User, Error>)
    ensures r.Success? <==> login in repo.users
    ensures r.Success? ==> r.value == repo.users[login]
    ensures r.Failure? ==> r.error == NotFound
  {
    if login in repo.users then Success(repo.users[login]) else Failure(NotFound)
  }

  /**
   * `FindByUUID`: walks the map in an unspecified order and returns the first user
   * whose UUID text matches, so with several matches any one of them may come back.
   */
  method FindByUUID(repo: MockUserRepo, id: string) returns (r: Result<User, Error>)
    ensures r.Success? <==> HasUuid(repo, id)
    ensures r.Success? ==> r.value in repo.users.Values && r.value.uuid.text == id
    ensures r.Failure? ==> r.error == NotFound
  {
    var unvisited := repo.users.Keys;
    while unvisited != {}
      invariant unvisited <= repo.users.Keys
      invariant forall login :: login in repo.users && login !in unvisited ==> repo.users[login].uuid.text != id
      decreases unvisited
    {
      var login :| login in unvisited;
      if repo.users[login].uuid.text == id {
        return Success(repo.users[login]);
      }
      unvisited := unvisited - {login};
    }
    return Failure(NotFound);
  }

  /** A user just saved is found again under its login. */
  lemma FindAfterSave(repo: MockUserRepo, user: User)
    requires SaveNewUser(repo, user).Success?
    ensures FindByLogin(SaveNewUser(repo, user).value, user.login) == Success(user)
  {
  }

  /** Saving a user makes its UUID findable, and keeps every UUID that was findable before. */
  lemma UuidsAfterSave(repo: MockUserRepo, user: User, id: string)
    requires SaveNewUser(repo, user).Success?
    ensures HasUuid(SaveNewUser(repo, user).value, id) <==> HasUuid(repo, id) || user.uuid.text == id
  {
    var saved := SaveNewUser(repo, user).value;
    if HasUuid(repo, id) {
      var login :| login in repo.users && repo.users[login].uuid.text == id;
      assert saved.users[login] == repo.users[login];
    }
    if user.uuid.text == id {
      assert saved.users[user.login] == user;
    }
  }
}
