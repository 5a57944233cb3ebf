/**
 * The user service: input guards in front of the repository port. Hashing
 * (bcrypt) and the repository are parameters; every result carries the list of
 * external calls the operation made, in order, so that "no repository call"
 * and "no hashing" are statements about that list.
 */
module UserService {
  import opened Errors
  import opened UserEntity

  /** The `(string, error)` pair the password hasher returns. */
  datatype HashAnswer = HashAnswer(hash: string, err: Option<Error>)

  /** One external call made by the service. */
  datatype Step =
    | HashPassword(password: string)
    | RepoCreate(user: User)
    | RepoGetByID(id: int)
    | RepoGet
    | RepoUpdate(user: User)
  {
    predicate IsRepoCall() { !HashPassword? }
  }

  datatype Outcome = Outcome(reply: UserReply, steps: seq<Step>)
  datatype UsersOutcome = UsersOutcome(reply: UsersReply, steps: seq<Step>)

  /** No step in the list reaches the repository. */
  predicate NoRepoCall(steps: seq<Step>)
  {
    forall i :: 0 <= i < |steps| ==> !steps[i].IsRepoCall()
  }

  /** The user handed to the repository: the input with the password's digest filled in. */
  function WithHash(u: User, hash: string -> HashAnswer): User
  {
    u.(passwordHash := hash(u.password).hash)
  }

  /** Registers an account: guards, then hashing, then one repository insert. */
  function Create(u: User, hash: string -> HashAnswer, repo: UserRepoPort): (r: Outcome)
    ensures u.email == "" || u.username == "" || u.password == "" ==>
              r == Outcome(UserReply(ZeroUser, Some(InvalidUserDetails)), [])
    // a hashing failure is returned with the zero user, and the repository is not called
    ensures u.email != "" && u.username != "" && u.password != "" && hash(u.password).err.Some? ==>
              r == Outcome(UserReply(ZeroUser, hash(u.password).err), [HashPassword(u.password)])
    ensures hash(u.password).err.Some? ==> NoRepoCall(r.steps)
    // otherwise exactly one insert is made; its error comes with the zero user,
    // and its success is passed on
    ensures u.email != "" && u.username != "" && u.password != "" && hash(u.password).err.None? ==>
              var stored := repo.create(WithHash(u, hash));
              && r.steps == [HashPassword(u.password), RepoCreate(WithHash(u, hash))]
              && r.reply == (if stored.err.Some? then UserReply(ZeroUser, stored.err) else stored)
    ensures forall i :: 0 <= i < |r.steps| && r.steps[i].RepoCreate? ==>
              && 0 < i && r.steps[i - 1] == HashPassword(u.password)
              && hash(u.password).err.None?
              && r.steps[i].user.passwordHash == hash(u.password).hash
              && r.steps[i].user.(passwordHash := u.passwordHash) == u
    ensures r.reply.err.Some? ==> r.reply.user == ZeroUser
    ensures r.reply.err.None? ==>
              && u.email != "" && u.username != "" && u.password != ""
              && r.steps == [HashPassword(u.password), RepoCreate(WithHash(u, hash))]
              && r.reply == repo.create(WithHash(u, hash))
  {
    if u.email == "" || u.username == "" || u.password == "" then
      Outcome(UserReply(ZeroUser, Some(InvalidUserDetails)), [])
    else
      var hashed := hash(u.password);
      if hashed.err.Some? then
        Outcome(UserReply(ZeroUser, hashed.err), [HashPassword(u.password)])
      else
        var toStore := u.(passwordHash := hashed.hash);
        var stored := repo.create(toStore);
        var steps := [HashPassword(u.password), RepoCreate(toStore)];
        if stored.err.Some? then Outcome(UserReply(ZeroUser, stored.err), steps)
        else Outcome(UserReply(stored.user, None), steps)
  }

  /** Looks an account up by id; a non-positive id never reaches the repository. */
  function GetByID(userID: int, repo: UserRepoPort): (r: Outcome)
    ensures userID <= 0 ==> r == Outcome(UserReply(ZeroUser, Some(InvalidUserID)), [])
    ensures userID > 0 ==> r.steps == [RepoGetByID(userID)] && r.reply == repo.getByID(userID)
  {
    if userID <= 0 then Outcome(UserReply(ZeroUser, Some(InvalidUserID)), [])
    else
      var found := repo.getByID(userID);
      if found.err.Some? then Outcome(UserReply(found.user, found.err), [RepoGetByID(userID)])
      else Outcome(UserReply(found.user, None), [RepoGetByID(userID)])
  }

  /** Lists every account: the repository's users and error, passed on as they are. */
  function Get(repo: UserRepoPort): (r: UsersOutcome)
    ensures r.steps == [RepoGet]
    ensures r.reply.users == repo.get.users && r.reply.err == repo.get.err
  {
    var all := repo.get;
    if all.err.Some? then UsersOutcome(UsersReply(all.users, all.err), [RepoGet])
    else UsersOutcome(UsersReply(all.users, None), [RepoGet])
  }

  /** Updates an account's profile; the plaintext password may be empty. */
  function Update(u: User, repo: UserRepoPort): (r: Outcome)
    ensures u.email == "" || u.username == "" ==>
              r == Outcome(UserReply(ZeroUser, Some(InvalidUserDetails)), [])
    ensures u.email != "" && u.username != "" ==> r.steps == [RepoUpdate(u)]
    ensures r.reply.err.Some? ==> r.reply.user == ZeroUser
    ensures r.reply.err.None? ==> r.reply == repo.update(u)
    ensures u.email != "" && u.username != "" ==>
              var updated := repo.update(u);
              r.reply == (if updated.err.Some? then UserReply(ZeroUser, updated.err) else updated)
  {
    if u.email == "" || u.username == "" then
      Outcome(UserReply(ZeroUser, Some(InvalidUserDetails)), [])
    else
      var updated := repo.update(u);
      if updated.err.Some? then Outcome(UserReply(ZeroUser, updated.err), [RepoUpdate(u)])
      else Outcome(UserReply(updated.user, None), [RepoUpdate(u)])
  }

  /** Update guards only email and username: an account with no plaintext password is passed on. */
  lemma UpdateAcceptsEmptyPassword(u: User, repo: UserRepoPort)
    requires u.email != "" && u.username != "" && u.password == ""
    ensures Update(u, repo).steps == [RepoUpdate(u)]
    ensures Update(u, repo).reply.err != Some(InvalidUserDetails) || repo.update(u).err == Some(InvalidUserDetails)
  {
  }
}
