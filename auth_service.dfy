/**
 * The authentication service: Login's guard, lookup, verify and issue chain.
 * The repository port, bcrypt's verification, the JWT signer and the clock
 * are parameters. The result lists the external calls Login made, in order.
 */
module AuthService {
  import opened Errors
  import opened UserEntity
  import opened Jwt

  /** The token returned on every failure. */
  const EmptyToken := ""

  /** One external call made by Login. */
  datatype Step =
    | LookUp(username: string)
    | VerifyPassword(password: string, hash: string)
    | CreateToken(userId: int, userName: string)

  datatype LoginResult = LoginResult(token: string, err: Option<Error>, steps: seq<Step>)

  /** The repository is queried at most once. */
  predicate LooksUpAtMostOnce(steps: seq<Step>)
  {
    forall i, j :: 0 <= i < j < |steps| && steps[i].LookUp? ==> !steps[j].LookUp?
  }

  /** Every token creation comes right after a password check that succeeded. */
  predicate TokenOnlyAfterMatch(steps: seq<Step>, verify: (string, string) -> bool)
  {
    forall j :: 0 <= j < |steps| && steps[j].CreateToken? ==>
      0 < j && steps[j - 1].VerifyPassword? && verify(steps[j - 1].password, steps[j - 1].hash)
  }

  /** Login for the credentials in `u` (its username and plaintext password). */
  function Login(config: AuthTokenConfig, repo: UserRepoPort, verify: (string, string) -> bool,
                 sign: (Token, Bytes) -> SignAnswer, now: int, u: User): (r: LoginResult)
    // every failure returns the empty token
    ensures r.err.Some? ==> r.token == EmptyToken
    // input guards come before any external call
    ensures u.username == "" ==> r == LoginResult(EmptyToken, Some(InvalidUserDetails), [])
    ensures u.username != "" && u.password == "" ==>
              r == LoginResult(EmptyToken, Some(InvalidUserPwd), [])
    // the one lookup is for the caller's non-empty username
    ensures LooksUpAtMostOnce(r.steps)
    ensures forall i :: 0 <= i < |r.steps| && r.steps[i].LookUp? ==>
              i == 0 && u.username != "" && u.password != "" && r.steps[i].username == u.username
    // a lookup error is passed on unchanged, with nothing checked after it
    ensures u.username != "" && u.password != "" && repo.getByUsername(u.username).err.Some? ==>
              r == LoginResult(EmptyToken, repo.getByUsername(u.username).err, [LookUp(u.username)])
    // the password is checked against the hash of the account that was fetched
    ensures forall i :: 0 <= i < |r.steps| && r.steps[i].VerifyPassword? ==>
              && 0 < i && r.steps[i - 1] == LookUp(u.username)
              && repo.getByUsername(u.username).err.None?
              && r.steps[i] == VerifyPassword(u.password, repo.getByUsername(u.username).user.passwordHash)
    // a mismatch after a successful lookup is IncorrectPwd, with no token created
    ensures u.username != "" && u.password != "" && repo.getByUsername(u.username).err.None?
            && !verify(u.password, repo.getByUsername(u.username).user.passwordHash) ==>
              r == LoginResult(EmptyToken, Some(IncorrectPwd),
                               [LookUp(u.username),
                                VerifyPassword(u.password, repo.getByUsername(u.username).user.passwordHash)])
    // after a match, the outcome is that of creating the token for the fetched id
    ensures u.username != "" && u.password != "" && repo.getByUsername(u.username).err.None?
            && verify(u.password, repo.getByUsername(u.username).user.passwordHash) ==>
              var o := Creation(config.secretKey, repo.getByUsername(u.username).user.id, u.username, now, sign);
              && r.steps == [LookUp(u.username),
                             VerifyPassword(u.password, repo.getByUsername(u.username).user.passwordHash),
                             CreateToken(repo.getByUsername(u.username).user.id, u.username)]
              && (o.Issued? ==> r.token == o.encoded && r.err.None?)
              && (!o.Issued? ==> r.token == EmptyToken && r.err == Some(TokenCreation))
    ensures |r.steps| == 2 ==>
              r.err == Some(IncorrectPwd) && !verify(u.password, repo.getByUsername(u.username).user.passwordHash)
    ensures TokenOnlyAfterMatch(r.steps, verify)
    // the token names the fetched account's id and the caller's username
    ensures forall i :: 0 <= i < |r.steps| && r.steps[i].CreateToken? ==>
              r.steps[i] == CreateToken(repo.getByUsername(u.username).user.id, u.username)
    // every token-creation failure becomes TokenCreation
    ensures |r.steps| == 3 && !Creation(config.secretKey, repo.getByUsername(u.username).user.id,
                                        u.username, now, sign).Issued? ==>
              r.err == Some(TokenCreation)
    ensures |r.steps| == 3 && Creation(config.secretKey, repo.getByUsername(u.username).user.id,
                                       u.username, now, sign).Issued? ==>
              r.err.None?
    ensures r.err.None? ==>
              && |r.steps| == 3
              && Creation(config.secretKey, repo.getByUsername(u.username).user.id, u.username, now, sign)
                 .Issued?
              && r.token == Creation(config.secretKey, repo.getByUsername(u.username).user.id,
                                     u.username, now, sign).encoded
  {
    if u.username == "" then LoginResult(EmptyToken, Some(InvalidUserDetails), [])
    else if u.password == "" then LoginResult(EmptyToken, Some(InvalidUserPwd), [])
    else
      var dbUser := repo.getByUsername(u.username);
      if dbUser.err.Some? then LoginResult(EmptyToken, dbUser.err, [LookUp(u.username)])
      else
        var checked := [LookUp(u.username), VerifyPassword(u.password, dbUser.user.passwordHash)];
        if !verify(u.password, dbUser.user.passwordHash) then
          LoginResult(EmptyToken, Some(IncorrectPwd), checked)
        else
          var steps := checked + [CreateToken(dbUser.user.id, u.username)];
          match Creation(config.secretKey, dbUser.user.id, u.username, now, sign)
          case Issued(_, encoded) => LoginResult(encoded, None, steps)
          case _ => LoginResult(EmptyToken, Some(TokenCreation), steps)
  }

  /**
   * Only a password match leads to a token: a successful login implies that the
   * fetched account's hash verified against the supplied password.
   */
  lemma {:induction false} NoTokenWithoutMatch(config: AuthTokenConfig, repo: UserRepoPort,
                                               verify: (string, string) -> bool,
                                               sign: (Token, Bytes) -> SignAnswer, now: int, u: User)
    requires Login(config, repo, verify, sign, now, u).err.None?
    ensures repo.getByUsername(u.username).err.None?
    ensures verify(u.password, repo.getByUsername(u.username).user.passwordHash)
  {
    var r := Login(config, repo, verify, sign, now, u);
    assert r.steps[2].CreateToken?;
    assert r.steps[1] == VerifyPassword(u.password, repo.getByUsername(u.username).user.passwordHash);
  }

  /** An account the repository hands back with id 0 cannot log in: Create refuses the id. */
  lemma ZeroIdAccountGetsNoToken(config: AuthTokenConfig, repo: UserRepoPort,
                                 verify: (string, string) -> bool,
                                 sign: (Token, Bytes) -> SignAnswer, now: int, u: User)
    requires u.username != "" && u.password != ""
    requires repo.getByUsername(u.username).err.None? && repo.getByUsername(u.username).user.id == 0
    requires verify(u.password, repo.getByUsername(u.username).user.passwordHash)
    requires |config.secretKey| != 0
    ensures Login(config, repo, verify, sign, now, u).err == Some(TokenCreation)
  {
  }
}
