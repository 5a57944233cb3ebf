/**
 * Properties that span the layers: a token a successful login hands out is
 * admitted by the middleware, and Login never asks the Postgres repository
 * for an unfiltered lookup.
 */
module EndToEnd {
  import opened UserEntity
  import Jwt
  import AuthService
  import Router
  import UserRepoPg

  /** Encoded tokens are compact JWS strings, which never contain a space. */
  ghost predicate EncodesWithoutSpaces(sign: (Jwt.Token, Jwt.Bytes) -> Jwt.SignAnswer)
  {
    forall t, key :: sign(t, key).Signed? ==> ' ' !in sign(t, key).encoded
  }

  /**
   * A token a successful login returns, sent as "Bearer <token>" to a
   * middleware that validates with the same secret within two hours of the
   * login, is admitted.
   */
  lemma LoginTokenAdmitted(config: Jwt.AuthTokenConfig, repo: UserRepoPort,
                           verify: (string, string) -> bool,
                           sign: (Jwt.Token, Jwt.Bytes) -> Jwt.SignAnswer,
                           parse: (string, Jwt.Bytes, seq<string>, int) -> Jwt.ParseAnswer,
                           now: int, at: int, u: User)
    requires Jwt.AcceptsOwnSignatures(sign, parse)
    requires EncodesWithoutSpaces(sign)
    requires AuthService.Login(config, repo, verify, sign, now, u).err.None?
    requires now <= at < now + Jwt.AccessTokenLifetime
    ensures var token := AuthService.Login(config, repo, verify, sign, now, u).token;
            Router.AuthMiddleware(Router.BearerScheme + " " + token,
                                  s => Jwt.Validate(config.secretKey, s, parse, at))
            == Router.Admit(token)
  {
    var r := AuthService.Login(config, repo, verify, sign, now, u);
    Jwt.CreatedTokenValidates(config.secretKey, repo.getByUsername(u.username).user.id, u.username,
                              now, sign, parse, at);
    assert ' ' !in r.token;
    Router.AdmitsValidBearer(r.token, s => Jwt.Validate(config.secretKey, s, parse, at));
  }

  /**
   * Every lookup Login makes carries a username condition: the Postgres
   * repository's condition-less "first row of the table" query is never issued.
   */
  lemma LoginLookupsAreFiltered(config: Jwt.AuthTokenConfig, repo: UserRepoPort,
                                verify: (string, string) -> bool,
                                sign: (Jwt.Token, Jwt.Bytes) -> Jwt.SignAnswer, now: int, u: User)
    ensures var steps := AuthService.Login(config, repo, verify, sign, now, u).steps;
            forall i :: 0 <= i < |steps| && steps[i].LookUp? ==>
              UserRepoPg.UsernameFilter(steps[i].username) == UserRepoPg.ByUsername(u.username)
  {
  }
}
