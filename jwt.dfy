/**
 * Access tokens (pkg/jwt): the guards and claim set of token creation, the
 * `AuthToken` object whose fields creation updates, and the mapping of a parse
 * result to `(valid, error)`. HMAC-SHA256 signing and JWT decoding belong to
 * the JWT library and are the parameters `sign` and `parse`; the clock reading
 * is the parameter `now`, in the whole seconds of a JWT NumericDate.
 */
module Jwt {
  import opened Errors

  type Bytes = seq<bv8>

  /** The JWS algorithm name of HMAC with SHA-256 (section 3.2 of RFC 7518). */
  const HS256 := "HS256"
  const Issuer := "mr-naveenseven/user-authentication"
  const Subject := "AccessToken"
  /** Two hours, in seconds. */
  const AccessTokenLifetime := 2 * 60 * 60
  /** The allow-list of signing algorithms Validate gives the parser. */
  const ValidMethods: seq<string> := [HS256]

  datatype AuthTokenConfig = AuthTokenConfig(secretKey: Bytes, accessTokenExpiry: int)

  /**
   * The claim set of an access token: the account's id and name and the
   * registered claims iss, sub, iat and exp (section 4.1 of RFC 7519).
   */
  datatype Claims = Claims(
    userId: int,
    userName: string,
    issuer: string,
    subject: string,
    issuedAt: int,
    expiresAt: int)

  /** An unsigned token: the algorithm named in its header and its claims. */
  datatype Token = Token(alg: string, claims: Claims)

  /** The signer's answer: the compact encoded token, or its error. */
  datatype SignAnswer = Signed(encoded: string) | SignFailed(err: Error)

  /** The parser's answer: an error, or the token with the claims-type check and its validity flag. */
  datatype ParseAnswer = ParseFailed(err: Error) | Parsed(token: Token, claimsOk: bool, valid: bool)

  /** What one call of Create amounts to. */
  datatype CreateOutcome =
    | Refused(err: Error)                  // a guard failed; nothing was built
    | Unsigned(token: Token, err: Error)   // the token was built but signing failed
    | Issued(token: Token, encoded: string)
  {
    function Err(): Option<Error>
    {
      if Issued? then None else Some(err)
    }
  }

  /** The claim set createAccessToken builds for an account at time `now`. */
  function AccessTokenClaims(userId: int, userName: string, now: int): Claims
  {
    Claims(userId, userName, Issuer, Subject, now, now + AccessTokenLifetime)
  }

  /** Create's guards, checked in this order: the secret, the id, the name. */
  function CreateGuard(secretKey: Bytes, userId: int, userName: string): Option<Error>
  {
    if |secretKey| == 0 then Some(HashUnavailable)
    else if userId <= 0 then Some(InvalidTokenUserID)
    else if userName == "" then Some(EmptyUserName)
    else None
  }

  /** The outcome of Create with secret `secretKey` at time `now`. */
  function Creation(secretKey: Bytes, userId: int, userName: string, now: int,
                    sign: (Token, Bytes) -> SignAnswer): (o: CreateOutcome)
    ensures |secretKey| == 0 ==> o == Refused(HashUnavailable)
    ensures |secretKey| != 0 && userId <= 0 ==> o == Refused(InvalidTokenUserID)
    ensures |secretKey| != 0 && userId > 0 && userName == "" ==> o == Refused(EmptyUserName)
    ensures o.Refused? <==> |secretKey| == 0 || userId <= 0 || userName == ""
    ensures !o.Refused? ==>
              && o.token.alg == HS256
              && o.token.claims.userId == userId && o.token.claims.userName == userName
              && o.token.claims.issuer == Issuer && o.token.claims.subject == Subject
              && o.token.claims.issuedAt == now
              && o.token.claims.expiresAt - o.token.claims.issuedAt == AccessTokenLifetime
    ensures o.Issued? ==> sign(o.token, secretKey) == Signed(o.encoded)
    ensures o.Unsigned? ==> sign(o.token, secretKey) == SignFailed(o.err)
  {
    match CreateGuard(secretKey, userId, userName)
    case Some(e) => Refused(e)
    case None =>
      var token := Token(HS256, AccessTokenClaims(userId, userName, now));
      match sign(token, secretKey)
      case Signed(encoded) => Issued(token, encoded)
      case SignFailed(e) => Unsigned(token, e)
  }

  /** The token object one login works with. */
  class AuthToken {
    var secretKey: Bytes
    var accessToken: Option<Token>
    var encodedAccessToken: string
    var accessTokenExpiry: int

    /** NewAuthToken: copies the secret and the expiry, with no token yet. */
    constructor (config: AuthTokenConfig)
      ensures secretKey == config.secretKey && accessTokenExpiry == config.accessTokenExpiry
      ensures accessToken == None && encodedAccessToken == ""
    {
      secretKey := config.secretKey;
      accessToken := None;
      encodedAccessToken := "";
      accessTokenExpiry := config.accessTokenExpiry;
    }

    /**
     * Builds the token (the configured expiry is not read), records it, and
     * signs it; the encoded form is recorded only when signing succeeds.
     */
    method CreateAccessToken(userId: int, userName: string, now: int,
                             sign: (Token, Bytes) -> SignAnswer) returns (err: Option<Error>)
      modifies this
      ensures secretKey == old(secretKey) && accessTokenExpiry == old(accessTokenExpiry)
      ensures accessToken == Some(Token(HS256, AccessTokenClaims(userId, userName, now)))
      ensures sign(accessToken.value, secretKey).Signed? ==>
                err == None && encodedAccessToken == sign(accessToken.value, secretKey).encoded
      ensures sign(accessToken.value, secretKey).SignFailed? ==>
                err == Some(sign(accessToken.value, secretKey).err)
                && encodedAccessToken == old(encodedAccessToken)
    {
      var token := Token(HS256, AccessTokenClaims(userId, userName, now));
      accessToken := Some(token);
      var answer := sign(token, secretKey);
      if answer.SignFailed? {
        return Some(answer.err);
      }
      encodedAccessToken := answer.encoded;
      err := None;
    }

    /** Checks the guards, then creates and signs the token. */
    method Create(userId: int, userName: string, now: int,
                  sign: (Token, Bytes) -> SignAnswer) returns (err: Option<Error>)
      modifies this
      ensures secretKey == old(secretKey) && accessTokenExpiry == old(accessTokenExpiry)
      ensures var o := Creation(secretKey, userId, userName, now, sign);
        && err == o.Err()
        && accessToken == (if o.Refused? then old(accessToken) else Some(o.token))
        && encodedAccessToken == (if o.Issued? then o.encoded else old(encodedAccessToken))
    {
      if |secretKey| == 0 {
        return Some(HashUnavailable);
      }
      if userId <= 0 {
        return Some(InvalidTokenUserID);
      }
      if userName == "" {
        return Some(EmptyUserName);
      }
      err := CreateAccessToken(userId, userName, now, sign);
    }
  }

  /**
   * Validate: parses `tokenString` with the secret and the HS256 allow-list at
   * clock reading `at` (the parser's expiry check reads the clock) and maps the
   * parser's answer to `(valid, error)`.
   */
  function Validate(secretKey: Bytes, tokenString: string,
                    parse: (string, Bytes, seq<string>, int) -> ParseAnswer, at: int): (v: Verdict)
    ensures !(v.valid && v.err.Some?)
    ensures v.err.Some? <==> parse(tokenString, secretKey, ValidMethods, at).ParseFailed?
    ensures v.err.Some? ==> v.err.value == parse(tokenString, secretKey, ValidMethods, at).err
    ensures v.valid <==>
              var p := parse(tokenString, secretKey, ValidMethods, at);
              p.Parsed? && p.claimsOk && p.valid
  {
    match parse(tokenString, secretKey, ValidMethods, at)
    case ParseFailed(e) => Verdict(false, Some(e))
    case Parsed(_, claimsOk, valid) =>
      if claimsOk && valid then Verdict(true, None) else Verdict(false, None)
  }

  /** The parser refuses every token whose header names an algorithm outside the allow-list. */
  ghost predicate EnforcesValidMethods(parse: (string, Bytes, seq<string>, int) -> ParseAnswer,
                                       algOf: string -> string)
  {
    forall s, key, methods, at :: algOf(s) !in methods ==> parse(s, key, methods, at).ParseFailed?
  }

  /** A clock reading at which a token is in force: issued already and not yet expired. */
  predicate InForce(t: Token, at: int)
  {
    t.claims.issuedAt <= at < t.claims.expiresAt
  }

  /**
   * The parser accepts, unchanged, every HS256 token the signer produced under
   * the same key, at every clock reading at which that token is in force.
   */
  ghost predicate AcceptsOwnSignatures(sign: (Token, Bytes) -> SignAnswer,
                                       parse: (string, Bytes, seq<string>, int) -> ParseAnswer)
  {
    forall t, key, at :: sign(t, key).Signed? && t.alg == HS256 && InForce(t, at) ==>
      parse(sign(t, key).encoded, key, ValidMethods, at) == Parsed(t, true, true)
  }

  /** A token that declares any algorithm other than HS256 is refused, with the parser's error. */
  lemma OnlyHS256Accepted(secretKey: Bytes, tokenString: string,
                          parse: (string, Bytes, seq<string>, int) -> ParseAnswer,
                          algOf: string -> string, at: int)
    requires EnforcesValidMethods(parse, algOf)
    requires algOf(tokenString) != HS256
    ensures Validate(secretKey, tokenString, parse, at).err.Some?
    ensures !Validate(secretKey, tokenString, parse, at).valid
  {
    assert algOf(tokenString) !in ValidMethods;
  }

  /**
   * Under a parser that accepts the signer's tokens while they are in force, a
   * created token validates at any time from its issue until two hours later.
   */
  lemma CreatedTokenValidates(secretKey: Bytes, userId: int, userName: string, now: int,
                              sign: (Token, Bytes) -> SignAnswer,
                              parse: (string, Bytes, seq<string>, int) -> ParseAnswer, at: int)
    requires AcceptsOwnSignatures(sign, parse)
    requires Creation(secretKey, userId, userName, now, sign).Issued?
    requires now <= at < now + AccessTokenLifetime
    ensures Validate(secretKey, Creation(secretKey, userId, userName, now, sign).encoded, parse, at)
         == Verdict(true, None)
  {
    var o := Creation(secretKey, userId, userName, now, sign);
    assert InForce(o.token, at);
  }
}
