/**
 * The error values of the user-authentication service as one closed type, so
 * that every layer of the model can say exactly which error it returns.
 */
module Errors {

  datatype Option<+T> = None | Some(value: T)

  datatype Error =
      // user package: invalid input to the user and auth services
    | InvalidUserDetails
    | InvalidUserID
    | InvalidUserPwd
      // auth package
    | IncorrectPwd
    | TokenCreation
      // jwt package (HashUnavailable is the JWT library's ErrHashUnavailable)
    | HashUnavailable
    | InvalidTokenUserID
    | EmptyUserName
      // errors the Postgres repository builds with fmt.Errorf
    | UserFetchFailed(cause: Error)
    | UsersFetchFailed(cause: Error)
    | NoUsersFound
    | UserNotFound
      // an error raised by a collaborator outside the model:
      // the database driver, bcrypt, the JWT signer or parser
    | External(description: string)

  /** A Go `(bool, error)` pair as a token validator returns it. */
  datatype Verdict = Verdict(valid: bool, err: Option<Error>)
}
