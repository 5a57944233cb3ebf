/**
 * The account record every layer shares, the (value, error) pairs the Go
 * functions return, and the repository port the services are written against.
 */
module UserEntity {
  import opened Errors

  /**
   * An account. `password` is the plaintext a client sends and
   * `passwordHash` the bcrypt digest that is stored.
   */
  datatype User = User(
    id: nat,
    username: string,
    email: string,
    password: string,
    passwordHash: string,
    isActive: bool,
    isLocked: bool)

  /** Go's zero value `User{}`. */
  const ZeroUser := User(0, "", "", "", "", false, false)

  /** A Go `(User, error)` pair; `err == None` is a nil error. */
  datatype UserReply = UserReply(user: User, err: Option<Error>)

  /** A Go `([]User, error)` pair. */
  datatype UsersReply = UsersReply(users: seq<User>, err: Option<Error>)

  /**
   * The repository port. Each field is the answer the repository gives to
   * one call; the port's implementation is not part of the services' code.
   */
  datatype UserRepoPort = UserRepoPort(
    create: User -> UserReply,
    getByID: int -> UserReply,
    get: UsersReply,
    getByUsername: string -> UserReply,
    update: User -> UserReply)
}
