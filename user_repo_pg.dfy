/**
 * The Postgres implementation of the repository port: the mapping between the
 * `user_accounts` row and the account entity, and how each repository call
 * turns the database's answer into a `(User, error)` pair. The database itself
 * is outside the model: each call receives the database's answer to the query
 * it issues, and clock readings are parameters.
 */
module UserRepoPg {
  import opened Errors
  import opened UserEntity

  const ColUserName := "username"
  const ColEmail := "email"

  /** A wall-clock reading; `ZeroTime` is Go's `time.Time{}`. */
  datatype Time = ZeroTime | At(nanos: int)

  /** A row of the `user_accounts` table. It has no plaintext password column. */
  datatype RepoUser = RepoUser(
    id: nat,
    username: string,
    email: string,
    passwordHash: string,
    isActive: bool,
    isLocked: bool,
    passwordModifiedAt: Time,
    createdAt: Time,
    modifiedAt: Time)

  /** The account fields that an entity and a row have in common agree. */
  predicate SameAccount(u: User, row: RepoUser)
  {
    && u.id == row.id
    && u.username == row.username
    && u.email == row.email
    && u.passwordHash == row.passwordHash
    && u.isActive == row.isActive
    && u.isLocked == row.isLocked
  }

  /** The row stored for an account; `now` is the clock reading it takes. */
  function ToRepoUser(u: User, now: int): (row: RepoUser)
    ensures SameAccount(u, row)
    ensures row.createdAt == At(now) && row.modifiedAt == row.createdAt
    ensures row.passwordModifiedAt == ZeroTime
  {
    RepoUser(u.id, u.username, u.email, u.passwordHash, u.isActive, u.isLocked,
             ZeroTime, At(now), At(now))
  }

  /** The entity read back from a row: the plaintext password is empty. */
  function ToEntityUser(row: RepoUser): (u: User)
    ensures SameAccount(u, row)
    ensures u.password == ""
  {
    User(row.id, row.username, row.email, "", row.passwordHash, row.isActive, row.isLocked)
  }

  /** Storing an account and reading it back loses exactly the plaintext password. */
  lemma EntityRoundTrip(u: User, now: int)
    ensures ToEntityUser(ToRepoUser(u, now)) == u.(password := "")
  {
  }

  /** Reading a row and storing it back keeps every column but the three timestamps. */
  lemma RowRoundTrip(row: RepoUser, now: int)
    ensures ToRepoUser(ToEntityUser(row), now)
         == row.(passwordModifiedAt := ZeroTime, createdAt := At(now), modifiedAt := At(now))
  {
  }

  /** Maps every row to its entity, keeping length and order. */
  method ToEntityUsers(rows: seq<RepoUser>) returns (users: seq<User>)
    ensures |users| == |rows|
    ensures forall i :: 0 <= i < |rows| ==> users[i] == ToEntityUser(rows[i])
  {
    users := [];
    for k := 0 to |rows|
      invariant |users| == k
      invariant forall i :: 0 <= i < k ==> users[i] == ToEntityUser(rows[i])
    {
      users := users + [ToEntityUser(rows[k])];
    }
  }

  /** The database's answer to an insert: its error and the primary key of the stored row. */
  datatype InsertAnswer = InsertAnswer(err: Option<Error>, id: nat)

  /**
   * Inserts an account. `rowNow` is the clock reading taken while building the
   * row and `pwdNow` the later one that stamps the password change; `written`
   * is the row handed to the database.
   */
  method Create(u: User, rowNow: int, pwdNow: int, insert: RepoUser -> InsertAnswer)
    returns (written: RepoUser, reply: UserReply)
    ensures SameAccount(u, written)
    ensures written.createdAt == At(rowNow) && written.modifiedAt == At(rowNow)
    ensures written.passwordModifiedAt == At(pwdNow)
    ensures insert(written).err.Some? ==> reply == UserReply(ZeroUser, insert(written).err)
    ensures insert(written).err.None? ==>
              reply == UserReply(u.(id := insert(written).id, password := ""), None)
  {
    var row := ToRepoUser(u, rowNow);
    row := row.(passwordModifiedAt := At(pwdNow));
    written := row;
    var answer := insert(row);
    if answer.err.Some? {
      return written, UserReply(ZeroUser, answer.err);
    }
    row := row.(id := answer.id);
    reply := UserReply(ToEntityUser(row), None);
  }

  /**
   * The condition a query carries. A condition given as a struct drops its
   * zero-valued fields, so an empty username or a zero id means no condition.
   */
  datatype Filter = ById(id: int) | ByUsername(username: string) | Unfiltered

  /** The database's answer to a single-row query: its error and the row it found. */
  datatype RowAnswer = RowAnswer(err: Option<Error>, row: RepoUser)

  /** The row as GetByID reads it: only username, email and the two flags are selected. */
  function SelectedColumns(row: RepoUser): (r: RepoUser)
    ensures r.id == 0 && r.passwordHash == ""
    ensures r.username == row.username && r.email == row.email
    ensures r.isActive == row.isActive && r.isLocked == row.isLocked
  {
    RepoUser(0, row.username, row.email, "", row.isActive, row.isLocked, ZeroTime, ZeroTime, ZeroTime)
  }

  /** Looks an account up by its primary key, reading four of its columns. */
  function GetByID(userID: int, first: Filter -> RowAnswer): (r: UserReply)
    ensures var a := first(ById(userID));
      && (a.err.Some? ==> r == UserReply(ZeroUser, Some(UserFetchFailed(a.err.value))))
      && (a.err.None? ==> r.err.None?
                          && r.user.id == 0 && r.user.passwordHash == "" && r.user.password == ""
                          && r.user.username == a.row.username && r.user.email == a.row.email
                          && r.user.isActive == a.row.isActive && r.user.isLocked == a.row.isLocked)
  {
    var answer := first(ById(userID));
    if answer.err.Some? then UserReply(ZeroUser, Some(UserFetchFailed(answer.err.value)))
    else UserReply(ToEntityUser(SelectedColumns(answer.row)), None)
  }

  /** The condition GetByUsername's struct condition amounts to. */
  function UsernameFilter(username: string): (f: Filter)
    ensures f.Unfiltered? <==> username == ""
    ensures f.ByUsername? ==> f.username == username
  {
    if username == "" then Unfiltered else ByUsername(username)
  }

  /** Looks an account up by username, reading all of its columns. */
  function GetByUsername(username: string, first: Filter -> RowAnswer): (r: UserReply)
    ensures var a := first(UsernameFilter(username));
      && (a.err.Some? ==> r == UserReply(ZeroUser, Some(UserFetchFailed(a.err.value))))
      && (a.err.None? ==> r.err.None? && SameAccount(r.user, a.row) && r.user.password == "")
  {
    var answer := first(UsernameFilter(username));
    if answer.err.Some? then UserReply(ZeroUser, Some(UserFetchFailed(answer.err.value)))
    else UserReply(ToEntityUser(answer.row), None)
  }

  /** The database's answer to a query over all rows. */
  datatype FindAnswer = FindAnswer(err: Option<Error>, rows: seq<RepoUser>, rowsAffected: nat)

  /** Lists every account; an empty table is reported as an error. */
  method Get(answer: FindAnswer) returns (reply: UsersReply)
    ensures reply.err.None? <==> answer.err.None? && answer.rowsAffected != 0
    ensures answer.err.Some? ==> reply == UsersReply([], Some(UsersFetchFailed(answer.err.value)))
    ensures answer.err.None? && answer.rowsAffected == 0 ==> reply == UsersReply([], Some(NoUsersFound))
    ensures reply.err.None? ==>
              && |reply.users| == |answer.rows|
              && forall i :: 0 <= i < |answer.rows| ==> reply.users[i] == ToEntityUser(answer.rows[i])
  {
    if answer.err.Some? {
      return UsersReply([], Some(UsersFetchFailed(answer.err.value)));
    }
    if answer.rowsAffected == 0 {
      return UsersReply([], Some(NoUsersFound));
    }
    var users := ToEntityUsers(answer.rows);
    reply := UsersReply(users, None);
  }

  /** An UPDATE statement: its condition and the columns it sets. */
  datatype UpdateStatement = UpdateStatement(filter: Filter, columns: map<string, string>)

  /** The database's answer to an UPDATE. */
  datatype ExecAnswer = ExecAnswer(err: Option<Error>, rowsAffected: nat)

  /** The statement Update issues: it writes the username and email columns and nothing else. */
  function UpdateStatementFor(u: User, now: int): (s: UpdateStatement)
    ensures s.columns.Keys == {ColUserName, ColEmail}
    ensures s.columns[ColUserName] == u.username && s.columns[ColEmail] == u.email
    ensures s.filter.Unfiltered? <==> u.id == 0
    ensures s.filter.ById? ==> s.filter.id == u.id
  {
    var row := ToRepoUser(u, now);
    UpdateStatement(if u.id == 0 then Unfiltered else ById(u.id),
                    map[ColUserName := row.username, ColEmail := row.email])
  }

  /** Updates an account; on success it returns the caller's user, not the stored row. */
  function Update(u: User, now: int, exec: UpdateStatement -> ExecAnswer): (r: UserReply)
    ensures var a := exec(UpdateStatementFor(u, now));
      && (a.err.Some? ==> r == UserReply(ZeroUser, a.err))
      && (a.err.None? && a.rowsAffected == 0 ==> r == UserReply(ZeroUser, Some(UserNotFound)))
      && (a.err.None? && a.rowsAffected != 0 ==> r == UserReply(u, None))
  {
    var answer := exec(UpdateStatementFor(u, now));
    if answer.err.Some? then UserReply(ZeroUser, answer.err)
    else if answer.rowsAffected == 0 then UserReply(ZeroUser, Some(UserNotFound))
    else UserReply(u, None)
  }
}
