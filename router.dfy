/**
 * The HTTP router: the admission middleware's decision on the Authorization
 * header, and the route table that says which handlers sit behind it. The
 * token validator the middleware consults is a parameter; the HTTP framework
 * is reduced to running a route's chain of middleware and handler.
 */
module Router {
  import opened Errors

  // ---------------------------------------------------------------------
  // Splitting a header on single spaces

  /** The pieces joined with `sep` between each two: the inverse of Split. */
  function Join(pieces: seq<string>, sep: char): string
  {
    if |pieces| == 0 then ""
    else if |pieces| == 1 then pieces[0]
    else pieces[0] + [sep] + Join(pieces[1..], sep)
  }

  /**
   * Splitting on every occurrence of a one-character separator: there is one
   * piece more than there are separators, no piece contains the separator,
   * and joining the pieces gives back the string.
   */
  function Split(s: string, sep: char): (pieces: seq<string>)
    ensures |pieces| >= 1
    ensures forall i :: 0 <= i < |pieces| ==> sep !in pieces[i]
    ensures Join(pieces, sep) == s
    decreases |s|
  {
    if s == [] then [[]]
    else
      var rest := Split(s[1..], sep);
      if s[0] == sep then
        assert ([[]] + rest)[1..] == rest;
        [[]] + rest
      else
        assert s == [s[0]] + s[1..];
        assert |rest| > 1 ==> Join(rest, sep) == rest[0] + [sep] + Join(rest[1..], sep);
        [[s[0]] + rest[0]] + rest[1..]
  }

  /** A string without the separator is one piece. */
  lemma {:induction false} SplitWithoutSeparator(p: string, sep: char)
    requires sep !in p
    ensures Split(p, sep) == [p]
    decreases |p|
  {
    if p != [] {
      SplitWithoutSeparator(p[1..], sep);
      assert [p[0]] + p[1..] == p;
    }
  }

  /** A separator-free first piece followed by the separator splits off as the first piece. */
  lemma {:induction false} SplitFirstPiece(p: string, sep: char, t: string)
    requires sep !in p
    ensures Split(p + [sep] + t, sep) == [p] + Split(t, sep)
    decreases |p|
  {
    var s := p + [sep] + t;
    if p == [] {
      assert s[1..] == t;
    } else {
      assert s[1..] == p[1..] + [sep] + t;
      SplitFirstPiece(p[1..], sep, t);
      assert [p[0]] + p[1..] == p;
    }
  }

  /** Split undoes Join when no piece holds the separator. */
  lemma {:induction false} SplitOfJoin(pieces: seq<string>, sep: char)
    requires |pieces| >= 1
    requires forall i :: 0 <= i < |pieces| ==> sep !in pieces[i]
    ensures Split(Join(pieces, sep), sep) == pieces
    decreases |pieces|
  {
    if |pieces| == 1 {
      SplitWithoutSeparator(pieces[0], sep);
    } else {
      SplitFirstPiece(pieces[0], sep, Join(pieces[1..], sep));
      SplitOfJoin(pieces[1..], sep);
      assert [pieces[0]] + pieces[1..] == pieces;
    }
  }

  // ---------------------------------------------------------------------
  // The admission middleware

  /** The authentication scheme of section 2.1 of RFC 6750, compared case-sensitively. */
  const BearerScheme := "Bearer"

  const StatusUnauthorized := 401

  /**
   * The token of a header of the form "Bearer <token>": the header splits on
   * single spaces into exactly two pieces, the first of which is "Bearer".
   */
  function BearerToken(header: string): (t: Option<string>)
    ensures t.Some? ==> header == BearerScheme + " " + t.value && ' ' !in t.value
  {
    var pieces := Split(header, ' ');
    if |pieces| != 2 || pieces[0] != BearerScheme then None
    else
      assert Join(pieces, ' ') == pieces[0] + [' '] + pieces[1];
      Some(pieces[1])
  }

  /** Every "Bearer " header whose token has no space yields that token, the empty token included. */
  lemma {:induction false} BearerTokenOfWellFormed(t: string)
    requires ' ' !in t
    ensures BearerToken(BearerScheme + " " + t) == Some(t)
  {
    assert ' ' !in BearerScheme;
    SplitOfJoin([BearerScheme, t], ' ');
    assert Join([BearerScheme, t], ' ') == BearerScheme + " " + t;
  }

  /** Why the middleware turns a request away. */
  datatype Rejection =
    | MissingHeader            // "Authorization header is missing"
    | InvalidFormat            // "Invalid token format"
    | ValidatorError(err: Error)
    | TokenNotValid

  datatype Admission = Admit(token: string) | Reject(status: int, reason: Rejection)

  /**
   * authMiddleware: `header` is the Authorization header ("" when it is
   * absent) and `validate` the token validator. Admits only a well-formed
   * bearer header whose token the validator answers with `(true, nil)`.
   */
  function AuthMiddleware(header: string, validate: string -> Verdict): (r: Admission)
    ensures r.Reject? ==> r.status == StatusUnauthorized
    ensures header == "" <==> r == Reject(StatusUnauthorized, MissingHeader)
    ensures r.Admit? <==>
              header != "" && BearerToken(header).Some? && validate(BearerToken(header).value) == Verdict(true, None)
    ensures r.Admit? ==>
              header == BearerScheme + " " + r.token && ' ' !in r.token
              && validate(r.token) == Verdict(true, None)
    ensures r.Reject? && (r.reason.ValidatorError? || r.reason.TokenNotValid?) ==>
              BearerToken(header).Some?
    ensures r.Reject? && r.reason.ValidatorError? ==>
              validate(BearerToken(header).value).err == Some(r.reason.err)
  {
    if header == "" then Reject(StatusUnauthorized, MissingHeader)
    else match BearerToken(header)
      case None => Reject(StatusUnauthorized, InvalidFormat)
      case Some(token) =>
        var verdict := validate(token);
        if verdict.err.Some? then Reject(StatusUnauthorized, ValidatorError(verdict.err.value))
        else if !verdict.valid then Reject(StatusUnauthorized, TokenNotValid)
        else Admit(token)
  }

  /** A well-formed header whose token validates is admitted, with exactly that token. */
  lemma AdmitsValidBearer(t: string, validate: string -> Verdict)
    requires ' ' !in t
    requires validate(t) == Verdict(true, None)
    ensures AuthMiddleware(BearerScheme + " " + t, validate) == Admit(t)
  {
    BearerTokenOfWellFormed(t);
  }

  /** A validator error rejects whatever boolean comes with it: the error is checked first. */
  lemma ValidatorErrorRejects(t: string, validate: string -> Verdict)
    requires ' ' !in t
    requires validate(t).err.Some?
    ensures AuthMiddleware(BearerScheme + " " + t, validate)
         == Reject(StatusUnauthorized, ValidatorError(validate(t).err.value))
  {
    BearerTokenOfWellFormed(t);
  }

  /** A `(false, nil)` answer rejects. */
  lemma InvalidTokenRejects(t: string, validate: string -> Verdict)
    requires ' ' !in t
    requires validate(t) == Verdict(false, None)
    ensures AuthMiddleware(BearerScheme + " " + t, validate) == Reject(StatusUnauthorized, TokenNotValid)
  {
    BearerTokenOfWellFormed(t);
  }

  /** "Bearer " with nothing after it passes the format check and hands the validator "". */
  lemma EmptyBearerTokenForwarded(validate: string -> Verdict)
    ensures BearerToken("Bearer ") == Some("")
    ensures validate("") == Verdict(true, None) ==> AuthMiddleware("Bearer ", validate) == Admit("")
  {
    BearerTokenOfWellFormed("");
  }

  /**
   * A non-empty header whose space-separated pieces are not exactly "Bearer"
   * and one more piece is rejected as malformed.
   */
  lemma MalformedHeaderRejected(header: string, pieces: seq<string>, validate: string -> Verdict)
    requires header != ""
    requires |pieces| >= 1 && forall i :: 0 <= i < |pieces| ==> ' ' !in pieces[i]
    requires Join(pieces, ' ') == header
    requires |pieces| != 2 || pieces[0] != BearerScheme
    ensures AuthMiddleware(header, validate) == Reject(StatusUnauthorized, InvalidFormat)
  {
    SplitOfJoin(pieces, ' ');
  }

  /** Another scheme is malformed. */
  lemma RejectsOtherScheme(validate: string -> Verdict)
    ensures AuthMiddleware("Basic xyz", validate) == Reject(StatusUnauthorized, InvalidFormat)
  {
    var pieces := ["Basic", "xyz"];
    assert Join(pieces[1..], ' ') == "xyz";
    assert Join(pieces, ' ') == "Basic xyz";
    MalformedHeaderRejected("Basic xyz", pieces, validate);
  }

  /** The scheme is compared case-sensitively. */
  lemma RejectsLowerCaseScheme(validate: string -> Verdict)
    ensures AuthMiddleware("bearer xyz", validate) == Reject(StatusUnauthorized, InvalidFormat)
  {
    var pieces := ["bearer", "xyz"];
    assert Join(pieces[1..], ' ') == "xyz";
    assert Join(pieces, ' ') == "bearer xyz";
    MalformedHeaderRejected("bearer xyz", pieces, validate);
  }

  /** A token with a space in it makes three pieces. */
  lemma RejectsExtraPiece(validate: string -> Verdict)
    ensures AuthMiddleware("Bearer a b", validate) == Reject(StatusUnauthorized, InvalidFormat)
  {
    var pieces := ["Bearer", "a", "b"];
    assert Join(pieces[2..], ' ') == "b";
    assert Join(pieces[1..], ' ') == "a b";
    assert Join(pieces, ' ') == "Bearer a b";
    MalformedHeaderRejected("Bearer a b", pieces, validate);
  }

  /** Two spaces after the scheme make an empty middle piece. */
  lemma RejectsDoubledSpace(validate: string -> Verdict)
    ensures AuthMiddleware("Bearer  x", validate) == Reject(StatusUnauthorized, InvalidFormat)
  {
    var pieces := ["Bearer", "", "x"];
    assert Join(pieces[2..], ' ') == "x";
    assert Join(pieces[1..], ' ') == " x";
    assert Join(pieces, ' ') == "Bearer  x";
    MalformedHeaderRejected("Bearer  x", pieces, validate);
  }

  /** On a missing or malformed header the validator is never consulted. */
  lemma ValidatorNotConsultedOnBadHeader(header: string, v1: string -> Verdict, v2: string -> Verdict)
    requires header == "" || BearerToken(header).None?
    ensures AuthMiddleware(header, v1) == AuthMiddleware(header, v2)
    ensures AuthMiddleware(header, v1).Reject?
  {
  }

  // ---------------------------------------------------------------------
  // Routes

  datatype Handler = UserCreate | UserGet | UserGetByID | UserUpdate | AuthLogin

  /** One element of a route's chain: the admission middleware or the endpoint handler. */
  datatype Link = AuthGate | Endpoint(handler: Handler)

  datatype Route = Route(verb: string, path: string, chain: seq<Link>)

  /** A route group: a path prefix and the middleware attached to it so far. */
  datatype Group = Group(prefix: string, middleware: seq<Link>)

  function Use(g: Group, m: Link): Group
  {
    g.(middleware := g.middleware + [m])
  }

  /** Registers a handler in a group: the group's middleware run first. */
  function Handle(table: seq<Route>, g: Group, verb: string, relativePath: string, h: Handler): seq<Route>
  {
    table + [Route(verb, g.prefix + relativePath, g.middleware + [Endpoint(h)])]
  }

  /** The path lies under `prefix`. */
  predicate Under(path: string, prefix: string)
  {
    prefix <= path
  }

  /** A route whose chain is the admission middleware and then its handler. */
  predicate Guarded(route: Route)
  {
    |route.chain| == 2 && route.chain[0] == AuthGate && route.chain[1].Endpoint?
  }

  /** registerUserRoutes: the "/user" group with the middleware attached before its four handlers. */
  function RegisterUserRoutes(table: seq<Route>): (r: seq<Route>)
    ensures |r| == |table| + 4 && r[..|table|] == table
    ensures forall i :: |table| <= i < |r| ==> Under(r[i].path, "/user") && Guarded(r[i])
    ensures r[|table|..] == [Route("POST", "/user", [AuthGate, Endpoint(UserCreate)]),
                             Route("GET", "/user", [AuthGate, Endpoint(UserGet)]),
                             Route("GET", "/user/:id", [AuthGate, Endpoint(UserGetByID)]),
                             Route("PUT", "/user/:id", [AuthGate, Endpoint(UserUpdate)])]
  {
    var g := Use(Group("/user", []), AuthGate);
    var t1 := Handle(table, g, "POST", "", UserCreate);
    var t2 := Handle(t1, g, "GET", "", UserGet);
    var t3 := Handle(t2, g, "GET", "/:id", UserGetByID);
    var t4 := Handle(t3, g, "PUT", "/:id", UserUpdate);
    assert g.prefix + "" == "/user" && g.prefix + "/:id" == "/user/:id";
    assert g.middleware == [AuthGate];
    assert g.middleware + [Endpoint(UserCreate)] == [AuthGate, Endpoint(UserCreate)];
    assert g.middleware + [Endpoint(UserGet)] == [AuthGate, Endpoint(UserGet)];
    assert g.middleware + [Endpoint(UserGetByID)] == [AuthGate, Endpoint(UserGetByID)];
    assert g.middleware + [Endpoint(UserUpdate)] == [AuthGate, Endpoint(UserUpdate)];
    assert t4[|table|..] == [t1[|table|], t2[|table| + 1], t3[|table| + 2], t4[|table| + 3]];
    t4
  }

  /** registerAuthRoutes: the "/auth" group, with no middleware, and its login handler. */
  function RegisterAuthRoutes(table: seq<Route>): (r: seq<Route>)
    ensures |r| == |table| + 1 && r[..|table|] == table
    ensures r[|table|].path == "/auth/login" && r[|table|].chain == [Endpoint(AuthLogin)]
  {
    Handle(table, Group("/auth", []), "GET", "/login", AuthLogin)
  }

  /** initRoutes: user routes, then auth routes. */
  function Routes(): (r: seq<Route>)
    ensures forall i :: 0 <= i < |r| && Under(r[i].path, "/user") ==> Guarded(r[i])
    ensures forall i :: 0 <= i < |r| && r[i].path == "/auth/login" ==> r[i].chain == [Endpoint(AuthLogin)]
  {
    var r := RegisterAuthRoutes(RegisterUserRoutes([]));
    assert r[4].path == "/auth/login";
    assert !Under("/auth/login", "/user") by { assert "/auth/login"[1] != "/user"[1]; }
    r
  }

  /** What running a route's chain comes to. */
  datatype Response = Handled(handler: Handler) | Aborted(status: int, reason: Rejection) | NoHandler

  /**
   * Runs a chain: the middleware either lets the chain go on or aborts it with
   * its rejection; the endpoint handler ends it.
   */
  function RunChain(chain: seq<Link>, header: string, validate: string -> Verdict): (r: Response)
    ensures r.Handled? ==> Endpoint(r.handler) in chain
    ensures |chain| > 0 && chain[0] == AuthGate ==>
              (r.Handled? ==> AuthMiddleware(header, validate).Admit?)
              && (AuthMiddleware(header, validate).Reject? ==>
                    r == Aborted(StatusUnauthorized, AuthMiddleware(header, validate).reason))
  {
    if chain == [] then NoHandler
    else match chain[0]
      case Endpoint(h) => Handled(h)
      case AuthGate =>
        var a := AuthMiddleware(header, validate);
        if a.Reject? then Aborted(a.status, a.reason)
        else
          var rest := RunChain(chain[1..], header, validate);
          assert forall l :: l in chain[1..] ==> l in chain;
          rest
  }

  /** The first route registered for a method and path pattern. */
  function FindRoute(table: seq<Route>, verb: string, path: string): (r: Option<Route>)
    ensures r.Some? ==> r.value in table && r.value.verb == verb && r.value.path == path
    ensures r.None? <==> forall i :: 0 <= i < |table| ==> !(table[i].verb == verb && table[i].path == path)
  {
    if table == [] then None
    else if table[0].verb == verb && table[0].path == path then Some(table[0])
    else FindRoute(table[1..], verb, path)
  }

  /** Dispatches a request that matched route pattern `path`. */
  function Serve(verb: string, path: string, header: string, validate: string -> Verdict): (r: Response)
  {
    match FindRoute(Routes(), verb, path)
    case None => NoHandler
    case Some(route) => RunChain(route.chain, header, validate)
  }

  /**
   * A handler under "/user" is reached exactly when the middleware admits the
   * request; otherwise the middleware's 401 rejection is the response.
   */
  lemma UserHandlersBehindMiddleware(verb: string, path: string, header: string, validate: string -> Verdict)
    requires Under(path, "/user")
    requires FindRoute(Routes(), verb, path).Some?
    ensures Serve(verb, path, header, validate).Handled? <==> AuthMiddleware(header, validate).Admit?
    ensures AuthMiddleware(header, validate).Reject? ==>
              Serve(verb, path, header, validate)
              == Aborted(StatusUnauthorized, AuthMiddleware(header, validate).reason)
  {
    var route := FindRoute(Routes(), verb, path).value;
    var i :| 0 <= i < |Routes()| && Routes()[i] == route;
    assert Guarded(route);
    assert route.chain[1..] == [route.chain[1]];
    assert RunChain(route.chain[1..], header, validate) == Handled(route.chain[1].handler);
  }

  /** The login route is served whatever the Authorization header says. */
  lemma LoginRouteOpen(header: string, validate: string -> Verdict)
    ensures Serve("GET", "/auth/login", header, validate) == Handled(AuthLogin)
  {
    var route := FindRoute(Routes(), "GET", "/auth/login").value;
    var i :| 0 <= i < |Routes()| && Routes()[i] == route;
  }

  /** The route table, as registered: the four user routes, then login. */
  lemma RoutesTable()
    ensures Routes() == [Route("POST", "/user", [AuthGate, Endpoint(UserCreate)]),
                         Route("GET", "/user", [AuthGate, Endpoint(UserGet)]),
                         Route("GET", "/user/:id", [AuthGate, Endpoint(UserGetByID)]),
                         Route("PUT", "/user/:id", [AuthGate, Endpoint(UserUpdate)]),
                         Route("GET", "/auth/login", [Endpoint(AuthLogin)])]
  {
    var u := RegisterUserRoutes([]);
    assert u == u[0..];
    var r := RegisterAuthRoutes(u);
    assert r == u + [r[4]];
    assert "/auth" + "/login" == "/auth/login";
  }

  /** Each user endpoint's method and path finds its own route. */
  lemma UserRoutesFound()
    ensures FindRoute(Routes(), "POST", "/user") == Some(Route("POST", "/user", [AuthGate, Endpoint(UserCreate)]))
    ensures FindRoute(Routes(), "GET", "/user") == Some(Route("GET", "/user", [AuthGate, Endpoint(UserGet)]))
    ensures FindRoute(Routes(), "GET", "/user/:id")
            == Some(Route("GET", "/user/:id", [AuthGate, Endpoint(UserGetByID)]))
    ensures FindRoute(Routes(), "PUT", "/user/:id")
            == Some(Route("PUT", "/user/:id", [AuthGate, Endpoint(UserUpdate)]))
  {
    RoutesTable();
    var rs := Routes();
    // each lookup skips the routes registered before its own
    assert FindRoute(rs, "GET", "/user") == FindRoute(rs[1..], "GET", "/user");
    assert FindRoute(rs, "GET", "/user/:id") == FindRoute(rs[2..], "GET", "/user/:id");
    assert FindRoute(rs, "PUT", "/user/:id") == FindRoute(rs[3..], "PUT", "/user/:id");
  }

  /** Behind an admitting middleware, a guarded chain runs on to its handler. */
  lemma AdmittedChainRuns(h: Handler, header: string, validate: string -> Verdict)
    requires AuthMiddleware(header, validate).Admit?
    ensures RunChain([AuthGate, Endpoint(h)], header, validate) == Handled(h)
  {
    assert [AuthGate, Endpoint(h)][1..] == [Endpoint(h)];
  }

  /**
   * Each of the four user endpoints is served by its own handler once the
   * middleware admits the request.
   */
  lemma UserRoutesServed(header: string, validate: string -> Verdict)
    requires AuthMiddleware(header, validate).Admit?
    ensures Serve("POST", "/user", header, validate) == Handled(UserCreate)
    ensures Serve("GET", "/user", header, validate) == Handled(UserGet)
    ensures Serve("GET", "/user/:id", header, validate) == Handled(UserGetByID)
    ensures Serve("PUT", "/user/:id", header, validate) == Handled(UserUpdate)
  {
    UserRoutesFound();
    AdmittedChainRuns(UserCreate, header, validate);
    AdmittedChainRuns(UserGet, header, validate);
    AdmittedChainRuns(UserGetByID, header, validate);
    AdmittedChainRuns(UserUpdate, header, validate);
  }
}
