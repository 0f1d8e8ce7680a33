/**
 * The Express routing of the API: the `/api/auth` router (register, login, profile), the `/api`
 * router for products and inventory, and how a request path finds its handler and middleware.
 * Path literals match case-insensitively, a single trailing slash is tolerated, and a `:param`
 * segment matches any non-empty segment.
 */
module Routes {
  import opened Wrappers
  import opened Text
  import opened Http
  import opened Store
  import opened External
  import opened AuthMiddleware
  import opened AuthController

  datatype Segment = Lit(text: string) | Param(name: string)

  datatype Middleware = ProtectMw

  datatype Handler =
    | RegisterH | LoginH | GetProfileH
    | GetAllProductsH | GetProductByIdH | CreateProductH | UpdateProductH | DeleteProductH | GetMyProductsH
    | GetAllInventoriesH | GetInventoryByIdH | CreateInventoryH | UpdateInventoryH | DeleteInventoryH

  /** One `router.<method>(path, ...middleware, handler)` registration. */
  datatype Route = Route(verb: Method, pattern: seq<Segment>, chain: seq<Middleware>, handler: Handler)

  // ---------------------------------------------------------------------------
  // Paths
  // ---------------------------------------------------------------------------

  /** The segments of an absolute request path, ignoring one trailing slash. */
  function Segments(path: string): seq<string> {
    var tail := Split(path, '/')[1..];
    if |tail| > 0 && tail[|tail| - 1] == "" then tail[..|tail| - 1] else tail
  }

  /** `/s0/s1/...`: the absolute path with the given segments. */
  function JoinPath(segs: seq<string>): (r: string)
    ensures |segs| > 0 ==> |r| > 0 && r[0] == '/'
  {
    if |segs| == 0 then "" else "/" + segs[0] + JoinPath(segs[1..])
  }

  predicate PlainSegment(s: string) { s != "" && '/' !in s }

  lemma {:induction false} SplitJoined(segs: seq<string>)
    requires |segs| > 0
    requires forall i :: 0 <= i < |segs| ==> PlainSegment(segs[i])
    ensures Split(JoinPath(segs)[1..], '/') == segs
  {
    var p := JoinPath(segs);
    assert p[1..] == segs[0] + JoinPath(segs[1..]);
    if |segs| == 1 {
      assert JoinPath(segs[1..]) == "";
      assert p[1..] == segs[0];
      SplitNoSep(segs[0], '/');
    } else {
      var q := JoinPath(segs[1..]);
      assert q == ['/'] + q[1..];
      assert p[1..] == segs[0] + ['/'] + q[1..];
      SplitAfter(segs[0], q[1..], '/');
      SplitJoined(segs[1..]);
      assert [segs[0]] + segs[1..] == segs;
    }
  }

  /** Joining plain segments into a path and splitting it again gives back the segments. */
  lemma SegmentsOfJoin(segs: seq<string>)
    requires |segs| > 0
    requires forall i :: 0 <= i < |segs| ==> PlainSegment(segs[i])
    ensures Segments(JoinPath(segs)) == segs
    ensures Segments(JoinPath(segs) + "/") == segs
  {
    SegmentsOfPath(segs);
    SegmentsOfPathSlash(segs);
  }

  /** `Segments` of `/` + `rest`, from the pieces of `rest`. */
  lemma SegmentsAfterSlash(p: string, segs: seq<string>)
    requires |p| > 0 && p[0] == '/'
    requires |segs| > 0 && segs[|segs| - 1] != ""
    requires Split(p[1..], '/') == segs
    ensures Segments(p) == segs
  {
    assert p == "" + ['/'] + p[1..];
    SplitAfter("", p[1..], '/');
  }

  /** `Segments` of `/` + `rest` + `/`: the trailing empty piece is dropped. */
  lemma SegmentsAfterSlashTrailing(p: string, segs: seq<string>)
    requires |p| > 0 && p[0] == '/'
    requires |segs| > 0 && segs[|segs| - 1] != ""
    requires Split(p[1..] + "/", '/') == segs + [""]
    ensures Segments(p + "/") == segs
  {
    assert p + "/" == "" + ['/'] + (p[1..] + "/");
    SplitAfter("", p[1..] + "/", '/');
    var tail := Split(p + "/", '/')[1..];
    assert tail == segs + [""];
    assert tail[..|tail| - 1] == segs;
  }

  lemma SegmentsOfPath(segs: seq<string>)
    requires |segs| > 0
    requires forall i :: 0 <= i < |segs| ==> PlainSegment(segs[i])
    ensures Segments(JoinPath(segs)) == segs
  {
    SplitJoined(segs);
    SegmentsAfterSlash(JoinPath(segs), segs);
  }

  lemma SegmentsOfPathSlash(segs: seq<string>)
    requires |segs| > 0
    requires forall i :: 0 <= i < |segs| ==> PlainSegment(segs[i])
    ensures Segments(JoinPath(segs) + "/") == segs
  {
    TrailingSlash(segs);
    SegmentsAfterSlashTrailing(JoinPath(segs), segs);
  }

  lemma {:induction false} TrailingSlash(segs: seq<string>)
    requires |segs| > 0
    requires forall i :: 0 <= i < |segs| ==> PlainSegment(segs[i])
    ensures Split(JoinPath(segs)[1..] + "/", '/') == segs + [""]
  {
    var p := JoinPath(segs);
    if |segs| == 1 {
      assert p[1..] + "/" == segs[0] + ['/'] + "";
      SplitAfter(segs[0], "", '/');
    } else {
      var q := JoinPath(segs[1..]);
      assert q == ['/'] + q[1..];
      assert p[1..] + "/" == segs[0] + ['/'] + (q[1..] + "/");
      SplitAfter(segs[0], q[1..] + "/", '/');
      TrailingSlash(segs[1..]);
      assert [segs[0]] + (segs[1..] + [""]) == segs + [""];
    }
  }

  // ---------------------------------------------------------------------------
  // Matching
  // ---------------------------------------------------------------------------

  predicate SegmentMatches(p: Segment, s: string) {
    match p
    case Lit(t) => Lower(s) == Lower(t)
    case Param(_) => s != ""
  }

  predicate Matches(r: Route, m: Method, path: seq<string>) {
    && r.verb == m && |r.pattern| == |path|
    && forall i :: 0 <= i < |path| ==> SegmentMatches(r.pattern[i], path[i])
  }

  /** The router tries its registrations in order and the first match handles the request. */
  function FirstRoute(routes: seq<Route>, m: Method, path: seq<string>): (r: Option<Route>)
    ensures r.Some? ==> r.value in routes && Matches(r.value, m, path)
    ensures r.None? <==> forall i :: 0 <= i < |routes| ==> !Matches(routes[i], m, path)
  {
    if |routes| == 0 then None
    else if Matches(routes[0], m, path) then Some(routes[0])
    else
      var r := FirstRoute(routes[1..], m, path);
      assert forall i :: 1 <= i < |routes| ==> routes[i] == routes[1..][i - 1];
      r
  }

  /** The route found is the matching registration that comes before every other match. */
  lemma {:induction false} FirstRouteIs(routes: seq<Route>, m: Method, path: seq<string>, j: nat)
    requires j < |routes| && Matches(routes[j], m, path)
    requires forall i :: 0 <= i < j ==> !Matches(routes[i], m, path)
    ensures FirstRoute(routes, m, path) == Some(routes[j])
  {
    if j > 0 {
      assert !Matches(routes[0], m, path);
      FirstRouteIs(routes[1..], m, path, j - 1);
    }
  }

  function Without<T>(s: seq<T>, j: nat): (r: seq<T>)
    requires j < |s|
    ensures |r| == |s| - 1
    ensures forall i :: 0 <= i < j ==> r[i] == s[i]
    ensures forall i :: j <= i < |r| ==> r[i] == s[i + 1]
  {
    s[..j] + s[j + 1..]
  }

  lemma {:induction false} WithoutNonMatching(routes: seq<Route>, j: nat, m: Method, path: seq<string>)
    requires j < |routes| && !Matches(routes[j], m, path)
    ensures FirstRoute(Without(routes, j), m, path) == FirstRoute(routes, m, path)
  {
    if j > 0 && !Matches(routes[0], m, path) {
      assert Without(routes, j)[1..] == Without(routes[1..], j - 1);
      WithoutNonMatching(routes[1..], j - 1, m, path);
    } else if j == 0 {
      assert Without(routes, 0) == routes[1..];
    }
  }

  /**
   * Registering a route a second time changes no dispatch: the earlier copy always wins, so the
   * router behaves as if the later copy were absent.
   */
  lemma {:induction false} DuplicateIsShadowed(routes: seq<Route>, i: nat, j: nat, m: Method, path: seq<string>)
    requires i < j < |routes| && routes[i] == routes[j]
    ensures FirstRoute(Without(routes, j), m, path) == FirstRoute(routes, m, path)
  {
    if i == 0 {
      if !Matches(routes[0], m, path) {
        assert Without(routes, j)[1..] == Without(routes[1..], j - 1);
        WithoutNonMatching(routes[1..], j - 1, m, path);
      }
    } else if !Matches(routes[0], m, path) {
      assert Without(routes, j)[1..] == Without(routes[1..], j - 1);
      DuplicateIsShadowed(routes[1..], i - 1, j - 1, m, path);
    }
  }

  /** The values of the route's `:name` segments, as `req.params`; a later segment wins a name. */
  function Params(pattern: seq<Segment>, path: seq<string>): (r: map<string, string>)
    requires |pattern| == |path|
    ensures forall n :: n in r <==> exists i :: 0 <= i < |pattern| && pattern[i] == Param(n)
    decreases |pattern|
  {
    if |pattern| == 0 then map[]
    else
      var n := |pattern| - 1;
      var rest := Params(pattern[..n], path[..n]);
      assert forall i :: 0 <= i < n ==> pattern[..n][i] == pattern[i];
      match pattern[n]
      case Lit(_) => rest
      case Param(name) => rest[name := path[n]]
  }

  // ---------------------------------------------------------------------------
  // The tables
  // ---------------------------------------------------------------------------

  const PRODUCTS: Segment := Lit("products")
  const INVENTORY: Segment := Lit("inventory")
  const ID: Segment := Param("id")

  /** The `/api/auth` router: register and login are open, the profile needs a token. */
  const AUTH_ROUTES: seq<Route> := [
    Route(POST, [Lit("register")], [], RegisterH),
    Route(POST, [Lit("login")], [], LoginH),
    Route(GET, [Lit("me")], [ProtectMw], GetProfileH)
  ]

  /** The `/api` router, in registration order; the product delete is registered twice. */
  const PROTECTED_ROUTES: seq<Route> := [
    Route(GET, [PRODUCTS], [ProtectMw], GetAllProductsH),
    Route(GET, [PRODUCTS, Lit("get"), ID], [ProtectMw], GetProductByIdH),
    Route(POST, [PRODUCTS], [ProtectMw], CreateProductH),
    Route(PUT, [PRODUCTS, Lit("update"), ID], [ProtectMw], UpdateProductH),
    Route(DELETE, [PRODUCTS, Lit("delete"), ID], [ProtectMw], DeleteProductH),
    Route(DELETE, [PRODUCTS, Lit("delete"), ID], [ProtectMw], DeleteProductH),
    Route(GET, [PRODUCTS, Lit("mine")], [ProtectMw], GetMyProductsH),
    Route(GET, [INVENTORY], [ProtectMw], GetAllInventoriesH),
    Route(GET, [INVENTORY, Lit("get"), ID], [ProtectMw], GetInventoryByIdH),
    Route(POST, [INVENTORY], [ProtectMw], CreateInventoryH),
    Route(PUT, [INVENTORY, Lit("update"), ID], [ProtectMw], UpdateInventoryH),
    Route(DELETE, [INVENTORY, Lit("delete"), ID], [ProtectMw], DeleteInventoryH)
  ]

  /** The second product-delete registration is dead: dropping it changes no dispatch. */
  lemma SecondDeleteIsDead(m: Method, path: seq<string>)
    ensures PROTECTED_ROUTES[4] == PROTECTED_ROUTES[5]
    ensures FirstRoute(Without(PROTECTED_ROUTES, 5), m, path) == FirstRoute(PROTECTED_ROUTES, m, path)
  {
    DuplicateIsShadowed(PROTECTED_ROUTES, 4, 5, m, path);
  }

  /** Register and login are the only handlers reachable without a token. */
  predicate OpenHandler(h: Handler) { h == RegisterH || h == LoginH }

  /** A registration runs `protect` exactly when its handler is not an open one. */
  predicate GuardedAsDeclared(r: Route) { ProtectMw in r.chain <==> !OpenHandler(r.handler) }

  lemma AuthTableGuarded()
    ensures forall r :: r in AUTH_ROUTES ==> GuardedAsDeclared(r)
  {
  }

  lemma ProtectedTableGuarded()
    ensures forall r :: r in PROTECTED_ROUTES ==> r.chain == [ProtectMw] && !OpenHandler(r.handler)
  {
    forall i | 0 <= i < |PROTECTED_ROUTES|
      ensures PROTECTED_ROUTES[i].chain == [ProtectMw] && !OpenHandler(PROTECTED_ROUTES[i].handler)
    {
    }
  }

  /** A route found for a request, with its parameters. */
  datatype Target = Target(route: Route, params: map<string, string>)

  /**
   * `app.use("/api/auth", authRouter)` then `app.use("/api", protectedRouter)`: a request under
   * `/api/auth` that the auth router does not match falls through to the `/api` router.
   */
  function AppRoute(m: Method, segs: seq<string>): (r: Option<Target>)
    ensures r.Some? ==> |segs| >= 1 && Lower(segs[0]) == Lower("api")
    ensures r.Some? ==> GuardedAsDeclared(r.value.route)
    ensures r.Some? && OpenHandler(r.value.route.handler) ==>
      && |segs| >= 2 && Lower(segs[1]) == Lower("auth")
      && Some(r.value.route) == FirstRoute(AUTH_ROUTES, m, segs[2..])
      && r.value.params == map[]
  {
    if |segs| >= 2 && Lower(segs[0]) == Lower("api") && Lower(segs[1]) == Lower("auth")
       && FirstRoute(AUTH_ROUTES, m, segs[2..]).Some?
    then
      var route := FirstRoute(AUTH_ROUTES, m, segs[2..]).value;
      AuthTableGuarded();
      var ps := Params(route.pattern, segs[2..]);
      assert OpenHandler(route.handler) ==> ps == map[] by {
        if OpenHandler(route.handler) {
          assert forall i :: 0 <= i < |route.pattern| ==> route.pattern[i].Lit?;
        }
      }
      Some(Target(route, ps))
    else if |segs| >= 1 && Lower(segs[0]) == Lower("api") && FirstRoute(PROTECTED_ROUTES, m, segs[1..]).Some? then
      var route := FirstRoute(PROTECTED_ROUTES, m, segs[1..]).value;
      ProtectedTableGuarded();
      Some(Target(route, Params(route.pattern, segs[1..])))
    else None
  }

  // ---------------------------------------------------------------------------
  // Running the middleware chain
  // ---------------------------------------------------------------------------

  /**
   * What the app does with a request: Express's default 404, a 401 from `protect`, or the handler
   * called with `req.params` and, behind `protect`, `req.user`.
   */
  datatype Outcome =
    | NotFound
    | Rejected(status: int, message: string)
    | Invoke(handler: Handler, params: map<string, string>, user: Option<PublicUser>)

  function Handle(db: Db, m: Method, path: string, header: Option<string>, nowMs: nat, k: Primitives, storeFails: bool): (r: Outcome)
    ensures r.NotFound? <==> AppRoute(m, Segments(path)).None?
    ensures r.Invoke? ==> (r.user.None? <==> OpenHandler(r.handler))
    ensures r.Rejected? ==> r.status == UNAUTHORIZED
    ensures AppRoute(m, Segments(path)).Some? && !OpenHandler(AppRoute(m, Segments(path)).value.route.handler) ==>
      (r.Invoke? <==> Protect(db, header, nowMs, k, storeFails).Next?)
    ensures r.Invoke? ==> r.handler == AppRoute(m, Segments(path)).value.route.handler
    ensures r.Invoke? && r.user.Some? ==> r.user.value == Protect(db, header, nowMs, k, storeFails).user
  {
    match AppRoute(m, Segments(path))
    case None => NotFound
    case Some(t) =>
      if ProtectMw in t.route.chain then
        match Protect(db, header, nowMs, k, storeFails)
        case Reject(s, msg) => Rejected(s, msg)
        case Next(u) => Invoke(t.route.handler, t.params, Some(u))
      else Invoke(t.route.handler, t.params, None)
  }

  /** Without a bearer header, every route except register and login answers "No token provided". */
  lemma NoTokenNoHandler(db: Db, m: Method, path: string, header: Option<string>, nowMs: nat, k: Primitives, storeFails: bool)
    requires !HasBearer(header)
    requires AppRoute(m, Segments(path)).Some? && !OpenHandler(AppRoute(m, Segments(path)).value.route.handler)
    ensures Handle(db, m, path, header, nowMs, k, storeFails) == Rejected(UNAUTHORIZED, "No token provided")
  {
  }

  /**
   * `GET /api/auth/me` is always served: by `protect`'s 401, or by `getProfile` with the user
   * `protect` loaded, which therefore always answers 200 and never its 404.
   */
  lemma ProfileRouteAnswers(db: Db, header: Option<string>, nowMs: nat, k: Primitives, storeFails: bool)
    ensures var o := Handle(db, GET, "/api/auth/me", header, nowMs, k, storeFails);
      || o.Rejected?
      || (o.Invoke? && o.handler == GetProfileH && o.user.Some? && GetProfile(o.user).status == OK)
  {
    var segs := ["api", "auth", "me"];
    SegmentsOfJoin(segs);
    assert JoinPath(segs) == "/api/auth/me";
    FirstRouteIs(AUTH_ROUTES, GET, ["me"], 2);
  }
}
