/**
 * The frontend's axios client: the interceptor that attaches the stored token, the interceptor
 * that logs the browser out on a 401, and the URL builders of `productAPI` and `inventoryAPI`,
 * which are relative to the `/api` base URL.
 */
module ApiClient {
  import opened Wrappers
  import opened Text
  import opened Http
  import opened AuthMiddleware
  import opened Routes

  /** `localStorage` and `window.location.href`. */
  datatype Browser = Browser(storage: map<string, string>, location: string)

  /** A stored value is truthy when it is a non-empty string. */
  function StoredToken(b: Browser): Option<string> {
    if "token" in b.storage && b.storage["token"] != "" then Some(b.storage["token"]) else None
  }

  /** The request interceptor: `Authorization: Bearer <token>` when the stored token is truthy. */
  function AuthorizationHeader(b: Browser): (r: Option<string>)
    ensures r.Some? <==> StoredToken(b).Some?
    ensures r.Some? ==> r.value == BEARER + StoredToken(b).value
  {
    match StoredToken(b)
    case None => None
    case Some(t) => Some(BEARER + t)
  }

  /**
   * The header the client attaches is one `protect` accepts as a bearer header, and `protect`
   * reads back exactly the stored token; with no truthy token it sends none and `protect` answers
   * "No token provided".
   */
  lemma HeaderCarriesStoredToken(b: Browser)
    ensures HasBearer(AuthorizationHeader(b)) <==> StoredToken(b).Some?
    ensures StoredToken(b).Some? && ' ' !in StoredToken(b).value ==>
      BearerToken(AuthorizationHeader(b).value) == StoredToken(b).value
  {
    if StoredToken(b).Some? {
      var t := StoredToken(b).value;
      assert (BEARER + t)[..7] == BEARER;
      if ' ' !in t {
        BearerTokenRoundTrip(t);
      }
    }
  }

  /**
   * The error interceptor: a 401 removes the token and the user and sends the browser to `/`;
   * every error, 401 or not, is passed on rejected. `status` is `error.response?.status`.
   */
  function OnResponseError(b: Browser, status: Option<int>): (r: Browser)
    ensures status == Some(UNAUTHORIZED) ==>
      && "token" !in r.storage && "user" !in r.storage && r.location == "/"
      && forall key :: key in b.storage && key != "token" && key != "user" ==> key in r.storage && r.storage[key] == b.storage[key]
    ensures status == Some(UNAUTHORIZED) ==> r.storage.Keys == b.storage.Keys - {"token", "user"}
    ensures status != Some(UNAUTHORIZED) ==> r == b
  {
    if status == Some(UNAUTHORIZED) then
      Browser(b.storage - {"token", "user"}, "/")
    else b
  }

  /** After a 401 the next request goes out without a token. */
  lemma LoggedOutAfter401(b: Browser)
    ensures AuthorizationHeader(OnResponseError(b, Some(UNAUTHORIZED))).None?
    ensures OnResponseError(OnResponseError(b, Some(UNAUTHORIZED)), Some(UNAUTHORIZED)) == OnResponseError(b, Some(UNAUTHORIZED))
  {
  }

  datatype Resource = Products | Inventory

  datatype Call = GetAll | GetById(id: string) | GetMine | Create | Update(id: string) | Delete(id: string)

  datatype ApiRequest = ApiRequest(verb: Method, url: string)

  /** The request each builder sends; `inventoryAPI` has no `getMine`. */
  function Request(res: Resource, c: Call): Option<ApiRequest> {
    var base := if res == Products then "/products" else "/inventory";
    match c
    case GetAll => Some(ApiRequest(GET, base))
    case GetById(id) => Some(ApiRequest(GET, base + "/get/" + id))
    case GetMine => if res == Products then Some(ApiRequest(GET, "/products/mine")) else None
    case Create => Some(ApiRequest(POST, base))
    case Update(id) => Some(ApiRequest(PUT, base + "/update/" + id))
    case Delete(id) => Some(ApiRequest(DELETE, base + "/delete/" + id))
  }

  /** The server handler each call is meant for; only `productAPI` has a `getMine`. */
  function Intended(res: Resource, c: Call): Handler
    requires Request(res, c).Some?
  {
    match c
    case GetAll => if res == Products then GetAllProductsH else GetAllInventoriesH
    case GetById(_) => if res == Products then GetProductByIdH else GetInventoryByIdH
    case GetMine => GetMyProductsH
    case Create => if res == Products then CreateProductH else CreateInventoryH
    case Update(_) => if res == Products then UpdateProductH else UpdateInventoryH
    case Delete(_) => if res == Products then DeleteProductH else DeleteInventoryH
  }

  predicate HasId(c: Call) { c.GetById? || c.Update? || c.Delete? }

  /** The segments of the URL a call requests below `/api`. */
  function CallSegments(res: Resource, c: Call): seq<string> {
    var base := if res == Products then "products" else "inventory";
    match c
    case GetAll => [base]
    case GetById(id) => [base, "get", id]
    case GetMine => [base, "mine"]
    case Create => [base]
    case Update(id) => [base, "update", id]
    case Delete(id) => [base, "delete", id]
  }

  lemma JoinCons(a: string, rest: seq<string>)
    ensures JoinPath([a] + rest) == "/" + a + JoinPath(rest)
  {
    assert ([a] + rest)[1..] == rest;
  }

  /** `/x/a`, `/x/a/b` and `/x/a/b/c` as joined paths. */
  lemma JoinShapes(x: string, a: string, b: string, c: string)
    ensures JoinPath([x, a]) == "/" + x + ("/" + a)
    ensures JoinPath([x, a, b]) == "/" + x + ("/" + a + ("/" + b))
    ensures JoinPath([x, a, b, c]) == "/" + x + ("/" + a + ("/" + b + ("/" + c)))
  {
    JoinCons(c, []);
    JoinCons(b, [c]);
    JoinCons(b, []);
    JoinCons(a, [b, c]);
    JoinCons(a, [b]);
    JoinCons(a, []);
    JoinCons(x, [a, b, c]);
    JoinCons(x, [a, b]);
    JoinCons(x, [a]);
    assert [c] + [] == [c] && [b] + [] == [b] && [a] + [] == [a];
    assert [b] + [c] == [b, c] && [a] + [b, c] == [a, b, c] && [x] + [a, b, c] == [x, a, b, c];
    assert [a] + [b] == [a, b] && [x] + [a, b] == [x, a, b] && [x] + [a] == [x, a];
  }

  /** `p + "/w/" + id`, regrouped as segments. */
  lemma Regroup(p: string, w: string, id: string)
    ensures p + ("/" + w + "/") + id == p + ("/" + w + ("/" + id))
  {
  }

  /** The URL of a call with an id, `${base}/${w}/${id}`, joined below `/api`. */
  lemma UrlWithId(b: string, base: string, w: string, wslash: string, id: string)
    requires base == "/" + b && wslash == "/" + w + "/"
    ensures "/api" + (base + wslash + id) == JoinPath(["api", b, w, id])
  {
    JoinShapes("api", b, w, id);
    Regroup(base, w, id);
    assert "/api" == "/" + "api";
  }

  lemma UrlOfCollection(b: string, base: string)
    requires base == "/" + b
    ensures "/api" + base == JoinPath(["api", b])
  {
    JoinShapes("api", b, "", "");
    assert "/api" == "/" + "api";
  }

  lemma UrlOfMine()
    ensures "/api" + "/products/mine" == JoinPath(["api", "products", "mine"])
  {
    JoinShapes("api", "products", "mine", "");
    assert "/api" + "/products/mine" == "/" + "api" + ("/" + "products" + ("/" + "mine"));
  }

  lemma UrlIsJoined(res: Resource, c: Call)
    requires Request(res, c).Some?
    ensures "/api" + Request(res, c).value.url == JoinPath(["api"] + CallSegments(res, c))
  {
    var b := if res == Products then "products" else "inventory";
    var base := if res == Products then "/products" else "/inventory";
    assert base == "/" + b;
    match c
    case GetAll =>
      UrlOfCollection(b, base);
      assert ["api"] + CallSegments(res, c) == ["api", b];
    case Create =>
      UrlOfCollection(b, base);
      assert ["api"] + CallSegments(res, c) == ["api", b];
    case GetMine =>
      UrlOfMine();
      assert ["api"] + CallSegments(res, c) == ["api", "products", "mine"];
    case GetById(id) =>
      UrlWithId(b, base, "get", "/get/", id);
      assert ["api"] + CallSegments(res, c) == ["api", b, "get", id];
    case Update(id) =>
      UrlWithId(b, base, "update", "/update/", id);
      assert ["api"] + CallSegments(res, c) == ["api", b, "update", id];
    case Delete(id) =>
      UrlWithId(b, base, "delete", "/delete/", id);
      assert ["api"] + CallSegments(res, c) == ["api", b, "delete", id];
  }

  /**
   * Every builder's request reaches the server handler it is meant for, behind `protect`, with the
   * id it was given as `req.params.id`, whenever that id is a plain path segment.
   */
  lemma CallsReachIntendedHandler(res: Resource, c: Call)
    requires Request(res, c).Some?
    requires HasId(c) ==> PlainSegment(c.id)
    ensures var rq := Request(res, c).value;
      var t := AppRoute(rq.verb, Segments("/api" + rq.url));
      && t.Some?
      && t.value.route.handler == Intended(res, c)
      && t.value.route.chain == [ProtectMw]
      && t.value.params == (if HasId(c) then map["id" := c.id] else map[])
  {
    var rq := Request(res, c).value;
    var segs := CallSegments(res, c);
    UrlIsJoined(res, c);
    SegmentsOfJoin(["api"] + segs);
    assert Segments("/api" + rq.url) == ["api"] + segs;
    ReachesIntended(res, c, rq.verb, segs);
  }

  /** A path whose first segment is not `products`, in any letter case, matches no product route. */
  lemma NotAProductPath(m: Method, path: seq<string>)
    requires |path| > 0 && Lower(path[0]) != Lower("products")
    ensures forall i :: 0 <= i < 7 ==> !Matches(PROTECTED_ROUTES[i], m, path)
  {
    forall i | 0 <= i < 7
      ensures !Matches(PROTECTED_ROUTES[i], m, path)
    {
      var r := PROTECTED_ROUTES[i];
      assert r.pattern[0] == PRODUCTS;
      assert Matches(r, m, path) ==> SegmentMatches(r.pattern[0], path[0]);
    }
  }

  /** A path under `/api` that is not under `/api/auth` goes to the `/api` router. */
  lemma ProtectedDispatch(m: Method, segs: seq<string>, j: nat)
    requires |segs| >= 1 && Lower(segs[0]) != Lower("auth")
    requires j < |PROTECTED_ROUTES| && FirstRoute(PROTECTED_ROUTES, m, segs) == Some(PROTECTED_ROUTES[j])
    ensures AppRoute(m, ["api"] + segs) == Some(Target(PROTECTED_ROUTES[j], Params(PROTECTED_ROUTES[j].pattern, segs)))
  {
    var full := ["api"] + segs;
    assert full[0] == "api" && full[1] == segs[0] && full[1..] == segs;
  }

  lemma ParamsOfShapes(x: string, y: string, s: seq<string>)
    ensures |s| == 1 ==> Params([Lit(x)], s) == map[]
    ensures |s| == 2 ==> Params([Lit(x), Lit(y)], s) == map[]
    ensures |s| == 3 ==> Params([Lit(x), Lit(y), ID], s) == map["id" := s[2]]
  {
    if |s| == 3 {
      assert [Lit(x), Lit(y), ID][..2] == [Lit(x), Lit(y)];
      assert Params([Lit(x), Lit(y)], s[..2]) == map[];
    }
  }

  /** The ensures of `ReachesIntended`, once the index of the route the call reaches is known. */
  lemma ReachesRoute(res: Resource, c: Call, m: Method, segs: seq<string>, j: nat)
    requires Request(res, c).Some? && m == Request(res, c).value.verb && segs == CallSegments(res, c)
    requires HasId(c) ==> PlainSegment(c.id)
    requires j < |PROTECTED_ROUTES| && PROTECTED_ROUTES[j].handler == Intended(res, c)
    requires Matches(PROTECTED_ROUTES[j], m, segs)
    requires forall i :: 0 <= i < j ==> !Matches(PROTECTED_ROUTES[i], m, segs)
    requires |segs[0]| != 4
    requires PROTECTED_ROUTES[j].chain == [ProtectMw]
    requires Params(PROTECTED_ROUTES[j].pattern, segs) == (if HasId(c) then map["id" := c.id] else map[])
    ensures var t := AppRoute(m, ["api"] + segs);
      && t.Some?
      && t.value.route.handler == Intended(res, c)
      && t.value.route.chain == [ProtectMw]
      && t.value.params == (if HasId(c) then map["id" := c.id] else map[])
  {
    FirstRouteIs(PROTECTED_ROUTES, m, segs, j);
    assert |Lower(segs[0])| != |Lower("auth")|;
    ProtectedDispatch(m, segs, j);
  }

  /** The parameters a call's path binds: `id` for the three routes that end in `:id`. */
  lemma CallParams(res: Resource, c: Call, j: nat)
    requires Request(res, c).Some? && j < |PROTECTED_ROUTES|
    requires |CallSegments(res, c)| == |PROTECTED_ROUTES[j].pattern|
    requires forall k :: 0 <= k < |PROTECTED_ROUTES[j].pattern| - 1 ==> PROTECTED_ROUTES[j].pattern[k].Lit?
    requires HasId(c) <==> PROTECTED_ROUTES[j].pattern[|PROTECTED_ROUTES[j].pattern| - 1] == ID
    requires !HasId(c) ==> PROTECTED_ROUTES[j].pattern[|PROTECTED_ROUTES[j].pattern| - 1].Lit?
    ensures Params(PROTECTED_ROUTES[j].pattern, CallSegments(res, c)) == (if HasId(c) then map["id" := c.id] else map[])
  {
    var pat := PROTECTED_ROUTES[j].pattern;
    var segs := CallSegments(res, c);
    if |segs| == 1 {
      ParamsOfShapes(pat[0].text, "", segs);
      assert pat == [Lit(pat[0].text)];
    } else if |segs| == 2 {
      ParamsOfShapes(pat[0].text, pat[1].text, segs);
      assert pat == [Lit(pat[0].text), Lit(pat[1].text)];
    } else {
      ParamsOfShapes(pat[0].text, pat[1].text, segs);
      assert pat == [Lit(pat[0].text), Lit(pat[1].text), ID];
    }
  }

  /** `productAPI` calls reach routes 0 to 6 of the `/api` router. */
  lemma ReachesProductRoute(c: Call, m: Method, segs: seq<string>)
    requires Request(Products, c).Some? && m == Request(Products, c).value.verb && segs == CallSegments(Products, c)
    requires HasId(c) ==> PlainSegment(c.id)
    ensures var t := AppRoute(m, ["api"] + segs);
      && t.Some?
      && t.value.route.handler == Intended(Products, c)
      && t.value.route.chain == [ProtectMw]
      && t.value.params == (if HasId(c) then map["id" := c.id] else map[])
  {
    var j: nat := match c
      case GetAll => 0
      case GetById(_) => 1
      case Create => 2
      case Update(_) => 3
      case Delete(_) => 4
      case GetMine => 6;
    CallParams(Products, c, j);
    ReachesRoute(Products, c, m, segs, j);
  }

  /** `inventoryAPI` calls reach routes 7 to 11 of the `/api` router. */
  lemma ReachesInventoryRoute(c: Call, m: Method, segs: seq<string>)
    requires Request(Inventory, c).Some? && m == Request(Inventory, c).value.verb && segs == CallSegments(Inventory, c)
    requires HasId(c) ==> PlainSegment(c.id)
    ensures var t := AppRoute(m, ["api"] + segs);
      && t.Some?
      && t.value.route.handler == Intended(Inventory, c)
      && t.value.route.chain == [ProtectMw]
      && t.value.params == (if HasId(c) then map["id" := c.id] else map[])
  {
    assert |Lower(segs[0])| != |Lower("products")|;
    NotAProductPath(m, segs);
    var j: nat := match c
      case GetAll => 7
      case GetById(_) => 8
      case Create => 9
      case Update(_) => 10
      case Delete(_) => 11
      case GetMine => 0;
    CallParams(Inventory, c, j);
    ReachesRoute(Inventory, c, m, segs, j);
  }

  lemma ReachesIntended(res: Resource, c: Call, m: Method, segs: seq<string>)
    requires Request(res, c).Some? && m == Request(res, c).value.verb && segs == CallSegments(res, c)
    requires HasId(c) ==> PlainSegment(c.id)
    ensures var t := AppRoute(m, ["api"] + segs);
      && t.Some?
      && t.value.route.handler == Intended(res, c)
      && t.value.route.chain == [ProtectMw]
      && t.value.params == (if HasId(c) then map["id" := c.id] else map[])
  {
    if res == Products {
      ReachesProductRoute(c, m, segs);
    } else {
      ReachesInventoryRoute(c, m, segs);
    }
  }
}
