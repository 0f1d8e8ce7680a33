/**
 * The application shell: which screen is shown, which sidebar entry is highlighted for the
 * browser's path, and the path each sidebar entry navigates to.
 */
module AppShell {
  import opened Text

  /** The four pages of the signed-in application. */
  datatype PageId = DashboardPage | ProductsPage | InventoryPage | AlertsPage

  /** The `pageId` strings the sidebar and navigation pass to `handlePageChange`. */
  function PageName(p: PageId): string {
    match p
    case DashboardPage => "dashboard"
    case ProductsPage => "products"
    case InventoryPage => "inventory"
    case AlertsPage => "alerts"
  }

  /** `handlePageChange`: the dashboard lives at `/`, every other page at `/` + its id. */
  function PagePath(p: PageId): (path: string)
    ensures |path| > 0 && path[0] == '/'
    ensures path == "/" <==> p == DashboardPage
  {
    "/" + (if p == DashboardPage then "" else PageName(p))
  }

  /** `getCurrentPage` as written: an exact comparison of the path with three literals. */
  function CurrentPageAsWritten(path: string): PageId {
    if path == "/products" then ProductsPage
    else if path == "/inventory" then InventoryPage
    else if path == "/alerts" then AlertsPage
    else DashboardPage
  }

  /** What the `<Routes>` table renders; `Redirect` is the `*` route's `<Navigate to="/">`. */
  datatype Screen = Render(page: PageId) | Redirect

  /** A path without its trailing slashes; a path made only of slashes keeps the first. */
  function TrimTrailingSlashes(path: string): (r: string)
    ensures |r| <= |path| && r == path[..|r|]
    ensures |r| > 1 ==> r[|r| - 1] != '/'
    ensures |path| > 0 ==> |r| > 0
    ensures forall i :: |r| <= i < |path| ==> path[i] == '/'
    decreases |path|
  {
    if |path| > 1 && path[|path| - 1] == '/' then TrimTrailingSlashes(path[..|path| - 1]) else path
  }

  /**
   * The router's view of a path: React Router matches a route's path with any number of trailing
   * slashes and, by default, regardless of letter case.
   */
  function RouterPath(path: string): (r: string)
    ensures |r| <= |path|
    ensures r == Lower(TrimTrailingSlashes(path))
  {
    Lower(TrimTrailingSlashes(path))
  }

  /**
   * The `<Routes>` table: `/`, `/products`, `/inventory` and `/alerts`, matched without regard to
   * letter case or a trailing slash, and `*` for everything else.
   */
  function RouteScreen(path: string): Screen {
    var p := RouterPath(path);
    if p == "/" then Render(DashboardPage)
    else if p == "/products" then Render(ProductsPage)
    else if p == "/inventory" then Render(InventoryPage)
    else if p == "/alerts" then Render(AlertsPage)
    else Redirect
  }

  /** `getCurrentPage` reading the path the way the router does. */
  function CurrentPage(path: string): (p: PageId)
    ensures RouteScreen(path).Render? ==> p == RouteScreen(path).page
    ensures RouteScreen(path).Redirect? ==> p == DashboardPage
  {
    match RouteScreen(path)
    case Render(page) => page
    case Redirect => DashboardPage
  }

  /** Lower-casing text that has no capital letters changes nothing. */
  lemma LowerOfLower(s: string)
    requires HasNoUpper(s)
    ensures Lower(s) == s
  {
  }

  /** The path of each page is already in the router's normal form. */
  lemma PagePathNormal(p: PageId)
    ensures RouterPath(PagePath(p)) == PagePath(p)
  {
    var path := PagePath(p);
    assert path[|path| - 1] != '/' || path == "/";
    LowerOfLower(path);
  }

  /**
   * Navigating to a page renders that page and highlights its sidebar entry, both as written and
   * in the corrected reading: the path round-trips to the page.
   */
  lemma NavigationRoundTrip(p: PageId)
    ensures CurrentPageAsWritten(PagePath(p)) == p
    ensures RouteScreen(PagePath(p)) == Render(p)
    ensures CurrentPage(PagePath(p)) == p
  {
    PagePathNormal(p);
    assert RouterPath(PagePath(p)) == PagePath(p);
  }

  /** An unknown path redirects to `/`, which renders and highlights the dashboard. */
  lemma UnknownPathLandsOnDashboard(path: string)
    requires RouteScreen(path).Redirect?
    ensures RouteScreen("/") == Render(DashboardPage) && CurrentPage("/") == DashboardPage
  {
    PagePathNormal(DashboardPage);
  }

  /**
   * As written, `/products/` renders the products page while the sidebar highlights the dashboard,
   * because `getCurrentPage` compares the raw path.
   */
  lemma TrailingSlashMisleadsHighlight()
    ensures RouteScreen("/products/") == Render(ProductsPage)
    ensures RouteScreen("/products//") == Render(ProductsPage)
    ensures CurrentPageAsWritten("/products/") == DashboardPage
    ensures CurrentPage("/products/") == ProductsPage
  {
    var path := "/products//";
    assert path[..|path| - 1] == "/products/";
    assert "/products/"[..9] == "/products";
    assert TrimTrailingSlashes("/products") == "/products";
    LowerOfLower("/products");
  }

  /** What the signed-in or signed-out user sees. */
  datatype View = Loading | LoginScreen | RegisterScreen | Shell(highlighted: PageId, screen: Screen)

  /**
   * `AppContent`: nothing but the loading message while the session is being restored; the
   * application for a signed-in user, its sidebar highlighting what `getCurrentPage` returns;
   * otherwise the login or the register form by `isLogin`.
   */
  function Content(loading: bool, signedIn: bool, isLogin: bool, path: string): (v: View)
    ensures loading <==> v == Loading
    ensures !loading && signedIn <==> v.Shell?
    ensures v.Shell? ==> v.screen == RouteScreen(path) && v.highlighted == CurrentPageAsWritten(path)
    ensures !loading && !signedIn ==> (v == LoginScreen <==> isLogin)
  {
    if loading then Loading
    else if signedIn then Shell(CurrentPageAsWritten(path), RouteScreen(path))
    else if isLogin then LoginScreen
    else RegisterScreen
  }

  /** `AppContent` with the highlight read the way the router reads the path. */
  function ContentIntended(loading: bool, signedIn: bool, isLogin: bool, path: string): (v: View)
    ensures v.Shell? ==> v.highlighted == CurrentPage(path)
    ensures !v.Shell? ==> v == Content(loading, signedIn, isLogin, path)
    ensures v.Shell? <==> Content(loading, signedIn, isLogin, path).Shell?
    ensures v.Shell? ==> v.screen == Content(loading, signedIn, isLogin, path).screen
  {
    var v := Content(loading, signedIn, isLogin, path);
    if v.Shell? then v.(highlighted := CurrentPage(path)) else v
  }

  /** On the paths the application itself navigates to, the two shells are the same. */
  lemma ContentsAgreeOnPagePaths(loading: bool, signedIn: bool, isLogin: bool, p: PageId)
    ensures Content(loading, signedIn, isLogin, PagePath(p)) == ContentIntended(loading, signedIn, isLogin, PagePath(p))
  {
    NavigationRoundTrip(p);
  }

  /** Signed in at `/products/`, the shell as written shows the products page under a dashboard highlight. */
  lemma ShellMisleadsAtTrailingSlash(isLogin: bool)
    ensures Content(false, true, isLogin, "/products/") == Shell(DashboardPage, Render(ProductsPage))
    ensures ContentIntended(false, true, isLogin, "/products/") == Shell(ProductsPage, Render(ProductsPage))
  {
    TrailingSlashMisleadsHighlight();
  }

  /** In the corrected shell the highlighted entry names the page on screen, unless the screen is a redirect. */
  lemma HighlightMatchesScreen(loading: bool, signedIn: bool, isLogin: bool, path: string)
    requires ContentIntended(loading, signedIn, isLogin, path).Shell?
    ensures var v := ContentIntended(loading, signedIn, isLogin, path);
      v.screen.Render? ==> v.highlighted == v.screen.page
  {
  }
}
