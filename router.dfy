/** The single-page client's route table and its navigation guard. */
module Router {
  import opened Common

  /** One entry of the route table: its path, where it redirects (if it
      does), and whether its `meta` asks for authentication. */
  datatype Route = Route(path: string, redirect: Option<string>, requiresAuth: bool)

  const Routes: seq<Route> := [
    Route("/", Some("/products"), false),
    Route("/register", None, false),
    Route("/login", None, false),
    Route("/products", None, false),
    Route("/cart", None, true),
    Route("/orders", None, true)
  ]

  /** The first route of `routes` whose path is `path`. */
  function MatchIn(routes: seq<Route>, path: string): (r: Option<Route>)
    ensures r.Some? ==> r.value in routes && r.value.path == path
    ensures r.None? <==> forall k :: 0 <= k < |routes| ==> routes[k].path != path
  {
    if routes == [] then None
    else if routes[0].path == path then Some(routes[0])
    else MatchIn(routes[1..], path)
  }

  function Match(path: string): Option<Route> {
    MatchIn(Routes, path)
  }

  /** Where a navigation to `path` lands before the guard runs: a route
      with a `redirect` is replaced by its target. */
  function Resolve(path: string): string {
    match Match(path)
    case Some(route) => if route.redirect.Some? then route.redirect.value else path
    case None => path
  }

  /** `to.meta.requiresAuth`: false for a path no route matches. */
  predicate RequiresAuth(path: string) {
    match Match(path)
    case Some(route) => route.requiresAuth
    case None => false
  }

  /** JavaScript truthiness of `auth.token` (a string or null). */
  predicate HasToken(token: Option<string>) {
    token.Some? && token.value != ""
  }

  /** What the guard tells the router. */
  datatype Decision = Proceed | RedirectTo(path: string)

  /** `beforeEach`: a protected destination without a token goes to
      `/login`; anything else proceeds. It reads the token and nothing else. */
  function Guard(to: string, token: Option<string>): (d: Decision)
    ensures d == RedirectTo("/login") <==> RequiresAuth(to) && !HasToken(token)
    ensures d == Proceed <==> !RequiresAuth(to) || HasToken(token)
  {
    if RequiresAuth(to) && !HasToken(token) then RedirectTo("/login") else Proceed
  }

  /** Where a navigation to `path` ends: the resolved target if the guard
      lets it through, otherwise the guard's redirect (itself resolved and
      guarded again). */
  function Navigate(path: string, token: Option<string>): string {
    var to := Resolve(path);
    match Guard(to, token)
    case Proceed => to
    case RedirectTo(next) => Resolve(next)
  }

  /** `/` redirects to `/products`. */
  lemma {:induction false} RootRedirects()
    ensures Resolve("/") == "/products"
    ensures forall token :: Navigate("/", token) == "/products"
  {
  }

  /** Exactly `/cart` and `/orders` ask for authentication. */
  lemma {:induction false} ProtectedRoutes(path: string)
    ensures RequiresAuth(path) <==> path == "/cart" || path == "/orders"
  {
  }

  /** The guard's redirect is final: `/login` resolves to itself and is not
      protected, so the guard lets it through. */
  lemma {:induction false} LoginIsPublic(token: Option<string>)
    ensures Resolve("/login") == "/login" && !RequiresAuth("/login")
    ensures Guard("/login", token) == Proceed
  {
  }

  /** A navigation ends at `/login` exactly when its resolved destination is
      protected and there is no token; otherwise it ends at that destination. */
  lemma {:induction false} NavigationOutcome(path: string, token: Option<string>)
    ensures Navigate(path, token) ==
            if RequiresAuth(Resolve(path)) && !HasToken(token) then "/login" else Resolve(path)
  {
  }

  /** Without a token a navigation never ends at a protected route. */
  lemma {:induction false} NoTokenNeverProtected(path: string, token: Option<string>)
    requires !HasToken(token)
    ensures !RequiresAuth(Navigate(path, token))
  {
  }

  /** A path no route matches is neither redirected nor guarded. */
  lemma {:induction false} UnmatchedProceeds(path: string, token: Option<string>)
    requires forall k :: 0 <= k < |Routes| ==> Routes[k].path != path
    ensures Match(path) == None && Navigate(path, token) == path
  {
  }

  /** Wherever a navigation ends, the guard lets it stay there. */
  lemma {:induction false} NavigationSettles(path: string, token: Option<string>)
    ensures Guard(Navigate(path, token), token) == Proceed
  {
  }
}
