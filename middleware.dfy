/**
 * The request middleware: with Supabase configured, a dashboard path without a signed-in
 * user is sent to the login page with the original path in `redirectTo`, and a signed-in
 * user asking for the login page is sent to the dashboard; everything else passes on.
 * Whether a user is signed in is the outcome of the session lookup, given as an input.
 */
module Middleware {
  import opened Wrappers
  import opened Text
  import Env
  import Constants

  /** A query string as the ordered name/value pairs of `URLSearchParams`. */
  type Query = seq<(string, string)>

  datatype Url = Url(pathname: string, query: Query)

  datatype Decision =
    | Next                 // `NextResponse.next(...)`: the request goes on to the page
    | Redirect(to: Url)

  /** The pairs of `q` whose name is not `name`, in order. */
  function Without(q: Query, name: string): (r: Query)
    ensures |r| <= |q|
    ensures forall p :: p in r <==> p in q && p.0 != name
    ensures ValuesOf(r, name) == []
  {
    if q == [] then []
    else if q[0].0 == name then Without(q[1..], name)
    else
      var w := Without(q[1..], name);
      assert ([q[0]] + w)[1..] == w;
      [q[0]] + w
  }

  /** Removing a name twice removes nothing more. */
  lemma {:induction false} WithoutIdempotent(q: Query, name: string)
    ensures Without(Without(q, name), name) == Without(q, name)
  {
    if q != [] {
      WithoutIdempotent(q[1..], name);
      if q[0].0 != name {
        assert ([q[0]] + Without(q[1..], name))[1..] == Without(q[1..], name);
      }
    }
  }

  /** The values of the pairs named `name`, in order. */
  function ValuesOf(q: Query, name: string): seq<string>
  {
    if q == [] then []
    else if q[0].0 == name then [q[0].1] + ValuesOf(q[1..], name)
    else ValuesOf(q[1..], name)
  }

  /**
   * `searchParams.set(name, value)`: the first pair named `name` takes the new value and
   * the later ones are removed; with no such pair, one is appended.
   */
  function SetParam(q: Query, name: string, value: string): (r: Query)
    ensures ValuesOf(r, name) == [value]
    ensures Without(r, name) == Without(q, name)
    ensures ValuesOf(q, name) == [] ==> r == q + [(name, value)]
  {
    if q == [] then [(name, value)]
    else if q[0].0 == name then
      var w := Without(q[1..], name);
      assert ([(name, value)] + w)[1..] == w;
      WithoutIdempotent(q[1..], name);
      [(name, value)] + w
    else
      var rest := SetParam(q[1..], name, value);
      assert ([q[0]] + rest)[1..] == rest;
      [q[0]] + rest
  }

  /** The parameter `name` as `searchParams.get(name)` reads it: the first value. */
  function GetParam(q: Query, name: string): (r: Option<string>)
    ensures r.Some? <==> ValuesOf(q, name) != []
    ensures r.Some? ==> r.value == ValuesOf(q, name)[0]
  {
    if q == [] then None
    else if q[0].0 == name then Some(q[0].1)
    else GetParam(q[1..], name)
  }

  const RedirectParam := "redirectTo"

  predicate IsProtected(pathname: string) { StartsWith(pathname, Constants.Dashboard) }

  /** `middleware(request)` given the environment and whether the session has a user. */
  function Decide(env: Env.Environment, url: Url, hasUser: bool): (d: Decision)
    ensures Env.SupabaseUrl(env) == "" || Env.SupabaseAnonKey(env) == "" ==> d == Next
    ensures d.Redirect? && d.to.pathname == Constants.Login <==>
      Env.SupabaseUrl(env) != "" && Env.SupabaseAnonKey(env) != "" && IsProtected(url.pathname) && !hasUser
    ensures d.Redirect? && d.to.pathname == Constants.Login ==>
      GetParam(d.to.query, RedirectParam) == Some(url.pathname) &&
      Without(d.to.query, RedirectParam) == Without(url.query, RedirectParam)
    ensures d.Redirect? && d.to.pathname == Constants.Dashboard <==>
      Env.SupabaseUrl(env) != "" && Env.SupabaseAnonKey(env) != "" && url.pathname == Constants.Login && hasUser
    ensures d.Redirect? && d.to.pathname == Constants.Dashboard ==> d.to.query == url.query
    ensures d.Redirect? ==> d.to.pathname in {Constants.Login, Constants.Dashboard}
  {
    if Env.SupabaseUrl(env) == "" || Env.SupabaseAnonKey(env) == "" then Next
    else if IsProtected(url.pathname) && !hasUser then
      Redirect(Url(Constants.Login, SetParam(url.query, RedirectParam, url.pathname)))
    else if url.pathname == Constants.Login && hasUser then
      Redirect(Url(Constants.Dashboard, url.query))
    else Next
  }

  /** The `matcher` patterns `/dashboard/:path*` and `/login`. */
  predicate Matches(pathname: string) {
    pathname == Constants.Dashboard || StartsWith(pathname, Constants.Dashboard + "/") ||
    pathname == Constants.Login
  }

  /** Every redirect the middleware issues comes from a path the matcher covers or one starting with `/dashboard`. */
  lemma RedirectsOnlyGuardedPaths(env: Env.Environment, url: Url, hasUser: bool)
    ensures Decide(env, url, hasUser).Redirect? ==> IsProtected(url.pathname) || url.pathname == Constants.Login
    ensures Matches(url.pathname) ==> IsProtected(url.pathname) || url.pathname == Constants.Login
  {
    if StartsWith(url.pathname, Constants.Dashboard + "/") {
      assert url.pathname[..|Constants.Dashboard|] == (Constants.Dashboard + "/")[..|Constants.Dashboard|];
    }
  }

  /** A signed-in user on a dashboard path passes through. */
  lemma SignedInDashboardPasses(env: Env.Environment, url: Url)
    requires IsProtected(url.pathname)
    ensures Decide(env, url, true) == Next
  {
    assert url.pathname[1] == 'd' != Constants.Login[1];
  }

  /** Following a redirect with the same session never redirects again. */
  lemma NoRedirectLoop(env: Env.Environment, url: Url, hasUser: bool)
    requires Decide(env, url, hasUser).Redirect?
    ensures Decide(env, Decide(env, url, hasUser).to, hasUser) == Next
  {
    var to := Decide(env, url, hasUser).to;
    if to.pathname == Constants.Login {
      assert !IsProtected(Constants.Login) by { assert Constants.Login[1] != Constants.Dashboard[1]; }
    }
  }
}
