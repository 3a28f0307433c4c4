/**
 * The route gate run before every page under `/admin`, `/dashboard` and
 * `/auth`: it only looks for a session cookie and redirects, leaving the role
 * checks to the pages themselves.
 */
module Middleware {
  import opened Text

  /** One parsed cookie; a request holds at most one cookie of each name. */
  datatype Cookie = Cookie(name: string, value: string)

  /** Pass the request through, or redirect it to the path `target` on the same origin. */
  datatype Decision = Next | Redirect(target: string)

  const AccessCookie: string := "sb-access-token"
  const SessionMarker: string := "supabase.auth.token"
  const LoginPage: string := "/auth/login"
  const Dashboard: string := "/dashboard"

  function Pair(c: Cookie): string {
    c.name + "=" + c.value
  }

  /** The cookie header as the request renders it: `name=value` pairs joined by `; `. */
  function Serialize(cookies: seq<Cookie>): string {
    if cookies == [] then ""
    else if |cookies| == 1 then Pair(cookies[0])
    else Pair(cookies[0]) + "; " + Serialize(cookies[1..])
  }

  /** The marker text occurs in some cookie's name or value. */
  predicate MarkedCookie(cookies: seq<Cookie>) {
    exists i :: 0 <= i < |cookies| && (Contains(cookies[i].name, SessionMarker) || Contains(cookies[i].value, SessionMarker))
  }

  lemma EmptyHasNoMarker()
    ensures !Contains("", SessionMarker)
  {
  }

  /** A pair holds the marker exactly when its name or its value does: `=` is not part of it. */
  lemma MarkerInPair(c: Cookie)
    ensures Contains(Pair(c), SessionMarker) <==> Contains(c.name, SessionMarker) || Contains(c.value, SessionMarker)
  {
    assert '=' !in SessionMarker;
    ContainsAroundSeparator(c.name, '=', c.value, SessionMarker);
  }

  /** Joining two pieces with `; ` creates no marker and hides none. */
  lemma MarkerAcrossJoin(head: string, rest: string)
    ensures Contains(head + "; " + rest, SessionMarker) <==>
      Contains(head, SessionMarker) || Contains(rest, SessionMarker)
  {
    assert ';' !in SessionMarker && ' ' !in SessionMarker;
    assert head + "; " + rest == head + [';'] + ([' '] + rest);
    ContainsAroundSeparator(head, ';', [' '] + rest, SessionMarker);
    assert [' '] + rest == [] + [' '] + rest;
    ContainsAroundSeparator([], ' ', rest, SessionMarker);
    EmptyHasNoMarker();
  }

  lemma MarkedSplit(cookies: seq<Cookie>)
    requires cookies != []
    ensures MarkedCookie(cookies) <==>
      Contains(cookies[0].name, SessionMarker) || Contains(cookies[0].value, SessionMarker) || MarkedCookie(cookies[1..])
  {
    if MarkedCookie(cookies[1..]) {
      var i :| 0 <= i < |cookies[1..]| &&
        (Contains(cookies[1..][i].name, SessionMarker) || Contains(cookies[1..][i].value, SessionMarker));
      assert cookies[i + 1] == cookies[1..][i];
    }
    if MarkedCookie(cookies) {
      var i :| 0 <= i < |cookies| && (Contains(cookies[i].name, SessionMarker) || Contains(cookies[i].value, SessionMarker));
      if i > 0 {
        assert cookies[1..][i - 1] == cookies[i];
      }
    }
  }

  /**
   * The rendered header holds the marker exactly when one cookie's name or
   * value does: the separators `=`, `;` and ` ` cannot be part of it, so no
   * occurrence spans two cookies.
   */
  lemma {:induction false} MarkerInSerialization(cookies: seq<Cookie>)
    ensures Contains(Serialize(cookies), SessionMarker) <==> MarkedCookie(cookies)
  {
    if cookies == [] {
      EmptyHasNoMarker();
    } else {
      MarkerInPair(cookies[0]);
      MarkedSplit(cookies);
      if |cookies| > 1 {
        MarkerInSerialization(cookies[1..]);
        MarkerAcrossJoin(Pair(cookies[0]), Serialize(cookies[1..]));
      } else {
        assert cookies[1..] == [];
      }
    }
  }

  /**
   * `hasAuthCookie`: a cookie named `sb-access-token`, or the marker
   * `supabase.auth.token` anywhere in the rendered cookie header. `cookies`
   * holds the request's parsed cookies, one per name, as the request's
   * cookie map keeps them.
   */
  function HasAuthCookie(cookies: seq<Cookie>): (has: bool)
    ensures has <==> (exists i :: 0 <= i < |cookies| && cookies[i].name == AccessCookie) || MarkedCookie(cookies)
  {
    MarkerInSerialization(cookies);
    (exists i :: 0 <= i < |cookies| && cookies[i].name == AccessCookie) ||
    Contains(Serialize(cookies), SessionMarker)
  }

  /**
   * The redirect decision for a path: the private areas send visitors
   * without a session cookie to the login page, the auth pages send visitors
   * with one to the dashboard, and everything else passes.
   */
  function Gatekeep(path: string, cookies: seq<Cookie>): (d: Decision)
    ensures d == Redirect(LoginPage) <==>
      (StartsWith(path, "/admin") || StartsWith(path, "/dashboard")) && !HasAuthCookie(cookies)
    ensures d == Redirect(Dashboard) <==> StartsWith(path, "/auth") && HasAuthCookie(cookies)
    ensures d == Next <==>
      if HasAuthCookie(cookies) then !StartsWith(path, "/auth")
      else !StartsWith(path, "/admin") && !StartsWith(path, "/dashboard")
  {
    var has := HasAuthCookie(cookies);
    if StartsWith(path, "/admin") && !has then Redirect(LoginPage)
    else if StartsWith(path, "/dashboard") && !has then Redirect(LoginPage)
    else if StartsWith(path, "/auth") && has then Redirect(Dashboard)
    else Next
  }

  /** One pattern `/base/:path*`: the base path itself or anything below it. */
  predicate UnderPattern(path: string, base: string) {
    path == base || StartsWith(path, base + "/")
  }

  /** The paths the gate is configured to run on. */
  predicate Matched(path: string) {
    UnderPattern(path, "/admin") || UnderPattern(path, "/dashboard") || UnderPattern(path, "/auth")
  }

  /** What a request meets: the gate on a matched path, a pass everywhere else. */
  function Gate(path: string, cookies: seq<Cookie>): (d: Decision)
    ensures !Matched(path) ==> d == Next
    ensures d.Redirect? ==> d.target == LoginPage || d.target == Dashboard
  {
    if Matched(path) then Gatekeep(path, cookies) else Next
  }

  lemma PrefixOfPrefix(path: string, base: string)
    requires StartsWith(path, base + "/")
    ensures StartsWith(path, base)
  {
    assert path[..|base|] == path[..|base| + 1][..|base|];
  }

  /** On a matched path the gate takes the decision the middleware body takes. */
  lemma MatchedPathsAreGated(path: string, cookies: seq<Cookie>)
    requires Matched(path)
    ensures Gate(path, cookies) == Gatekeep(path, cookies)
    ensures StartsWith(path, "/admin") || StartsWith(path, "/dashboard") || StartsWith(path, "/auth")
  {
    if StartsWith(path, "/admin/") { PrefixOfPrefix(path, "/admin"); }
    if StartsWith(path, "/dashboard/") { PrefixOfPrefix(path, "/dashboard"); }
    if StartsWith(path, "/auth/") { PrefixOfPrefix(path, "/auth"); }
  }

  /** No path lies both under `/auth` and under a private area. */
  lemma AuthPagesArePublic(path: string)
    ensures StartsWith(path, "/auth") ==> !StartsWith(path, "/admin") && !StartsWith(path, "/dashboard")
  {
    if StartsWith(path, "/auth") {
      assert path[1] == path[..5][1] == 'a' && path[2] == path[..5][2] == 'u';
      assert |path| < 6 || path[..6][2] == 'u';
      assert |path| < 10 || path[..10][1] == 'a';
    }
  }

  /**
   * The matcher is narrower than the prefix tests: `/administrator` starts
   * with `/admin`, so the body would send a visitor without cookies to the
   * login page, but no pattern matches it and the request passes.
   */
  lemma MatcherIsNarrowerThanPrefix()
    ensures Gatekeep("/administrator", []) == Redirect(LoginPage)
    ensures Gate("/administrator", []) == Next
  {
    var path := "/administrator";
    assert path[..6] == "/admin";
    assert path[..7][6] == 'i' && path[..10][1] == 'a' && path[..5][2] == 'd';
    assert !StartsWith(path, "/admin/") && !StartsWith(path, "/dashboard") && !StartsWith(path, "/auth");
    assert !HasAuthCookie([]);
  }

  /** A session cookie opens `/admin` and `/dashboard` with no role check. */
  lemma CookieOpensPrivateAreas(path: string, cookies: seq<Cookie>)
    requires HasAuthCookie(cookies) && (UnderPattern(path, "/admin") || UnderPattern(path, "/dashboard"))
    ensures Gate(path, cookies) == Next
  {
    if StartsWith(path, "/admin/") { PrefixOfPrefix(path, "/admin"); }
    if StartsWith(path, "/dashboard/") { PrefixOfPrefix(path, "/dashboard"); }
    AuthPagesArePublic(path);
  }

  /** Following a redirect with the same cookies is let through: the gate never loops. */
  lemma NoRedirectLoop(path: string, cookies: seq<Cookie>)
    requires Gate(path, cookies).Redirect?
    ensures Gate(Gate(path, cookies).target, cookies) == Next
  {
    var target := Gate(path, cookies).target;
    if target == LoginPage {
      assert !HasAuthCookie(cookies);
      assert StartsWith(LoginPage, "/auth");
      AuthPagesArePublic(LoginPage);
    } else {
      assert HasAuthCookie(cookies);
      assert StartsWith(Dashboard, "/dashboard");
      AuthPagesArePublic(Dashboard);
    }
  }
}
