/**
 * app/services/auth.server.ts: the authentication and permission gates route loaders run
 * before anything else. The session user, the request path and the permission list the
 * backend returns for the user are inputs; a redirect is part of the result.
 */
module Auth {
  import opened Wrappers
  import opened Types
  import Url

  /** What a gate needs to know about the incoming request and the user behind it. */
  datatype Request = Request(
    sessionUser: Option<SessionUser>,
    pathname: string,
    userPermissions: seq<RolePermission>)

  /** `requireAuth`: the (possibly null) session user, or a thrown redirect. */
  datatype AuthResult = Authenticated(user: Option<SessionUser>) | AuthRedirect(location: string)

  /** `requirePermission(s)`: the user, or a thrown redirect. */
  datatype Gate = Granted(user: SessionUser) | Denied(location: string)

  const LoginPath := "/login"

  /** The list holds a permission with exactly this name. */
  predicate HasPermission(perms: seq<RolePermission>, name: string) {
    exists i :: 0 <= i < |perms| && perms[i].name == name
  }

  /**
   * The login URL that remembers where to come back to: `/login?` followed by the
   * serialized `redirectTo` parameter. The parameter name is made of unreserved characters
   * and so is serialized as it is; the value cannot add a second parameter.
   */
  function LoginRedirect(target: string): (location: string)
    ensures |location| >= 18 && location[..18] == "/login?redirectTo="
    ensures location[18..] == Url.FormEncode(target)
    ensures forall i :: 18 <= i < |location| ==> location[i] !in "&=#?/"
  {
    Url.SerializedValueIsInert(target);
    "/login?redirectTo=" + Url.FormEncode(target)
  }

  function RequireAuth(user: Option<SessionUser>, pathname: string, redirectTo: Option<string>): (r: AuthResult)
    ensures user.Some? ==> r == Authenticated(user)
    ensures user.None? && pathname != LoginPath ==>
      r == AuthRedirect(LoginRedirect(OrElse(redirectTo, pathname)))
    ensures user.None? && pathname == LoginPath ==> r == Authenticated(None)
  {
    if user.None? && pathname != LoginPath then
      AuthRedirect(LoginRedirect(OrElse(redirectTo, pathname)))
    else
      Authenticated(user)
  }

  function RequirePermission(req: Request, required: string, redirectTo: Option<string>): (g: Gate)
    ensures g.Granted? <==> req.sessionUser.Some? && HasPermission(req.userPermissions, required)
    ensures g.Granted? ==> g.user == req.sessionUser.value
    ensures req.sessionUser.None? && req.pathname != LoginPath ==>
      g == Denied(LoginRedirect(req.pathname))
    ensures req.sessionUser.None? && req.pathname == LoginPath ==>
      g == Denied(OrElse(redirectTo, LoginPath))
    ensures req.sessionUser.Some? && !HasPermission(req.userPermissions, required) ==>
      g == Denied(OrElse(redirectTo, "/"))
  {
    match RequireAuth(req.sessionUser, req.pathname, None)
    case AuthRedirect(location) => Denied(location)
    case Authenticated(None) => Denied(OrElse(redirectTo, LoginPath))
    case Authenticated(Some(user)) =>
      if HasPermission(req.userPermissions, required) then Granted(user)
      else Denied(OrElse(redirectTo, "/"))
  }

  function RequirePermissions(req: Request, required: seq<string>, redirectTo: Option<string>): (g: Gate)
    ensures g.Granted? <==>
      req.sessionUser.Some? && forall i :: 0 <= i < |required| ==> HasPermission(req.userPermissions, required[i])
    ensures g.Granted? ==> g.user == req.sessionUser.value
    ensures req.sessionUser.None? && req.pathname != LoginPath ==>
      g == Denied(LoginRedirect(req.pathname))
    ensures req.sessionUser.None? && req.pathname == LoginPath ==>
      g == Denied(OrElse(redirectTo, LoginPath))
    ensures req.sessionUser.Some? && g.Denied? ==> g.location == OrElse(redirectTo, "/")
  {
    match RequireAuth(req.sessionUser, req.pathname, None)
    case AuthRedirect(location) => Denied(location)
    case Authenticated(None) => Denied(OrElse(redirectTo, LoginPath))
    case Authenticated(Some(user)) =>
      if forall i :: 0 <= i < |required| ==> HasPermission(req.userPermissions, required[i]) then Granted(user)
      else Denied(OrElse(redirectTo, "/"))
  }

  /** An empty requirement list lets every logged-in user through. */
  lemma NoRequirementsGrantsLoggedIn(req: Request, redirectTo: Option<string>)
    requires req.sessionUser.Some?
    ensures RequirePermissions(req, [], redirectTo) == Granted(req.sessionUser.value)
  {
  }

  /** Requiring the single permission `[p]` decides exactly as requiring `p`. */
  lemma SingleRequirementAgrees(req: Request, p: string, redirectTo: Option<string>)
    ensures RequirePermissions(req, [p], redirectTo) == RequirePermission(req, p, redirectTo)
  {
    var one := [p];
    assert one[0] == p && |one| == 1;
    assert (forall i :: 0 <= i < |one| ==> HasPermission(req.userPermissions, one[i]))
      <==> HasPermission(req.userPermissions, p);
  }

  /** A granted gate never hands out a missing user, so the routes' `if (!user)` guards are dead. */
  lemma GrantedHasUser(req: Request, required: string, redirectTo: Option<string>)
    ensures RequirePermission(req, required, redirectTo).Granted? ==> req.sessionUser.Some?
  {
  }
}
