/**
  The kt-market `requireAdmin` guard that every admin server action runs
  first: a caller without a signed-in user is sent to the login page, a user
  whose profile row is missing or not an administrator's is sent home, and an
  administrator goes on. The session user and the profile row are parameters;
  a failed user lookup counts as no user.
*/
module AdminGate {
  import opened Wrappers
  import Middleware

  /** What the guard reads: the signed-in user's id, if any, and that user's profile row. */
  datatype Session = Session(user: Option<string>, profile: Option<Middleware.Profile>)

  /** `redirect('/login?redirectTo=/admin')` */
  const LoginRedirect := "/login?redirectTo=/admin"

  /** `redirect('/')` */
  const HomeRedirect := "/"

  /** A signed-in user whose profile says `is_admin` is true. */
  predicate IsAdministrator(s: Session) {
    s.user.Some? && s.profile.Some? && s.profile.value.isAdmin == Some(true)
  }

  /** The guard's verdict: the user goes on, or the request is redirected. */
  datatype Gate = Admitted(user: string) | Redirect(to: string)

  /** `requireAdmin` */
  function RequireAdmin(s: Session): (g: Gate)
    ensures g.Admitted? <==> IsAdministrator(s)
    ensures g.Admitted? ==> g.user == s.user.value
    ensures s.user.None? ==> g == Redirect(LoginRedirect)
    ensures s.user.Some? && !IsAdministrator(s) ==> g == Redirect(HomeRedirect)
  {
    if s.user.None? then Redirect(LoginRedirect)
    else if s.profile.None? || s.profile.value.isAdmin != Some(true) then Redirect(HomeRedirect)
    else Admitted(s.user.value)
  }

  /**
    The guard and the middleware agree on every admin page: the guard lets a
    session through exactly when the middleware does, and both send a
    signed-in non-administrator home.
  */
  lemma GateAgreesWithMiddleware(pathname: string, s: Session)
    requires Middleware.IsAdminArea(pathname)
    ensures RequireAdmin(s).Admitted? <==> Middleware.Decide(pathname, s.user, s.profile) == Middleware.Pass
    ensures RequireAdmin(s) == Redirect(HomeRedirect) <==> Middleware.Decide(pathname, s.user, s.profile) == Middleware.RedirectHome
    ensures RequireAdmin(s) == Redirect(LoginRedirect) <==> Middleware.Decide(pathname, s.user, s.profile).RedirectLogin?
  {
    Middleware.AdminPathsNotPublic(pathname);
  }
}
