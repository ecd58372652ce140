/**
  The kt-market request middleware: public paths and everything outside
  `/admin` pass; an `/admin` path needs a signed-in user whose profile row
  says `is_admin` is exactly `true`. The session user and the profile row are
  parameters.
*/
module Middleware {
  import opened Wrappers
  import opened Text

  const PublicPaths: seq<string> := ["/login", "/signup", "/"]

  /** The profile row; `isAdmin` is `None` when the column is null. */
  datatype Profile = Profile(isAdmin: Option<bool>)

  datatype Outcome =
    | Pass
    | RedirectLogin(redirectTo: string)
    | RedirectHome

  predicate IsPublicPath(pathname: string) {
    pathname in PublicPaths || StartsWith(pathname, "/products")
  }

  predicate IsAdminArea(pathname: string) {
    StartsWith(pathname, "/admin")
  }

  /** `middleware`; `user` is the signed-in user's id, if any. */
  function Decide(pathname: string, user: Option<string>, profile: Option<Profile>): (r: Outcome)
    ensures IsPublicPath(pathname) || !IsAdminArea(pathname) ==> r == Pass
    ensures r.RedirectLogin? <==> IsAdminArea(pathname) && !IsPublicPath(pathname) && user.None?
    ensures r.RedirectLogin? ==> r.redirectTo == pathname
    ensures r == RedirectHome <==>
      && IsAdminArea(pathname) && !IsPublicPath(pathname) && user.Some?
      && !(profile.Some? && profile.value.isAdmin == Some(true))
  {
    if IsPublicPath(pathname) then Pass
    else if !IsAdminArea(pathname) then Pass
    else if user.None? then RedirectLogin(pathname)
    else if profile.None? || profile.value.isAdmin != Some(true) then RedirectHome
    else Pass
  }

  /** No admin path is public, so the admin check is never skipped. */
  lemma AdminPathsNotPublic(pathname: string)
    requires IsAdminArea(pathname)
    ensures !IsPublicPath(pathname)
  {
    assert pathname[1] == pathname[..6][1] == 'a';
    assert pathname != "/login" && pathname != "/signup" && pathname != "/";
    if |pathname| >= 9 {
      assert pathname[..9][1] != "/products"[1];
    }
  }

  /** An admin page is served exactly to a signed-in administrator. */
  lemma AdminPassIffAdministrator(pathname: string, user: Option<string>, profile: Option<Profile>)
    requires IsAdminArea(pathname)
    ensures Decide(pathname, user, profile) == Pass <==>
      user.Some? && profile.Some? && profile.value.isAdmin == Some(true)
  {
    AdminPathsNotPublic(pathname);
  }

  /** Only the user and profile of admin requests matter; other paths always pass. */
  lemma PublicIgnoresSession(pathname: string, user: Option<string>, profile: Option<Profile>)
    requires IsPublicPath(pathname)
    ensures Decide(pathname, user, profile) == Decide(pathname, None, None) == Pass
  {
  }
}
