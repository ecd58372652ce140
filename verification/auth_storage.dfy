/**
  The browser-side authentication helpers of kt-market: the "remember me"
  flag and the saved e-mail address kept in `localStorage`, and the token
  expiry test. Storage is `None` where there is no `window` (during server
  rendering); the clock reading is a parameter.
*/
module AuthStorage {
  import opened Wrappers

  /** `localStorage`, when there is one. */
  type Storage = Option<map<string, string>>

  const RememberMeKey := "rememberMe"
  const SavedEmailKey := "savedEmail"

  /** Tokens count as expired five minutes early, so they can be refreshed in time. */
  const BufferSeconds := 5 * 60

  /** `setRememberMe`: stores the flag as the text `String(remember)`. */
  function SetRememberMe(st: Storage, remember: bool): (r: Storage)
    ensures st.None? ==> r.None?
    ensures st.Some? ==> r == Some(st.value[RememberMeKey := if remember then "true" else "false"])
  {
    match st
    case None => None
    case Some(m) => Some(m[RememberMeKey := if remember then "true" else "false"])
  }

  /** `getRememberMe`: only the exact text "true" counts. */
  function GetRememberMe(st: Storage): (b: bool)
    ensures b <==> st.Some? && RememberMeKey in st.value && st.value[RememberMeKey] == "true"
  {
    match st
    case None => false
    case Some(m) => RememberMeKey in m && m[RememberMeKey] == "true"
  }

  function SetSavedEmail(st: Storage, email: string): (r: Storage)
    ensures st.None? ==> r.None?
    ensures st.Some? ==> r == Some(st.value[SavedEmailKey := email])
  {
    match st
    case None => None
    case Some(m) => Some(m[SavedEmailKey := email])
  }

  /** `getSavedEmail`: the stored address, or "" when there is none. */
  function GetSavedEmail(st: Storage): (e: string)
    ensures st.None? || SavedEmailKey !in st.value ==> e == ""
    ensures st.Some? && SavedEmailKey in st.value ==> e == st.value[SavedEmailKey]
  {
    match st
    case None => ""
    case Some(m) => if SavedEmailKey in m && m[SavedEmailKey] != "" then m[SavedEmailKey] else ""
  }

  function ClearSavedEmail(st: Storage): (r: Storage)
    ensures st.None? ==> r.None?
    ensures st.Some? ==> r == Some(st.value - {SavedEmailKey})
  {
    match st
    case None => None
    case Some(m) => Some(m - {SavedEmailKey})
  }

  /**
    `isTokenExpired`: no expiry (null or 0) counts as expired; otherwise the
    token is expired from 300 seconds before `expiresAt`, in whole seconds of
    the clock `nowMs`.
  */
  function IsTokenExpired(expiresAt: Option<int>, nowMs: int): (expired: bool)
    ensures expiresAt.None? || expiresAt == Some(0) ==> expired
    ensures expiresAt.Some? && expiresAt.value != 0 ==>
      (expired <==> nowMs >= (expiresAt.value - BufferSeconds) * 1000)
  {
    if expiresAt.None? || expiresAt.value == 0 then true
    else
      var now := nowMs / 1000;
      now >= expiresAt.value - BufferSeconds
  }

  /** Storing the flag and reading it back gives the flag, wherever there is storage. */
  lemma RememberMeRoundTrip(m: map<string, string>, remember: bool)
    ensures GetRememberMe(SetRememberMe(Some(m), remember)) == remember
  {
  }

  lemma SavedEmailRoundTrip(m: map<string, string>, email: string)
    ensures GetSavedEmail(SetSavedEmail(Some(m), email)) == email
    ensures GetSavedEmail(ClearSavedEmail(SetSavedEmail(Some(m), email))) == ""
  {
  }

  /** The two settings live under different keys and never disturb each other. */
  lemma SettingsIndependent(st: Storage, remember: bool, email: string)
    ensures GetSavedEmail(SetRememberMe(st, remember)) == GetSavedEmail(st)
    ensures GetRememberMe(SetSavedEmail(st, email)) == GetRememberMe(st)
    ensures GetRememberMe(ClearSavedEmail(st)) == GetRememberMe(st)
  {
  }

  /** Without storage, writes are lost and reads give the defaults. */
  lemma NoStorage(remember: bool, email: string)
    ensures SetRememberMe(None, remember) == None && SetSavedEmail(None, email) == None
    ensures ClearSavedEmail(None) == None
    ensures !GetRememberMe(None) && GetSavedEmail(None) == ""
  {
  }

  /** Once expired, a token stays expired as the clock advances. */
  lemma ExpiryMonotone(expiresAt: Option<int>, t1: int, t2: int)
    requires t1 <= t2 && IsTokenExpired(expiresAt, t1)
    ensures IsTokenExpired(expiresAt, t2)
  {
  }
}
