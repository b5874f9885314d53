/** The OAuth access-token bookkeeping of the sheets service: three stored
    entries (access token, issuance timestamp as decimal text, refresh token)
    and the staleness rule. The clock is the parameter `now` (epoch ms). */
module Tokens {
  import opened Base
  import opened Strings

  /** The three persisted entries; `None` is an absent storage key. */
  datatype TokenStore = TokenStore(
    accessToken: Option<string>,
    authTimestamp: Option<string>,
    refreshToken: Option<string>)

  const EmptyStore: TokenStore := TokenStore(None, None, None)

  /** A token is considered stale once older than this (58 minutes). */
  const TokenExpiryMs: int := 3500 * 1000

  /** A token younger than this (5 minutes) is always considered usable. */
  const MinimumLifetimeMs: int := 5 * 60 * 1000

  /** The issuance time as the expiry test reads it: `parseInt(stored, 10)`, kept
      only when it is a number above zero. */
  predicate HasValidAuthTime(st: TokenStore, t: int) {
    Truthy(st.authTimestamp) && ParseInt(st.authTimestamp.value) == Some(t) && t > 0
  }

  /** `isTokenExpired()`: a missing token or timestamp is expired, an
      unreadable or non-positive timestamp is NOT expired, and otherwise the
      token is expired exactly when more than 58 minutes have passed. The
      5-minute grace branch of the source never changes the answer, because
      the grace window is shorter than the expiry horizon. */
  function IsTokenExpired(st: TokenStore, now: int): (expired: bool)
    ensures !Truthy(st.accessToken) ==> expired
    ensures Truthy(st.accessToken) && !Truthy(st.authTimestamp) ==> expired
    ensures Truthy(st.accessToken) && Truthy(st.authTimestamp) ==>
      (expired <==> exists t :: HasValidAuthTime(st, t) && now - t > TokenExpiryMs)
  {
    if !Truthy(st.accessToken) then true
    else if !Truthy(st.authTimestamp) then true
    else
      var authTime := ParseInt(st.authTimestamp.value);
      if authTime.None? || authTime.value <= 0 then false
      else if now - authTime.value < MinimumLifetimeMs then false
      else
        assert HasValidAuthTime(st, authTime.value);
        now - authTime.value > TokenExpiryMs
  }

  /** Staleness is monotone in time: once expired, a stored token stays
      expired as the clock advances. */
  lemma ExpiryMonotone(st: TokenStore, now1: int, now2: int)
    requires now1 <= now2
    requires IsTokenExpired(st, now1)
    ensures IsTokenExpired(st, now2)
  {
    if Truthy(st.accessToken) && Truthy(st.authTimestamp) {
      var t :| HasValidAuthTime(st, t) && now1 - t > TokenExpiryMs;
      assert now2 - t > TokenExpiryMs;
    }
  }

  /** Inside the grace window a stored token with a readable timestamp is
      never reported expired. */
  lemma GraceWindow(st: TokenStore, t: int, now: int)
    requires Truthy(st.accessToken)
    requires HasValidAuthTime(st, t)
    requires now - t < MinimumLifetimeMs
    ensures !IsTokenExpired(st, now)
  {
  }

  /** `setAccessToken(token)`: an empty token changes nothing; otherwise the
      token is stored with the current time, so that it reads as fresh. */
  function SetAccessToken(st: TokenStore, token: string, now: int): (r: TokenStore)
    ensures token == "" ==> r == st
    ensures token != "" ==> r.accessToken == Some(token) && r.refreshToken == st.refreshToken
    ensures token != "" ==> r.authTimestamp.Some? && ParseInt(r.authTimestamp.value) == Some(now)
    ensures token != "" ==> !IsTokenExpired(r, now)
  {
    if token == "" then st
    else
      ParseIntOfIntToString(now);
      TokenStore(Some(token), Some(IntToString(now)), st.refreshToken)
  }

  /** `setRefreshToken(token)`: an empty token changes nothing. */
  function SetRefreshToken(st: TokenStore, token: string): (r: TokenStore)
    ensures token == "" ==> r == st
    ensures token != "" ==> r.refreshToken == Some(token)
    ensures r.accessToken == st.accessToken && r.authTimestamp == st.authTimestamp
  {
    if token == "" then st else st.(refreshToken := Some(token))
  }

  /** `clearToken()`: all three entries removed; the expiry test then reports the
      token expired at every time. */
  function ClearToken(st: TokenStore): (r: TokenStore)
    ensures r.accessToken.None? && r.authTimestamp.None? && r.refreshToken.None?
    ensures forall now :: IsTokenExpired(r, now)
  {
    EmptyStore
  }

  /** A token stored at `issued` reads as expired at `now` exactly when more
      than 58 minutes have passed. */
  lemma ExpiryAfterSet(st: TokenStore, token: string, issued: int, now: int)
    requires token != "" && issued > 0
    ensures IsTokenExpired(SetAccessToken(st, token, issued), now) <==> now - issued > TokenExpiryMs
  {
    var r := SetAccessToken(st, token, issued);
    assert HasValidAuthTime(r, issued);
  }

  /** The refresh round-trip's bookkeeping (`refreshFirebaseGoogleToken`
      after the identity provider answered): a returned access token is
      stored, and a returned refresh token too; no access token is failure
      and leaves the store as it was. */
  function ApplyRefresh(st: TokenStore, accessToken: Option<string>, refreshToken: Option<string>, now: int)
    : (r: (bool, TokenStore))
    ensures r.0 <==> Truthy(accessToken)
    ensures !r.0 ==> r.1 == st
    ensures r.0 ==> r.1.accessToken == accessToken && !IsTokenExpired(r.1, now)
    ensures r.0 && Truthy(refreshToken) ==> r.1.refreshToken == refreshToken
    ensures r.0 && !Truthy(refreshToken) ==> r.1.refreshToken == st.refreshToken
  {
    if !Truthy(accessToken) then (false, st)
    else
      var withAccess := SetAccessToken(st, accessToken.value, now);
      var withRefresh := if Truthy(refreshToken) then SetRefreshToken(withAccess, refreshToken.value) else withAccess;
      assert withRefresh.authTimestamp == withAccess.authTimestamp;
      (true, withRefresh)
  }
}
