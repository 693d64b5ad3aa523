/** Session tokens: the claims a signed token carries, and when it stops being accepted. */
module Session {
  import opened Common

  /** Seven days ("7d"), in seconds, as a token lifetime. */
  const TokenLifetimeSeconds: nat := 7 * 24 * 60 * 60

  /** The claims of a token: who, with which role, issued and expiring at (seconds). */
  datatype Claims = Claims(userId: UserId, role: Role, iat: nat, exp: nat)

  /** Claims of the token signed for `id` and `role` at time `now` (milliseconds);
      issued-at and expiry are whole seconds, as the token library writes them. */
  function IssueToken(id: UserId, role: Role, now: Millis): (c: Claims)
    ensures c.userId == id && c.role == role
    ensures c.iat * 1000 <= now < c.iat * 1000 + 1000
    ensures c.exp == c.iat + TokenLifetimeSeconds
  {
    Claims(id, role, now / 1000, now / 1000 + TokenLifetimeSeconds)
  }

  /** A token is still accepted while the current whole second is before its expiry. */
  function TokenLive(c: Claims, now: Millis): (r: bool)
    ensures r <==> now < c.exp * 1000
  {
    now / 1000 < c.exp
  }

  /** What the `auth` and `authorizeAdmin` middleware establish before an admin handler runs. */
  predicate HoldsAdminClaims(c: Claims, now: Millis)
  {
    TokenLive(c, now) && c.role == Admin
  }

  /** A token issued at `t` names the identity and role it was issued for, and is accepted at a
      later time `t'` exactly when `t'` is before the seven-day boundary counted from the
      second in which it was issued. */
  lemma TokenWindow(id: UserId, role: Role, t: Millis, t': Millis)
    requires t <= t'
    ensures IssueToken(id, role, t).userId == id && IssueToken(id, role, t).role == role
    ensures TokenLive(IssueToken(id, role, t), t') <==> t' < (t / 1000) * 1000 + TokenLifetimeSeconds * 1000
    ensures t' < t + TokenLifetimeSeconds * 1000 - 999 ==> TokenLive(IssueToken(id, role, t), t')
    ensures t' >= t + TokenLifetimeSeconds * 1000 ==> !TokenLive(IssueToken(id, role, t), t')
  {
  }
}
