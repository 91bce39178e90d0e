/**
 * The two middleware guards. Each either ends the response with an error
 * status (`Some`) or lets the request through to the handler (`None`, the
 * call to `next()`).
 */
module Guards {
  import opened Wrappers
  import opened Schema

  const Unauthorized := Status(401, "Unauthorized")
  const Forbidden := Status(403, "Forbidden")

  /**
   * `requireAuth`: `!req.session.userId` holds for an undefined id and for
   * the falsy id 0, and both end the response with 401.
   */
  function RequireAuth(s: Session): (rejection: Option<Outcome>)
    ensures rejection.None? <==> s.userId.Some? && s.userId.value != 0
    ensures rejection.Some? ==> rejection.value == Unauthorized
  {
    match s.userId
    case None => Some(Unauthorized)
    case Some(id) => if id == 0 then Some(Unauthorized) else None
  }

  /** `requireAdmin`: a session whose `isAdmin` is not set is answered 403. */
  function RequireAdmin(s: Session): (rejection: Option<Outcome>)
    ensures rejection.None? <==> s.isAdmin
    ensures rejection.Some? ==> rejection.value == Forbidden
  {
    if !s.isAdmin then Some(Forbidden) else None
  }

  /**
   * The session passes `requireAuth`. Handlers compute `currentUser` from
   * the same truthiness test on `userId`.
   */
  predicate Authenticated(s: Session)
  {
    RequireAuth(s).None?
  }

  /** The session passes `requireAdmin`. */
  predicate AdminSession(s: Session)
  {
    RequireAdmin(s).None?
  }

  /** The user a guarded handler acts for. */
  function CurrentUserId(s: Session): int
    requires Authenticated(s)
  {
    s.userId.value
  }
}
