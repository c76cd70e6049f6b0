/** The access decision made before every handler (Auth.kt). */
module Auth {
  import opened Wrappers
  import opened Roles
  import opened Users

  /** `allRoles()`, `trustedOrHigher()` and `adminOnly()`. */
  const AllRoles: set<Role> := {Default, Trusted, Admin}
  const TrustedOrHigher: set<Role> := {Trusted, Admin}
  const AdminOnly: set<Role> := {Admin}

  /** `getRoleForContext`: the session user's rank, or default when no user is logged in. */
  function RoleForContext(sessionUser: Option<User>): (r: Role)
    ensures sessionUser.None? ==> r == Default
    ensures sessionUser.Some? ==> r == sessionUser.value.rank
  {
    match sessionUser
    case None => Default
    case Some(u) => u.rank
  }

  /** What the access manager does with a request. */
  datatype Decision = RunHandler | Forbidden403

  /** The access manager: no permitted roles means anyone; otherwise the handler runs only
      when the caller's role is permitted, and the response is 403 "Forbidden" otherwise. */
  function Decide(permittedRoles: set<Role>, sessionUser: Option<User>): (d: Decision)
    ensures permittedRoles == {} ==> d == RunHandler
    ensures d == RunHandler <==> permittedRoles == {} || RoleForContext(sessionUser) in permittedRoles
  {
    if permittedRoles == {} then RunHandler
    else if RoleForContext(sessionUser) in permittedRoles then RunHandler
    else Forbidden403
  }

  /** The three role sets are nested, and only trusted users and admins pass `trustedOrHigher`. */
  lemma RoleSetsNested()
    ensures AdminOnly <= TrustedOrHigher <= AllRoles
    ensures Default !in TrustedOrHigher
    ensures forall r: Role :: r in AllRoles
  {
    forall r: Role ensures r in AllRoles {
      match r
      case Default =>
      case Trusted =>
      case Admin =>
    }
  }

  /** An anonymous caller passes exactly the endpoints open to everyone or to the default role. */
  lemma AnonymousIsDefault(permittedRoles: set<Role>)
    ensures Decide(permittedRoles, None) == RunHandler <==> permittedRoles == {} || Default in permittedRoles
  {
  }

  /** A caller let through a set of roles is let through every wider set (so through
      `trustedOrHigher` whenever through `adminOnly`). */
  lemma DecisionMonotone(p: set<Role>, q: set<Role>, sessionUser: Option<User>)
    requires p != {} && p <= q
    ensures Decide(p, sessionUser) == RunHandler ==> Decide(q, sessionUser) == RunHandler
  {
  }
}
