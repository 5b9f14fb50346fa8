/**
 * The gateway's role guard (gateway/src/guards/role.guard.ts): the
 * allow/deny decision over the handler's `roles` metadata and the user the
 * authentication layer put on the request.
 */
module Guards {
  import opened Wrappers

  /** The authenticated user (`UserInterface`): the token's subject and role. */
  datatype Principal = Principal(sub: string, username: string, role: string)

  /** The parts of an HTTP request the guard looks at. */
  datatype Request = Request(user: Option<Principal>)

  /** `true` with the request as it leaves the guard, or a `ForbiddenException`. */
  datatype Decision = Granted(request: Request) | Forbidden(message: string)

  const FORBIDDEN_MESSAGE := "You do not have permission to access this resource"

  /** The user's role is one of the required roles. */
  predicate HasRequiredRole(requiredRoles: seq<string>, user: Option<Principal>) {
    user.Some? && exists i :: 0 <= i < |requiredRoles| && requiredRoles[i] == user.value.role
  }

  /**
   * `RolesGuard.canActivate`. `requiredRoles` is None when the handler
   * carries no `roles` metadata; an empty list is still a list (an empty
   * array is truthy), so it lets nobody through.
   */
  function CanActivate(requiredRoles: Option<seq<string>>, req: Request): (d: Decision)
    ensures d.Granted? <==> requiredRoles.None? || HasRequiredRole(requiredRoles.value, req.user)
    ensures d.Granted? ==> d.request == req
    ensures d.Forbidden? ==> d.message == FORBIDDEN_MESSAGE
  {
    match requiredRoles
    case None => Granted(req)
    case Some(roles) =>
      if req.user.None? || req.user.value.role !in roles then Forbidden(FORBIDDEN_MESSAGE)
      // `request.user = user` writes back the value it read
      else Granted(req)
  }

  /** Without `roles` metadata everyone passes, an anonymous request included. */
  lemma UnguardedHandlerAdmitsAll(req: Request)
    ensures CanActivate(None, req) == Granted(req)
  {
  }

  /** On a guarded handler an anonymous request is always refused. */
  lemma GuardedHandlerRefusesAnonymous(roles: seq<string>)
    ensures CanActivate(Some(roles), Request(None)) == Forbidden(FORBIDDEN_MESSAGE)
  {
  }

  /** An empty required-role list refuses every request. */
  lemma EmptyRoleListRefusesAll(req: Request)
    ensures CanActivate(Some([]), req).Forbidden?
  {
  }

  /** Requiring more roles never refuses a request that fewer roles admitted. */
  lemma MoreRolesAdmitMore(fewer: seq<string>, more: seq<string>, req: Request)
    requires forall r :: r in fewer ==> r in more
    ensures CanActivate(Some(fewer), req).Granted? ==> CanActivate(Some(more), req).Granted?
  {
  }

  /** The guard's answer depends only on the set of required roles, not their order or repetition. */
  lemma OnlyTheRoleSetMatters(a: seq<string>, b: seq<string>, req: Request)
    requires (set r | r in a) == (set r | r in b)
    ensures CanActivate(Some(a), req) == CanActivate(Some(b), req)
  {
    if req.user.Some? {
      var role := req.user.value.role;
      var sa, sb := set x | x in a, set x | x in b;
      if role in a {
        assert role in sa;
        assert role in sb;
      }
      if role in b {
        assert role in sb;
        assert role in sa;
      }
    }
  }
}
