/**
 * The role guard. require_roles(allowed) builds a dependency whose check lets the
 * current user through when one of the allowed names is among the names of the
 * user's roles, and stops it with 403 otherwise.
 */
module Rbac {
  import opened Wrappers
  import opened Errors
  import opened Models

  const AdminRole := "admin"

  /** [role.name for role in roles] */
  function RoleNames(roles: seq<Role>): (names: seq<string>)
    ensures |names| == |roles|
    ensures forall i :: 0 <= i < |roles| ==> names[i] == roles[i].name
  {
    if roles == [] then [] else [roles[0].name] + RoleNames(roles[1..])
  }

  /** The set of names a role list carries. */
  function NameSet(roles: seq<Role>): set<string> {
    set r | r in roles :: r.name
  }

  /**
   * role_checker's decision on the user's role list: no roles at all is one 403,
   * no allowed name among them is the other; access is granted exactly when some
   * role of the user has an allowed name.
   */
  function Authorize(allowed: seq<string>, roles: seq<Role>): (o: Outcome<HttpError>)
    ensures o.Pass? <==> exists r :: r in roles && r.name in allowed
    ensures o.Fail? && roles == [] ==> o.error == NoRolesAssigned
    ensures o.Fail? && roles != [] ==> o.error == AccessDenied(allowed)
  {
    if roles == [] then Fail(NoRolesAssigned)
    else
      var names := RoleNames(roles);
      if !(exists a :: a in allowed && a in names) then
        assert forall r :: r in roles ==> r.name in names by {
          forall r | r in roles ensures r.name in names {
            var i :| 0 <= i < |roles| && roles[i] == r;
            assert names[i] == r.name;
          }
        }
        Fail(AccessDenied(allowed))
      else Pass
  }

  /** The dependency require_roles returns, with the list it closes over. */
  datatype RoleGuard = RoleGuard(allowed: seq<string>) {
    /** role_checker: the same user object back, or the 403 of Authorize. */
    function Check(user: User): (r: Result<User, HttpError>)
      reads user
      ensures r.Success? <==> exists role :: role in user.roles && role.name in allowed
      ensures r.Success? ==> r.value == user
      ensures r.Failure? ==> r.error == (if user.roles == [] then NoRolesAssigned else AccessDenied(allowed))
    {
      match Authorize(allowed, user.roles)
      case Pass => Success(user)
      case Fail(e) => Failure(e)
    }
  }

  function RequireRoles(allowed: seq<string>): (g: RoleGuard)
    ensures g.allowed == allowed
  {
    RoleGuard(allowed)
  }

  /** require_admin() is require_roles(["admin"]). */
  function RequireAdmin(): (g: RoleGuard)
    ensures g == RequireRoles([AdminRole])
  {
    RequireRoles([AdminRole])
  }

  /** The admin guard admits exactly the users holding a role named "admin". */
  lemma AdminGuardAdmitsAdmins(user: User)
    ensures RequireAdmin().Check(user).Success? <==> AdminRole in NameSet(user.roles)
  {
  }

  /** An empty allowed list denies everyone: any() over nothing is false. */
  lemma EmptyAllowedDeniesAll(roles: seq<Role>)
    ensures Authorize([], roles).Fail?
  {
  }

  /** A user without roles is always refused with "No roles assigned to user". */
  lemma NoRolesAlwaysRefused(allowed: seq<string>)
    ensures Authorize(allowed, []) == Fail(NoRolesAssigned)
  {
  }

  /** Only the set of role names matters: order and repetitions do not. */
  lemma AuthorizeDependsOnNameSet(allowed: seq<string>, a: seq<Role>, b: seq<Role>)
    requires NameSet(a) == NameSet(b)
    ensures Authorize(allowed, a) == Authorize(allowed, b)
  {
    if a != [] {
      assert a[0].name in NameSet(b);
    }
    if b != [] {
      assert b[0].name in NameSet(a);
    }
    if Authorize(allowed, a).Pass? {
      var r :| r in a && r.name in allowed;
      assert r.name in NameSet(b);
    }
    if Authorize(allowed, b).Pass? {
      var r :| r in b && r.name in allowed;
      assert r.name in NameSet(a);
    }
  }

  /** Giving a user more roles never turns an admitted request into a refused one. */
  lemma MoreRolesKeepAccess(allowed: seq<string>, a: seq<Role>, b: seq<Role>)
    requires NameSet(a) <= NameSet(b)
    requires Authorize(allowed, a).Pass?
    ensures Authorize(allowed, b).Pass?
  {
    var r :| r in a && r.name in allowed;
    assert r.name in NameSet(b);
  }
}
