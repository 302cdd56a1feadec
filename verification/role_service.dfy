/**
 * Reads of the `roles` table and the replacement of a user's role list.
 */
module RoleService {
  import opened Wrappers
  import opened Uuids
  import opened Models
  import opened Rbac

  /** select(Role).where(Role.name == name), one row or none (names are unique). */
  function GetRoleByName(catalog: seq<Role>, name: string): (r: Option<Role>)
    requires UniqueRoleNames(catalog)
    ensures r.Some? <==> exists x :: x in catalog && x.name == name
    ensures forall x :: x in catalog && x.name == name ==> r == Some(x)
  {
    if catalog == [] then None
    else if catalog[0].name == name then Some(catalog[0])
    else GetRoleByName(catalog[1..], name)
  }

  /**
   * select(Role).where(Role.name.in_(names)): the stored roles whose name is listed,
   * in table order; names that match no role are dropped without an error.
   */
  function GetRolesByNames(catalog: seq<Role>, names: seq<string>): (found: seq<Role>)
    ensures forall r :: r in found <==> r in catalog && r.name in names
    ensures |found| <= |catalog|
  {
    if catalog == [] then []
    else (if catalog[0].name in names then [catalog[0]] else []) + GetRolesByNames(catalog[1..], names)
  }

  /** As role names are unique, no role is found twice, however often a name is listed. */
  lemma {:induction false} RolesByNamesNoRepeats(catalog: seq<Role>, names: seq<string>)
    requires UniqueRoleNames(catalog)
    ensures NoRepeats(GetRolesByNames(catalog, names))
  {
    if catalog != [] {
      RolesByNamesNoRepeats(catalog[1..], names);
      var rest := GetRolesByNames(catalog[1..], names);
      assert catalog[0] !in rest;
    }
  }

  /** The roles found depend only on the set of names asked for. */
  lemma {:induction false} RolesByNamesDependsOnNameSet(catalog: seq<Role>, a: seq<string>, b: seq<string>)
    requires forall n :: n in a <==> n in b
    ensures GetRolesByNames(catalog, a) == GetRolesByNames(catalog, b)
  {
    if catalog != [] {
      var x := catalog[0].name;
      RolesByNamesDependsOnNameSet(catalog[1..], a, b);
      assert GetRolesByNames(catalog, a) == (if x in a then [catalog[0]] else []) + GetRolesByNames(catalog[1..], a);
      assert GetRolesByNames(catalog, b) == (if x in b then [catalog[0]] else []) + GetRolesByNames(catalog[1..], b);
    }
  }

  /** Names that match no stored role find nothing, so assigning them leaves no role. */
  lemma UnknownNamesFindNothing(catalog: seq<Role>, names: seq<string>)
    requires forall r :: r in catalog ==> r.name !in names
    ensures GetRolesByNames(catalog, names) == []
  {
  }

  /** Asking for one stored name finds exactly that role, once. */
  lemma {:induction false} SingleNameFindsOneRole(catalog: seq<Role>, role: Role)
    requires UniqueRoleNames(catalog) && role in catalog
    ensures GetRolesByNames(catalog, [role.name]) == [role]
  {
    if catalog[0] == role {
      UnknownNamesFindNothing(catalog[1..], [role.name]);
    } else {
      assert catalog[0].name != role.name;
      SingleNameFindsOneRole(catalog[1..], role);
    }
  }

  /**
   * Assigning ["admin"] when the admin role is stored leaves the user with that one
   * role, which the admin guard admits.
   */
  lemma AssignedAdminPassesGuard(catalog: seq<Role>, admin: Role)
    requires UniqueRoleNames(catalog) && admin in catalog && admin.name == AdminRole
    ensures GetRolesByNames(catalog, [AdminRole]) == [admin]
    ensures Authorize(RequireAdmin().allowed, GetRolesByNames(catalog, [AdminRole])).Pass?
  {
    SingleNameFindsOneRole(catalog, admin);
  }

  /**
   * assign_roles_to_user: the user's role list is cleared, then every role found for
   * role_names is appended. Only the user's list changes; the roles table is read.
   */
  method AssignRolesToUser(user: User, db: Db, roleNames: seq<string>)
    modifies user
    ensures user.roles == GetRolesByNames(db.roles, roleNames)
  {
    user.roles := [];
    var roles := GetRolesByNames(db.roles, roleNames);
    for i := 0 to |roles|
      invariant user.roles == roles[..i]
    {
      user.roles := user.roles + [roles[i]];
    }
  }

  /**
   * get_user_with_roles: user_id must be UUID text, or ValueError is raised (here
   * the UuidError); otherwise the user with that id, if any.
   */
  function GetUserWithRoles(users: seq<User>, userId: string): (r: Result<Option<User>, UuidError>)
    ensures r.Failure? <==> ParseUuid(userId).Failure?
    ensures r.Success? && r.value.Some? ==> r.value.value in users && Success(r.value.value.id) == ParseUuid(userId)
    ensures r.Success? && r.value.None? ==> forall u :: u in users ==> Success(u.id) != ParseUuid(userId)
  {
    match ParseUuid(userId)
    case Failure(e) => Failure(e)
    case Success(id) => Success(UserWithId(users, id))
  }

  /** Looking a stored user up by the text of its own id finds that user. */
  lemma GetUserWithRolesByText(users: seq<User>, u: User)
    requires UniqueUserIds(users) && u in users
    ensures GetUserWithRoles(users, UuidText(u.id)) == Success(Some(u))
  {
    ParseUuidText(u.id);
    UserWithIdUnique(users, u);
  }
}
