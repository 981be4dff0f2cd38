/** The role-based access-control tables shared by the database seeder and
    the user-management service: permissions, roles, role-permission
    bindings, users and user-role bindings, each kept in save order. */
module AccessControl {
  import opened Common

  datatype Permission = Permission(id: nat, name: string, description: string, category: string)

  datatype Role = Role(id: nat, name: string, description: string)

  /** A row of the role-permission join table. */
  datatype RolePermission = RolePermission(roleId: nat, permissionId: nat)

  /** A user row; `password` holds the encoded password. */
  datatype User = User(id: nat, username: string, email: string, firstName: string, lastName: string,
                       status: int, active: bool, password: string)

  /** A row of the user-role join table; its role reference may be null. */
  datatype UserRole = UserRole(userId: nat, roleId: Option<nat>)

  /** The exceptions the services throw, by cause. */
  datatype Error = UserNotFound | RoleNotFound | RoleNameNotFound(name: string) | InvalidRole | RolesNull

  /** `findByPermissionName`. */
  function PermissionNamed(ps: seq<Permission>, name: string): (r: Option<Permission>)
    ensures r.Some? ==> r.value in ps && r.value.name == name
    ensures r.None? <==> forall p :: p in ps ==> p.name != name
  {
    if ps == [] then None
    else if ps[0].name == name then Some(ps[0])
    else PermissionNamed(ps[1..], name)
  }

  /** `findById` on the permission table. The services never call it; it
      serves to state which bindings seeding may add (`SeedBinding`). */
  function PermissionWithId(ps: seq<Permission>, id: nat): (r: Option<Permission>)
    ensures r.Some? ==> r.value in ps && r.value.id == id
    ensures r.None? <==> forall p :: p in ps ==> p.id != id
  {
    if ps == [] then None
    else if ps[0].id == id then Some(ps[0])
    else PermissionWithId(ps[1..], id)
  }

  /** `findByRoleName`. */
  function RoleNamed(rs: seq<Role>, name: string): (r: Option<Role>)
    ensures r.Some? ==> r.value in rs && r.value.name == name
    ensures r.None? <==> forall x :: x in rs ==> x.name != name
  {
    if rs == [] then None
    else if rs[0].name == name then Some(rs[0])
    else RoleNamed(rs[1..], name)
  }

  /** `findById` on the role table. */
  function RoleWithId(rs: seq<Role>, id: nat): (r: Option<Role>)
    ensures r.Some? ==> r.value in rs && r.value.id == id
    ensures r.None? <==> forall x :: x in rs ==> x.id != id
  {
    if rs == [] then None
    else if rs[0].id == id then Some(rs[0])
    else RoleWithId(rs[1..], id)
  }

  /** `findById` on the user table: the position of the user row. */
  function UserIndex(us: seq<User>, id: nat): (r: Option<nat>)
    ensures r.Some? ==> r.value < |us| && us[r.value].id == id
    ensures r.None? <==> forall u :: u in us ==> u.id != id
  {
    if us == [] then None
    else if us[0].id == id then Some(0)
    else match UserIndex(us[1..], id)
      case None => None
      case Some(k) => Some(k + 1)
  }

  /** `existsByUsername`: a scan of the user table. */
  predicate UsernameTaken(us: seq<User>, username: string): (r: bool)
    ensures r <==> exists u :: u in us && u.username == username
  {
    us != [] && (us[0].username == username || UsernameTaken(us[1..], username))
  }

  predicate UniquePermissionNames(ps: seq<Permission>) {
    forall i, j :: 0 <= i < j < |ps| ==> ps[i].name != ps[j].name
  }

  predicate UniquePermissionIds(ps: seq<Permission>) {
    forall i, j :: 0 <= i < j < |ps| ==> ps[i].id != ps[j].id
  }

  predicate UniqueRoleNames(rs: seq<Role>) {
    forall i, j :: 0 <= i < j < |rs| ==> rs[i].name != rs[j].name
  }

  predicate UniqueRoleIds(rs: seq<Role>) {
    forall i, j :: 0 <= i < j < |rs| ==> rs[i].id != rs[j].id
  }

  predicate UniqueUserIds(us: seq<User>) {
    forall i, j :: 0 <= i < j < |us| ==> us[i].id != us[j].id
  }

  /** No (role, permission) pair is bound twice. */
  predicate NoDuplicateBindings(bs: seq<RolePermission>) {
    forall i, j :: 0 <= i < j < |bs| ==> bs[i] != bs[j]
  }

  /** Where names are unique, looking a permission up by its name finds it. */
  lemma {:induction false} PermissionNamedFinds(ps: seq<Permission>, p: Permission)
    requires UniquePermissionNames(ps) && p in ps
    ensures PermissionNamed(ps, p.name) == Some(p)
  {
    if ps[0] != p {
      var k :| 0 <= k < |ps| && ps[k] == p;
      assert k != 0;
      assert ps[0].name != ps[k].name;
      assert ps[1..][k - 1] == p;
      PermissionNamedFinds(ps[1..], p);
    }
  }

  /** Where ids are unique, looking a permission up by its id finds it. */
  lemma {:induction false} PermissionWithIdFinds(ps: seq<Permission>, p: Permission)
    requires UniquePermissionIds(ps) && p in ps
    ensures PermissionWithId(ps, p.id) == Some(p)
  {
    if ps[0] != p {
      var k :| 0 <= k < |ps| && ps[k] == p;
      assert k != 0;
      assert ps[0].id != ps[k].id;
      assert ps[1..][k - 1] == p;
      PermissionWithIdFinds(ps[1..], p);
    }
  }

  /** Where names are unique, looking a role up by its name finds it. */
  lemma {:induction false} RoleNamedFinds(rs: seq<Role>, r: Role)
    requires UniqueRoleNames(rs) && r in rs
    ensures RoleNamed(rs, r.name) == Some(r)
  {
    if rs[0] != r {
      var k :| 0 <= k < |rs| && rs[k] == r;
      assert k != 0;
      assert rs[0].name != rs[k].name;
      assert rs[1..][k - 1] == r;
      RoleNamedFinds(rs[1..], r);
    }
  }

  /** Where ids are unique, looking a role up by its id finds it. */
  lemma {:induction false} RoleWithIdFinds(rs: seq<Role>, r: Role)
    requires UniqueRoleIds(rs) && r in rs
    ensures RoleWithId(rs, r.id) == Some(r)
  {
    if rs[0] != r {
      var k :| 0 <= k < |rs| && rs[k] == r;
      assert k != 0;
      assert rs[0].id != rs[k].id;
      assert rs[1..][k - 1] == r;
      RoleWithIdFinds(rs[1..], r);
    }
  }

  /** Saving a permission leaves every lookup that already succeeded alone. */
  lemma {:induction false} PermissionNamedAppend(ps: seq<Permission>, p: Permission, name: string)
    requires PermissionNamed(ps, name).Some?
    ensures PermissionNamed(ps + [p], name) == PermissionNamed(ps, name)
  {
    assert (ps + [p])[0] == ps[0];
    if ps[0].name != name {
      assert (ps + [p])[1..] == ps[1..] + [p];
      PermissionNamedAppend(ps[1..], p, name);
    }
  }

  /** Saving a role leaves every lookup that already succeeded alone. */
  lemma {:induction false} RoleNamedAppend(rs: seq<Role>, r: Role, name: string)
    requires RoleNamed(rs, name).Some?
    ensures RoleNamed(rs + [r], name) == RoleNamed(rs, name)
  {
    assert (rs + [r])[0] == rs[0];
    if rs[0].name != name {
      assert (rs + [r])[1..] == rs[1..] + [r];
      RoleNamedAppend(rs[1..], r, name);
    }
  }

  /** A permission saved under a name no row has is what that name then finds. */
  lemma {:induction false} PermissionNamedLast(ps: seq<Permission>, p: Permission)
    requires PermissionNamed(ps, p.name).None?
    ensures PermissionNamed(ps + [p], p.name) == Some(p)
  {
    if ps == [] {
      assert ps + [p] == [p];
    } else {
      assert (ps + [p])[0] == ps[0];
      assert (ps + [p])[1..] == ps[1..] + [p];
      PermissionNamedLast(ps[1..], p);
    }
  }

  /** A role saved under a name no row has is what that name then finds. */
  lemma {:induction false} RoleNamedLast(rs: seq<Role>, r: Role)
    requires RoleNamed(rs, r.name).None?
    ensures RoleNamed(rs + [r], r.name) == Some(r)
  {
    if rs == [] {
      assert rs + [r] == [r];
    } else {
      assert (rs + [r])[0] == rs[0];
      assert (rs + [r])[1..] == rs[1..] + [r];
      RoleNamedLast(rs[1..], r);
    }
  }

  /** Saving a permission under a fresh name and a fresh id keeps names and
      ids unique, makes the name find the new row, and changes no other
      lookup that already succeeded. */
  lemma SavePermission(ps: seq<Permission>, p: Permission)
    requires UniquePermissionNames(ps) && UniquePermissionIds(ps)
    requires PermissionNamed(ps, p.name).None? && forall x :: x in ps ==> x.id < p.id
    ensures UniquePermissionNames(ps + [p]) && UniquePermissionIds(ps + [p])
    ensures PermissionNamed(ps + [p], p.name) == Some(p)
    ensures forall n :: PermissionNamed(ps, n).Some? ==> PermissionNamed(ps + [p], n) == PermissionNamed(ps, n)
  {
    PermissionNamedLast(ps, p);
    forall n | PermissionNamed(ps, n).Some? {
      PermissionNamedAppend(ps, p, n);
    }
    var qs := ps + [p];
    forall i, j | 0 <= i < j < |qs| ensures qs[i].name != qs[j].name && qs[i].id != qs[j].id {
      if j == |ps| {
        assert qs[i] in ps;
      }
    }
  }

  /** The same for roles. */
  lemma SaveRole(rs: seq<Role>, r: Role)
    requires UniqueRoleNames(rs) && UniqueRoleIds(rs)
    requires RoleNamed(rs, r.name).None? && forall x :: x in rs ==> x.id < r.id
    ensures UniqueRoleNames(rs + [r]) && UniqueRoleIds(rs + [r])
    ensures RoleNamed(rs + [r], r.name) == Some(r)
    ensures forall n :: RoleNamed(rs, n).Some? ==> RoleNamed(rs + [r], n) == RoleNamed(rs, n)
  {
    RoleNamedLast(rs, r);
    forall n | RoleNamed(rs, n).Some? {
      RoleNamedAppend(rs, r, n);
    }
    var qs := rs + [r];
    forall i, j | 0 <= i < j < |qs| ensures qs[i].name != qs[j].name && qs[i].id != qs[j].id {
      if j == |rs| {
        assert qs[i] in rs;
      }
    }
  }

  /** The contents of all tables, and the next identifier the database
      hands out. */
  datatype Tables = Tables(permissions: seq<Permission>, roles: seq<Role>,
                           rolePermissions: seq<RolePermission>, users: seq<User>,
                           userRoles: seq<UserRole>, nextId: nat)

  /** The constraints the tables keep: unique permission and role names,
      unique identifiers below `nextId`, no duplicate role-permission pair. */
  predicate ValidTables(t: Tables) {
    && UniquePermissionNames(t.permissions) && UniquePermissionIds(t.permissions)
    && UniqueRoleNames(t.roles) && UniqueRoleIds(t.roles)
    && UniqueUserIds(t.users)
    && NoDuplicateBindings(t.rolePermissions)
    && (forall p :: p in t.permissions ==> p.id < t.nextId)
    && (forall r :: r in t.roles ==> r.id < t.nextId)
    && (forall u :: u in t.users ==> u.id < t.nextId)
  }

  /** The foreign keys of the user-role table: every row references a saved
      user and, when its role is set, a saved role. */
  predicate Referential(t: Tables) {
    && (forall b :: b in t.userRoles ==> UserIndex(t.users, b.userId).Some?)
    && (forall b :: b in t.userRoles && b.roleId.Some? ==> RoleWithId(t.roles, b.roleId.value).Some?)
  }

  /** The foreign keys hold while users and roles are only added and every
      user-role row is either an old one or references rows that are there. */
  lemma ReferentialGrows(t: Tables, t2: Tables)
    requires Referential(t)
    requires forall u :: u in t.users ==> u in t2.users
    requires forall x :: x in t.roles ==> x in t2.roles
    requires forall b :: b in t2.userRoles && b !in t.userRoles ==>
      UserIndex(t2.users, b.userId).Some? && (b.roleId.Some? ==> RoleWithId(t2.roles, b.roleId.value).Some?)
    ensures Referential(t2)
  {
    forall b | b in t2.userRoles && b in t.userRoles
      ensures UserIndex(t2.users, b.userId).Some?
      ensures b.roleId.Some? ==> RoleWithId(t2.roles, b.roleId.value).Some?
    {
      var k := UserIndex(t.users, b.userId).value;
      assert t.users[k] in t2.users;
      if b.roleId.Some? {
        assert RoleWithId(t.roles, b.roleId.value).value in t2.roles;
      }
    }
  }

  /** The repositories: one table per entity, in save order. */
  class Store {
    var permissions: seq<Permission>
    var roles: seq<Role>
    var rolePermissions: seq<RolePermission>
    var users: seq<User>
    var userRoles: seq<UserRole>
    var nextId: nat

    function Contents(): Tables
      reads this
    {
      Tables(permissions, roles, rolePermissions, users, userRoles, nextId)
    }

    ghost predicate Valid()
      reads this
    {
      ValidTables(Contents())
    }

    constructor ()
      ensures Valid()
      ensures Contents() == Tables([], [], [], [], [], 0)
    {
      permissions := [];
      roles := [];
      rolePermissions := [];
      users := [];
      userRoles := [];
      nextId := 0;
    }
  }
}
