/** `DatabaseSeeder`: at start-up it gets or creates the bootstrap
    permissions and roles by name, binds permissions to roles where the
    binding is absent, and creates two users when their usernames are free. */
module DatabaseSeeder {
  import opened Common
  import opened AccessControl

  /** The arguments of one `createPermission` call. */
  datatype PermissionSpec = PermissionSpec(name: string, description: string, category: string)

  /** The arguments of one `createRole` call. */
  datatype RoleSpec = RoleSpec(name: string, description: string)

  /** The seventeen `createPermission` calls of `seedData`, in the order they
      are made; `p1` .. `p17` are the rows they return. */
  const SeedPermissions: seq<PermissionSpec> := [
    PermissionSpec("CREATE_USER", "Allows creating of new users", "User Management"),
    PermissionSpec("UPDATE_USER", "Allows editing of user information", "User Management"),
    PermissionSpec("DELETE_USER", "Allows deletion of user", "User Management"),
    PermissionSpec("READ_USER", "Allows viewing of users", "User Management"),
    PermissionSpec("CHANGE_USER_STATUS", "Allows changing of user status", "User Management"),
    PermissionSpec("CREATE_ROLE", "Allows creating new roles", "Role Management"),
    PermissionSpec("UPDATE_ROLE", "Allows editing of role information", "Role Management"),
    PermissionSpec("DELETE_ROLE", "Allows deletion of roles", "Role Management"),
    PermissionSpec("READ_ROLE", "Allows viewing of roles", "Role Management"),
    PermissionSpec("CREATE_DEGREE_PROGRAM", "Allows creating new degree programs", "Degree Program"),
    PermissionSpec("UPDATE_DEGREE_PROGRAM", "Allows editing degree program information", "Degree Program"),
    PermissionSpec("DELETE_DEGREE_PROGRAM", "Allows deletion of degree programs", "Degree Program"),
    PermissionSpec("READ_DEGREE_PROGRAM", "Allows viewing of degree programs", "Degree Program"),
    PermissionSpec("CREATE_COURSE", "Allows creating new courses", "Courses"),
    PermissionSpec("UPDATE_COURSE", "Allows editing of course details", "Courses"),
    PermissionSpec("DELETE_COURSE", "Allows deletion of courses", "Courses"),
    PermissionSpec("READ_COURSE", "Allows viewing of courses", "Courses")]

  /** The six `createRole` calls of `seedData`, in order: ADMIN first,
      ACADEMY_COORDINATOR last. */
  const SeedRoles: seq<RoleSpec> := [
    RoleSpec("ADMIN", "Administrator role(Head of the department)"),
    RoleSpec("PAPER_CREATOR", "Role responsible for creating exam papers"),
    RoleSpec("PAPER_MODERATOR", "Role responsible for moderating exam papers"),
    RoleSpec("FIRST_MAKER", "Role responsible for moderating and reviewing exam papers (First Maker)"),
    RoleSpec("SECOND_MAKER", "Role responsible for reviewing and finalizing exam papers (Second Maker)"),
    RoleSpec("ACADEMY_COORDINATOR", "Role responsible for overseeing the academic aspects and coordination")]

  /** `name` is one of the seventeen seeded permission names. */
  predicate SeededPermissionName(name: string) {
    exists k :: 0 <= k < |SeedPermissions| && SeedPermissions[k].name == name
  }

  /** The role named `roleName` is bound to the permission named `permName`. */
  predicate Granted(ps: seq<Permission>, rs: seq<Role>, bs: seq<RolePermission>, roleName: string, permName: string) {
    && RoleNamed(rs, roleName).Some? && PermissionNamed(ps, permName).Some?
    && RolePermission(RoleNamed(rs, roleName).value.id, PermissionNamed(ps, permName).value.id) in bs
  }

  /** What seeding establishes: every seeded role exists, ADMIN holds every
      seeded permission, ACADEMY_COORDINATOR holds READ_USER and READ_ROLE,
      and both seeded usernames are taken. */
  predicate Seeded(t: Tables) {
    && (forall k :: 0 <= k < |SeedRoles| ==> RoleNamed(t.roles, SeedRoles[k].name).Some?)
    && (forall k :: 0 <= k < |SeedPermissions| ==>
          Granted(t.permissions, t.roles, t.rolePermissions, "ADMIN", SeedPermissions[k].name))
    && Granted(t.permissions, t.roles, t.rolePermissions, "ACADEMY_COORDINATOR", "READ_USER")
    && Granted(t.permissions, t.roles, t.rolePermissions, "ACADEMY_COORDINATOR", "READ_ROLE")
    && UsernameTaken(t.users, "admin") && UsernameTaken(t.users, "coordinator")
  }

  /** A binding seeding may add: ADMIN to a seeded permission, or
      ACADEMY_COORDINATOR to READ_USER or READ_ROLE. */
  predicate SeedBinding(ps: seq<Permission>, rs: seq<Role>, b: RolePermission) {
    match (RoleWithId(rs, b.roleId), PermissionWithId(ps, b.permissionId))
    case (Some(r), Some(p)) =>
      || (r.name == "ADMIN" && SeededPermissionName(p.name))
      || (r.name == "ACADEMY_COORDINATOR" && (p.name == "READ_USER" || p.name == "READ_ROLE"))
    case _ => false
  }

  /** What `createPermission` does to the tables, and the row it returns:
      the row the name finds, which is a new one only when none had it. */
  function GetOrCreatePermission(t: Tables, name: string, description: string, category: string): (r: (Tables, Permission))
    requires ValidTables(t)
    ensures ValidTables(r.0)
    ensures PermissionNamed(r.0.permissions, name) == Some(r.1)
    ensures t.permissions <= r.0.permissions && forall x :: x in t.permissions ==> x in r.0.permissions
    ensures r.0 == t.(permissions := r.0.permissions, nextId := r.0.nextId)
  {
    match PermissionNamed(t.permissions, name)
    case Some(p) => (t, p)
    case None =>
      var p := Permission(t.nextId, name, description, category);
      SavePermission(t.permissions, p);
      (t.(permissions := t.permissions + [p], nextId := t.nextId + 1), p)
  }

  /** What `createRole` does to the tables, and the row it returns. */
  function GetOrCreateRole(t: Tables, name: string, description: string): (r: (Tables, Role))
    requires ValidTables(t)
    ensures ValidTables(r.0)
    ensures RoleNamed(r.0.roles, name) == Some(r.1)
    ensures t.roles <= r.0.roles && forall x :: x in t.roles ==> x in r.0.roles
    ensures r.0 == t.(roles := r.0.roles, nextId := r.0.nextId)
  {
    match RoleNamed(t.roles, name)
    case Some(x) => (t, x)
    case None =>
      var x := Role(t.nextId, name, description);
      SaveRole(t.roles, x);
      (t.(roles := t.roles + [x], nextId := t.nextId + 1), x)
  }

  /** `createPermission` adds a row exactly when no row has the name;
      otherwise it returns that row and changes nothing. */
  lemma GetOrCreatePermissionCases(t: Tables, name: string, description: string, category: string)
    requires ValidTables(t)
    ensures var r := GetOrCreatePermission(t, name, description, category);
      if PermissionNamed(t.permissions, name).Some? then r == (t, PermissionNamed(t.permissions, name).value)
      else r.1 == Permission(t.nextId, name, description, category) && r.0.permissions == t.permissions + [r.1]
  {
  }

  /** The same for `createRole`. */
  lemma GetOrCreateRoleCases(t: Tables, name: string, description: string)
    requires ValidTables(t)
    ensures var r := GetOrCreateRole(t, name, description);
      if RoleNamed(t.roles, name).Some? then r == (t, RoleNamed(t.roles, name).value)
      else r.1 == Role(t.nextId, name, description) && r.0.roles == t.roles + [r.1]
  {
  }

  /** The `createPermission` calls of `seedData`: each spec in turn,
      collecting the rows returned. */
  function CreatePermissions(t: Tables, specs: seq<PermissionSpec>): (r: (Tables, seq<Permission>))
    requires ValidTables(t)
    ensures ValidTables(r.0) && |r.1| == |specs|
    ensures forall k :: 0 <= k < |specs| ==> r.1[k] in r.0.permissions && r.1[k].name == specs[k].name
    ensures forall x :: x in t.permissions ==> x in r.0.permissions
    ensures r.0 == t.(permissions := r.0.permissions, nextId := r.0.nextId)
    decreases |specs|
  {
    if specs == [] then (t, [])
    else
      var (t', ps) := CreatePermissions(t, specs[..|specs| - 1]);
      var spec := specs[|specs| - 1];
      var (t'', p) := GetOrCreatePermission(t', spec.name, spec.description, spec.category);
      (t'', ps + [p])
  }

  /** The `createRole` calls of `seedData`. */
  function CreateRoles(t: Tables, specs: seq<RoleSpec>): (r: (Tables, seq<Role>))
    requires ValidTables(t)
    ensures ValidTables(r.0) && |r.1| == |specs|
    ensures forall k :: 0 <= k < |specs| ==> r.1[k] in r.0.roles && r.1[k].name == specs[k].name
    ensures forall x :: x in t.roles ==> x in r.0.roles
    ensures r.0 == t.(roles := r.0.roles, nextId := r.0.nextId)
    decreases |specs|
  {
    if specs == [] then (t, [])
    else
      var (t', rs) := CreateRoles(t, specs[..|specs| - 1]);
      var spec := specs[|specs| - 1];
      var (t'', x) := GetOrCreateRole(t', spec.name, spec.description);
      (t'', rs + [x])
  }

  /** One more call: the calls for a longer prefix of the specs make the
      next call last. */
  lemma CreatePermissionsSnoc(t: Tables, specs: seq<PermissionSpec>, k: nat)
    requires ValidTables(t) && k < |specs|
    ensures var (t1, ps) := CreatePermissions(t, specs[..k]);
      var (t2, p) := GetOrCreatePermission(t1, specs[k].name, specs[k].description, specs[k].category);
      CreatePermissions(t, specs[..k + 1]) == (t2, ps + [p])
  {
    assert specs[..k + 1][..k] == specs[..k];
  }

  lemma CreateRolesSnoc(t: Tables, specs: seq<RoleSpec>, k: nat)
    requires ValidTables(t) && k < |specs|
    ensures var (t1, rs) := CreateRoles(t, specs[..k]);
      var (t2, x) := GetOrCreateRole(t1, specs[k].name, specs[k].description);
      CreateRoles(t, specs[..k + 1]) == (t2, rs + [x])
  {
    assert specs[..k + 1][..k] == specs[..k];
  }

  /** When every name already has a row, the calls change nothing. */
  lemma {:induction false} CreatePermissionsExisting(t: Tables, specs: seq<PermissionSpec>)
    requires ValidTables(t)
    requires forall k :: 0 <= k < |specs| ==> PermissionNamed(t.permissions, specs[k].name).Some?
    ensures CreatePermissions(t, specs).0 == t
    decreases |specs|
  {
    if specs != [] {
      var init := specs[..|specs| - 1];
      forall k | 0 <= k < |init| ensures PermissionNamed(t.permissions, init[k].name).Some? {
        assert init[k] == specs[k];
      }
      CreatePermissionsExisting(t, init);
      var spec := specs[|specs| - 1];
      GetOrCreatePermissionCases(t, spec.name, spec.description, spec.category);
    }
  }

  /** The same for roles. */
  lemma {:induction false} CreateRolesExisting(t: Tables, specs: seq<RoleSpec>)
    requires ValidTables(t)
    requires forall k :: 0 <= k < |specs| ==> RoleNamed(t.roles, specs[k].name).Some?
    ensures CreateRoles(t, specs).0 == t
    decreases |specs|
  {
    if specs != [] {
      var init := specs[..|specs| - 1];
      forall k | 0 <= k < |init| ensures RoleNamed(t.roles, init[k].name).Some? {
        assert init[k] == specs[k];
      }
      CreateRolesExisting(t, init);
      var spec := specs[|specs| - 1];
      GetOrCreateRoleCases(t, spec.name, spec.description);
    }
  }

  /** ... and return the rows the names find. */
  lemma CreatePermissionsFound(t: Tables, specs: seq<PermissionSpec>)
    requires ValidTables(t)
    requires forall k :: 0 <= k < |specs| ==> PermissionNamed(t.permissions, specs[k].name).Some?
    ensures CreatePermissions(t, specs).0 == t
    ensures forall k :: 0 <= k < |specs| ==> PermissionNamed(t.permissions, specs[k].name) == Some(CreatePermissions(t, specs).1[k])
  {
    CreatePermissionsExisting(t, specs);
    var ps := CreatePermissions(t, specs).1;
    forall k | 0 <= k < |specs| ensures PermissionNamed(t.permissions, specs[k].name) == Some(ps[k]) {
      PermissionNamedFinds(t.permissions, ps[k]);
    }
  }

  lemma CreateRolesFound(t: Tables, specs: seq<RoleSpec>)
    requires ValidTables(t)
    requires forall k :: 0 <= k < |specs| ==> RoleNamed(t.roles, specs[k].name).Some?
    ensures CreateRoles(t, specs).0 == t
    ensures forall k :: 0 <= k < |specs| ==> RoleNamed(t.roles, specs[k].name) == Some(CreateRoles(t, specs).1[k])
  {
    CreateRolesExisting(t, specs);
    var rs := CreateRoles(t, specs).1;
    forall k | 0 <= k < |specs| ensures RoleNamed(t.roles, specs[k].name) == Some(rs[k]) {
      RoleNamedFinds(t.roles, rs[k]);
    }
  }

  /** What `assignPermissionToRole(role, permission)` does to the tables:
      the pair is bound afterwards, it is the only binding that may be new,
      and nothing changes when it was already bound. */
  function BindPermission(t: Tables, role: Role, permission: Permission): (r: Tables)
    requires ValidTables(t)
    ensures ValidTables(r)
    ensures r == t.(rolePermissions := r.rolePermissions)
    ensures RolePermission(role.id, permission.id) in r.rolePermissions
    ensures forall x :: x in t.rolePermissions ==> x in r.rolePermissions
    ensures RolePermission(role.id, permission.id) in t.rolePermissions ==> r == t
  {
    var b := RolePermission(role.id, permission.id);
    if b in t.rolePermissions then t
    else
      var bs := t.rolePermissions + [b];
      assert NoDuplicateBindings(bs) by {
        forall i, j | 0 <= i < j < |bs| ensures bs[i] != bs[j] {
          if j == |t.rolePermissions| {
            assert bs[i] in t.rolePermissions;
          }
        }
      }
      t.(rolePermissions := bs)
  }

  /** The pair is the only binding `assignPermissionToRole` may add. */
  lemma BindPermissionAddsOnly(t: Tables, role: Role, permission: Permission)
    requires ValidTables(t)
    ensures forall x :: x in BindPermission(t, role, permission).rolePermissions ==>
      x in t.rolePermissions || x == RolePermission(role.id, permission.id)
  {
  }

  /** `assignPermissionToRole(role, p)` for each `p` in `ps` in turn: the
      role holds every one afterwards, and nothing changes when it held them
      all already. */
  function BindAll(t: Tables, role: Role, ps: seq<Permission>): (r: Tables)
    requires ValidTables(t)
    ensures ValidTables(r)
    ensures r == t.(rolePermissions := r.rolePermissions)
    ensures forall x :: x in t.rolePermissions ==> x in r.rolePermissions
    ensures forall k :: 0 <= k < |ps| ==> RolePermission(role.id, ps[k].id) in r.rolePermissions
    decreases |ps|
  {
    if ps == [] then t
    else BindPermission(BindAll(t, role, ps[..|ps| - 1]), role, ps[|ps| - 1])
  }

  /** When the role holds every row of `ps` already, `BindAll` changes nothing. */
  lemma {:induction false} BindAllHeld(t: Tables, role: Role, ps: seq<Permission>)
    requires ValidTables(t)
    requires forall k :: 0 <= k < |ps| ==> RolePermission(role.id, ps[k].id) in t.rolePermissions
    ensures BindAll(t, role, ps) == t
    decreases |ps|
  {
    if ps != [] {
      var init := ps[..|ps| - 1];
      assert forall k :: 0 <= k < |init| ==> init[k] == ps[k];
      BindAllHeld(t, role, init);
    }
  }

  /** The role's pairs with `ps` are the only bindings `BindAll` may add. */
  lemma {:induction false} BindAllAddsOnly(t: Tables, role: Role, ps: seq<Permission>)
    requires ValidTables(t)
    ensures forall x :: x in BindAll(t, role, ps).rolePermissions ==>
      x in t.rolePermissions || exists k :: 0 <= k < |ps| && x == RolePermission(role.id, ps[k].id)
    decreases |ps|
  {
    if ps != [] {
      var init := ps[..|ps| - 1];
      BindAllAddsOnly(t, role, init);
      BindPermissionAddsOnly(BindAll(t, role, init), role, ps[|ps| - 1]);
      assert forall k :: 0 <= k < |init| ==> init[k] == ps[k];
    }
  }

  /** What the eight-permission overload does: the eight single bindings in
      turn. */
  function BindPermissions(t: Tables, p1: Permission, p2: Permission, p3: Permission, p4: Permission,
                           p5: Permission, p6: Permission, p7: Permission, p8: Permission, role: Role): (r: Tables)
    requires ValidTables(t)
    ensures ValidTables(r)
    ensures r == t.(rolePermissions := r.rolePermissions)
    ensures forall x :: x in t.rolePermissions ==> x in r.rolePermissions
    ensures forall p :: p in [p1, p2, p3, p4, p5, p6, p7, p8] ==> RolePermission(role.id, p.id) in r.rolePermissions
  {
    var ps := [p1, p2, p3, p4, p5, p6, p7, p8];
    assert forall p :: p in ps ==> exists k :: 0 <= k < |ps| && ps[k] == p;
    BindAll(t, role, ps)
  }

  /** One more row: `BindAll` on a longer prefix binds its last row last. */
  lemma BindAllSnoc(t: Tables, role: Role, ps: seq<Permission>, n: nat)
    requires ValidTables(t) && n < |ps|
    ensures BindAll(t, role, ps[..n + 1]) == BindPermission(BindAll(t, role, ps[..n]), role, ps[n])
  {
    assert ps[..n + 1][..n] == ps[..n];
  }

  /** The overload applied to eight consecutive rows is `BindAll` on them. */
  lemma BindPermissionsIsBindAll(t: Tables, ps: seq<Permission>, lo: nat, role: Role)
    requires ValidTables(t) && lo + 8 <= |ps|
    ensures BindPermissions(t, ps[lo], ps[lo + 1], ps[lo + 2], ps[lo + 3], ps[lo + 4], ps[lo + 5], ps[lo + 6], ps[lo + 7], role)
         == BindAll(t, role, ps[lo..lo + 8])
  {
    assert [ps[lo], ps[lo + 1], ps[lo + 2], ps[lo + 3], ps[lo + 4], ps[lo + 5], ps[lo + 6], ps[lo + 7]] == ps[lo..lo + 8];
  }

  /** What `createUser` does to the tables, and how it ends: afterwards the
      username is taken, and with a role the call returns normally. */
  function UserCreated(t: Tables, encode: string -> string, username: string, email: string,
                       password: string, role: Option<Role>): (r: (Tables, Outcome<Error>))
    requires ValidTables(t)
    ensures ValidTables(r.0)
    ensures UsernameTaken(r.0.users, username) && forall u :: u in t.users ==> u in r.0.users
    ensures r.0 == t.(users := r.0.users, userRoles := r.0.userRoles, nextId := r.0.nextId)
    ensures role.Some? ==> r.1 == Pass
  {
    if UsernameTaken(t.users, username) then (t, Pass)
    else
      var u := User(t.nextId, username, email, "Admin", "User", 0, true, encode(password));
      var saved := t.(users := t.users + [u], nextId := t.nextId + 1);
      assert u in saved.users;
      if role.None? then (saved, Fail(InvalidRole))
      else (saved.(userRoles := t.userRoles + [UserRole(u.id, Some(role.value.id))]), Pass)
  }

  /** `createUser` changes nothing for a taken username; otherwise it saves
      the user under the next identifier with the fixed names, status and
      active flag and the encoded password, and then either binds the user to
      the role or, without one, fails after the user is saved. */
  lemma UserCreatedCases(t: Tables, encode: string -> string, username: string, email: string,
                         password: string, role: Option<Role>)
    requires ValidTables(t)
    ensures var r := UserCreated(t, encode, username, email, password, role);
      if UsernameTaken(t.users, username) then r == (t, Pass)
      else
        var u := User(t.nextId, username, email, "Admin", "User", 0, true, encode(password));
        && r.0.users == t.users + [u] && r.0.nextId == t.nextId + 1
        && (role.None? ==> r.1 == Fail(InvalidRole) && r.0.userRoles == t.userRoles)
        && (role.Some? ==> r.0.userRoles == t.userRoles + [UserRole(u.id, Some(role.value.id))])
  {
  }

  /** `createUser` keeps the foreign keys of the user-role table when the
      role it binds is a saved one. */
  lemma UserCreatedReferential(t: Tables, encode: string -> string, username: string, email: string,
                               password: string, role: Option<Role>)
    requires ValidTables(t) && Referential(t)
    requires role.Some? ==> role.value in t.roles
    ensures Referential(UserCreated(t, encode, username, email, password, role).0)
  {
    UserCreatedCases(t, encode, username, email, password, role);
    var r := UserCreated(t, encode, username, email, password, role).0;
    if !UsernameTaken(t.users, username) {
      var u := User(t.nextId, username, email, "Admin", "User", 0, true, encode(password));
      assert u in r.users;
    }
    ReferentialGrows(t, r);
  }

  /** The five `assignPermissionToRole` calls of `seedData`: ADMIN receives
      `p1` .. `p8` by the eight-permission overload, then `p9` .. `p16`, then
      `p17`; ACADEMY_COORDINATOR receives `p4` and `p9`. Each overload call
      is written as `BindAll` on its eight rows, which
      `BindPermissionsIsBindAll` shows to be the same tables. */
  function SeedGrants(t: Tables, ps: seq<Permission>, admin: Role, coordinator: Role): (r: Tables)
    requires ValidTables(t) && |ps| == 17
    ensures ValidTables(r)
    ensures r == t.(rolePermissions := r.rolePermissions)
    ensures forall x :: x in t.rolePermissions ==> x in r.rolePermissions
  {
    var t1 := BindAll(t, admin, ps[0..8]);
    var t2 := BindAll(t1, admin, ps[8..16]);
    var t3 := BindPermission(t2, admin, ps[16]);
    var t4 := BindPermission(t3, coordinator, ps[3]);
    BindPermission(t4, coordinator, ps[8])
  }

  /** After the two eight-permission calls ADMIN holds the first sixteen
      rows of `ps`. */
  lemma AdminOverloadsBind(t: Tables, ps: seq<Permission>, admin: Role)
    requires ValidTables(t) && |ps| == 17
    ensures var t2 := BindAll(BindAll(t, admin, ps[0..8]), admin, ps[8..16]);
      forall k :: 0 <= k < 16 ==> RolePermission(admin.id, ps[k].id) in t2.rolePermissions
  {
    var t1 := BindAll(t, admin, ps[0..8]);
    var t2 := BindAll(t1, admin, ps[8..16]);
    forall k | 0 <= k < 16 ensures RolePermission(admin.id, ps[k].id) in t2.rolePermissions {
      if k < 8 {
        assert ps[0..8][k] == ps[k];
        assert RolePermission(admin.id, ps[k].id) in t1.rolePermissions;
      } else {
        assert ps[8..16][k - 8] == ps[k];
      }
    }
  }

  /** After the grants ADMIN holds every row in `ps` and ACADEMY_COORDINATOR
      holds the fourth and the ninth. */
  lemma SeedGrantsBind(t: Tables, ps: seq<Permission>, admin: Role, coordinator: Role)
    requires ValidTables(t) && |ps| == 17
    ensures var r := SeedGrants(t, ps, admin, coordinator);
      && (forall k :: 0 <= k < |ps| ==> RolePermission(admin.id, ps[k].id) in r.rolePermissions)
      && RolePermission(coordinator.id, ps[3].id) in r.rolePermissions
      && RolePermission(coordinator.id, ps[8].id) in r.rolePermissions
  {
    var t2 := BindAll(BindAll(t, admin, ps[0..8]), admin, ps[8..16]);
    AdminOverloadsBind(t, ps, admin);
    var t3 := BindPermission(t2, admin, ps[16]);
    var t4 := BindPermission(t3, coordinator, ps[3]);
    var r := BindPermission(t4, coordinator, ps[8]);
    AdminCarried(t2.rolePermissions, t3.rolePermissions, r.rolePermissions, ps, admin);
  }

  /** The ADMIN bindings survive the last three single calls. */
  lemma AdminCarried(bs2: seq<RolePermission>, bs3: seq<RolePermission>, bs: seq<RolePermission>,
                     ps: seq<Permission>, admin: Role)
    requires |ps| == 17
    requires forall k :: 0 <= k < 16 ==> RolePermission(admin.id, ps[k].id) in bs2
    requires RolePermission(admin.id, ps[16].id) in bs3
    requires forall x :: x in bs2 ==> x in bs3
    requires forall x :: x in bs3 ==> x in bs
    ensures forall k :: 0 <= k < |ps| ==> RolePermission(admin.id, ps[k].id) in bs
  {
  }

  /** The grants add no binding but those. */
  lemma SeedGrantsAddsOnly(t: Tables, ps: seq<Permission>, admin: Role, coordinator: Role)
    requires ValidTables(t) && |ps| == 17
    ensures forall x :: x in SeedGrants(t, ps, admin, coordinator).rolePermissions ==>
      || x in t.rolePermissions
      || (exists k :: 0 <= k < |ps| && x == RolePermission(admin.id, ps[k].id))
      || x == RolePermission(coordinator.id, ps[3].id) || x == RolePermission(coordinator.id, ps[8].id)
  {
    var t1 := BindAll(t, admin, ps[0..8]);
    var t2 := BindAll(t1, admin, ps[8..16]);
    var t3 := BindPermission(t2, admin, ps[16]);
    var t4 := BindPermission(t3, coordinator, ps[3]);
    var r := BindPermission(t4, coordinator, ps[8]);
    BindAllAddsOnly(t, admin, ps[0..8]);
    BindAllAddsOnly(t1, admin, ps[8..16]);
    BindPermissionAddsOnly(t2, admin, ps[16]);
    BindPermissionAddsOnly(t3, coordinator, ps[3]);
    BindPermissionAddsOnly(t4, coordinator, ps[8]);
    forall x | x in r.rolePermissions && x !in t.rolePermissions && x in t2.rolePermissions
      ensures exists k :: 0 <= k < |ps| && x == RolePermission(admin.id, ps[k].id)
    {
      if x in t1.rolePermissions {
        var k :| 0 <= k < 8 && x == RolePermission(admin.id, ps[0..8][k].id);
        assert ps[0..8][k] == ps[k];
      } else {
        var k :| 0 <= k < 8 && x == RolePermission(admin.id, ps[8..16][k].id);
        assert ps[8..16][k] == ps[k + 8];
      }
    }
  }

  /** With every grant in place already, the grants change nothing. */
  lemma SeedGrantsHeld(t: Tables, ps: seq<Permission>, admin: Role, coordinator: Role)
    requires ValidTables(t) && |ps| == 17
    requires forall k :: 0 <= k < |ps| ==> RolePermission(admin.id, ps[k].id) in t.rolePermissions
    requires RolePermission(coordinator.id, ps[3].id) in t.rolePermissions
    requires RolePermission(coordinator.id, ps[8].id) in t.rolePermissions
    ensures SeedGrants(t, ps, admin, coordinator) == t
  {
    assert forall k :: 0 <= k < 8 ==> ps[0..8][k] == ps[k] && ps[8..16][k] == ps[k + 8];
    BindAllHeld(t, admin, ps[0..8]);
    BindAllHeld(t, admin, ps[8..16]);
  }

  /** The two `createUser` calls of `seedData`; a failing `createUser` ends
      the seeding, as the exception it throws is caught around the whole
      sequence. Both usernames are taken afterwards, and only the user
      tables and the identifier counter change. */
  function SeedUsers(t: Tables, encode: string -> string, admin: Role, coordinator: Role): (r: Tables)
    requires ValidTables(t)
    ensures ValidTables(r)
    ensures r == t.(users := r.users, userRoles := r.userRoles, nextId := r.nextId)
    ensures UsernameTaken(r.users, "admin") && UsernameTaken(r.users, "coordinator")
    ensures forall u :: u in t.users ==> u in r.users
  {
    var (t1, o) := UserCreated(t, encode, "admin", "admin@example.com", "pwd", Some(admin));
    if o.Fail? then t1
    else
      var t2 := UserCreated(t1, encode, "coordinator", "coordinator@example.com", "pwd", Some(coordinator)).0;
      var u :| u in t1.users && u.username == "admin";
      assert u in t2.users;
      t2
  }

  /** The two `createUser` calls keep the foreign keys when both roles are
      saved ones. */
  lemma SeedUsersReferential(t: Tables, encode: string -> string, admin: Role, coordinator: Role)
    requires ValidTables(t) && Referential(t) && admin in t.roles && coordinator in t.roles
    ensures Referential(SeedUsers(t, encode, admin, coordinator))
  {
    var (t1, o) := UserCreated(t, encode, "admin", "admin@example.com", "pwd", Some(admin));
    UserCreatedReferential(t, encode, "admin", "admin@example.com", "pwd", Some(admin));
    UserCreatedReferential(t1, encode, "coordinator", "coordinator@example.com", "pwd", Some(coordinator));
  }

  /** The tables after `seedData`, step by step as the source takes them:
      valid tables that keep every row they held. */
  function SeedTables(t0: Tables, encode: string -> string): (t: Tables)
    requires ValidTables(t0)
    ensures ValidTables(t)
    ensures forall x :: x in t0.permissions ==> x in t.permissions
    ensures forall x :: x in t0.roles ==> x in t.roles
    ensures forall x :: x in t0.rolePermissions ==> x in t.rolePermissions
    ensures forall u :: u in t0.users ==> u in t.users
  {
    var created := CreatePermissions(t0, SeedPermissions);
    var roles := CreateRoles(created.0, SeedRoles);
    SeedUsers(SeedGrants(roles.0, created.1, roles.1[0], roles.1[5]), encode, roles.1[0], roles.1[5])
  }

  /** Where the names `seedData` refers to sit in the seed tables. */
  lemma SeedNames()
    ensures SeedRoles[0].name == "ADMIN" && SeedRoles[5].name == "ACADEMY_COORDINATOR"
    ensures SeedPermissions[3].name == "READ_USER" && SeedPermissions[8].name == "READ_ROLE"
  {
  }

  /** The facts about seeded rows from which `Seeded` follows: `ps` and `rs`
      are rows of `t` carrying the seeded names, in seed order. */
  predicate SeedRows(t: Tables, ps: seq<Permission>, rs: seq<Role>) {
    && |ps| == |SeedPermissions| && |rs| == |SeedRoles|
    && (forall k :: 0 <= k < |ps| ==> ps[k] in t.permissions && ps[k].name == SeedPermissions[k].name)
    && (forall k :: 0 <= k < |rs| ==> rs[k] in t.roles && rs[k].name == SeedRoles[k].name)
  }

  /** What the grants leave bound, in terms of the seeded rows: ADMIN
      (`rs[0]`) holds all of `ps`, ACADEMY_COORDINATOR (`rs[5]`) holds
      `ps[3]` and `ps[8]`. */
  predicate SeedRowsBound(t: Tables, ps: seq<Permission>, rs: seq<Role>)
    requires |ps| == |SeedPermissions| && |rs| == |SeedRoles|
  {
    && (forall k :: 0 <= k < |ps| ==> RolePermission(rs[0].id, ps[k].id) in t.rolePermissions)
    && RolePermission(rs[5].id, ps[3].id) in t.rolePermissions
    && RolePermission(rs[5].id, ps[8].id) in t.rolePermissions
  }

  /** `Seeded` follows from the seeded rows being bound as the grants bind
      them and from both usernames being taken. */
  lemma SeededFromRows(t: Tables, ps: seq<Permission>, rs: seq<Role>)
    requires ValidTables(t) && SeedRows(t, ps, rs) && SeedRowsBound(t, ps, rs)
    requires UsernameTaken(t.users, "admin") && UsernameTaken(t.users, "coordinator")
    ensures Seeded(t)
  {
    forall k | 0 <= k < |SeedRoles| ensures RoleNamed(t.roles, SeedRoles[k].name).Some? {
      assert rs[k] in t.roles;
    }
    SeedNames();
    RoleNamedFinds(t.roles, rs[0]);
    RoleNamedFinds(t.roles, rs[5]);
    forall k | 0 <= k < |SeedPermissions|
      ensures Granted(t.permissions, t.roles, t.rolePermissions, "ADMIN", SeedPermissions[k].name)
    {
      PermissionNamedFinds(t.permissions, ps[k]);
    }
    PermissionNamedFinds(t.permissions, ps[3]);
    PermissionNamedFinds(t.permissions, ps[8]);
  }

  /** Seeding is the permissions phase, the roles phase and the grants,
      followed by the two users, which leave the other tables alone. */
  lemma SeedTablesPhases(t0: Tables, encode: string -> string)
    requires ValidTables(t0)
    ensures var (t1, ps) := CreatePermissions(t0, SeedPermissions);
      var (t2, rs) := CreateRoles(t1, SeedRoles);
      var t := SeedTables(t0, encode);
      && t.permissions == t1.permissions && t.roles == t2.roles
      && t.rolePermissions == SeedGrants(t2, ps, rs[0], rs[5]).rolePermissions
  {
    var (t1, ps) := CreatePermissions(t0, SeedPermissions);
    var (t2, rs) := CreateRoles(t1, SeedRoles);
    var g := SeedGrants(t2, ps, rs[0], rs[5]);
    assert SeedTables(t0, encode) == SeedUsers(g, encode, rs[0], rs[5]);
  }

  /** How the seeded tables are made of the seeded rows. */
  lemma SeedTablesRows(t0: Tables, encode: string -> string)
    requires ValidTables(t0)
    ensures var (t1, ps) := CreatePermissions(t0, SeedPermissions);
      var (t2, rs) := CreateRoles(t1, SeedRoles);
      var t := SeedTables(t0, encode);
      && SeedRows(t, ps, rs) && SeedRowsBound(t, ps, rs)
      && t.rolePermissions == SeedGrants(t2, ps, rs[0], rs[5]).rolePermissions
      && t0.rolePermissions == t2.rolePermissions
      && UsernameTaken(t.users, "admin") && UsernameTaken(t.users, "coordinator")
  {
    SeedTablesPhases(t0, encode);
    var (t1, ps) := CreatePermissions(t0, SeedPermissions);
    var (t2, rs) := CreateRoles(t1, SeedRoles);
    SeedGrantsBind(t2, ps, rs[0], rs[5]);
  }

  /** Seeding establishes `Seeded`, whatever the tables held before. */
  lemma SeedTablesSeeds(t0: Tables, encode: string -> string)
    requires ValidTables(t0)
    ensures Seeded(SeedTables(t0, encode))
  {
    SeedTablesRows(t0, encode);
    var (t1, ps) := CreatePermissions(t0, SeedPermissions);
    var (t2, rs) := CreateRoles(t1, SeedRoles);
    SeededFromRows(SeedTables(t0, encode), ps, rs);
  }

  /** The bindings the grants may add are seed bindings. */
  lemma SeedBindingFromRows(t: Tables, ps: seq<Permission>, rs: seq<Role>, b: RolePermission)
    requires ValidTables(t) && SeedRows(t, ps, rs)
    requires || (exists k :: 0 <= k < |ps| && b == RolePermission(rs[0].id, ps[k].id))
             || b == RolePermission(rs[5].id, ps[3].id) || b == RolePermission(rs[5].id, ps[8].id)
    ensures SeedBinding(t.permissions, t.roles, b)
  {
    SeedNames();
    RoleWithIdFinds(t.roles, rs[0]);
    RoleWithIdFinds(t.roles, rs[5]);
    if b != RolePermission(rs[5].id, ps[3].id) && b != RolePermission(rs[5].id, ps[8].id) {
      var k :| 0 <= k < |ps| && b == RolePermission(rs[0].id, ps[k].id);
      PermissionWithIdFinds(t.permissions, ps[k]);
      assert SeedPermissions[k].name == ps[k].name;
    } else {
      PermissionWithIdFinds(t.permissions, ps[3]);
      PermissionWithIdFinds(t.permissions, ps[8]);
    }
  }

  /** Seeding adds no bindings but seed bindings. */
  lemma SeedTablesAddsOnly(t0: Tables, encode: string -> string)
    requires ValidTables(t0)
    ensures var t := SeedTables(t0, encode);
      forall b :: b in t.rolePermissions ==> b in t0.rolePermissions || SeedBinding(t.permissions, t.roles, b)
  {
    SeedTablesRows(t0, encode);
    var (t1, ps) := CreatePermissions(t0, SeedPermissions);
    var (t2, rs) := CreateRoles(t1, SeedRoles);
    SeedGrantsAddsOnly(t2, ps, rs[0], rs[5]);
    var t := SeedTables(t0, encode);
    forall b | b in t.rolePermissions && b !in t0.rolePermissions
      ensures SeedBinding(t.permissions, t.roles, b)
    {
      SeedBindingFromRows(t, ps, rs, b);
    }
  }

  /** On seeded tables the grants, given the rows the seeded names find,
      change nothing. */
  lemma SeededGrantsHeld(t: Tables, ps: seq<Permission>, admin: Role, coordinator: Role)
    requires ValidTables(t) && Seeded(t) && |ps| == 17
    requires forall k :: 0 <= k < 17 ==> PermissionNamed(t.permissions, SeedPermissions[k].name) == Some(ps[k])
    requires RoleNamed(t.roles, "ADMIN") == Some(admin)
    requires RoleNamed(t.roles, "ACADEMY_COORDINATOR") == Some(coordinator)
    ensures SeedGrants(t, ps, admin, coordinator) == t
  {
    forall k | 0 <= k < |ps| ensures RolePermission(admin.id, ps[k].id) in t.rolePermissions {
      assert Granted(t.permissions, t.roles, t.rolePermissions, "ADMIN", SeedPermissions[k].name);
    }
    SeedNames();
    assert PermissionNamed(t.permissions, "READ_USER") == Some(ps[3]);
    assert PermissionNamed(t.permissions, "READ_ROLE") == Some(ps[8]);
    SeedGrantsHeld(t, ps, admin, coordinator);
  }

  /** On seeded tables every seeded permission and role name finds a row. */
  lemma SeededNamesFound(t: Tables)
    requires Seeded(t)
    ensures forall k :: 0 <= k < |SeedPermissions| ==> PermissionNamed(t.permissions, SeedPermissions[k].name).Some?
    ensures forall k :: 0 <= k < |SeedRoles| ==> RoleNamed(t.roles, SeedRoles[k].name).Some?
  {
    forall k | 0 <= k < |SeedPermissions| ensures PermissionNamed(t.permissions, SeedPermissions[k].name).Some? {
      assert Granted(t.permissions, t.roles, t.rolePermissions, "ADMIN", SeedPermissions[k].name);
    }
  }

  /** On seeded tables the seventeen `createPermission` calls change
      nothing and return the rows the seeded names find. */
  lemma PermissionsOnSeeded(t: Tables)
    requires ValidTables(t) && Seeded(t)
    ensures CreatePermissions(t, SeedPermissions).0 == t
    ensures forall k :: 0 <= k < 17 ==>
      PermissionNamed(t.permissions, SeedPermissions[k].name) == Some(CreatePermissions(t, SeedPermissions).1[k])
  {
    SeededNamesFound(t);
    CreatePermissionsFound(t, SeedPermissions);
  }

  /** On seeded tables the six `createRole` calls change nothing; the first
      returns the ADMIN row and the last the ACADEMY_COORDINATOR row. */
  lemma RolesOnSeeded(t: Tables)
    requires ValidTables(t) && Seeded(t)
    ensures CreateRoles(t, SeedRoles).0 == t
    ensures RoleNamed(t.roles, "ADMIN") == Some(CreateRoles(t, SeedRoles).1[0])
    ensures RoleNamed(t.roles, "ACADEMY_COORDINATOR") == Some(CreateRoles(t, SeedRoles).1[5])
  {
    SeededNamesFound(t);
    CreateRolesFound(t, SeedRoles);
    SeedNames();
  }

  /** On seeded tables the permission and role calls find every row, and
      the grants find every binding: none of them changes anything. */
  lemma SeedGrantsOnSeeded(t: Tables)
    requires ValidTables(t) && Seeded(t)
    ensures CreatePermissions(t, SeedPermissions).0 == t
    ensures CreateRoles(t, SeedRoles).0 == t
    ensures SeedGrants(t, CreatePermissions(t, SeedPermissions).1, CreateRoles(t, SeedRoles).1[0], CreateRoles(t, SeedRoles).1[5]) == t
  {
    PermissionsOnSeeded(t);
    RolesOnSeeded(t);
    var ps := CreatePermissions(t, SeedPermissions).1;
    var rs := CreateRoles(t, SeedRoles).1;
    SeededGrantsHeld(t, ps, rs[0], rs[5]);
  }

  /** With both usernames taken, the two `createUser` calls change nothing. */
  lemma SeedUsersHeld(t: Tables, encode: string -> string, admin: Role, coordinator: Role)
    requires ValidTables(t) && UsernameTaken(t.users, "admin") && UsernameTaken(t.users, "coordinator")
    ensures SeedUsers(t, encode, admin, coordinator) == t
  {
    UserCreatedCases(t, encode, "admin", "admin@example.com", "pwd", Some(admin));
    UserCreatedCases(t, encode, "coordinator", "coordinator@example.com", "pwd", Some(coordinator));
  }

  /** Seeded tables are left exactly as they are. */
  lemma SeedTablesFixpoint(t: Tables, encode: string -> string)
    requires ValidTables(t) && Seeded(t)
    ensures SeedTables(t, encode) == t
  {
    SeedGrantsOnSeeded(t);
    var rs := CreateRoles(t, SeedRoles).1;
    SeedUsersHeld(t, encode, rs[0], rs[5]);
  }

  /** Seeding ends in seeded tables, and leaves seeded tables as they are. */
  lemma SeedTablesEnds(t0: Tables, encode: string -> string)
    requires ValidTables(t0)
    ensures Seeded(SeedTables(t0, encode))
    ensures Seeded(t0) ==> SeedTables(t0, encode) == t0
  {
    SeedTablesSeeds(t0, encode);
    if Seeded(t0) {
      SeedTablesFixpoint(t0, encode);
    }
  }

  /** Seeding twice is seeding once. */
  lemma SeedTablesIdempotent(t: Tables, encode: string -> string)
    requires ValidTables(t)
    ensures SeedTables(SeedTables(t, encode), encode) == SeedTables(t, encode)
  {
    SeedTablesSeeds(t, encode);
    SeedTablesFixpoint(SeedTables(t, encode), encode);
  }

  /** Seeding keeps the foreign keys of the user-role table: the users it
      creates are bound to roles it has just found or created. */
  lemma SeedTablesReferential(t0: Tables, encode: string -> string)
    requires ValidTables(t0) && Referential(t0)
    ensures Referential(SeedTables(t0, encode))
  {
    var (t1, ps) := CreatePermissions(t0, SeedPermissions);
    var (t2, rs) := CreateRoles(t1, SeedRoles);
    ReferentialGrows(t0, t2);
    var g := SeedGrants(t2, ps, rs[0], rs[5]);
    assert rs[0] in g.roles && rs[5] in g.roles;
    SeedUsersReferential(g, encode, rs[0], rs[5]);
    assert SeedTables(t0, encode) == SeedUsers(g, encode, rs[0], rs[5]);
  }

  /** Seeded tables hold every seed binding. */
  lemma SeededHoldsSeedBindings(t: Tables)
    requires ValidTables(t) && Seeded(t)
    ensures forall b :: SeedBinding(t.permissions, t.roles, b) ==> b in t.rolePermissions
  {
    forall b | SeedBinding(t.permissions, t.roles, b) ensures b in t.rolePermissions {
      var r := RoleWithId(t.roles, b.roleId).value;
      var p := PermissionWithId(t.permissions, b.permissionId).value;
      RoleNamedFinds(t.roles, r);
      PermissionNamedFinds(t.permissions, p);
      if r.name == "ADMIN" && SeededPermissionName(p.name) {
        var k :| 0 <= k < |SeedPermissions| && SeedPermissions[k].name == p.name;
        assert Granted(t.permissions, t.roles, t.rolePermissions, "ADMIN", SeedPermissions[k].name);
      }
    }
  }

  /** The empty tables a fresh database starts with. */
  const EmptyTables := Tables([], [], [], [], [], 0)

  /** Seeding holds every seed binding, whatever the tables held before. */
  lemma SeedTablesHoldsSeedBindings(t0: Tables, encode: string -> string)
    requires ValidTables(t0)
    ensures var t := SeedTables(t0, encode);
      forall b :: SeedBinding(t.permissions, t.roles, b) ==> b in t.rolePermissions
  {
    SeedTablesSeeds(t0, encode);
    SeededHoldsSeedBindings(SeedTables(t0, encode));
  }

  /** Seeding a fresh database binds exactly the seed bindings. */
  lemma SeedFreshBindings(encode: string -> string)
    ensures var t := SeedTables(EmptyTables, encode);
      forall b :: b in t.rolePermissions <==> SeedBinding(t.permissions, t.roles, b)
  {
    assert ValidTables(EmptyTables);
    SeedTablesAddsOnly(EmptyTables, encode);
    SeedTablesHoldsSeedBindings(EmptyTables, encode);
  }

  /** A fresh database has no user-role rows, so after seeding every row
      references a saved user and a saved role. */
  lemma SeedFreshReferential(encode: string -> string)
    ensures Referential(SeedTables(EmptyTables, encode))
  {
    assert ValidTables(EmptyTables) && Referential(EmptyTables);
    SeedTablesReferential(EmptyTables, encode);
  }

  /** `createPermission`: the row `findByPermissionName` finds, or else a
      new row saved under the next identifier. */
  method CreatePermission(db: Store, name: string, description: string, category: string) returns (p: Permission)
    requires db.Valid()
    modifies db`permissions, db`nextId
    ensures (db.Contents(), p) == GetOrCreatePermission(old(db.Contents()), name, description, category)
  {
    var found := PermissionNamed(db.permissions, name);
    if found.Some? {
      p := found.value;
    } else {
      p := Permission(db.nextId, name, description, category);
      db.permissions := db.permissions + [p];
      db.nextId := db.nextId + 1;
    }
  }

  /** `createRole`: the row `findByRoleName` finds, or else a new row. */
  method CreateRole(db: Store, name: string, description: string) returns (r: Role)
    requires db.Valid()
    modifies db`roles, db`nextId
    ensures (db.Contents(), r) == GetOrCreateRole(old(db.Contents()), name, description)
  {
    var found := RoleNamed(db.roles, name);
    if found.Some? {
      r := found.value;
    } else {
      r := Role(db.nextId, name, description);
      db.roles := db.roles + [r];
      db.nextId := db.nextId + 1;
    }
  }

  /** `assignPermissionToRole(role, permission)`: saves the pair unless
      `existsByRolesEntityAndPermissionEntity` finds it. */
  method AssignPermissionToRole(db: Store, role: Role, permission: Permission)
    requires db.Valid()
    modifies db`rolePermissions
    ensures db.Contents() == BindPermission(old(db.Contents()), role, permission)
  {
    var b := RolePermission(role.id, permission.id);
    if b !in db.rolePermissions {
      db.rolePermissions := db.rolePermissions + [b];
    }
  }

  /** One call of the eight-permission overload: binds `ps[n]` to the role
      once `ps[..n]` are bound. */
  method AssignNext(db: Store, ghost t: Tables, role: Role, ps: seq<Permission>, n: nat)
    requires ValidTables(t) && n < |ps| && db.Contents() == BindAll(t, role, ps[..n])
    modifies db`rolePermissions
    ensures db.Contents() == BindAll(t, role, ps[..n + 1])
  {
    AssignPermissionToRole(db, role, ps[n]);
    BindAllSnoc(t, role, ps, n);
  }

  /** Four calls of the eight-permission overload, from `ps[n]` on. */
  method AssignFour(db: Store, ghost t: Tables, role: Role, ps: seq<Permission>, n: nat)
    requires ValidTables(t) && n + 4 <= |ps| && db.Contents() == BindAll(t, role, ps[..n])
    modifies db`rolePermissions
    ensures db.Contents() == BindAll(t, role, ps[..n + 4])
  {
    AssignNext(db, t, role, ps, n);
    AssignNext(db, t, role, ps, n + 1);
    AssignNext(db, t, role, ps, n + 2);
    AssignNext(db, t, role, ps, n + 3);
  }

  /** The eight-permission `assignPermissionToRole` overload. */
  method AssignPermissionsToRole(db: Store, p1: Permission, p2: Permission, p3: Permission, p4: Permission,
                                 p5: Permission, p6: Permission, p7: Permission, p8: Permission, role: Role)
    requires db.Valid()
    modifies db`rolePermissions
    ensures db.Contents() == BindPermissions(old(db.Contents()), p1, p2, p3, p4, p5, p6, p7, p8, role)
  {
    ghost var t := db.Contents();
    var ps := [p1, p2, p3, p4, p5, p6, p7, p8];
    assert ps[..0] == [];
    AssignFour(db, t, role, ps, 0);
    AssignFour(db, t, role, ps, 4);
    WholePrefix(ps);
  }

  /** `createUser`: nothing for a taken username; otherwise the user is
      saved, and then bound to the role, or the call fails for a missing
      role after the user is saved. */
  method CreateUser(db: Store, encode: string -> string, username: string, email: string,
                    password: string, role: Option<Role>) returns (outcome: Outcome<Error>)
    requires db.Valid()
    modifies db`users, db`userRoles, db`nextId
    ensures (db.Contents(), outcome) == UserCreated(old(db.Contents()), encode, username, email, password, role)
  {
    if UsernameTaken(db.users, username) {
      return Pass;
    }
    var u := User(db.nextId, username, email, "Admin", "User", 0, true, encode(password));
    db.users := db.users + [u];
    db.nextId := db.nextId + 1;
    if role.None? {
      return Fail(InvalidRole);
    }
    db.userRoles := db.userRoles + [UserRole(u.id, Some(role.value.id))];
    outcome := Pass;
  }

  /** `createPermission` for each spec in turn, as `seedData` makes its
      seventeen calls; the rows returned, in order. */
  method CreatePermissionsIn(db: Store, specs: seq<PermissionSpec>) returns (ps: seq<Permission>)
    requires db.Valid()
    modifies db`permissions, db`nextId
    ensures (db.Contents(), ps) == CreatePermissions(old(db.Contents()), specs)
  {
    ghost var t0 := db.Contents();
    ps := [];
    for k := 0 to |specs|
      invariant db.Valid()
      invariant (db.Contents(), ps) == CreatePermissions(t0, specs[..k])
    {
      var spec := specs[k];
      CreatePermissionsSnoc(t0, specs, k);
      var p := CreatePermission(db, spec.name, spec.description, spec.category);
      ps := ps + [p];
    }
    assert specs[..|specs|] == specs;
  }

  /** `createRole` for each spec in turn, as `seedData` makes its six calls. */
  method CreateRolesIn(db: Store, specs: seq<RoleSpec>) returns (rs: seq<Role>)
    requires db.Valid()
    modifies db`roles, db`nextId
    ensures (db.Contents(), rs) == CreateRoles(old(db.Contents()), specs)
  {
    ghost var t0 := db.Contents();
    rs := [];
    for k := 0 to |specs|
      invariant db.Valid()
      invariant (db.Contents(), rs) == CreateRoles(t0, specs[..k])
    {
      var spec := specs[k];
      CreateRolesSnoc(t0, specs, k);
      var r := CreateRole(db, spec.name, spec.description);
      rs := rs + [r];
    }
    assert specs[..|specs|] == specs;
  }

  /** The five `assignPermissionToRole` calls of `seedData`. */
  method AssignSeedGrants(db: Store, ps: seq<Permission>, admin: Role, coordinator: Role)
    requires db.Valid() && |ps| == 17
    modifies db`rolePermissions
    ensures db.Contents() == SeedGrants(old(db.Contents()), ps, admin, coordinator)
  {
    ghost var t := db.Contents();
    AssignPermissionsToRole(db, ps[0], ps[1], ps[2], ps[3], ps[4], ps[5], ps[6], ps[7], admin);
    BindPermissionsIsBindAll(t, ps, 0, admin);
    ghost var t1 := db.Contents();
    AssignPermissionsToRole(db, ps[8], ps[9], ps[10], ps[11], ps[12], ps[13], ps[14], ps[15], admin);
    BindPermissionsIsBindAll(t1, ps, 8, admin);
    AssignPermissionToRole(db, admin, ps[16]);
    AssignPermissionToRole(db, coordinator, ps[3]);
    AssignPermissionToRole(db, coordinator, ps[8]);
  }

  /** The two `createUser` calls of `seedData`; the second is skipped when
      the first throws. */
  method CreateSeedUsers(db: Store, encode: string -> string, admin: Role, coordinator: Role)
    requires db.Valid()
    modifies db`users, db`userRoles, db`nextId
    ensures db.Contents() == SeedUsers(old(db.Contents()), encode, admin, coordinator)
  {
    var outcome := CreateUser(db, encode, "admin", "admin@example.com", "pwd", Some(admin));
    if outcome.Pass? {
      outcome := CreateUser(db, encode, "coordinator", "coordinator@example.com", "pwd", Some(coordinator));
    }
  }

  /** `seedData`: the permission and role calls in the order of the seed
      tables, the five grants, and the two users. Afterwards the tables are
      seeded, and already seeded tables are left as they were. */
  method SeedData(db: Store, encode: string -> string)
    requires db.Valid()
    modifies db
    ensures db.Contents() == SeedTables(old(db.Contents()), encode)
    ensures db.Valid() && Seeded(db.Contents())
    ensures old(Seeded(db.Contents())) ==> db.Contents() == old(db.Contents())
  {
    ghost var t0 := db.Contents();
    var ps := CreatePermissionsIn(db, SeedPermissions);
    var rs := CreateRolesIn(db, SeedRoles);
    AssignSeedGrants(db, ps, rs[0], rs[5]);
    CreateSeedUsers(db, encode, rs[0], rs[5]);
    SeedTablesEnds(t0, encode);
  }
}
