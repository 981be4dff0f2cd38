/** The user-management service: saving users with or without roles,
    assigning a role to a user, listing users with their role names,
    deleting users with their user-role rows, and updating a user's fields
    and role set. Every repository call is an immediate change of the
    tables of `AccessControl.Store`. */
module UserManagementServices {
  import opened Common
  import opened AccessControl

  /** The `UserDTO` a caller submits. An empty `password` stands for a
      missing one; `roles` is `None` for a null role list. */
  datatype UserForm = UserForm(username: string, email: string, firstName: string, lastName: string,
                               password: string, roles: Option<seq<string>>)

  /** The `UserDTO` `getAllUsersWithRoles` returns for one user. */
  datatype UserView = UserView(id: nat, username: string, email: string, firstName: string,
                               lastName: string, roles: seq<string>)

  /** Where ids are unique, looking a user up by the id of its row finds that row. */
  lemma UserIndexFinds(us: seq<User>, k: nat)
    requires UniqueUserIds(us) && k < |us|
    ensures UserIndex(us, us[k].id) == Some(k)
  {
    assert us[k] in us;
    var j := UserIndex(us, us[k].id).value;
    assert us[j].id == us[k].id;
  }

  // ---------------------------------------------------------------------
  // User-role rows of one user

  /** `findByUser` and `getUserRoles()`: the rows of one user, in save order. */
  function BindingsOf(bs: seq<UserRole>, userId: nat): (r: seq<UserRole>)
    ensures forall b :: b in r <==> b in bs && b.userId == userId
  {
    if bs == [] then []
    else (if bs[0].userId == userId then [bs[0]] else []) + BindingsOf(bs[1..], userId)
  }

  /** What deleting one user's rows leaves of the user-role table. */
  function WithoutUser(bs: seq<UserRole>, userId: nat): (r: seq<UserRole>)
    ensures forall b :: b in r <==> b in bs && b.userId != userId
  {
    if bs == [] then []
    else (if bs[0].userId != userId then [bs[0]] else []) + WithoutUser(bs[1..], userId)
  }

  lemma {:induction false} BindingsOfConcat(a: seq<UserRole>, b: seq<UserRole>, userId: nat)
    ensures BindingsOf(a + b, userId) == BindingsOf(a, userId) + BindingsOf(b, userId)
  {
    if a == [] {
      assert a + b == b;
    } else {
      assert (a + b)[0] == a[0];
      assert (a + b)[1..] == a[1..] + b;
      BindingsOfConcat(a[1..], b, userId);
    }
  }

  /** A table holding no row of a user gives that user no rows. */
  lemma BindingsOfNone(bs: seq<UserRole>, userId: nat)
    requires forall b :: b in bs ==> b.userId != userId
    ensures BindingsOf(bs, userId) == []
  {
    if BindingsOf(bs, userId) != [] {
      assert BindingsOf(bs, userId)[0] in BindingsOf(bs, userId);
    }
  }

  /** A table holding only rows of a user gives that user all of them. */
  lemma {:induction false} BindingsOfAll(bs: seq<UserRole>, userId: nat)
    requires forall b :: b in bs ==> b.userId == userId
    ensures BindingsOf(bs, userId) == bs
  {
    if bs != [] {
      assert bs[0] in bs;
      assert forall b :: b in bs[1..] ==> b in bs;
      BindingsOfAll(bs[1..], userId);
    }
  }

  /** Deleting one user's rows leaves every other user's rows as they were. */
  lemma {:induction false} WithoutUserKeepsOthers(bs: seq<UserRole>, userId: nat, other: nat)
    requires other != userId
    ensures BindingsOf(WithoutUser(bs, userId), other) == BindingsOf(bs, other)
  {
    if bs != [] {
      var head := if bs[0].userId != userId then [bs[0]] else [];
      assert WithoutUser(bs, userId) == head + WithoutUser(bs[1..], userId);
      BindingsOfConcat(head, WithoutUser(bs[1..], userId), other);
      WithoutUserKeepsOthers(bs[1..], userId, other);
    }
  }

  // ---------------------------------------------------------------------
  // Role names

  /** The role name one user-role row contributes: none for a null role or
      one that does not resolve. */
  function RoleNameOf(rs: seq<Role>, b: UserRole): (r: seq<string>)
    ensures |r| <= 1
    ensures r != [] <==> b.roleId.Some? && RoleWithId(rs, b.roleId.value).Some?
  {
    if b.roleId.None? then []
    else match RoleWithId(rs, b.roleId.value)
      case None => []
      case Some(role) => [role.name]
  }

  /** The role names of some user-role rows, in row order: the map to the
      role's name and the filter that drops rows without one. */
  function RoleNames(rs: seq<Role>, bs: seq<UserRole>): (r: seq<string>)
    ensures |r| <= |bs|
    ensures forall n :: n in r <==> exists b :: b in bs && RoleNameOf(rs, b) == [n]
  {
    if bs == [] then []
    else
      var rest := RoleNames(rs, bs[1..]);
      assert forall b :: b in bs <==> b == bs[0] || b in bs[1..];
      RoleNameOf(rs, bs[0]) + rest
  }

  lemma {:induction false} RoleNamesConcat(rs: seq<Role>, a: seq<UserRole>, b: seq<UserRole>)
    ensures RoleNames(rs, a + b) == RoleNames(rs, a) + RoleNames(rs, b)
  {
    if a == [] {
      assert a + b == b;
    } else {
      assert (a + b)[0] == a[0];
      assert (a + b)[1..] == a[1..] + b;
      RoleNamesConcat(rs, a[1..], b);
    }
  }

  // ---------------------------------------------------------------------
  // The role loop of saveUserWithRoles and updateUserWithRoles

  /** The rows the role loop saves for a user: one per role name, in list
      order, up to the first name no role has. */
  function RoleBindings(userId: nat, names: seq<string>, rs: seq<Role>): (bs: seq<UserRole>)
    ensures |bs| <= |names|
  {
    if names == [] || RoleNamed(rs, names[0]).None? then []
    else [UserRole(userId, Some(RoleNamed(rs, names[0]).value.id))] + RoleBindings(userId, names[1..], rs)
  }

  /** How the role loop ends: normally, or with the first unknown name. */
  function BindingOutcome(names: seq<string>, bound: nat): Outcome<Error>
    requires bound <= |names|
  {
    if bound == |names| then Pass else Fail(RoleNameNotFound(names[bound]))
  }

  /** The role each name finds, in order. */
  function Lookups(rs: seq<Role>, names: seq<string>): (found: seq<Option<Role>>)
    ensures |found| == |names|
  {
    if names == [] then [] else [RoleNamed(rs, names[0])] + Lookups(rs, names[1..])
  }

  /** The loop's rows, given what each name finds. */
  function Bind(userId: nat, found: seq<Option<Role>>): (bs: seq<UserRole>)
    ensures |bs| <= |found|
  {
    if found == [] || found[0].None? then []
    else [UserRole(userId, Some(found[0].value.id))] + Bind(userId, found[1..])
  }

  /** The loop's rows are the binding of what each name finds. */
  lemma {:induction false} RoleBindingsIsBind(userId: nat, names: seq<string>, rs: seq<Role>)
    ensures RoleBindings(userId, names, rs) == Bind(userId, Lookups(rs, names))
  {
    if names != [] {
      RoleBindingsIsBind(userId, names[1..], rs);
      assert Lookups(rs, names)[1..] == Lookups(rs, names[1..]);
    }
  }

  /** Looking up two lists of names one after the other. */
  lemma {:induction false} LookupsAppend(rs: seq<Role>, a: seq<string>, b: seq<string>)
    ensures Lookups(rs, a + b) == Lookups(rs, a) + Lookups(rs, b)
  {
    if a != [] {
      assert (a + b)[0] == a[0];
      assert (a + b)[1..] == a[1..] + b;
      LookupsAppend(rs, a[1..], b);
    } else {
      assert a + b == b;
    }
  }

  /** Once every lookup of `f` found a role, binding goes on with `g`. */
  lemma {:induction false} BindAppend(userId: nat, f: seq<Option<Role>>, g: seq<Option<Role>>)
    requires |Bind(userId, f)| == |f|
    ensures Bind(userId, f + g) == Bind(userId, f) + Bind(userId, g)
  {
    if f != [] {
      var head := [UserRole(userId, Some(f[0].value.id))];
      assert f[0].Some?;
      assert Bind(userId, f) == head + Bind(userId, f[1..]);
      assert (f + g)[0] == f[0];
      assert (f + g)[1..] == f[1..] + g;
      assert Bind(userId, f + g) == head + Bind(userId, f[1..] + g);
      BindAppend(userId, f[1..], g);
    } else {
      assert f + g == g;
    }
  }

  /** Entry `i` of the lookups is what `names[i]` finds. */
  lemma {:induction false} LookupsAt(rs: seq<Role>, names: seq<string>)
    ensures forall i :: 0 <= i < |names| ==> Lookups(rs, names)[i] == RoleNamed(rs, names[i])
  {
    if names != [] {
      LookupsAt(rs, names[1..]);
      forall i | 1 <= i < |names| ensures Lookups(rs, names)[i] == RoleNamed(rs, names[i]) {
        assert Lookups(rs, names)[i] == Lookups(rs, names[1..])[i - 1];
        assert names[i] == names[1..][i - 1];
      }
    }
  }

  /** Row `i` binds the role found at `i`, and binding stops exactly at
      the first lookup that found nothing. */
  lemma {:induction false} BindRows(userId: nat, f: seq<Option<Role>>)
    ensures var bs := Bind(userId, f);
      && (forall i :: 0 <= i < |bs| ==> f[i].Some? && bs[i] == UserRole(userId, Some(f[i].value.id)))
      && (|bs| < |f| ==> f[|bs|].None?)
  {
    if f != [] && f[0].Some? {
      var rest := Bind(userId, f[1..]);
      BindRows(userId, f[1..]);
      var bs := Bind(userId, f);
      assert bs == [UserRole(userId, Some(f[0].value.id))] + rest;
      forall i | 1 <= i < |bs| ensures f[i].Some? && bs[i] == UserRole(userId, Some(f[i].value.id)) {
        assert bs[i] == rest[i - 1] && f[i] == f[1..][i - 1];
      }
      if |bs| < |f| {
        assert f[|bs|] == f[1..][|rest|];
      }
    }
  }

  /** Row `i` of the loop's rows binds the user to the role named
      `names[i]`, and the loop stops exactly at a name no role has. */
  lemma RoleBindingsRows(userId: nat, names: seq<string>, rs: seq<Role>)
    ensures var bs := RoleBindings(userId, names, rs);
      && (forall i :: 0 <= i < |bs| ==>
            RoleNamed(rs, names[i]).Some? && bs[i] == UserRole(userId, Some(RoleNamed(rs, names[i]).value.id)))
      && (|bs| < |names| ==> RoleNamed(rs, names[|bs|]).None?)
  {
    RoleBindingsIsBind(userId, names, rs);
    LookupsAt(rs, names);
    BindRows(userId, Lookups(rs, names));
  }

  /** Once every name of `a` is a role, the loop goes on with `b`. */
  lemma RoleBindingsAppend(userId: nat, a: seq<string>, b: seq<string>, rs: seq<Role>)
    requires |RoleBindings(userId, a, rs)| == |a|
    ensures RoleBindings(userId, a + b, rs) == RoleBindings(userId, a, rs) + RoleBindings(userId, b, rs)
  {
    RoleBindingsIsBind(userId, a, rs);
    RoleBindingsIsBind(userId, b, rs);
    RoleBindingsIsBind(userId, a + b, rs);
    LookupsAppend(rs, a, b);
    BindAppend(userId, Lookups(rs, a), Lookups(rs, b));
  }

  /** `bound` is what binding `names` one by one leaves in a user's role
      list: the longest prefix of names that are roles; the outcome names
      the first name that is not. */
  predicate BindsPrefix(rs: seq<Role>, names: seq<string>, bound: seq<string>, outcome: Outcome<Error>) {
    && |bound| <= |names| && bound == names[..|bound|]
    && (forall i :: 0 <= i < |bound| ==> RoleNamed(rs, bound[i]).Some?)
    && (outcome == Pass <==> |bound| == |names|)
    && (outcome.Fail? ==> RoleNamed(rs, names[|bound|]).None? && outcome == Fail(RoleNameNotFound(names[|bound|])))
  }

  /** Rows bound to roles named `names` read back as those names. */
  lemma {:induction false} BindNames(userId: nat, f: seq<Option<Role>>, rs: seq<Role>, names: seq<string>)
    requires UniqueRoleIds(rs) && |f| == |names|
    requires forall i :: 0 <= i < |f| && f[i].Some? ==> f[i].value in rs && f[i].value.name == names[i]
    ensures RoleNames(rs, Bind(userId, f)) == names[..|Bind(userId, f)|]
  {
    if f != [] && f[0].Some? {
      var b := UserRole(userId, Some(f[0].value.id));
      var rest := Bind(userId, f[1..]);
      assert Bind(userId, f) == [b] + rest;
      RoleWithIdFinds(rs, f[0].value);
      assert RoleNameOf(rs, b) == [names[0]];
      assert ([b] + rest)[1..] == rest;
      forall i | 0 <= i < |f[1..]| && f[1..][i].Some?
        ensures f[1..][i].value in rs && f[1..][i].value.name == names[1..][i]
      {
        assert f[1..][i] == f[i + 1];
      }
      BindNames(userId, f[1..], rs, names[1..]);
      PrefixCons(names, |rest|);
    }
  }

  /** The rows the loop saves read back as the names it was given. */
  lemma RoleNamesOfBindings(userId: nat, names: seq<string>, rs: seq<Role>)
    requires UniqueRoleIds(rs)
    ensures var bs := RoleBindings(userId, names, rs);
      RoleNames(rs, bs) == names[..|bs|]
  {
    RoleBindingsIsBind(userId, names, rs);
    LookupsAt(rs, names);
    BindNames(userId, Lookups(rs, names), rs, names);
  }

  /** The role loop leaves in the user's role list exactly the longest
      prefix of known names, and reports the first unknown one. */
  lemma RoleLoopBindsPrefix(userId: nat, names: seq<string>, rs: seq<Role>)
    requires UniqueRoleIds(rs)
    ensures var bs := RoleBindings(userId, names, rs);
      BindsPrefix(rs, names, RoleNames(rs, bs), BindingOutcome(names, |bs|))
  {
    var bs := RoleBindings(userId, names, rs);
    RoleBindingsRows(userId, names, rs);
    RoleNamesOfBindings(userId, names, rs);
    assert |RoleNames(rs, bs)| == |bs|;
    forall i | 0 <= i < |bs| ensures RoleNamed(rs, RoleNames(rs, bs)[i]).Some? {
      assert RoleNames(rs, bs)[i] == names[i];
    }
  }

  /** Every row the loop saves belongs to the given user. */
  lemma RoleBindingsOwner(userId: nat, names: seq<string>, rs: seq<Role>)
    ensures forall b :: b in RoleBindings(userId, names, rs) ==> b.userId == userId
  {
    var bs := RoleBindings(userId, names, rs);
    RoleBindingsRows(userId, names, rs);
    forall b | b in bs ensures b.userId == userId {
      var i :| 0 <= i < |bs| && bs[i] == b;
    }
  }

  // ---------------------------------------------------------------------
  // getAllUsersWithRoles

  /** The `UserDTO` built for one user: its id, username, email and names,
      and the names of the roles its own user-role rows reference. */
  function ViewOf(t: Tables, u: User): (v: UserView)
    ensures v.id == u.id && v.username == u.username && v.email == u.email
    ensures v.firstName == u.firstName && v.lastName == u.lastName
    ensures forall n :: n in v.roles <==>
      exists b :: b in t.userRoles && b.userId == u.id && RoleNameOf(t.roles, b) == [n]
  {
    UserView(u.id, u.username, u.email, u.firstName, u.lastName, RoleNames(t.roles, BindingsOf(t.userRoles, u.id)))
  }

  /** `getAllUsersWithRoles`: one view per user, in store order, each with
      the user's role names in row order; no users give the empty list. */
  function GetAllUsersWithRoles(t: Tables): (r: seq<UserView>)
    ensures |r| == |t.users|
    ensures forall i :: 0 <= i < |r| ==> r[i] == ViewOf(t, t.users[i])
  {
    if t.users == [] then []
    else seq(|t.users|, i requires 0 <= i < |t.users| => ViewOf(t, t.users[i]))
  }

  /** A user whose row, rows of the user-role table and role table are
      the same in two stores lists the same in both. */
  lemma SameView(t: Tables, t2: Tables, i: nat, j: nat)
    requires i < |t.users| && j < |t2.users| && t2.users[j] == t.users[i] && t2.roles == t.roles
    requires BindingsOf(t2.userRoles, t.users[i].id) == BindingsOf(t.userRoles, t.users[i].id)
    ensures GetAllUsersWithRoles(t2)[j] == GetAllUsersWithRoles(t)[i]
  {
  }

  /** A user whose rows are exactly the rows the role loop saved for
      `names` lists the longest prefix of `names` that are roles. */
  lemma LoopView(t: Tables, j: nat, names: seq<string>)
    requires j < |t.users| && UniqueRoleIds(t.roles)
    requires BindingsOf(t.userRoles, t.users[j].id) == RoleBindings(t.users[j].id, names, t.roles)
    ensures BindsPrefix(t.roles, names, GetAllUsersWithRoles(t)[j].roles,
                        BindingOutcome(names, |RoleBindings(t.users[j].id, names, t.roles)|))
  {
    RoleLoopBindsPrefix(t.users[j].id, names, t.roles);
  }

  /** Entry `i` of a sequence with entry `k` removed. */
  lemma RemovedAt<T>(s: seq<T>, k: nat, i: nat)
    requires k < |s| && i < |s| - 1
    ensures (s[..k] + s[k + 1..])[i] == s[if i < k then i else i + 1]
  {
  }

  // ---------------------------------------------------------------------
  // The operations as functions of the tables

  /** The user row `saveUser` builds: status 0, active, encoded password. */
  function NewUser(id: nat, encode: string -> string, form: UserForm): (u: User)
    ensures u.id == id && u.username == form.username && u.email == form.email
    ensures u.firstName == form.firstName && u.lastName == form.lastName
    ensures u.status == 0 && u.active && u.password == encode(form.password)
  {
    User(id, form.username, form.email, form.firstName, form.lastName, 0, true, encode(form.password))
  }

  /** The row after `updateUser`'s setters: new name fields, and a new
      password only when one is given. */
  function Edited(u: User, encode: string -> string, form: UserForm): (r: User)
    ensures r.id == u.id && r.status == u.status && r.active == u.active
    ensures r.username == form.username && r.email == form.email
    ensures r.firstName == form.firstName && r.lastName == form.lastName
    ensures form.password == "" ==> r.password == u.password
    ensures form.password != "" ==> r.password == encode(form.password)
  {
    var v := u.(username := form.username, email := form.email, firstName := form.firstName,
                lastName := form.lastName);
    if form.password != "" then v.(password := encode(form.password)) else v
  }

  /** `saveUser`: one new user under the next id, whether or not its
      username is taken. */
  function UserSaved(t: Tables, encode: string -> string, form: UserForm): (r: Tables)
    requires ValidTables(t)
    ensures ValidTables(r)
    ensures |r.users| == |t.users| + 1 && r.users[..|t.users|] == t.users
    ensures r.users[|t.users|] == NewUser(t.nextId, encode, form)
    ensures UserIndex(r.users, t.nextId) == Some(|t.users|)
    ensures r == t.(users := r.users, nextId := t.nextId + 1)
  {
    var r := t.(users := t.users + [NewUser(t.nextId, encode, form)], nextId := t.nextId + 1);
    assert r.users[..|t.users|] == t.users;
    UserIndexFinds(r.users, |t.users|);
    r
  }

  /** `saveUserWithRoles`: `saveUser`, then the role loop; a null list
      fails after the user is saved. */
  function UserSavedWithRoles(t: Tables, encode: string -> string, form: UserForm): (r: (Tables, Outcome<Error>))
    requires ValidTables(t)
    ensures ValidTables(r.0)
    ensures r.0 == UserSaved(t, encode, form).(userRoles := r.0.userRoles)
    ensures r.1 == Pass <==> form.roles.Some? && |RoleBindings(t.nextId, form.roles.value, t.roles)| == |form.roles.value|
  {
    var saved := UserSaved(t, encode, form);
    if form.roles.None? then (saved, Fail(RolesNull))
    else
      var bs := RoleBindings(t.nextId, form.roles.value, t.roles);
      (saved.(userRoles := t.userRoles + bs), BindingOutcome(form.roles.value, |bs|))
  }

  /** `assignRoleToUser`: a new row for an existing user and role, even
      when the pair is already bound; otherwise nothing changes. */
  function RoleAssigned(t: Tables, userId: nat, roleId: nat): (r: (Tables, Outcome<Error>))
    requires ValidTables(t)
    ensures ValidTables(r.0)
    ensures r.1 == Pass <==> UserIndex(t.users, userId).Some? && RoleWithId(t.roles, roleId).Some?
    ensures r.1.Fail? ==> r.0 == t
    ensures r.0 == t.(userRoles := r.0.userRoles)
  {
    if UserIndex(t.users, userId).None? then (t, Fail(UserNotFound))
    else if RoleWithId(t.roles, roleId).None? then (t, Fail(RoleNotFound))
    else (t.(userRoles := t.userRoles + [UserRole(userId, Some(roleId))]), Pass)
  }

  /** Removing the user row at `k` keeps ids unique and removes exactly
      the row with that id. */
  lemma RemoveUser(us: seq<User>, k: nat)
    requires UniqueUserIds(us) && k < |us|
    ensures UniqueUserIds(us[..k] + us[k + 1..])
    ensures forall u :: u in us[..k] + us[k + 1..] <==> u in us && u.id != us[k].id
  {
    var vs := us[..k] + us[k + 1..];
    assert forall i :: 0 <= i < |vs| ==> vs[i] == us[if i < k then i else i + 1];
    forall u | u in us && u.id != us[k].id ensures u in vs {
      var j :| 0 <= j < |us| && us[j] == u;
      assert j != k;
      assert vs[if j < k then j else j - 1] == u;
    }
  }

  /** `deleteUser`: the user and all its user-role rows go. */
  function UserDeleted(t: Tables, userId: nat): (r: (Tables, Outcome<Error>))
    requires ValidTables(t)
    ensures ValidTables(r.0)
    ensures r.1 == Pass <==> UserIndex(t.users, userId).Some?
    ensures r.1.Fail? ==> r == (t, Fail(UserNotFound))
    ensures forall u :: u in r.0.users <==> u in t.users && u.id != userId
    ensures r.1 == Pass ==> forall b :: b in r.0.userRoles <==> b in t.userRoles && b.userId != userId
    ensures r.0 == t.(users := r.0.users, userRoles := r.0.userRoles)
  {
    match UserIndex(t.users, userId)
    case None => (t, Fail(UserNotFound))
    case Some(k) =>
      RemoveUser(t.users, k);
      (t.(users := t.users[..k] + t.users[k + 1..], userRoles := WithoutUser(t.userRoles, userId)), Pass)
  }

  /** Replacing the user row at `k` by one with the same id keeps the
      user constraints. */
  lemma ReplaceUser(t: Tables, k: nat, u: User)
    requires ValidTables(t) && k < |t.users| && u.id == t.users[k].id
    ensures ValidTables(t.(users := t.users[k := u]))
    ensures forall i :: 0 <= i < |t.users| ==> t.users[k := u][i].id == t.users[i].id
  {
    var us := t.users[k := u];
    assert t.users[k] in t.users;
    forall v | v in us ensures v.id < t.nextId {
      var j :| 0 <= j < |us| && us[j] == v;
      assert t.users[j] in t.users;
    }
  }

  /** `updateUser`: the user's row is edited in place; its user-role rows
      stay. */
  function UserUpdated(t: Tables, encode: string -> string, userId: nat, form: UserForm): (r: (Tables, Outcome<Error>))
    requires ValidTables(t)
    ensures ValidTables(r.0)
    ensures r.1 == Pass <==> UserIndex(t.users, userId).Some?
    ensures r.1.Fail? ==> r == (t, Fail(UserNotFound))
    ensures r.1 == Pass ==> var k := UserIndex(t.users, userId).value;
      r.0.users == t.users[k := Edited(t.users[k], encode, form)]
    ensures r.0 == t.(users := r.0.users)
  {
    match UserIndex(t.users, userId)
    case None => (t, Fail(UserNotFound))
    case Some(k) =>
      ReplaceUser(t, k, Edited(t.users[k], encode, form));
      (t.(users := t.users[k := Edited(t.users[k], encode, form)]), Pass)
  }

  /** `updateUserWithRoles`: the edit of `updateUser`, then the user's
      rows are deleted, then the role loop runs for the new list. */
  function UserUpdatedWithRoles(t: Tables, encode: string -> string, userId: nat, form: UserForm)
    : (r: (Tables, Outcome<Error>))
    requires ValidTables(t)
    ensures ValidTables(r.0)
    ensures r.1 == Pass <==> (UserIndex(t.users, userId).Some? && form.roles.Some?
      && |RoleBindings(userId, form.roles.value, t.roles)| == |form.roles.value|)
    ensures UserIndex(t.users, userId).None? ==> r == (t, Fail(UserNotFound))
    ensures r.0 == UserUpdated(t, encode, userId, form).0.(userRoles := r.0.userRoles)
  {
    match UserIndex(t.users, userId)
    case None => (t, Fail(UserNotFound))
    case Some(k) =>
      var edited := UserUpdated(t, encode, userId, form).0;
      var cleared := edited.(userRoles := WithoutUser(t.userRoles, userId));
      if form.roles.None? then (cleared, Fail(RolesNull))
      else
        var bs := RoleBindings(userId, form.roles.value, t.roles);
        (cleared.(userRoles := cleared.userRoles + bs), BindingOutcome(form.roles.value, |bs|))
  }

  // ---------------------------------------------------------------------
  // What the operations do to the listing

  /** After `saveUserWithRoles` every earlier user lists as before, and the
      new user comes last, with the form's fields and the longest prefix of
      its role names that are roles. */
  lemma SaveUserWithRolesViews(t: Tables, encode: string -> string, form: UserForm)
    requires ValidTables(t) && Referential(t)
    ensures var r := UserSavedWithRoles(t, encode, form);
      var vs := GetAllUsersWithRoles(r.0);
      var n := |t.users|;
      && |vs| == n + 1 && vs[..n] == GetAllUsersWithRoles(t)
      && vs[n].id == t.nextId && vs[n].username == form.username && vs[n].email == form.email
      && vs[n].firstName == form.firstName && vs[n].lastName == form.lastName
      && (form.roles.None? ==> vs[n].roles == [] && r.1 == Fail(RolesNull))
      && (form.roles.Some? ==> BindsPrefix(t.roles, form.roles.value, vs[n].roles, r.1))
  {
    var r := UserSavedWithRoles(t, encode, form);
    var n := |t.users|;
    var id := t.nextId;
    var added := if form.roles.None? then [] else RoleBindings(id, form.roles.value, t.roles);
    assert r.0.userRoles == t.userRoles + added;
    assert r.0.users[n] == NewUser(id, encode, form);
    if form.roles.Some? {
      RoleBindingsOwner(id, form.roles.value, t.roles);
    }
    // No row of the old table belongs to the new id.
    forall b | b in t.userRoles ensures b.userId != id {
      var j := UserIndex(t.users, b.userId).value;
      assert t.users[j] in t.users;
    }
    forall i | 0 <= i < n ensures t.users[i].id != id {
      assert t.users[i] in t.users;
    }
    AppendedUserViews(t, r.0, added);
    if form.roles.Some? {
      LoopView(r.0, n, form.roles.value);
    }
  }

  /** Appending one user together with rows of that user alone leaves every
      earlier user listing as before, and the new user lists those rows. */
  lemma AppendedUserViews(t: Tables, t2: Tables, added: seq<UserRole>)
    requires |t2.users| == |t.users| + 1 && t2.users[..|t.users|] == t.users && t2.roles == t.roles
    requires t2.userRoles == t.userRoles + added
    requires forall b :: b in added ==> b.userId == t2.users[|t.users|].id
    requires forall b :: b in t.userRoles ==> b.userId != t2.users[|t.users|].id
    requires forall i :: 0 <= i < |t.users| ==> t.users[i].id != t2.users[|t.users|].id
    ensures GetAllUsersWithRoles(t2)[..|t.users|] == GetAllUsersWithRoles(t)
    ensures BindingsOf(t2.userRoles, t2.users[|t.users|].id) == added
  {
    var n := |t.users|;
    var id := t2.users[n].id;
    BindingsOfConcat(t.userRoles, added, id);
    BindingsOfNone(t.userRoles, id);
    BindingsOfAll(added, id);
    forall i | 0 <= i < n
      ensures GetAllUsersWithRoles(t2)[i] == GetAllUsersWithRoles(t)[i]
    {
      var u := t.users[i];
      assert t2.users[i] == u;
      BindingsOfConcat(t.userRoles, added, u.id);
      BindingsOfNone(added, u.id);
      SameView(t, t2, i, i);
    }
  }

  /** After a successful `assignRoleToUser` the user's list gains the
      role's name at its end, and every other user lists as before. */
  lemma AssignRoleViews(t: Tables, userId: nat, roleId: nat)
    requires ValidTables(t)
    ensures var r := RoleAssigned(t, userId, roleId);
      r.1 == Pass ==>
        var k := UserIndex(t.users, userId).value;
        var vs := GetAllUsersWithRoles(t);
        var ws := GetAllUsersWithRoles(r.0);
        && |ws| == |vs|
        && ws[k] == vs[k].(roles := vs[k].roles + [RoleWithId(t.roles, roleId).value.name])
        && forall i :: 0 <= i < |vs| && i != k ==> ws[i] == vs[i]
  {
    var r := RoleAssigned(t, userId, roleId);
    if r.1 == Pass {
      var k := UserIndex(t.users, userId).value;
      var b := UserRole(userId, Some(roleId));
      assert r.0.userRoles == t.userRoles + [b];
      BindingsOfConcat(t.userRoles, [b], userId);
      assert BindingsOf([b], userId) == [b];
      RoleNamesConcat(t.roles, BindingsOf(t.userRoles, userId), [b]);
      assert RoleNames(t.roles, [b]) == [RoleWithId(t.roles, roleId).value.name];
      forall i | 0 <= i < |t.users| && i != k
        ensures GetAllUsersWithRoles(r.0)[i] == GetAllUsersWithRoles(t)[i]
      {
        var id := t.users[i].id;
        assert id != userId;
        BindingsOfConcat(t.userRoles, [b], id);
        BindingsOfNone([b], id);
        SameView(t, r.0, i, i);
      }
    }
  }

  /** `assignRoleToUser` does not look for an existing pair: a successful
      call adds one more copy of the row even where it is present. */
  lemma AssignRoleRepeats(t: Tables, userId: nat, roleId: nat)
    requires ValidTables(t)
    ensures var r := RoleAssigned(t, userId, roleId);
      r.1 == Pass ==>
        multiset(r.0.userRoles)[UserRole(userId, Some(roleId))]
          == multiset(t.userRoles)[UserRole(userId, Some(roleId))] + 1
  {
  }

  /** After a successful `deleteUser` the listing is the old one without
      the user's entry; after any call no entry has the id. */
  lemma DeleteUserViews(t: Tables, userId: nat)
    requires ValidTables(t)
    ensures var r := UserDeleted(t, userId);
      var vs := GetAllUsersWithRoles(t);
      && (r.1 == Pass ==> var k := UserIndex(t.users, userId).value;
            GetAllUsersWithRoles(r.0) == vs[..k] + vs[k + 1..])
      && forall v :: v in GetAllUsersWithRoles(r.0) ==> v.id != userId
  {
    var r := UserDeleted(t, userId);
    if r.1 == Pass {
      var k := UserIndex(t.users, userId).value;
      RemovedUserViews(t, r.0, k);
    }
    var ws := GetAllUsersWithRoles(r.0);
    forall v | v in ws ensures v.id != userId {
      var i :| 0 <= i < |ws| && ws[i] == v;
      assert r.0.users[i] in r.0.users;
    }
  }

  /** Removing the user at `k` together with its user-role rows removes
      its entry from the listing and leaves every other entry as it was. */
  lemma RemovedUserViews(t: Tables, t2: Tables, k: nat)
    requires UniqueUserIds(t.users) && k < |t.users| && t2.roles == t.roles
    requires t2.users == t.users[..k] + t.users[k + 1..]
    requires t2.userRoles == WithoutUser(t.userRoles, t.users[k].id)
    ensures GetAllUsersWithRoles(t2) == GetAllUsersWithRoles(t)[..k] + GetAllUsersWithRoles(t)[k + 1..]
  {
    var vs := GetAllUsersWithRoles(t);
    var ws := GetAllUsersWithRoles(t2);
    var target := vs[..k] + vs[k + 1..];
    assert |ws| == |t.users| - 1 == |target|;
    forall i | 0 <= i < |ws| ensures ws[i] == target[i] {
      var j := if i < k then i else i + 1;
      assert t2.users[i] == t.users[j];
      RemovedAt(vs, k, i);
      assert t.users[j].id != t.users[k].id;
      WithoutUserKeepsOthers(t.userRoles, t.users[k].id, t.users[j].id);
      SameView(t, t2, j, i);
    }
  }

  /** After deleting a user every other user keeps its user-role rows and
      the deleted one has none. */
  lemma DeleteUserBindings(t: Tables, userId: nat, other: nat)
    requires ValidTables(t) && Referential(t)
    ensures var r := UserDeleted(t, userId);
      && BindingsOf(r.0.userRoles, userId) == []
      && (other != userId ==> BindingsOf(r.0.userRoles, other) == BindingsOf(t.userRoles, other))
  {
    var r := UserDeleted(t, userId);
    if r.1 == Pass {
      if other != userId {
        WithoutUserKeepsOthers(t.userRoles, userId, other);
      }
    } else {
      forall b | b in t.userRoles ensures b.userId != userId {
        var j := UserIndex(t.users, b.userId).value;
        assert t.users[j] in t.users;
      }
    }
    BindingsOfNone(r.0.userRoles, userId);
  }

  /** After a successful `updateUser` the user lists with the form's
      fields and its old role names; every other user lists as before. */
  lemma UpdateUserViews(t: Tables, encode: string -> string, userId: nat, form: UserForm)
    requires ValidTables(t)
    ensures var r := UserUpdated(t, encode, userId, form);
      var vs := GetAllUsersWithRoles(t);
      var ws := GetAllUsersWithRoles(r.0);
      && |ws| == |vs|
      && (r.1 == Pass ==> var k := UserIndex(t.users, userId).value;
            && ws[k] == vs[k].(username := form.username, email := form.email,
                               firstName := form.firstName, lastName := form.lastName)
            && forall i :: 0 <= i < |vs| && i != k ==> ws[i] == vs[i])
  {
  }

  /** After `updateUserWithRoles` on an existing user, the user lists with
      the form's fields and with none of its old role names: with a role
      list, exactly its longest prefix of known names; with a null list,
      nothing. Every other user lists as before. */
  lemma UpdateUserWithRolesViews(t: Tables, encode: string -> string, userId: nat, form: UserForm)
    requires ValidTables(t)
    ensures var r := UserUpdatedWithRoles(t, encode, userId, form);
      UserIndex(t.users, userId).Some? ==>
        var k := UserIndex(t.users, userId).value;
        var vs := GetAllUsersWithRoles(t);
        var ws := GetAllUsersWithRoles(r.0);
        && |ws| == |vs|
        && (forall i :: 0 <= i < |vs| && i != k ==> ws[i] == vs[i])
        && ws[k].id == userId && ws[k].username == form.username && ws[k].email == form.email
        && ws[k].firstName == form.firstName && ws[k].lastName == form.lastName
        && (form.roles.None? ==> ws[k].roles == [] && r.1 == Fail(RolesNull))
        && (form.roles.Some? ==> BindsPrefix(t.roles, form.roles.value, ws[k].roles, r.1))
  {
    var r := UserUpdatedWithRoles(t, encode, userId, form);
    if UserIndex(t.users, userId).Some? {
      var k := UserIndex(t.users, userId).value;
      var cleared := WithoutUser(t.userRoles, userId);
      var added := if form.roles.None? then [] else RoleBindings(userId, form.roles.value, t.roles);
      assert r.0.userRoles == cleared + added;
      assert r.0.users == t.users[k := Edited(t.users[k], encode, form)];
      if form.roles.Some? {
        RoleBindingsOwner(userId, form.roles.value, t.roles);
      }
      assert forall b :: b in added ==> b.userId == userId;
      BindingsOfConcat(cleared, added, userId);
      BindingsOfNone(cleared, userId);
      BindingsOfAll(added, userId);
      assert r.0.users[k].id == userId;
      assert BindingsOf(r.0.userRoles, userId) == added;
      if form.roles.Some? {
        LoopView(r.0, k, form.roles.value);
      }
      forall i | 0 <= i < |t.users| && i != k
        ensures GetAllUsersWithRoles(r.0)[i] == GetAllUsersWithRoles(t)[i]
      {
        var id := t.users[i].id;
        assert id != userId;
        BindingsOfConcat(cleared, added, id);
        BindingsOfNone(added, id);
        WithoutUserKeepsOthers(t.userRoles, userId, id);
        SameView(t, r.0, i, i);
      }
    }
  }

  // ---------------------------------------------------------------------
  // The foreign keys survive every operation

  lemma SaveUserWithRolesReferential(t: Tables, encode: string -> string, form: UserForm)
    requires ValidTables(t) && Referential(t)
    ensures Referential(UserSaved(t, encode, form))
    ensures Referential(UserSavedWithRoles(t, encode, form).0)
  {
    var s := UserSaved(t, encode, form);
    var r := UserSavedWithRoles(t, encode, form).0;
    forall b | b in t.userRoles ensures UserIndex(s.users, b.userId).Some? {
      var j := UserIndex(t.users, b.userId).value;
      assert s.users[j] in s.users;
    }
    if form.roles.Some? {
      var bs := RoleBindings(t.nextId, form.roles.value, t.roles);
      RoleBindingsRows(t.nextId, form.roles.value, t.roles);
      assert r.userRoles == t.userRoles + bs;
      forall b | b in bs ensures b.userId == t.nextId && b.roleId.Some? && RoleWithId(t.roles, b.roleId.value).Some? {
        var i :| 0 <= i < |bs| && bs[i] == b;
        var role := RoleNamed(t.roles, form.roles.value[i]).value;
        assert role in t.roles;
      }
    }
  }

  lemma AssignRoleReferential(t: Tables, userId: nat, roleId: nat)
    requires ValidTables(t) && Referential(t)
    ensures Referential(RoleAssigned(t, userId, roleId).0)
  {
  }

  lemma DeleteUserReferential(t: Tables, userId: nat)
    requires ValidTables(t) && Referential(t)
    ensures Referential(UserDeleted(t, userId).0)
  {
    var r := UserDeleted(t, userId).0;
    forall b | b in r.userRoles ensures UserIndex(r.users, b.userId).Some? {
      var j := UserIndex(t.users, b.userId).value;
      assert t.users[j] in t.users;
      assert t.users[j] in r.users;
    }
  }

  lemma UpdateUserReferential(t: Tables, encode: string -> string, userId: nat, form: UserForm)
    requires ValidTables(t) && Referential(t)
    ensures Referential(UserUpdated(t, encode, userId, form).0)
    ensures Referential(UserUpdatedWithRoles(t, encode, userId, form).0)
  {
    var u := UserUpdated(t, encode, userId, form).0;
    var r := UserUpdatedWithRoles(t, encode, userId, form).0;
    forall id | UserIndex(t.users, id).Some? ensures UserIndex(u.users, id).Some? {
      var j := UserIndex(t.users, id).value;
      assert u.users[j] in u.users;
    }
    if UserIndex(t.users, userId).Some? && form.roles.Some? {
      var bs := RoleBindings(userId, form.roles.value, t.roles);
      RoleBindingsRows(userId, form.roles.value, t.roles);
      assert r.userRoles == WithoutUser(t.userRoles, userId) + bs;
      forall b | b in bs ensures b.userId == userId && b.roleId.Some? && RoleWithId(t.roles, b.roleId.value).Some? {
        var i :| 0 <= i < |bs| && bs[i] == b;
        var role := RoleNamed(t.roles, form.roles.value[i]).value;
        assert role in t.roles;
      }
    }
  }

  // ---------------------------------------------------------------------
  // The service

  /** `saveUser`. */
  method SaveUser(db: Store, encode: string -> string, form: UserForm)
    requires db.Valid()
    modifies db`users, db`nextId
    ensures db.Contents() == UserSaved(old(db.Contents()), encode, form)
  {
    var user := NewUser(db.nextId, encode, form);
    db.users := db.users + [user];
    db.nextId := db.nextId + 1;
  }

  /** The role loop of `saveUserWithRoles` and `updateUserWithRoles`: one
      user-role row per role name, stopping at the first unknown name. */
  method SaveRoleBindings(db: Store, userId: nat, names: seq<string>) returns (r: Outcome<Error>)
    modifies db`userRoles
    ensures var bs := RoleBindings(userId, names, db.roles);
      db.userRoles == old(db.userRoles) + bs && r == BindingOutcome(names, |bs|)
  {
    var i := 0;
    while i < |names|
      invariant 0 <= i <= |names|
      invariant |RoleBindings(userId, names[..i], db.roles)| == i
      invariant db.userRoles == old(db.userRoles) + RoleBindings(userId, names[..i], db.roles)
    {
      var role := RoleNamed(db.roles, names[i]);
      if role.None? {
        RoleBindingsAppend(userId, names[..i], names[i..], db.roles);
        SplitAt(names, i);
        return Fail(RoleNameNotFound(names[i]));
      }
      RoleBindingsAppend(userId, names[..i], [names[i]], db.roles);
      PrefixSnoc(names, i);
      db.userRoles := db.userRoles + [UserRole(userId, Some(role.value.id))];
      i := i + 1;
    }
    assert names[..i] == names;
    return Pass;
  }

  /** `saveUserWithRoles`. */
  method SaveUserWithRoles(db: Store, encode: string -> string, form: UserForm) returns (r: Outcome<Error>)
    requires db.Valid()
    modifies db`users, db`userRoles, db`nextId
    ensures (db.Contents(), r) == UserSavedWithRoles(old(db.Contents()), encode, form)
  {
    var userId := db.nextId;
    SaveUser(db, encode, form);
    if form.roles.None? {
      return Fail(RolesNull);
    }
    r := SaveRoleBindings(db, userId, form.roles.value);
  }

  /** `assignRoleToUser`. */
  method AssignRoleToUser(db: Store, userId: nat, roleId: nat) returns (r: Outcome<Error>)
    requires db.Valid()
    modifies db`userRoles
    ensures (db.Contents(), r) == RoleAssigned(old(db.Contents()), userId, roleId)
  {
    if UserIndex(db.users, userId).None? {
      return Fail(UserNotFound);
    }
    if RoleWithId(db.roles, roleId).None? {
      return Fail(RoleNotFound);
    }
    db.userRoles := db.userRoles + [UserRole(userId, Some(roleId))];
    return Pass;
  }

  /** `deleteUser`: the user's rows first, then the user. */
  method DeleteUser(db: Store, userId: nat) returns (r: Outcome<Error>)
    requires db.Valid()
    modifies db`users, db`userRoles
    ensures (db.Contents(), r) == UserDeleted(old(db.Contents()), userId)
  {
    var k := UserIndex(db.users, userId);
    if k.None? {
      return Fail(UserNotFound);
    }
    db.userRoles := WithoutUser(db.userRoles, userId);
    db.users := db.users[..k.value] + db.users[k.value + 1..];
    return Pass;
  }

  /** The setters both update operations apply to the row at `k`. */
  method ApplyForm(db: Store, k: nat, encode: string -> string, form: UserForm)
    requires k < |db.users|
    modifies db`users
    ensures db.users == old(db.users)[k := Edited(old(db.users)[k], encode, form)]
  {
    var user := db.users[k];
    user := user.(username := form.username);
    user := user.(email := form.email);
    user := user.(firstName := form.firstName);
    user := user.(lastName := form.lastName);
    if form.password != "" {
      user := user.(password := encode(form.password));
    }
    db.users := db.users[k := user];
  }

  /** `updateUser`. */
  method UpdateUser(db: Store, encode: string -> string, userId: nat, form: UserForm) returns (r: Outcome<Error>)
    requires db.Valid()
    modifies db`users
    ensures (db.Contents(), r) == UserUpdated(old(db.Contents()), encode, userId, form)
  {
    var k := UserIndex(db.users, userId);
    if k.None? {
      return Fail(UserNotFound);
    }
    ApplyForm(db, k.value, encode, form);
    return Pass;
  }

  /** `updateUserWithRoles`: the old rows are deleted before the new list
      is looked at, so a null list or an unknown name leaves the user with
      fewer roles than before. */
  method UpdateUserWithRoles(db: Store, encode: string -> string, userId: nat, form: UserForm)
    returns (r: Outcome<Error>)
    requires db.Valid()
    modifies db`users, db`userRoles
    ensures (db.Contents(), r) == UserUpdatedWithRoles(old(db.Contents()), encode, userId, form)
  {
    var k := UserIndex(db.users, userId);
    if k.None? {
      return Fail(UserNotFound);
    }
    ApplyForm(db, k.value, encode, form);
    db.userRoles := WithoutUser(db.userRoles, userId);
    if form.roles.None? {
      return Fail(RolesNull);
    }
    r := SaveRoleBindings(db, userId, form.roles.value);
  }
}
