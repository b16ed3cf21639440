/** The user entity: the role bitmask kept in the `roles` field, the password
    rehash rule, and the lookups the authentication service makes in the user table. */
module Users {
  import opened Php
  import opened Bits

  /** The application's role-name table `static::$role_names`: role bit and name, in
      the array's iteration order. */
  type RoleTable = seq<(bv64, string)>

  /** The bcrypt cost `Auth::hash` uses by default (`hash_cost`); `on_change` hashes
      through that same service. */
  const HashCost: int := 8

  /** A PHP array has each key once. */
  predicate UniqueKeys(t: RoleTable) {
    forall i, j :: 0 <= i < j < |t| ==> t[i].0 != t[j].0
  }

  /** `isset(static::$role_names[$role])` */
  predicate IsRole(t: RoleTable, r: bv64) {
    exists i :: 0 <= i < |t| && t[i].0 == r
  }

  /** The argument of `has_role`: a single role or an array of roles. */
  datatype RoleQuery = One(role: bv64) | Many(roles: seq<bv64>)

  /** `(array)$roles` for a scalar, the array itself otherwise. */
  function AsList(q: RoleQuery): seq<bv64> {
    match q
    case One(r) => [r]
    case Many(rs) => rs
  }

  /** Some role of the list shares a bit with the mask. */
  predicate HoldsAny(mask: bv64, roles: seq<bv64>) {
    exists i :: 0 <= i < |roles| && Shares(mask, roles[i])
  }

  lemma HoldsAnySnoc(mask: bv64, roles: seq<bv64>)
    requires roles != []
    ensures HoldsAny(mask, roles) <==>
      HoldsAny(mask, roles[..|roles| - 1]) || Shares(mask, roles[|roles| - 1])
  {
    var init := roles[..|roles| - 1];
    if HoldsAny(mask, roles) {
      var i :| 0 <= i < |roles| && Shares(mask, roles[i]);
      if i < |init| { assert init[i] == roles[i]; }
    }
    if HoldsAny(mask, init) {
      var i :| 0 <= i < |init| && Shares(mask, init[i]);
      assert init[i] == roles[i];
    }
  }

  /** The bitwise OR of a list of roles, folded left to right as `update_roles` does. */
  function UnionOf(roles: seq<bv64>): (r: bv64)
    ensures roles == [] ==> r == 0
    ensures forall i :: 0 <= i < |roles| ==> Includes(r, roles[i])
  {
    if roles == [] then 0
    else
      var init, last := roles[..|roles| - 1], roles[|roles| - 1];
      var u := UnionOf(init);
      OrIncludes(u, last);
      forall i | 0 <= i < |init| ensures Includes(u | last, roles[i]) {
        assert roles[i] == init[i];
        IncludesOr(roles[i], u, last);
      }
      u | last
  }

  /** `UnionOf` shares a bit with `x` exactly when some role of the list does: the
      mask `update_roles` stores grants a role iff one of the given roles grants it. */
  lemma {:induction false} UnionOfShares(roles: seq<bv64>, x: bv64)
    ensures Shares(UnionOf(roles), x) <==> HoldsAny(x, roles)
  {
    if roles == [] {
      ZeroSharesNothing(x);
    } else {
      var init := roles[..|roles| - 1];
      UnionOfShares(init, x);
      OrShares(UnionOf(init), roles[|roles| - 1], x);
      HoldsAnySnoc(x, roles);
    }
  }

  /** The roles of the table whose bit is set in `mask`, in table order (`get_roles`). */
  function RolesIn(mask: bv64, t: RoleTable): (r: seq<bv64>)
    ensures |r| <= |t|
    ensures forall i :: 0 <= i < |r| ==> Shares(mask, r[i])
  {
    if t == [] then []
    else
      var last := t[|t| - 1];
      RolesIn(mask, t[..|t| - 1]) + (if Shares(mask, last.0) then [last.0] else [])
  }

  /** The names of those roles, in the same order (`get_roles_desc`). */
  function NamesIn(mask: bv64, t: RoleTable): (r: seq<string>)
    ensures |r| == |RolesIn(mask, t)|
  {
    if t == [] then []
    else
      var last := t[|t| - 1];
      NamesIn(mask, t[..|t| - 1]) + (if Shares(mask, last.0) then [last.1] else [])
  }

  /** `get_roles` lists exactly the registered roles whose bit is set. */
  lemma {:induction false} RolesInMembers(mask: bv64, t: RoleTable, x: bv64)
    ensures x in RolesIn(mask, t) <==> IsRole(t, x) && Shares(mask, x)
  {
    if t != [] {
      var init := t[..|t| - 1];
      RolesInMembers(mask, init, x);
      if IsRole(t, x) && !IsRole(init, x) {
        var i :| 0 <= i < |t| && t[i].0 == x;
        assert i == |t| - 1;
      }
      if IsRole(init, x) {
        var i :| 0 <= i < |init| && init[i].0 == x;
        assert t[i] == init[i];
      }
    }
  }

  /** `get_roles_desc` lists one name per role of `get_roles`, and each role appears
      with its own name at a strictly later table entry than the role listed before it:
      both lists follow table order, and the i-th name belongs to the i-th role. */
  lemma {:induction false} RolesAndNamesInTableOrder(mask: bv64, t: RoleTable, a: nat, b: nat)
    ensures |NamesIn(mask, t)| == |RolesIn(mask, t)|
    ensures a < |RolesIn(mask, t)| ==>
      exists i :: 0 <= i < |t| && t[i] == (RolesIn(mask, t)[a], NamesIn(mask, t)[a])
    ensures a < b < |RolesIn(mask, t)| ==>
      exists i, j :: 0 <= i < j < |t| &&
        t[i] == (RolesIn(mask, t)[a], NamesIn(mask, t)[a]) &&
        t[j] == (RolesIn(mask, t)[b], NamesIn(mask, t)[b])
  {
    if t != [] {
      var init := t[..|t| - 1];
      var last := t[|t| - 1];
      var r, n := RolesIn(mask, t), NamesIn(mask, t);
      var ri, ni := RolesIn(mask, init), NamesIn(mask, init);
      RolesAndNamesInTableOrder(mask, init, a, b);
      if a < |ri| {
        assert r[a] == ri[a] && n[a] == ni[a];
        var i :| 0 <= i < |init| && init[i] == (ri[a], ni[a]);
        assert t[i] == init[i];
        if a < b < |ri| {
          assert r[b] == ri[b] && n[b] == ni[b];
          var i', j :| 0 <= i' < j < |init| &&
            init[i'] == (ri[a], ni[a]) && init[j] == (ri[b], ni[b]);
          assert t[i'] == init[i'] && t[j] == init[j];
        } else if a < b < |r| {
          assert r[b] == last.0 && n[b] == last.1;
          assert t[|t| - 1] == (r[b], n[b]);
        }
      } else if a < |r| {
        assert r[a] == last.0 && n[a] == last.1;
        assert t[|t| - 1] == (r[a], n[a]);
      }
    }
  }

  /** With unique table keys `get_roles` repeats no role. */
  lemma RolesInDistinct(mask: bv64, t: RoleTable, a: nat, b: nat)
    requires UniqueKeys(t)
    requires a < b < |RolesIn(mask, t)|
    ensures RolesIn(mask, t)[a] != RolesIn(mask, t)[b]
  {
    RolesAndNamesInTableOrder(mask, t, a, b);
  }

  /** A user row as the authentication service reads it and the session stores it.
      `canLogin` is the application's `can_login()` answer for this user. */
  datatype Identity = Identity(id: int, username: string, password: string, roles: bv64, canLogin: bool)

  /** `find_user`: the first user of the table with that username, if any. */
  function FindUser(users: seq<Identity>, username: string): (r: Option<Identity>)
    ensures r.Some? <==> exists i :: 0 <= i < |users| && users[i].username == username
    ensures r.Some? ==> r.value in users && r.value.username == username
  {
    if users == [] then None
    else if users[0].username == username then Some(users[0])
    else
      var r := FindUser(users[1..], username);
      assert forall i :: 1 <= i < |users| ==> users[i] == users[1..][i - 1];
      r
  }

  /** `User::one($id)`: the user whose primary key is `id`, if any. */
  function FindById(users: seq<Identity>, id: int): (r: Option<Identity>)
    ensures r.Some? <==> exists i :: 0 <= i < |users| && users[i].id == id
    ensures r.Some? ==> r.value in users && r.value.id == id
  {
    if users == [] then None
    else if users[0].id == id then Some(users[0])
    else
      var r := FindById(users[1..], id);
      assert forall i :: 1 <= i < |users| ==> users[i] == users[1..][i - 1];
      r
  }

  /** The user object whose role bitmask and password the application changes in place. */
  class User {
    const roleNames: RoleTable
    var roles: bv64
    var password: string

    /** The role table registers each role once. */
    ghost predicate Valid() {
      UniqueKeys(roleNames)
    }

    constructor (roleNames: RoleTable, roles: bv64, password: string)
      requires UniqueKeys(roleNames)
      ensures Valid()
      ensures this.roleNames == roleNames && this.roles == roles && this.password == password
    {
      this.roleNames := roleNames;
      this.roles := roles;
      this.password := password;
    }

    /** `add_role`: the role must be registered; its bits are added and none are lost. */
    method AddRole(r: bv64)
      requires IsRole(roleNames, r)
      modifies this`roles
      ensures roles == old(roles) | r
      ensures r != 0 ==> Shares(roles, r)
      ensures Includes(roles, old(roles))
    {
      var mask := roles;
      OrIncludes(mask, r);
      OrGrants(mask, r);
      roles := mask | r;
    }

    /** `has_role`: does some role of the query share a bit with `roles`? */
    method HasRole(q: RoleQuery) returns (found: bool)
      ensures found <==> HoldsAny(roles, AsList(q))
      ensures q.One? ==> (found <==> Shares(roles, q.role))
    {
      var list := AsList(q);
      var mask := roles;
      if q.One? {
        assert list[0] == q.role;
        assert HoldsAny(mask, list) <==> Shares(mask, q.role);
      }
      for i := 0 to |list|
        invariant !HoldsAny(mask, list[..i])
      {
        if Shares(mask, list[i]) {
          assert list[..i + 1][i] == list[i];
          return true;
        }
        HoldsAnySnoc(mask, list[..i + 1]);
        assert list[..i + 1][..i] == list[..i];
      }
      assert list[..|list|] == list;
      return false;
    }

    /** `update_roles`: the mask becomes the OR of the given roles, whatever it was. */
    method UpdateRoles(list: seq<bv64>)
      modifies this`roles
      ensures roles == UnionOf(list)
    {
      roles := 0;
      for i := 0 to |list|
        invariant roles == UnionOf(list[..i])
      {
        assert list[..i + 1][..i] == list[..i];
        roles := roles | list[i];
      }
      assert list[..|list|] == list;
    }

    /** `get_roles`: the registered roles whose bit is set, in table order. */
    method GetRoles() returns (list: seq<bv64>)
      requires Valid()
      ensures list == RolesIn(roles, roleNames)
      ensures forall a, b :: 0 <= a < b < |list| ==> list[a] != list[b]
    {
      var mask := roles;
      list := [];
      for i := 0 to |roleNames|
        invariant list == RolesIn(mask, roleNames[..i])
      {
        assert roleNames[..i + 1][..i] == roleNames[..i];
        var (role, _) := roleNames[i];
        if Shares(mask, role) {
          list := list + [role];
        }
      }
      assert roleNames[..|roleNames|] == roleNames;
      forall a, b | 0 <= a < b < |list| ensures list[a] != list[b] {
        RolesInDistinct(mask, roleNames, a, b);
      }
    }

    /** `get_roles_desc`: the names of those roles, in table order. */
    method GetRolesDesc() returns (list: seq<string>)
      ensures list == NamesIn(roles, roleNames)
    {
      var mask := roles;
      list := [];
      for i := 0 to |roleNames|
        invariant list == NamesIn(mask, roleNames[..i])
      {
        assert roleNames[..i + 1][..i] == roleNames[..i];
        var (role, name) := roleNames[i];
        if Shares(mask, role) {
          list := list + [name];
        }
      }
      assert roleNames[..|roleNames|] == roleNames;
    }

    /** `on_change`: a changed password is replaced by its hash before saving. `hash` is
        the `password_hash` parameter the authentication service holds (bcrypt being
        foreign), applied at the service's cost with the salt it draws. */
    method OnChange(passwordChanged: bool, hash: (string, int, string) -> string, salt: string)
      modifies this`password
      ensures password == if passwordChanged then hash(old(password), HashCost, salt) else old(password)
    {
      if passwordChanged {
        password := hash(password, HashCost, salt);
      }
    }
  }
}
