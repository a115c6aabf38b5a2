/** The reference-data seed: permissions, system roles and the grants between them. */
module Seed {
  datatype PermissionRow = PermissionRow(id: nat, description: string)

  datatype RoleRow = RoleRow(id: nat, name: string, description: string)

  datatype Meta = Meta(name: string, description: string)

  /** The three tables, rows by their unique key; `nextId` is an id no row has. */
  datatype Db = Db(
    permissions: map<string, PermissionRow>,
    roles: map<string, RoleRow>,
    grants: set<(nat, nat)>,
    nextId: nat)

  /** The constants the seed is written against. */
  datatype Reference = Reference(
    permissions: seq<string>,
    roles: seq<string>,
    meta: string -> Meta,
    matrix: string -> seq<string>)

  /** Keys are unique by construction; ids are primary keys. */
  ghost predicate WellKeyed(db: Db) {
    && (forall k | k in db.permissions :: db.permissions[k].id < db.nextId)
    && (forall k | k in db.roles :: db.roles[k].id < db.nextId)
    && (forall j, k | j in db.roles && k in db.roles && j != k :: db.roles[j].id != db.roles[k].id)
  }

  // ----- what the statements do ---------------------------------------------------------

  /** Insert when the key is not there; an existing row is left as it is. */
  function UpsertPermission(db: Db, key: string): Db {
    if key in db.permissions then db
    else db.(permissions := db.permissions[key := PermissionRow(db.nextId, key)], nextId := db.nextId + 1)
  }

  function UpsertPermissions(db: Db, keys: seq<string>): Db {
    if keys == [] then db else UpsertPermission(UpsertPermissions(db, keys[..|keys| - 1]), keys[|keys| - 1])
  }

  function UpsertRole(db: Db, key: string, m: Meta): Db {
    if key in db.roles then db.(roles := db.roles[key := RoleRow(db.roles[key].id, m.name, m.description)])
    else db.(roles := db.roles[key := RoleRow(db.nextId, m.name, m.description)], nextId := db.nextId + 1)
  }

  function DeleteUnwanted(db: Db, roleId: nat, wanted: seq<nat>): Db {
    db.(grants := set g | g in db.grants && !(g.0 == roleId && g.1 !in wanted))
  }

  function CreateGrants(db: Db, roleId: nat, wanted: seq<nat>): Db {
    db.(grants := db.grants + set p | p in wanted :: (roleId, p))
  }

  predicate AllKnown(keys: seq<string>, known: map<string, nat>) {
    forall k | k in keys :: k in known
  }

  function Ids(keys: seq<string>, known: map<string, nat>): seq<nat>
    requires AllKnown(keys, known)
  {
    seq(|keys|, i requires 0 <= i < |keys| => assert keys[i] in keys; known[keys[i]])
  }

  datatype Seeding = Seeding(db: Db, grants: nat, failed: bool)

  /** One turn of the loop over the roles; a permission the first loop did not see raises. */
  function SeedRole(s: Seeding, key: string, r: Reference, known: map<string, nat>): Seeding {
    if s.failed then s
    else
      var db := UpsertRole(s.db, key, r.meta(key));
      var wanted := r.matrix(key);
      if !AllKnown(wanted, known) then Seeding(db, s.grants, true)
      else
        var id, ids := db.roles[key].id, Ids(wanted, known);
        Seeding(CreateGrants(DeleteUnwanted(db, id, ids), id, ids), s.grants + |ids|, false)
  }

  function SeedRoles(db: Db, keys: seq<string>, r: Reference, known: map<string, nat>): Seeding {
    if keys == [] then Seeding(db, 0, false)
    else SeedRole(SeedRoles(db, keys[..|keys| - 1], r, known), keys[|keys| - 1], r, known)
  }

  /** The ids the first loop collects: those of the reference's own permissions. */
  function KnownIds(db: Db, keys: seq<string>): map<string, nat>
    requires forall k | k in keys :: k in db.permissions
  {
    map k | k in keys :: db.permissions[k].id
  }

  function SeedReferenceData(db: Db, r: Reference): Seeding {
    UpsertKeeps(db, r.permissions);
    var seeded := UpsertPermissions(db, r.permissions);
    SeedRoles(seeded, r.roles, r, KnownIds(seeded, r.permissions))
  }

  class Prisma {
    var permissions: map<string, PermissionRow>
    var roles: map<string, RoleRow>
    var grants: set<(nat, nat)>
    var nextId: nat

    function View(): Db
      reads this
    {
      Db(permissions, roles, grants, nextId)
    }

    constructor (db: Db)
      ensures View() == db
    {
      permissions, roles, grants, nextId := db.permissions, db.roles, db.grants, db.nextId;
    }

    method PermissionUpsert(key: string) returns (id: nat)
      modifies this
      ensures View() == UpsertPermission(old(View()), key) && id == permissions[key].id
    {
      if key !in permissions {
        permissions := permissions[key := PermissionRow(nextId, key)];
        nextId := nextId + 1;
      }
      id := permissions[key].id;
    }

    method RoleUpsert(key: string, m: Meta) returns (id: nat)
      modifies this
      ensures View() == UpsertRole(old(View()), key, m) && id == roles[key].id
    {
      if key in roles {
        id := roles[key].id;
      } else {
        id := nextId;
        nextId := nextId + 1;
      }
      roles := roles[key := RoleRow(id, m.name, m.description)];
    }

    method RolePermissionDeleteMany(roleId: nat, notIn: seq<nat>)
      modifies this`grants
      ensures View() == DeleteUnwanted(old(View()), roleId, notIn)
    {
      grants := set g | g in grants && !(g.0 == roleId && g.1 !in notIn);
    }

    method RolePermissionCreateMany(roleId: nat, wanted: seq<nat>)
      modifies this`grants
      ensures View() == CreateGrants(old(View()), roleId, wanted)
    {
      grants := grants + set p | p in wanted :: (roleId, p);
    }

    method Seed(r: Reference) returns (grantCount: nat, failed: bool)
      modifies this
      ensures SeedReferenceData(old(View()), r) == Seeding(View(), grantCount, failed)
    {
      var permissionIds := SeedPermissions(r.permissions);
      UpsertKeeps(old(View()), r.permissions);
      grantCount, failed := SeedRolesOf(r, permissionIds);
    }

    /** The second loop. */
    method SeedRolesOf(r: Reference, permissionIds: map<string, nat>) returns (grantCount: nat, failed: bool)
      modifies this
      ensures SeedRoles(old(View()), r.roles, r, permissionIds) == Seeding(View(), grantCount, failed)
    {
      ghost var seeded := View();
      grantCount, failed := 0, false;
      for i := 0 to |r.roles|
        invariant SeedRoles(seeded, r.roles[..i], r, permissionIds) == Seeding(View(), grantCount, failed) && !failed
      {
        NextRole(seeded, r.roles, i, r, permissionIds);
        grantCount, failed := SeedOneRole(r.roles[i], r, permissionIds, grantCount);
        if failed {
          RestIsSkipped(seeded, r.roles, i + 1, r, permissionIds);
          return;
        }
      }
      assert r.roles[..|r.roles|] == r.roles;
    }

    /** The first loop. */
    method SeedPermissions(keys: seq<string>) returns (permissionIds: map<string, nat>)
      modifies this
      ensures View() == UpsertPermissions(old(View()), keys)
      ensures forall k | k in keys :: k in permissions
      ensures permissionIds == KnownIds(View(), keys)
    {
      permissionIds := map[];
      for i := 0 to |keys|
        invariant View() == UpsertPermissions(old(View()), keys[..i])
        invariant forall k | k in keys[..i] :: k in permissions
        invariant permissionIds == KnownIds(View(), keys[..i])
      {
        assert keys[..i + 1][..i] == keys[..i];
        var id := PermissionUpsert(keys[i]);
        permissionIds := permissionIds[keys[i] := id];
        assert keys[..i + 1] == keys[..i] + [keys[i]];
      }
      assert keys[..|keys|] == keys;
    }

    /** One turn of the second loop. */
    method SeedOneRole(key: string, r: Reference, permissionIds: map<string, nat>, grantsSoFar: nat)
      returns (grantCount: nat, failed: bool)
      modifies this
      ensures Seeding(View(), grantCount, failed)
        == SeedRole(Seeding(old(View()), grantsSoFar, false), key, r, permissionIds)
    {
      var id := RoleUpsert(key, r.meta(key));
      var wanted := r.matrix(key);
      if !AllKnown(wanted, permissionIds) {
        return grantsSoFar, true;
      }
      var wantedIds := Ids(wanted, permissionIds);
      RolePermissionDeleteMany(id, wantedIds);
      RolePermissionCreateMany(id, wantedIds);
      return grantsSoFar + |wantedIds|, false;
    }
  }

  lemma {:induction false} UpsertKeeps(db: Db, keys: seq<string>)
    ensures var after := UpsertPermissions(db, keys);
      && (forall k | k in db.permissions :: k in after.permissions && after.permissions[k] == db.permissions[k])
      && (forall k :: k in after.permissions <==> k in db.permissions || k in keys)
      && (forall k | k in keys && k !in db.permissions :: after.permissions[k].description == k)
      && after.roles == db.roles && after.grants == db.grants && db.nextId <= after.nextId
  {
    if keys != [] {
      var n := |keys| - 1;
      UpsertKeeps(db, keys[..n]);
      assert keys == keys[..n] + [keys[n]];
    }
  }

  lemma NextRole(db: Db, keys: seq<string>, i: nat, r: Reference, known: map<string, nat>)
    requires i < |keys|
    ensures SeedRoles(db, keys[..i + 1], r, known) == SeedRole(SeedRoles(db, keys[..i], r, known), keys[i], r, known)
  {
    assert keys[..i + 1][..i] == keys[..i];
  }

  lemma {:induction false} RestIsSkipped(db: Db, keys: seq<string>, n: nat, r: Reference, known: map<string, nat>)
    requires n <= |keys| && SeedRoles(db, keys[..n], r, known).failed
    ensures SeedRoles(db, keys, r, known) == SeedRoles(db, keys[..n], r, known)
    decreases |keys|
  {
    if n == |keys| {
      assert keys[..n] == keys;
    } else {
      assert keys[..|keys| - 1][..n] == keys[..n];
      RestIsSkipped(db, keys[..|keys| - 1], n, r, known);
    }
  }

  // ----- convergence ----------------------------------------------------------------------

  /** The permissions granted to a role. */
  ghost function GrantsOf(db: Db, roleId: nat): set<nat> {
    set g | g in db.grants && g.0 == roleId :: g.1
  }

  /** A system role is as the reference says: its row, and its grants exactly. */
  ghost predicate Converged(db: Db, key: string, r: Reference, known: map<string, nat>) {
    && key in db.roles && AllKnown(r.matrix(key), known)
    && db.roles[key] == RoleRow(db.roles[key].id, r.meta(key).name, r.meta(key).description)
    && forall p :: (db.roles[key].id, p) in db.grants <==> p in Ids(r.matrix(key), known)
  }

  /** What one turn of the loop does to the roles. */
  lemma RoleRows(s: Seeding, key: string, r: Reference, known: map<string, nat>)
    requires WellKeyed(s.db) && !s.failed
    ensures var next, row := SeedRole(s, key, r, known).db, UpsertRole(s.db, key, r.meta(key)).roles[key];
      && next.roles == s.db.roles[key := row] && next.permissions == s.db.permissions
      && row.name == r.meta(key).name && row.description == r.meta(key).description
      && row.id == (if key in s.db.roles then s.db.roles[key].id else s.db.nextId)
  {
  }

  lemma RolesStayWellKeyed(s: Seeding, key: string, r: Reference, known: map<string, nat>)
    requires WellKeyed(s.db)
    ensures WellKeyed(SeedRole(s, key, r, known).db) && s.db.nextId <= SeedRole(s, key, r, known).db.nextId
  {
    if !s.failed { RoleRows(s, key, r, known); }
  }

  /** What it does to the grants: the role's are replaced, all others stay. */
  lemma RoleGrants(s: Seeding, key: string, r: Reference, known: map<string, nat>)
    requires !s.failed
    ensures var next := SeedRole(s, key, r, known);
      && (next.failed <==> !AllKnown(r.matrix(key), known))
      && (!next.failed ==> forall p :: (next.db.roles[key].id, p) in next.db.grants <==> p in Ids(r.matrix(key), known))
      && (forall g: (nat, nat) | g.0 != next.db.roles[key].id :: g in next.db.grants <==> g in s.db.grants)
  {
  }

  lemma RoleConverges(s: Seeding, key: string, r: Reference, known: map<string, nat>)
    requires WellKeyed(s.db) && !s.failed
    ensures var next := SeedRole(s, key, r, known); !next.failed ==> Converged(next.db, key, r, known)
  {
    RoleRows(s, key, r, known);
    RoleGrants(s, key, r, known);
  }

  lemma ConvergedRoleKeeps(s: Seeding, key: string, other: string, r: Reference, known: map<string, nat>)
    requires WellKeyed(s.db) && !s.failed && other != key && Converged(s.db, other, r, known)
    ensures Converged(SeedRole(s, key, r, known).db, other, r, known)
  {
    RoleRows(s, key, r, known);
    RoleGrants(s, key, r, known);
  }

  /** What the loop over the roles keeps. */
  lemma {:induction false} RolesKeep(db: Db, keys: seq<string>, r: Reference, known: map<string, nat>)
    requires WellKeyed(db)
    ensures Kept(db, SeedRoles(db, keys, r, known).db, keys)
  {
    if keys != [] {
      var n := |keys| - 1;
      RolesKeep(db, keys[..n], r, known);
      TurnKeeps(db, SeedRoles(db, keys[..n], r, known), keys[..n], keys[n], r, known);
      assert keys == keys[..n] + [keys[n]];
    }
  }

  ghost predicate Kept(db: Db, after: Db, keys: seq<string>) {
    && WellKeyed(after) && after.permissions == db.permissions && db.nextId <= after.nextId
    && (forall k | k in db.roles ::
         k in after.roles && after.roles[k].id == db.roles[k].id && (k !in keys ==> after.roles[k] == db.roles[k]))
    && (forall k | k in after.roles && k !in db.roles :: k in keys && after.roles[k].id >= db.nextId)
  }

  lemma TurnKeeps(db: Db, s: Seeding, keys: seq<string>, key: string, r: Reference, known: map<string, nat>)
    requires Kept(db, s.db, keys)
    ensures Kept(db, SeedRole(s, key, r, known).db, keys + [key])
  {
    if !s.failed { RoleRows(s, key, r, known); }
    RolesStayWellKeyed(s, key, r, known);
    assert forall k :: k in keys + [key] <==> k in keys || k == key;
  }

  /** Roles that converged stay so while others are seeded. */
  lemma {:induction false} RolesConverge(db: Db, keys: seq<string>, r: Reference, known: map<string, nat>)
    requires WellKeyed(db)
    ensures var s := SeedRoles(db, keys, r, known);
      && (s.failed <==> exists k :: k in keys && !AllKnown(r.matrix(k), known))
      && (!s.failed ==> forall k | k in keys :: Converged(s.db, k, r, known))
  {
    if keys != [] {
      var n := |keys| - 1;
      var prev := SeedRoles(db, keys[..n], r, known);
      RolesConverge(db, keys[..n], r, known);
      RolesKeep(db, keys[..n], r, known);
      assert keys == keys[..n] + [keys[n]];
      if !prev.failed {
        RoleGrants(prev, keys[n], r, known);
        var s := SeedRoles(db, keys, r, known);
        if !s.failed {
          RoleConverges(prev, keys[n], r, known);
          forall k | k in keys ensures Converged(s.db, k, r, known) {
            if k != keys[n] { ConvergedRoleKeeps(prev, keys[n], k, r, known); }
          }
        }
      }
    }
  }

  /** The grants of a row that is no system role are untouched. */
  lemma {:induction false} OtherGrantsStay(db: Db, keys: seq<string>, r: Reference, known: map<string, nat>,
                                           g: (nat, nat))
    requires WellKeyed(db) && g.0 < db.nextId && forall k | k in keys && k in db.roles :: db.roles[k].id != g.0
    ensures g in SeedRoles(db, keys, r, known).db.grants <==> g in db.grants
  {
    if keys != [] {
      var n := |keys| - 1;
      var prev := SeedRoles(db, keys[..n], r, known);
      assert forall k | k in keys[..n] :: k in keys;
      OtherGrantsStay(db, keys[..n], r, known, g);
      RolesKeep(db, keys[..n], r, known);
      assert keys[n] in keys;
      if !prev.failed {
        RoleRows(prev, keys[n], r, known);
        RoleGrants(prev, keys[n], r, known);
      }
    }
  }

  /** CONVERGENCE. From any prior database, after a seed that does not raise every system
      role holds exactly its row of the matrix; other roles, their grants and the
      permission rows already there are untouched, and no other role appears; and the seed raises exactly when the
      matrix names a permission outside the reference's list. */
  lemma SeedConverges(db: Db, r: Reference)
    requires WellKeyed(db)
    ensures var s := SeedReferenceData(db, r);
      && WellKeyed(s.db)
      && (s.failed <==> exists k :: k in r.roles && exists p :: p in r.matrix(k) && p !in r.permissions)
      && (forall k | k in db.permissions :: k in s.db.permissions && s.db.permissions[k] == db.permissions[k])
      && (forall k :: k in s.db.permissions <==> k in db.permissions || k in r.permissions)
      && (forall k | k in db.roles && k !in r.roles ::
            && k in s.db.roles && s.db.roles[k] == db.roles[k]
            && GrantsOf(s.db, db.roles[k].id) == GrantsOf(db, db.roles[k].id))
      && (forall k | k in s.db.roles :: k in db.roles || k in r.roles)
      && (!s.failed ==> forall k | k in r.roles :: Converged(s.db, k, r, KnownIds(s.db, r.permissions)))
  {
    var seeded := UpsertPermissions(db, r.permissions);
    UpsertKeeps(db, r.permissions);
    UpsertWellKeyed(db, r.permissions);
    var known := KnownIds(seeded, r.permissions);
    RolesKeep(seeded, r.roles, r, known);
    RolesConverge(seeded, r.roles, r, known);
    var s := SeedReferenceData(db, r);
    forall k | k in db.roles && k !in r.roles ensures GrantsOf(s.db, db.roles[k].id) == GrantsOf(db, db.roles[k].id) {
      var id := db.roles[k].id;
      forall p: nat ensures (id, p) in s.db.grants <==> (id, p) in db.grants {
        OtherGrantsStay(seeded, r.roles, r, known, (id, p));
      }
      assert forall p :: p in GrantsOf(s.db, id) <==> (id, p) in s.db.grants;
      assert forall p :: p in GrantsOf(db, id) <==> (id, p) in db.grants;
    }
    assert KnownIds(s.db, r.permissions) == known;
  }

  // ----- what a seed leaves -----------------------------------------------------------------

  /** The cells of the matrix that are set, over these roles. */
  function MatrixSize(roles: seq<string>, matrix: string -> seq<string>): nat {
    if roles == [] then 0 else |matrix(roles[0])| + MatrixSize(roles[1..], matrix)
  }

  lemma {:induction false} MatrixSizeSnoc(roles: seq<string>, matrix: string -> seq<string>)
    requires roles != []
    ensures MatrixSize(roles, matrix) == MatrixSize(roles[..|roles| - 1], matrix) + |matrix(roles[|roles| - 1])|
  {
    if |roles| > 1 {
      var rest := roles[1..];
      MatrixSizeSnoc(rest, matrix);
      assert rest[..|rest| - 1] == roles[..|roles| - 1][1..];
    }
  }

  lemma {:induction false} GrantsAreCounted(db: Db, keys: seq<string>, r: Reference, known: map<string, nat>)
    requires !SeedRoles(db, keys, r, known).failed
    ensures SeedRoles(db, keys, r, known).grants == MatrixSize(keys, r.matrix)
  {
    if keys != [] {
      var n := |keys| - 1;
      RoleGrants(SeedRoles(db, keys[..n], r, known), keys[n], r, known);
      GrantsAreCounted(db, keys[..n], r, known);
      MatrixSizeSnoc(keys, r.matrix);
    }
  }

  /** The permission is one that the reference gives the role. */
  ghost predicate IsWanted(db: Db, r: Reference, role: string, id: nat) {
    exists q :: q in r.matrix(role) && q in db.permissions && db.permissions[q].id == id
  }

  lemma WantedIds(db: Db, r: Reference, role: string, p: nat)
    requires forall k | k in r.permissions :: k in db.permissions
    requires AllKnown(r.matrix(role), KnownIds(db, r.permissions))
    ensures p in Ids(r.matrix(role), KnownIds(db, r.permissions)) <==> IsWanted(db, r, role, p)
  {
    var keys, ids := r.matrix(role), Ids(r.matrix(role), KnownIds(db, r.permissions));
    if p in ids {
      var i :| 0 <= i < |ids| && ids[i] == p;
      assert keys[i] in keys;
    }
    if IsWanted(db, r, role, p) {
      var q :| q in keys && q in db.permissions && db.permissions[q].id == p;
      var i :| 0 <= i < |keys| && keys[i] == q;
      assert ids[i] == p;
    }
  }

  /** The role's grants are those of the matrix. */
  ghost predicate GrantedAsWanted(db: Db, r: Reference, role: string) {
    role in db.roles && forall p: nat :: (db.roles[role].id, p) in db.grants <==> IsWanted(db, r, role, p)
  }

  lemma ConvergedIsGranted(db: Db, r: Reference, role: string)
    requires forall k | k in r.permissions :: k in db.permissions
    requires Converged(db, role, r, KnownIds(db, r.permissions))
    ensures GrantedAsWanted(db, r, role)
  {
    forall p: nat ensures (db.roles[role].id, p) in db.grants <==> IsWanted(db, r, role, p) {
      WantedIds(db, r, role, p);
    }
  }

  /** The count reported is that of the matrix, and a new permission is described by its key. */
  lemma SeedCountsTheMatrix(db: Db, r: Reference)
    requires !SeedReferenceData(db, r).failed
    ensures var s := SeedReferenceData(db, r);
      && s.grants == MatrixSize(r.roles, r.matrix)
      && forall q | q in r.permissions && q !in db.permissions ::
           q in s.db.permissions && s.db.permissions[q].description == q
  {
    UpsertKeeps(db, r.permissions);
    var seeded := UpsertPermissions(db, r.permissions);
    GrantsAreCounted(seeded, r.roles, r, KnownIds(seeded, r.permissions));
    PermissionsStay(seeded, r.roles, r, KnownIds(seeded, r.permissions));
  }

  lemma {:induction false} PermissionsStay(db: Db, keys: seq<string>, r: Reference, known: map<string, nat>)
    ensures SeedRoles(db, keys, r, known).db.permissions == db.permissions
  {
    if keys != [] { PermissionsStay(db, keys[..|keys| - 1], r, known); }
  }

  /** After a seed that does not raise, a system role has the reference's name and description,
      the id of its old row if it had one, and is granted a permission exactly when the matrix
      gives it. */
  lemma SeedLeavesTheMatrix(db: Db, r: Reference, k: string)
    requires WellKeyed(db) && !SeedReferenceData(db, r).failed && k in r.roles
    ensures var s := SeedReferenceData(db, r);
      && GrantedAsWanted(s.db, r, k)
      && s.db.roles[k].name == r.meta(k).name && s.db.roles[k].description == r.meta(k).description
      && (k in db.roles ==> s.db.roles[k].id == db.roles[k].id)
  {
    SeedConverges(db, r);
    ConvergedIsGranted(SeedReferenceData(db, r).db, r, k);
    if k in db.roles { RoleIdsStay(db, r, k); }
  }

  lemma RoleIdsStay(db: Db, r: Reference, k: string)
    requires WellKeyed(db) && k in db.roles
    ensures var s := SeedReferenceData(db, r); k in s.db.roles && s.db.roles[k].id == db.roles[k].id
  {
    var seeded := UpsertPermissions(db, r.permissions);
    UpsertKeeps(db, r.permissions);
    UpsertWellKeyed(db, r.permissions);
    RolesKeep(seeded, r.roles, r, KnownIds(seeded, r.permissions));
  }

  lemma {:induction false} UpsertWellKeyed(db: Db, keys: seq<string>)
    requires WellKeyed(db)
    ensures WellKeyed(UpsertPermissions(db, keys))
  {
    if keys != [] {
      UpsertWellKeyed(db, keys[..|keys| - 1]);
      UpsertKeeps(db, keys[..|keys| - 1]);
    }
  }

  lemma {:induction false} UpsertNothing(db: Db, keys: seq<string>)
    requires forall k | k in keys :: k in db.permissions
    ensures UpsertPermissions(db, keys) == db
  {
    if keys != [] {
      assert forall k | k in keys[..|keys| - 1] :: k in keys;
      assert keys[|keys| - 1] in keys;
      UpsertNothing(db, keys[..|keys| - 1]);
    }
  }

  lemma ConvergedRoleStays(s: Seeding, key: string, r: Reference, known: map<string, nat>)
    requires !s.failed && Converged(s.db, key, r, known)
    ensures SeedRole(s, key, r, known).db == s.db && !SeedRole(s, key, r, known).failed
  {
    var id, ids := s.db.roles[key].id, Ids(r.matrix(key), known);
    var next := SeedRole(s, key, r, known).db;
    assert next.roles == s.db.roles;
    forall g: (nat, nat) ensures g in next.grants <==> g in s.db.grants {
      if g.0 == id { assert g == (id, g.1); }
    }
    assert next.grants == s.db.grants;
  }

  lemma {:induction false} ConvergedRolesStay(db: Db, keys: seq<string>, r: Reference, known: map<string, nat>)
    requires forall k | k in keys :: Converged(db, k, r, known)
    ensures SeedRoles(db, keys, r, known).db == db && !SeedRoles(db, keys, r, known).failed
  {
    if keys != [] {
      var n := |keys| - 1;
      assert forall k | k in keys[..n] :: k in keys;
      assert keys[n] in keys;
      ConvergedRolesStay(db, keys[..n], r, known);
      ConvergedRoleStays(SeedRoles(db, keys[..n], r, known), keys[n], r, known);
    }
  }

  /** A second run changes nothing. */
  lemma SecondSeedChangesNothing(db: Db, r: Reference)
    requires WellKeyed(db) && !SeedReferenceData(db, r).failed
    ensures var once := SeedReferenceData(db, r).db;
      SeedReferenceData(once, r).db == once && !SeedReferenceData(once, r).failed
  {
    var once := SeedReferenceData(db, r).db;
    SeedConverges(db, r);
    UpsertNothing(once, r.permissions);
    ConvergedRolesStay(once, r.roles, r, KnownIds(once, r.permissions));
  }
}
