/** The data migration from the legacy site rule to scoped grants: the rows it writes, and whose access
    they change. */
module GrantMigration {
  import opened Wrappers
  import opened PermissionCatalog
  import opened SiteScope

  datatype RoleRow = RoleRow(id: Id, org: Id, role: Role)

  const ROLE_ORDER := [Administrator, SecurityOperator, PentestApprover, RemediationOwner, Auditor, Viewer]

  /** `_role_id` is a name-based UUID of the organization and the role. */
  ghost predicate DistinctRoleIds(roleId: (Id, Role) -> Id) {
    forall o, r, o', r' :: roleId(o, r) == roleId(o', r') ==> o == o' && r == r'
  }

  predicate AllSites(u: User) {
    u.role.Administrator? || u.mode.All?
  }

  // ----- What the rows are -----

  ghost function RoleRows(roleId: (Id, Role) -> Id, org: Id, roles: seq<Role>): seq<RoleRow> {
    if roles == [] then []
    else
      var last := roles[|roles| - 1];
      RoleRows(roleId, org, roles[..|roles| - 1]) + [RoleRow(roleId(org, last), org, last)]
  }

  ghost function AllRoleRows(roleId: (Id, Role) -> Id, orgs: seq<Id>): seq<RoleRow> {
    if orgs == [] then []
    else AllRoleRows(roleId, orgs[..|orgs| - 1]) + RoleRows(roleId, orgs[|orgs| - 1], ROLE_ORDER)
  }

  ghost function KeyRows(roleId: (Id, Role) -> Id, keys: seq<Key>, org: Id, role: Role): seq<RolePermission> {
    if keys == [] then []
    else
      var k, rest := keys[|keys| - 1], KeyRows(roleId, keys[..|keys| - 1], org, role);
      if FrozenHolds(role, k) then rest + [RolePermission(org, roleId(org, role), k)] else rest
  }

  ghost function PermissionRows(roleId: (Id, Role) -> Id, keys: seq<Key>, org: Id,
                                roles: seq<Role>): seq<RolePermission> {
    if roles == [] then []
    else PermissionRows(roleId, keys, org, roles[..|roles| - 1]) + KeyRows(roleId, keys, org, roles[|roles| - 1])
  }

  ghost function AllPermissionRows(roleId: (Id, Role) -> Id, keys: seq<Key>, orgs: seq<Id>): seq<RolePermission> {
    if orgs == [] then []
    else
      AllPermissionRows(roleId, keys, orgs[..|orgs| - 1]) + PermissionRows(roleId, keys, orgs[|orgs| - 1], ROLE_ORDER)
  }

  ghost function SitesOf(assignments: seq<Assignment>, user: Id): seq<Id> {
    if assignments == [] then []
    else
      var a, rest := assignments[|assignments| - 1], SitesOf(assignments[..|assignments| - 1], user);
      if a.user == user then rest + [a.site] else rest
  }

  function ScopeOf(u: User): Scope {
    if AllSites(u) then OrganizationScope else Scope.SiteScope
  }

  function GrantFor(roleId: (Id, Role) -> Id, u: User, scopeId: Id): Grant {
    Grant(u.org, Some(u.id), None, roleId(u.org, u.role), ScopeOf(u), scopeId)
  }

  ghost function GrantsFor(roleId: (Id, Role) -> Id, u: User, scopeIds: seq<Id>): seq<Grant> {
    if scopeIds == [] then []
    else GrantsFor(roleId, u, scopeIds[..|scopeIds| - 1]) + [GrantFor(roleId, u, scopeIds[|scopeIds| - 1])]
  }

  ghost function ScopeIds(assignments: seq<Assignment>, u: User): seq<Id> {
    if AllSites(u) then [u.org] else SitesOf(assignments, u.id)
  }

  ghost function AllGrants(roleId: (Id, Role) -> Id, assignments: seq<Assignment>, users: seq<User>): seq<Grant> {
    if users == [] then []
    else
      var u := users[|users| - 1];
      AllGrants(roleId, assignments, users[..|users| - 1]) + GrantsFor(roleId, u, ScopeIds(assignments, u))
  }

  // ----- `_backfill` -----

  /** The role and permission rows of every organization; `keys` lists the frozen catalogue in some order. */
  method BackfillRoles(roleId: (Id, Role) -> Id, keys: seq<Key>, orgs: seq<Id>)
    returns (roles: seq<RoleRow>, permissions: seq<RolePermission>)
    ensures roles == AllRoleRows(roleId, orgs)
    ensures permissions == AllPermissionRows(roleId, keys, orgs)
  {
    hide RoleRows, PermissionRows;
    roles, permissions := [], [];
    for i := 0 to |orgs|
      invariant roles == AllRoleRows(roleId, orgs[..i])
      invariant permissions == AllPermissionRows(roleId, keys, orgs[..i])
    {
      var roles', permissions' := BackfillOrganization(roleId, keys, orgs[i]);
      roles, permissions := roles + roles', permissions + permissions';
      assert orgs[..i + 1][..i] == orgs[..i];
    }
    assert orgs[..|orgs|] == orgs;
  }

  method BackfillOrganization(roleId: (Id, Role) -> Id, keys: seq<Key>, org: Id)
    returns (roles: seq<RoleRow>, permissions: seq<RolePermission>)
    ensures roles == RoleRows(roleId, org, ROLE_ORDER)
    ensures permissions == PermissionRows(roleId, keys, org, ROLE_ORDER)
  {
    hide KeyRows;
    var order := ROLE_ORDER;
    roles, permissions := [], [];
    for j := 0 to |order|
      invariant roles == RoleRows(roleId, org, order[..j])
      invariant permissions == PermissionRows(roleId, keys, org, order[..j])
    {
      roles := roles + [RoleRow(roleId(org, order[j]), org, order[j])];
      var rows := BackfillKeys(roleId, keys, org, order[j]);
      permissions := permissions + rows;
      assert order[..j + 1][..j] == order[..j];
    }
    assert order[..|order|] == order;
  }

  method BackfillKeys(roleId: (Id, Role) -> Id, keys: seq<Key>, org: Id, role: Role) returns (rows: seq<RolePermission>)
    ensures rows == KeyRows(roleId, keys, org, role)
  {
    hide FrozenHolds;
    rows := [];
    for i := 0 to |keys|
      invariant rows == KeyRows(roleId, keys[..i], org, role)
    {
      if FrozenHolds(role, keys[i]) {
        rows := rows + [RolePermission(org, roleId(org, role), keys[i])];
      }
      assert keys[..i + 1][..i] == keys[..i];
    }
    assert keys[..|keys|] == keys;
  }

  /** The assignment dictionary: `setdefault(user_id, []).append(site_id)`. */
  method CollectAssignments(assignments: seq<Assignment>) returns (byUser: map<Id, seq<Id>>)
    ensures forall user :: (if user in byUser then byUser[user] else []) == SitesOf(assignments, user)
  {
    byUser := map[];
    for i := 0 to |assignments|
      invariant forall user :: (if user in byUser then byUser[user] else []) == SitesOf(assignments[..i], user)
    {
      var a := assignments[i];
      byUser := byUser[a.user := (if a.user in byUser then byUser[a.user] else []) + [a.site]];
      assert assignments[..i + 1][..i] == assignments[..i];
    }
    assert assignments[..|assignments|] == assignments;
  }

  method BackfillGrants(roleId: (Id, Role) -> Id, assignments: seq<Assignment>, users: seq<User>)
    returns (grants: seq<Grant>)
    ensures grants == AllGrants(roleId, assignments, users)
  {
    hide GrantsFor, SitesOf, AllSites;
    var byUser := CollectAssignments(assignments);
    grants := [];
    for i := 0 to |users|
      invariant grants == AllGrants(roleId, assignments, users[..i])
    {
      var u := users[i];
      var scopeIds := if AllSites(u) then [u.org] else if u.id in byUser then byUser[u.id] else [];
      assert scopeIds == ScopeIds(assignments, u);
      var rows := BackfillUser(roleId, u, scopeIds);
      grants := grants + rows;
      assert users[..i + 1][..i] == users[..i];
    }
    assert users[..|users|] == users;
  }

  method BackfillUser(roleId: (Id, Role) -> Id, u: User, scopeIds: seq<Id>) returns (rows: seq<Grant>)
    ensures rows == GrantsFor(roleId, u, scopeIds)
  {
    hide GrantFor;
    rows := [];
    for j := 0 to |scopeIds|
      invariant rows == GrantsFor(roleId, u, scopeIds[..j])
    {
      rows := rows + [GrantFor(roleId, u, scopeIds[j])];
      assert scopeIds[..j + 1][..j] == scopeIds[..j];
    }
    assert scopeIds[..|scopeIds|] == scopeIds;
  }

  // ----- What the rows say -----

  lemma {:induction false} KeyRowsMean(roleId: (Id, Role) -> Id, keys: seq<Key>, org: Id, role: Role, p: RolePermission)
    ensures p in KeyRows(roleId, keys, org, role) <==>
      p.org == org && p.role == roleId(org, role) && p.key in keys && FrozenHolds(role, p.key)
  {
    hide FrozenHolds;
    if keys != [] {
      KeyRowsMean(roleId, keys[..|keys| - 1], org, role, p);
      assert keys == keys[..|keys| - 1] + [keys[|keys| - 1]];
    }
  }

  lemma {:induction false} PermissionRowsMean(roleId: (Id, Role) -> Id, keys: seq<Key>, org: Id, roles: seq<Role>,
                                              role: Role, k: Key, org': Id)
    requires DistinctRoleIds(roleId)
    ensures RolePermission(org', roleId(org', role), k) in PermissionRows(roleId, keys, org, roles) <==>
      org' == org && role in roles && k in keys && FrozenHolds(role, k)
  {
    hide FrozenHolds;
    if roles != [] {
      var last := roles[|roles| - 1];
      PermissionRowsMean(roleId, keys, org, roles[..|roles| - 1], role, k, org');
      KeyRowsMean(roleId, keys, org, last, RolePermission(org', roleId(org', role), k));
      assert roles == roles[..|roles| - 1] + [last];
    }
  }

  /** A backfilled role holds exactly the keys the frozen table gives it, in its own organization. */
  lemma {:induction false} RolesCarryFrozenKeys(roleId: (Id, Role) -> Id, keys: seq<Key>, orgs: seq<Id>, org: Id,
                                                role: Role, k: Key)
    requires DistinctRoleIds(roleId)
    ensures RolePermission(org, roleId(org, role), k) in AllPermissionRows(roleId, keys, orgs) <==>
      org in orgs && k in keys && FrozenHolds(role, k)
  {
    hide FrozenHolds;
    if orgs != [] {
      RolesCarryFrozenKeys(roleId, keys, orgs[..|orgs| - 1], org, role, k);
      PermissionRowsMean(roleId, keys, orgs[|orgs| - 1], ROLE_ORDER, role, k, org);
      EveryRoleIsWritten(role);
      assert orgs == orgs[..|orgs| - 1] + [orgs[|orgs| - 1]];
    }
  }

  lemma EveryRoleIsWritten(role: Role)
    ensures role in ROLE_ORDER
  {
    match role
    case Administrator => assert ROLE_ORDER[0] == role;
    case SecurityOperator => assert ROLE_ORDER[1] == role;
    case PentestApprover => assert ROLE_ORDER[2] == role;
    case RemediationOwner => assert ROLE_ORDER[3] == role;
    case Auditor => assert ROLE_ORDER[4] == role;
    case Viewer => assert ROLE_ORDER[5] == role;
  }

  predicate AssignedAnywhere(assignments: seq<Assignment>, user: Id, site: Id) {
    exists a :: a in assignments && a.user == user && a.site == site
  }

  lemma {:induction false} SitesOfMeans(assignments: seq<Assignment>, user: Id, site: Id)
    ensures site in SitesOf(assignments, user) <==> AssignedAnywhere(assignments, user, site)
  {
    if assignments != [] {
      var before, a := assignments[..|assignments| - 1], assignments[|assignments| - 1];
      SitesOfMeans(before, user, site);
      assert assignments == before + [a];
      if AssignedAnywhere(before, user, site) {
        var b :| b in before && b.user == user && b.site == site;
        assert b in assignments;
      }
      assert a in assignments;
    }
  }

  lemma {:induction false} GrantsForMean(roleId: (Id, Role) -> Id, u: User, scopeIds: seq<Id>, g: Grant)
    ensures g in GrantsFor(roleId, u, scopeIds) <==> g == GrantFor(roleId, u, g.scopeId) && g.scopeId in scopeIds
  {
    if scopeIds != [] {
      GrantsForMean(roleId, u, scopeIds[..|scopeIds| - 1], g);
      assert scopeIds == scopeIds[..|scopeIds| - 1] + [scopeIds[|scopeIds| - 1]];
    }
  }

  predicate DistinctUsers(users: seq<User>) {
    forall i, j :: 0 <= i < j < |users| ==> users[i].id != users[j].id
  }

  /** A user's grants are those the loop appended for that user. */
  lemma {:induction false} GrantsOfUser(roleId: (Id, Role) -> Id, assignments: seq<Assignment>, users: seq<User>,
                                        i: nat, g: Grant)
    requires DistinctUsers(users) && i < |users| && g.user == Some(users[i].id)
    ensures g in AllGrants(roleId, assignments, users) <==>
      g == GrantFor(roleId, users[i], g.scopeId) && g.scopeId in ScopeIds(assignments, users[i])
  {
    hide ScopeIds;
    var before, u := users[..|users| - 1], users[|users| - 1];
    GrantsForMean(roleId, u, ScopeIds(assignments, u), g);
    if i < |before| {
      GrantsOfUser(roleId, assignments, before, i, g);
    } else {
      NoGrantsOfOthers(roleId, assignments, before, g);
    }
  }

  lemma {:induction false} NoGrantsOfOthers(roleId: (Id, Role) -> Id, assignments: seq<Assignment>, users: seq<User>,
                                            g: Grant)
    requires forall u :: u in users ==> g.user != Some(u.id)
    ensures g !in AllGrants(roleId, assignments, users)
  {
    hide ScopeIds;
    if users != [] {
      var u := users[|users| - 1];
      GrantsForMean(roleId, u, ScopeIds(assignments, u), g);
      assert u in users;
      NoGrantsOfOthers(roleId, assignments, users[..|users| - 1], g);
    }
  }

  // ----- Access before and after -----

  datatype Legacy = Legacy(orgs: seq<Id>, sites: set<Site>, users: seq<User>, assignments: seq<Assignment>)

  /** What the schema guarantees before the migration: user ids are unique, every user's organization
      exists, a user is assigned to a site once, and nobody is migrated yet. */
  predicate WellFormed(l: Legacy) {
    && DistinctUsers(l.users)
    && (forall u :: u in l.users ==> u.org in l.orgs && !u.migrated)
    && (forall a, b :: a in l.assignments && b in l.assignments && a.user == b.user && a.site == b.site ==> a == b)
  }

  ghost predicate FrozenCatalogue(keys: seq<Key>) {
    forall k :: k in keys <==> FrozenKnown(k)
  }

  function Before(l: Legacy): Tables {
    Tables(l.sites, set a | a in l.assignments, {}, {})
  }

  ghost function After(roleId: (Id, Role) -> Id, keys: seq<Key>, l: Legacy): Tables {
    Tables(l.sites, set a | a in l.assignments,
           set g | g in AllGrants(roleId, l.assignments, l.users),
           set p | p in AllPermissionRows(roleId, keys, l.orgs))
  }

  function Migrated(u: User): Principal {
    Person(u.(migrated := true))
  }

  /** With the backfilled grants a user's access is what the user's role carries, for every site or for
      the assigned ones. */
  lemma AccessFromGrants(roleId: (Id, Role) -> Id, l: Legacy, db: Tables, i: nat, site: Id, key: Option<Key>)
    requires WellFormed(l) && i < |l.users|
    requires db.sites == l.sites && db.grants == set g | g in AllGrants(roleId, l.assignments, l.users)
    requires Site(site, l.users[i].org) in l.sites && (key.Some? ==> Known(key.value))
    ensures var u := l.users[i];
      CanAccessSite(db, Migrated(u), site, key) == Success(
        && Carries(db, u.org, roleId(u.org, u.role), key)
        && (AllSites(u) || ((key.Some? ==> SiteScoped(key.value)) && AssignedAnywhere(l.assignments, u.id, site))))
  {
    hide Known, SiteScoped, AllGrants;
    var u := l.users[i];
    SitesOfMeans(l.assignments, u.id, site);
    var wide, narrow := GrantFor(roleId, u, u.org), GrantFor(roleId, u, site);
    GrantsOfUser(roleId, l.assignments, l.users, i, wide);
    GrantsOfUser(roleId, l.assignments, l.users, i, narrow);
    forall g | g in db.grants && g.user == Some(u.id)
      ensures g == GrantFor(roleId, u, g.scopeId) && g.scopeId in ScopeIds(l.assignments, u)
    {
      GrantsOfUser(roleId, l.assignments, l.users, i, g);
    }
    assert AllSites(u) ==> wide in db.grants;
    assert !AllSites(u) && AssignedAnywhere(l.assignments, u.id, site) ==> narrow in db.grants;
  }

  /** Access after the migration, in closed form. */
  lemma AccessAfter(roleId: (Id, Role) -> Id, keys: seq<Key>, l: Legacy, i: nat, site: Id, key: Option<Key>)
    requires DistinctRoleIds(roleId) && FrozenCatalogue(keys) && WellFormed(l) && i < |l.users|
    requires Site(site, l.users[i].org) in l.sites && (key.Some? ==> Known(key.value))
    ensures var u := l.users[i];
      CanAccessSite(After(roleId, keys, l), Migrated(u), site, key) == Success(
        && (key.Some? ==> FrozenHolds(u.role, key.value))
        && (AllSites(u) || ((key.Some? ==> SiteScoped(key.value)) && AssignedAnywhere(l.assignments, u.id, site))))
  {
    hide FrozenHolds, Known, SiteScoped, FrozenKnown, AllGrants, AllPermissionRows, CanAccessSite, Carries, AllSites;
    var u := l.users[i];
    assert u in l.users;
    CarriesAfter(roleId, keys, l, u, key);
    AccessFromGrants(roleId, l, After(roleId, keys, l), i, site, key);
  }

  lemma CarriesAfter(roleId: (Id, Role) -> Id, keys: seq<Key>, l: Legacy, u: User, key: Option<Key>)
    requires DistinctRoleIds(roleId) && FrozenCatalogue(keys) && u.org in l.orgs
    ensures Carries(After(roleId, keys, l), u.org, roleId(u.org, u.role), key) <==>
      key.Some? ==> FrozenHolds(u.role, key.value)
  {
    hide FrozenKnown, AllGrants, AllPermissionRows;
    if key.Some? {
      RolesCarryFrozenKeys(roleId, keys, l.orgs, u.org, u.role, key.value);
    }
  }

  /** The assignment row for this user and site, if there is one, is filed under the user's organization. */
  predicate Integral(assignments: seq<Assignment>, u: User, site: Id) {
    forall a :: a in assignments && a.user == u.id && a.site == site ==> a.org == u.org
  }

  lemma AssignedBefore(l: Legacy, u: User, site: Id)
    requires WellFormed(l)
    ensures AssignedTo(Before(l), u, site) <==>
      AssignedAnywhere(l.assignments, u.id, site) && Integral(l.assignments, u, site)
  {
    if AssignedTo(Before(l), u, site) {
      assert Assignment(u.org, u.id, site) in l.assignments;
    }
  }

  /** With no permission key the migration preserves access, unless an assignment row is filed under
      another organization: the legacy rule ignored such a row and the migration turns it into a grant. */
  lemma SiteAccessIsPreserved(roleId: (Id, Role) -> Id, keys: seq<Key>, l: Legacy, i: nat, site: Id)
    requires DistinctRoleIds(roleId) && FrozenCatalogue(keys) && WellFormed(l) && i < |l.users|
    requires Site(site, l.users[i].org) in l.sites
    ensures var u := l.users[i];
      CanAccessSite(After(roleId, keys, l), Migrated(u), site, None) == CanAccessSite(Before(l), Person(u), site, None)
      <==> AllSites(u) || Integral(l.assignments, u, site)
  {
    var u := l.users[i];
    assert u in l.users;
    AccessAfter(roleId, keys, l, i, site, None);
    AssignedBefore(l, u, site);
  }

  /** The two role tables give this key differently to this role: today's key set and the frozen one
      differ only as `TablesDiffer` says. */
  predicate TablesDisagree(role: Role, k: Key) {
    (role.PentestApprover? && k == Key(Pentest, Request)) || (Holds(role, k) && Newer(k.area))
  }

  /** With a site-scoped key access is preserved exactly when the role tables agree on it, or there was
      no access to the site to begin with. */
  lemma SiteKeysArePreserved(roleId: (Id, Role) -> Id, keys: seq<Key>, l: Legacy, i: nat, site: Id, k: Key)
    requires DistinctRoleIds(roleId) && FrozenCatalogue(keys) && WellFormed(l) && i < |l.users|
    requires Site(site, l.users[i].org) in l.sites && SiteScoped(k) && Integral(l.assignments, l.users[i], site)
    ensures var u := l.users[i];
      CanAccessSite(After(roleId, keys, l), Migrated(u), site, Some(k)) ==
        CanAccessSite(Before(l), Person(u), site, Some(k))
      <==> !TablesDisagree(u.role, k) || CanAccessSite(Before(l), Person(u), site, None) == Success(false)
  {
    var u := l.users[i];
    assert u in l.users;
    assert Known(k);
    AccessAfter(roleId, keys, l, i, site, Some(k));
    AssignedBefore(l, u, site);
    TablesDiffer(u.role, k);
    hide FrozenHolds, Holds, Known, SiteScoped, Newer;
  }

  /** A key without site scope now takes an organization grant: users limited to assigned sites lose it,
      everyone else keeps it where the role tables agree. */
  lemma OrganizationKeysNeedOrganizationGrants(roleId: (Id, Role) -> Id, keys: seq<Key>, l: Legacy, i: nat, site: Id,
                                               k: Key)
    requires DistinctRoleIds(roleId) && FrozenCatalogue(keys) && WellFormed(l) && i < |l.users|
    requires Site(site, l.users[i].org) in l.sites && Known(k) && !SiteScoped(k)
      && Integral(l.assignments, l.users[i], site)
    ensures var u := l.users[i];
      CanAccessSite(After(roleId, keys, l), Migrated(u), site, Some(k)) ==
        CanAccessSite(Before(l), Person(u), site, Some(k))
      <==> if AllSites(u) then !TablesDisagree(u.role, k)
           else CanAccessSite(Before(l), Person(u), site, Some(k)) == Success(false)
  {
    var u := l.users[i];
    assert u in l.users;
    AccessAfter(roleId, keys, l, i, site, Some(k));
    AssignedBefore(l, u, site);
    TablesDiffer(u.role, k);
    hide FrozenHolds, Holds, Known, SiteScoped, Newer;
  }

  /** An unknown key was refused before; afterwards it is an error, for every user and site. */
  lemma UnknownKeysNowFail(roleId: (Id, Role) -> Id, keys: seq<Key>, l: Legacy, i: nat, site: Id, k: Key)
    requires WellFormed(l) && i < |l.users| && !Known(k)
    ensures var u := l.users[i];
      && CanAccessSite(Before(l), Person(u), site, Some(k)) == Success(false)
      && CanAccessSite(After(roleId, keys, l), Migrated(u), site, Some(k)) == Failure(UnknownPermissionKey)
  {
  }

  /** The one permission the migration gives away: an approver who could see a site may now also request
      a pentest there. */
  lemma ApproversMayRequest(roleId: (Id, Role) -> Id, keys: seq<Key>, l: Legacy, i: nat, site: Id)
    requires DistinctRoleIds(roleId) && FrozenCatalogue(keys) && WellFormed(l) && i < |l.users|
    requires Site(site, l.users[i].org) in l.sites && l.users[i].role.PentestApprover? && l.users[i].mode.All?
    ensures var u, k := l.users[i], Some(Key(Pentest, Request));
      && CanAccessSite(Before(l), Person(u), site, k) == Success(false)
      && CanAccessSite(After(roleId, keys, l), Migrated(u), site, k) == Success(true)
  {
    var u, k := l.users[i], Key(Pentest, Request);
    assert u in l.users;
    AccessAfter(roleId, keys, l, i, site, Some(k));
    TablesDiffer(u.role, k);
  }

  // ----- When the application synchronizes the built-in roles -----

  ghost predicate Catalogue(keys: seq<Key>) {
    forall k :: k in keys <==> Known(k)
  }

  /** One role in `ensure_builtin_roles`: missing keys are added, keys outside today's table deleted. */
  method SynchronizeRole(permissions: set<RolePermission>, keys: seq<Key>, org: Id, id: Id, role: Role)
    returns (r: set<RolePermission>)
    requires Catalogue(keys) && forall p :: p in permissions && p.role == id ==> p.org == org
    ensures forall p :: p in r <==> if p.role == id then p.org == org && Holds(role, p.key) else p in permissions
  {
    hide Extras, Known, Common;
    var added := permissions;
    for i := 0 to |keys|
      invariant forall p :: p in added <==>
        p in permissions || (p.org == org && p.role == id && p.key in keys[..i] && Holds(role, p.key))
    {
      if Holds(role, keys[i]) {
        added := added + {RolePermission(org, id, keys[i])};
      }
      assert keys[..i + 1] == keys[..i] + [keys[i]];
    }
    assert keys[..|keys|] == keys;
    r := set p | p in added && (p.role == id ==> Holds(role, p.key));
  }

  predicate IsBuiltIn(roleId: (Id, Role) -> Id, org: Id, roles: seq<Role>, id: Id) {
    exists role :: role in roles && id == roleId(org, role)
  }

  /** In this organization the built-in roles hold exactly today's keys; every other row is as it was. */
  ghost predicate Synchronized(roleId: (Id, Role) -> Id, org: Id, roles: seq<Role>, before: set<RolePermission>,
                               after: set<RolePermission>) {
    && (forall role, p: RolePermission :: role in roles && p.role == roleId(org, role) ==>
          (p in after <==> p.org == org && Holds(role, p.key)))
    && (forall p: RolePermission :: !IsBuiltIn(roleId, org, roles, p.role) ==> (p in after <==> p in before))
  }

  /** `ensure_builtin_roles` for an organization whose roles exist. */
  method EnsureBuiltinRoles(roleId: (Id, Role) -> Id, permissions: set<RolePermission>, keys: seq<Key>, org: Id)
    returns (r: set<RolePermission>)
    requires DistinctRoleIds(roleId) && Catalogue(keys)
    requires forall p, role :: p in permissions && p.role == roleId(org, role) ==> p.org == org
    ensures Synchronized(roleId, org, ROLE_ORDER, permissions, r)
  {
    hide Holds;
    r := permissions;
    var order := ROLE_ORDER;
    for i := 0 to |order|
      invariant Synchronized(roleId, org, order[..i], permissions, r)
      invariant forall p, role :: p in r && p.role == roleId(org, role) ==> p.org == org
    {
      ghost var before := r;
      r := SynchronizeRole(r, keys, org, roleId(org, order[i]), order[i]);
      assert order[..i + 1] == order[..i] + [order[i]];
      SynchronizedStep(roleId, org, order[..i], order[i], permissions, before, r);
    }
    assert order[..|order|] == order;
  }

  lemma SynchronizedStep(roleId: (Id, Role) -> Id, org: Id, roles: seq<Role>, role: Role,
                         before: set<RolePermission>, r: set<RolePermission>, r': set<RolePermission>)
    requires DistinctRoleIds(roleId) && Synchronized(roleId, org, roles, before, r)
    requires forall p :: p in r' <==> if p.role == roleId(org, role) then p.org == org && Holds(role, p.key) else p in r
    ensures Synchronized(roleId, org, roles + [role], before, r')
  {
    hide Holds;
    forall x, p: RolePermission | x in roles + [role] && p.role == roleId(org, x)
      ensures p in r' <==> p.org == org && Holds(x, p.key)
    {
      assert x != role ==> x in roles;
    }
    forall p: RolePermission | !IsBuiltIn(roleId, org, roles + [role], p.role) ensures p in r' <==> p in before {
      assert role in roles + [role] && forall x :: x in roles ==> x in roles + [role];
    }
  }

  lemma {:induction false} RowOfRole(roleId: (Id, Role) -> Id, keys: seq<Key>, org: Id, roles: seq<Role>,
                                     p: RolePermission)
    requires p in PermissionRows(roleId, keys, org, roles)
    ensures p.org == org && IsBuiltIn(roleId, org, ROLE_ORDER, p.role)
  {
    hide KeyRows;
    var last, before := roles[|roles| - 1], roles[..|roles| - 1];
    KeyRowsMean(roleId, keys, org, last, p);
    EveryRoleIsWritten(last);
    if p in PermissionRows(roleId, keys, org, before) {
      RowOfRole(roleId, keys, org, before, p);
    }
  }

  /** The backfilled rows are ready for it: a row of an organization's role is that organization's. */
  lemma {:induction false} BackfilledRowsAreOwn(roleId: (Id, Role) -> Id, keys: seq<Key>, orgs: seq<Id>, org: Id,
                                                role: Role, p: RolePermission)
    requires DistinctRoleIds(roleId) && p in AllPermissionRows(roleId, keys, orgs) && p.role == roleId(org, role)
    ensures p.org == org
  {
    hide PermissionRows;
    var last, before := orgs[|orgs| - 1], orgs[..|orgs| - 1];
    if p in AllPermissionRows(roleId, keys, before) {
      BackfilledRowsAreOwn(roleId, keys, before, org, role, p);
    } else {
      RowOfRole(roleId, keys, last, ROLE_ORDER, p);
    }
  }

  /** Once the roles have been synchronized, the migration has preserved access with every site-scoped
      key, whatever the frozen table said; what it gave approvers is gone. */
  lemma SynchronizationRestoresAccess(roleId: (Id, Role) -> Id, keys: seq<Key>, l: Legacy, i: nat, site: Id, k: Key,
                                      after: set<RolePermission>)
    requires DistinctRoleIds(roleId) && WellFormed(l) && i < |l.users|
    requires Synchronized(roleId, l.users[i].org, ROLE_ORDER, After(roleId, keys, l).permissions, after)
    requires Site(site, l.users[i].org) in l.sites && SiteScoped(k) && Integral(l.assignments, l.users[i], site)
    ensures var u, db := l.users[i], After(roleId, keys, l).(permissions := after);
      CanAccessSite(db, Migrated(u), site, Some(k)) == CanAccessSite(Before(l), Person(u), site, Some(k))
  {
    var u, db := l.users[i], After(roleId, keys, l).(permissions := after);
    assert u in l.users;
    assert Known(k);
    EveryRoleIsWritten(u.role);
    AssignedBefore(l, u, site);
    hide Holds, Known, SiteScoped, AllGrants, AllPermissionRows;
    AccessFromGrants(roleId, l, db, i, site, Some(k));
    assert Carries(db, u.org, roleId(u.org, u.role), Some(k)) <==> Holds(u.role, k);
  }
}
