/** The three ways the server decides which sites a principal may reach: a filter for queries, a check of
    one site, and the set of all accessible sites. Tables are sets of rows; the columns that never enter
    a decision are dropped. */
module SiteScope {
  import opened Wrappers
  import opened PermissionCatalog

  type Id = string

  datatype Mode = All | Assigned

  datatype User = User(id: Id, org: Id, role: Role, mode: Mode, migrated: bool)

  datatype Principal = Person(user: User) | ServiceAccount(id: Id, org: Id)

  datatype Scope = OrganizationScope | SiteScope

  datatype Site = Site(id: Id, org: Id)

  datatype Assignment = Assignment(org: Id, user: Id, site: Id)

  datatype Grant = Grant(org: Id, user: Option<Id>, service: Option<Id>, role: Id, scope: Scope, scopeId: Id)

  datatype RolePermission = RolePermission(org: Id, role: Id, key: Key)

  datatype Tables = Tables(sites: set<Site>, assignments: set<Assignment>, grants: set<Grant>,
                           permissions: set<RolePermission>)

  datatype KeyError = UnknownPermissionKey

  function OrgOf(p: Principal): Id {
    if p.Person? then p.user.org else p.org
  }

  predicate UsesLegacyScope(p: Principal) {
    p.Person? && !p.user.migrated
  }

  predicate HasAllSiteAccess(p: Principal) {
    UsesLegacyScope(p) && (p.user.role.Administrator? || p.user.mode.All?)
  }

  /** `principal_filter`. */
  predicate Matches(g: Grant, p: Principal) {
    if p.Person? then g.user == Some(p.user.id) else g.service == Some(p.id)
  }

  /** A grant's role carries the key, or no key is asked for. */
  predicate Carries(db: Tables, org: Id, role: Id, key: Option<Key>) {
    key.Some? ==> RolePermission(org, role, key.value) in db.permissions
  }

  predicate OrganizationGrant(db: Tables, p: Principal, key: Option<Key>) {
    exists g :: g in db.grants && g.org == OrgOf(p) && Matches(g, p)
      && g.scope.OrganizationScope? && g.scopeId == OrgOf(p) && Carries(db, OrgOf(p), g.role, key)
  }

  predicate SiteGrant(db: Tables, p: Principal, site: Id, key: Option<Key>) {
    exists g :: g in db.grants && g.org == OrgOf(p) && Matches(g, p)
      && g.scope.SiteScope? && g.scopeId == site && Carries(db, OrgOf(p), g.role, key)
  }

  predicate AssignedTo(db: Tables, u: User, site: Id) {
    Assignment(u.org, u.id, site) in db.assignments
  }

  predicate OwnSite(db: Tables, p: Principal, site: Id) {
    Site(site, OrgOf(p)) in db.sites
  }

  // ----- The three computations -----

  function SiteScopeClause(db: Tables, p: Principal, site: Id, key: Option<Key>): Result<bool, KeyError> {
    if UsesLegacyScope(p) then
      if key.Some? && !Holds(p.user.role, key.value) then Success(false)
      else if p.user.role.Administrator? || p.user.mode.All? then Success(true)
      else if !p.user.mode.Assigned? then Success(false)
      else Success(AssignedTo(db, p.user, site))
    else if key.Some? && !Known(key.value) then Failure(UnknownPermissionKey)
    else if key.Some? && !SiteScoped(key.value) then Success(OrganizationGrant(db, p, key))
    else Success(OrganizationGrant(db, p, key) || SiteGrant(db, p, site, key))
  }

  function CanAccessSite(db: Tables, p: Principal, site: Id, key: Option<Key>): Result<bool, KeyError> {
    if UsesLegacyScope(p) then
      if key.Some? && !Holds(p.user.role, key.value) then Success(false)
      else if HasAllSiteAccess(p) then Success(OwnSite(db, p, site))
      else Success(AssignedTo(db, p.user, site) && OwnSite(db, p, site))
    else
      match SiteScopeClause(db, p, site, key)
      case Success(allowed) => Success(OwnSite(db, p, site) && allowed)
      case Failure(e) => Failure(e)
  }

  /** `None` stands for every site. */
  function AccessibleSiteIds(db: Tables, p: Principal, key: Option<Key>): Result<Option<set<Id>>, KeyError> {
    if UsesLegacyScope(p) then
      if key.Some? && !Holds(p.user.role, key.value) then Success(Some({}))
      else if HasAllSiteAccess(p) then Success(None)
      else Success(Some(set a | a in db.assignments && a.org == p.user.org && a.user == p.user.id :: a.site))
    else if key.Some? && !Known(key.value) then Failure(UnknownPermissionKey)
    else if OrganizationGrant(db, p, key) then Success(None)
    else if key.Some? && !SiteScoped(key.value) then Success(Some({}))
    else
      Success(Some(set g |
        && g in db.grants && g.org == OrgOf(p) && Matches(g, p) && g.scope.SiteScope?
        && OwnSite(db, p, g.scopeId) && Carries(db, OrgOf(p), g.role, key) :: g.scopeId))
  }

  // ----- Agreement -----

  predicate Lists(ids: Option<set<Id>>, site: Id) {
    ids.None? || site in ids.value
  }

  /** For a site of the principal's organization all three agree, in grant mode and in both legacy modes,
      with any permission key or none, and fail on the same keys. */
  lemma ComputationsAgree(db: Tables, p: Principal, site: Id, key: Option<Key>)
    requires OwnSite(db, p, site)
    ensures CanAccessSite(db, p, site, key) == SiteScopeClause(db, p, site, key)
    ensures AccessibleSiteIds(db, p, key).Failure? <==> CanAccessSite(db, p, site, key).Failure?
    ensures AccessibleSiteIds(db, p, key).Success? ==>
      (CanAccessSite(db, p, site, key) == Success(true) <==> Lists(AccessibleSiteIds(db, p, key).value, site))
  {
  }

  /** A site of another organization is never accessible; the id set names one only for a legacy user in
      assigned mode whose assignment row points there. */
  lemma ForeignSites(db: Tables, p: Principal, site: Id, key: Option<Key>)
    requires !OwnSite(db, p, site)
    ensures CanAccessSite(db, p, site, key) != Success(true)
    ensures var ids := AccessibleSiteIds(db, p, key);
      ids.Success? && ids.value.Some? && site in ids.value.value <==>
        && UsesLegacyScope(p) && !HasAllSiteAccess(p) && AssignedTo(db, p.user, site)
        && (key.None? || Holds(p.user.role, key.value))
  {
  }

  /** Asking for a permission as well never widens access. */
  lemma KeyOnlyNarrows(db: Tables, p: Principal, site: Id, key: Key)
    requires CanAccessSite(db, p, site, Some(key)) == Success(true)
    ensures CanAccessSite(db, p, site, None) == Success(true)
  {
  }

  /** One more grant never takes access away, and it gives exactly what it says: to the principal it
      names, for its own scope and for the keys its role carries. */
  lemma GrantGivesExactlyItsScope(db: Tables, g: Grant, p: Principal, site: Id, key: Option<Key>)
    requires !UsesLegacyScope(p) && OwnSite(db, p, site) && (key.Some? ==> Known(key.value))
    ensures var db' := db.(grants := db.grants + {g});
      CanAccessSite(db', p, site, key) == Success(true) <==>
        || CanAccessSite(db, p, site, key) == Success(true)
        || (g.org == OrgOf(p) && Matches(g, p) && Carries(db, OrgOf(p), g.role, key) && Reaches(g, p, site, key))
  {
  }

  predicate Reaches(g: Grant, p: Principal, site: Id, key: Option<Key>) {
    if g.scope.OrganizationScope? then g.scopeId == OrgOf(p)
    else g.scopeId == site && (key.None? || SiteScoped(key.value))
  }
}
