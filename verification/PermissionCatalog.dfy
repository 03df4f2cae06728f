/** Permission keys, the catalogue in use today, and the catalogue and role tables frozen into the grant
    migration. A key is written `area.verb`; every combination that is in no catalogue is an unknown key. */
module PermissionCatalog {
  datatype Area =
    | System | Organization | Users | Roles | Tokens | ServiceAccounts | Sessions | Identity | Scim
    | Sites | Scopes | Networks | Scouts | Relays | Schedules | Jobs | Credentials | Assets | Software
    | Findings | Remediation | Sla | Ticketing | Connectors | Reconciliation | Analytics
    | ReportTemplates | Pentest | Workflows | RiskAcceptance | Reports | Audit | Feeds | Notifications
    | Privacy | Maintenance | Portability | Diagnostics | Presets | Resources | Onboarding | Demo | Tasks

  datatype Verb = Admin | Read | Manage | Self | Create | Use | Sync | Run | Request | Approve

  datatype Key = Key(area: Area, verb: Verb)

  datatype Role = Administrator | SecurityOperator | PentestApprover | RemediationOwner | Auditor | Viewer

  // ----- Catalogues -----

  /** `ALL_PERMISSION_KEYS`. */
  predicate Known(k: Key) {
    match k.verb
    case Admin => k.area.System?
    case Read =>
      !k.area.Organization? && !k.area.Tokens? && !k.area.ServiceAccounts? && !k.area.Sessions?
      && !k.area.Identity? && !k.area.Scim?
    case Manage =>
      !k.area.System? && !k.area.Tokens? && !k.area.Analytics? && !k.area.Pentest? && !k.area.Workflows?
      && !k.area.Reports? && !k.area.Audit?
    case Self => k.area.Tokens? || k.area.Sessions? || k.area.Identity?
    case Create => k.area.Jobs? || k.area.Reports?
    case Use => k.area.Credentials?
    case Sync => k.area.Ticketing?
    case Run => k.area.Connectors? || k.area.Workflows?
    case Request => k.area.Pentest?
    case Approve => k.area.Pentest? || k.area.Workflows? || k.area.RiskAcceptance?
  }

  /** The keys whose definition lists the site scope. */
  predicate SiteScoped(k: Key) {
    Known(k) &&
    match k.verb
    case Read =>
      k.area.Sites? || k.area.Scopes? || k.area.Networks? || k.area.Scouts? || k.area.Relays?
      || k.area.Schedules? || k.area.Jobs? || k.area.Assets? || k.area.Software? || k.area.Findings?
      || k.area.Remediation? || k.area.Sla? || k.area.Ticketing? || k.area.Connectors?
      || k.area.Reconciliation? || k.area.Analytics? || k.area.ReportTemplates? || k.area.Pentest?
      || k.area.Workflows? || k.area.RiskAcceptance? || k.area.Reports? || k.area.Presets?
    case Manage =>
      k.area.Networks? || k.area.Schedules? || k.area.Jobs? || k.area.Assets? || k.area.Software?
      || k.area.Findings? || k.area.Remediation? || k.area.Sla? || k.area.Connectors?
      || k.area.Reconciliation? || k.area.ReportTemplates? || k.area.Presets?
    case Create | Use | Sync | Run | Request | Approve => true
    case Admin | Self => false
  }

  /** The migration's own `_PERMISSIONS`. */
  predicate FrozenKnown(k: Key) {
    match k.verb
    case Admin => k.area.System?
    case Read =>
      k.area.System? || k.area.Users? || k.area.Roles? || k.area.Sites? || k.area.Scopes? || k.area.Networks?
      || k.area.Scouts? || k.area.Relays? || k.area.Schedules? || k.area.Jobs? || k.area.Assets?
      || k.area.Findings? || k.area.Remediation? || k.area.Pentest? || k.area.Workflows?
      || k.area.RiskAcceptance? || k.area.Reports? || k.area.Audit? || k.area.Feeds? || k.area.Notifications?
      || k.area.Privacy? || k.area.Maintenance? || k.area.Portability? || k.area.Diagnostics?
      || k.area.Presets? || k.area.Resources? || k.area.Onboarding? || k.area.Demo? || k.area.Tasks?
    case Manage =>
      k.area.Organization? || k.area.Users? || k.area.Roles? || k.area.ServiceAccounts? || k.area.Sessions?
      || k.area.Identity? || k.area.Scim? || k.area.Sites? || k.area.Scopes? || k.area.Networks?
      || k.area.Scouts? || k.area.Relays? || k.area.Schedules? || k.area.Jobs? || k.area.Assets?
      || k.area.Findings? || k.area.Remediation? || k.area.RiskAcceptance? || k.area.Feeds?
      || k.area.Notifications? || k.area.Privacy? || k.area.Maintenance? || k.area.Portability?
      || k.area.Diagnostics? || k.area.Presets? || k.area.Resources? || k.area.Onboarding? || k.area.Demo?
      || k.area.Tasks?
    case Self => k.area.Tokens? || k.area.Sessions? || k.area.Identity?
    case Create => k.area.Jobs? || k.area.Reports?
    case Run => k.area.Workflows?
    case Request => k.area.Pentest?
    case Approve => k.area.Pentest? || k.area.Workflows? || k.area.RiskAcceptance?
    case Use | Sync => false
  }

  // ----- Role tables -----

  /** The keys of `.read`, less the privileged ones, and the self-service keys: every role has these. */
  predicate Common(k: Key) {
    k.verb.Self? || (k.verb.Read? && !k.area.Audit? && !k.area.Roles? && !k.area.Tasks? && !k.area.Users?)
  }

  /** `BUILTIN_ROLE_PERMISSIONS`. */
  predicate Holds(role: Role, k: Key) {
    Known(k) && (role.Administrator? || Common(k) || k in Extras(role))
  }

  function Extras(role: Role): set<Key> {
    match role
    case SecurityOperator =>
      {Key(Networks, Manage), Key(Schedules, Manage), Key(Jobs, Create), Key(Jobs, Manage),
       Key(Credentials, Use), Key(Assets, Manage), Key(Findings, Manage), Key(Remediation, Manage),
       Key(Sla, Manage), Key(Ticketing, Sync), Key(Connectors, Run), Key(Reconciliation, Manage),
       Key(Pentest, Request), Key(Workflows, Run), Key(Reports, Create), Key(Presets, Manage)}
    case PentestApprover =>
      {Key(Jobs, Create), Key(Pentest, Approve), Key(Workflows, Approve), Key(RiskAcceptance, Approve),
       Key(Reports, Create)}
    case RemediationOwner => {Key(Remediation, Manage), Key(Reports, Create)}
    case Auditor => {Key(Audit, Read)}
    case Administrator | Viewer => {}
  }

  /** The migration's own `_ROLE_PERMISSIONS`. */
  predicate FrozenHolds(role: Role, k: Key) {
    FrozenKnown(k) && (role.Administrator? || Common(k) || k in FrozenExtras(role))
  }

  function FrozenExtras(role: Role): set<Key> {
    match role
    case SecurityOperator =>
      {Key(Networks, Manage), Key(Schedules, Manage), Key(Jobs, Create), Key(Jobs, Manage),
       Key(Assets, Manage), Key(Findings, Manage), Key(Remediation, Manage), Key(Pentest, Request),
       Key(Workflows, Run), Key(Reports, Create), Key(Presets, Manage)}
    case PentestApprover =>
      {Key(Jobs, Create), Key(Pentest, Request), Key(Pentest, Approve), Key(Workflows, Approve),
       Key(RiskAcceptance, Approve), Key(Reports, Create)}
    case RemediationOwner => {Key(Remediation, Manage), Key(Reports, Create)}
    case Auditor => {Key(Audit, Read)}
    case Administrator | Viewer => {}
  }

  /** An area that came after the migration was frozen. */
  predicate Newer(a: Area) {
    a.Credentials? || a.Software? || a.Sla? || a.Ticketing? || a.Connectors? || a.Reconciliation?
    || a.Analytics? || a.ReportTemplates?
  }

  /** Exactly where the two role tables differ. The frozen table grants one thing today's does not: a
      pentest approver may request a pentest. It lacks only what belongs to areas added since. */
  lemma TablesDiffer(role: Role, k: Key)
    ensures FrozenHolds(role, k) && !Holds(role, k) <==> role.PentestApprover? && k == Key(Pentest, Request)
    ensures Holds(role, k) && !FrozenHolds(role, k) <==> Holds(role, k) && Newer(k.area)
  {
  }

  /** The roles as they are meant: the administrator may do everything; everybody may use the self-service
      keys and read what is not privileged; privileged reading is the auditor's, and only of the audit log;
      a viewer may do nothing else, and only an approver approves. */
  lemma RolesMean(role: Role, k: Key)
    ensures Holds(role, k) ==> Known(k)
    ensures Known(k) ==> Holds(Administrator, k)
    ensures Known(k) && k.verb.Self? ==> Holds(role, k)
    ensures Known(k) && k.verb.Read? && k.area !in {Audit, Roles, Tasks, Users} ==> Holds(role, k)
    ensures k.verb.Read? && k.area in {Audit, Roles, Tasks, Users} && Holds(role, k) ==>
      role.Administrator? || (role.Auditor? && k.area.Audit?)
    ensures k.area.Audit? && k.verb.Read? ==> (Holds(role, k) <==> role.Administrator? || role.Auditor?)
    ensures Holds(Viewer, k) ==> k.verb.Read? || k.verb.Self?
    ensures k.verb.Approve? && Holds(role, k) ==> role.Administrator? || role.PentestApprover?
  {
  }

  /** The catalogue only ever grew, by whole areas. */
  lemma KeysAdded(k: Key)
    ensures FrozenKnown(k) <==> Known(k) && !Newer(k.area)
  {}
}
