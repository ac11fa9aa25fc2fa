/** The built-in roles: each lists flat permissions and has policy rules. */
module BuiltinRoles {
  import D = Delimited
  import opened Wrappers
  import opened AccessRules
  import opened FlatPermissions

  // ---------- The permission constants ----------

  datatype Module = Kubernetes | Admin | ArgoCD | Helm

  datatype Resource =
    | Pods | Deployments | Metrics | Nodes | Quota | Namespaces | CronJobs
    | Users | RBAC | Audit | Apps | Freeze | Releases

  datatype Action =
    | List | Get | Logs | Events | Restart | Delete | Scale | View | Cordon | Drain | Manage | Diff | Sync | Rollback

  /** Every constant of the program has this form, and every list it converts is made of constants. */
  datatype Permission = Permission(moduleName: Module, resource: Resource, action: Action)

  function ModuleText(m: Module): string {
    match m
    case Kubernetes => "kubernetes"
    case Admin => "admin"
    case ArgoCD => "argocd"
    case Helm => "helm"
  }

  function ResourceText(r: Resource): string {
    match r
    case Pods => "pods"
    case Deployments => "deployments"
    case Metrics => "metrics"
    case Nodes => "nodes"
    case Quota => "quota"
    case Namespaces => "namespaces"
    case CronJobs => "cronjobs"
    case Users => "users"
    case RBAC => "rbac"
    case Audit => "audit"
    case Apps => "apps"
    case Freeze => "freeze"
    case Releases => "releases"
  }

  function ActionText(a: Action): string {
    match a
    case List => "list"
    case Get => "get"
    case Logs => "logs"
    case Events => "events"
    case Restart => "restart"
    case Delete => "delete"
    case Scale => "scale"
    case View => "view"
    case Cordon => "cordon"
    case Drain => "drain"
    case Manage => "manage"
    case Diff => "diff"
    case Sync => "sync"
    case Rollback => "rollback"
  }

  function Text(p: Permission): string {
    Flat(ModuleText(p.moduleName), ResourceText(p.resource), ActionText(p.action))
  }

  function Texts(perms: seq<Permission>): seq<string> {
    seq(|perms|, i requires 0 <= i < |perms| => Text(perms[i]))
  }

  lemma {:induction false} ModuleIsWord(m: Module)
    ensures Word(ModuleText(m))
  {
    match m case Kubernetes => case Admin => case ArgoCD => case Helm =>
  }

  lemma {:induction false} ResourceIsWord(r: Resource)
    ensures Word(ResourceText(r))
  {
  }

  lemma {:induction false} ActionIsWord(a: Action)
    ensures Word(ActionText(a))
  {
  }

  lemma {:induction false} TextsArePlain(perms: seq<Permission>)
    ensures forall p :: p in Texts(perms) ==> Plain(p)
  {
    forall p: Permission ensures Plain(Text(p)) {
      ModuleIsWord(p.moduleName);
      ResourceIsWord(p.resource);
      ActionIsWord(p.action);
      FlatIsPlain(ModuleText(p.moduleName), ResourceText(p.resource), ActionText(p.action));
    }
  }

  // ---------- The roles ----------

  const VIEWER_PERMISSIONS := [
    Permission(Kubernetes, Pods, List),
    Permission(Kubernetes, Pods, Get),
    Permission(Kubernetes, Pods, Logs),
    Permission(Kubernetes, Pods, Events),
    Permission(Kubernetes, Metrics, View),
    Permission(Kubernetes, Nodes, View),
    Permission(Kubernetes, Quota, View),
    Permission(Kubernetes, Namespaces, List),
    Permission(Kubernetes, Deployments, List),
    Permission(Kubernetes, CronJobs, List),
    Permission(ArgoCD, Apps, List),
    Permission(ArgoCD, Apps, View)]

  const OPERATOR_PERMISSIONS := VIEWER_PERMISSIONS + [
    Permission(Kubernetes, Pods, Restart),
    Permission(Kubernetes, Deployments, Scale),
    Permission(ArgoCD, Apps, Diff),
    Permission(Helm, Releases, List)]

  const ADMIN_PERMISSIONS := OPERATOR_PERMISSIONS + [
    Permission(Kubernetes, Pods, Delete),
    Permission(Kubernetes, Nodes, Cordon),
    Permission(Kubernetes, Nodes, Drain),
    Permission(Admin, Users, Manage),
    Permission(Admin, RBAC, Manage),
    Permission(Admin, Audit, View),
    Permission(ArgoCD, Apps, Sync),
    Permission(ArgoCD, Apps, Rollback),
    Permission(ArgoCD, Freeze, Manage),
    Permission(Helm, Releases, Rollback)]

  const ON_CALL_PERMISSIONS := OPERATOR_PERMISSIONS + [
    Permission(ArgoCD, Apps, Rollback),
    Permission(Kubernetes, Nodes, Drain)]

  const SUPER_ADMIN := "super-admin"

  const NAMES := ["viewer", "operator", "admin", SUPER_ADMIN, "on-call"]

  const LISTS := [VIEWER_PERMISSIONS, OPERATOR_PERMISSIONS, ADMIN_PERMISSIONS, ADMIN_PERMISSIONS, ON_CALL_PERMISSIONS]

  function FromPermissions(name: string, perms: seq<Permission>): RoleDef {
    RoleDef(name, Texts(perms), RulesOf(Texts(perms), "allow"))
  }

  /** The rules are made from the permissions, except for super-admin, whose one rule is for everything. */
  function DefaultRole(k: nat): RoleDef
    requires k < 5
  {
    if k == 3 then RoleDef(NAMES[k], Texts(LISTS[k]), [RuleForAll("allow")]) else FromPermissions(NAMES[k], LISTS[k])
  }

  function DefaultRoles(): seq<RoleDef> {
    seq(5, k requires 0 <= k < 5 => DefaultRole(k))
  }

  lemma {:induction false} NamesDiffer(j: nat, k: nat)
    requires j < k < 5
    ensures NAMES[j] != NAMES[k]
  {
    assert NAMES[0][0] == 'v' && NAMES[1][1] == 'p' && NAMES[2][0] == 'a' && NAMES[3][0] == 's' && NAMES[4][1] == 'n';
    assert NAMES[1][0] == 'o' && NAMES[4][0] == 'o';
  }

  // ---------- Which roles have two forms that agree ----------

  ghost predicate SomeRuleAllows(def: RoleDef, req: PermissionRequest) {
    exists rule :: rule in def.rules && Matches(rule, req)
  }

  /** The rules of the role match exactly the requests its permissions list. */
  ghost predicate RoleAgrees(def: RoleDef) {
    forall req :: SomeRuleAllows(def, req) <==> FlatOf(req) in def.permissions
  }

  lemma {:induction false} ListedRoleAgrees(name: string, perms: seq<Permission>)
    ensures RoleAgrees(FromPermissions(name, perms))
  {
    var def := FromPermissions(name, perms);
    TextsArePlain(perms);
    forall req ensures SomeRuleAllows(def, req) <==> FlatOf(req) in def.permissions {
      PlainAgree(Texts(perms), "allow", req);
      assert SomeRuleAllows(def, req) <==> SomeRuleMatches(Texts(perms), "allow", req);
    }
  }

  /** A request that no list of permissions names. */
  function Unlisted(perms: seq<string>): PermissionRequest {
    PermissionRequest(seq(Longest(perms) + 1, _ => 'x'), "", "", "", "")
  }

  lemma {:induction false} UnlistedIsNew(perms: seq<string>)
    ensures FlatOf(Unlisted(perms)) !in perms
  {
    if FlatOf(Unlisted(perms)) in perms {
      LongestBounds(perms, FlatOf(Unlisted(perms)));
    }
  }

  lemma {:induction false} RuleForAllMatches(effect: string, req: PermissionRequest)
    ensures Matches(RuleForAll(effect), req)
  {
    assert ["*"][0] == "*";
  }

  lemma {:induction false} AllowsEverything(def: RoleDef)
    requires def.rules == [RuleForAll("allow")]
    ensures forall req :: SomeRuleAllows(def, req)
    ensures !RoleAgrees(def)
  {
    forall req ensures SomeRuleAllows(def, req) {
      RuleForAllMatches("allow", req);
      assert def.rules[0] in def.rules;
    }
    UnlistedIsNew(def.permissions);
    assert SomeRuleAllows(def, Unlisted(def.permissions));
  }

  lemma {:induction false} SuperAdminIndex(k: nat)
    requires k < 5
    ensures NAMES[k] == SUPER_ADMIN <==> k == 3
  {
    if k < 3 {
      NamesDiffer(k, 3);
    } else if k > 3 {
      NamesDiffer(3, k);
    }
  }

  /** Of the built-in roles exactly super-admin allows by its rules what its permissions do not list. */
  lemma {:induction false} RolesAgreeIff(k: nat)
    requires k < 5
    ensures RoleAgrees(DefaultRole(k)) <==> DefaultRole(k).name != SUPER_ADMIN
  {
    SuperAdminIndex(k);
    if k == 3 {
      AllowsEverything(DefaultRole(k));
    } else {
      ListedRoleAgrees(NAMES[k], LISTS[k]);
    }
  }

  // ---------- An assigned role ----------

  /** What the role menu leaves behind: the flat role, and a binding to the role of that name. */
  function Assigned(name: string, table: map<string, seq<PolicyRule>>): Store {
    Store(Success([Binding(name, None)]), table, Success(name))
  }

  /** The table of roles holds nothing of the name: the binding is dead, and the flat role decides. */
  lemma {:induction false} WithoutTable(e: Engine, user: UserId, k: nat, table: map<string, seq<PolicyRule>>,
                                        req: PermissionRequest, now: Time)
    requires e.Valid() && e.defs == DefaultRoles() && user !in e.superAdmins
    requires k < 5 && DefaultRole(k).name !in table
    ensures
      var def := DefaultRole(k);
      e.Decision(Assigned(def.name, table), user, req, now) == Success(FlatOf(req) in def.permissions)
  {
    var def := DefaultRole(k);
    var s := Assigned(def.name, table);
    forall deny: bool ensures !SomeActive(s, now, req, deny) {
    }
    HeldByAssigned(e, user, k, table, req);
  }

  lemma {:induction false} DefinedAt(defs: seq<RoleDef>, k: nat)
    requires k < |defs| && forall j :: k < j < |defs| ==> defs[j].name != defs[k].name
    ensures PermissionsOf(defs, defs[k].name) == Some(defs[k].permissions)
    decreases |defs|
  {
    var last := |defs| - 1;
    if k < last {
      assert defs[..last][k] == defs[k];
      DefinedAt(defs[..last], k);
    }
  }

  lemma {:induction false} DefinedAsListed(roles: seq<RoleDef>, k: nat)
    requires roles == DefaultRoles() && k < 5
    ensures PermissionsOf(roles, DefaultRole(k).name) == Some(DefaultRole(k).permissions)
  {
    forall j | k < j < 5 ensures roles[j].name != roles[k].name {
      NamesDiffer(k, j);
    }
    DefinedAt(roles, k);
  }

  lemma {:induction false} WithTable(e: Engine, user: UserId, def: RoleDef, table: map<string, seq<PolicyRule>>,
                                     req: PermissionRequest, now: Time)
    requires user !in e.superAdmins && def.name in table && table[def.name] == def.rules
    requires forall rule :: rule in def.rules ==> rule.effect == "allow"
    ensures
      var s := Assigned(def.name, table);
      e.Decision(s, user, req, now) ==
        if SomeRuleAllows(def, req) then Success(true) else e.HasPermission(s, user, FlatOf(req))
  {
    var s := Assigned(def.name, table);
    assert s.bindings.value[0] in s.bindings.value;
    forall rule ensures Active(s, now, rule) <==> rule in def.rules {
    }
  }

  lemma {:induction false} HeldByAssigned(e: Engine, user: UserId, k: nat, table: map<string, seq<PolicyRule>>,
                                          req: PermissionRequest)
    requires e.Valid() && e.defs == DefaultRoles() && user !in e.superAdmins && k < 5
    ensures
      var def := DefaultRole(k);
      e.HasPermission(Assigned(def.name, table), user, FlatOf(req)) == Success(FlatOf(req) in def.permissions)
  {
    DefinedAsListed(e.defs, k);
  }

  lemma {:induction false} DefaultRulesAllow(k: nat)
    requires k < 5
    ensures forall rule :: rule in DefaultRole(k).rules ==> rule.effect == "allow"
  {
    forall rule | rule in DefaultRole(k).rules ensures rule.effect == "allow" {
      RulesMember(Texts(LISTS[k]), "allow", rule);
    }
  }

  /** Storing the role's rules in the table of roles changes no decision. */
  ghost predicate TableInvisible(e: Engine, user: UserId, def: RoleDef, table: map<string, seq<PolicyRule>>)
    reads e
  {
    forall req, now ::
      e.Decision(Assigned(def.name, table[def.name := def.rules]), user, req, now) ==
      e.Decision(Assigned(def.name, table), user, req, now)
  }

  /** A user who was assigned a built-in role is allowed exactly its listed permissions while the
      table of roles does not hold the role, and storing it there makes no difference, for all
      requests, if and only if the role is not super-admin. */
  lemma {:induction false} AssignedRoleIff(e: Engine, user: UserId, k: nat, table: map<string, seq<PolicyRule>>)
    requires e.Valid() && e.defs == DefaultRoles() && user !in e.superAdmins
    requires k < 5 && DefaultRole(k).name !in table
    ensures
      var def := DefaultRole(k);
      forall req, now ::
        e.Decision(Assigned(def.name, table), user, req, now) == Success(FlatOf(req) in def.permissions)
    ensures TableInvisible(e, user, DefaultRole(k), table) <==> DefaultRole(k).name != SUPER_ADMIN
  {
    var def := DefaultRole(k);
    var filled := table[def.name := def.rules];
    DefaultRulesAllow(k);
    forall req, now
      ensures e.Decision(Assigned(def.name, table), user, req, now) == Success(FlatOf(req) in def.permissions)
      ensures e.Decision(Assigned(def.name, filled), user, req, now) ==
              Success(SomeRuleAllows(def, req) || FlatOf(req) in def.permissions)
    {
      WithoutTable(e, user, k, table, req, now);
      WithTable(e, user, def, filled, req, now);
      HeldByAssigned(e, user, k, filled, req);
    }
    if def.name == SUPER_ADMIN {
      var req := Unlisted(def.permissions);
      UnlistedIsNew(def.permissions);
      SuperAdminIndex(k);
      AllowsEverything(def);
      assert e.Decision(Assigned(def.name, filled), user, req, 0) == Success(true);
    } else {
      RolesAgreeIff(k);
    }
  }

  // ---------- What viewers may do ----------

  lemma {:induction false} TextParts(p: Permission)
    ensures Parts(Text(p)) == [ModuleText(p.moduleName), ResourceText(p.resource), ActionText(p.action)]
  {
    ModuleIsWord(p.moduleName);
    ResourceIsWord(p.resource);
    ActionIsWord(p.action);
    FlatIsPlain(ModuleText(p.moduleName), ResourceText(p.resource), ActionText(p.action));
  }

  lemma {:induction false} ViewerListReads(p: Permission)
    requires p in VIEWER_PERMISSIONS
    ensures p.action in {List, Get, Logs, Events, View}
  {
  }

  /** A viewer, and so a user without a stored role, may only look: whatever is allowed lists, gets,
      views, or reads logs or events. */
  lemma {:induction false} ViewersOnlyRead(e: Engine, s: Store, user: UserId, p: Permission)
    requires e.Valid() && e.defs == DefaultRoles() && e.defaultRole == "viewer" && user !in e.superAdmins
    requires s.userRole == Success("viewer") || s.userRole == Failure(NotFound)
    requires e.HasPermission(s, user, Text(p)) == Success(true)
    ensures ActionText(p.action) in {"list", "get", "logs", "events", "view"}
  {
    var perms := LISTS[0];
    assert perms == VIEWER_PERMISSIONS;
    HeldByViewer(e, s, user, Text(p), perms);
    var listed := ListedAs(perms, p);
    ViewerListReads(listed);
  }

  lemma {:induction false} HeldByViewer(e: Engine, s: Store, user: UserId, permission: string, perms: seq<Permission>)
    requires e.Valid() && e.defs == DefaultRoles() && e.defaultRole == "viewer" && user !in e.superAdmins
    requires s.userRole == Success("viewer") || s.userRole == Failure(NotFound)
    requires perms == LISTS[0]
    ensures e.HasPermission(s, user, permission) == Success(permission in Texts(perms))
  {
    DefinedAsListed(e.defs, 0);
    assert DefaultRole(0).name == "viewer" && DefaultRole(0).permissions == Texts(perms);
  }

  lemma {:induction false} ListedAs(perms: seq<Permission>, p: Permission) returns (q: Permission)
    requires Text(p) in Texts(perms)
    ensures q in perms && ActionText(p.action) == ActionText(q.action)
  {
    var i :| 0 <= i < |perms| && Texts(perms)[i] == Text(p);
    q := perms[i];
    TextParts(p);
    TextParts(q);
    assert ActionText(p.action) == Parts(Text(p))[2];
  }
}
