/** Policy rules, role bindings, and the authorisation engine: a nested loop with an early exit,
    compared with a declarative deny-overrides reading. */
module AccessRules {
  import opened Wrappers

  type UserId = int
  type Time = int

  datatype PolicyRule = PolicyRule(
    modules: seq<string>,
    resources: seq<string>,
    actions: seq<string>,
    clusters: seq<string>,
    namespaces: seq<string>,
    effect: string)

  datatype PermissionRequest = PermissionRequest(
    moduleName: string, resource: string, action: string, cluster: string, namespace: string)

  predicate MatchesWildcard(list: seq<string>, value: string) {
    exists i :: 0 <= i < |list| && (list[i] == "*" || list[i] == value)
  }

  predicate Matches(rule: PolicyRule, req: PermissionRequest) {
    && MatchesWildcard(rule.modules, req.moduleName)
    && MatchesWildcard(rule.resources, req.resource)
    && MatchesWildcard(rule.actions, req.action)
    && MatchesWildcard(rule.clusters, req.cluster)
    && MatchesWildcard(rule.namespaces, req.namespace)
  }

  datatype Binding = Binding(roleName: string, expiresAt: Option<Time>)

  predicate IsExpired(b: Binding, now: Time) {
    b.expiresAt.Some? && now > b.expiresAt.value
  }

  // ---------- What the engine reads ----------

  datatype StoreError = NotFound | Broken(message: string)

  /** One user's view of the store during a call. A role that cannot be fetched is absent from
      roles; either of the other reads may fail. */
  datatype Store = Store(
    bindings: Result<seq<Binding>, StoreError>,
    roles: map<string, seq<PolicyRule>>,
    userRole: Result<string, StoreError>)

  predicate Live(b: Binding, roles: map<string, seq<PolicyRule>>, now: Time) {
    !IsExpired(b, now) && b.roleName in roles
  }

  /** A rule that some unexpired binding to a known role brings in. */
  ghost predicate Active(s: Store, now: Time, rule: PolicyRule) {
    s.bindings.Success? &&
    exists b :: b in s.bindings.value && Live(b, s.roles, now) && rule in s.roles[b.roleName]
  }

  ghost predicate SomeActive(s: Store, now: Time, req: PermissionRequest, deny: bool) {
    exists rule :: Active(s, now, rule) && Matches(rule, req) && (rule.effect == "deny") == deny
  }

  /** No matching rule of the list denies, and if any matches the request is allowed so far. */
  ghost predicate SeenRules(rules: seq<PolicyRule>, req: PermissionRequest, allowed: bool) {
    forall rule :: rule in rules && Matches(rule, req) ==> rule.effect != "deny" && allowed
  }

  ghost predicate SeenBindings(s: Store, now: Time, req: PermissionRequest, n: nat, allowed: bool)
    requires s.bindings.Success? && n <= |s.bindings.value|
  {
    forall k :: 0 <= k < n && Live(s.bindings.value[k], s.roles, now) ==>
      SeenRules(s.roles[s.bindings.value[k].roleName], req, allowed)
  }

  // ---------- The engine ----------

  datatype RoleDef = RoleDef(name: string, permissions: seq<string>, rules: seq<PolicyRule>)

  const ROLE_ADMIN := "admin"
  const ROLE_VIEWER := "viewer"

  function Flat(moduleName: string, resource: string, action: string): string {
    moduleName + "." + resource + "." + action
  }

  /** The permissions of the last role definition with the name. */
  function PermissionsOf(defs: seq<RoleDef>, name: string): Option<seq<string>> {
    if defs == [] then None
    else if defs[|defs| - 1].name == name then Some(defs[|defs| - 1].permissions)
    else PermissionsOf(defs[..|defs| - 1], name)
  }

  class Engine {
    const superAdmins: set<UserId>
    const defaultRole: string
    var builtinPerms: map<string, set<string>>
    ghost const defs: seq<RoleDef>

    /** The permission maps hold exactly what the role definitions list. */
    ghost predicate Valid()
      reads this
    {
      forall name ::
        match PermissionsOf(defs, name)
        case None => name !in builtinPerms
        case Some(perms) => name in builtinPerms && forall p :: p in builtinPerms[name] <==> p in perms
    }

    constructor (defaultRole: string, adminIds: seq<UserId>, roles: seq<RoleDef>)
      ensures Valid() && defs == roles
      ensures forall u :: u in superAdmins <==> u in adminIds
      ensures this.defaultRole == if defaultRole == "" then "viewer" else defaultRole
    {
      this.superAdmins := set u | u in adminIds;
      this.defaultRole := if defaultRole == "" then ROLE_VIEWER else defaultRole;
      this.defs := roles;
      this.builtinPerms := map[];
      new;
      for i := 0 to |roles|
        invariant forall name ::
            match PermissionsOf(roles[..i], name)
            case None => name !in builtinPerms
            case Some(perms) => name in builtinPerms && forall p :: p in builtinPerms[name] <==> p in perms
      {
        var r := roles[i];
        assert roles[..i + 1][..i] == roles[..i];
        var allowed: set<string> := {};
        for j := 0 to |r.permissions|
          invariant forall p :: p in allowed <==> p in r.permissions[..j]
        {
          assert r.permissions[..j + 1] == r.permissions[..j] + [r.permissions[j]];
          allowed := allowed + {r.permissions[j]};
        }
        assert r.permissions[..|r.permissions|] == r.permissions;
        builtinPerms := builtinPerms[r.name := allowed];
      }
      assert roles[..|roles|] == roles;
    }

    /** A super admin counts as an admin; a user without a role has the default one. */
    function GetRole(s: Store, user: UserId): Result<string, StoreError> {
      if user in superAdmins then Success(ROLE_ADMIN)
      else if s.userRole == Failure(NotFound) then Success(defaultRole)
      else s.userRole
    }

    function HasPermission(s: Store, user: UserId, permission: string): Result<bool, StoreError>
      reads this
    {
      if user in superAdmins then Success(true)
      else
        match GetRole(s, user)
        case Failure(e) => Failure(e)
        case Success(role) =>
          if role !in builtinPerms then Success(false) else Success(permission in builtinPerms[role])
    }

    /** What Authorize decides, without loops or order. */
    ghost function Decision(s: Store, user: UserId, req: PermissionRequest, now: Time): Result<bool, StoreError>
      reads this
    {
      if user in superAdmins then Success(true)
      else if SomeActive(s, now, req, true) then Success(false)
      else if SomeActive(s, now, req, false) then Success(true)
      else HasPermission(s, user, Flat(req.moduleName, req.resource, req.action))
    }

    method Authorize(s: Store, user: UserId, req: PermissionRequest, now: Time) returns (r: Result<bool, StoreError>)
      ensures r == Decision(s, user, req, now)
    {
      if user in superAdmins {
        return Success(true);
      }
      if s.bindings.Success? && |s.bindings.value| > 0 {
        var bindings := s.bindings.value;
        var allowed, hasAnyMatch := false, false;
        for i := 0 to |bindings|
          invariant allowed == hasAnyMatch
          invariant allowed ==> SomeActive(s, now, req, false)
          invariant SeenBindings(s, now, req, i, allowed)
        {
          var binding := bindings[i];
          if IsExpired(binding, now) {
            continue;
          }
          if binding.roleName !in s.roles {
            continue;
          }
          var rules := s.roles[binding.roleName];
          for j := 0 to |rules|
            invariant allowed == hasAnyMatch
            invariant allowed ==> SomeActive(s, now, req, false)
            invariant SeenBindings(s, now, req, i, allowed)
            invariant SeenRules(rules[..j], req, allowed)
          {
            var rule := rules[j];
            assert rules[..j + 1] == rules[..j] + [rule];
            if !Matches(rule, req) {
              continue;
            }
            hasAnyMatch := true;
            assert Active(s, now, rule);
            if rule.effect == "deny" {
              assert SomeActive(s, now, req, true);
              return Success(false);
            }
            allowed := true;
            assert SomeActive(s, now, req, false);
          }
          assert rules[..|rules|] == rules;
        }
        assert !SomeActive(s, now, req, true);
        if hasAnyMatch {
          return Success(allowed);
        }
      }
      return HasPermission(s, user, Flat(req.moduleName, req.resource, req.action));
    }
  }

  // ---------- Corollaries of the order-free decision ----------

  /** The same bindings and, for each role, the same rules, in any order and multiplicity. */
  ghost predicate SameRules(s: Store, t: Store) {
    && s.bindings.Success? && t.bindings.Success?
    && (forall b :: b in s.bindings.value <==> b in t.bindings.value)
    && s.roles.Keys == t.roles.Keys
    && (forall name, rule :: name in s.roles ==> (rule in s.roles[name] <==> rule in t.roles[name]))
    && s.userRole == t.userRole
  }

  lemma {:induction false} SameActive(e: Engine, s: Store, t: Store, user: UserId, req: PermissionRequest, now: Time)
    requires s.userRole == t.userRole
    requires forall rule :: Active(s, now, rule) <==> Active(t, now, rule)
    ensures e.Decision(s, user, req, now) == e.Decision(t, user, req, now)
  {
    forall deny: bool ensures SomeActive(s, now, req, deny) == SomeActive(t, now, req, deny) {
      if SomeActive(s, now, req, deny) {
        var rule :| Active(s, now, rule) && Matches(rule, req) && (rule.effect == "deny") == deny;
        assert Active(t, now, rule);
      }
      if SomeActive(t, now, req, deny) {
        var rule :| Active(t, now, rule) && Matches(rule, req) && (rule.effect == "deny") == deny;
        assert Active(s, now, rule);
      }
    }
  }

  /** Neither the order of bindings nor the order of rules matters, nor do repetitions. */
  lemma {:induction false} OrderIrrelevant(e: Engine, s: Store, t: Store, user: UserId, req: PermissionRequest,
                                           now: Time)
    requires SameRules(s, t)
    ensures e.Decision(s, user, req, now) == e.Decision(t, user, req, now)
  {
    forall rule ensures Active(s, now, rule) <==> Active(t, now, rule) {
    }
    SameActive(e, s, t, user, req, now);
  }

  /** A binding that has expired, or whose role is unknown, might as well not be there. */
  lemma {:induction false} DeadBindingIgnored(e: Engine, s: Store, t: Store, i: nat, user: UserId,
                                              req: PermissionRequest, now: Time)
    requires s.bindings.Success? && i < |s.bindings.value| && !Live(s.bindings.value[i], s.roles, now)
    requires t == s.(bindings := Success(s.bindings.value[..i] + s.bindings.value[i + 1..]))
    ensures e.Decision(s, user, req, now) == e.Decision(t, user, req, now)
  {
    forall rule ensures Active(s, now, rule) <==> Active(t, now, rule) {
      forall b | b in s.bindings.value && b != s.bindings.value[i] ensures b in t.bindings.value {
        var k :| 0 <= k < |s.bindings.value| && s.bindings.value[k] == b;
        assert t.bindings.value[if k < i then k else k - 1] == b;
      }
    }
    SameActive(e, s, t, user, req, now);
  }

  /** A rule that one live binding brings in. */
  ghost predicate Brings(b: Binding, s: Store, now: Time, req: PermissionRequest, deny: bool) {
    Live(b, s.roles, now) &&
    exists rule :: rule in s.roles[b.roleName] && Matches(rule, req) && (rule.effect == "deny") == deny
  }

  function WithBinding(s: Store, extra: Binding): Store
    requires s.bindings.Success?
  {
    s.(bindings := Success(s.bindings.value + [extra]))
  }

  lemma {:induction false} ActiveWithBinding(s: Store, extra: Binding, req: PermissionRequest, now: Time, deny: bool)
    requires s.bindings.Success?
    ensures SomeActive(WithBinding(s, extra), now, req, deny) <==>
            SomeActive(s, now, req, deny) || Brings(extra, s, now, req, deny)
  {
    var t := WithBinding(s, extra);
    if SomeActive(t, now, req, deny) {
      var rule :| Active(t, now, rule) && Matches(rule, req) && (rule.effect == "deny") == deny;
      var b :| b in t.bindings.value && Live(b, t.roles, now) && rule in t.roles[b.roleName];
      assert b != extra ==> Active(s, now, rule);
    }
    if SomeActive(s, now, req, deny) {
      var rule :| Active(s, now, rule) && Matches(rule, req) && (rule.effect == "deny") == deny;
      var b :| b in s.bindings.value && Live(b, s.roles, now) && rule in s.roles[b.roleName];
      assert b in t.bindings.value && Active(t, now, rule);
    }
    if Brings(extra, s, now, req, deny) {
      var rule :| rule in s.roles[extra.roleName] && Matches(rule, req) && (rule.effect == "deny") == deny;
      assert extra in t.bindings.value && Active(t, now, rule);
    }
  }

  /** What one more binding does: a request is allowed with it exactly if it brings no matching deny
      and the request either was allowed before or was denied by nothing and is now granted. */
  lemma {:induction false} AddedBindingIff(e: Engine, s: Store, extra: Binding, user: UserId, req: PermissionRequest,
                                           now: Time)
    requires s.bindings.Success? && user !in e.superAdmins
    ensures e.Decision(WithBinding(s, extra), user, req, now) == Success(true) <==>
      && !Brings(extra, s, now, req, true)
      && (|| e.Decision(s, user, req, now) == Success(true)
          || (Brings(extra, s, now, req, false) && !SomeActive(s, now, req, true)))
  {
    ActiveWithBinding(s, extra, req, now, true);
    ActiveWithBinding(s, extra, req, now, false);
  }

  /** A further binding without deny rules never takes a permission away. */
  lemma {:induction false} GrantsOnlyAdd(e: Engine, s: Store, extra: Binding, user: UserId, req: PermissionRequest,
                                         now: Time)
    requires s.bindings.Success? && e.Decision(s, user, req, now) == Success(true)
    requires extra.roleName in s.roles ==> forall rule :: rule in s.roles[extra.roleName] ==> rule.effect != "deny"
    ensures e.Decision(WithBinding(s, extra), user, req, now) == Success(true)
  {
    if user !in e.superAdmins {
      AddedBindingIff(e, s, extra, user, req, now);
    }
  }

  // ---------- Whose permissions, which rules, how long ----------

  /** A user has the stored role, or the default role if none is stored, and holds the permissions of
      that role's last definition. */
  lemma FlatPermissionIsListed(e: Engine, s: Store, user: UserId, permission: string)
    requires e.Valid()
    ensures user in e.superAdmins ==> e.HasPermission(s, user, permission) == Success(true)
    ensures user !in e.superAdmins ==>
      (e.HasPermission(s, user, permission) == Success(true) <==>
         exists role, perms ::
           && (s.userRole == Success(role) || (s.userRole == Failure(NotFound) && role == e.defaultRole))
           && PermissionsOf(e.defs, role) == Some(perms) && permission in perms)
  {
  }

  /** Only a missing role falls back to the default: any other failure to read it is passed on. */
  lemma ReadFailureIsPassedOn(e: Engine, s: Store, user: UserId, permission: string)
    requires user !in e.superAdmins
    ensures e.HasPermission(s, user, permission).Failure? <==> s.userRole.Failure? && s.userRole != Failure(NotFound)
    ensures e.HasPermission(s, user, permission).Failure? ==>
              e.HasPermission(s, user, permission).error == s.userRole.error
  {
  }

  /** The role reported for a user. */
  lemma RoleOfUser(e: Engine, s: Store, user: UserId)
    ensures user in e.superAdmins ==> e.GetRole(s, user) == Success("admin")
    ensures user !in e.superAdmins ==>
      e.GetRole(s, user) ==
        match s.userRole
        case Failure(NotFound) => Success(e.defaultRole)
        case other => other
  {
  }

  /** A rule matches a request exactly if each of its five lists has the request's value or a star. */
  lemma MatchesIff(rule: PolicyRule, req: PermissionRequest)
    ensures Matches(rule, req) <==>
      && ("*" in rule.modules || req.moduleName in rule.modules)
      && ("*" in rule.resources || req.resource in rule.resources)
      && ("*" in rule.actions || req.action in rule.actions)
      && ("*" in rule.clusters || req.cluster in rule.clusters)
      && ("*" in rule.namespaces || req.namespace in rule.namespaces)
  {
  }

  /** A rule bound to one cluster grants nothing on any other. */
  lemma {:induction false} OtherClusterUnaffected(e: Engine, s: Store, extra: Binding, user: UserId,
                                                  req: PermissionRequest, now: Time)
    requires s.bindings.Success? && user !in e.superAdmins
    requires extra.roleName in s.roles ==>
      forall rule :: rule in s.roles[extra.roleName] ==> "*" !in rule.clusters && req.cluster !in rule.clusters
    ensures e.Decision(WithBinding(s, extra), user, req, now) == e.Decision(s, user, req, now)
  {
    ActiveWithBinding(s, extra, req, now, true);
    ActiveWithBinding(s, extra, req, now, false);
  }

  /** A binding counts up to and including its expiry, and for ever without one. Here it is the only
      grant of a user whose flat role has nothing. */
  lemma {:induction false} CountsUntilExpiry(e: Engine, role: string, expiry: Option<Time>,
                                             flat: Result<string, StoreError>, user: UserId, req: PermissionRequest,
                                             now: Time)
    requires user !in e.superAdmins
    requires
      var none := Store(Success([]), map[], flat);
      e.Decision(none, user, req, now) == Success(false)
    ensures
      var s := Store(Success([Binding(role, expiry)]), map[role := [RuleForAll("allow")]], flat);
      e.Decision(s, user, req, now) == Success(expiry.None? || now <= expiry.value)
  {
    var none := Store(Success([]), map[], flat);
    var rules := [RuleForAll("allow")];
    var s := Store(Success([Binding(role, expiry)]), map[role := rules], flat);
    assert ["*"][0] == "*";
    assert s.bindings.value[0] in s.bindings.value && rules[0] in rules;
    if expiry.None? || now <= expiry.value {
      assert Active(s, now, rules[0]);
    }
    assert !SomeActive(none, now, req, true) && !SomeActive(none, now, req, false);
  }

  // ---------- When reads fail ----------

  /** t is what the engine sees of s if the bindings, or some of the roles, cannot be fetched. */
  ghost predicate FailedReads(s: Store, t: Store) {
    && s.bindings.Success? && t.userRole == s.userRole
    && (t.bindings.Failure? || t.bindings == s.bindings)
    && forall name :: name in t.roles ==> name in s.roles && t.roles[name] == s.roles[name]
  }

  lemma {:induction false} FailedReadsLose(s: Store, t: Store, req: PermissionRequest, now: Time, deny: bool)
    requires FailedReads(s, t)
    ensures SomeActive(t, now, req, deny) ==> SomeActive(s, now, req, deny)
  {
    if SomeActive(t, now, req, deny) {
      var rule :| Active(t, now, rule) && Matches(rule, req) && (rule.effect == "deny") == deny;
      assert Active(s, now, rule);
    }
  }

  /** The engine does not fail safe. Failed reads allow what full reads refuse exactly if they lose
      every matching deny and a matching grant, or else the flat permission, is left. */
  lemma {:induction false} FailedReadsGrantIff(e: Engine, s: Store, t: Store, user: UserId, req: PermissionRequest,
                                               now: Time)
    requires FailedReads(s, t)
    ensures e.Decision(t, user, req, now) == Success(true) && e.Decision(s, user, req, now) != Success(true) <==>
      && user !in e.superAdmins
      && SomeActive(s, now, req, true) && !SomeActive(t, now, req, true)
      && (|| SomeActive(t, now, req, false)
          || e.HasPermission(s, user, Flat(req.moduleName, req.resource, req.action)) == Success(true))
  {
    FailedReadsLose(s, t, req, now, true);
    FailedReadsLose(s, t, req, now, false);
  }

  function RuleForAll(effect: string): PolicyRule {
    PolicyRule(["*"], ["*"], ["*"], ["*"], ["*"], effect)
  }

  /** A role that denies everything, not loaded, beside a role that allows everything. */
  lemma {:induction false} UnloadedRoleGrants(e: Engine, user: UserId, req: PermissionRequest, now: Time)
    returns (s: Store, t: Store)
    requires user !in e.superAdmins
    ensures FailedReads(s, t) && t.bindings == s.bindings
    ensures e.Decision(s, user, req, now) == Success(false) && e.Decision(t, user, req, now) == Success(true)
  {
    var grants, denies := [RuleForAll("allow")], [RuleForAll("deny")];
    var bindings := [Binding("grants", None), Binding("denies", None)];
    s := Store(Success(bindings), map["grants" := grants, "denies" := denies], Failure(NotFound));
    t := s.(roles := map["grants" := grants]);
    assert ["*"][0] == "*";
    assert bindings[0] in bindings && bindings[1] in bindings;
    assert denies[0] in denies && Active(s, now, denies[0]);
    assert grants[0] in grants && Active(t, now, grants[0]);
  }
}
