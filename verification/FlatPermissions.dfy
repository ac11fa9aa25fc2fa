/** Flat permissions "module.resource.action" and the policy rules derived from them. */
module FlatPermissions {
  import D = Delimited
  import opened Wrappers
  import opened AccessRules

  const DOT := '.'

  function Parts(perm: string): (parts: seq<string>)
    ensures parts != [] && forall i :: 0 <= i < |parts| ==> D.Free(parts[i], DOT)
  {
    var parts := D.Split(perm, DOT);
    assert D.AllFree(parts, DOT);
    parts
  }

  /** The parts found so far and the split of the rest make up the whole. */
  ghost predicate SplitUpTo(perm: string, start: nat, parts: seq<string>)
    requires start <= |perm|
  {
    parts + D.Split(perm[start..], DOT) == Parts(perm)
  }

  lemma SplitStart(perm: string)
    ensures SplitUpTo(perm, 0, [])
  {
    assert perm[0..] == perm;
  }

  /** A dot at i ends the part that began at start. */
  lemma {:induction false} PartEndsAt(perm: string, start: nat, i: nat, parts: seq<string>)
    requires start <= i < |perm| && perm[i] == DOT && forall k :: start <= k < i ==> perm[k] != DOT
    requires SplitUpTo(perm, start, parts)
    ensures SplitUpTo(perm, i + 1, parts + [perm[start..i]])
  {
    D.SplitOfFree(perm[start..i], DOT);
    D.SplitOfConcat(perm[start..i], perm[i + 1..], DOT);
    assert perm[start..] == perm[start..i] + [DOT] + perm[i + 1..];
    var rest := D.Split(perm[i + 1..], DOT);
    assert parts + ([perm[start..i]] + rest) == (parts + [perm[start..i]]) + rest;
  }

  lemma LastPart(perm: string, start: nat, parts: seq<string>)
    requires start <= |perm| && SplitUpTo(perm, start, parts) && forall k :: start <= k < |perm| ==> perm[k] != DOT
    ensures parts + [perm[start..]] == Parts(perm)
  {
    D.SplitOfFree(perm[start..], DOT);
  }

  method SplitPerm(perm: string) returns (parts: seq<string>)
    ensures parts == Parts(perm)
  {
    parts := [];
    var start := 0;
    SplitStart(perm);
    for i := 0 to |perm|
      invariant start <= i
      invariant forall k :: start <= k < i ==> perm[k] != DOT
      invariant SplitUpTo(perm, start, parts)
    {
      if perm[i] == DOT {
        PartEndsAt(perm, start, i, parts);
        parts := parts + [perm[start..i]];
        start := i + 1;
      }
    }
    LastPart(perm, start, parts);
    parts := parts + [perm[start..]];
  }

  function RuleOf(parts: seq<string>, effect: string): PolicyRule
    requires |parts| == 3
  {
    PolicyRule([parts[0]], [parts[1]], [parts[2]], ["*"], ["*"], effect)
  }

  /** One rule for each permission of three parts, in order. */
  function RulesOf(perms: seq<string>, effect: string): seq<PolicyRule> {
    if perms == [] then []
    else
      var last := |perms| - 1;
      RulesOf(perms[..last], effect) + (if |Parts(perms[last])| == 3 then [RuleOf(Parts(perms[last]), effect)] else [])
  }

  method FlatPermsToRules(perms: seq<string>, effect: string) returns (rules: seq<PolicyRule>)
    ensures rules == RulesOf(perms, effect)
  {
    rules := [];
    for i := 0 to |perms|
      invariant rules == RulesOf(perms[..i], effect)
    {
      assert perms[..i + 1][..i] == perms[..i];
      var parts := SplitPerm(perms[i]);
      if |parts| != 3 {
        continue;
      }
      rules := rules + [PolicyRule([parts[0]], [parts[1]], [parts[2]], ["*"], ["*"], effect)];
    }
    assert perms[..|perms|] == perms;
  }

  lemma {:induction false} RulesMember(perms: seq<string>, effect: string, rule: PolicyRule)
    ensures rule in RulesOf(perms, effect) <==>
            exists p :: p in perms && |Parts(p)| == 3 && rule == RuleOf(Parts(p), effect)
  {
    if perms != [] {
      var last := |perms| - 1;
      RulesMember(perms[..last], effect, rule);
      assert forall p :: p in perms <==> p in perms[..last] || p == perms[last];
    }
  }

  /** The rules follow the permissions, and a permission that has not three parts adds none. */
  lemma {:induction false} RulesInOrder(perms: seq<string>, p: string, effect: string)
    ensures
      var parts := Parts(p);
      RulesOf(perms + [p], effect) == RulesOf(perms, effect) +
        if |parts| == 3 then [PolicyRule([parts[0]], [parts[1]], [parts[2]], ["*"], ["*"], effect)] else []
  {
    assert (perms + [p])[..|perms|] == perms;
  }

  // ---------- One permission against one request ----------

  predicate PartMatches(part: string, value: string) {
    part == "*" || part == value
  }

  function FlatOf(req: PermissionRequest): string {
    Flat(req.moduleName, req.resource, req.action)
  }

  lemma {:induction false} RuleOfMatches(parts: seq<string>, effect: string, req: PermissionRequest)
    requires |parts| == 3
    ensures Matches(RuleOf(parts, effect), req) <==>
            PartMatches(parts[0], req.moduleName) && PartMatches(parts[1], req.resource) &&
            PartMatches(parts[2], req.action)
  {
    MatchesOne(parts[0], req.moduleName);
    MatchesOne(parts[1], req.resource);
    MatchesOne(parts[2], req.action);
    MatchesOne("*", req.cluster);
    MatchesOne("*", req.namespace);
  }

  lemma MatchesOne(part: string, value: string)
    ensures MatchesWildcard([part], value) <==> PartMatches(part, value)
  {
    assert [part][0] == part;
  }

  lemma {:induction false} PartsOfFlat(m: string, r: string, a: string)
    ensures Parts(Flat(m, r, a)) == Parts(m) + Parts(r) + Parts(a)
  {
    D.SplitOfConcat(m + [DOT] + r, a, DOT);
    D.SplitOfConcat(m, r, DOT);
  }

  /** Three dot-free parts can be put together and taken apart without loss. */
  lemma {:induction false} ThreeParts(perm: string, m: string, r: string, a: string)
    ensures (|Parts(perm)| == 3 && perm == Flat(m, r, a)) <==> Parts(perm) == [m, r, a]
  {
    if |Parts(perm)| == 3 && perm == Flat(m, r, a) {
      PartsOfFlat(m, r, a);
      D.JoinOfSplit(m, DOT);
      D.JoinOfSplit(r, DOT);
      D.JoinOfSplit(a, DOT);
      assert |Parts(m)| == 1 && |Parts(r)| == 1 && |Parts(a)| == 1;
      assert Parts(m) == [m] && Parts(r) == [r] && Parts(a) == [a];
    }
    if Parts(perm) == [m, r, a] {
      D.JoinOfSplit(perm, DOT);
      assert [m] + [r] == [m, r] && [m, r] + [a] == [m, r, a];
      D.JoinAppend([m], r, DOT);
      D.JoinAppend([m, r], a, DOT);
    }
  }

  // ---------- When the two forms agree ----------

  ghost predicate SomeRuleMatches(perms: seq<string>, effect: string, req: PermissionRequest) {
    exists rule :: rule in RulesOf(perms, effect) && Matches(rule, req)
  }

  ghost predicate FormsAgree(perms: seq<string>, effect: string) {
    forall req :: SomeRuleMatches(perms, effect, req) <==> FlatOf(req) in perms
  }

  predicate HasStar(parts: seq<string>) {
    exists i :: 0 <= i < |parts| && parts[i] == "*"
  }

  /** At most three parts, and no part of the three is the wildcard. */
  predicate Plain(perm: string) {
    |Parts(perm)| <= 3 && (|Parts(perm)| == 3 ==> !HasStar(Parts(perm)))
  }

  /** A part that neither contains a dot nor is the wildcard. */
  predicate Word(part: string) {
    D.Free(part, DOT) && part != "*"
  }

  lemma {:induction false} FlatIsPlain(m: string, r: string, a: string)
    requires Word(m) && Word(r) && Word(a)
    ensures Parts(Flat(m, r, a)) == [m, r, a] && Plain(Flat(m, r, a))
  {
    PartsOfFlat(m, r, a);
    D.SplitOfFree(m, DOT);
    D.SplitOfFree(r, DOT);
    D.SplitOfFree(a, DOT);
  }

  lemma {:induction false} MatchingPermission(perms: seq<string>, effect: string, req: PermissionRequest)
    ensures SomeRuleMatches(perms, effect, req) <==>
            exists p :: p in perms && |Parts(p)| == 3 && Matches(RuleOf(Parts(p), effect), req)
  {
    if SomeRuleMatches(perms, effect, req) {
      var rule :| rule in RulesOf(perms, effect) && Matches(rule, req);
      RulesMember(perms, effect, rule);
    }
    if p :| p in perms && |Parts(p)| == 3 && Matches(RuleOf(Parts(p), effect), req) {
      RulesMember(perms, effect, RuleOf(Parts(p), effect));
    }
  }

  /** A permission without wildcards matches exactly the request it spells. */
  lemma {:induction false} PlainMatchesItself(perm: string, effect: string, req: PermissionRequest)
    requires |Parts(perm)| == 3 && !HasStar(Parts(perm))
    ensures Matches(RuleOf(Parts(perm), effect), req) <==> perm == FlatOf(req)
  {
    var parts := Parts(perm);
    RuleOfMatches(parts, effect, req);
    ThreeParts(perm, req.moduleName, req.resource, req.action);
    assert parts[0] != "*" && parts[1] != "*" && parts[2] != "*";
    assert parts == [parts[0], parts[1], parts[2]];
  }

  lemma {:induction false} PlainAgree(perms: seq<string>, effect: string, req: PermissionRequest)
    requires forall p :: p in perms ==> Plain(p)
    ensures SomeRuleMatches(perms, effect, req) <==> FlatOf(req) in perms
  {
    MatchingPermission(perms, effect, req);
    if p :| p in perms && |Parts(p)| == 3 && Matches(RuleOf(Parts(p), effect), req) {
      PlainMatchesItself(p, effect, req);
    }
    if FlatOf(req) in perms {
      PartsOfFlat(req.moduleName, req.resource, req.action);
      PlainMatchesItself(FlatOf(req), effect, req);
    }
  }

  function Longest(perms: seq<string>): nat {
    if perms == [] then 0
    else
      var rest, here := Longest(perms[..|perms| - 1]), |perms[|perms| - 1]|;
      if here > rest then here else rest
  }

  lemma {:induction false} LongestBounds(perms: seq<string>, p: string)
    requires p in perms
    ensures |p| <= Longest(perms)
  {
    if p in perms[..|perms| - 1] {
      LongestBounds(perms[..|perms| - 1], p);
    }
  }

  /** A wildcard part matches requests longer than anything in the list. */
  lemma {:induction false} StarDisagrees(perms: seq<string>, effect: string, p: string) returns (req: PermissionRequest)
    requires p in perms && |Parts(p)| == 3 && HasStar(Parts(p))
    ensures SomeRuleMatches(perms, effect, req) && FlatOf(req) !in perms
  {
    var parts := Parts(p);
    var long := seq(Longest(perms) + 1, _ => 'x');
    var m := if parts[0] == "*" then long else parts[0];
    var r := if parts[1] == "*" then long else parts[1];
    var a := if parts[2] == "*" then long else parts[2];
    req := PermissionRequest(m, r, a, "", "");
    RuleOfMatches(parts, effect, req);
    MatchingPermission(perms, effect, req);
    if FlatOf(req) in perms {
      LongestBounds(perms, FlatOf(req));
    }
  }

  /** A permission of more than three parts is granted in flat form only. */
  lemma {:induction false} ManyPartsDisagree(perms: seq<string>, effect: string, p: string)
    returns (req: PermissionRequest)
    requires p in perms && |Parts(p)| > 3
    requires forall q :: q in perms && |Parts(q)| == 3 ==> !HasStar(Parts(q))
    ensures FlatOf(req) in perms && !SomeRuleMatches(perms, effect, req)
  {
    var parts := Parts(p);
    var n := |parts| - 2;
    var m := D.Join(parts[..n], DOT);
    req := PermissionRequest(m, parts[n], parts[n + 1], "", "");
    D.JoinOfSplit(p, DOT);
    assert parts[..n + 1] + [parts[n + 1]] == parts && parts[..n] + [parts[n]] == parts[..n + 1];
    D.JoinAppend(parts[..n + 1], parts[n + 1], DOT);
    D.JoinAppend(parts[..n], parts[n], DOT);
    assert FlatOf(req) == p;
    MatchingPermission(perms, effect, req);
    if q :| q in perms && |Parts(q)| == 3 && Matches(RuleOf(Parts(q), effect), req) {
      PlainMatchesItself(q, effect, req);
      assert false;
    }
  }

  /** The derived rules grant exactly the requests whose flat form is in the list, for all strings
      as module, resource and action, if and only if every permission of the list is plain. */
  lemma {:induction false} FormsAgreeIff(perms: seq<string>, effect: string)
    ensures FormsAgree(perms, effect) <==> forall p :: p in perms ==> Plain(p)
  {
    if forall p :: p in perms ==> Plain(p) {
      forall req ensures SomeRuleMatches(perms, effect, req) <==> FlatOf(req) in perms {
        PlainAgree(perms, effect, req);
      }
    } else if p :| p in perms && |Parts(p)| == 3 && HasStar(Parts(p)) {
      var req := StarDisagrees(perms, effect, p);
    } else {
      var p :| p in perms && !Plain(p);
      var req := ManyPartsDisagree(perms, effect, p);
    }
  }

  // ---------- A bound role against the fallback ----------

  /** A user whose only live binding is to a role made from plain permissions is allowed what the
      list names and otherwise what the user's flat role allows. */
  lemma {:induction false} BoundRoleAddsPermissions(e: Engine, s: Store, perms: seq<string>, b: Binding, user: UserId,
                                                    req: PermissionRequest, now: Time)
    requires user !in e.superAdmins && s.bindings == Success([b]) && Live(b, s.roles, now)
    requires s.roles[b.roleName] == RulesOf(perms, "allow") && forall p :: p in perms ==> Plain(p)
    ensures e.Decision(s, user, req, now) ==
            if FlatOf(req) in perms then Success(true) else e.HasPermission(s, user, FlatOf(req))
  {
    PlainAgree(perms, "allow", req);
    forall rule | rule in RulesOf(perms, "allow") ensures rule.effect == "allow" {
      RulesMember(perms, "allow", rule);
    }
    assert b in s.bindings.value;
    if rule :| rule in RulesOf(perms, "allow") && Matches(rule, req) {
      assert Active(s, now, rule);
    }
  }
}
