/** The approval table and the manager in front of it, one call at a time. Clock readings and
    database outcomes are inputs of each call. */
module ApprovalManager {
  import opened Wrappers
  import opened ApprovalRequests

  type RequestId = string
  type Table = map<RequestId, Request>

  datatype Error =
    | NoRule
    | Duplicate
    | NotFound
    | Database
    | AlreadyResolved(status: Status)
    | PastExpiry
    | SelfApproval
    | NotRequester
    | NotPending

  // ---------- Statements on the table ----------

  /** The UPDATE statement: five columns are written, the others keep their stored values, and
      an unknown id changes nothing. */
  function UpdateRow(rows: Table, id: RequestId, req: Request): Table {
    if id !in rows then rows
    else rows[id := rows[id].(status := req.status, approvers := req.approvers, resolvedAt := req.resolvedAt,
                              resolvedBy := req.resolvedBy, messageId := req.messageId)]
  }

  predicate PastDue(r: Request, now: Time) {
    r.status == Pending && r.expiresAt < now
  }

  /** The bulk expiry statement. */
  function ExpireRows(rows: Table, now: Time): Table {
    map id | id in rows ::
      if PastDue(rows[id], now) then rows[id].(status := Expired, resolvedAt := Some(now)) else rows[id]
  }

  class ApprovalRepo {
    var rows: Table

    constructor ()
      ensures rows == map[]
    {
      rows := map[];
    }

    /** The id is the primary key. The resolution columns are not inserted. */
    method Create(id: RequestId, req: Request) returns (r: Result<(), Error>)
      modifies this
      ensures id in old(rows) ==> r == Failure(Duplicate) && rows == old(rows)
      ensures id !in old(rows) ==>
        r == Success(()) && rows == old(rows)[id := req.(resolvedAt := None, resolvedBy := None)]
    {
      if id in rows {
        return Failure(Duplicate);
      }
      rows := rows[id := req.(resolvedAt := None, resolvedBy := None)];
      return Success(());
    }

    method GetByID(id: RequestId) returns (r: Result<Request, Error>)
      ensures r == if id in rows then Success(rows[id]) else Failure(NotFound)
    {
      if id !in rows {
        return Failure(NotFound);
      }
      return Success(rows[id]);
    }

    /** Five columns of one row are written; everything else keeps its value. */
    method Update(id: RequestId, req: Request)
      modifies this
      ensures rows == UpdateRow(old(rows), id, req)
      ensures rows.Keys == old(rows).Keys && forall k :: k in rows && k != id ==> rows[k] == old(rows)[k]
      ensures id in rows ==>
        var before, after := old(rows)[id], rows[id];
        && after.status == req.status && after.approvers == req.approvers && after.messageId == req.messageId
        && after.resolvedAt == req.resolvedAt && after.resolvedBy == req.resolvedBy
        && after.requesterId == before.requesterId && after.action == before.action && after.cluster == before.cluster
        && after.requiredApprovals == before.requiredApprovals
        && after.createdAt == before.createdAt && after.expiresAt == before.expiresAt
    {
      if id in rows {
        var row := rows[id];
        row := row.(status := req.status, approvers := req.approvers);
        row := row.(resolvedAt := req.resolvedAt, resolvedBy := req.resolvedBy, messageId := req.messageId);
        rows := rows[id := row];
      }
    }

    method ExpireOld(now: Time) returns (n: nat)
      modifies this
      ensures rows == ExpireRows(old(rows), now) && rows.Keys == old(rows).Keys
      ensures forall id :: id in rows ==>
        rows[id] == if old(rows)[id].status == Pending && old(rows)[id].expiresAt < now
                    then old(rows)[id].(status := Expired, resolvedAt := Some(now))
                    else old(rows)[id]
      ensures n == |set id | id in old(rows) && old(rows)[id] != rows[id]|
    {
      n := |set id | id in rows && PastDue(rows[id], now)|;
      ghost var due := set id | id in rows && PastDue(rows[id], now);
      ghost var before := rows;
      rows := ExpireRows(rows, now);
      assert due == set id | id in before && before[id] != rows[id];
    }
  }

  // ---------- Rules ----------

  datatype Rule = Rule(action: string, clusters: seq<string>, requiredApprovals: int, approverRoles: seq<string>)

  datatype Config = Config(enabled: bool, defaultExpiry: int, rules: seq<Rule>)

  predicate Covers(r: Rule, action: string, cluster: string) {
    r.action == action && exists i :: 0 <= i < |r.clusters| && (r.clusters[i] == "*" || r.clusters[i] == cluster)
  }

  /** A rule covers an action on the clusters it names, or on all of them. */
  lemma CoversIff(r: Rule, action: string, cluster: string)
    ensures Covers(r, action, cluster) <==> r.action == action && ("*" in r.clusters || cluster in r.clusters)
  {
  }

  /** The first rule, in configuration order, that covers the action on the cluster. */
  ghost predicate IsFirstRule(cfg: Config, action: string, cluster: string, k: nat) {
    && k < |cfg.rules|
    && Covers(cfg.rules[k], action, cluster)
    && forall j :: 0 <= j < k ==> !Covers(cfg.rules[j], action, cluster)
  }

  function MatchingRule(cfg: Config, action: string, cluster: string): (r: Option<Rule>)
    ensures r.None? <==> !cfg.enabled || forall j :: 0 <= j < |cfg.rules| ==> !Covers(cfg.rules[j], action, cluster)
    ensures r.Some? ==> exists k: nat :: IsFirstRule(cfg, action, cluster, k) && cfg.rules[k] == r.value
  {
    if !cfg.enabled then None else MatchingFrom(cfg, action, cluster, 0)
  }

  function MatchingFrom(cfg: Config, action: string, cluster: string, i: nat): (r: Option<Rule>)
    requires i <= |cfg.rules|
    requires forall j :: 0 <= j < i ==> !Covers(cfg.rules[j], action, cluster)
    ensures r.None? <==> forall j :: 0 <= j < |cfg.rules| ==> !Covers(cfg.rules[j], action, cluster)
    ensures r.Some? ==> exists k: nat :: IsFirstRule(cfg, action, cluster, k) && cfg.rules[k] == r.value
    decreases |cfg.rules| - i
  {
    if i == |cfg.rules| then None
    else if Covers(cfg.rules[i], action, cluster) then
      assert IsFirstRule(cfg, action, cluster, i);
      Some(cfg.rules[i])
    else MatchingFrom(cfg, action, cluster, i + 1)
  }

  lemma FirstRuleUnique(cfg: Config, action: string, cluster: string, j: nat, k: nat)
    requires IsFirstRule(cfg, action, cluster, j) && IsFirstRule(cfg, action, cluster, k)
    ensures j == k
  {
  }

  lemma FirstRuleMatches(cfg: Config, action: string, cluster: string)
    ensures forall k: nat :: cfg.enabled && IsFirstRule(cfg, action, cluster, k) ==>
      MatchingRule(cfg, action, cluster) == Some(cfg.rules[k])
  {
    forall k: nat | cfg.enabled && IsFirstRule(cfg, action, cluster, k)
      ensures MatchingRule(cfg, action, cluster) == Some(cfg.rules[k])
    {
      var j: nat :| IsFirstRule(cfg, action, cluster, j) && Some(cfg.rules[j]) == MatchingRule(cfg, action, cluster);
      FirstRuleUnique(cfg, action, cluster, j, k);
    }
  }

  // ---------- The three operations on the table ----------

  /** What a call sees of the outside: its two clock readings and whether its two statements succeed. */
  datatype Surroundings = Surroundings(checkedAt: Time, now: Time, readOk: bool, writeOk: bool)

  /** The row a submission inserts. */
  function NewRow(req: Request, rule: Rule, now: Time, expiry: int): Request {
    req.(status := Pending, requiredApprovals := rule.requiredApprovals, createdAt := now, expiresAt := now + expiry,
         resolvedAt := None, resolvedBy := None)
  }

  /** Why a decision is refused before anything is recorded, in the order of the checks. */
  function Refusal(req: Request, user: UserId, checkedAt: Time): Option<Error> {
    if req.status != Pending then Some(AlreadyResolved(req.status))
    else if checkedAt > req.expiresAt then Some(PastExpiry)
    else if user == req.requesterId then Some(SelfApproval)
    else None
  }

  datatype Effect<T> = Effect(result: Result<T, Error>, rows: Table)

  function SubmitEffect(cfg: Config, rows: Table, id: RequestId, req: Request, env: Surroundings): Effect<()> {
    match MatchingRule(cfg, req.action, req.cluster)
    case None => Effect(Failure(NoRule), rows)
    case Some(rule) =>
      if !env.writeOk then Effect(Failure(Database), rows)
      else if id in rows then Effect(Failure(Duplicate), rows)
      else Effect(Success(()), rows[id := NewRow(req, rule, env.now, cfg.defaultExpiry)])
  }

  function DecideEffect(rows: Table, id: RequestId, user: UserId, decision: Decision, comment: string,
                        env: Surroundings): Effect<bool>
  {
    if !env.readOk then Effect(Failure(Database), rows)
    else if id !in rows then Effect(Failure(NotFound), rows)
    else
      match Refusal(rows[id], user, env.checkedAt)
      case Some(e) => Effect(Failure(e), rows)
      case None =>
        var vote := Vote(rows[id], Approver(user, decision, comment, Some(env.now)), env.now);
        if !env.writeOk then Effect(Failure(Database), rows)
        else Effect(Success(vote.executeNow), UpdateRow(rows, id, vote.next))
  }

  function CancelRefusal(req: Request, user: UserId): Option<Error> {
    if req.requesterId != user then Some(NotRequester)
    else if req.status != Pending then Some(NotPending)
    else None
  }

  function CancelEffect(rows: Table, id: RequestId, user: UserId, env: Surroundings): Effect<()> {
    if !env.readOk then Effect(Failure(Database), rows)
    else if id !in rows then Effect(Failure(NotFound), rows)
    else
      match CancelRefusal(rows[id], user)
      case Some(e) => Effect(Failure(e), rows)
      case None =>
        if !env.writeOk then Effect(Failure(Database), rows)
        else Effect(Success(()), UpdateRow(rows, id, Resolved(rows[id], Cancelled, env.now, user)))
  }

  /** Which decisions are recorded, which are refused and why. */
  lemma {:induction false} DecideSucceedsIff(rows: Table, id: RequestId, user: UserId, decision: Decision,
                                             comment: string, env: Surroundings)
    ensures
      var effect := DecideEffect(rows, id, user, decision, comment, env);
      && (effect.result.Success? <==>
            && env.readOk && env.writeOk && id in rows && rows[id].status == Pending
            && env.checkedAt <= rows[id].expiresAt && user != rows[id].requesterId)
      && (effect.result.Failure? ==> effect.rows == rows)
    ensures env.readOk ==>
      var result := DecideEffect(rows, id, user, decision, comment, env).result;
      if id !in rows then result == Failure(NotFound)
      else if rows[id].status != Pending then result == Failure(AlreadyResolved(rows[id].status))
      else if env.checkedAt > rows[id].expiresAt then result == Failure(PastExpiry)
      else user == rows[id].requesterId ==> result == Failure(SelfApproval)
  {
  }

  predicate HasVote(approvers: seq<Approver>, decision: Decision) {
    exists a :: a in approvers && a.decision == decision
  }

  /** What a recorded decision leaves in the row: the user's entry, and an outcome that follows from
      the entries, with the time and the user of this call. */
  lemma {:induction false} DecideRecords(rows: Table, id: RequestId, user: UserId, decision: Decision, comment: string,
                                         env: Surroundings)
    requires DecideEffect(rows, id, user, decision, comment, env).result.Success?
    ensures
      var effect := DecideEffect(rows, id, user, decision, comment, env);
      && id in rows && id in effect.rows
      && var before, after := rows[id], effect.rows[id];
      && effect.rows == rows[id := after]
      && after == before.(status := after.status, approvers := after.approvers, resolvedAt := after.resolvedAt,
                          resolvedBy := after.resolvedBy)
      && Approver(user, decision, comment, Some(env.now)) in after.approvers
      && (after.status == Rejected <==> HasVote(after.approvers, Reject))
      && (after.status == Approved <==>
            !HasVote(after.approvers, Reject) && Tally(after.approvers, Approve) >= before.requiredApprovals)
      && (effect.result == Success(true) <==> after.status == Approved)
      && (if after.status == Pending then after.resolvedAt == before.resolvedAt && after.resolvedBy == before.resolvedBy
          else after.resolvedAt == Some(env.now) && after.resolvedBy == Some(user))
      && after.status in {Pending, Approved, Rejected}
  {
    var entry := Approver(user, decision, comment, Some(env.now));
    var k := RecordPlaces(rows[id].approvers, entry);
    var approvers := Record(rows[id].approvers, entry);
    assert approvers[k] == entry;
    assert HasDecision(approvers, Reject) <==> HasVote(approvers, Reject);
  }

  class Manager {
    const cfg: Config
    const storage: ApprovalRepo

    /** A missing or negative expiry becomes 30 minutes (here in seconds). */
    constructor (cfg: Config, storage: ApprovalRepo)
      ensures this.storage == storage
      ensures this.cfg == cfg.(defaultExpiry := if cfg.defaultExpiry <= 0 then 1800 else cfg.defaultExpiry)
    {
      this.cfg := if cfg.defaultExpiry <= 0 then cfg.(defaultExpiry := 1800) else cfg;
      this.storage := storage;
    }

    method RequiresApproval(action: string, cluster: string) returns (rule: Option<Rule>)
      ensures rule == MatchingRule(cfg, action, cluster)
    {
      if !cfg.enabled {
        return None;
      }
      for i := 0 to |cfg.rules|
        invariant forall j :: 0 <= j < i ==> !Covers(cfg.rules[j], action, cluster)
      {
        var r := cfg.rules[i];
        if r.action != action {
          continue;
        }
        for c := 0 to |r.clusters|
          invariant forall j :: 0 <= j < c ==> r.clusters[j] != "*" && r.clusters[j] != cluster
        {
          if r.clusters[c] == "*" || r.clusters[c] == cluster {
            assert IsFirstRule(cfg, action, cluster, i);
            ghost var k: nat :|
              IsFirstRule(cfg, action, cluster, k) && Some(cfg.rules[k]) == MatchingRule(cfg, action, cluster);
            FirstRuleUnique(cfg, action, cluster, i, k);
            return Some(r);
          }
        }
      }
      return None;
    }

    method Submit(id: RequestId, req: Request, env: Surroundings) returns (r: Result<(), Error>)
      modifies storage
      ensures Effect(r, storage.rows) == SubmitEffect(cfg, old(storage.rows), id, req, env)
      ensures forall k: nat ::
        cfg.enabled && IsFirstRule(cfg, req.action, req.cluster, k) && env.writeOk && id !in old(storage.rows) ==>
          && r == Success(())
          && storage.rows == old(storage.rows)[id := req.(status := Pending,
                                                          requiredApprovals := cfg.rules[k].requiredApprovals,
                                                          createdAt := env.now,
                                                          expiresAt := env.now + cfg.defaultExpiry,
                                                          resolvedAt := None, resolvedBy := None)]
      ensures r.Success? ==> id !in old(storage.rows) && env.writeOk
      ensures r == Failure(NoRule) <==>
        !cfg.enabled || forall j :: 0 <= j < |cfg.rules| ==> !Covers(cfg.rules[j], req.action, req.cluster)
      ensures r.Failure? ==> storage.rows == old(storage.rows)
    {
      var rule := RequiresApproval(req.action, req.cluster);
      if rule.None? {
        return Failure(NoRule);
      }
      FirstRuleMatches(cfg, req.action, req.cluster);
      var draft := req.(status := Pending, requiredApprovals := rule.value.requiredApprovals, createdAt := env.now,
                        expiresAt := env.now + cfg.defaultExpiry);
      assert draft.(resolvedAt := None, resolvedBy := None) == NewRow(req, rule.value, env.now, cfg.defaultExpiry);
      if !env.writeOk {
        return Failure(Database);
      }
      r := storage.Create(id, draft);
    }

    method Decide(id: RequestId, user: UserId, decision: Decision, comment: string, env: Surroundings)
      returns (r: Result<bool, Error>)
      modifies storage
      ensures Effect(r, storage.rows) == DecideEffect(old(storage.rows), id, user, decision, comment, env)
    {
      if !env.readOk {
        return Failure(Database);
      }
      var fetched := storage.GetByID(id);
      if fetched.Failure? {
        return Failure(fetched.error);
      }
      var req := fetched.value;
      if req.status != Pending {
        return Failure(AlreadyResolved(req.status));
      }
      if env.checkedAt > req.expiresAt {
        return Failure(PastExpiry);
      }
      if user == req.requesterId {
        return Failure(SelfApproval);
      }

      var approvers := RecordInPlace(req.approvers, Approver(user, decision, comment, Some(env.now)));
      req := req.(approvers := approvers);
      var executeNow := false;
      var rejected := HasRejection(req.approvers);
      var approvals := ApprovalCount(req.approvers);
      if decision == Reject || rejected {
        req := req.(status := Rejected, resolvedAt := Some(env.now), resolvedBy := Some(user));
      } else if approvals >= req.requiredApprovals {
        req := req.(status := Approved, resolvedAt := Some(env.now), resolvedBy := Some(user));
        executeNow := true;
      }

      if !env.writeOk {
        return Failure(Database);
      }
      storage.Update(id, req);
      return Success(executeNow);
    }

    method Cancel(id: RequestId, user: UserId, env: Surroundings) returns (r: Result<(), Error>)
      modifies storage
      ensures Effect(r, storage.rows) == CancelEffect(old(storage.rows), id, user, env)
      ensures r == Success(()) <==>
        && env.readOk && env.writeOk && id in old(storage.rows)
        && old(storage.rows)[id].requesterId == user && old(storage.rows)[id].status == Pending
      ensures storage.rows ==
        if r.Failure? then old(storage.rows)
        else old(storage.rows)[id := old(storage.rows)[id].(status := Cancelled, resolvedAt := Some(env.now),
                                                            resolvedBy := Some(user))]
      ensures env.readOk && id !in old(storage.rows) ==> r == Failure(NotFound)
      ensures env.readOk && id in old(storage.rows) && old(storage.rows)[id].requesterId != user ==>
        r == Failure(NotRequester)
      ensures
        (&& env.readOk && id in old(storage.rows) && old(storage.rows)[id].requesterId == user
         && old(storage.rows)[id].status != Pending) ==> r == Failure(NotPending)
    {
      if !env.readOk {
        return Failure(Database);
      }
      var fetched := storage.GetByID(id);
      if fetched.Failure? {
        return Failure(fetched.error);
      }
      var req := fetched.value;
      if req.requesterId != user {
        return Failure(NotRequester);
      }
      if req.status != Pending {
        return Failure(NotPending);
      }
      req := req.(status := Cancelled, resolvedAt := Some(env.now), resolvedBy := Some(user));
      if !env.writeOk {
        return Failure(Database);
      }
      storage.Update(id, req);
      return Success(());
    }
  }
}
