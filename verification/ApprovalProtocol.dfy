/** The approval workflow under interleaving. Decide and Cancel hold one mutex from their read to
    their write; submission, the message-id write-back that follows it, and the expiry worker
    take no lock and may fall anywhere in between. */
module ApprovalProtocol {
  import opened Wrappers
  import opened ApprovalRequests
  import opened ApprovalManager

  datatype Call =
    | DecideCall(id: RequestId, user: UserId, decision: Decision, comment: string)
    | CancelCall(id: RequestId, user: UserId)

  /** The mutex and what its holder has in memory: the row it read, or the row it will write. */
  datatype Holder =
    | Free
    | HasRead(call: Call, read: Request)
    | ToWrite(id: RequestId, next: Request, executeNow: bool)

  /** drafts holds the submitters' in-memory copies whose write-back is still to come (it is
      skipped when the message cannot be sent); executed lists the requests for which a Decide
      call has returned executeNow. */
  datatype State = State(rows: Table, drafts: Table, lock: Holder, clock: Time, executed: seq<RequestId>)

  datatype Step =
    | Tick(delta: nat)
    | Submit(id: RequestId, req: Request)
    | WriteBack(id: RequestId, messageId: int)
    | NoWriteBack(id: RequestId)
    | ExpireOld(now: Time)
    | Read(call: Call)
    | Check
    | Write
    | WriteFails

  const INITIAL := State(map[], map[], Free, 0, [])

  /** One atomic step. A step that is not enabled, or a call that returns an error, leaves the
      rows unchanged. */
  function Apply(cfg: Config, s: State, step: Step): State {
    match step
    case Tick(delta) => s.(clock := s.clock + delta)
    case Submit(id, req) =>
      (match MatchingRule(cfg, req.action, req.cluster)
       case None => s
       case Some(rule) =>
         if id in s.rows then s
         else
           var row := NewRow(req, rule, s.clock, cfg.defaultExpiry);
           s.(rows := s.rows[id := row], drafts := s.drafts[id := row]))
    case WriteBack(id, messageId) =>
      if id !in s.drafts then s
      else s.(rows := UpdateRow(s.rows, id, s.drafts[id].(messageId := messageId)), drafts := s.drafts - {id})
    case NoWriteBack(id) => s.(drafts := s.drafts - {id})
    case ExpireOld(now) => if now > s.clock then s else s.(rows := ExpireRows(s.rows, now))
    case Read(call) =>
      if s.lock != Free || call.id !in s.rows then s else s.(lock := HasRead(call, s.rows[call.id]))
    case Check =>
      if s.lock.HasRead? then s.(lock := Checked(s.lock.call, s.lock.read, s.clock)) else s
    case Write =>
      if !s.lock.ToWrite? then s
      else s.(rows := UpdateRow(s.rows, s.lock.id, s.lock.next), lock := Free,
              executed := if s.lock.executeNow then s.executed + [s.lock.id] else s.executed)
    case WriteFails => if s.lock.ToWrite? then s.(lock := Free) else s
  }

  /** The checks on the row that was read and the change made to it in memory. */
  function Checked(call: Call, read: Request, now: Time): Holder {
    match call
    case DecideCall(id, user, decision, comment) =>
      if Refusal(read, user, now).Some? then Free
      else
        var vote := Vote(read, Approver(user, decision, comment, Some(now)), now);
        ToWrite(id, vote.next, vote.executeNow)
    case CancelCall(id, user) =>
      if CancelRefusal(read, user).Some? then Free else ToWrite(id, Resolved(read, Cancelled, now, user), false)
  }

  function Run(cfg: Config, s: State, steps: seq<Step>): State
    decreases |steps|
  {
    if steps == [] then s else Run(cfg, Apply(cfg, s, steps[0]), steps[1..])
  }

  // ---------- The calls of the manager are uninterrupted runs ----------

  lemma {:induction false} SubmitIsStep(cfg: Config, s: State, id: RequestId, req: Request)
    ensures Apply(cfg, s, Submit(id, req)).rows ==
            SubmitEffect(cfg, s.rows, id, req, Surroundings(s.clock, s.clock, true, true)).rows
  {
  }

  /** Without interference, read, check and write are the manager's Decide. */
  lemma {:induction false} DecideIsRun(cfg: Config, s: State, id: RequestId, user: UserId, decision: Decision,
                                       comment: string)
    requires s.lock == Free
    ensures
      var env := Surroundings(s.clock, s.clock, true, true);
      var effect := DecideEffect(s.rows, id, user, decision, comment, env);
      var after := Run(cfg, s, [Read(DecideCall(id, user, decision, comment)), Check, Write]);
      && after.rows == effect.rows
      && after.lock == Free
      && after.executed == if effect.result == Success(true) then s.executed + [id] else s.executed
  {
    var call := DecideCall(id, user, decision, comment);
    RunThree(cfg, s, Read(call), Check, Write);
  }

  lemma {:induction false} CancelIsRun(cfg: Config, s: State, id: RequestId, user: UserId)
    requires s.lock == Free
    ensures
      var after := Run(cfg, s, [Read(CancelCall(id, user)), Check, Write]);
      && after.rows == CancelEffect(s.rows, id, user, Surroundings(s.clock, s.clock, true, true)).rows
      && after.lock == Free
      && after.executed == s.executed
  {
    RunThree(cfg, s, Read(CancelCall(id, user)), Check, Write);
  }

  lemma {:induction false} RunOne(cfg: Config, s: State, a: Step)
    ensures Run(cfg, s, [a]) == Apply(cfg, s, a)
  {
    assert Run(cfg, s, [a]) == Run(cfg, Apply(cfg, s, a), [a][1..]);
  }

  lemma {:induction false} RunThree(cfg: Config, s: State, a: Step, b: Step, c: Step)
    ensures Run(cfg, s, [a, b, c]) == Apply(cfg, Apply(cfg, Apply(cfg, s, a), b), c)
  {
    var t := Apply(cfg, s, a);
    assert [a, b, c][1..] == [b, c] && [b, c][1..] == [c];
    assert Run(cfg, t, [b, c]) == Run(cfg, Apply(cfg, t, b), [c]);
    assert Run(cfg, Apply(cfg, t, b), [c]) == Apply(cfg, Apply(cfg, t, b), c);
  }

  /** A call whose write fails changes nothing and gives the lock back. */
  lemma {:induction false} FailedWriteIsRun(cfg: Config, s: State, call: Call)
    requires s.lock == Free
    ensures
      var after := Run(cfg, s, [Read(call), Check, WriteFails]);
      after.rows == s.rows && after.lock == Free && after.executed == s.executed && after.drafts == s.drafts
  {
    RunThree(cfg, s, Read(call), Check, WriteFails);
  }

  /** The expiry worker's step expires exactly the pending rows past due. */
  lemma {:induction false} ExpiryIsStep(cfg: Config, s: State, now: Time, id: RequestId)
    requires now <= s.clock && id in s.rows
    ensures
      var t := Apply(cfg, s, ExpireOld(now));
      && t.rows.Keys == s.rows.Keys
      && t.rows[id] == if s.rows[id].status == Pending && s.rows[id].expiresAt < now
                       then s.rows[id].(status := Expired, resolvedAt := Some(now))
                       else s.rows[id]
  {
  }

  /** The write-back of a message id also brings back what the submitter's copy says of the rest. */
  lemma {:induction false} WriteBackWrites(cfg: Config, s: State, id: RequestId, messageId: int)
    requires id in s.drafts && id in s.rows
    ensures
      var t := Apply(cfg, s, WriteBack(id, messageId));
      && t.rows == s.rows[id := t.rows[id]] && id !in t.drafts && t.executed == s.executed && t.lock == s.lock
      && t.rows[id].messageId == messageId
      && t.rows[id].status == s.drafts[id].status && t.rows[id].approvers == s.drafts[id].approvers
      && t.rows[id].resolvedAt == s.drafts[id].resolvedAt && t.rows[id].resolvedBy == s.drafts[id].resolvedBy
      && SameTerms(t.rows[id], s.rows[id])
    ensures Apply(cfg, s, NoWriteBack(id)) == s.(drafts := s.drafts - {id})
  {
  }

  /** The columns that no statement writes after the submission. */
  predicate SameTerms(a: Request, b: Request) {
    && a.requesterId == b.requesterId && a.requiredApprovals == b.requiredApprovals
    && a.action == b.action && a.cluster == b.cluster
    && a.createdAt == b.createdAt && a.expiresAt == b.expiresAt
  }

  // ---------- What the configuration demands ----------

  /** The row waits for what the first rule that covers its action and cluster requires, for as
      long as the configuration says. */
  ghost predicate AsConfigured(cfg: Config, r: Request) {
    && cfg.enabled
    && r.expiresAt == r.createdAt + cfg.defaultExpiry
    && exists k: nat ::
         IsFirstRule(cfg, r.action, r.cluster, k) && r.requiredApprovals == cfg.rules[k].requiredApprovals
  }

  /** No step changes the terms of a row, and a new row has those of the configuration. */
  lemma {:induction false} StepKeepsTerms(cfg: Config, s: State, step: Step)
    ensures
      var t := Apply(cfg, s, step);
      forall id :: id in s.rows ==> id in t.rows && SameTerms(t.rows[id], s.rows[id])
  {
  }

  lemma {:induction false} NewRowAsConfigured(cfg: Config, req: Request, rule: Rule, now: Time)
    requires MatchingRule(cfg, req.action, req.cluster) == Some(rule)
    ensures AsConfigured(cfg, NewRow(req, rule, now, cfg.defaultExpiry))
  {
    var k: nat :| IsFirstRule(cfg, req.action, req.cluster, k) && cfg.rules[k] == rule;
    var row := NewRow(req, rule, now, cfg.defaultExpiry);
    assert IsFirstRule(cfg, row.action, row.cluster, k);
  }

  lemma {:induction false} StepKeepsConfigured(cfg: Config, s: State, step: Step, id: RequestId)
    requires id in s.rows ==> AsConfigured(cfg, s.rows[id])
    ensures
      var t := Apply(cfg, s, step);
      id in t.rows ==> AsConfigured(cfg, t.rows[id])
  {
    var t := Apply(cfg, s, step);
    StepKeepsTerms(cfg, s, step);
    if id in s.rows {
      var r, q := s.rows[id], t.rows[id];
      var k: nat :| IsFirstRule(cfg, r.action, r.cluster, k) && r.requiredApprovals == cfg.rules[k].requiredApprovals;
      assert IsFirstRule(cfg, q.action, q.cluster, k);
    } else if id in t.rows {
      var rule := MatchingRule(cfg, step.req.action, step.req.cluster);
      NewRowAsConfigured(cfg, step.req, rule.value, s.clock);
    }
  }

  lemma {:induction false} RunKeepsConfigured(cfg: Config, s: State, steps: seq<Step>, id: RequestId)
    requires id in s.rows ==> AsConfigured(cfg, s.rows[id])
    ensures id in Run(cfg, s, steps).rows ==> AsConfigured(cfg, Run(cfg, s, steps).rows[id])
    decreases |steps|
  {
    if steps != [] {
      StepKeepsConfigured(cfg, s, steps[0], id);
      RunKeepsConfigured(cfg, Apply(cfg, s, steps[0]), steps[1..], id);
    }
  }

  /** In every reachable state each row's quorum and deadline are those of the configuration. */
  lemma {:induction false} QuorumAsConfigured(cfg: Config, steps: seq<Step>, id: RequestId)
    requires id in Run(cfg, INITIAL, steps).rows
    ensures AsConfigured(cfg, Run(cfg, INITIAL, steps).rows[id])
  {
    RunKeepsConfigured(cfg, INITIAL, steps, id);
  }

  // ---------- What every run keeps ----------

  predicate Open(status: Status) {
    status == Pending || status == Expired
  }

  /** Whoever holds the lock with a row that may still be decided finds it open in the table. */
  ghost predicate LockSafe(rows: Table, lock: Holder) {
    match lock
    case Free => true
    case HasRead(call, read) => call.id in rows && (read.status == Pending ==> Open(rows[call.id].status))
    case ToWrite(id, next, executeNow) =>
      && id in rows
      && Open(rows[id].status)
      && next.status != Expired
      && (executeNow <==> next.status == Approved)
  }

  ghost predicate Orderly(s: State) {
    && (forall id :: id in s.drafts ==> id in s.rows && s.drafts[id].status == Pending)
    && LockSafe(s.rows, s.lock)
  }

  /** No row disappears, and open rows stay open. */
  ghost predicate OpenStaysOpen(before: Table, after: Table) {
    forall id :: id in before ==> id in after && (Open(before[id].status) ==> Open(after[id].status))
  }

  lemma {:induction false} LocklessKeepsOrderly(cfg: Config, s: State, step: Step)
    requires Orderly(s) && (step.Submit? || step.WriteBack? || step.ExpireOld?)
    ensures Orderly(Apply(cfg, s, step))
  {
    var t := Apply(cfg, s, step);
    assert OpenStaysOpen(s.rows, t.rows) && t.lock == s.lock;
    assert LockSafe(t.rows, t.lock);
  }

  lemma {:induction false} CheckKeepsOrderly(cfg: Config, s: State)
    requires Orderly(s)
    ensures Orderly(Apply(cfg, s, Check))
  {
  }

  lemma {:induction false} StepKeepsOrderly(cfg: Config, s: State, step: Step)
    requires Orderly(s)
    ensures Orderly(Apply(cfg, s, step))
  {
    match step {
      case Check => CheckKeepsOrderly(cfg, s);
      case Submit(_, _) => LocklessKeepsOrderly(cfg, s, step);
      case WriteBack(_, _) => LocklessKeepsOrderly(cfg, s, step);
      case ExpireOld(_) => LocklessKeepsOrderly(cfg, s, step);
      case _ =>
    }
  }

  lemma {:induction false} RunKeepsOrderly(cfg: Config, s: State, steps: seq<Step>)
    requires Orderly(s)
    ensures Orderly(Run(cfg, s, steps))
    decreases |steps|
  {
    if steps != [] {
      StepKeepsOrderly(cfg, s, steps[0]);
      RunKeepsOrderly(cfg, Apply(cfg, s, steps[0]), steps[1..]);
    }
  }

  // ---------- How often a request is executed ----------

  /** A write-back that lands on an approved request makes it pending again. */
  predicate Reopens(s: State, step: Step) {
    step.WriteBack? && step.id in s.drafts && step.id in s.rows && s.rows[step.id].status == Approved
  }

  /** How many steps of the run reopen the request. */
  function Reopenings(cfg: Config, s: State, steps: seq<Step>, id: RequestId): nat
    decreases |steps|
  {
    if steps == [] then 0
    else (if Reopens(s, steps[0]) && steps[0].id == id then 1 else 0)
         + Reopenings(cfg, Apply(cfg, s, steps[0]), steps[1..], id)
  }

  function Executions(s: State, id: RequestId): nat {
    multiset(s.executed)[id]
  }

  function Approvals(s: State, id: RequestId): nat {
    if id in s.rows && s.rows[id].status == Approved then 1 else 0
  }

  lemma {:induction false} WriteCounts(cfg: Config, s: State, id: RequestId)
    requires Orderly(s)
    ensures
      var t := Apply(cfg, s, Write);
      Executions(t, id) + Approvals(s, id) == Executions(s, id) + Approvals(t, id)
  {
    if s.lock.ToWrite? {
      assert multiset(s.executed + [s.lock.id]) == multiset(s.executed) + multiset{s.lock.id};
    }
  }

  lemma {:induction false} LocklessCounts(cfg: Config, s: State, step: Step, id: RequestId)
    requires Orderly(s) && (step.Submit? || step.WriteBack? || step.ExpireOld?)
    ensures
      var t := Apply(cfg, s, step);
      var reopened := if Reopens(s, step) && step.id == id then 1 else 0;
      t.executed == s.executed && Approvals(s, id) == Approvals(t, id) + reopened
  {
  }

  lemma {:induction false} StepCounts(cfg: Config, s: State, step: Step, id: RequestId)
    requires Orderly(s)
    ensures
      var t := Apply(cfg, s, step);
      var reopened := if Reopens(s, step) && step.id == id then 1 else 0;
      Executions(t, id) + Approvals(s, id) == Executions(s, id) + Approvals(t, id) + reopened
  {
    match step {
      case Write => WriteCounts(cfg, s, id);
      case Submit(_, _) => LocklessCounts(cfg, s, step, id);
      case WriteBack(_, _) => LocklessCounts(cfg, s, step, id);
      case ExpireOld(_) => LocklessCounts(cfg, s, step, id);
      case _ =>
    }
  }

  lemma {:induction false} RunCounts(cfg: Config, s: State, steps: seq<Step>, id: RequestId)
    requires Orderly(s)
    ensures
      var t := Run(cfg, s, steps);
      Executions(t, id) + Approvals(s, id) == Executions(s, id) + Approvals(t, id) + Reopenings(cfg, s, steps, id)
    decreases |steps|
  {
    if steps != [] {
      StepCounts(cfg, s, steps[0], id);
      StepKeepsOrderly(cfg, s, steps[0]);
      RunCounts(cfg, Apply(cfg, s, steps[0]), steps[1..], id);
    }
  }

  /** A submitter has one copy to write back, and an id cannot be submitted twice. */
  lemma {:induction false} ReopenedAtMostOnce(cfg: Config, s: State, steps: seq<Step>, id: RequestId)
    ensures Reopenings(cfg, s, steps, id) <= 1
    ensures id in s.rows && id !in s.drafts ==> Reopenings(cfg, s, steps, id) == 0
    decreases |steps|
  {
    if steps != [] {
      ReopenedAtMostOnce(cfg, Apply(cfg, s, steps[0]), steps[1..], id);
    }
  }

  /** In every run, without exception, the Decide calls on a request have returned executeNow once
      if it is approved now, and once more if it has been reopened, which happens at most once. So
      executions match approval exactly when it has not been reopened. */
  lemma {:induction false} ExecutionsCounted(cfg: Config, steps: seq<Step>, id: RequestId)
    ensures
      var s := Run(cfg, INITIAL, steps);
      Executions(s, id) == Approvals(s, id) + Reopenings(cfg, INITIAL, steps, id)
    ensures Reopenings(cfg, INITIAL, steps, id) <= 1
  {
    RunCounts(cfg, INITIAL, steps, id);
    ReopenedAtMostOnce(cfg, INITIAL, steps, id);
  }

  predicate NeverReopens(cfg: Config, s: State, steps: seq<Step>)
    decreases |steps|
  {
    steps == [] || (!Reopens(s, steps[0]) && NeverReopens(cfg, Apply(cfg, s, steps[0]), steps[1..]))
  }

  /** Each approved request has been executed once, and nothing else has been. */
  ghost predicate ExecutionsMatch(s: State) {
    forall id :: Executions(s, id) == Approvals(s, id)
  }

  ghost predicate AlwaysMatch(cfg: Config, s: State, steps: seq<Step>)
    decreases |steps|
  {
    ExecutionsMatch(s) && (steps == [] || AlwaysMatch(cfg, Apply(cfg, s, steps[0]), steps[1..]))
  }

  /** Executions and approvals match after every step of a run if and only if no write-back lands
      on an approved row; one that lands on a rejected or cancelled row does no harm here. */
  lemma {:induction false} ExecutionsMatchIff(cfg: Config, s: State, steps: seq<Step>)
    requires Orderly(s) && ExecutionsMatch(s)
    ensures AlwaysMatch(cfg, s, steps) <==> NeverReopens(cfg, s, steps)
    decreases |steps|
  {
    if steps != [] {
      var t := Apply(cfg, s, steps[0]);
      if Reopens(s, steps[0]) {
        StepCounts(cfg, s, steps[0], steps[0].id);
        assert Executions(t, steps[0].id) != Approvals(t, steps[0].id);
      } else {
        forall id ensures Executions(t, id) == Approvals(t, id) {
          StepCounts(cfg, s, steps[0], id);
        }
        StepKeepsOrderly(cfg, s, steps[0]);
        ExecutionsMatchIff(cfg, t, steps[1..]);
      }
    }
  }

  // ---------- Outcomes that last ----------

  /** A write-back that lands after the request has been approved, rejected or cancelled. */
  predicate Late(s: State, step: Step) {
    step.WriteBack? && step.id in s.drafts && step.id in s.rows && !Open(s.rows[step.id].status)
  }

  predicate NoLateWriteBack(cfg: Config, s: State, steps: seq<Step>)
    decreases |steps|
  {
    steps == [] || (!Late(s, steps[0]) && NoLateWriteBack(cfg, Apply(cfg, s, steps[0]), steps[1..]))
  }

  /** Rows that are no longer open stay as they are. */
  ghost predicate OpenOrSame(before: Table, after: Table) {
    forall id :: id in before && !Open(before[id].status) ==> id in after && after[id] == before[id]
  }

  /** No step of the run changes a row that is approved, rejected or cancelled. */
  ghost predicate OutcomesLast(cfg: Config, s: State, steps: seq<Step>)
    decreases |steps|
  {
    steps == [] ||
    (&& OpenOrSame(s.rows, Apply(cfg, s, steps[0]).rows)
     && OutcomesLast(cfg, Apply(cfg, s, steps[0]), steps[1..]))
  }

  lemma {:induction false} StepKeepsOutcomes(cfg: Config, s: State, step: Step)
    requires Orderly(s)
    ensures OpenOrSame(s.rows, Apply(cfg, s, step).rows) <==> !Late(s, step)
  {
    if Late(s, step) {
      assert Apply(cfg, s, step).rows[step.id].status == Pending;
    }
  }

  /** Approved, rejected and cancelled rows never change again, in every interleaving, exactly
      when no write-back comes late. */
  lemma {:induction false} OutcomesLastIff(cfg: Config, s: State, steps: seq<Step>)
    requires Orderly(s)
    ensures OutcomesLast(cfg, s, steps) <==> NoLateWriteBack(cfg, s, steps)
    decreases |steps|
  {
    if steps != [] {
      StepKeepsOutcomes(cfg, s, steps[0]);
      StepKeepsOrderly(cfg, s, steps[0]);
      OutcomesLastIff(cfg, Apply(cfg, s, steps[0]), steps[1..]);
    }
  }

  // ---------- When a resolved row is final ----------

  /** A write-back is still to come, or the lock holder will write the row, or has read it and
      would pass its checks now. */
  predicate CanStillWrite(s: State, id: RequestId) {
    || id in s.drafts
    || (s.lock.ToWrite? && s.lock.id == id)
    || (s.lock.HasRead? && s.lock.call.id == id && Checked(s.lock.call, s.lock.read, s.clock).ToWrite?)
  }

  /** No run changes the row. */
  ghost predicate Final(cfg: Config, s: State, id: RequestId)
    requires id in s.rows
  {
    forall steps :: id in Run(cfg, s, steps).rows && Run(cfg, s, steps).rows[id] == s.rows[id]
  }

  /** A call that is refused now is refused at every later time. */
  lemma {:induction false} StepKeepsFinal(cfg: Config, s: State, step: Step, id: RequestId)
    requires id in s.rows && s.rows[id].status != Pending && !CanStillWrite(s, id)
    ensures
      var t := Apply(cfg, s, step);
      id in t.rows && t.rows[id] == s.rows[id] && !CanStillWrite(t, id)
  {
  }

  lemma {:induction false} RunKeepsFinal(cfg: Config, s: State, steps: seq<Step>, id: RequestId)
    requires id in s.rows && s.rows[id].status != Pending && !CanStillWrite(s, id)
    ensures id in Run(cfg, s, steps).rows && Run(cfg, s, steps).rows[id] == s.rows[id]
    decreases |steps|
  {
    if steps != [] {
      StepKeepsFinal(cfg, s, steps[0], id);
      RunKeepsFinal(cfg, Apply(cfg, s, steps[0]), steps[1..], id);
    }
  }

  /** The run that changes a resolved row somebody can still write. */
  lemma {:induction false} StillWritten(cfg: Config, s: State, id: RequestId) returns (steps: seq<Step>)
    requires Orderly(s) && id in s.rows && s.rows[id].status != Pending && CanStillWrite(s, id)
    ensures id in Run(cfg, s, steps).rows && Run(cfg, s, steps).rows[id].status != s.rows[id].status
  {
    if id in s.drafts {
      steps := [WriteBack(id, 0)];
      RunOne(cfg, s, WriteBack(id, 0));
    } else if s.lock.ToWrite? {
      steps := [Write];
      RunOne(cfg, s, Write);
    } else {
      steps := [Check, Write];
      CheckKeepsOrderly(cfg, s);
      assert Run(cfg, s, steps) == Run(cfg, Apply(cfg, s, Check), [Write]);
      RunOne(cfg, Apply(cfg, s, Check), Write);
    }
  }

  /** A row that is expired, approved, rejected or cancelled stays so in every continuation if and
      only if nobody can still write it. */
  lemma {:induction false} FinalIff(cfg: Config, s: State, id: RequestId)
    requires Orderly(s) && id in s.rows && s.rows[id].status != Pending
    ensures Final(cfg, s, id) <==> !CanStillWrite(s, id)
  {
    if CanStillWrite(s, id) {
      var steps := StillWritten(cfg, s, id);
      assert Run(cfg, s, steps).rows[id] != s.rows[id];
    } else {
      forall steps ensures id in Run(cfg, s, steps).rows && Run(cfg, s, steps).rows[id] == s.rows[id] {
        RunKeepsFinal(cfg, s, steps, id);
      }
    }
  }

  // ---------- When rows were resolved ----------

  /** An approval or rejection came by the deadline, an expiry after it. */
  predicate ResolvedInTime(r: Request) {
    && (r.status == Approved || r.status == Rejected ==> r.resolvedAt.Some? && r.resolvedAt.value <= r.expiresAt)
    && (r.status == Expired ==> r.resolvedAt.Some? && r.resolvedAt.value > r.expiresAt)
  }

  ghost predicate TimesSound(s: State) {
    && (forall id :: id in s.rows ==> ResolvedInTime(s.rows[id]))
    && (forall id :: id in s.drafts ==> id in s.rows && s.drafts[id].status == Pending)
    && match s.lock
       case Free => true
       case HasRead(call, read) => call.id in s.rows && read.expiresAt == s.rows[call.id].expiresAt
       case ToWrite(id, next, _) =>
         id in s.rows && next.expiresAt == s.rows[id].expiresAt && ResolvedInTime(next)
  }

  lemma {:induction false} CheckKeepsTimes(cfg: Config, s: State)
    requires TimesSound(s)
    ensures TimesSound(Apply(cfg, s, Check))
  {
  }

  lemma {:induction false} WriteKeepsTimes(cfg: Config, s: State)
    requires TimesSound(s)
    ensures TimesSound(Apply(cfg, s, Write))
  {
  }

  lemma {:induction false} LocklessKeepsTimes(cfg: Config, s: State, step: Step)
    requires TimesSound(s) && (step.Submit? || step.WriteBack? || step.ExpireOld?)
    ensures TimesSound(Apply(cfg, s, step))
  {
  }

  lemma {:induction false} StepKeepsTimes(cfg: Config, s: State, step: Step)
    requires TimesSound(s)
    ensures TimesSound(Apply(cfg, s, step))
  {
    match step {
      case Check => CheckKeepsTimes(cfg, s);
      case Write => WriteKeepsTimes(cfg, s);
      case Submit(_, _) => LocklessKeepsTimes(cfg, s, step);
      case WriteBack(_, _) => LocklessKeepsTimes(cfg, s, step);
      case ExpireOld(_) => LocklessKeepsTimes(cfg, s, step);
      case _ =>
    }
  }

  lemma {:induction false} RunKeepsTimes(cfg: Config, s: State, steps: seq<Step>)
    requires TimesSound(s)
    ensures TimesSound(Run(cfg, s, steps))
    decreases |steps|
  {
    if steps != [] {
      StepKeepsTimes(cfg, s, steps[0]);
      RunKeepsTimes(cfg, Apply(cfg, s, steps[0]), steps[1..]);
    }
  }

  /** In every reachable state, even after late write-backs. */
  lemma {:induction false} OutcomesInTime(cfg: Config, steps: seq<Step>, id: RequestId)
    requires id in Run(cfg, INITIAL, steps).rows
    ensures ResolvedInTime(Run(cfg, INITIAL, steps).rows[id])
  {
    RunKeepsTimes(cfg, INITIAL, steps);
  }

  // ---------- What a late write-back does ----------

  const ONE_APPROVAL := Config(true, 1800, [Rule("deploy", ["*"], 1, [])])

  const EMPTY_REQUEST :=
    Request(1, "deploy", "prod", Pending, [], 0, 0, 0, None, None, 0)

  function ApproveSteps(user: UserId): seq<Step> {
    [Read(DecideCall("r", user, Approve, "")), Check, Write]
  }

  lemma RunAppend(cfg: Config, s: State, first: seq<Step>, second: seq<Step>)
    ensures Run(cfg, s, first + second) == Run(cfg, Run(cfg, s, first), second)
    decreases |first|
  {
    if first == [] {
      assert first + second == second;
    } else {
      assert (first + second)[1..] == first[1..] + second;
      RunAppend(cfg, Apply(cfg, s, first[0]), first[1..], second);
    }
  }

  /** A pending request that one approval satisfies. */
  predicate OneVoteLeft(s: State, id: RequestId) {
    && s.lock == Free && id in s.rows
    && s.rows[id].status == Pending && s.rows[id].approvers == [] && s.rows[id].requiredApprovals == 1
    && s.clock <= s.rows[id].expiresAt
  }

  lemma {:induction false} SingleApproval(entry: Approver)
    requires entry.decision == Approve
    ensures Record([], entry) == [entry] && Tally([entry], Approve) == 1 && !HasDecision([entry], Reject)
  {
    assert [entry][..0] == [];
  }

  lemma {:induction false} OneApprovalSuffices(req: Request, entry: Approver, now: Time)
    requires req.approvers == [] && req.requiredApprovals == 1 && entry.decision == Approve
    ensures Vote(req, entry, now).executeNow && Vote(req, entry, now).next.status == Approved
  {
    SingleApproval(entry);
  }

  lemma {:induction false} ApprovalExecutes(cfg: Config, s: State, user: UserId)
    requires OneVoteLeft(s, "r") && user != s.rows["r"].requesterId
    ensures
      var t := Run(cfg, s, ApproveSteps(user));
      && t.executed == s.executed + ["r"]
      && t.lock == Free && t.clock == s.clock && t.drafts == s.drafts
      && "r" in t.rows && t.rows["r"].status == Approved && t.rows["r"].expiresAt == s.rows["r"].expiresAt
      && SameTerms(t.rows["r"], s.rows["r"])
  {
    RunThree(cfg, s, Read(DecideCall("r", user, Approve, "")), Check, Write);
    OneApprovalSuffices(s.rows["r"], Approver(user, Approve, "", Some(s.clock)), s.clock);
  }

  lemma {:induction false} FreshSubmission()
    ensures
      var s := Run(ONE_APPROVAL, INITIAL, [Submit("r", EMPTY_REQUEST)]);
      && OneVoteLeft(s, "r") && s.executed == [] && s.clock == 0 && s.rows["r"].requesterId == 1
      && s.drafts == map["r" := s.rows["r"]]
  {
    var cfg := ONE_APPROVAL;
    assert Covers(cfg.rules[0], "deploy", "prod") by {
      assert cfg.rules[0].clusters[0] == "*";
    }
    assert MatchingFrom(cfg, "deploy", "prod", 0) == Some(cfg.rules[0]);
    var step := Submit("r", EMPTY_REQUEST);
    assert Run(cfg, INITIAL, [step]) == Run(cfg, Apply(cfg, INITIAL, step), [step][1..]);
  }

  /** The submitter's copy, written back after an approval, reopens the request, and a second
      approver triggers a second execution. */
  lemma {:induction false} LateWriteBackExecutesTwice()
    ensures
      var steps := [Submit("r", EMPTY_REQUEST)] + ApproveSteps(2) + [WriteBack("r", 7)] + ApproveSteps(3);
      Run(ONE_APPROVAL, INITIAL, steps).executed == ["r", "r"]
  {
    var cfg := ONE_APPROVAL;
    var a, b, c, d := [Submit("r", EMPTY_REQUEST)], ApproveSteps(2), [WriteBack("r", 7)], ApproveSteps(3);
    FreshSubmission();
    var s0 := Run(cfg, INITIAL, a);
    ApprovalExecutes(cfg, s0, 2);
    var s1 := Run(cfg, s0, b);
    var s2 := Apply(cfg, s1, WriteBack("r", 7));
    assert Run(cfg, s1, c) == Run(cfg, s2, c[1..]) == s2;
    ApprovalExecutes(cfg, s2, 3);
    RunAppend(cfg, INITIAL, a + b + c, d);
    RunAppend(cfg, INITIAL, a + b, c);
    RunAppend(cfg, INITIAL, a, b);
  }

  // ---------- Quorum in every reachable state ----------

  /** Requests are submitted without approver entries, as the checker builds them. */
  predicate CleanSubmits(steps: seq<Step>) {
    forall i :: 0 <= i < |steps| && steps[i].Submit? ==> steps[i].req.approvers == []
  }

  /** A row in somebody's memory that may still be written over the stored one. */
  ghost predicate Writable(rows: Table, id: RequestId, r: Request) {
    id in rows && SameTerms(r, rows[id]) && VotesConsistent(r)
  }

  ghost predicate LockSound(rows: Table, lock: Holder) {
    match lock
    case Free => true
    case HasRead(call, read) => Writable(rows, call.id, read)
    case ToWrite(id, next, _) => Writable(rows, id, next)
  }

  ghost predicate VotesSound(s: State) {
    && (forall id :: id in s.rows ==> VotesConsistent(s.rows[id]))
    && (forall id :: id in s.drafts ==> Writable(s.rows, id, s.drafts[id]))
    && LockSound(s.rows, s.lock)
  }

  /** The tables differ only in ways that keep every row consistent and every term fixed. */
  ghost predicate SoundChange(before: Table, after: Table) {
    && (forall id :: id in before ==> id in after && SameTerms(after[id], before[id]))
    && (forall id :: id in after ==> VotesConsistent(after[id]))
  }

  lemma {:induction false} CheckedIsConsistent(call: Call, read: Request, now: Time)
    requires VotesConsistent(read)
    ensures
      var h := Checked(call, read, now);
      h.Free? || (h.ToWrite? && h.id == call.id && SameTerms(h.next, read) && VotesConsistent(h.next))
  {
    match call {
      case DecideCall(id, user, decision, comment) =>
        if Refusal(read, user, now).None? {
          VoteKeepsConsistent(read, Approver(user, decision, comment, Some(now)), now);
        }
      case CancelCall(id, user) =>
    }
  }

  /** Consistency speaks of columns an update writes and of two it cannot change. */
  lemma {:induction false} UpdateIsSound(rows: Table, id: RequestId, next: Request)
    requires Writable(rows, id, next)
    requires forall k :: k in rows ==> VotesConsistent(rows[k])
    ensures SoundChange(rows, UpdateRow(rows, id, next))
  {
    var stored := UpdateRow(rows, id, next)[id];
    assert stored.approvers == next.approvers && stored.status == next.status && stored.resolvedBy == next.resolvedBy;
    assert VotesConsistent(stored);
  }

  lemma {:induction false} ExpiryIsSound(rows: Table, now: Time)
    requires forall k :: k in rows ==> VotesConsistent(rows[k])
    ensures SoundChange(rows, ExpireRows(rows, now))
  {
  }

  lemma {:induction false} NewRowIsConsistent(req: Request, rule: Rule, now: Time, expiry: int)
    requires req.approvers == []
    ensures VotesConsistent(NewRow(req, rule, now, expiry))
  {
  }

  lemma {:induction false} SoundChangeKeepsWritable(before: Table, after: Table, id: RequestId, r: Request)
    requires SoundChange(before, after) && Writable(before, id, r)
    ensures Writable(after, id, r)
  {
  }

  lemma {:induction false} SoundChangeKeepsSound(s: State, t: State)
    requires VotesSound(s) && SoundChange(s.rows, t.rows) && LockSound(s.rows, t.lock)
    requires forall id :: id in t.drafts ==> id in s.drafts && t.drafts[id] == s.drafts[id]
    ensures VotesSound(t)
  {
    forall id | id in t.drafts ensures Writable(t.rows, id, t.drafts[id]) {
      SoundChangeKeepsWritable(s.rows, t.rows, id, s.drafts[id]);
    }
    match t.lock {
      case Free =>
      case HasRead(call, read) => SoundChangeKeepsWritable(s.rows, t.rows, call.id, read);
      case ToWrite(id, next, _) => SoundChangeKeepsWritable(s.rows, t.rows, id, next);
    }
  }

  lemma {:induction false} SubmitKeepsSound(s: State, id: RequestId, row: Request)
    requires VotesSound(s) && id !in s.rows && VotesConsistent(row)
    ensures VotesSound(s.(rows := s.rows[id := row], drafts := s.drafts[id := row]))
  {
    var t := s.(rows := s.rows[id := row], drafts := s.drafts[id := row]);
    assert SoundChange(s.rows, t.rows);
    SoundChangeKeepsSound(s, t.(drafts := s.drafts));
    assert Writable(t.rows, id, row);
  }

  lemma {:induction false} SubmitStepKeepsSound(cfg: Config, s: State, id: RequestId, req: Request)
    requires VotesSound(s) && req.approvers == []
    ensures VotesSound(Apply(cfg, s, Submit(id, req)))
  {
    var rule := MatchingRule(cfg, req.action, req.cluster);
    if rule.Some? && id !in s.rows {
      NewRowIsConsistent(req, rule.value, s.clock, cfg.defaultExpiry);
      SubmitKeepsSound(s, id, NewRow(req, rule.value, s.clock, cfg.defaultExpiry));
    }
  }

  lemma {:induction false} WriteBackKeepsSound(cfg: Config, s: State, id: RequestId, messageId: int)
    requires VotesSound(s)
    ensures VotesSound(Apply(cfg, s, WriteBack(id, messageId)))
  {
    if id in s.drafts {
      var draft := s.drafts[id].(messageId := messageId);
      assert Writable(s.rows, id, s.drafts[id]);
      UpdateIsSound(s.rows, id, draft);
      SoundChangeKeepsSound(s, Apply(cfg, s, WriteBack(id, messageId)));
    }
  }

  lemma {:induction false} ExpiryKeepsSound(cfg: Config, s: State, now: Time)
    requires VotesSound(s)
    ensures VotesSound(Apply(cfg, s, ExpireOld(now)))
  {
    if now <= s.clock {
      ExpiryIsSound(s.rows, now);
      SoundChangeKeepsSound(s, Apply(cfg, s, ExpireOld(now)));
    }
  }

  lemma {:induction false} CheckKeepsSound(cfg: Config, s: State)
    requires VotesSound(s)
    ensures VotesSound(Apply(cfg, s, Check))
  {
    if s.lock.HasRead? {
      CheckedIsConsistent(s.lock.call, s.lock.read, s.clock);
    }
  }

  lemma {:induction false} WriteKeepsSound(cfg: Config, s: State)
    requires VotesSound(s)
    ensures VotesSound(Apply(cfg, s, Write))
  {
    if s.lock.ToWrite? {
      UpdateIsSound(s.rows, s.lock.id, s.lock.next);
      SoundChangeKeepsSound(s, Apply(cfg, s, Write));
    }
  }

  lemma {:induction false} StepKeepsVotesSound(cfg: Config, s: State, step: Step)
    requires VotesSound(s)
    requires step.Submit? ==> step.req.approvers == []
    ensures VotesSound(Apply(cfg, s, step))
  {
    match step {
      case Submit(id, req) => SubmitStepKeepsSound(cfg, s, id, req);
      case WriteBack(id, messageId) => WriteBackKeepsSound(cfg, s, id, messageId);
      case ExpireOld(now) => ExpiryKeepsSound(cfg, s, now);
      case Check => CheckKeepsSound(cfg, s);
      case Write => WriteKeepsSound(cfg, s);
      case _ =>
    }
  }

  lemma {:induction false} RunKeepsVotesSound(cfg: Config, s: State, steps: seq<Step>)
    requires VotesSound(s) && CleanSubmits(steps)
    ensures VotesSound(Run(cfg, s, steps))
    decreases |steps|
  {
    if steps != [] {
      StepKeepsVotesSound(cfg, s, steps[0]);
      assert forall i :: 0 <= i < |steps[1..]| ==> steps[1..][i] == steps[i + 1];
      RunKeepsVotesSound(cfg, Apply(cfg, s, steps[0]), steps[1..]);
    }
  }

  /** In every interleaving the stored votes explain the stored outcome: distinct voters without
      the requester, exactly the required approvals behind an approval, exactly one rejection, by
      the resolver, behind a rejection, and neither behind a row that is still undecided. */
  lemma {:induction false} OutcomesMatchVotes(cfg: Config, steps: seq<Step>, id: RequestId)
    requires CleanSubmits(steps)
    requires id in Run(cfg, INITIAL, steps).rows
    ensures VotesConsistent(Run(cfg, INITIAL, steps).rows[id])
  {
    RunKeepsVotesSound(cfg, INITIAL, steps);
  }

  /** The votes behind an execution: exactly the required number of distinct approvers, none of
      them the requester, and no rejection. */
  ghost predicate Backed(r: Request) {
    var approving := Voters(Ballot(r.approvers), Approve);
    && (r.requiredApprovals >= 1 ==> |approving| == r.requiredApprovals)
    && r.requesterId !in approving
    && Voters(Ballot(r.approvers), Reject) == {}
  }

  lemma {:induction false} ApprovedIsBacked(r: Request)
    requires VotesConsistent(r) && r.status == Approved
    ensures Backed(r)
  {
    TallyCountsUsers(r.approvers, Approve);
    TallyCountsUsers(r.approvers, Reject);
    TallyPositive(r.approvers, Reject);
    BallotUsers(r.approvers, r.requesterId);
  }

  /** In every run, late write-backs included, each execution has the quorum that the configuration
      demands at the moment it is asked for. */
  lemma {:induction false} EveryExecutionBacked(cfg: Config, steps: seq<Step>, step: Step)
    requires CleanSubmits(steps) && (step.Submit? ==> step.req.approvers == [])
    ensures
      var s := Run(cfg, INITIAL, steps);
      var t := Apply(cfg, s, step);
      || t.executed == s.executed
      || (&& s.lock.ToWrite? && t.executed == s.executed + [s.lock.id]
          && s.lock.id in t.rows && t.rows[s.lock.id].status == Approved
          && Backed(t.rows[s.lock.id]) && AsConfigured(cfg, t.rows[s.lock.id]))
  {
    var s := Run(cfg, INITIAL, steps);
    RunKeepsOrderly(cfg, INITIAL, steps);
    RunKeepsVotesSound(cfg, INITIAL, steps);
    StepKeepsVotesSound(cfg, s, step);
    if step.Write? && s.lock.ToWrite? && s.lock.executeNow {
      ApprovedIsBacked(Apply(cfg, s, step).rows[s.lock.id]);
      RunKeepsConfigured(cfg, INITIAL, steps, s.lock.id);
      StepKeepsConfigured(cfg, s, step, s.lock.id);
    }
  }

  /** The row of an executed request still shows that quorum, unless it has been reopened. */
  lemma {:induction false} ExecutionNeedsQuorum(cfg: Config, steps: seq<Step>, id: RequestId)
    requires CleanSubmits(steps) && Reopenings(cfg, INITIAL, steps, id) == 0
    requires id in Run(cfg, INITIAL, steps).executed
    ensures id in Run(cfg, INITIAL, steps).rows && Backed(Run(cfg, INITIAL, steps).rows[id])
  {
    var s := Run(cfg, INITIAL, steps);
    ExecutionsCounted(cfg, steps, id);
    assert Executions(s, id) > 0;
    OutcomesMatchVotes(cfg, steps, id);
    ApprovedIsBacked(s.rows[id]);
  }

  /** A decision that was read and checked in time wins against an expiry that lands before its
      write: the row leaves expired, and the action is executed. */
  lemma {:induction false} DecisionOverwritesExpiry(cfg: Config, s: State, user: UserId, late: nat)
    requires OneVoteLeft(s, "r") && user != s.rows["r"].requesterId && s.clock + late > s.rows["r"].expiresAt
    ensures
      var call := DecideCall("r", user, Approve, "");
      var before := Run(cfg, s, [Read(call), Check, Tick(late), ExpireOld(s.clock + late)]);
      var after := Apply(cfg, before, Write);
      && "r" in before.rows && before.rows["r"].status == Expired
      && "r" in after.rows && after.rows["r"].status == Approved
      && after.executed == s.executed + ["r"]
  {
    var call := DecideCall("r", user, Approve, "");
    var steps := [Read(call), Check, Tick(late), ExpireOld(s.clock + late)];
    assert steps == [Read(call), Check, Tick(late)] + [ExpireOld(s.clock + late)];
    RunAppend(cfg, s, [Read(call), Check, Tick(late)], [ExpireOld(s.clock + late)]);
    RunThree(cfg, s, Read(call), Check, Tick(late));
    OneApprovalSuffices(s.rows["r"], Approver(user, Approve, "", Some(s.clock)), s.clock);
    var t := Run(cfg, s, [Read(call), Check, Tick(late)]);
    assert Run(cfg, t, [ExpireOld(s.clock + late)]) == Run(cfg, Apply(cfg, t, ExpireOld(s.clock + late)), []);
  }
}
