/** Whole histories of decisions on one request. The stored list of approver entries is compared
    with an independent poll that only keeps each user's latest decision. */
module ApprovalQuorum {
  import opened Sets
  import opened Wrappers
  import opened ApprovalRequests
  import opened ApprovalManager

  datatype Ask = Ask(user: UserId, decision: Decision, comment: string, at: Time)

  /** One Decide call on the stored row; a refused call changes nothing. */
  function Decided(r: Request, ask: Ask): Outcome {
    if Refusal(r, ask.user, ask.at).Some? then Outcome(r, false)
    else Vote(r, Approver(ask.user, ask.decision, ask.comment, Some(ask.at)), ask.at)
  }

  lemma {:induction false} DecidedIsDecide(rows: Table, id: RequestId, ask: Ask)
    requires id in rows
    ensures
      var env := Surroundings(ask.at, ask.at, true, true);
      var effect := DecideEffect(rows, id, ask.user, ask.decision, ask.comment, env);
      && effect.rows == rows[id := Decided(rows[id], ask).next]
      && Decided(rows[id], ask).executeNow == (effect.result == Success(true))
  {
    if Refusal(rows[id], ask.user, ask.at).Some? {
      assert rows[id := rows[id]] == rows;
    }
  }

  function After(r: Request, asks: seq<Ask>): Request {
    if asks == [] then r
    else Decided(After(r, asks[..|asks| - 1]), asks[|asks| - 1]).next
  }

  // ---------- The reference poll ----------

  datatype Poll = Poll(ballot: map<UserId, Decision>, status: Status)

  function PollAfter(r: Request, asks: seq<Ask>): Poll {
    if asks == [] then Poll(map[], Pending)
    else PollStep(r, PollAfter(r, asks[..|asks| - 1]), asks[|asks| - 1])
  }

  ghost predicate Fresh(r: Request) {
    r.status == Pending && r.approvers == []
  }

  function PollStep(r: Request, poll: Poll, ask: Ask): Poll {
    if poll.status != Pending || ask.at > r.expiresAt || ask.user == r.requesterId then poll
    else
      var ballot := poll.ballot[ask.user := ask.decision];
      if ask.decision == Reject then Poll(ballot, Rejected)
      else if |Voters(ballot, Approve)| >= r.requiredApprovals then Poll(ballot, Approved)
      else Poll(ballot, Pending)
  }

  /** The columns a vote can change. */
  predicate SameButVotes(a: Request, b: Request) {
    a == b.(status := a.status, approvers := a.approvers, resolvedAt := a.resolvedAt, resolvedBy := a.resolvedBy)
  }

  ghost predicate Refines(r: Request, row: Request, poll: Poll) {
    row.status == poll.status && Ballot(row.approvers) == poll.ballot && SameButVotes(row, r) && VotesConsistent(row)
  }

  lemma {:induction false} StepRefines(r: Request, row: Request, poll: Poll, ask: Ask)
    requires Refines(r, row, poll)
    ensures Refines(r, Decided(row, ask).next, PollStep(r, poll, ask))
  {
    if Refusal(row, ask.user, ask.at).None? {
      var entry := Approver(ask.user, ask.decision, ask.comment, Some(ask.at));
      VoteKeepsConsistent(row, entry, ask.at);
      RecordUpdatesBallot(row.approvers, entry);
      TallyCountsUsers(Record(row.approvers, entry), Approve);
      RejectionsAfter(row, entry);
    }
  }

  /** The ordered entry list with in-place overwriting decides every history as the poll does. */
  lemma {:induction false} ListRefinesPoll(r: Request, asks: seq<Ask>)
    requires Fresh(r)
    ensures Refines(r, After(r, asks), PollAfter(r, asks))
  {
    if asks != [] {
      var front := asks[..|asks| - 1];
      ListRefinesPoll(r, front);
      StepRefines(r, After(r, front), PollAfter(r, front), asks[|asks| - 1]);
    }
  }

  // ---------- When the quorum is reached ----------

  /** The users who asked, leaving out the requester. */
  function Askers(r: Request, asks: seq<Ask>): set<UserId> {
    (set i | 0 <= i < |asks| :: asks[i].user) - {r.requesterId}
  }

  ghost predicate TimelyApprovals(r: Request, asks: seq<Ask>) {
    forall i :: 0 <= i < |asks| ==> asks[i].decision == Approve && asks[i].at <= r.expiresAt
  }

  lemma AskersAppend(r: Request, asks: seq<Ask>)
    requires asks != []
    ensures
      var user := asks[|asks| - 1].user;
      Askers(r, asks) == Askers(r, asks[..|asks| - 1]) + if user == r.requesterId then {} else {user}
  {
    var front := asks[..|asks| - 1];
    assert forall i :: 0 <= i < |front| ==> front[i] == asks[i];
    var users, earlier := set i | 0 <= i < |asks| :: asks[i].user, set i | 0 <= i < |front| :: front[i].user;
    assert earlier <= users;
    assert users == earlier + {asks[|asks| - 1].user};
  }

  ghost predicate PollCounts(r: Request, poll: Poll, askers: set<UserId>) {
    && (poll.status == if |askers| < r.requiredApprovals then Pending else Approved)
    && (poll.status == Pending ==> Voters(poll.ballot, Approve) == askers == poll.ballot.Keys)
  }

  lemma {:induction false} PollStepCounts(r: Request, poll: Poll, askers: set<UserId>, ask: Ask)
    requires PollCounts(r, poll, askers) && ask.decision == Approve && ask.at <= r.expiresAt
    ensures PollCounts(r, PollStep(r, poll, ask), askers + if ask.user == r.requesterId then {} else {ask.user})
  {
    var after := askers + if ask.user == r.requesterId then {} else {ask.user};
    SubsetCard(askers, after);
    if poll.status == Pending && ask.user != r.requesterId {
      assert Voters(poll.ballot[ask.user := Approve], Approve) == after;
    }
  }

  lemma {:induction false} PollCountsAskers(r: Request, asks: seq<Ask>)
    requires r.requiredApprovals >= 1 && TimelyApprovals(r, asks)
    ensures PollCounts(r, PollAfter(r, asks), Askers(r, asks))
  {
    if asks == [] {
      assert Askers(r, asks) == {};
    } else {
      var front := asks[..|asks| - 1];
      PollCountsAskers(r, front);
      AskersAppend(r, asks);
      PollStepCounts(r, PollAfter(r, front), Askers(r, front), asks[|asks| - 1]);
    }
  }

  /** With approvals only, before expiry, exactly one call asks for execution: the one that brings
      the last missing distinct approver. Repeated approvals and attempts by the requester, in any
      number and order, neither hasten nor delay it. */
  lemma {:induction false} QuorumCompletes(r: Request, asks: seq<Ask>, i: nat)
    requires Fresh(r) && r.requiredApprovals >= 1 && TimelyApprovals(r, asks) && i < |asks|
    ensures Decided(After(r, asks[..i]), asks[i]).executeNow <==>
            |Askers(r, asks[..i])| < r.requiredApprovals <= |Askers(r, asks[..i + 1])|
  {
    assert asks[..i + 1][..i] == asks[..i];
    ListRefinesPoll(r, asks[..i]);
    ListRefinesPoll(r, asks[..i + 1]);
    PollCountsAskers(r, asks[..i]);
    PollCountsAskers(r, asks[..i + 1]);
    var before := After(r, asks[..i]);
    if Refusal(before, asks[i].user, asks[i].at).None? {
      VoteKeepsConsistent(before, Approver(asks[i].user, Approve, asks[i].comment, Some(asks[i].at)), asks[i].at);
    }
  }
}
