/** The approval request entity: its statuses, its list of approver entries, and the effect of
    one recorded decision. Times are integer instants. */
module ApprovalRequests {
  import opened Wrappers

  type UserId = int
  type Time = int

  datatype Status = Pending | Approved | Rejected | Expired | Cancelled

  type UnknownText = text: string | text != "approved" && text != "rejected"

  /** The decision text: "approved", "rejected", or any other text, which the program stores as
      it is given but never compares with. */
  datatype Decision = Approve | Reject | OtherText(text: UnknownText)

  datatype Approver = Approver(userId: UserId, decision: Decision, comment: string, decidedAt: Option<Time>)

  datatype Request = Request(
    requesterId: UserId,
    action: string,
    cluster: string,
    status: Status,
    approvers: seq<Approver>,
    requiredApprovals: int,
    createdAt: Time,
    expiresAt: Time,
    resolvedAt: Option<Time>,
    resolvedBy: Option<UserId>,
    messageId: int)

  // ---------- Counting decisions ----------

  /** How many entries carry decision d. */
  function Tally(approvers: seq<Approver>, d: Decision): nat {
    if approvers == [] then 0
    else
      var last := |approvers| - 1;
      Tally(approvers[..last], d) + (if approvers[last].decision == d then 1 else 0)
  }

  predicate HasDecision(approvers: seq<Approver>, d: Decision) {
    exists i :: 0 <= i < |approvers| && approvers[i].decision == d
  }

  method ApprovalCount(approvers: seq<Approver>) returns (n: nat)
    ensures n == Tally(approvers, Approve)
  {
    n := 0;
    for i := 0 to |approvers|
      invariant n == Tally(approvers[..i], Approve)
    {
      assert approvers[..i + 1][..i] == approvers[..i];
      if approvers[i].decision == Approve {
        n := n + 1;
      }
    }
    assert approvers[..|approvers|] == approvers;
  }

  method HasRejection(approvers: seq<Approver>) returns (found: bool)
    ensures found <==> HasDecision(approvers, Reject)
  {
    for i := 0 to |approvers|
      invariant forall j :: 0 <= j < i ==> approvers[j].decision != Reject
    {
      if approvers[i].decision == Reject {
        return true;
      }
    }
    return false;
  }

  lemma {:induction false} TallyPositive(approvers: seq<Approver>, d: Decision)
    ensures Tally(approvers, d) > 0 <==> HasDecision(approvers, d)
  {
    if approvers != [] {
      var last := |approvers| - 1;
      TallyPositive(approvers[..last], d);
      if HasDecision(approvers[..last], d) {
        var i :| 0 <= i < last && approvers[..last][i].decision == d;
        assert approvers[i].decision == d;
      }
      if HasDecision(approvers, d) && approvers[last].decision != d {
        var i :| 0 <= i <= last && approvers[i].decision == d;
        assert approvers[..last][i].decision == d;
      }
    }
  }

  // ---------- Recording a decision ----------

  ghost predicate DistinctUsers(approvers: seq<Approver>) {
    forall i, j :: 0 <= i < j < |approvers| ==> approvers[i].userId != approvers[j].userId
  }

  /** The position of the user's first entry, or the length of the list. */
  function FirstEntry(approvers: seq<Approver>, user: UserId): (k: nat)
    ensures k <= |approvers|
    ensures k < |approvers| ==> approvers[k].userId == user
    ensures forall i :: 0 <= i < k ==> approvers[i].userId != user
  {
    if approvers == [] || approvers[0].userId == user then 0
    else 1 + FirstEntry(approvers[1..], user)
  }

  /** The user's first entry is overwritten; a user without an entry gets a new one at the end. */
  function Record(approvers: seq<Approver>, entry: Approver): seq<Approver> {
    var k := FirstEntry(approvers, entry.userId);
    if k < |approvers| then approvers[k := entry] else approvers + [entry]
  }

  /** The in-place update with its early exit. */
  method RecordInPlace(list: seq<Approver>, entry: Approver) returns (approvers: seq<Approver>)
    ensures approvers == Record(list, entry)
  {
    approvers := list;
    var updated := false;
    for i := 0 to |approvers|
      invariant approvers == list && !updated
      invariant forall j :: 0 <= j < i ==> list[j].userId != entry.userId
    {
      if approvers[i].userId == entry.userId {
        approvers := approvers[i := approvers[i].(decision := entry.decision, comment := entry.comment,
                                                  decidedAt := entry.decidedAt)];
        updated := true;
        break;
      }
    }
    if !updated {
      approvers := approvers + [entry];
    }
  }

  /** The new entry stands at the user's old place or at the end; no other entry moves or changes. */
  lemma {:induction false} RecordPlaces(approvers: seq<Approver>, entry: Approver) returns (k: nat)
    ensures
      var after := Record(approvers, entry);
      && k < |after| && after[k] == entry
      && (forall j :: 0 <= j < |approvers| && j != k ==> j < |after| && after[j] == approvers[j])
      && (forall j :: 0 <= j < |approvers| && j < k ==> approvers[j].userId != entry.userId)
      && (if k < |approvers| then approvers[k].userId == entry.userId && |after| == |approvers|
          else |after| == |approvers| + 1)
  {
    k := FirstEntry(approvers, entry.userId);
  }

  lemma {:induction false} TallyAppend(approvers: seq<Approver>, entry: Approver, d: Decision)
    ensures Tally(approvers + [entry], d) == Tally(approvers, d) + (if entry.decision == d then 1 else 0)
  {
    assert (approvers + [entry])[..|approvers|] == approvers;
  }

  lemma {:induction false} TallyOverwrite(approvers: seq<Approver>, k: nat, entry: Approver, d: Decision)
    requires k < |approvers|
    ensures Tally(approvers[k := entry], d) ==
            Tally(approvers, d) - (if approvers[k].decision == d then 1 else 0) + (if entry.decision == d then 1 else 0)
    decreases |approvers|
  {
    var last := |approvers| - 1;
    if k == last {
      assert approvers[k := entry][..last] == approvers[..last];
    } else {
      assert approvers[k := entry][..last] == approvers[..last][k := entry];
      TallyOverwrite(approvers[..last], k, entry, d);
    }
  }

  // ---------- The entries as a ballot ----------

  /** The latest decision of each user, ignoring the order of entries. */
  function Ballot(approvers: seq<Approver>): map<UserId, Decision> {
    if approvers == [] then map[]
    else
      var last := approvers[|approvers| - 1];
      Ballot(approvers[..|approvers| - 1])[last.userId := last.decision]
  }

  function Voters(ballot: map<UserId, Decision>, d: Decision): set<UserId> {
    set u | u in ballot && ballot[u] == d
  }

  lemma {:induction false} BallotUsers(approvers: seq<Approver>, user: UserId)
    ensures user in Ballot(approvers) <==> exists i :: 0 <= i < |approvers| && approvers[i].userId == user
  {
    if approvers != [] {
      var last := |approvers| - 1;
      BallotUsers(approvers[..last], user);
      if user in Ballot(approvers) && user != approvers[last].userId {
        var i :| 0 <= i < last && approvers[..last][i].userId == user;
        assert approvers[i].userId == user;
      }
      if i :| 0 <= i <= last && approvers[i].userId == user {
        assert i < last ==> approvers[..last][i].userId == user;
      }
    }
  }

  lemma {:induction false} BallotEntry(approvers: seq<Approver>, k: nat)
    requires DistinctUsers(approvers) && k < |approvers|
    ensures approvers[k].userId in Ballot(approvers)
    ensures Ballot(approvers)[approvers[k].userId] == approvers[k].decision
    decreases |approvers|
  {
    var last := |approvers| - 1;
    if k < last {
      assert approvers[..last][k] == approvers[k];
      BallotEntry(approvers[..last], k);
    }
  }

  lemma {:induction false} VotersOfNew(ballot: map<UserId, Decision>, user: UserId, cast: Decision, d: Decision)
    requires user !in ballot
    ensures |Voters(ballot[user := cast], d)| == |Voters(ballot, d)| + (if cast == d then 1 else 0)
  {
    var before, after := Voters(ballot, d), Voters(ballot[user := cast], d);
    assert after == if cast == d then before + {user} else before;
  }

  /** With one entry per user, counting entries is counting users. */
  lemma {:induction false} TallyCountsUsers(approvers: seq<Approver>, d: Decision)
    requires DistinctUsers(approvers)
    ensures Tally(approvers, d) == |Voters(Ballot(approvers), d)|
  {
    if approvers != [] {
      var last := |approvers| - 1;
      var front := approvers[..last];
      TallyCountsUsers(front, d);
      BallotUsers(front, approvers[last].userId);
      VotersOfNew(Ballot(front), approvers[last].userId, approvers[last].decision, d);
    } else {
      assert Voters(Ballot(approvers), d) == {};
    }
  }

  /** Recording an entry keeps one entry per user, and on the ballot it is exactly a map update:
      a repeated vote replaces the earlier one and nobody else's vote changes. */
  lemma {:induction false} RecordUpdatesBallot(approvers: seq<Approver>, entry: Approver)
    requires DistinctUsers(approvers)
    ensures DistinctUsers(Record(approvers, entry))
    ensures Ballot(Record(approvers, entry)) == Ballot(approvers)[entry.userId := entry.decision]
  {
    var k := FirstEntry(approvers, entry.userId);
    if k < |approvers| {
      OverwriteUpdatesBallot(approvers, k, entry);
    } else {
      assert (approvers + [entry])[..|approvers|] == approvers;
    }
  }

  lemma {:induction false} OverwriteUpdatesBallot(approvers: seq<Approver>, k: nat, entry: Approver)
    requires DistinctUsers(approvers) && k < |approvers| && approvers[k].userId == entry.userId
    ensures Ballot(approvers[k := entry]) == Ballot(approvers)[entry.userId := entry.decision]
    decreases |approvers|
  {
    var last := |approvers| - 1;
    if k == last {
      assert approvers[k := entry][..last] == approvers[..last];
    } else {
      assert approvers[k := entry][..last] == approvers[..last][k := entry];
      OverwriteUpdatesBallot(approvers[..last], k, entry);
      assert approvers[last].userId != entry.userId;
    }
  }

  // ---------- One vote on a pending request ----------

  datatype Outcome = Outcome(next: Request, executeNow: bool)

  function Resolved(req: Request, status: Status, now: Time, who: UserId): Request {
    req.(status := status, resolvedAt := Some(now), resolvedBy := Some(who))
  }

  function Vote(req: Request, entry: Approver, now: Time): Outcome {
    var voted := req.(approvers := Record(req.approvers, entry));
    if entry.decision == Reject || HasDecision(voted.approvers, Reject) then
      Outcome(Resolved(voted, Rejected, now, entry.userId), false)
    else if Tally(voted.approvers, Approve) >= voted.requiredApprovals then
      Outcome(Resolved(voted, Approved, now, entry.userId), true)
    else
      Outcome(voted, false)
  }

  /** The quorum a request with this many required approvals really waits for: a requirement
      below one is met by the first decision of any kind. */
  function Quorum(required: int): nat {
    if required < 1 then 1 else required
  }

  /** What the stored row always says about its own votes. */
  ghost predicate VotesConsistent(r: Request) {
    && DistinctUsers(r.approvers)
    && (forall i :: 0 <= i < |r.approvers| ==> r.approvers[i].userId != r.requesterId)
    && match r.status {
      case Approved =>
        && !HasDecision(r.approvers, Reject)
        && r.resolvedBy.Some?
        && r.resolvedBy.value in Ballot(r.approvers)
        && (if r.requiredApprovals < 1 then |r.approvers| == 1
            else Tally(r.approvers, Approve) == r.requiredApprovals
                 && Ballot(r.approvers)[r.resolvedBy.value] == Approve)
      case Rejected =>
        && r.resolvedBy.Some?
        && Voters(Ballot(r.approvers), Reject) == {r.resolvedBy.value}
        && Tally(r.approvers, Reject) == 1
        && Tally(r.approvers, Approve) < Quorum(r.requiredApprovals)
      case Cancelled => Undecided(r) && r.resolvedBy == Some(r.requesterId)
      case _ => Undecided(r)
    }
  }

  /** No rejection and no quorum among the votes. */
  ghost predicate Undecided(r: Request) {
    && !HasDecision(r.approvers, Reject)
    && Tally(r.approvers, Approve) < Quorum(r.requiredApprovals)
    && (r.requiredApprovals < 1 ==> r.approvers == [])
  }

  lemma {:induction false} RecordTally(approvers: seq<Approver>, entry: Approver, d: Decision)
    requires DistinctUsers(approvers)
    ensures
      var before := if entry.userId in Ballot(approvers) && Ballot(approvers)[entry.userId] == d then 1 else 0;
      Tally(Record(approvers, entry), d) == Tally(approvers, d) - before + (if entry.decision == d then 1 else 0)
  {
    var k := FirstEntry(approvers, entry.userId);
    BallotUsers(approvers, entry.userId);
    if k < |approvers| {
      BallotEntry(approvers, k);
      TallyOverwrite(approvers, k, entry, d);
    } else {
      TallyAppend(approvers, entry, d);
    }
  }

  /** A pending list has no rejection, so after one more entry there is one only if it is that entry. */
  lemma {:induction false} RejectionsAfter(r: Request, entry: Approver)
    requires r.status == Pending && VotesConsistent(r)
    ensures
      var after := Record(r.approvers, entry);
      && Tally(after, Reject) == (if entry.decision == Reject then 1 else 0)
      && (HasDecision(after, Reject) <==> entry.decision == Reject)
      && Voters(Ballot(after), Reject) == if entry.decision == Reject then {entry.userId} else {}
  {
    var after := Record(r.approvers, entry);
    RecordUpdatesBallot(r.approvers, entry);
    RecordTally(r.approvers, entry, Reject);
    TallyPositive(r.approvers, Reject);
    TallyPositive(after, Reject);
    TallyCountsUsers(r.approvers, Reject);
    var none := Voters(Ballot(r.approvers), Reject);
    assert none == {};
    assert forall u :: u in Ballot(r.approvers) && Ballot(r.approvers)[u] == Reject ==> u in none;
  }

  lemma {:induction false} RecordKeepsVoters(r: Request, entry: Approver)
    requires DistinctUsers(r.approvers) && entry.userId != r.requesterId
    requires forall i :: 0 <= i < |r.approvers| ==> r.approvers[i].userId != r.requesterId
    ensures
      var after := Record(r.approvers, entry);
      && DistinctUsers(after)
      && (forall i :: 0 <= i < |after| ==> after[i].userId != r.requesterId)
      && entry.userId in Ballot(after) && Ballot(after)[entry.userId] == entry.decision
      && (r.approvers == [] ==> |after| == 1)
  {
    RecordUpdatesBallot(r.approvers, entry);
  }

  /** A vote by somebody other than the requester keeps the row consistent, and it asks for
      execution exactly when it leaves the row approved. */
  lemma {:induction false} VoteKeepsConsistent(r: Request, entry: Approver, now: Time)
    requires r.status == Pending && VotesConsistent(r) && entry.userId != r.requesterId
    ensures VotesConsistent(Vote(r, entry, now).next)
    ensures Vote(r, entry, now).executeNow <==> Vote(r, entry, now).next.status == Approved
    ensures Vote(r, entry, now).next.status in {Pending, Approved, Rejected}
  {
    RecordKeepsVoters(r, entry);
    RejectionsAfter(r, entry);
    RecordTally(r.approvers, entry, Approve);
  }
}
