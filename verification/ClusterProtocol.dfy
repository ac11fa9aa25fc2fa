/** Lazy client creation under interleaving. A caller checks under the read lock; if the clients
    are there it reads them again after releasing the lock, and otherwise it checks once more
    under the write lock before creating them. */
module ClusterProtocol {
  import opened Wrappers
  import opened ClusterClients

  datatype Caller =
    | SawClients(name: string)
    | SawNone(name: string)
    | Locked(name: string)
    | Creating(name: string)
    | Made(name: string, client: Client)

  /** What a call returned: Got holds the pointer, which is nil if it is None. */
  datatype Reply = Got(clients: Option<Client>) | Failed | NoCluster

  datatype Return = Return(name: string, reply: Reply)

  datatype Creation = Creation(name: string, client: Client)

  datatype State = State(
    clients: map<string, Option<Client>>,
    writer: Option<int>,
    callers: map<int, Caller>,
    created: seq<Creation>,
    returned: seq<Return>)

  datatype Step =
    | ReadCheck(c: int, name: string)
    | ReadReturn(c: int)
    | Lock(c: int)
    | Recheck(c: int)
    | Create(c: int, outcome: Result<Client, string>)
    | Publish(c: int)

  predicate Enabled(s: State, step: Step) {
    match step
    case ReadCheck(c, name) => c !in s.callers && s.writer == None
    case ReadReturn(c) => c in s.callers && s.callers[c].SawClients?
    case Lock(c) => c in s.callers && s.callers[c].SawNone? && s.writer == None
    case Recheck(c) => c in s.callers && s.callers[c].Locked?
    case Create(c, _) => c in s.callers && s.callers[c].Creating?
    case Publish(c) => c in s.callers && s.callers[c].Made?
  }

  function Existing(s: State, name: string): Option<Client> {
    if name in s.clients then s.clients[name] else None
  }

  function Finish(s: State, c: int, name: string, reply: Reply): State {
    s.(callers := s.callers - {c}, returned := s.returned + [Return(name, reply)],
       writer := if s.writer == Some(c) then None else s.writer)
  }

  function Apply(s: State, step: Step): State {
    if !Enabled(s, step) then s
    else
      match step
      case ReadCheck(c, name) =>
        if name !in s.clients then Finish(s, c, name, NoCluster)
        else s.(callers := s.callers[c := if s.clients[name].Some? then SawClients(name) else SawNone(name)])
      case ReadReturn(c) => Finish(s, c, s.callers[c].name, Got(Existing(s, s.callers[c].name)))
      case Lock(c) => s.(callers := s.callers[c := Locked(s.callers[c].name)], writer := Some(c))
      case Recheck(c) =>
        var name := s.callers[c].name;
        if Existing(s, name).Some? then Finish(s, c, name, Got(Existing(s, name)))
        else s.(callers := s.callers[c := Creating(name)])
      case Create(c, outcome) =>
        var name := s.callers[c].name;
        (match outcome
         case Failure(_) => Finish(s, c, name, Failed)
         case Success(client) =>
           s.(callers := s.callers[c := Made(name, client)], created := s.created + [Creation(name, client)]))
      case Publish(c) =>
        var name, client := s.callers[c].name, s.callers[c].client;
        Finish(s.(clients := s.clients[name := Some(client)]), c, name, Got(Some(client)))
  }

  function Run(s: State, steps: seq<Step>): State
    decreases |steps|
  {
    if steps == [] then s else Run(Apply(s, steps[0]), steps[1..])
  }

  predicate Initial(s: State) {
    && (forall name :: name in s.clients ==> s.clients[name] == None)
    && s.writer == None && s.callers == map[] && s.created == [] && s.returned == []
  }

  // ---------- The invariant ----------

  function CreatedFor(created: seq<Creation>, name: string): seq<Client> {
    if created == [] then []
    else
      var last := created[|created| - 1];
      CreatedFor(created[..|created| - 1], name) + (if last.name == name then [last.client] else [])
  }

  predicate HoldsLock(caller: Caller) {
    caller.Locked? || caller.Creating? || caller.Made?
  }

  /** The client the lock holder has made for the name but not yet published. */
  function Unpublished(s: State, name: string): seq<Client> {
    if s.writer.Some? && s.writer.value in s.callers && s.callers[s.writer.value].Made?
       && s.callers[s.writer.value].name == name
    then [s.callers[s.writer.value].client]
    else []
  }

  function Published(s: State, name: string): seq<Client> {
    if Existing(s, name).Some? then [Existing(s, name).value] else []
  }

  ghost predicate CallersSound(s: State) {
    && (s.writer.Some? ==> s.writer.value in s.callers)
    && forall c :: c in s.callers ==>
         && s.callers[c].name in s.clients
         && (HoldsLock(s.callers[c]) <==> s.writer == Some(c))
         && (match s.callers[c]
             case SawClients(name) => s.clients[name].Some?
             case Creating(name) => s.clients[name] == None
             case Made(name, _) => s.clients[name] == None
             case _ => true)
  }

  ghost predicate CreatedOnce(s: State) {
    forall name :: CreatedFor(s.created, name) == Published(s, name) + Unpublished(s, name)
  }

  ghost predicate ReturnsSame(s: State) {
    forall r :: r in s.returned && r.reply.Got? ==> r.reply.clients.Some? && r.reply.clients == Existing(s, r.name)
  }

  ghost predicate Sound(s: State) {
    CallersSound(s) && CreatedOnce(s) && ReturnsSame(s)
  }

  lemma {:induction false} StepKeepsCallers(s: State, step: Step)
    requires CallersSound(s)
    ensures CallersSound(Apply(s, step))
    ensures forall name :: name in s.clients && s.clients[name].Some? ==>
              name in Apply(s, step).clients && Apply(s, step).clients[name] == s.clients[name]
  {
  }

  lemma {:induction false} NotBoth(s: State, name: string)
    requires CallersSound(s)
    ensures Published(s, name) == [] || Unpublished(s, name) == []
  {
    if Unpublished(s, name) != [] {
      var c := s.writer.value;
      assert c in s.callers && s.callers[c].Made? && s.callers[c].name == name;
      assert s.clients[name] == None;
    }
  }

  /** Only a successful creation lengthens the list, and publishing moves its entry into place. */
  lemma {:induction false} CreateAndPublish(s: State, step: Step, name: string)
    requires CallersSound(s) && Enabled(s, step) && (step.Create? || step.Publish?)
    requires CreatedFor(s.created, name) == Published(s, name) + Unpublished(s, name)
    ensures
      var t := Apply(s, step);
      CreatedFor(t.created, name) == Published(t, name) + Unpublished(t, name)
  {
    var t := Apply(s, step);
    NotBoth(s, name);
    assert s.writer == Some(step.c);
    if step.Create? && step.outcome.Success? {
      assert t.created[..|s.created|] == s.created;
      assert t.callers[step.c] == Made(s.callers[step.c].name, step.outcome.value);
    } else {
      assert t.created == s.created && t.writer == None;
    }
  }

  lemma {:induction false} OtherSteps(s: State, step: Step, name: string)
    requires CallersSound(s) && !(step.Create? || step.Publish?)
    ensures Apply(s, step).created == s.created
    ensures Published(Apply(s, step), name) == Published(s, name)
    ensures Unpublished(Apply(s, step), name) == Unpublished(s, name)
  {
  }

  lemma {:induction false} StepKeepsCreatedOnce(s: State, step: Step)
    requires CallersSound(s) && CreatedOnce(s)
    ensures CreatedOnce(Apply(s, step))
  {
    var t := Apply(s, step);
    if Enabled(s, step) {
      forall name ensures CreatedFor(t.created, name) == Published(t, name) + Unpublished(t, name) {
        assert CreatedFor(s.created, name) == Published(s, name) + Unpublished(s, name);
        if step.Create? || step.Publish? {
          CreateAndPublish(s, step, name);
        } else {
          OtherSteps(s, step, name);
        }
      }
    }
  }

  lemma {:induction false} StepKeepsReturns(s: State, step: Step)
    requires CallersSound(s) && ReturnsSame(s)
    ensures ReturnsSame(Apply(s, step))
  {
    StepKeepsCallers(s, step);
  }

  lemma {:induction false} RunKeepsSound(s: State, steps: seq<Step>)
    requires Sound(s)
    ensures Sound(Run(s, steps))
    ensures forall name :: Existing(s, name).Some? ==> Existing(Run(s, steps), name) == Existing(s, name)
    decreases |steps|
  {
    if steps != [] {
      StepKeepsCallers(s, steps[0]);
      StepKeepsCreatedOnce(s, steps[0]);
      StepKeepsReturns(s, steps[0]);
      RunKeepsSound(Apply(s, steps[0]), steps[1..]);
    }
  }

  // ---------- The results ----------

  /** In every interleaving the clients of a cluster are successfully created at most once. */
  lemma {:induction false} AtMostOneCreation(s: State, steps: seq<Step>, name: string)
    requires Initial(s)
    ensures
      var t := Run(s, steps);
      && |CreatedFor(t.created, name)| <= 1
      && (Existing(t, name).Some? ==> CreatedFor(t.created, name) == [Existing(t, name).value])
  {
    RunKeepsSound(s, steps);
    var t := Run(s, steps);
    NotBoth(t, name);
    assert CreatedFor(t.created, name) == Published(t, name) + Unpublished(t, name);
  }

  /** All calls that return clients for a cluster return the same ones, never a nil pointer, also
      those that read the entry after releasing the lock. */
  lemma {:induction false} AllCallsAgree(s: State, steps: seq<Step>, a: Return, b: Return)
    requires Initial(s)
    requires a in Run(s, steps).returned && b in Run(s, steps).returned
    requires a.name == b.name && a.reply.Got? && b.reply.Got?
    ensures a.reply.clients.Some? && a.reply == b.reply
    ensures a.reply.clients == Existing(Run(s, steps), a.name)
  {
    RunKeepsSound(s, steps);
  }

  /** Clients once set never change. */
  lemma {:induction false} ClientsAreStable(s: State, first: seq<Step>, later: seq<Step>, name: string)
    requires Initial(s) && Existing(Run(s, first), name).Some?
    ensures Existing(Run(Run(s, first), later), name) == Existing(Run(s, first), name)
  {
    RunKeepsSound(s, first);
    RunKeepsSound(Run(s, first), later);
  }

  /** A failed creation leaves the cluster without clients and the lock free. */
  lemma {:induction false} FailureLeavesUnset(s: State, c: int, message: string)
    requires Sound(s) && Enabled(s, Create(c, Failure(message)))
    ensures
      var t := Apply(s, Create(c, Failure(message)));
      && t.writer == None && t.clients == s.clients && t.created == s.created
      && Existing(t, s.callers[c].name) == None && c !in t.callers
  {
  }

  /** One call from start to end; the steps it does not take are not enabled and change nothing. */
  function CallSteps(c: int, name: string, attempt: Result<Client, string>): seq<Step> {
    [ReadCheck(c, name), ReadReturn(c), Lock(c), Recheck(c), Create(c, attempt), Publish(c)]
  }

  lemma {:induction false} RunSix(s: State, a: Step, b: Step, c: Step, d: Step, e: Step, f: Step)
    ensures Run(s, [a, b, c, d, e, f]) == Apply(Apply(Apply(Apply(Apply(Apply(s, a), b), c), d), e), f)
  {
    var s3 := Apply(Apply(Apply(s, a), b), c);
    var s5 := Apply(Apply(s3, d), e);
    assert [a, b, c, d, e, f][1..] == [b, c, d, e, f] && [b, c, d, e, f][1..] == [c, d, e, f];
    assert [c, d, e, f][1..] == [d, e, f] && [d, e, f][1..] == [e, f] && [e, f][1..] == [f];
    assert Run(s5, [f]) == Apply(s5, f);
    assert Run(s3, [d, e, f]) == Run(Apply(s3, d), [e, f]) == Run(s5, [f]);
    assert Run(s, [a, b, c, d, e, f]) == Run(Apply(s, a), [b, c, d, e, f]) == Run(Apply(Apply(s, a), b), [c, d, e, f]);
  }

  /** A call that meets no other one answers and stores what Manager.GetOrCreateClients does. As it
      may start in any sound state, failures before it do not count: missing clients are created. */
  lemma {:induction false} CallIsRun(s: State, c: int, name: string, attempt: Result<Client, string>)
    requires Sound(s) && s.writer == None && c !in s.callers
    ensures
      var t := Run(s, CallSteps(c, name, attempt));
      var creates := name in s.clients && s.clients[name].None? && attempt.Success?;
      && t.returned == s.returned + [Return(name,
           if name !in s.clients then NoCluster
           else if s.clients[name].Some? then Got(s.clients[name])
           else if creates then Got(Some(attempt.value))
           else Failed)]
      && t.clients == (if creates then s.clients[name := Some(attempt.value)] else s.clients)
      && t.created == s.created + (if creates then [Creation(name, attempt.value)] else [])
      && t.writer == None && t.callers == s.callers
  {
    RunSix(s, ReadCheck(c, name), ReadReturn(c), Lock(c), Recheck(c), Create(c, attempt), Publish(c));
    var s1 := Apply(s, ReadCheck(c, name));
    if name in s.clients && s.clients[name].None? {
      var s2 := s.(callers := s.callers[c := SawNone(name)]);
      var s3 := s.(callers := s.callers[c := Locked(name)], writer := Some(c));
      var s4 := s3.(callers := s.callers[c := Creating(name)]);
      var s5 := Apply(s4, Create(c, attempt));
      assert Apply(s1, ReadReturn(c)) == s2;
      assert Apply(s2, Lock(c)) == s3;
      assert Apply(s3, Recheck(c)) == s4;
      assert s4.callers - {c} == s.callers;
      assert attempt.Success? ==> s5.callers - {c} == s.callers;
    } else {
      var s2 := Apply(s1, ReadReturn(c));
      assert s1.callers - {c} == s.callers;
      assert s2.callers == s.callers;
      assert Apply(s2, Lock(c)) == Apply(s2, Recheck(c)) == s2;
    }
  }

  /** After a failed creation the next call for the cluster can create the clients. */
  lemma {:induction false} FailureIsRetryable(s: State, c: int, message: string, d: int, client: Client)
    requires Sound(s) && Enabled(s, Create(c, Failure(message))) && d !in s.callers
    ensures
      var name := s.callers[c].name;
      var failed := Apply(s, Create(c, Failure(message)));
      var t := Run(failed, CallSteps(d, name, Success(client)));
      && failed.clients == s.clients && failed.created == s.created
      && t.clients == s.clients[name := Some(client)]
      && t.created == s.created + [Creation(name, client)]
      && t.returned == s.returned + [Return(name, Failed), Return(name, Got(Some(client)))]
      && t.writer == None && t.callers == s.callers - {c}
  {
    var failed := Apply(s, Create(c, Failure(message)));
    FailureLeavesUnset(s, c, message);
    StepKeepsCallers(s, Create(c, Failure(message)));
    StepKeepsCreatedOnce(s, Create(c, Failure(message)));
    StepKeepsReturns(s, Create(c, Failure(message)));
    CallIsRun(failed, d, s.callers[c].name, Success(client));
  }
}
