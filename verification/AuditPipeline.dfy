/** The audit logger under interleaving: any number of logging goroutines, the batching worker,
    concurrent Flush calls and one Close. Every step is one channel operation or one write. */
module AuditPipeline {
  import opened AuditLogger

  /** next is the index of the entry the worker writes next; final tells that the worker stops
      after this batch. */
  datatype Worker = Collecting | Writing(next: nat, final: bool) | Draining | Stopped

  datatype Flusher = Ready | Holding(entry: Entry) | Finished

  /** Close waits for the worker, then runs its own Flush. */
  datatype Closer = NotCalled | Waiting | Flushing(flusher: Flusher) | Returned

  datatype State = State(
    channel: seq<Entry>,
    batch: seq<Entry>,
    worker: Worker,
    flushers: seq<Flusher>,
    closer: Closer,
    submitted: seq<Entry>,
    accepted: seq<Entry>,
    dropped: seq<Entry>,
    attempted: seq<Entry>)

  datatype Step =
    | Log(entry: Entry)
    | Receive | Tick | WriteOne | SeeDone | Drain | Drained
    | FlushStart | FlushTake(i: nat) | FlushWrite(i: nat) | FlushEnd(i: nat)
    | CloseCall | CloseJoin | CloseTake | CloseWrite | CloseEnd

  const INITIAL := State([], [], Collecting, [], NotCalled, [], [], [], [])

  /** The done channel is closed as soon as Close is called. */
  predicate Done(s: State) {
    s.closer != NotCalled
  }

  predicate Enabled(s: State, step: Step) {
    match step
    case Log(_) => true
    case Receive => s.worker == Collecting && s.channel != []
    case Tick => s.worker == Collecting && s.batch != []
    case WriteOne => s.worker.Writing? && s.worker.next < |s.batch|
    case SeeDone => s.worker == Collecting && Done(s)
    case Drain => s.worker == Draining && s.channel != []
    case Drained => s.worker == Draining && s.channel == []
    case FlushStart => true
    case FlushTake(i) => i < |s.flushers| && s.flushers[i] == Ready && s.channel != []
    case FlushWrite(i) => i < |s.flushers| && s.flushers[i].Holding?
    case FlushEnd(i) => i < |s.flushers| && s.flushers[i] == Ready && s.channel == []
    case CloseCall => s.closer == NotCalled
    case CloseJoin => s.closer == Waiting && s.worker == Stopped
    case CloseTake => s.closer == Flushing(Ready) && s.channel != []
    case CloseWrite => s.closer.Flushing? && s.closer.flusher.Holding?
    case CloseEnd => s.closer == Flushing(Ready) && s.channel == []
  }

  function Apply(s: State, step: Step): State {
    if !Enabled(s, step) then s
    else
      match step
      case Log(entry) =>
        if |s.channel| < BUFFER_SIZE then
          s.(channel := s.channel + [entry], submitted := s.submitted + [entry], accepted := s.accepted + [entry])
        else s.(submitted := s.submitted + [entry], dropped := s.dropped + [entry])
      case Receive =>
        var batch := s.batch + [s.channel[0]];
        s.(channel := s.channel[1..], batch := batch,
           worker := if |batch| >= FLUSH_BATCH_SIZE then Writing(0, false) else Collecting)
      case Tick => s.(worker := Writing(0, false))
      case WriteOne =>
        var n := s.worker.next;
        var t := s.(attempted := s.attempted + [s.batch[n]]);
        if n + 1 < |s.batch| then t.(worker := Writing(n + 1, s.worker.final))
        else t.(batch := [], worker := if s.worker.final then Stopped else Collecting)
      case SeeDone => s.(worker := Draining)
      case Drain => s.(channel := s.channel[1..], batch := s.batch + [s.channel[0]])
      case Drained => s.(worker := if s.batch != [] then Writing(0, true) else Stopped)
      case FlushStart => s.(flushers := s.flushers + [Ready])
      case FlushTake(i) => s.(channel := s.channel[1..], flushers := s.flushers[i := Holding(s.channel[0])])
      case FlushWrite(i) => s.(attempted := s.attempted + [s.flushers[i].entry], flushers := s.flushers[i := Ready])
      case FlushEnd(i) => s.(flushers := s.flushers[i := Finished])
      case CloseCall => s.(closer := Waiting)
      case CloseJoin => s.(closer := Flushing(Ready))
      case CloseTake => s.(channel := s.channel[1..], closer := Flushing(Holding(s.channel[0])))
      case CloseWrite => s.(attempted := s.attempted + [s.closer.flusher.entry], closer := Flushing(Ready))
      case CloseEnd => s.(closer := Returned)
  }

  function Run(s: State, steps: seq<Step>): State
    decreases |steps|
  {
    if steps == [] then s else Run(Apply(s, steps[0]), steps[1..])
  }

  // ---------- Where an entry can be ----------

  function Unwritten(s: State): seq<Entry> {
    if s.worker.Writing? && s.worker.next <= |s.batch| then s.batch[s.worker.next..] else s.batch
  }

  function HeldBy(f: Flusher): seq<Entry> {
    if f.Holding? then [f.entry] else []
  }

  function HeldByClose(s: State): seq<Entry> {
    if s.closer.Flushing? then HeldBy(s.closer.flusher) else []
  }

  function Copies(q: seq<Entry>, e: Entry): nat {
    if q == [] then 0
    else Copies(q[..|q| - 1], e) + (if q[|q| - 1] == e then 1 else 0)
  }

  /** How many copies of e the running Flush calls hold. */
  function Held(flushers: seq<Flusher>, e: Entry): nat {
    if flushers == [] then 0
    else
      var last := |flushers| - 1;
      Held(flushers[..last], e) + Copies(HeldBy(flushers[last]), e)
  }

  lemma {:induction false} HeldUpdate(flushers: seq<Flusher>, i: nat, f: Flusher, e: Entry)
    requires i < |flushers|
    ensures Held(flushers[i := f], e) + Copies(HeldBy(flushers[i]), e) == Held(flushers, e) + Copies(HeldBy(f), e)
    decreases |flushers|
  {
    var last, updated := |flushers| - 1, flushers[i := f];
    assert Held(flushers, e) == Held(flushers[..last], e) + Copies(HeldBy(flushers[last]), e);
    assert Held(updated, e) == Held(updated[..last], e) + Copies(HeldBy(updated[last]), e);
    if i == last {
      assert updated[..last] == flushers[..last];
    } else {
      assert updated[..last] == flushers[..last][i := f];
      HeldUpdate(flushers[..last], i, f, e);
    }
  }

  /** The worker's batch stays within its size until shutdown, and the close sequence goes
      forward only when the worker has stopped. */
  ghost predicate Phases(s: State) {
    && |s.channel| <= BUFFER_SIZE
    && (match s.worker
        case Collecting => |s.batch| < FLUSH_BATCH_SIZE
        case Writing(next, final) => next < |s.batch| && (if final then Done(s) else |s.batch| <= FLUSH_BATCH_SIZE)
        case Draining => Done(s)
        case Stopped => Done(s) && s.batch == [])
    && (s.closer.Flushing? || s.closer == Returned ==> s.worker == Stopped)
    && s.closer != Flushing(Finished)
  }

  /** Each copy of e that was submitted is in exactly one place. */
  ghost predicate Conserved(s: State, e: Entry) {
    && Copies(s.submitted, e) == Copies(s.accepted, e) + Copies(s.dropped, e)
    && Copies(s.accepted, e) == Copies(s.attempted, e) + Copies(Unwritten(s), e) + Held(s.flushers, e)
                                + Copies(HeldByClose(s), e) + Copies(s.channel, e)
  }

  lemma {:induction false} CopiesAppend(a: seq<Entry>, b: seq<Entry>, e: Entry)
    ensures Copies(a + b, e) == Copies(a, e) + Copies(b, e)
  {
    if b == [] {
      assert a + b == a;
    } else {
      assert (a + b)[..|a + b| - 1] == a + b[..|b| - 1];
      CopiesAppend(a, b[..|b| - 1], e);
    }
  }

  lemma {:induction false} CopiesHead(q: seq<Entry>, e: Entry)
    requires q != []
    ensures Copies(q, e) == Copies([q[0]], e) + Copies(q[1..], e)
  {
    assert q == [q[0]] + q[1..];
    CopiesAppend([q[0]], q[1..], e);
  }

  lemma {:induction false} StepKeepsPhases(s: State, step: Step)
    requires Phases(s)
    ensures Phases(Apply(s, step))
  {
  }

  lemma {:induction false} UnwrittenAfterWrite(s: State)
    requires Phases(s) && Enabled(s, WriteOne)
    ensures Unwritten(s) == [s.batch[s.worker.next]] + Unwritten(Apply(s, WriteOne))
  {
  }

  lemma {:induction false} LogConserves(s: State, entry: Entry, e: Entry)
    requires Phases(s) && Conserved(s, e)
    ensures Conserved(Apply(s, Log(entry)), e)
  {
    CopiesAppend(s.submitted, [entry], e);
    var t := Apply(s, Log(entry));
    assert Unwritten(t) == Unwritten(s) && HeldByClose(t) == HeldByClose(s);
    if |s.channel| < BUFFER_SIZE {
      CopiesAppend(s.accepted, [entry], e);
      CopiesAppend(s.channel, [entry], e);
    } else {
      CopiesAppend(s.dropped, [entry], e);
    }
  }

  lemma {:induction false} TakeConserves(s: State, step: Step, e: Entry)
    requires Phases(s) && Conserved(s, e) && Enabled(s, step)
    requires step in {Receive, Drain, CloseTake}
    ensures Conserved(Apply(s, step), e)
  {
    CopiesHead(s.channel, e);
    CopiesAppend(s.batch, [s.channel[0]], e);
  }

  lemma {:induction false} WriteConserves(s: State, e: Entry)
    requires Phases(s) && Conserved(s, e) && Enabled(s, WriteOne)
    ensures Conserved(Apply(s, WriteOne), e)
  {
    UnwrittenAfterWrite(s);
    CopiesAppend(s.attempted, [s.batch[s.worker.next]], e);
    CopiesAppend([s.batch[s.worker.next]], Unwritten(Apply(s, WriteOne)), e);
  }

  lemma {:induction false} CloseWriteConserves(s: State, e: Entry)
    requires Phases(s) && Conserved(s, e) && Enabled(s, CloseWrite)
    ensures Conserved(Apply(s, CloseWrite), e)
  {
    CopiesAppend(s.attempted, [s.closer.flusher.entry], e);
  }

  lemma {:induction false} HeldByNew(flushers: seq<Flusher>, e: Entry)
    ensures Held(flushers + [Ready], e) == Held(flushers, e)
  {
    assert (flushers + [Ready])[..|flushers|] == flushers;
  }

  lemma {:induction false} FlushStartConserves(s: State, e: Entry)
    requires Phases(s) && Conserved(s, e) && Enabled(s, FlushStart)
    ensures Conserved(Apply(s, FlushStart), e)
  {
    var t := Apply(s, FlushStart);
    HeldByNew(s.flushers, e);
    assert Unwritten(t) == Unwritten(s) && HeldByClose(t) == HeldByClose(s);
  }

  lemma {:induction false} FlushTakeConserves(s: State, i: nat, e: Entry)
    requires Phases(s) && Conserved(s, e) && Enabled(s, FlushTake(i))
    ensures Conserved(Apply(s, FlushTake(i)), e)
  {
    var t := Apply(s, FlushTake(i));
    CopiesHead(s.channel, e);
    HeldUpdate(s.flushers, i, Holding(s.channel[0]), e);
    assert HeldBy(Holding(s.channel[0])) == [s.channel[0]] && HeldBy(Ready) == [];
    assert Unwritten(t) == Unwritten(s) && HeldByClose(t) == HeldByClose(s);
  }

  lemma {:induction false} FlushWriteConserves(s: State, i: nat, e: Entry)
    requires Phases(s) && Conserved(s, e) && Enabled(s, FlushWrite(i))
    ensures Conserved(Apply(s, FlushWrite(i)), e)
  {
    var entry, t := s.flushers[i].entry, Apply(s, FlushWrite(i));
    CopiesAppend(s.attempted, [entry], e);
    HeldUpdate(s.flushers, i, Ready, e);
    assert HeldBy(s.flushers[i]) == [entry] && HeldBy(Ready) == [];
    assert Unwritten(t) == Unwritten(s) && HeldByClose(t) == HeldByClose(s) && t.channel == s.channel;
  }

  lemma {:induction false} FlushEndConserves(s: State, i: nat, e: Entry)
    requires Phases(s) && Conserved(s, e) && Enabled(s, FlushEnd(i))
    ensures Conserved(Apply(s, FlushEnd(i)), e)
  {
    HeldUpdate(s.flushers, i, Finished, e);
  }

  lemma {:induction false} PhaseConserves(s: State, step: Step, e: Entry)
    requires Phases(s) && Conserved(s, e) && Enabled(s, step)
    requires step in {Tick, SeeDone, Drained, CloseCall, CloseJoin, CloseEnd}
    ensures Conserved(Apply(s, step), e)
  {
  }

  lemma {:induction false} StepKeepsConserved(s: State, step: Step, e: Entry)
    requires Phases(s) && Conserved(s, e)
    ensures Conserved(Apply(s, step), e)
  {
    if Enabled(s, step) {
      match step {
        case Log(entry) => LogConserves(s, entry, e);
        case WriteOne => WriteConserves(s, e);
        case CloseWrite => CloseWriteConserves(s, e);
        case FlushStart => FlushStartConserves(s, e);
        case FlushTake(i) => FlushTakeConserves(s, i, e);
        case FlushWrite(i) => FlushWriteConserves(s, i, e);
        case FlushEnd(i) => FlushEndConserves(s, i, e);
        case Receive => TakeConserves(s, step, e);
        case Drain => TakeConserves(s, step, e);
        case CloseTake => TakeConserves(s, step, e);
        case _ => PhaseConserves(s, step, e);
      }
    }
  }

  lemma {:induction false} RunKeepsConserved(s: State, steps: seq<Step>, e: Entry)
    requires Phases(s) && Conserved(s, e)
    ensures Phases(Run(s, steps)) && Conserved(Run(s, steps), e)
    decreases |steps|
  {
    if steps != [] {
      StepKeepsPhases(s, steps[0]);
      StepKeepsConserved(s, steps[0], e);
      RunKeepsConserved(Apply(s, steps[0]), steps[1..], e);
    }
  }

  /** In every interleaving each submitted copy of an entry has been dropped, waits in the
      channel, waits in the worker's batch, is held by a Flush, or has been attempted. */
  lemma {:induction false} EveryEntryAccounted(steps: seq<Step>, e: Entry)
    ensures
      var s := Run(INITIAL, steps);
      Copies(s.submitted, e) ==
        Copies(s.dropped, e) + Copies(s.channel, e) + Copies(Unwritten(s), e) + Held(s.flushers, e)
        + Copies(HeldByClose(s), e) + Copies(s.attempted, e)
  {
    RunKeepsConserved(INITIAL, steps, e);
  }

  // ---------- Drops ----------

  /** The entries whose Log call found the channel full. */
  function MetFullChannel(s: State, steps: seq<Step>): seq<Entry>
    decreases |steps|
  {
    if steps == [] then []
    else
      (if steps[0].Log? && |s.channel| == BUFFER_SIZE then [steps[0].entry] else [])
      + MetFullChannel(Apply(s, steps[0]), steps[1..])
  }

  /** What one step adds to the dropped entries. */
  lemma {:induction false} StepDrops(s: State, step: Step)
    requires Phases(s)
    ensures Apply(s, step).dropped == s.dropped + if step.Log? && |s.channel| == BUFFER_SIZE then [step.entry] else []
  {
  }

  lemma {:induction false} DroppedOnlyWhenFull(s: State, steps: seq<Step>)
    requires Phases(s)
    ensures Run(s, steps).dropped == s.dropped + MetFullChannel(s, steps)
    decreases |steps|
  {
    if steps != [] {
      StepKeepsPhases(s, steps[0]);
      StepDrops(s, steps[0]);
      DroppedOnlyWhenFull(Apply(s, steps[0]), steps[1..]);
    }
  }

  // ---------- Order ----------

  predicate NoFlush(steps: seq<Step>) {
    forall i :: 0 <= i < |steps| ==> !steps[i].FlushStart?
  }

  ghost predicate InOrder(s: State) {
    s.flushers == [] && s.accepted == s.attempted + Unwritten(s) + HeldByClose(s) + s.channel
  }

  lemma {:induction false} WriteKeepsOrder(s: State)
    requires Phases(s) && InOrder(s) && Enabled(s, WriteOne)
    ensures InOrder(Apply(s, WriteOne))
  {
    UnwrittenAfterWrite(s);
  }

  /** The first waiting entry moves to the end of whatever precedes the channel. */
  lemma {:induction false} TakeKeepsOrder(s: State, step: Step)
    requires Phases(s) && InOrder(s) && Enabled(s, step) && step in {Receive, Drain, CloseTake}
    ensures InOrder(Apply(s, step))
  {
    var t := Apply(s, step);
    TakeMovesFirst(s, step);
    OneMoved(s.attempted, Unwritten(s) + HeldByClose(s), s.channel);
    assert s.accepted == s.attempted + (Unwritten(s) + HeldByClose(s)) + s.channel;
    assert t.accepted == t.attempted + (Unwritten(t) + HeldByClose(t)) + t.channel;
  }

  lemma {:induction false} TakeMovesFirst(s: State, step: Step)
    requires Phases(s) && Enabled(s, step) && step in {Receive, Drain, CloseTake}
    ensures
      var t := Apply(s, step);
      && t.channel == s.channel[1..] && t.attempted == s.attempted && t.accepted == s.accepted
      && t.flushers == s.flushers
      && Unwritten(t) + HeldByClose(t) == Unwritten(s) + HeldByClose(s) + [s.channel[0]]
  {
  }

  lemma OneMoved(before: seq<Entry>, middle: seq<Entry>, queue: seq<Entry>)
    requires queue != []
    ensures before + (middle + [queue[0]]) + queue[1..] == before + middle + queue
  {
  }

  lemma {:induction false} StepKeepsOrder(s: State, step: Step)
    requires Phases(s) && InOrder(s) && !step.FlushStart?
    ensures InOrder(Apply(s, step))
  {
    if Enabled(s, step) {
      match step {
        case WriteOne => WriteKeepsOrder(s);
        case Receive => TakeKeepsOrder(s, step);
        case Drain => TakeKeepsOrder(s, step);
        case CloseTake => TakeKeepsOrder(s, step);
        case _ =>
      }
    }
  }

  lemma {:induction false} RunKeepsOrder(s: State, steps: seq<Step>)
    requires Phases(s) && InOrder(s) && NoFlush(steps)
    ensures Phases(Run(s, steps)) && InOrder(Run(s, steps))
    decreases |steps|
  {
    if steps != [] {
      StepKeepsPhases(s, steps[0]);
      StepKeepsOrder(s, steps[0]);
      RunKeepsOrder(Apply(s, steps[0]), steps[1..]);
    }
  }

  /** When only Close flushes, the repository sees the accepted entries in acceptance order. */
  lemma {:induction false} AcceptanceOrder(steps: seq<Step>)
    requires NoFlush(steps)
    ensures
      var s := Run(INITIAL, steps);
      && s.accepted == s.attempted + Unwritten(s) + HeldByClose(s) + s.channel
      && (!Done(s) ==> |s.batch| <= FLUSH_BATCH_SIZE)
  {
    RunKeepsOrder(INITIAL, steps);
  }

  // ---------- What Close delivers ----------

  predicate NoLog(steps: seq<Step>) {
    forall i :: 0 <= i < |steps| ==> !steps[i].Log?
  }

  ghost predicate EmptyOnceReturned(s: State) {
    s.closer == Returned ==> s.channel == [] && s.batch == []
  }

  lemma {:induction false} QuietRunStaysEmpty(s: State, steps: seq<Step>)
    requires Phases(s) && EmptyOnceReturned(s) && NoLog(steps)
    ensures EmptyOnceReturned(Run(s, steps))
    ensures Run(s, steps).accepted == s.accepted
    decreases |steps|
  {
    if steps != [] {
      StepKeepsPhases(s, steps[0]);
      assert !steps[0].Log?;
      QuietRunStaysEmpty(Apply(s, steps[0]), steps[1..]);
    }
  }

  lemma {:induction false} RunAppend(s: State, first: seq<Step>, second: seq<Step>)
    ensures Run(s, first + second) == Run(Run(s, first), second)
    decreases |first|
  {
    if first == [] {
      assert first + second == second;
    } else {
      assert (first + second)[1..] == first[1..] + second;
      RunAppend(Apply(s, first[0]), first[1..], second);
    }
  }

  /** If the last Log call happens before Close returns, then once Close has returned every
      accepted entry has been attempted exactly once, except what a concurrent Flush still holds. */
  lemma {:induction false} CloseDelivers(before: seq<Step>, after: seq<Step>, e: Entry)
    requires Run(INITIAL, before).closer != Returned && NoLog(after)
    requires Run(INITIAL, before + after).closer == Returned
    ensures
      var s := Run(INITIAL, before + after);
      Copies(s.accepted, e) == Copies(s.attempted, e) + Held(s.flushers, e)
  {
    RunAppend(INITIAL, before, after);
    RunKeepsConserved(INITIAL, before, e);
    QuietRunStaysEmpty(Run(INITIAL, before), after);
    RunKeepsConserved(INITIAL, before + after, e);
  }

  /** When only Close flushes, it leaves the accepted entries written out in their order. */
  lemma {:induction false} CloseDeliversInOrder(before: seq<Step>, after: seq<Step>)
    requires Run(INITIAL, before).closer != Returned && NoLog(after) && NoFlush(before + after)
    requires Run(INITIAL, before + after).closer == Returned
    ensures
      var s := Run(INITIAL, before + after);
      s.attempted == s.accepted
  {
    RunAppend(INITIAL, before, after);
    assert forall i :: 0 <= i < |before| ==> before[i] == (before + after)[i];
    RunKeepsOrder(INITIAL, before);
    QuietRunStaysEmpty(Run(INITIAL, before), after);
    RunKeepsOrder(INITIAL, before + after);
  }

  // ---------- Close terminates ----------

  predicate ClosingStep(step: Step) {
    match step
    case Log(_) => false
    case FlushStart => false
    case FlushTake(_) => false
    case FlushWrite(_) => false
    case FlushEnd(_) => false
    case _ => true
  }

  /** What is left to do for the worker and Close once logging has stopped. */
  function Remaining(s: State): nat {
    4 * |s.channel| + 2 * |Unwritten(s)| + 2 * |HeldByClose(s)|
    + (match s.worker
       case Collecting => 5
       case Writing(_, false) => 4
       case Draining => 3
       case Writing(_, true) => 2
       case Stopped => 1)
    + (match s.closer case NotCalled => 4 case Waiting => 3 case Flushing(_) => 2 case Returned => 1)
  }

  /** After Close has been called, every step the worker or Close can take brings the end nearer,
      and concurrent Flush calls never push it away. */
  lemma {:induction false} ClosingShrinks(s: State, step: Step)
    requires Phases(s) && Done(s) && Enabled(s, step) && !step.Log?
    ensures Remaining(Apply(s, step)) <= Remaining(s)
    ensures ClosingStep(step) ==> Remaining(Apply(s, step)) < Remaining(s)
  {
    if step == WriteOne {
      UnwrittenAfterWrite(s);
    }
  }

  /** Until Close returns, the worker or Close can always take a step: there is no deadlock. */
  lemma {:induction false} ClosingNeverStuck(s: State) returns (step: Step)
    requires Phases(s) && Done(s) && s.closer != Returned
    ensures ClosingStep(step) && Enabled(s, step)
  {
    if s.closer.Flushing? {
      step := if s.closer.flusher.Holding? then CloseWrite else if s.channel != [] then CloseTake else CloseEnd;
    } else {
      match s.worker {
        case Collecting => step := SeeDone;
        case Writing(_, _) => step := WriteOne;
        case Draining => step := if s.channel != [] then Drain else Drained;
        case Stopped => step := CloseJoin;
      }
    }
  }

  function ClosingStepsTaken(s: State, steps: seq<Step>): nat
    decreases |steps|
  {
    if steps == [] then 0
    else
      (if ClosingStep(steps[0]) && Enabled(s, steps[0]) then 1 else 0)
      + ClosingStepsTaken(Apply(s, steps[0]), steps[1..])
  }

  /** Under any schedule without Log calls, the worker and Close together take at most
      Remaining(s) steps. */
  lemma {:induction false} CloseTerminates(s: State, steps: seq<Step>)
    requires Phases(s) && Done(s) && NoLog(steps)
    ensures ClosingStepsTaken(s, steps) + Remaining(Run(s, steps)) <= Remaining(s)
    decreases |steps|
  {
    if steps != [] {
      StepKeepsPhases(s, steps[0]);
      assert !steps[0].Log?;
      if Enabled(s, steps[0]) {
        ClosingShrinks(s, steps[0]);
      }
      CloseTerminates(Apply(s, steps[0]), steps[1..]);
    }
  }

  /** From every state in which Close has been called, the worker and Close alone bring it to its end. */
  lemma {:induction false} CloseReturns(s: State) returns (steps: seq<Step>)
    requires Phases(s) && Done(s)
    ensures NoLog(steps) && NoFlush(steps) && |steps| < Remaining(s)
    ensures Run(s, steps).closer == Returned
    decreases Remaining(s)
  {
    steps := [];
    if s.closer != Returned {
      var step := ClosingNeverStuck(s);
      ClosingShrinks(s, step);
      StepKeepsPhases(s, step);
      var rest := CloseReturns(Apply(s, step));
      steps := [step] + rest;
      assert steps[1..] == rest;
    }
  }

  // ---------- The logger's loops are uninterrupted runs ----------

  function FlushSteps(i: nat, n: nat): seq<Step> {
    if n == 0 then [FlushEnd(i)] else [FlushTake(i), FlushWrite(i)] + FlushSteps(i, n - 1)
  }

  /** A Flush with nothing else running attempts the channel's entries in order, as Logger.Flush does. */
  lemma {:induction false} FlushAlone(s: State, i: nat)
    requires i < |s.flushers| && s.flushers[i] == Ready
    ensures Run(s, FlushSteps(i, |s.channel|)) ==
            s.(channel := [], attempted := s.attempted + s.channel, flushers := s.flushers[i := Finished])
    decreases |s.channel|
  {
    var steps := FlushSteps(i, |s.channel|);
    if s.channel == [] {
      assert s.attempted + s.channel == s.attempted;
      assert Run(s, steps) == Run(Apply(s, FlushEnd(i)), steps[1..]);
    } else {
      var rest := FlushSteps(i, |s.channel| - 1);
      var t := Apply(Apply(s, FlushTake(i)), FlushWrite(i));
      assert steps[1..] == [FlushWrite(i)] + rest && ([FlushWrite(i)] + rest)[1..] == rest;
      assert t.flushers == s.flushers;
      assert t.attempted + t.channel == s.attempted + s.channel;
      FlushAlone(t, i);
    }
  }

  /** A call of Flush that meets nothing else empties the channel into the repository. */
  lemma {:induction false} FlushCallAlone(s: State)
    ensures Run(Apply(s, FlushStart), FlushSteps(|s.flushers|, |s.channel|)) ==
            s.(channel := [], attempted := s.attempted + s.channel, flushers := s.flushers + [Finished])
  {
    var t := Apply(s, FlushStart);
    FlushAlone(t, |s.flushers|);
    assert t.flushers[|s.flushers| := Finished] == s.flushers + [Finished];
  }

  /** Writing a batch without interruption attempts the rest of it in order, as Logger.WriteBatch does. */
  lemma {:induction false} WriteBatchAlone(s: State)
    requires s.worker.Writing? && s.worker.next < |s.batch|
    ensures Run(s, seq(|s.batch| - s.worker.next, _ => WriteOne)) ==
            s.(batch := [], attempted := s.attempted + Unwritten(s),
               worker := if s.worker.final then Stopped else Collecting)
    decreases |s.batch| - s.worker.next
  {
    var steps := seq(|s.batch| - s.worker.next, _ => WriteOne);
    var t := Apply(s, WriteOne);
    assert Run(s, steps) == Run(t, steps[1..]);
    if s.worker.next + 1 < |s.batch| {
      assert steps[1..] == seq(|t.batch| - t.worker.next, _ => WriteOne);
      WriteBatchAlone(t);
      assert s.attempted + Unwritten(s) == t.attempted + Unwritten(t);
    } else {
      assert Unwritten(s) == [s.batch[s.worker.next]];
    }
  }

  function Writes(n: nat): seq<Step> {
    seq(n, _ => WriteOne)
  }

  /** Log never waits: below a thousand waiting entries it adds one, and otherwise it drops it. */
  lemma LogAlone(s: State, entry: Entry)
    ensures Apply(s, Log(entry)) ==
            if |s.channel| < 1000
            then s.(channel := s.channel + [entry], submitted := s.submitted + [entry],
                    accepted := s.accepted + [entry])
            else s.(submitted := s.submitted + [entry], dropped := s.dropped + [entry])
  {
  }

  /** Receiving without interruption: the batch is written when it reaches a hundred, as in
      Logger.WorkerTurn, and not before. */
  lemma {:induction false} EntryTurnAlone(s: State)
    requires s.worker == Collecting && s.channel != [] && |s.batch| < 100
    ensures
      var batch := s.batch + [s.channel[0]];
      if |batch| < 100 then Apply(s, Receive) == s.(channel := s.channel[1..], batch := batch)
      else Run(Apply(s, Receive), Writes(100)) ==
           s.(channel := s.channel[1..], batch := [], attempted := s.attempted + batch)
  {
    var t := Apply(s, Receive);
    if |s.batch| + 1 == 100 {
      WriteBatchAlone(t);
      assert Unwritten(t) == t.batch;
    }
  }

  lemma {:induction false} TickTurnAlone(s: State)
    requires s.worker == Collecting && s.batch != []
    ensures Run(Apply(s, Tick), Writes(|s.batch|)) == s.(batch := [], attempted := s.attempted + s.batch)
  {
    WriteBatchAlone(Apply(s, Tick));
    assert Unwritten(Apply(s, Tick)) == s.batch;
  }

  function Drains(n: nat): seq<Step> {
    if n == 0 then [Drained] else [Drain] + Drains(n - 1)
  }

  lemma {:induction false} DrainAlone(s: State)
    requires s.worker == Draining
    ensures Run(s, Drains(|s.channel|)) ==
            s.(channel := [], batch := s.batch + s.channel,
               worker := if s.batch + s.channel != [] then Writing(0, true) else Stopped)
    decreases |s.channel|
  {
    var steps := Drains(|s.channel|);
    if s.channel == [] {
      assert s.batch + s.channel == s.batch;
      assert Run(s, steps) == Run(Apply(s, Drained), steps[1..]);
    } else {
      var t := Apply(s, Drain);
      assert steps[1..] == Drains(|t.channel|);
      assert t.batch + t.channel == s.batch + s.channel;
      DrainAlone(t);
    }
  }

  /** Shutting down without interruption: the worker takes what is waiting, writes it behind its
      batch and stops. */
  lemma {:induction false} DoneTurnAlone(s: State)
    requires s.worker == Collecting && Done(s)
    ensures
      var drained := Run(Apply(s, SeeDone), Drains(|s.channel|));
      Run(drained, Writes(|s.batch| + |s.channel|)) ==
        s.(channel := [], batch := [], attempted := s.attempted + s.batch + s.channel, worker := Stopped)
  {
    var t := Run(Apply(s, SeeDone), Drains(|s.channel|));
    DrainAlone(Apply(s, SeeDone));
    assert s.attempted + (s.batch + s.channel) == s.attempted + s.batch + s.channel;
    if s.batch + s.channel != [] {
      WriteBatchAlone(t);
      assert Unwritten(t) == s.batch + s.channel;
    } else {
      assert Writes(0) == [];
    }
  }

  /** Close can be called in every state, and then comes to its end. */
  lemma {:induction false} CloseCompletes(s: State) returns (steps: seq<Step>)
    requires Phases(s) && s.closer == NotCalled
    ensures NoLog(steps) && Run(s, steps).closer == Returned
  {
    StepKeepsPhases(s, CloseCall);
    var rest := CloseReturns(Apply(s, CloseCall));
    steps := [CloseCall] + rest;
    assert steps[1..] == rest;
  }
}
