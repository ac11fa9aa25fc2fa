/** The alert cache under interleaving. A producer reads the entry under the read lock, compares
    it with the clock after releasing it, and marks the key under the write lock, so mutes,
    deletions and other producers may fall in between. */
module AlertProtocol {
  import opened Wrappers
  import opened AlertCache

  /** A producer that has read the cache entry, or has passed the cooldown test. */
  datatype Producer = Looked(key: Key, entry: Option<Time>) | Passed(key: Key)

  datatype Sent = Sent(key: Key, at: Time)

  datatype State = State(cache: map<Key, Time>, producers: map<int, Producer>, clock: Time, sent: seq<Sent>)

  datatype Step =
    | Tick(delta: nat)
    | Look(p: int, key: Key)
    | Compare(p: int)
    | Mark(p: int)
    | Mute(key: Key, duration: int)
    | Prune(key: Key)

  function Lookup(cache: map<Key, Time>, key: Key): Option<Time> {
    if key in cache then Some(cache[key]) else None
  }

  /** Prune is the cleanup loop at one key; a whole sweep is a Prune step for every key. */
  function Apply(cooldown: int, s: State, step: Step): State {
    match step
    case Tick(delta) => s.(clock := s.clock + delta)
    case Look(p, key) =>
      if p in s.producers then s else s.(producers := s.producers[p := Looked(key, Lookup(s.cache, key))])
    case Compare(p) =>
      if p !in s.producers || !s.producers[p].Looked? then s
      else if s.producers[p].entry.Some? && s.clock - s.producers[p].entry.value < cooldown then
        s.(producers := s.producers - {p})
      else s.(producers := s.producers[p := Passed(s.producers[p].key)])
    case Mark(p) =>
      if p !in s.producers || !s.producers[p].Passed? then s
      else
        var key := s.producers[p].key;
        s.(cache := s.cache[key := s.clock], producers := s.producers - {p}, sent := s.sent + [Sent(key, s.clock)])
    case Mute(key, duration) => s.(cache := s.cache[key := s.clock + duration - cooldown])
    case Prune(key) =>
      if key in s.cache && s.clock - s.cache[key] > cooldown then s.(cache := s.cache - {key}) else s
  }

  function Run(cooldown: int, s: State, steps: seq<Step>): State
    decreases |steps|
  {
    if steps == [] then s else Run(cooldown, Apply(cooldown, s, steps[0]), steps[1..])
  }

  /** The class's sweep is a Prune step at each key it visits. */
  lemma {:induction false} SweepIsPrunes(cooldown: int, s: State, keys: seq<Key>)
    requires forall k :: k in s.cache ==> k in keys
    ensures Run(cooldown, s, seq(|keys|, i requires 0 <= i < |keys| => Prune(keys[i]))) ==
            s.(cache := Swept(s.cache, cooldown, s.clock))
  {
    PrunesSweep(cooldown, s, keys);
    assert (map k | k in s.cache && (k in keys ==> s.clock - s.cache[k] <= cooldown) :: s.cache[k])
        == Swept(s.cache, cooldown, s.clock);
  }

  lemma {:induction false} PrunesSweep(cooldown: int, s: State, keys: seq<Key>)
    ensures Run(cooldown, s, seq(|keys|, i requires 0 <= i < |keys| => Prune(keys[i]))) ==
            s.(cache := map k | k in s.cache && (k in keys ==> s.clock - s.cache[k] <= cooldown) :: s.cache[k])
    decreases |keys|
  {
    var steps := seq(|keys|, i requires 0 <= i < |keys| => Prune(keys[i]));
    if keys == [] {
      assert (map k | k in s.cache && (k in keys ==> s.clock - s.cache[k] <= cooldown) :: s.cache[k]) == s.cache;
    } else {
      var rest := keys[1..];
      var t := Apply(cooldown, s, Prune(keys[0]));
      PrunesSweep(cooldown, t, rest);
      assert steps[1..] == seq(|rest|, i requires 0 <= i < |rest| => Prune(rest[i]));
      assert forall k :: k in keys <==> k == keys[0] || k in rest;
    }
  }

  // ---------- Cleanup is unobservable ----------

  function WithoutPrunes(steps: seq<Step>): seq<Step> {
    if steps == [] then []
    else (if steps[0].Prune? then [] else [steps[0]]) + WithoutPrunes(steps[1..])
  }

  ghost predicate SameOrStale(a: Option<Time>, b: Option<Time>, clock: Time, cooldown: int) {
    a == b || (a.None? && b.Some? && clock - b.value > cooldown)
  }

  ghost predicate SameOrStaleProducer(a: Producer, b: Producer, clock: Time, cooldown: int) {
    a == b || (a.Looked? && b.Looked? && a.key == b.key && SameOrStale(a.entry, b.entry, clock, cooldown))
  }

  ghost predicate CachesAgree(a: map<Key, Time>, b: map<Key, Time>, clock: Time, cooldown: int) {
    forall k :: SameOrStale(Lookup(a, k), Lookup(b, k), clock, cooldown)
  }

  ghost predicate ProducersAgree(a: map<int, Producer>, b: map<int, Producer>, clock: Time, cooldown: int) {
    a.Keys == b.Keys && forall p :: p in b ==> SameOrStaleProducer(a[p], b[p], clock, cooldown)
  }

  /** The pruned cache misses only entries that have been past their cooldown since. */
  ghost predicate Simulates(cooldown: int, pruned: State, full: State) {
    && pruned.clock == full.clock
    && pruned.sent == full.sent
    && CachesAgree(pruned.cache, full.cache, full.clock, cooldown)
    && ProducersAgree(pruned.producers, full.producers, full.clock, cooldown)
  }

  lemma {:induction false} ProducerStepSimulates(cooldown: int, pruned: State, full: State, step: Step)
    requires Simulates(cooldown, pruned, full) && (step.Look? || step.Compare?)
    ensures Simulates(cooldown, Apply(cooldown, pruned, step), Apply(cooldown, full, step))
  {
    if step.Look? {
      assert SameOrStale(Lookup(pruned.cache, step.key), Lookup(full.cache, step.key), full.clock, cooldown);
    }
  }

  lemma {:induction false} PruneSimulates(cooldown: int, pruned: State, full: State, key: Key)
    requires Simulates(cooldown, pruned, full)
    ensures Simulates(cooldown, Apply(cooldown, pruned, Prune(key)), full)
  {
    var cache := Apply(cooldown, pruned, Prune(key)).cache;
    forall k ensures SameOrStale(Lookup(cache, k), Lookup(full.cache, k), full.clock, cooldown) {
      assert SameOrStale(Lookup(pruned.cache, k), Lookup(full.cache, k), full.clock, cooldown);
    }
  }

  lemma {:induction false} CachesAgreeAfterWrite(a: map<Key, Time>, b: map<Key, Time>, clock: Time, cooldown: int,
                                                 key: Key, t: Time)
    requires CachesAgree(a, b, clock, cooldown)
    ensures CachesAgree(a[key := t], b[key := t], clock, cooldown)
  {
    var c, d := a[key := t], b[key := t];
    forall k ensures SameOrStale(Lookup(c, k), Lookup(d, k), clock, cooldown) {
      assert SameOrStale(Lookup(a, k), Lookup(b, k), clock, cooldown);
    }
  }

  lemma {:induction false} TickSimulates(cooldown: int, pruned: State, full: State, delta: nat)
    requires Simulates(cooldown, pruned, full)
    ensures Simulates(cooldown, Apply(cooldown, pruned, Tick(delta)), Apply(cooldown, full, Tick(delta)))
  {
    forall k ensures SameOrStale(Lookup(pruned.cache, k), Lookup(full.cache, k), full.clock + delta, cooldown) {
      assert SameOrStale(Lookup(pruned.cache, k), Lookup(full.cache, k), full.clock, cooldown);
    }
  }

  lemma {:induction false} MarkSimulates(cooldown: int, pruned: State, full: State, p: int)
    requires Simulates(cooldown, pruned, full)
    ensures Simulates(cooldown, Apply(cooldown, pruned, Mark(p)), Apply(cooldown, full, Mark(p)))
  {
    if p in full.producers && full.producers[p].Passed? {
      assert SameOrStaleProducer(pruned.producers[p], full.producers[p], full.clock, cooldown);
      CachesAgreeAfterWrite(pruned.cache, full.cache, full.clock, cooldown, full.producers[p].key, full.clock);
    }
  }

  lemma {:induction false} StepSimulates(cooldown: int, pruned: State, full: State, step: Step)
    requires Simulates(cooldown, pruned, full)
    ensures Simulates(cooldown, Apply(cooldown, pruned, step),
                      if step.Prune? then full else Apply(cooldown, full, step))
  {
    match step {
      case Prune(key) => PruneSimulates(cooldown, pruned, full, key);
      case Tick(delta) => TickSimulates(cooldown, pruned, full, delta);
      case Mark(p) => MarkSimulates(cooldown, pruned, full, p);
      case Mute(key, duration) =>
        CachesAgreeAfterWrite(pruned.cache, full.cache, full.clock, cooldown, key, full.clock + duration - cooldown);
      case _ => ProducerStepSimulates(cooldown, pruned, full, step);
    }
  }

  lemma {:induction false} RunSimulates(cooldown: int, pruned: State, full: State, steps: seq<Step>)
    requires Simulates(cooldown, pruned, full)
    ensures Simulates(cooldown, Run(cooldown, pruned, steps), Run(cooldown, full, WithoutPrunes(steps)))
    decreases |steps|
  {
    if steps != [] {
      var rest := steps[1..];
      StepSimulates(cooldown, pruned, full, steps[0]);
      if steps[0].Prune? {
        assert WithoutPrunes(steps) == WithoutPrunes(rest);
        RunSimulates(cooldown, Apply(cooldown, pruned, steps[0]), full, rest);
      } else {
        assert WithoutPrunes(steps)[1..] == WithoutPrunes(rest);
        RunSimulates(cooldown, Apply(cooldown, pruned, steps[0]), Apply(cooldown, full, steps[0]), rest);
      }
    }
  }

  /** Whatever the interleaving, deleting old entries never changes which alerts are sent or when. */
  lemma {:induction false} CleanupUnobservable(cooldown: int, s: State, steps: seq<Step>)
    ensures Run(cooldown, s, steps).sent == Run(cooldown, s, WithoutPrunes(steps)).sent
  {
    RunSimulates(cooldown, s, s, steps);
  }

  // ---------- Spacing of alerts ----------

  /** No key is handled by two producers at once: each cluster's events come from one goroutine. */
  predicate OneProducerPerKey(s: State, step: Step) {
    step.Look? && step.p !in s.producers ==> forall q :: q in s.producers ==> s.producers[q].key != step.key
  }

  ghost predicate Disciplined(cooldown: int, minMute: int, s: State, steps: seq<Step>)
    decreases |steps|
  {
    steps == [] ||
    (&& OneProducerPerKey(s, steps[0])
     && (steps[0].Mute? ==> steps[0].duration >= minMute)
     && Disciplined(cooldown, minMute, Apply(cooldown, s, steps[0]), steps[1..]))
  }

  /** A time the cache may hold, or a producer may have read, after which no alert comes before due. */
  ghost predicate EntryWaits(entry: Option<Time>, cooldown: int, clock: Time, due: Time) {
    match entry
    case Some(t) => t + cooldown >= due
    case None => clock >= due
  }

  ghost predicate ProducerWaits(p: Producer, cooldown: int, clock: Time, due: Time) {
    match p
    case Looked(_, entry) => EntryWaits(entry, cooldown, clock, due)
    case Passed(_) => clock >= due
  }

  /** No alert for the key can be sent before due. */
  ghost predicate Waits(cooldown: int, s: State, key: Key, due: Time) {
    && EntryWaits(Lookup(s.cache, key), cooldown, s.clock, due)
    && forall p :: p in s.producers && s.producers[p].key == key ==>
         ProducerWaits(s.producers[p], cooldown, s.clock, due)
  }

  ghost predicate Exclusive(s: State) {
    forall p, q :: p in s.producers && q in s.producers && p != q ==> s.producers[p].key != s.producers[q].key
  }

  ghost predicate Spaced(sent: seq<Sent>, gap: int) {
    forall i, j :: 0 <= i < j < |sent| && sent[i].key == sent[j].key ==> sent[j].at - sent[i].at >= gap
  }

  /** The alert was sent in the past, and its key is silent for gap from then on. */
  ghost predicate AlertHolds(cooldown: int, gap: int, s: State, alert: Sent) {
    alert.at <= s.clock && Waits(cooldown, s, alert.key, alert.at + gap)
  }

  ghost predicate SpacedSoFar(cooldown: int, gap: int, s: State) {
    && Exclusive(s)
    && Spaced(s.sent, gap)
    && forall alert :: alert in s.sent ==> AlertHolds(cooldown, gap, s, alert)
  }

  lemma {:induction false} StepKeepsWaiting(cooldown: int, s: State, step: Step, key: Key, due: Time)
    requires Waits(cooldown, s, key, due)
    requires step.Mute? && step.key == key ==> s.clock + step.duration >= due
    requires step.Mark? ==> cooldown >= 0
    ensures Waits(cooldown, Apply(cooldown, s, step), key, due)
  {
  }

  lemma {:induction false} MarkStartsWait(cooldown: int, gap: int, s: State, p: int)
    requires Exclusive(s) && gap <= cooldown
    requires p in s.producers && s.producers[p].Passed?
    ensures Waits(cooldown, Apply(cooldown, s, Mark(p)), s.producers[p].key, s.clock + gap)
  {
  }

  lemma {:induction false} StepKeepsExclusive(cooldown: int, s: State, step: Step)
    requires Exclusive(s) && OneProducerPerKey(s, step)
    ensures Exclusive(Apply(cooldown, s, step))
  {
  }

  /** The alert a Mark step adds comes no sooner than every earlier alert of its key allows. */
  lemma {:induction false} MarkKeepsSpaced(cooldown: int, gap: int, s: State, p: int)
    requires p in s.producers && s.producers[p].Passed? && SpacedSoFar(cooldown, gap, s)
    ensures Spaced(Apply(cooldown, s, Mark(p)).sent, gap)
  {
    var key := s.producers[p].key;
    forall i | 0 <= i < |s.sent| && s.sent[i].key == key ensures s.clock - s.sent[i].at >= gap {
      assert AlertHolds(cooldown, gap, s, s.sent[i]);
    }
  }

  lemma {:induction false} StepKeepsHolding(cooldown: int, minMute: int, gap: int, s: State, step: Step, alert: Sent)
    requires cooldown >= 0 && gap <= minMute && AlertHolds(cooldown, gap, s, alert)
    requires step.Mute? ==> step.duration >= minMute
    ensures AlertHolds(cooldown, gap, Apply(cooldown, s, step), alert)
  {
    StepKeepsWaiting(cooldown, s, step, alert.key, alert.at + gap);
  }

  predicate Marks(s: State, step: Step) {
    step.Mark? && step.p in s.producers && s.producers[step.p].Passed?
  }

  lemma {:induction false} StepKeepsSpaced(cooldown: int, minMute: int, gap: int, s: State, step: Step)
    requires cooldown >= 0 && OneProducerPerKey(s, step)
    requires step.Mute? ==> step.duration >= minMute
    requires gap <= minMute && gap <= cooldown && SpacedSoFar(cooldown, gap, s)
    ensures SpacedSoFar(cooldown, gap, Apply(cooldown, s, step))
  {
    var t := Apply(cooldown, s, step);
    StepKeepsExclusive(cooldown, s, step);
    var added := if Marks(s, step) then [Sent(s.producers[step.p].key, s.clock)] else [];
    assert t.sent == s.sent + added;
    if Marks(s, step) {
      MarkStartsWait(cooldown, gap, s, step.p);
      MarkKeepsSpaced(cooldown, gap, s, step.p);
    }
    forall alert | alert in t.sent ensures AlertHolds(cooldown, gap, t, alert) {
      if alert in s.sent {
        StepKeepsHolding(cooldown, minMute, gap, s, step, alert);
      }
    }
  }

  lemma {:induction false} RunKeepsSpaced(cooldown: int, minMute: int, gap: int, s: State, steps: seq<Step>)
    requires cooldown >= 0 && Disciplined(cooldown, minMute, s, steps)
    requires gap <= minMute && gap <= cooldown && SpacedSoFar(cooldown, gap, s)
    ensures SpacedSoFar(cooldown, gap, Run(cooldown, s, steps))
    decreases |steps|
  {
    if steps != [] {
      StepKeepsSpaced(cooldown, minMute, gap, s, steps[0]);
      RunKeepsSpaced(cooldown, minMute, gap, Apply(cooldown, s, steps[0]), steps[1..]);
    }
  }

  function Initial(clock: Time): State {
    State(map[], map[], clock, [])
  }

  /** With one producer per key and mutes of at least minMute, two alerts for the same key are
      marked at least the cooldown, or the shortest mute if that is shorter, apart; deletions and
      mutes may fall anywhere between a producer's steps. */
  lemma {:induction false} AlertsAreSpaced(cooldown: int, minMute: int, clock: Time, steps: seq<Step>)
    requires cooldown >= 0 && Disciplined(cooldown, minMute, Initial(clock), steps)
    ensures Spaced(Run(cooldown, Initial(clock), steps).sent, if minMute < cooldown then minMute else cooldown)
  {
    RunKeepsSpaced(cooldown, minMute, if minMute < cooldown then minMute else cooldown, Initial(clock), steps);
  }

  // ---------- The bound is exact, and the discipline is needed ----------

  function AlertSteps(p: int, key: Key): seq<Step> {
    [Look(p, key), Compare(p), Mark(p)]
  }

  lemma {:induction false} RunAppend(cooldown: int, s: State, first: seq<Step>, second: seq<Step>)
    ensures Run(cooldown, s, first + second) == Run(cooldown, Run(cooldown, s, first), second)
    decreases |first|
  {
    if first == [] {
      assert first + second == second;
    } else {
      assert (first + second)[1..] == first[1..] + second;
      RunAppend(cooldown, Apply(cooldown, s, first[0]), first[1..], second);
    }
  }

  /** Look, compare and mark without interruption are the class's Alert. */
  lemma {:induction false} AlertIsRun(cooldown: int, s: State, p: int, key: Key)
    requires p !in s.producers
    ensures
      var t := Run(cooldown, s, AlertSteps(p, key));
      t == if key !in s.cache || s.clock - s.cache[key] >= cooldown
           then s.(cache := s.cache[key := s.clock], sent := s.sent + [Sent(key, s.clock)])
           else s
  {
    var a := Apply(cooldown, s, Look(p, key));
    var b := Apply(cooldown, a, Compare(p));
    var steps := AlertSteps(p, key);
    assert steps[1..] == [Compare(p), Mark(p)] && steps[1..][1..] == [Mark(p)] && steps[1..][1..][1..] == [];
    assert Run(cooldown, b, [Mark(p)]) == Apply(cooldown, b, Mark(p));
    assert Run(cooldown, a, [Compare(p), Mark(p)]) == Run(cooldown, b, [Mark(p)]);
    assert a.producers - {p} == s.producers;
    assert b.producers - {p} == s.producers;
  }

  lemma {:induction false} DisciplinedAppend(cooldown: int, minMute: int, s: State, first: seq<Step>, second: seq<Step>)
    requires Disciplined(cooldown, minMute, s, first)
    requires Disciplined(cooldown, minMute, Run(cooldown, s, first), second)
    ensures Disciplined(cooldown, minMute, s, first + second)
    decreases |first|
  {
    if first == [] {
      assert first + second == second;
    } else {
      assert (first + second)[1..] == first[1..] + second;
      DisciplinedAppend(cooldown, minMute, Apply(cooldown, s, first[0]), first[1..], second);
    }
  }

  lemma {:induction false} AlertIsDisciplined(cooldown: int, minMute: int, s: State, p: int, key: Key)
    requires s.producers == map[]
    ensures Disciplined(cooldown, minMute, s, AlertSteps(p, key))
  {
    var a := Apply(cooldown, s, Look(p, key));
    var b := Apply(cooldown, a, Compare(p));
    var steps := AlertSteps(p, key);
    assert steps[1..] == [Compare(p), Mark(p)] && steps[1..][1..] == [Mark(p)] && steps[1..][1..][1..] == [];
    assert Disciplined(cooldown, minMute, b, [Mark(p)]);
    assert Disciplined(cooldown, minMute, a, [Compare(p), Mark(p)]);
  }

  /** An alert, some steps that let the key cool down, and the alert again. */
  lemma {:induction false} AlertTwice(cooldown: int, minMute: int, key: Key, middle: seq<Step>)
    requires
      var t := State(map[key := 0], map[], 0, [Sent(key, 0)]);
      var u := Run(cooldown, t, middle);
      && Disciplined(cooldown, minMute, t, middle)
      && u.producers == map[] && u.sent == t.sent
      && key in u.cache && CooledDown(u.cache[key], cooldown, u.clock)
    ensures
      var steps := AlertSteps(0, key) + middle + AlertSteps(0, key);
      var u := Run(cooldown, State(map[key := 0], map[], 0, [Sent(key, 0)]), middle);
      && Disciplined(cooldown, minMute, Initial(0), steps)
      && Run(cooldown, Initial(0), steps).sent == [Sent(key, 0), Sent(key, u.clock)]
  {
    var s, alert := Initial(0), AlertSteps(0, key);
    var t := State(map[key := 0], map[], 0, [Sent(key, 0)]);
    AlertIsRun(cooldown, s, 0, key);
    assert Run(cooldown, s, alert) == t;
    var u := Run(cooldown, t, middle);
    AlertIsRun(cooldown, u, 0, key);
    RunAppend(cooldown, s, alert, middle);
    RunAppend(cooldown, s, alert + middle, alert);
    AlertIsDisciplined(cooldown, minMute, s, 0, key);
    AlertIsDisciplined(cooldown, minMute, u, 0, key);
    DisciplinedAppend(cooldown, minMute, s, alert, middle);
    DisciplinedAppend(cooldown, minMute, s, alert + middle, alert);
  }

  /** A mute shorter than the cooldown lets the next alert through that much earlier. */
  lemma {:induction false} ShortMuteIsTheGap(cooldown: int, minMute: nat, key: Key)
    requires minMute < cooldown
    ensures
      var steps := AlertSteps(0, key) + [Mute(key, minMute), Tick(minMute)] + AlertSteps(0, key);
      && Disciplined(cooldown, minMute, Initial(0), steps)
      && Run(cooldown, Initial(0), steps).sent == [Sent(key, 0), Sent(key, minMute)]
  {
    var t := State(map[key := 0], map[], 0, [Sent(key, 0)]);
    var middle := [Mute(key, minMute), Tick(minMute)];
    assert middle[1..] == [Tick(minMute)] && middle[1..][1..] == [];
    var muted := Apply(cooldown, t, Mute(key, minMute));
    assert Run(cooldown, muted, [Tick(minMute)]) == Apply(cooldown, muted, Tick(minMute));
    assert Disciplined(cooldown, minMute, muted, [Tick(minMute)]);
    AlertTwice(cooldown, minMute, key, middle);
  }

  /** Without mutes the next alert comes after the cooldown. */
  lemma {:induction false} CooldownIsTheGap(cooldown: nat, minMute: int, key: Key)
    ensures
      var steps := AlertSteps(0, key) + [Tick(cooldown)] + AlertSteps(0, key);
      && Disciplined(cooldown, minMute, Initial(0), steps)
      && Run(cooldown, Initial(0), steps).sent == [Sent(key, 0), Sent(key, cooldown)]
  {
    var t := State(map[key := 0], map[], 0, [Sent(key, 0)]);
    assert [Tick(cooldown)][1..] == [];
    assert Run(cooldown, t, [Tick(cooldown)]) == Apply(cooldown, t, Tick(cooldown));
    AlertTwice(cooldown, minMute, key, [Tick(cooldown)]);
  }

  /** Every disciplined run keeps the gap between two alerts of a key. */
  ghost predicate KeepsGap(cooldown: int, minMute: int, gap: int) {
    forall clock, steps ::
      Disciplined(cooldown, minMute, Initial(clock), steps) ==> Spaced(Run(cooldown, Initial(clock), steps).sent, gap)
  }

  /** A gap is kept by all runs if and only if neither the cooldown nor the shortest mute is shorter. */
  lemma {:induction false} SpacingIff(cooldown: nat, minMute: nat, gap: int)
    ensures KeepsGap(cooldown, minMute, gap) <==> gap <= cooldown && gap <= minMute
  {
    var key: Key := "";
    if gap <= cooldown && gap <= minMute {
      forall clock, steps | Disciplined(cooldown, minMute, Initial(clock), steps)
        ensures Spaced(Run(cooldown, Initial(clock), steps).sent, gap)
      {
        AlertsAreSpaced(cooldown, minMute, clock, steps);
      }
    } else if gap > cooldown {
      CooldownIsTheGap(cooldown, minMute, key);
      BreaksGap(cooldown, minMute, gap, key, cooldown, AlertSteps(0, key) + [Tick(cooldown)] + AlertSteps(0, key));
    } else {
      ShortMuteIsTheGap(cooldown, minMute, key);
      BreaksGap(cooldown, minMute, gap, key, minMute,
                AlertSteps(0, key) + [Mute(key, minMute), Tick(minMute)] + AlertSteps(0, key));
    }
  }

  lemma {:induction false} BreaksGap(cooldown: int, minMute: int, gap: int, key: Key, wait: nat, steps: seq<Step>)
    requires Disciplined(cooldown, minMute, Initial(0), steps) && wait < gap
    requires Run(cooldown, Initial(0), steps).sent == [Sent(key, 0), Sent(key, wait)]
    ensures !KeepsGap(cooldown, minMute, gap)
  {
    var sent := Run(cooldown, Initial(0), steps).sent;
    assert sent[0].key == sent[1].key && sent[1].at - sent[0].at < gap;
  }

  /** The program's own values, in seconds: five minutes of cooldown, and mutes of one hour. */
  const DEFAULT_COOLDOWN := 300
  const BUTTON_MUTE := 3600

  /** With them the alerts of a key are a full cooldown apart, and nothing more is kept. */
  lemma {:induction false} ProgramSpacingIff(gap: int)
    ensures KeepsGap(DEFAULT_COOLDOWN, BUTTON_MUTE, gap) <==> gap <= DEFAULT_COOLDOWN
  {
    SpacingIff(DEFAULT_COOLDOWN, BUTTON_MUTE, gap);
  }

  /** Without one producer per key there is no spacing: two producers that both pass the test before
      either marks send the alert twice at once. */
  lemma {:induction false} TwoProducersSendTwice(cooldown: int, key: Key)
    ensures
      var steps := [Look(0, key), Look(1, key), Compare(0), Compare(1), Mark(0), Mark(1)];
      Run(cooldown, Initial(0), steps).sent == [Sent(key, 0), Sent(key, 0)]
  {
    var steps := [Look(0, key), Look(1, key), Compare(0), Compare(1), Mark(0), Mark(1)];
    assert steps[1..] == [Look(1, key), Compare(0), Compare(1), Mark(0), Mark(1)];
    assert steps[1..][1..] == [Compare(0), Compare(1), Mark(0), Mark(1)];
    assert steps[1..][1..][1..] == [Compare(1), Mark(0), Mark(1)];
    assert steps[1..][1..][1..][1..] == [Mark(0), Mark(1)];
    assert steps[1..][1..][1..][1..][1..] == [Mark(1)];
    var s2 := Apply(cooldown, Apply(cooldown, Initial(0), steps[0]), steps[1]);
    var s4 := Apply(cooldown, Apply(cooldown, s2, steps[2]), steps[3]);
    var s6 := Apply(cooldown, Apply(cooldown, s4, steps[4]), steps[5]);
    assert Run(cooldown, s4, [Mark(0), Mark(1)]) == Run(cooldown, Apply(cooldown, s4, Mark(0)), [Mark(1)]) == s6;
    assert Run(cooldown, s2, steps[1..][1..]) == Run(cooldown, s4, [Mark(0), Mark(1)]);
  }

  // ---------- Mutes ----------

  /** Every later mute of the key also reaches at least to until. */
  ghost predicate RemutesReach(cooldown: int, s: State, steps: seq<Step>, key: Key, until: Time)
    decreases |steps|
  {
    steps == [] ||
    (&& (steps[0].Mute? && steps[0].key == key ==> s.clock + steps[0].duration >= until)
     && RemutesReach(cooldown, Apply(cooldown, s, steps[0]), steps[1..], key, until))
  }

  /** No alert for the key is sent before until among those sent after the first n. */
  ghost predicate SilentUntil(sent: seq<Sent>, n: nat, key: Key, until: Time) {
    forall i :: n <= i < |sent| && sent[i].key == key ==> sent[i].at >= until
  }

  lemma {:induction false} WaitingIsSilent(cooldown: int, s: State, steps: seq<Step>, key: Key, until: Time)
    requires cooldown >= 0 && Waits(cooldown, s, key, until) && RemutesReach(cooldown, s, steps, key, until)
    ensures |s.sent| <= |Run(cooldown, s, steps).sent|
    ensures s.sent == Run(cooldown, s, steps).sent[..|s.sent|]
    ensures SilentUntil(Run(cooldown, s, steps).sent, |s.sent|, key, until)
    decreases |steps|
  {
    if steps != [] {
      var t := Apply(cooldown, s, steps[0]);
      StepKeepsWaiting(cooldown, s, steps[0], key, until);
      WaitingIsSilent(cooldown, t, steps[1..], key, until);
      var sent := Run(cooldown, s, steps).sent;
      assert s.sent == t.sent[..|s.sent|];
      forall i | |s.sent| <= i < |sent| && sent[i].key == key ensures sent[i].at >= until {
        if i < |t.sent| {
          assert sent[i] == t.sent[i];
        }
      }
    }
  }

  /** In no continuation is an alert for the key sent before until. */
  ghost predicate Honoured(cooldown: int, s: State, key: Key, until: Time) {
    forall steps :: RemutesReach(cooldown, s, steps, key, until) ==>
                      SilentUntil(Run(cooldown, s, steps).sent, |s.sent|, key, until)
  }

  /** The producers of the key that are between their read and their mark have nothing that would
      let them mark before until. */
  ghost predicate InFlightHarmless(cooldown: int, s: State, key: Key, until: Time) {
    forall p :: p in s.producers && s.producers[p].key == key ==>
      ProducerWaits(s.producers[p], cooldown, s.clock, until)
  }

  /** What a producer in flight can still do: wait for its old entry to cool down, then mark. */
  lemma {:induction false} InFlightBreaksMute(cooldown: int, s: State, p: int, until: Time) returns (steps: seq<Step>)
    requires p in s.producers && !ProducerWaits(s.producers[p], cooldown, s.clock, until) && s.clock < until
    ensures RemutesReach(cooldown, s, steps, s.producers[p].key, until)
    ensures forall i :: 0 <= i < |steps| ==> !steps[i].Mute?
    ensures !SilentUntil(Run(cooldown, s, steps).sent, |s.sent|, s.producers[p].key, until)
  {
    var key := s.producers[p].key;
    var wait: nat := match s.producers[p] {
      case Looked(_, Some(t)) => if t + cooldown > s.clock then t + cooldown - s.clock else 0
      case _ => 0
    };
    steps := [Tick(wait), Compare(p), Mark(p)];
    assert steps[1..] == [Compare(p), Mark(p)] && steps[1..][1..] == [Mark(p)] && steps[1..][1..][1..] == [];
    var a := Apply(cooldown, s, Tick(wait));
    var b := Apply(cooldown, a, Compare(p));
    var c := Apply(cooldown, b, Mark(p));
    assert b.producers[p] == Passed(key);
    assert Run(cooldown, b, [Mark(p)]) == c;
    assert Run(cooldown, a, [Compare(p), Mark(p)]) == c;
    assert RemutesReach(cooldown, c, [], key, until);
    assert RemutesReach(cooldown, b, [Mark(p)], key, until);
    assert RemutesReach(cooldown, a, [Compare(p), Mark(p)], key, until);
    assert c.sent[|s.sent|] == Sent(key, a.clock);
  }

  /** A mute silences its key for the whole duration, against every later schedule in which later
      mutes reach as far, exactly when no producer of the key was caught between its read and its
      mark with leave to alert before the mute ends. */
  lemma {:induction false} MuteHonouredIff(cooldown: int, s: State, key: Key, duration: int)
    requires cooldown >= 0 && duration > 0
    ensures
      var muted := Apply(cooldown, s, Mute(key, duration));
      Honoured(cooldown, muted, key, s.clock + duration) <==> InFlightHarmless(cooldown, s, key, s.clock + duration)
  {
    var muted := Apply(cooldown, s, Mute(key, duration));
    var until := s.clock + duration;
    if InFlightHarmless(cooldown, s, key, until) {
      assert Waits(cooldown, muted, key, until);
      forall steps | RemutesReach(cooldown, muted, steps, key, until)
        ensures SilentUntil(Run(cooldown, muted, steps).sent, |muted.sent|, key, until)
      {
        WaitingIsSilent(cooldown, muted, steps, key, until);
      }
    } else {
      var p :| p in s.producers && s.producers[p].key == key &&
               !ProducerWaits(s.producers[p], cooldown, s.clock, until);
      var steps := InFlightBreaksMute(cooldown, muted, p, until);
    }
  }

  // ---------- Muting again ----------

  /** Every mute of the key lasts at least d. */
  predicate MutesLast(steps: seq<Step>, key: Key, d: int) {
    forall i :: 0 <= i < |steps| && steps[i].Mute? && steps[i].key == key ==> steps[i].duration >= d
  }

  /** No continuation with such mutes sends an alert for the key before until. */
  ghost predicate Silences(cooldown: int, s: State, key: Key, until: Time, d: int) {
    forall steps :: MutesLast(steps, key, d) ==> SilentUntil(Run(cooldown, s, steps).sent, |s.sent|, key, until)
  }

  lemma {:induction false} LongMutesReach(cooldown: int, s: State, steps: seq<Step>, key: Key, until: Time, d: int)
    requires MutesLast(steps, key, d) && until <= s.clock + d
    ensures RemutesReach(cooldown, s, steps, key, until)
    decreases |steps|
  {
    if steps != [] {
      assert forall i :: 0 <= i < |steps[1..]| ==> steps[1..][i] == steps[i + 1];
      LongMutesReach(cooldown, Apply(cooldown, s, steps[0]), steps[1..], key, until, d);
    }
  }

  lemma {:induction false} Pick<T>(s: set<T>) returns (x: T)
    requires s != {}
    ensures x in s
  {
    x :| x in s;
  }

  lemma {:induction false} FreshProducer(taken: set<int>) returns (p: int)
    ensures forall q :: q in taken ==> q < p
  {
    p := 0;
    var rest := taken;
    while rest != {}
      invariant rest <= taken && forall q :: q in taken && q !in rest ==> q < p
    {
      var q := Pick(rest);
      rest := rest - {q};
      p := if q < p then p else q + 1;
    }
  }

  /** A new mute, shorter than what is left of the old one, and an alert as soon as it ends. */
  lemma {:induction false} ShortRemuteBreaksMute(cooldown: int, s: State, key: Key, until: Time, d: nat)
    returns (steps: seq<Step>)
    requires s.clock + d < until
    ensures MutesLast(steps, key, d) && !SilentUntil(Run(cooldown, s, steps).sent, |s.sent|, key, until)
  {
    var p := FreshProducer(s.producers.Keys);
    var muted := Apply(cooldown, s, Mute(key, d));
    var t := Apply(cooldown, muted, Tick(d));
    var first := [Mute(key, d), Tick(d)];
    assert first[1..] == [Tick(d)] && first[1..][1..] == [];
    assert Run(cooldown, muted, [Tick(d)]) == t;
    AlertIsRun(cooldown, t, p, key);
    RunAppend(cooldown, s, first, AlertSteps(p, key));
    steps := first + AlertSteps(p, key);
    assert Run(cooldown, s, steps).sent[|s.sent|] == Sent(key, s.clock + d);
  }

  /** If all later mutes of the key last at least d, a mute silences the key for its whole duration
      in every continuation exactly when it is no longer than d and no producer of the key was
      caught with leave to alert before it ends. A shorter mute can shorten an earlier one. */
  lemma {:induction false} MuteSilencesIff(cooldown: int, s: State, key: Key, duration: int, d: int)
    requires cooldown >= 0 && duration > 0
    ensures
      var until := s.clock + duration;
      Silences(cooldown, Apply(cooldown, s, Mute(key, duration)), key, until, d) <==>
      duration <= d && InFlightHarmless(cooldown, s, key, until)
  {
    var muted := Apply(cooldown, s, Mute(key, duration));
    var until := s.clock + duration;
    if duration > d {
      var steps := ShortRemuteBreaksMute(cooldown, muted, key, until, if d < 0 then 0 else d);
      assert MutesLast(steps, key, d);
    } else if InFlightHarmless(cooldown, s, key, until) {
      assert Waits(cooldown, muted, key, until);
      forall steps | MutesLast(steps, key, d)
        ensures SilentUntil(Run(cooldown, muted, steps).sent, |muted.sent|, key, until)
      {
        LongMutesReach(cooldown, muted, steps, key, until, d);
        WaitingIsSilent(cooldown, muted, steps, key, until);
      }
    } else {
      var p :| p in s.producers && s.producers[p].key == key &&
               !ProducerWaits(s.producers[p], cooldown, s.clock, until);
      var steps := InFlightBreaksMute(cooldown, muted, p, until);
      assert MutesLast(steps, key, d);
    }
  }

  /** With check and mark as one step, as when nothing is in flight, a mute holds against all later
      mutes exactly if none of them is shorter. */
  lemma {:induction false} MuteHonouredWhenIdle(cooldown: int, s: State, key: Key, duration: int, d: int)
    requires cooldown >= 0 && duration > 0
    requires forall p :: p in s.producers ==> s.producers[p].key != key
    ensures
      var muted := Apply(cooldown, s, Mute(key, duration));
      && Honoured(cooldown, muted, key, s.clock + duration)
      && (Silences(cooldown, muted, key, s.clock + duration, d) <==> duration <= d)
  {
    MuteHonouredIff(cooldown, s, key, duration);
    MuteSilencesIff(cooldown, s, key, duration, d);
  }

  /** The program's mutes all last one hour, so muting again never shortens one: only a producer
      caught between its read and its mark can break it. */
  lemma {:induction false} ProgramMuteIff(s: State, key: Key)
    ensures
      var until := s.clock + BUTTON_MUTE;
      Silences(DEFAULT_COOLDOWN, Apply(DEFAULT_COOLDOWN, s, Mute(key, BUTTON_MUTE)), key, until, BUTTON_MUTE) <==>
      InFlightHarmless(DEFAULT_COOLDOWN, s, key, until)
  {
    MuteSilencesIff(DEFAULT_COOLDOWN, s, key, BUTTON_MUTE, BUTTON_MUTE);
  }

  /** The first alert of a key is about to be marked when the key is muted, and is sent all the same. */
  lemma {:induction false} LostMute(cooldown: int, key: Key, duration: int)
    requires cooldown >= 0 && duration > 0
    ensures
      var s := Run(cooldown, Initial(0), [Look(0, key), Compare(0)]);
      !Honoured(cooldown, Apply(cooldown, s, Mute(key, duration)), key, s.clock + duration)
  {
    var a := Apply(cooldown, Initial(0), Look(0, key));
    var s := Apply(cooldown, a, Compare(0));
    assert Run(cooldown, a, [Compare(0)]) == s;
    assert [Look(0, key), Compare(0)][1..] == [Compare(0)];
    assert Run(cooldown, Initial(0), [Look(0, key), Compare(0)]) == s;
    assert s.producers[0] == Passed(key);
    MuteHonouredIff(cooldown, s, key, duration);
  }
}
