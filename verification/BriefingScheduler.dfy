/** The daily briefing scheduler in a zone with a fixed offset. Times are nanoseconds. */
module BriefingScheduler {
  import opened Wrappers

  type Time = int

  const MINUTE: Time := 60_000_000_000
  const DAY: Time := 1440 * MINUTE

  /** The schedule's hour and minute, and the zone's offset. */
  datatype Schedule = Schedule(hour: int, minute: int, offset: int)

  predicate ValidSchedule(cfg: Schedule) {
    0 <= cfg.hour < 24 && 0 <= cfg.minute < 60
  }

  function LocalDay(cfg: Schedule, t: Time): int {
    (t + cfg.offset) / DAY
  }

  /** Nanoseconds since local midnight. */
  function LocalClock(cfg: Schedule, t: Time): int {
    (t + cfg.offset) % DAY
  }

  predicate IsDue(cfg: Schedule, t: Time) {
    var minutes := LocalClock(cfg, t) / MINUTE;
    minutes / 60 == cfg.hour && minutes % 60 == cfg.minute
  }

  /** A tick: the time it carries, the clock reading compared with the last run, and the reading
      stored as the last run if it fires. */
  datatype Tick = Tick(at: Time, checked: Time, stored: Time)

  predicate Fires(cfg: Schedule, lastRun: Option<Time>, tick: Tick) {
    IsDue(cfg, tick.at) && (lastRun.None? || tick.checked - lastRun.value > 2 * MINUTE)
  }

  /** Whether each tick fired, and the last run. */
  datatype History = History(fired: seq<bool>, lastRun: Option<Time>)

  function After(cfg: Schedule, ticks: seq<Tick>): (h: History)
    ensures |h.fired| == |ticks|
  {
    if ticks == [] then History([], None)
    else
      var before, tick := After(cfg, ticks[..|ticks| - 1]), ticks[|ticks| - 1];
      var fires := Fires(cfg, before.lastRun, tick);
      History(before.fired + [fires], if fires then Some(tick.stored) else before.lastRun)
  }

  /** The scheduler's loop over the ticks received before it is stopped. */
  method Run(cfg: Schedule, ticks: seq<Tick>) returns (fired: seq<bool>)
    ensures fired == After(cfg, ticks).fired
  {
    fired := [];
    var lastRun: Option<Time> := None;
    for i := 0 to |ticks|
      invariant History(fired, lastRun) == After(cfg, ticks[..i])
    {
      var tick := ticks[i];
      assert ticks[..i + 1][..i] == ticks[..i];
      var fires := false;
      var minutes := LocalClock(cfg, tick.at) / MINUTE;
      if minutes / 60 == cfg.hour && minutes % 60 == cfg.minute {
        if lastRun.None? || tick.checked - lastRun.value > 2 * MINUTE {
          lastRun := Some(tick.stored);
          fires := true;
        }
      }
      fired := fired + [fires];
    }
    assert ticks[..|ticks|] == ticks;
  }

  // ---------- The minute in which a day's briefing is due ----------

  function WindowStart(cfg: Schedule, day: int): Time {
    day * DAY - cfg.offset + (cfg.hour * 60 + cfg.minute) * MINUTE
  }

  lemma DivisionUnique(x: int, d: int, q: int, r: int)
    requires d > 0 && x == q * d + r && 0 <= r < d
    ensures x / d == q && x % d == r
  {
    var e := x / d - q;
    assert e * d == r - x % d;
    assert e >= 1 ==> e * d >= d;
    assert e <= -1 ==> e * d <= -d;
  }

  /** A tick is due exactly in the minute that starts at the scheduled time of its local day. */
  lemma {:induction false} DueIsInWindow(cfg: Schedule, t: Time)
    requires ValidSchedule(cfg)
    ensures IsDue(cfg, t) <==> 0 <= t - WindowStart(cfg, LocalDay(cfg, t)) < MINUTE
  {
    var clock := LocalClock(cfg, t);
    var minutes, m := clock / MINUTE, cfg.hour * 60 + cfg.minute;
    assert t - WindowStart(cfg, LocalDay(cfg, t)) == clock - m * MINUTE;
    assert IsDue(cfg, t) <==> minutes == m;
    if 0 <= clock - m * MINUTE < MINUTE {
      DivisionUnique(clock, MINUTE, m, clock - m * MINUTE);
    }
  }

  /** Due exactly if the zone's clock shows the scheduled hour and minute: local time is the instant
      plus the zone's offset, and a day has 1440 minutes of sixty thousand million nanoseconds. */
  lemma {:induction false} DueIffLocalMinute(cfg: Schedule, t: Time)
    requires ValidSchedule(cfg)
    ensures IsDue(cfg, t) <==> (t + cfg.offset) / 60_000_000_000 % 1440 == cfg.hour * 60 + cfg.minute
    ensures LocalDay(cfg, t) == (t + cfg.offset) / 60_000_000_000 / 1440
  {
    var local := t + cfg.offset;
    var day, rest := local / DAY, local % DAY;
    DivisionUnique(local, MINUTE, day * 1440 + rest / MINUTE, rest % MINUTE);
    DivisionUnique(local / MINUTE, 1440, day, rest / MINUTE);
  }

  lemma {:induction false} WindowIsDue(cfg: Schedule, day: int, t: Time)
    requires ValidSchedule(cfg) && 0 <= t - WindowStart(cfg, day) < MINUTE
    ensures LocalDay(cfg, t) == day && IsDue(cfg, t)
  {
    var m := cfg.hour * 60 + cfg.minute;
    var r := t - WindowStart(cfg, day) + m * MINUTE;
    assert t + cfg.offset == day * DAY + r;
    assert 0 <= m <= 1439;
    assert 0 <= r < DAY;
    DivisionUnique(t + cfg.offset, DAY, day, r);
    DueIsInWindow(cfg, t);
  }

  /** A schedule that is no time of day is accepted and never due. */
  lemma {:induction false} DueSometimeIff(cfg: Schedule)
    ensures (exists t :: IsDue(cfg, t)) <==> ValidSchedule(cfg)
  {
    if ValidSchedule(cfg) {
      WindowIsDue(cfg, 0, WindowStart(cfg, 0));
    } else {
      forall t ensures !IsDue(cfg, t) {
        assert 0 <= LocalClock(cfg, t) / MINUTE < 1440;
      }
    }
  }

  // ---------- At most one briefing a day ----------

  /** Ticks arrive in order, and a tick is handled at most delay after the time it carries. */
  ghost predicate WellTimed(ticks: seq<Tick>, delay: int) {
    && (forall i :: 0 <= i < |ticks| ==> ticks[i].at <= ticks[i].checked <= ticks[i].stored <= ticks[i].at + delay)
    && forall i, j :: 0 <= i <= j < |ticks| ==> ticks[i].at <= ticks[j].at
  }

  ghost predicate OncePerDay(cfg: Schedule, ticks: seq<Tick>) {
    forall i, j :: 0 <= i < j < |ticks| && After(cfg, ticks).fired[i] && After(cfg, ticks).fired[j] ==>
                     LocalDay(cfg, ticks[i].at) != LocalDay(cfg, ticks[j].at)
  }

  lemma {:induction false} FiredAt(cfg: Schedule, ticks: seq<Tick>, i: nat)
    requires i < |ticks|
    ensures After(cfg, ticks).fired[i] == Fires(cfg, After(cfg, ticks[..i]).lastRun, ticks[i])
    decreases |ticks|
  {
    if i < |ticks| - 1 {
      assert ticks[..|ticks| - 1][..i] == ticks[..i];
      FiredAt(cfg, ticks[..|ticks| - 1], i);
    }
  }

  /** The last run is the reading stored by the last tick that fired. */
  lemma {:induction false} LastRunIsLastFired(cfg: Schedule, ticks: seq<Tick>) returns (k: int)
    ensures After(cfg, ticks).lastRun.None? ==> k == -1
    ensures After(cfg, ticks).lastRun.Some? ==>
              0 <= k < |ticks| && After(cfg, ticks).fired[k] && After(cfg, ticks).lastRun == Some(ticks[k].stored)
    ensures forall i :: k < i < |ticks| ==> !After(cfg, ticks).fired[i]
  {
    k := -1;
    if ticks != [] {
      var last := |ticks| - 1;
      var before := After(cfg, ticks[..last]);
      if Fires(cfg, before.lastRun, ticks[last]) {
        k := last;
      } else {
        k := LastRunIsLastFired(cfg, ticks[..last]);
        assert forall i :: 0 <= i < last ==> After(cfg, ticks).fired[i] == before.fired[i];
      }
    }
  }

  lemma {:induction false} FiredPrefix(cfg: Schedule, ticks: seq<Tick>, n: nat, i: nat)
    requires i < n <= |ticks|
    ensures After(cfg, ticks[..n]).fired[i] == After(cfg, ticks).fired[i]
  {
    FiredAt(cfg, ticks, i);
    FiredAt(cfg, ticks[..n], i);
    assert ticks[..n][..i] == ticks[..i];
  }

  lemma {:induction false} OncePerDayHolds(cfg: Schedule, ticks: seq<Tick>, delay: int)
    requires ValidSchedule(cfg) && WellTimed(ticks, delay) && delay <= MINUTE + 1
    ensures OncePerDay(cfg, ticks)
  {
    forall i, j | 0 <= i < j < |ticks| && After(cfg, ticks).fired[i] && After(cfg, ticks).fired[j]
      ensures LocalDay(cfg, ticks[i].at) != LocalDay(cfg, ticks[j].at)
    {
      FiredAt(cfg, ticks, i);
      FiredAt(cfg, ticks, j);
      DueIsInWindow(cfg, ticks[i].at);
      DueIsInWindow(cfg, ticks[j].at);
      var k := LastRunIsLastFired(cfg, ticks[..j]);
      FiredPrefix(cfg, ticks, j, i);
      assert k >= i;
      assert ticks[i].at <= ticks[k].at;
    }
  }

  /** Two ticks in the same minute, the second handled long after the first, fire twice. */
  lemma {:induction false} LateTickFiresTwice(cfg: Schedule, delay: int) returns (ticks: seq<Tick>)
    requires ValidSchedule(cfg) && delay > MINUTE + 1
    ensures WellTimed(ticks, delay) && !OncePerDay(cfg, ticks)
  {
    var start := WindowStart(cfg, 0);
    var second := start + MINUTE - 1;
    var a, b := Tick(start, start, start), Tick(second, second + delay, second + delay);
    ticks := [a, b];
    WindowIsDue(cfg, 0, start);
    WindowIsDue(cfg, 0, second);
    FiredAt(cfg, ticks, 0);
    FiredAt(cfg, ticks, 1);
    assert ticks[..0] == [] && ticks[..1] == [a] && [a][..0] == [];
    assert After(cfg, [a]).lastRun == Some(start);
    assert LocalDay(cfg, ticks[0].at) == LocalDay(cfg, ticks[1].at);
  }

  ghost predicate NeverTwice(cfg: Schedule, delay: int) {
    forall ticks :: WellTimed(ticks, delay) ==> OncePerDay(cfg, ticks)
  }

  /** Every sequence of ticks has at most one briefing on each local day if and only if no tick is
      handled more than a minute (and one nanosecond) after the time it carries. */
  lemma {:induction false} OncePerDayIff(cfg: Schedule, delay: int)
    requires ValidSchedule(cfg)
    ensures NeverTwice(cfg, delay) <==> delay <= MINUTE + 1
  {
    if delay <= MINUTE + 1 {
      forall ticks | WellTimed(ticks, delay) ensures OncePerDay(cfg, ticks) {
        OncePerDayHolds(cfg, ticks, delay);
      }
    } else {
      var ticks := LateTickFiresTwice(cfg, delay);
    }
  }

  // ---------- Exactly one on a full day ----------

  /** The ticks are at most a minute apart and span the scheduled minute of the day. */
  ghost predicate CoversDay(cfg: Schedule, ticks: seq<Tick>, day: int) {
    && ticks != []
    && ticks[0].at <= WindowStart(cfg, day) <= ticks[|ticks| - 1].at
    && forall i :: 0 < i < |ticks| ==> ticks[i].at - ticks[i - 1].at <= MINUTE
  }

  lemma {:induction false} FirstAtOrAfter(ticks: seq<Tick>, t: Time) returns (j: nat)
    requires ticks != [] && t <= ticks[|ticks| - 1].at
    ensures j < |ticks| && t <= ticks[j].at && forall i :: 0 <= i < j ==> ticks[i].at < t
  {
    j := 0;
    while ticks[j].at < t
      invariant j < |ticks|
      invariant forall i :: 0 <= i < j ==> ticks[i].at < t
      decreases |ticks| - j
    {
      j := j + 1;
    }
  }

  /** On a full day of ticks at most a minute apart exactly one briefing fires. */
  lemma {:induction false} ExactlyOneOnFullDay(cfg: Schedule, ticks: seq<Tick>, delay: int, day: int) returns (j: nat)
    requires ValidSchedule(cfg) && WellTimed(ticks, delay) && delay <= MINUTE + 1 && CoversDay(cfg, ticks, day)
    ensures j < |ticks| && After(cfg, ticks).fired[j] && LocalDay(cfg, ticks[j].at) == day
    ensures forall i :: 0 <= i < |ticks| && i != j && After(cfg, ticks).fired[i] ==> LocalDay(cfg, ticks[i].at) != day
  {
    var start := WindowStart(cfg, day);
    j := FirstAtOrAfter(ticks, start);
    assert ticks[j].at < start + MINUTE by {
      if j > 0 {
        assert ticks[j].at - ticks[j - 1].at <= MINUTE;
      }
    }
    WindowIsDue(cfg, day, ticks[j].at);
    FiredAt(cfg, ticks, j);
    var k := LastRunIsLastFired(cfg, ticks[..j]);
    if k >= 0 {
      FiredPrefix(cfg, ticks, j, k);
      EarlierFireIsDaysBefore(cfg, ticks, k, day);
      assert ticks[k].stored <= ticks[k].at + delay;
    }
    OncePerDayHolds(cfg, ticks, delay);
  }

  lemma {:induction false} EarlierFireIsDaysBefore(cfg: Schedule, ticks: seq<Tick>, k: nat, day: int)
    requires ValidSchedule(cfg) && k < |ticks| && After(cfg, ticks).fired[k] && ticks[k].at < WindowStart(cfg, day)
    ensures ticks[k].at < WindowStart(cfg, day) - DAY + MINUTE
  {
    FiredAt(cfg, ticks, k);
    DueIsInWindow(cfg, ticks[k].at);
    var d := LocalDay(cfg, ticks[k].at);
    assert WindowStart(cfg, d) == WindowStart(cfg, day) + (d - day) * DAY;
    assert d >= day ==> (d - day) * DAY >= 0;
    assert d < day ==> (d - day) * DAY <= -DAY;
  }
}
