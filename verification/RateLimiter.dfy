/** The per-user sliding-window rate limiter. Times are nanoseconds on the monotonic clock. */
module RateLimiter {
  import opened Sets

  type UserId = int
  type Time = int

  const MINUTE: Time := 60_000_000_000
  const DEFAULT_PER_MIN := 30

  type Windows = map<UserId, seq<Time>>

  function Stored(requests: Windows, user: UserId): seq<Time> {
    if user in requests then requests[user] else []
  }

  /** The times later than the cutoff, in their order. */
  function After(times: seq<Time>, cutoff: Time): seq<Time> {
    if times == [] then []
    else
      var last := |times| - 1;
      After(times[..last], cutoff) + (if times[last] > cutoff then [times[last]] else [])
  }

  datatype Reply = Reply(allowed: bool, requests: Windows)

  function AllowOn(requests: Windows, maxPerMin: int, user: UserId, now: Time): Reply {
    var live := After(Stored(requests, user), now - MINUTE);
    if |live| >= maxPerMin then Reply(false, requests[user := live])
    else Reply(true, requests[user := live + [now]])
  }

  /** A user's slice: the first len cells of its backing array are in use. */
  datatype Slice = Slice(buf: array<Time>, len: nat)

  /** The cells that stay move to the front of the array being read. */
  method CompactInPlace(buf: array<Time>, len: nat, cutoff: Time) returns (validIdx: nat)
    requires len <= buf.Length
    modifies buf
    ensures validIdx <= len && buf[..validIdx] == After(old(buf[..len]), cutoff)
  {
    validIdx := 0;
    for i := 0 to len
      invariant validIdx <= i
      invariant buf[..validIdx] == After(old(buf[..i]), cutoff)
      invariant forall k :: i <= k < len ==> buf[k] == old(buf[k])
    {
      var t := buf[i];
      assert old(buf[..i + 1])[..i] == old(buf[..i]);
      if t > cutoff {
        buf[validIdx] := t;
        assert buf[..validIdx + 1] == buf[..validIdx] + [t];
        validIdx := validIdx + 1;
      }
    }
  }

  /** Writes behind the last cell in use, or moves to a larger array when there is none. */
  method Append(times: Slice, t: Time) returns (longer: Slice)
    requires times.len <= times.buf.Length
    modifies times.buf
    ensures longer.buf == times.buf || fresh(longer.buf)
    ensures longer.len == times.len + 1 <= longer.buf.Length
    ensures longer.buf[..longer.len] == old(times.buf[..times.len]) + [t]
  {
    var buf := times.buf;
    if times.len == buf.Length {
      buf := new Time[2 * times.len + 1];
      for i := 0 to times.len
        invariant times.buf[..] == old(times.buf[..]) && fresh(buf)
        invariant buf[..i] == times.buf[..i]
      {
        buf[i] := times.buf[i];
      }
    }
    assert buf[..times.len] == old(times.buf[..times.len]);
    buf[times.len] := t;
    assert buf[..times.len + 1] == buf[..times.len] + [t];
    longer := Slice(buf, times.len + 1);
  }

  /** Drops the times up to the cutoff, then adds the new one if there is room under the limit. */
  method Slide(times: Slice, cutoff: Time, now: Time, maxPerMin: int) returns (ok: bool, rest: Slice)
    requires times.len <= times.buf.Length
    modifies times.buf
    ensures rest.buf == times.buf || fresh(rest.buf)
    ensures rest.len <= rest.buf.Length
    ensures
      var live := After(old(times.buf[..times.len]), cutoff);
      && ok == (|live| < maxPerMin)
      && rest.buf[..rest.len] == if ok then live + [now] else live
  {
    var validIdx := CompactInPlace(times.buf, times.len, cutoff);
    rest := Slice(times.buf, validIdx);
    ok := rest.len < maxPerMin;
    if ok {
      rest := Append(rest, now);
    }
  }

  class Limiter {
    var requests: map<UserId, Slice>
    const maxPerMin: int

    ghost function Buffers(): set<array<Time>>
      reads this
    {
      set u | u in requests :: requests[u].buf
    }

    /** No two users share a backing array. */
    ghost predicate Valid()
      reads this, Buffers()
    {
      && (forall u :: u in requests ==> requests[u].len <= requests[u].buf.Length)
      && forall u, v :: u in requests && v in requests && u != v ==> requests[u].buf != requests[v].buf
    }

    ghost function Windows(): Windows
      reads this, Buffers()
      requires Valid()
    {
      map u | u in requests :: requests[u].buf[..requests[u].len]
    }

    constructor RateLimit(msgsPerMin: int)
      ensures Valid() && Windows() == map[]
      ensures maxPerMin == if msgsPerMin <= 0 then 30 else msgsPerMin
    {
      requests := map[];
      maxPerMin := if msgsPerMin <= 0 then DEFAULT_PER_MIN else msgsPerMin;
    }

    method Allow(user: UserId, now: Time) returns (ok: bool)
      requires Valid()
      modifies this`requests, Buffers()
      ensures Valid() && fresh(Buffers() - old(Buffers()))
      ensures Reply(ok, Windows()) == AllowOn(old(Windows()), maxPerMin, user, now)
    {
      ghost var before := Windows();
      var cutoff := now - MINUTE;
      var times: Slice;
      if user in requests {
        times := requests[user];
      } else {
        var empty := new Time[0];
        times := Slice(empty, 0);
      }
      assert times.buf[..times.len] == Stored(before, user);
      ok, times := Slide(times, cutoff, now, maxPerMin);
      SameOnceSet(before, Windows(), user, times.buf[..times.len]);
      Store(user, times);
    }

    /** Puts a user's slice into the map. */
    method Store(user: UserId, times: Slice)
      requires Valid() && times.len <= times.buf.Length
      requires forall u :: u in requests && u != user ==> requests[u].buf != times.buf
      modifies this`requests
      ensures Valid() && Buffers() <= old(Buffers()) + {times.buf}
      ensures Windows() == old(Windows())[user := times.buf[..times.len]]
    {
      requests := requests[user := times];
    }
  }

  lemma SameOnceSet(a: Windows, b: Windows, user: UserId, times: seq<Time>)
    requires a.Keys == b.Keys && forall u :: u in a && u != user ==> a[u] == b[u]
    ensures a[user := times] == b[user := times]
  {
    var c, d := a[user := times], b[user := times];
    assert forall u :: u in c ==> c[u] == d[u];
  }

  // ---------- Whole runs ----------

  datatype Call = Call(user: UserId, at: Time)

  /** The calls are serialised by the mutex, and each reads the clock while holding it. */
  ghost predicate Monotone(calls: seq<Call>) {
    forall i, j :: 0 <= i <= j < |calls| ==> calls[i].at <= calls[j].at
  }

  datatype History = History(requests: Windows, allowed: seq<bool>)

  function RunLimiter(maxPerMin: int, calls: seq<Call>): (h: History)
    ensures |h.allowed| == |calls|
  {
    if calls == [] then History(map[], [])
    else
      var last := |calls| - 1;
      var before := RunLimiter(maxPerMin, calls[..last]);
      var reply := AllowOn(before.requests, maxPerMin, calls[last].user, calls[last].at);
      History(reply.requests, before.allowed + [reply.allowed])
  }

  lemma {:induction false} RunPrefix(maxPerMin: int, calls: seq<Call>, n: nat)
    requires n <= |calls|
    ensures RunLimiter(maxPerMin, calls[..n]).allowed == RunLimiter(maxPerMin, calls).allowed[..n]
    decreases |calls|
  {
    if n == |calls| {
      assert calls[..n] == calls;
    } else {
      assert calls[..|calls| - 1][..n] == calls[..n];
      RunPrefix(maxPerMin, calls[..|calls| - 1], n);
    }
  }

  /** The positions of the user's allowed calls among the first n whose times lie in (lo, hi]. */
  ghost function Within(calls: seq<Call>, allowed: seq<bool>, n: nat, user: UserId, lo: Time, hi: Time): set<int>
    requires n <= |calls| == |allowed|
  {
    set j | 0 <= j < n && allowed[j] && calls[j].user == user && lo < calls[j].at <= hi
  }

  // ---------- The pruned list against the full history ----------

  function Added(call: Call, allowed: bool, user: UserId): seq<Time> {
    if allowed && call.user == user then [call.at] else []
  }

  /** All the user's allowed times, never pruned. */
  function Full(calls: seq<Call>, allowed: seq<bool>, user: UserId): seq<Time>
    requires |calls| == |allowed|
  {
    if calls == [] then []
    else
      var last := |calls| - 1;
      Full(calls[..last], allowed[..last], user) + Added(calls[last], allowed[last], user)
  }

  lemma {:induction false} AfterAppend(times: seq<Time>, more: seq<Time>, cutoff: Time)
    ensures After(times + more, cutoff) == After(times, cutoff) + After(more, cutoff)
  {
    if more == [] {
      assert times + more == times;
    } else {
      var last := |more| - 1;
      assert (times + more)[..|times + more| - 1] == times + more[..last];
      AfterAppend(times, more[..last], cutoff);
    }
  }

  lemma {:induction false} AfterTwice(times: seq<Time>, c: Time, d: Time)
    requires c <= d
    ensures After(After(times, c), d) == After(times, d)
  {
    if times != [] {
      var last := |times| - 1;
      AfterTwice(times[..last], c, d);
      AfterAppend(After(times[..last], c), if times[last] > c then [times[last]] else [], d);
      if times[last] > c {
        assert [times[last]][..0] == [];
      }
    }
  }

  /** One call stores the user's pruned list and what the call adds; other users keep theirs. */
  lemma {:induction false} StoredAfterCall(requests: Windows, maxPerMin: int, call: Call, user: UserId)
    ensures
      var reply := AllowOn(requests, maxPerMin, call.user, call.at);
      var kept := if call.user == user then After(Stored(requests, user), call.at - MINUTE) else Stored(requests, user);
      Stored(reply.requests, user) == kept + Added(call, reply.allowed, user)
  {
  }

  /** Pruning is invisible to any cutoff a later call can use. */
  lemma {:induction false} PrunedAgreesWithFull(maxPerMin: int, calls: seq<Call>, user: UserId, cutoff: Time)
    requires Monotone(calls)
    requires calls != [] ==> cutoff >= calls[|calls| - 1].at - MINUTE
    ensures
      var h := RunLimiter(maxPerMin, calls);
      After(Stored(h.requests, user), cutoff) == After(Full(calls, h.allowed, user), cutoff)
  {
    if calls != [] {
      var last := |calls| - 1;
      var call, front := calls[last], calls[..last];
      var before, h := RunLimiter(maxPerMin, front), RunLimiter(maxPerMin, calls);
      assert Monotone(front);
      PrunedAgreesWithFull(maxPerMin, front, user, cutoff);
      assert h.allowed[..last] == before.allowed;
      var stored, full := Stored(before.requests, user), Full(front, before.allowed, user);
      var added := Added(call, h.allowed[last], user);
      StoredAfterCall(before.requests, maxPerMin, call, user);
      AfterTwice(stored, call.at - MINUTE, cutoff);
      AfterAppend(stored, added, cutoff);
      AfterAppend(After(stored, call.at - MINUTE), added, cutoff);
      AfterAppend(full, added, cutoff);
    }
  }

  lemma {:induction false} WithinAppend(calls: seq<Call>, allowed: seq<bool>, user: UserId, lo: Time, hi: Time)
    requires 0 < |calls| == |allowed|
    ensures
      var last := |calls| - 1;
      var counted := allowed[last] && calls[last].user == user && lo < calls[last].at <= hi;
      Within(calls, allowed, |calls|, user, lo, hi) ==
        Within(calls[..last], allowed[..last], last, user, lo, hi) + if counted then {last} else {}
  {
  }

  lemma AfterOne(t: Time, cutoff: Time)
    ensures After([t], cutoff) == if t > cutoff then [t] else []
  {
    assert [t][..0] == [];
  }

  lemma {:induction false} FullCountsWithin(calls: seq<Call>, allowed: seq<bool>, user: UserId, lo: Time, hi: Time)
    requires |calls| == |allowed|
    requires forall i :: 0 <= i < |calls| ==> calls[i].at <= hi
    ensures |After(Full(calls, allowed, user), lo)| == |Within(calls, allowed, |calls|, user, lo, hi)|
  {
    if calls != [] {
      var last := |calls| - 1;
      FullCountsWithin(calls[..last], allowed[..last], user, lo, hi);
      WithinAppend(calls, allowed, user, lo, hi);
      AfterOne(calls[last].at, lo);
      AfterAppend(Full(calls[..last], allowed[..last], user), Added(calls[last], allowed[last], user), lo);
    }
  }

  lemma {:induction false} WithinPrefix(calls: seq<Call>, allowed: seq<bool>, n: nat, user: UserId, lo: Time, hi: Time)
    requires n <= |calls| == |allowed|
    ensures Within(calls[..n], allowed[..n], n, user, lo, hi) == Within(calls, allowed, n, user, lo, hi)
  {
  }

  lemma {:induction false} DecisionAt(maxPerMin: int, calls: seq<Call>, i: nat)
    requires i < |calls|
    ensures RunLimiter(maxPerMin, calls).allowed[i] ==
            AllowOn(RunLimiter(maxPerMin, calls[..i]).requests, maxPerMin, calls[i].user, calls[i].at).allowed
  {
    RunPrefix(maxPerMin, calls, i + 1);
    assert calls[..i + 1][..i] == calls[..i];
    assert RunLimiter(maxPerMin, calls).allowed[..i + 1][i] == RunLimiter(maxPerMin, calls).allowed[i];
  }

  /** The live entries of the pruned list are the allowed calls of the minute that ends now. */
  lemma {:induction false} LiveCountsWithin(maxPerMin: int, calls: seq<Call>, user: UserId, now: Time)
    requires Monotone(calls) && forall i :: 0 <= i < |calls| ==> calls[i].at <= now
    ensures
      var h := RunLimiter(maxPerMin, calls);
      |After(Stored(h.requests, user), now - MINUTE)| == |Within(calls, h.allowed, |calls|, user, now - MINUTE, now)|
  {
    PrunedAgreesWithFull(maxPerMin, calls, user, now - MINUTE);
    FullCountsWithin(calls, RunLimiter(maxPerMin, calls).allowed, user, now - MINUTE, now);
  }

  lemma AllowedOnLive(requests: Windows, maxPerMin: int, user: UserId, now: Time)
    ensures AllowOn(requests, maxPerMin, user, now).allowed <==>
            |After(Stored(requests, user), now - MINUTE)| < maxPerMin
  {
  }

  /** Over any run with a clock that does not go back, a call is allowed exactly when fewer than
      the limit of the same user's earlier allowed calls lie in the minute that ends now. */
  lemma {:induction false} AllowedIffWindowNotFull(maxPerMin: int, calls: seq<Call>, i: nat)
    requires Monotone(calls) && i < |calls|
    ensures
      var allowed := RunLimiter(maxPerMin, calls).allowed;
      var aMinuteBefore := calls[i].at - 60_000_000_000;
      allowed[i] <==> |Within(calls, allowed, i, calls[i].user, aMinuteBefore, calls[i].at)| < maxPerMin
  {
    var user, now := calls[i].user, calls[i].at;
    DecisionAt(maxPerMin, calls, i);
    AllowedOnLive(RunLimiter(maxPerMin, calls[..i]).requests, maxPerMin, user, now);
    LiveCountsWithin(maxPerMin, calls[..i], user, now);
    RunPrefix(maxPerMin, calls, i);
    WithinPrefix(calls, RunLimiter(maxPerMin, calls).allowed, i, user, now - MINUTE, now);
  }

  /** A window that ends with call m lies, apart from m, in the minute that ended at m. */
  lemma {:induction false} WindowEndingAt(calls: seq<Call>, allowed: seq<bool>, m: nat, user: UserId, t: Time)
    requires Monotone(calls) && m < |calls| == |allowed|
    requires m in Within(calls, allowed, m + 1, user, t - MINUTE, t)
    ensures |Within(calls, allowed, m + 1, user, t - MINUTE, t)| <=
            1 + |Within(calls, allowed, m, user, calls[m].at - MINUTE, calls[m].at)|
  {
    var window := Within(calls, allowed, m + 1, user, t - MINUTE, t);
    var earlier := Within(calls, allowed, m, user, calls[m].at - MINUTE, calls[m].at);
    forall j | j in window && j != m ensures j in earlier {
      assert calls[j].at <= calls[m].at <= t;
    }
    SubsetCard(window, earlier + {m});
  }

  lemma {:induction false} WindowOfFirst(maxPerMin: nat, calls: seq<Call>, n: nat, user: UserId, t: Time)
    requires Monotone(calls) && n <= |calls|
    ensures |Within(calls, RunLimiter(maxPerMin, calls).allowed, n, user, t - MINUTE, t)| <= maxPerMin
  {
    var allowed := RunLimiter(maxPerMin, calls).allowed;
    var window := Within(calls, allowed, n, user, t - MINUTE, t);
    if n == 0 {
      assert window == {};
    } else if n - 1 in window {
      WindowEndingAt(calls, allowed, n - 1, user, t);
      AllowedIffWindowNotFull(maxPerMin, calls, n - 1);
    } else {
      assert window == Within(calls, allowed, n - 1, user, t - MINUTE, t);
      WindowOfFirst(maxPerMin, calls, n - 1, user, t);
    }
  }

  /** No minute, wherever it ends, holds more than the limit of allowed calls of one user. */
  lemma {:induction false} NoWindowExceedsLimit(maxPerMin: nat, calls: seq<Call>, user: UserId, t: Time)
    requires Monotone(calls)
    ensures |Within(calls, RunLimiter(maxPerMin, calls).allowed, |calls|, user, t - MINUTE, t)| <= maxPerMin
  {
    WindowOfFirst(maxPerMin, calls, |calls|, user, t);
  }

  lemma {:induction false} AfterNotLonger(times: seq<Time>, cutoff: Time)
    ensures |After(times, cutoff)| <= |times|
  {
    if times != [] {
      AfterNotLonger(times[..|times| - 1], cutoff);
    }
  }

  /** The memory kept for a user never exceeds the limit. */
  lemma {:induction false} StoredIsBounded(maxPerMin: nat, calls: seq<Call>, user: UserId)
    ensures |Stored(RunLimiter(maxPerMin, calls).requests, user)| <= maxPerMin
  {
    if calls != [] {
      var last := |calls| - 1;
      var before := RunLimiter(maxPerMin, calls[..last]);
      StoredIsBounded(maxPerMin, calls[..last], user);
      StoredAfterCall(before.requests, maxPerMin, calls[last], user);
      AllowedOnLive(before.requests, maxPerMin, calls[last].user, calls[last].at);
      AfterNotLonger(Stored(RunLimiter(maxPerMin, calls[..last]).requests, user), calls[last].at - MINUTE);
    }
  }
}
