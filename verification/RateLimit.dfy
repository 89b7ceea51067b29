/**
 The sliding-window limiter of the telemetry endpoint. `Entries` is the pruned list the limiter keeps;
 `Accepted` is the full history of accepted calls, which it never stores. Times are nanoseconds.
 */
module RateLimit {
  type Instant = int

  const RATE_LIMIT_MAX: nat := 60
  const RATE_LIMIT_WINDOW_SECS: nat := 60
  const NANOS_PER_SEC: nat := 1_000_000_000
  const WINDOW: nat := RATE_LIMIT_WINDOW_SECS * NANOS_PER_SEC

  /** Whole seconds from `t` to `now`; zero when `t` is later. */
  function ElapsedSecs(now: Instant, t: Instant): nat {
    if t <= now then (now - t) / NANOS_PER_SEC else 0
  }

  predicate Recent(now: Instant, t: Instant) {
    ElapsedSecs(now, t) < RATE_LIMIT_WINDOW_SECS
  }

  /** Truncating to seconds does not blur the window's edge. */
  lemma RecentIsExact(now: Instant, t: Instant)
    ensures Recent(now, t) <==> now - t < 60_000_000_000
  {
  }

  function Retain(now: Instant, ts: seq<Instant>): seq<Instant> {
    if ts == [] then []
    else if Recent(now, ts[0]) then [ts[0]] + Retain(now, ts[1..])
    else Retain(now, ts[1..])
  }

  predicate NonDecreasing(ts: seq<Instant>) {
    forall i, j :: 0 <= i < j < |ts| ==> ts[i] <= ts[j]
  }

  /** What is stored after `calls`. */
  function Entries(calls: seq<Instant>): seq<Instant> {
    if calls == [] then []
    else Recorded(Entries(calls[..|calls| - 1]), calls[|calls| - 1])
  }

  function Recorded(entries: seq<Instant>, now: Instant): seq<Instant> {
    var kept := Retain(now, entries);
    if |kept| >= RATE_LIMIT_MAX then kept else kept + [now]
  }

  /** All accepted calls, by the rule the limiter promises: fewer than the maximum in the last window. */
  function Accepted(calls: seq<Instant>): seq<Instant> {
    if calls == [] then []
    else
      var history := Accepted(calls[..|calls| - 1]);
      var now := calls[|calls| - 1];
      if |Retain(now, history)| >= RATE_LIMIT_MAX then history else history + [now]
  }

  /** The accepted calls of the half-open window that starts at `from`. */
  function InWindow(from: Instant, ts: seq<Instant>): seq<Instant> {
    if ts == [] then []
    else if from <= ts[0] < from + WINDOW then [ts[0]] + InWindow(from, ts[1..])
    else InWindow(from, ts[1..])
  }

  predicate In(t: Instant, ts: seq<Instant>, from: Instant) {
    t in ts && from <= t < from + 60_000_000_000
  }

  /** The window is sixty seconds long, open at its end. */
  lemma {:induction false} WindowExactly(from: Instant, ts: seq<Instant>)
    ensures forall t :: t in InWindow(from, ts) <==> In(t, ts, from)
  {
    if ts != [] {
      WindowExactly(from, ts[1..]);
      assert forall t :: t in ts <==> t == ts[0] || t in ts[1..];
    }
  }

  /** Calls that all lie in the window are all counted. */
  lemma {:induction false} WindowKeepsAll(from: Instant, ts: seq<Instant>)
    requires forall k :: 0 <= k < |ts| ==> from <= ts[k] < from + 60_000_000_000
    ensures InWindow(from, ts) == ts
  {
    if ts != [] {
      assert forall k :: 0 <= k < |ts| - 1 ==> ts[1..][k] == ts[k + 1];
      WindowKeepsAll(from, ts[1..]);
      assert ts == [ts[0]] + ts[1..];
    }
  }

  lemma {:induction false} RetainConcat(now: Instant, a: seq<Instant>, b: seq<Instant>)
    ensures Retain(now, a + b) == Retain(now, a) + Retain(now, b)
  {
    if a == [] {
      assert a + b == b;
    } else {
      assert (a + b)[1..] == a[1..] + b;
      RetainConcat(now, a[1..], b);
    }
  }

  lemma {:induction false} InWindowConcat(from: Instant, a: seq<Instant>, b: seq<Instant>)
    ensures InWindow(from, a + b) == InWindow(from, a) + InWindow(from, b)
  {
    if a == [] {
      assert a + b == b;
    } else {
      assert (a + b)[1..] == a[1..] + b;
      InWindowConcat(from, a[1..], b);
    }
  }

  /** Pruning at an earlier time first changes nothing: what has left the window never returns. */
  lemma {:induction false} RetainTwice(before: Instant, now: Instant, ts: seq<Instant>)
    requires before <= now
    ensures Retain(now, Retain(before, ts)) == Retain(now, ts)
  {
    if ts != [] {
      RetainTwice(before, now, ts[1..]);
      RecentIsExact(before, ts[0]);
      RecentIsExact(now, ts[0]);
    }
  }

  /** The stored list is the in-window part of the full history of accepted calls. */
  lemma {:induction false} EntriesAreTheWindow(calls: seq<Instant>)
    requires NonDecreasing(calls) && calls != []
    ensures Entries(calls) == Retain(calls[|calls| - 1], Accepted(calls))
  {
    var prefix, now := calls[..|calls| - 1], calls[|calls| - 1];
    if prefix != [] {
      EntriesAreTheWindow(prefix);
      RetainTwice(prefix[|prefix| - 1], now, Accepted(prefix));
    }
    assert Retain(now, Entries(prefix)) == Retain(now, Accepted(prefix));
    RetainConcat(now, Accepted(prefix), [now]);
    RetainIdempotent(now, Accepted(prefix));
  }

  lemma RetainIdempotent(now: Instant, ts: seq<Instant>)
    ensures Retain(now, Retain(now, ts)) == Retain(now, ts)
  {
    RetainTwice(now, now, ts);
  }

  predicate Allowed(calls: seq<Instant>, now: Instant) {
    |Retain(now, Entries(calls))| < RATE_LIMIT_MAX
  }

  /** The verdict on the stored list is the verdict on the whole history. */
  lemma AllowedByHistory(calls: seq<Instant>, now: Instant)
    requires NonDecreasing(calls + [now])
    ensures Allowed(calls, now) <==> |Retain(now, Accepted(calls))| < RATE_LIMIT_MAX
    ensures Accepted(calls + [now]) == Accepted(calls) + if Allowed(calls, now) then [now] else []
  {
    hide Retain, NonDecreasing;
    assert (calls + [now])[..|calls|] == calls;
    if calls != [] {
      NonDecreasingPrefix(calls, now);
      EntriesAreTheWindow(calls);
      RetainTwice(calls[|calls| - 1], now, Accepted(calls));
    }
  }

  /** A call is rejected exactly when sixty calls were accepted less than sixty seconds before it. */
  lemma RejectedOnlyWhenFull(calls: seq<Instant>, now: Instant)
    requires NonDecreasing(calls + [now])
    ensures !Allowed(calls, now) <==> |InWindow(now - 60_000_000_000 + 1, Accepted(calls))| == 60
  {
    hide Retain, Accepted, InWindow, Allowed, NonDecreasing;
    AllowedByHistory(calls, now);
    AcceptedAreEarlier(calls, now);
    RetainIsInWindow(now, Accepted(calls));
    NonDecreasingPrefix(calls, now);
    AtMostMaxPerWindow(calls, now - WINDOW + 1);
  }

  lemma AcceptedAreEarlier(calls: seq<Instant>, now: Instant)
    requires NonDecreasing(calls + [now])
    ensures forall t :: t in Accepted(calls) ==> t <= now
  {
    hide Accepted;
    AcceptedAreCalls(calls);
    forall t | t in Accepted(calls) ensures t <= now {
      var k :| 0 <= k < |calls| && calls[k] == t;
      assert (calls + [now])[k] <= (calls + [now])[|calls|];
    }
  }

  lemma NonDecreasingPrefix(calls: seq<Instant>, now: Instant)
    requires NonDecreasing(calls + [now])
    ensures NonDecreasing(calls)
    ensures calls != [] ==> calls[|calls| - 1] <= now
  {
    if calls != [] {
      assert (calls + [now])[|calls| - 1] <= (calls + [now])[|calls|];
    }
    forall i, j | 0 <= i < j < |calls| ensures calls[i] <= calls[j] {
      assert (calls + [now])[i] <= (calls + [now])[j];
    }
  }

  lemma {:induction false} AcceptedAreCalls(calls: seq<Instant>)
    ensures forall t :: t in Accepted(calls) ==> t in calls
  {
    if calls != [] {
      AcceptedAreCalls(calls[..|calls| - 1]);
    }
  }

  lemma {:induction false} RetainIsInWindow(now: Instant, ts: seq<Instant>)
    requires forall t :: t in ts ==> t <= now
    ensures Retain(now, ts) == InWindow(now - WINDOW + 1, ts)
  {
    if ts != [] {
      assert ts[0] in ts;
      assert forall t :: t in ts[1..] ==> t in ts;
      RecentIsExact(now, ts[0]);
      RetainIsInWindow(now, ts[1..]);
    }
  }

  /** A window that reaches past `now` holds no more of the history than the pruned list. */
  lemma {:induction false} WindowFitsInRetained(from: Instant, now: Instant, ts: seq<Instant>)
    requires now < from + WINDOW
    ensures |InWindow(from, ts)| <= |Retain(now, ts)|
  {
    if ts != [] {
      RecentIsExact(now, ts[0]);
      WindowFitsInRetained(from, now, ts[1..]);
    }
  }

  /** No half-open sixty-second window holds more than sixty accepted calls, wherever it starts. */
  lemma {:induction false} AtMostMaxPerWindow(calls: seq<Instant>, from: Instant)
    requires NonDecreasing(calls)
    ensures |InWindow(from, Accepted(calls))| <= 60
  {
    if calls != [] {
      var prefix, now := calls[..|calls| - 1], calls[|calls| - 1];
      AtMostMaxPerWindow(prefix, from);
      InWindowConcat(from, Accepted(prefix), [now]);
      if from <= now < from + WINDOW {
        WindowFitsInRetained(from, now, Accepted(prefix));
      }
    }
  }

  lemma EntriesAfter(calls: seq<Instant>, now: Instant)
    ensures Entries([]) == [] && Entries(calls + [now]) == Recorded(Entries(calls), now)
  {
    assert (calls + [now])[..|calls|] == calls;
  }

  /** The shared counters, one list for each install id. */
  class RateLimiter {
    var counters: map<string, seq<Instant>>
    /** Every call made, by install id. */
    ghost var calls: map<string, seq<Instant>>

    ghost predicate Valid()
      reads this
    {
      && counters.Keys == calls.Keys
      && forall id :: id in counters ==> counters[id] == Entries(calls[id])
    }

    ghost function CallsOf(id: string): seq<Instant>
      reads this
    {
      if id in calls then calls[id] else []
    }

    constructor ()
      ensures Valid() && calls == map[]
    {
      counters, calls := map[], map[];
    }

    method Check(installUuid: string, now: Instant) returns (allowed: bool)
      requires Valid()
      modifies this
      ensures Valid()
      ensures calls == old(calls)[installUuid := old(CallsOf(installUuid)) + [now]]
      ensures allowed <==> Allowed(old(CallsOf(installUuid)), now)
      ensures NonDecreasing(CallsOf(installUuid)) ==>
                && (allowed <==> |InWindow(now - 60_000_000_000 + 1, Accepted(old(CallsOf(installUuid))))| < 60)
                && counters[installUuid] == Retain(now, Accepted(CallsOf(installUuid)))
    {
      hide Retain, Accepted, InWindow, NonDecreasing, Entries;
      ghost var before := CallsOf(installUuid);
      EntriesAfter(before, now);
      var entries := if installUuid in counters then counters[installUuid] else [];
      entries := Retain(now, entries);
      allowed := |entries| < RATE_LIMIT_MAX;
      if allowed {
        entries := entries + [now];
      }
      counters := counters[installUuid := entries];
      calls := calls[installUuid := before + [now]];
      if NonDecreasing(before + [now]) {
        NonDecreasingPrefix(before, now);
        RejectedOnlyWhenFull(before, now);
        EntriesAreTheWindow(before + [now]);
        AtMostMaxPerWindow(before, now - WINDOW + 1);
      }
    }
  }
}
