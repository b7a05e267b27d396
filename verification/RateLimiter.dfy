/**
 * `core/rate_limiter.rs`.  `acquire` reads the clock before it takes the lock, so a call carries two
 * times: the reading it decides with and the moment it holds the lock.  Calls are listed in lock order.
 */
module RateLimiting {

  datatype Call = Call(reading: nat, lockedAt: nat)

  /** `now.duration_since(t)`, which saturates at zero when `t` is later than `now`. */
  function DurationSince(now: nat, t: nat): nat {
    if now >= t then now - t else 0
  }

  /** `retain`: the timestamps younger than the window. */
  function Retain(timestamps: seq<nat>, now: nat, window: nat): seq<nat> {
    if timestamps == [] then []
    else
      var before, t := Retain(timestamps[..|timestamps| - 1], now, window), timestamps[|timestamps| - 1];
      if DurationSince(now, t) < window then before + [t] else before
  }

  function AcquireStep(limit: nat, window: nat, timestamps: seq<nat>, now: nat): (seq<nat>, bool) {
    var kept := Retain(timestamps, now, window);
    if |kept| >= limit then (kept, false) else (kept + [now], true)
  }

  /** The vector after a history of calls. */
  function Vector(limit: nat, window: nat, calls: seq<Call>): seq<nat> {
    if calls == [] then []
    else AcquireStep(limit, window, Vector(limit, window, calls[..|calls| - 1]), calls[|calls| - 1].reading).0
  }

  /** Whether the call that reads `now` after the history `calls` succeeds. */
  predicate Succeeds(limit: nat, window: nat, calls: seq<Call>, now: nat) {
    AcquireStep(limit, window, Vector(limit, window, calls), now).1
  }

  // ----- the specification: every grant ever made, none forgotten

  function Grants(limit: nat, window: nat, calls: seq<Call>): seq<Call> {
    if calls == [] then []
    else
      var before, call := calls[..|calls| - 1], calls[|calls| - 1];
      Grants(limit, window, before) + if Succeeds(limit, window, before, call.reading) then [call] else []
  }

  /** How many of `grants` are younger than the window at `now`. */
  function Young(grants: seq<Call>, now: nat, window: nat): nat {
    if grants == [] then 0
    else
      Young(grants[..|grants| - 1], now, window)
      + if DurationSince(now, grants[|grants| - 1].reading) < window then 1 else 0
  }

  /** How many of `grants` took the lock in `[from, to)`. */
  function LockedWithin(grants: seq<Call>, from: int, to: int): nat {
    if grants == [] then 0
    else
      LockedWithin(grants[..|grants| - 1], from, to)
      + if from <= grants[|grants| - 1].lockedAt < to then 1 else 0
  }

  predicate ReadingsFollowLockOrder(calls: seq<Call>) {
    forall i, j :: 0 <= i < j < |calls| ==> calls[i].reading <= calls[j].reading
  }

  /** Locks are listed in order, and no reading is older than `skew` when its caller gets the lock. */
  predicate SkewAtMost(calls: seq<Call>, skew: nat) {
    && (forall i, j :: 0 <= i < j < |calls| ==> calls[i].lockedAt <= calls[j].lockedAt)
    && (forall i :: 0 <= i < |calls| ==> calls[i].reading <= calls[i].lockedAt <= calls[i].reading + skew)
  }

  function Readings(grants: seq<Call>): (r: seq<nat>)
    ensures |r| == |grants|
    ensures forall i :: 0 <= i < |r| ==> r[i] == grants[i].reading
  {
    if grants == [] then [] else Readings(grants[..|grants| - 1]) + [grants[|grants| - 1].reading]
  }

  /** Whatever the readings, the vector holds at most `limit` timestamps. */
  lemma {:induction false} VectorIsBounded(limit: nat, window: nat, calls: seq<Call>)
    ensures |Vector(limit, window, calls)| <= limit
  {
    if calls != [] {
      VectorIsBounded(limit, window, calls[..|calls| - 1]);
      RetainIsShorter(Vector(limit, window, calls[..|calls| - 1]), calls[|calls| - 1].reading, window);
    }
  }

  lemma {:induction false} RetainIsShorter(timestamps: seq<nat>, now: nat, window: nat)
    ensures |Retain(timestamps, now, window)| <= |timestamps|
  {
    if timestamps != [] {
      RetainIsShorter(timestamps[..|timestamps| - 1], now, window);
    }
  }

  // ----- readings in lock order

  lemma {:induction false} RetainTwice(timestamps: seq<nat>, earlier: nat, later: nat, window: nat)
    requires earlier <= later && forall i :: 0 <= i < |timestamps| ==> timestamps[i] <= earlier
    ensures Retain(Retain(timestamps, earlier, window), later, window) == Retain(timestamps, later, window)
  {
    if timestamps != [] {
      var before, t := timestamps[..|timestamps| - 1], timestamps[|timestamps| - 1];
      RetainTwice(before, earlier, later, window);
      var kept := Retain(before, earlier, window);
      assert (kept + [t])[..|kept|] == kept;
    }
  }

  lemma RetainAppend(timestamps: seq<nat>, t: nat, now: nat, window: nat)
    ensures Retain(timestamps + [t], now, window)
         == Retain(timestamps, now, window) + if DurationSince(now, t) < window then [t] else []
  {
    assert (timestamps + [t])[..|timestamps|] == timestamps;
  }

  lemma {:induction false} YoungCountsRetained(grants: seq<Call>, now: nat, window: nat)
    ensures Young(grants, now, window) == |Retain(Readings(grants), now, window)|
  {
    if grants != [] {
      var before := grants[..|grants| - 1];
      YoungCountsRetained(before, now, window);
      RetainAppend(Readings(before), grants[|grants| - 1].reading, now, window);
    }
  }

  lemma {:induction false} GrantsAreCalls(limit: nat, window: nat, calls: seq<Call>, grant: Call)
    requires grant in Grants(limit, window, calls)
    ensures grant in calls
  {
    var before := calls[..|calls| - 1];
    if grant in Grants(limit, window, before) {
      GrantsAreCalls(limit, window, before, grant);
    }
  }

  /** Pruning now or later makes no difference: at `now` the vector is the young part of all grants. */
  lemma {:induction false} VectorIsYoungGrants(limit: nat, window: nat, calls: seq<Call>, now: nat)
    requires ReadingsFollowLockOrder(calls)
    requires forall i :: 0 <= i < |calls| ==> calls[i].reading <= now
    ensures Retain(Vector(limit, window, calls), now, window)
         == Retain(Readings(Grants(limit, window, calls)), now, window)
  {
    if calls != [] {
      var before, call := calls[..|calls| - 1], calls[|calls| - 1];
      var vector, grants := Vector(limit, window, before), Grants(limit, window, before);
      VectorIsYoungGrants(limit, window, before, call.reading);
      forall i | 0 <= i < |grants| ensures grants[i].reading <= call.reading {
        GrantsAreCalls(limit, window, before, grants[i]);
      }
      var kept := Retain(vector, call.reading, window);
      RetainTwice(Readings(grants), call.reading, now, window);
      if |kept| < limit {
        RetainAppend(kept, call.reading, now, window);
        assert (grants + [call])[..|grants|] == grants;
        RetainAppend(Readings(grants), call.reading, now, window);
      } else {
        assert grants + [] == grants;
      }
    }
  }

  /** With readings in lock order, `acquire` succeeds exactly when fewer than `limit` of all grants are young. */
  lemma AcquireRefinesFullHistory(limit: nat, window: nat, calls: seq<Call>, now: nat)
    requires ReadingsFollowLockOrder(calls)
    requires forall i :: 0 <= i < |calls| ==> calls[i].reading <= now
    ensures Succeeds(limit, window, calls, now) <==> Young(Grants(limit, window, calls), now, window) < limit
  {
    VectorIsYoungGrants(limit, window, calls, now);
    YoungCountsRetained(Grants(limit, window, calls), now, window);
  }

  function WithoutDelay(calls: seq<Call>): (r: seq<Call>)
    ensures |r| == |calls|
    ensures forall i :: 0 <= i < |r| ==> r[i] == Call(calls[i].reading, calls[i].reading)
  {
    if calls == [] then []
    else
      var reading := calls[|calls| - 1].reading;
      WithoutDelay(calls[..|calls| - 1]) + [Call(reading, reading)]
  }

  lemma {:induction false} DelaysDoNotDecide(limit: nat, window: nat, calls: seq<Call>)
    ensures Vector(limit, window, WithoutDelay(calls)) == Vector(limit, window, calls)
    ensures Grants(limit, window, WithoutDelay(calls)) == WithoutDelay(Grants(limit, window, calls))
  {
    if calls != [] {
      var before, undelayed := calls[..|calls| - 1], WithoutDelay(calls);
      assert undelayed[..|undelayed| - 1] == WithoutDelay(before);
      DelaysDoNotDecide(limit, window, before);
      var grants, call := Grants(limit, window, before), calls[|calls| - 1];
      assert (grants + [call])[..|grants|] == grants;
    }
  }

  /** So every half-open interval of clock readings as long as the window holds at most `limit` grants. */
  lemma EveryWindowOfReadings(limit: nat, window: nat, calls: seq<Call>, from: int)
    requires ReadingsFollowLockOrder(calls)
    ensures LockedWithin(WithoutDelay(Grants(limit, window, calls)), from, from + window) <= limit
  {
    DelaysDoNotDecide(limit, window, calls);
    SkewedWindow(limit, window, WithoutDelay(calls), 0, from, window);
  }

  // ----- readings that lag behind the lock

  /** How many timestamps are no older than `since`. */
  function Recent(timestamps: seq<nat>, since: int): (n: nat)
    ensures n <= |timestamps|
  {
    if timestamps == [] then 0
    else
      Recent(timestamps[..|timestamps| - 1], since) + if timestamps[|timestamps| - 1] >= since then 1 else 0
  }

  lemma LockedAppend(grants: seq<Call>, call: Call, from: int, to: int)
    ensures LockedWithin(grants + [call], from, to)
         == LockedWithin(grants, from, to) + if from <= call.lockedAt < to then 1 else 0
  {
    assert (grants + [call])[..|grants|] == grants;
  }

  lemma RecentAppend(timestamps: seq<nat>, t: nat, since: int)
    ensures Recent(timestamps + [t], since) == Recent(timestamps, since) + if t >= since then 1 else 0
  {
    assert (timestamps + [t])[..|timestamps|] == timestamps;
  }

  lemma {:induction false} RetainKeepsRecent(timestamps: seq<nat>, now: nat, window: nat, since: int)
    requires window > 0 && now < since + window
    ensures Recent(Retain(timestamps, now, window), since) == Recent(timestamps, since)
  {
    if timestamps != [] {
      var before, t := timestamps[..|timestamps| - 1], timestamps[|timestamps| - 1];
      RetainKeepsRecent(before, now, window, since);
      var kept := Retain(before, now, window);
      assert (kept + [t])[..|kept|] == kept;
    }
  }

  /** One call: a grant enters both counts, and pruning takes nothing recent away. */
  lemma RecentStep(limit: nat, window: nat, before: seq<Call>, call: Call, skew: nat, from: int, to: int)
    requires call.reading <= call.lockedAt <= call.reading + skew
    requires call.lockedAt < to <= from + window - skew && window > 0
    requires LockedWithin(Grants(limit, window, before), from, to)
          <= Recent(Vector(limit, window, before), from - skew)
    ensures LockedWithin(Grants(limit, window, before + [call]), from, to)
         <= Recent(Vector(limit, window, before + [call]), from - skew)
  {
    assert (before + [call])[..|before|] == before;
    var vector, grants := Vector(limit, window, before), Grants(limit, window, before);
    RetainKeepsRecent(vector, call.reading, window, from - skew);
    if Succeeds(limit, window, before, call.reading) {
      RecentAppend(Retain(vector, call.reading, window), call.reading, from - skew);
      LockedAppend(grants, call, from, to);
    } else {
      assert grants + [] == grants;
    }
  }

  /** While every lock is before `to`, no grant made since `from` can have been pruned. */
  lemma {:induction false} RecentGrantsAreKept(
      limit: nat, window: nat, calls: seq<Call>, skew: nat, from: int, to: int)
    requires SkewAtMost(calls, skew) && from < to <= from + window - skew
    requires forall i :: 0 <= i < |calls| ==> calls[i].lockedAt < to
    ensures LockedWithin(Grants(limit, window, calls), from, to)
         <= Recent(Vector(limit, window, calls), from - skew)
  {
    if calls != [] {
      var before, call := calls[..|calls| - 1], calls[|calls| - 1];
      RecentGrantsAreKept(limit, window, before, skew, from, to);
      RecentStep(limit, window, before, call, skew, from, to);
      assert before + [call] == calls;
    }
  }

  /**
   * If no caller waits longer than `skew` between its clock reading and the lock, any interval of lock
   * times no longer than `window - skew` holds at most `limit` grants, in every concurrent run.
   */
  lemma {:induction false} SkewedWindow(
      limit: nat, window: nat, calls: seq<Call>, skew: nat, from: int, length: nat)
    requires SkewAtMost(calls, skew) && length + skew <= window
    ensures LockedWithin(Grants(limit, window, calls), from, from + length) <= limit
  {
    if calls != [] {
      var before, call := calls[..|calls| - 1], calls[|calls| - 1];
      if length > 0 && call.lockedAt < from + length {
        RecentGrantsAreKept(limit, window, calls, skew, from, from + length);
        VectorIsBounded(limit, window, calls);
      } else {
        SkewedWindow(limit, window, before, skew, from, length);
        var grants := Grants(limit, window, before);
        LockedAppend(grants, call, from, from + length);
        assert grants + [] == grants;
      }
    }
  }

  lemma {:induction false} VectorHoldsReadings(limit: nat, window: nat, calls: seq<Call>, reading: nat)
    requires forall i :: 0 <= i < |calls| ==> calls[i].reading == reading
    ensures var vector := Vector(limit, window, calls);
            |vector| <= |calls| && forall i :: 0 <= i < |vector| ==> vector[i] == reading
  {
    if calls != [] {
      var before := calls[..|calls| - 1];
      VectorHoldsReadings(limit, window, before, reading);
      RetainIsSelection(Vector(limit, window, before), reading, window, reading);
    }
  }

  lemma {:induction false} RetainIsSelection(timestamps: seq<nat>, now: nat, window: nat, only: nat)
    requires forall i :: 0 <= i < |timestamps| ==> timestamps[i] == only
    ensures var kept := Retain(timestamps, now, window);
            && |kept| <= |timestamps|
            && (forall i :: 0 <= i < |kept| ==> kept[i] == only)
            && (DurationSince(now, only) >= window ==> kept == [])
  {
    if timestamps != [] {
      RetainIsSelection(timestamps[..|timestamps| - 1], now, window, only);
    }
  }

  function Burst(call: Call, n: nat): (r: seq<Call>)
    ensures |r| == n && forall i :: 0 <= i < n ==> r[i] == call
  {
    seq(n, _ => call)
  }

  lemma {:induction false} BurstIsGranted(limit: nat, window: nat, call: Call, n: nat)
    requires n <= limit
    ensures Grants(limit, window, Burst(call, n)) == Burst(call, n)
  {
    if n > 0 {
      var burst := Burst(call, n);
      assert burst[..|burst| - 1] == Burst(call, n - 1);
      BurstIsGranted(limit, window, call, n - 1);
      VectorHoldsReadings(limit, window, burst[..|burst| - 1], call.reading);
      RetainIsShorter(Vector(limit, window, burst[..|burst| - 1]), call.reading, window);
    }
  }

  lemma {:induction false} BurstIsLocked(call: Call, n: nat, from: int, to: int)
    requires from <= call.lockedAt < to
    ensures LockedWithin(Burst(call, n), from, to) == n
  {
    if n > 0 {
      var burst := Burst(call, n);
      assert burst[..|burst| - 1] == Burst(call, n - 1);
      BurstIsLocked(call, n - 1, from, to);
    }
  }

  /** A call reading a clock at least a window later than every reading before it always succeeds. */
  lemma PromptCallIsGranted(limit: nat, window: nat, burst: seq<Call>, call: Call)
    requires limit > 0 && call.reading >= window
    requires forall i :: 0 <= i < |burst| ==> burst[i].reading == 0
    ensures Grants(limit, window, burst + [call]) == Grants(limit, window, burst) + [call]
  {
    assert (burst + [call])[..|burst|] == burst;
    VectorHoldsReadings(limit, window, burst, 0);
    RetainIsSelection(Vector(limit, window, burst), call.reading, window, 0);
  }

  /** A run that breaks the limit in any longer interval: a full burst of stale readings, then a prompt one. */
  lemma LongerIntervalOverflows(limit: nat, window: nat, skew: nat, length: nat) returns (calls: seq<Call>)
    requires limit > 0 && length > 0 && length + skew > window
    ensures SkewAtMost(calls, skew)
    ensures LockedWithin(Grants(limit, window, calls), skew, skew + length) == limit + 1
  {
    hide Grants, LockedWithin, Burst;
    var spread := if window > skew then window - skew else 0;
    var stale, prompt := Call(0, skew), Call(skew + spread, skew + spread);
    var burst := Burst(stale, limit);
    calls := burst + [prompt];
    BurstIsGranted(limit, window, stale, limit);
    BurstIsLocked(stale, limit, skew, skew + length);
    LockedAppend(burst, prompt, skew, skew + length);
    PromptCallIsGranted(limit, window, burst, prompt);
  }

  /** The intervals `[from, from + length)` of lock times that keep to the limit. */
  predicate KeepsLimit(limit: nat, window: nat, calls: seq<Call>, from: int, length: nat) {
    LockedWithin(Grants(limit, window, calls), from, from + length) <= limit
  }

  /**
   * "At most `limit` calls per `window`" is therefore exact only up to the skew: with callers delayed
   * by at most `skew`, the limit holds in every run for intervals of `length` if and only if
   * `length + skew <= window`.
   */
  lemma GuaranteedIntervalIsExact(limit: nat, window: nat, skew: nat, length: nat)
    requires limit > 0 && length > 0
    ensures (forall calls, from :: SkewAtMost(calls, skew) ==> KeepsLimit(limit, window, calls, from, length))
            <==> length + skew <= window
  {
    if length + skew <= window {
      forall calls, from | SkewAtMost(calls, skew) ensures KeepsLimit(limit, window, calls, from, length)
      {
        SkewedWindow(limit, window, calls, skew, from, length);
      }
    } else {
      var calls := LongerIntervalOverflows(limit, window, skew, length);
      assert !KeepsLimit(limit, window, calls, skew, length);
    }
  }

  // ----- the object

  class RateLimiter {
    const limit: nat
    const window: nat
    var timestamps: seq<nat>
    /** The calls so far in lock order, for specification only. */
    ghost var calls: seq<Call>

    ghost predicate Valid()
      reads this
    {
      timestamps == Vector(limit, window, calls)
    }

    constructor (limit: nat, window: nat)
      ensures Valid() && calls == [] && this.limit == limit && this.window == window
    {
      this.limit, this.window := limit, window;
      timestamps, calls := [], [];
    }

    /** `now` was read before the lock was taken at `lockedAt`. */
    method Acquire(now: nat, ghost lockedAt: nat) returns (ok: bool)
      requires Valid()
      modifies this
      ensures Valid() && calls == old(calls) + [Call(now, lockedAt)]
      ensures |timestamps| <= limit
      ensures Grants(limit, window, calls)
           == Grants(limit, window, old(calls)) + if ok then [Call(now, lockedAt)] else []
      ensures ReadingsFollowLockOrder(calls) ==>
        (ok <==> Young(Grants(limit, window, old(calls)), now, window) < limit)
    {
      calls := calls + [Call(now, lockedAt)];
      assert calls[..|calls| - 1] == old(calls);
      VectorIsBounded(limit, window, calls);
      if ReadingsFollowLockOrder(calls) {
        assert forall i, j :: 0 <= i < j < |old(calls)| ==> calls[i] == old(calls)[i] && calls[j] == old(calls)[j];
        assert forall i :: 0 <= i < |old(calls)| ==> calls[i] == old(calls)[i] && calls[i].reading <= now by {
          assert calls[|old(calls)|].reading == now;
        }
        AcquireRefinesFullHistory(limit, window, old(calls), now);
      }
      timestamps := Retain(timestamps, now, window);
      if |timestamps| >= limit {
        return false;
      }
      timestamps := timestamps + [now];
      return true;
    }
  }
}
