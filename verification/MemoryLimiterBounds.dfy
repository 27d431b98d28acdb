/**
 How many admissions the in-memory limiter lets through: at most `limit` in each window it stores,
 and at most 2 * limit - 1 in any half-open interval of one window length.
 */
module MemoryLimiterBounds {
  import opened RateLimit
  import opened MemoryLimiter
  import opened MemoryLimiterRuns

  ghost predicate Names(call: Call, k: Key) {
    exists i :: 0 <= i < |call.keys| && call.keys[i].key == k
  }

  /** The times at which a limiter that never deletes has admitted k. */
  ghost function Times(calls: seq<Call>, n: nat, k: Key): seq<int>
    requires n <= |calls|
  {
    if n == 0 then []
    else
      var call := calls[n - 1];
      Times(calls, n - 1, k) + if Admits(Kept(calls, n - 1), call) && Names(call, k) then [call.now] else []
  }

  /** The windows that were ever stored for k, by their start. */
  ghost function Starts(calls: seq<Call>, n: nat, k: Key): seq<int>
    requires n <= |calls|
  {
    if n == 0 then []
    else
      var before, after := Kept(calls, n - 1), Kept(calls, n);
      Starts(calls, n - 1, k) +
      if k in after && (k !in before || before[k].start != after[k].start) then [after[k].start] else []
  }

  /** How many of the times fall in [lo, hi). */
  ghost function Count(times: seq<int>, lo: int, hi: int): nat {
    if |times| == 0 then 0
    else Count(times[..|times| - 1], lo, hi) + if lo <= times[|times| - 1] < hi then 1 else 0
  }

  lemma {:induction false} CountPush(times: seq<int>, t: int, lo: int, hi: int)
    ensures Count(times + [t], lo, hi) == Count(times, lo, hi) + if lo <= t < hi then 1 else 0
  {
    assert (times + [t])[..|times|] == times;
  }

  lemma {:induction false} CountSplit(times: seq<int>, lo: int, mid: int, hi: int)
    requires lo <= mid <= hi
    ensures Count(times, lo, hi) == Count(times, lo, mid) + Count(times, mid, hi)
  {
    if |times| > 0 { CountSplit(times[..|times| - 1], lo, mid, hi); }
  }

  lemma {:induction false} CountNone(times: seq<int>, lo: int, hi: int)
    requires forall i :: 0 <= i < |times| ==> !(lo <= times[i] < hi)
    ensures Count(times, lo, hi) == 0
  {
    if |times| > 0 { CountNone(times[..|times| - 1], lo, hi); }
  }

  // ---------------------------------------------------------------- the invariant of one key

  /**
   The stored window of k opened with an admission at its own start, counts exactly the admissions
   since then, and the admissions before it thin out by at least one as soon as an interval leaves
   the start of their window behind.
   */
  ghost predicate Inv(times: seq<int>, entry: Entry, window: int, limit: int) {
    && 1 <= entry.count <= limit
    && (forall i :: 0 <= i < |times| ==> times[i] < entry.start + window)
    && Count(times, entry.start, entry.start + window) == entry.count
    && Count(times, entry.start, entry.start + 1) >= 1
    && (forall t :: entry.start - window < t <= entry.start ==> Count(times, t, entry.start) <= limit - 1)
    && Spread(times, window, limit)
  }

  ghost predicate Spread(times: seq<int>, window: int, limit: int) {
    forall t :: WindowFrom(times, t, window) <= 2 * limit - 1
  }

  /** Admissions in the half-open interval of one window length that begins at t. */
  ghost function WindowFrom(times: seq<int>, t: int, window: int): nat {
    Count(times, t, t + window)
  }

  /** The first admission of a key, or the first one after its window is over. */
  lemma {:induction false} WindowOpens(times: seq<int>, now: int, window: int, limit: int)
    requires 1 <= window && 1 <= limit
    requires forall i :: 0 <= i < |times| ==> times[i] < now
    requires forall t :: now - window < t <= now ==> Count(times, t, now) <= limit - 1
    requires Spread(times, window, limit)
    ensures Inv(times + [now], Entry(now, 1), window, limit)
  {
    var after := times + [now];
    CountPush(times, now, now, now + window);
    CountPush(times, now, now, now + 1);
    CountNone(times, now, now + window);
    forall t | now - window < t <= now ensures Count(after, t, now) <= limit - 1 {
      CountPush(times, now, t, now);
    }
    forall t ensures WindowFrom(after, t, window) <= 2 * limit - 1 {
      CountPush(times, now, t, t + window);
      if t <= now < t + window {
        CountSplit(times, t, now, t + window);
        CountNone(times, now, t + window);
        assert Count(times, t, now) <= limit - 1;
      } else {
        assert WindowFrom(times, t, window) <= 2 * limit - 1;
      }
    }
  }

  /** What the times before a new window look like once the old window is over. */
  lemma {:induction false} WindowCloses(times: seq<int>, entry: Entry, now: int, window: int, limit: int)
    requires 1 <= window && Inv(times, entry, window, limit) && entry.start + window <= now
    ensures forall i :: 0 <= i < |times| ==> times[i] < now
    ensures forall t :: now - window < t <= now ==> Count(times, t, now) <= limit - 1
    ensures Spread(times, window, limit)
  {
    var s := entry.start;
    forall t | now - window < t <= now ensures Count(times, t, now) <= limit - 1 {
      if t >= s + window {
        CountNone(times, t, now);
      } else {
        CountSplit(times, s, s + 1, s + window);
        CountSplit(times, s + 1, t, s + window);
        CountSplit(times, t, s + window, now);
        CountNone(times, s + window, now);
      }
    }
  }

  /** A further admission inside the stored window. */
  lemma {:induction false} WindowFills(times: seq<int>, entry: Entry, now: int, window: int, limit: int)
    requires 1 <= window && Inv(times, entry, window, limit)
    requires entry.start <= now < entry.start + window && entry.count < limit
    ensures Inv(times + [now], Entry(entry.start, entry.count + 1), window, limit)
  {
    hide Count;
    var s, after := entry.start, times + [now];
    CountPush(times, now, s, s + window);
    CountPush(times, now, s, s + 1);
    forall t | s - window < t <= s ensures Count(after, t, s) <= limit - 1 {
      CountPush(times, now, t, s);
    }
    forall t ensures WindowFrom(after, t, window) <= 2 * limit - 1 {
      CountPush(times, now, t, t + window);
      if t <= now < t + window {
        if t <= s {
          CountSplit(times, t, s, t + window);
          CountSplit(times, s, t + window, s + window);
          assert Count(times, t, s) <= limit - 1;
        } else {
          CountSplit(times, s, t, s + window);
          CountSplit(times, t, s + window, t + window);
          CountNone(times, s + window, t + window);
        }
      } else {
        assert WindowFrom(times, t, window) <= 2 * limit - 1;
      }
    }
  }

  // ---------------------------------------------------------------- runs

  ghost predicate KeyInv(times: seq<int>, entries: Entries, k: Key, window: int, limit: int) {
    if k in entries then Inv(times, entries[k], window, limit) else times == []
  }

  lemma {:induction false} StepKeepsInv(times: seq<int>, entries: Entries, call: Call, k: Key, window: int, limit: int)
    requires 1 <= window && 1 <= limit && KeyInv(times, entries, k, window, limit)
    requires forall i ::
               0 <= i < |call.keys| && call.keys[i].key == k ==> call.keys[i].limit == limit && call.window == window
    requires k in entries ==> entries[k].start <= call.now
    ensures KeyInv(times + if Admits(entries, call) && Names(call, k) then [call.now] else [],
                   Charge(entries, call), k, window, limit)
    ensures k in Charge(entries, call) ==> Charge(entries, call)[k].start <= call.now
  {
    hide Inv;
    ChargedEntries(entries, call, |call.keys|, k);
    if Admits(entries, call) && Names(call, k) {
      var i :| 0 <= i < |call.keys| && call.keys[i].key == k;
      assert !FullAt(entries, call, i);
      if k !in entries {
        EmptySpread(call.now, window, limit);
        WindowOpens([], call.now, window, limit);
      } else if call.now - entries[k].start >= window {
        WindowCloses(times, entries[k], call.now, window, limit);
        WindowOpens(times, call.now, window, limit);
      } else {
        WindowFills(times, entries[k], call.now, window, limit);
      }
    } else {
      assert times + [] == times;
    }
  }

  lemma {:induction false} EmptySpread(now: int, window: int, limit: int)
    requires 1 <= limit
    ensures Spread([], window, limit)
    ensures forall t :: now - window < t <= now ==> Count([], t, now) <= limit - 1
  {
  }

  lemma {:induction false} RunKeepsInv(calls: seq<Call>, n: nat, k: Key, windowOf: Key -> int, limitOf: Key -> int)
    requires n <= |calls| && Legal(calls, windowOf, limitOf) && 1 <= windowOf(k) && 1 <= limitOf(k)
    ensures KeyInv(Times(calls, n, k), Kept(calls, n), k, windowOf(k), limitOf(k))
    ensures k in Kept(calls, n) ==> Kept(calls, n)[k].start <= Clock(calls, n)
  {
    hide KeyInv, Admits, Charge;
    if n == 0 {
      FirstInv(k, windowOf(k), limitOf(k));
    } else {
      RunKeepsInv(calls, n - 1, k, windowOf, limitOf);
      assert LegalCall(calls[n - 1], windowOf, limitOf);
      StepKeepsInv(Times(calls, n - 1, k), Kept(calls, n - 1), calls[n - 1], k, windowOf(k), limitOf(k));
    }
  }

  lemma FirstInv(k: Key, window: int, limit: int)
    ensures KeyInv([], map[], k, window, limit)
  {
  }

  /**
   Over every run, any half-open interval of one window length holds at most 2 * limit - 1
   admissions of a key.
   */
  lemma {:induction false} AnyIntervalBounded(
    calls: seq<Call>, n: nat, k: Key, windowOf: Key -> int, limitOf: Key -> int, t: int)
    requires n <= |calls| && Legal(calls, windowOf, limitOf) && 1 <= windowOf(k) && 1 <= limitOf(k)
    ensures WindowFrom(Times(calls, n, k), t, windowOf(k)) <= 2 * limitOf(k) - 1
  {
    hide Count, Admits, Charge;
    RunKeepsInv(calls, n, k, windowOf, limitOf);
    if k in Kept(calls, n) {
      assert Spread(Times(calls, n, k), windowOf(k), limitOf(k));
    } else {
      EmptySpread(t, windowOf(k), limitOf(k));
    }
  }

  /** The times at which the limiter itself, sweeping, has admitted k. */
  ghost function AdmittedTimes(calls: seq<Call>, n: nat, k: Key): seq<int>
    requires n <= |calls|
  {
    if n == 0 then []
    else
      var call := calls[n - 1];
      AdmittedTimes(calls, n - 1, k) + if Admits(Stored(calls, n - 1), call) && Names(call, k) then [call.now] else []
  }

  lemma {:induction false} SweepingAdmitsAlike(
    calls: seq<Call>, n: nat, k: Key, windowOf: Key -> int, limitOf: Key -> int)
    requires n <= |calls| && Legal(calls, windowOf, limitOf)
    requires forall i :: 0 <= i < n ==> SweepSafe(Stored(calls, i), calls[i], windowOf)
    ensures AdmittedTimes(calls, n, k) == Times(calls, n, k)
  {
    hide Admits, Legal, SweepSafe, Agree, CheckReply, CheckStep, Charge;
    if n > 0 {
      SweepingAdmitsAlike(calls, n - 1, k, windowOf, limitOf);
      SafeSweepsAreInvisible(calls, n - 1, windowOf, limitOf);
    }
  }

  /** The bound for the limiter as it runs, with every limiter on one window length. */
  lemma {:induction false} OneWindowIntervalBounded(
    calls: seq<Call>, n: nat, k: Key, window: int, limitOf: Key -> int, t: int)
    requires n <= |calls| && Legal(calls, _ => window, limitOf) && 1 <= window && 1 <= limitOf(k)
    requires forall i :: 0 <= i < |calls| ==> calls[i].window == window
    ensures WindowFrom(AdmittedTimes(calls, n, k), t, window) <= 2 * limitOf(k) - 1
  {
    hide WindowFrom, Legal, Admits, CheckStep, Charge;
    SweepingAdmitsAlike(calls, n, k, _ => window, limitOf);
    AnyIntervalBounded(calls, n, k, _ => window, limitOf, t);
  }

  // ---------------------------------------------------------------- the stored windows

  /** The stored windows do not overlap, cover every admission, and hold at most `limit` of them each. */
  ghost predicate Partitioned(times: seq<int>, starts: seq<int>, window: int, limit: int) {
    && (forall i, j :: 0 <= i < j < |starts| ==> starts[i] + window <= starts[j])
    && (forall i :: 0 <= i < |starts| ==> WindowFrom(times, starts[i], window) <= limit)
    && (forall h :: 0 <= h < |times| ==> Covered(times[h], starts, window))
  }

  ghost predicate Covered(t: int, starts: seq<int>, window: int) {
    exists i :: 0 <= i < |starts| && starts[i] <= t < starts[i] + window
  }

  ghost predicate LastStored(starts: seq<int>, entries: Entries, k: Key) {
    if k in entries then |starts| > 0 && starts[|starts| - 1] == entries[k].start else starts == []
  }

  lemma {:induction false} PartitionFills(times: seq<int>, starts: seq<int>, now: int, window: int, limit: int)
    requires 1 <= window && Partitioned(times, starts, window, limit) && |starts| > 0
    requires starts[|starts| - 1] <= now < starts[|starts| - 1] + window
    requires WindowFrom(times, starts[|starts| - 1], window) < limit
    ensures Partitioned(times + [now], starts, window, limit)
  {
    hide Count;
    var after, last := times + [now], |starts| - 1;
    forall i | 0 <= i < |starts| ensures WindowFrom(after, starts[i], window) <= limit {
      CountPush(times, now, starts[i], starts[i] + window);
      assert WindowFrom(times, starts[i], window) <= limit;
      assert i < last ==> starts[i] + window <= starts[last];
    }
    forall h | 0 <= h < |after| ensures Covered(after[h], starts, window) {
      if h < |times| {
        assert Covered(times[h], starts, window);
        var i :| 0 <= i < |starts| && starts[i] <= times[h] < starts[i] + window;
        assert after[h] == times[h];
      } else {
        assert starts[last] <= after[h] < starts[last] + window;
      }
    }
  }

  lemma {:induction false} PartitionOpens(times: seq<int>, starts: seq<int>, now: int, window: int, limit: int)
    requires 1 <= window && 1 <= limit && Partitioned(times, starts, window, limit)
    requires |starts| > 0 ==> starts[|starts| - 1] + window <= now
    ensures Partitioned(times + [now], starts + [now], window, limit)
  {
    hide Count;
    var after, starts' := times + [now], starts + [now];
    forall i | 0 <= i < |starts| ensures starts[i] + window <= now {
      assert i == |starts| - 1 || starts[i] + window <= starts[|starts| - 1];
    }
    forall h | 0 <= h < |times| ensures times[h] < now {
      assert Covered(times[h], starts, window);
    }
    forall i | 0 <= i < |starts'| ensures WindowFrom(after, starts'[i], window) <= limit {
      CountPush(times, now, starts'[i], starts'[i] + window);
      if i < |starts| {
        assert starts'[i] == starts[i];
        assert WindowFrom(times, starts[i], window) <= limit;
      } else {
        CountNone(times, now, now + window);
      }
    }
    forall h | 0 <= h < |after| ensures Covered(after[h], starts', window) {
      if h < |times| {
        assert Covered(times[h], starts, window);
        var i :| 0 <= i < |starts| && starts[i] <= times[h] < starts[i] + window;
        assert starts'[i] == starts[i] && after[h] == times[h];
      } else {
        assert starts'[|starts|] <= after[h] < starts'[|starts|] + window;
      }
    }
  }

  lemma {:induction false} StepKeepsPartition(
    times: seq<int>, starts: seq<int>, entries: Entries, call: Call, k: Key, window: int, limit: int)
    requires 1 <= window && 1 <= limit && KeyInv(times, entries, k, window, limit)
    requires forall i ::
               0 <= i < |call.keys| && call.keys[i].key == k ==> call.keys[i].limit == limit && call.window == window
    requires k in entries ==> entries[k].start <= call.now
    requires Partitioned(times, starts, window, limit) && LastStored(starts, entries, k)
    ensures var after := Charge(entries, call);
            var times' := times + if Admits(entries, call) && Names(call, k) then [call.now] else [];
            var starts' := starts +
              if k in after && (k !in entries || entries[k].start != after[k].start) then [after[k].start] else [];
            Partitioned(times', starts', window, limit) && LastStored(starts', after, k)
  {
    hide Partitioned, Spread;
    ChargedEntries(entries, call, |call.keys|, k);
    if Admits(entries, call) && Names(call, k) {
      var i :| 0 <= i < |call.keys| && call.keys[i].key == k;
      assert !FullAt(entries, call, i);
      if k in entries && call.now - entries[k].start < window {
        PartitionFills(times, starts, call.now, window, limit);
        assert starts + [] == starts;
      } else {
        PartitionOpens(times, starts, call.now, window, limit);
      }
    } else {
      assert times + [] == times && starts + [] == starts;
    }
  }

  /** Over every run, each window the limiter ever stored for a key holds at most `limit` admissions. */
  lemma {:induction false} EachWindowBounded(
    calls: seq<Call>, n: nat, k: Key, windowOf: Key -> int, limitOf: Key -> int)
    requires n <= |calls| && Legal(calls, windowOf, limitOf) && 1 <= windowOf(k) && 1 <= limitOf(k)
    ensures Partitioned(Times(calls, n, k), Starts(calls, n, k), windowOf(k), limitOf(k))
    ensures LastStored(Starts(calls, n, k), Kept(calls, n), k)
  {
    hide KeyInv, Admits, Charge, Partitioned, LastStored;
    if n == 0 {
      FirstPartition(k, windowOf(k), limitOf(k));
    } else {
      EachWindowBounded(calls, n - 1, k, windowOf, limitOf);
      RunKeepsInv(calls, n - 1, k, windowOf, limitOf);
      assert LegalCall(calls[n - 1], windowOf, limitOf);
      StepKeepsPartition(Times(calls, n - 1, k), Starts(calls, n - 1, k), Kept(calls, n - 1), calls[n - 1], k,
                         windowOf(k), limitOf(k));
    }
  }

  lemma FirstPartition(k: Key, window: int, limit: int)
    ensures Partitioned([], [], window, limit) && LastStored([], map[], k)
  {
  }

  /** The same for the limiter as it runs: while its sweeps are safe its own admissions fall into these windows. */
  lemma {:induction false} EachWindowBoundedSweeping(
    calls: seq<Call>, n: nat, k: Key, windowOf: Key -> int, limitOf: Key -> int)
    requires n <= |calls| && Legal(calls, windowOf, limitOf) && 1 <= windowOf(k) && 1 <= limitOf(k)
    requires forall i :: 0 <= i < n ==> SweepSafe(Stored(calls, i), calls[i], windowOf)
    ensures Partitioned(AdmittedTimes(calls, n, k), Starts(calls, n, k), windowOf(k), limitOf(k))
    ensures k in Stored(calls, n) ==> LastStored(Starts(calls, n, k), Stored(calls, n), k)
  {
    hide Partitioned, Legal, SweepSafe, Starts, Admits, CheckStep, Charge, CheckReply;
    EachWindowBounded(calls, n, k, windowOf, limitOf);
    SweepingAdmitsAlike(calls, n, k, windowOf, limitOf);
    SafeSweepsAreInvisible(calls, n, windowOf, limitOf);
  }

  // ---------------------------------------------------------------- the bound is attained

  /** One call at the start of a window, limit - 1 at its last millisecond, then limit at the start of the next. */
  ghost function Burst(k: Key, window: int, limit: nat): seq<Call> {
    seq(2 * limit, i requires 0 <= i < 2 * limit => Call([KeyLimit(k, limit)], BurstTime(window, limit, i), window))
  }

  function BurstTime(window: int, limit: nat, i: nat): int {
    if i == 0 then 0 else if i < limit then window - 1 else window
  }

  ghost function BurstEntries(k: Key, window: int, limit: nat, n: nat): Entries {
    if n == 0 then map[] else if n <= limit then map[k := Entry(0, n)] else map[k := Entry(window, n - limit)]
  }

  lemma {:induction false} BurstCall(k: Key, window: int, limit: nat, n: nat)
    requires 2 <= window && 1 <= limit && n < 2 * limit
    ensures var kept, call := BurstEntries(k, window, limit, n), Burst(k, window, limit)[n];
            Admits(kept, call) && Charge(kept, call) == BurstEntries(k, window, limit, n + 1) && Names(call, k)
  {
    hide Admits, Charge;
    var kept, call := BurstEntries(k, window, limit, n), Burst(k, window, limit)[n];
    assert call == Call([KeyLimit(k, limit)], BurstTime(window, limit, n), window);
    BurstStep(kept, call, if n == 0 then Entry(0, 0) else if n < limit then Entry(0, n) else Entry(window, n - limit));
  }

  lemma {:induction false} BurstAdmits(k: Key, window: int, limit: nat, n: nat)
    requires 2 <= window && 1 <= limit && n <= 2 * limit
    ensures var calls := Burst(k, window, limit);
            && Kept(calls, n) == BurstEntries(k, window, limit, n)
            && |Times(calls, n, k)| == n
            && forall i :: 0 <= i < n ==> Times(calls, n, k)[i] == BurstTime(window, limit, i)
  {
    hide Admits, Charge, Names, BurstTime;
    if n > 0 {
      hide BurstEntries;
      BurstAdmits(k, window, limit, n - 1);
      BurstCall(k, window, limit, n - 1);
    }
  }

  lemma {:induction false} BurstStep(kept: Entries, call: Call, entry: Entry)
    requires |call.keys| == 1 && entry == CurrentAt(kept, call, 0) && entry.count < call.keys[0].limit
    requires kept.Keys <= {call.keys[0].key}
    ensures Admits(kept, call) && Charge(kept, call) == map[call.keys[0].key := Entry(entry.start, entry.count + 1)]
    ensures Names(call, call.keys[0].key)
  {
    assert FirstFull(kept, call, 0) == FirstFull(kept, call, 1) == 1;
    assert ChargeKeys(kept, call, 0) == kept;
  }

  lemma {:induction false} CountAll(times: seq<int>, lo: int, hi: int)
    requires forall i :: 1 <= i < |times| ==> lo <= times[i] < hi
    ensures Count(times, lo, hi) >= |times| - 1
  {
    if |times| > 1 { CountAll(times[..|times| - 1], lo, hi); }
  }

  /** For every limit some legal run has 2 * limit - 1 admissions in one interval, so the bound is the best possible. */
  lemma {:induction false} BoundIsAttained(k: Key, window: int, limit: nat)
    requires 2 <= window && 1 <= limit
    ensures var calls := Burst(k, window, limit);
            Legal(calls, _ => window, _ => limit) && WindowFrom(Times(calls, |calls|, k), 1, window) == 2 * limit - 1
  {
    hide Times, Kept, Count;
    var calls := Burst(k, window, limit);
    assert Legal(calls, _ => window, _ => limit);
    BurstAdmits(k, window, limit, 2 * limit);
    CountAll(Times(calls, |calls|, k), 1, 1 + window);
    AnyIntervalBounded(calls, |calls|, k, _ => window, _ => limit, 1);
  }
}
