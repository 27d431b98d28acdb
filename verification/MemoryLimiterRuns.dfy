/**
 Whole runs of the in-memory limiter: when the sweep can be noticed, and how many admissions an
 interval of one window can hold.
 */
module MemoryLimiterRuns {
  import opened RateLimit
  import opened MemoryLimiter

  /** Times do not decrease, a key always comes with its own window and limit, and windows are positive. */
  ghost predicate Legal(calls: seq<Call>, windowOf: Key -> int, limitOf: Key -> int) {
    && (forall i :: 0 <= i < |calls| ==> LegalCall(calls[i], windowOf, limitOf))
    && (forall i, j :: 0 <= i < j < |calls| ==> calls[i].now <= calls[j].now)
  }

  ghost predicate LegalCall(call: Call, windowOf: Key -> int, limitOf: Key -> int) {
    forall j :: 0 <= j < |call.keys| ==>
      && call.window == windowOf(call.keys[j].key) && 1 <= call.window
      && call.keys[j].limit == limitOf(call.keys[j].key) && 1 <= call.keys[j].limit
  }

  /** The limiter's entries after n calls. */
  ghost function Stored(calls: seq<Call>, n: nat): Entries
    requires n <= |calls|
  {
    if n == 0 then map[] else CheckStep(Stored(calls, n - 1), calls[n - 1])
  }

  /** The entries of a limiter that never deletes. */
  ghost function Kept(calls: seq<Call>, n: nat): Entries
    requires n <= |calls|
  {
    if n == 0 then map[] else Charge(Kept(calls, n - 1), calls[n - 1])
  }

  // ---------------------------------------------------------------- the sweep

  /** The entries that only one of the two limiters still has are over by `now`. */
  ghost predicate Agree(stored: Entries, kept: Entries, now: int, windowOf: Key -> int) {
    && (forall k :: k in stored ==> k in kept && stored[k] == kept[k])
    && (forall k :: k in kept && k !in stored ==> now - kept[k].start >= windowOf(k))
  }

  /** A sweep after this call would only delete entries whose own window is over. */
  ghost predicate SweepSafe(entries: Entries, call: Call, windowOf: Key -> int) {
    var charged := Charge(entries, call);
    Admits(entries, call) && |charged| > SWEEP_ABOVE ==>
      forall k :: k in charged && call.now - charged[k].start >= call.window ==>
        call.now - charged[k].start >= windowOf(k)
  }

  lemma {:induction false} AgreeCurrent(
    stored: Entries, kept: Entries, now: int, call: Call, windowOf: Key -> int, limitOf: Key -> int)
    requires Agree(stored, kept, now, windowOf) && now <= call.now && LegalCall(call, windowOf, limitOf)
    ensures forall i :: 0 <= i < |call.keys| ==> CurrentAt(stored, call, i) == CurrentAt(kept, call, i)
  {
  }

  lemma {:induction false} SameFirstFull(one: Entries, other: Entries, call: Call, i: nat)
    requires forall j :: 0 <= j < |call.keys| ==> CurrentAt(one, call, j) == CurrentAt(other, call, j)
    requires i <= |call.keys|
    ensures FirstFull(one, call, i) == FirstFull(other, call, i)
    decreases |call.keys| - i
  {
    if i < |call.keys| { SameFirstFull(one, other, call, i + 1); }
  }

  lemma {:induction false} SameBest(one: Entries, other: Entries, call: Call, n: nat)
    requires forall j :: 0 <= j < |call.keys| ==> CurrentAt(one, call, j) == CurrentAt(other, call, j)
    requires n <= |call.keys|
    ensures Best(one, call, n) == Best(other, call, n)
  {
    if n > 0 { SameBest(one, other, call, n - 1); }
  }

  lemma {:induction false} AgreeReply(
    stored: Entries, kept: Entries, now: int, call: Call, windowOf: Key -> int, limitOf: Key -> int)
    requires Agree(stored, kept, now, windowOf) && now <= call.now && LegalCall(call, windowOf, limitOf)
    ensures CheckReply(stored, call) == CheckReply(kept, call)
    ensures Admits(stored, call) == Admits(kept, call)
    ensures Agree(Charge(stored, call), Charge(kept, call), call.now, windowOf)
  {
    AgreeCurrent(stored, kept, now, call, windowOf, limitOf);
    SameFirstFull(stored, kept, call, 0);
    SameBest(stored, kept, call, |call.keys|);
    if Admits(stored, call) {
      var n := |call.keys|;
      forall k
        ensures k in ChargeKeys(stored, call, n) ==>
                  k in ChargeKeys(kept, call, n) && ChargeKeys(stored, call, n)[k] == ChargeKeys(kept, call, n)[k]
        ensures k in ChargeKeys(kept, call, n) && k !in ChargeKeys(stored, call, n) ==>
                  call.now - ChargeKeys(kept, call, n)[k].start >= windowOf(k)
      {
        ChargedEntries(stored, call, n, k);
        ChargedEntries(kept, call, n, k);
        if i :| 0 <= i < n && call.keys[i].key == k {
          assert CurrentAt(stored, call, i) == CurrentAt(kept, call, i);
        }
      }
    }
  }

  lemma {:induction false} SafeSweepAgrees(stored: Entries, kept: Entries, call: Call, windowOf: Key -> int)
    requires Agree(Charge(stored, call), kept, call.now, windowOf) && SweepSafe(stored, call, windowOf)
    ensures Agree(CheckStep(stored, call), kept, call.now, windowOf)
  {
  }

  /** As long as every sweep is safe, no reply ever differs from that of a limiter that never deletes. */
  lemma {:induction false} SafeSweepsAreInvisible(calls: seq<Call>, n: nat, windowOf: Key -> int, limitOf: Key -> int)
    requires n <= |calls| && Legal(calls, windowOf, limitOf)
    requires forall i :: 0 <= i < n ==> SweepSafe(Stored(calls, i), calls[i], windowOf)
    ensures Agree(Stored(calls, n), Kept(calls, n), Clock(calls, n), windowOf)
    ensures n < |calls| ==> CheckReply(Stored(calls, n), calls[n]) == CheckReply(Kept(calls, n), calls[n])
    ensures n < |calls| ==> Admits(Stored(calls, n), calls[n]) == Admits(Kept(calls, n), calls[n])
  {
    hide CheckStep, Charge, CheckReply, Admits, Agree, SweepSafe, LegalCall;
    if n == 0 {
      NothingAgrees(Clock(calls, 0), windowOf);
    } else {
      SafeSweepsAreInvisible(calls, n - 1, windowOf, limitOf);
      AgreeReply(Stored(calls, n - 1), Kept(calls, n - 1), Clock(calls, n - 1), calls[n - 1], windowOf, limitOf);
      SafeSweepAgrees(Stored(calls, n - 1), Kept(calls, n), calls[n - 1], windowOf);
    }
    if n < |calls| {
      AgreeReply(Stored(calls, n), Kept(calls, n), Clock(calls, n), calls[n], windowOf, limitOf);
    }
  }

  lemma NothingAgrees(now: int, windowOf: Key -> int)
    ensures Agree(map[], map[], now, windowOf)
  {
  }

  ghost function Clock(calls: seq<Call>, n: nat): int
    requires n <= |calls|
  {
    if n > 0 then calls[n - 1].now else if |calls| > 0 then calls[0].now else 0
  }

  /** With one window length for all keys every sweep is safe, so it is never noticed. */
  lemma {:induction false} OneWindowSweepsInvisibly(calls: seq<Call>, n: nat, window: int, limitOf: Key -> int)
    requires n < |calls| && Legal(calls, _ => window, limitOf)
    requires forall i :: 0 <= i < |calls| ==> calls[i].window == window
    ensures CheckReply(Stored(calls, n), calls[n]) == CheckReply(Kept(calls, n), calls[n])
  {
    SafeSweepsAreInvisible(calls, n, _ => window, limitOf);
  }

  // ---------------------------------------------------------------- and only then

  // Every entry was charged at least once, at most to its limit, and not in the future.
  ghost predicate InRange(entries: Entries, limitOf: Key -> int, now: int) {
    forall k :: k in entries ==> 1 <= entries[k].count <= limitOf(k) && entries[k].start <= now
  }

  lemma {:induction false} ChargeInRange(
    entries: Entries, call: Call, windowOf: Key -> int, limitOf: Key -> int, now: int)
    requires InRange(entries, limitOf, now) && now <= call.now && LegalCall(call, windowOf, limitOf)
    ensures InRange(Charge(entries, call), limitOf, call.now)
  {
    if Admits(entries, call) {
      var n := |call.keys|;
      forall k | k in ChargeKeys(entries, call, n)
        ensures 1 <= ChargeKeys(entries, call, n)[k].count <= limitOf(k) &&
                ChargeKeys(entries, call, n)[k].start <= call.now
      {
        ChargedEntries(entries, call, n, k);
        if i :| 0 <= i < n && call.keys[i].key == k { assert !FullAt(entries, call, i); }
      }
    }
  }

  lemma {:induction false} StoredInRange(calls: seq<Call>, n: nat, windowOf: Key -> int, limitOf: Key -> int)
    requires n <= |calls| && Legal(calls, windowOf, limitOf)
    ensures InRange(Stored(calls, n), limitOf, Clock(calls, n))
  {
    hide Charge, Admits, LegalCall;
    if n > 0 {
      StoredInRange(calls, n - 1, windowOf, limitOf);
      ChargeInRange(Stored(calls, n - 1), calls[n - 1], windowOf, limitOf, Clock(calls, n - 1));
    }
  }

  /** Limits are Go ints. */
  ghost predicate GoInts(limitOf: Key -> int) {
    forall k :: limitOf(k) <= MAX_INT
  }

  /** An unsafe sweep is always noticeable: a legal call for a key it wrongly deleted gets another reply. */
  lemma {:induction false} UnsafeSweepShows(
    entries: Entries, call: Call, windowOf: Key -> int, limitOf: Key -> int) returns (next: Call)
    requires InRange(Charge(entries, call), limitOf, call.now) && GoInts(limitOf) && !SweepSafe(entries, call, windowOf)
    ensures LegalCall(next, windowOf, limitOf) && next.now == call.now
    ensures CheckReply(CheckStep(entries, call), next) != CheckReply(Charge(entries, call), next)
  {
    var charged := Charge(entries, call);
    var k :| k in charged && call.now - charged[k].start >= call.window && call.now - charged[k].start < windowOf(k);
    var limit := limitOf(k);
    next := Call([KeyLimit(k, limit)], call.now, windowOf(k));
    var swept := CheckStep(entries, call);
    assert k !in swept;
    assert limit <= MAX_INT && charged[k].count >= 1;
    hide Charge, CheckStep, Admits, CheckReply;
    OneKeyReply(swept, next);
    OneKeyReply(charged, next);
  }

  lemma {:induction false} OneKeyReply(entries: Entries, call: Call)
    requires |call.keys| == 1
    ensures var entry, limit := CurrentAt(entries, call, 0), call.keys[0].limit;
            if entry.count >= limit then !CheckReply(entries, call).allowed
            else
              && CheckReply(entries, call).allowed
              && CheckReply(entries, call).remaining ==
                 if limit - entry.count - 1 < MAX_INT then limit - entry.count - 1 else MAX_INT
  {
    assert FirstFull(entries, call, 0) == if FullAt(entries, call, 0) then 0 else 1;
    assert Best(entries, call, 0) == Reply(true, MAX_INT, call.now + call.window, 0);
  }

  // No legal call, now or after any of the first n calls, could tell the limiter from one that never deletes.
  ghost predicate Unnoticed(calls: seq<Call>, n: nat, windowOf: Key -> int, limitOf: Key -> int)
    requires n <= |calls|
  {
    forall m: nat, next: Call :: m <= n && LegalCall(next, windowOf, limitOf) && Clock(calls, m) <= next.now ==>
      CheckReply(Stored(calls, m), next) == CheckReply(Kept(calls, m), next)
  }

  lemma {:induction false} FirstUnsafeSweepShows(
    calls: seq<Call>, n: nat, windowOf: Key -> int, limitOf: Key -> int) returns (next: Call)
    requires n < |calls| && Legal(calls, windowOf, limitOf) && GoInts(limitOf)
    requires forall i :: 0 <= i < n ==> SweepSafe(Stored(calls, i), calls[i], windowOf)
    requires !SweepSafe(Stored(calls, n), calls[n], windowOf)
    ensures LegalCall(next, windowOf, limitOf) && next.now == calls[n].now
    ensures CheckReply(Stored(calls, n + 1), next) != CheckReply(Kept(calls, n + 1), next)
  {
    hide Charge, CheckStep, CheckReply, Admits, SweepSafe, LegalCall, Agree, InRange;
    var stored, call := Stored(calls, n), calls[n];
    SafeSweepsAreInvisible(calls, n, windowOf, limitOf);
    AgreeReply(stored, Kept(calls, n), Clock(calls, n), call, windowOf, limitOf);
    StoredInRange(calls, n, windowOf, limitOf);
    ChargeInRange(stored, call, windowOf, limitOf, Clock(calls, n));
    next := UnsafeSweepShows(stored, call, windowOf, limitOf);
    AgreeReply(Charge(stored, call), Kept(calls, n + 1), call.now, next, windowOf, limitOf);
  }

  /** Over every legal run the sweep goes unnoticed exactly as long as every sweep is safe. */
  lemma {:induction false} SweepUnnoticedIffSafe(calls: seq<Call>, n: nat, windowOf: Key -> int, limitOf: Key -> int)
    requires n <= |calls| && Legal(calls, windowOf, limitOf) && GoInts(limitOf)
    ensures Unnoticed(calls, n, windowOf, limitOf) <==>
              forall i :: 0 <= i < n ==> SweepSafe(Stored(calls, i), calls[i], windowOf)
  {
    hide Charge, CheckStep, CheckReply, Admits, SweepSafe, LegalCall, Agree, Stored, Kept;
    if forall i :: 0 <= i < n ==> SweepSafe(Stored(calls, i), calls[i], windowOf) {
      forall m: nat, next: Call | m <= n && LegalCall(next, windowOf, limitOf) && Clock(calls, m) <= next.now
        ensures CheckReply(Stored(calls, m), next) == CheckReply(Kept(calls, m), next)
      {
        SafeSweepsAreInvisible(calls, m, windowOf, limitOf);
        AgreeReply(Stored(calls, m), Kept(calls, m), Clock(calls, m), next, windowOf, limitOf);
      }
    } else {
      var i := FirstUnsafe(calls, n, windowOf);
      var next := FirstUnsafeSweepShows(calls, i, windowOf, limitOf);
      assert Clock(calls, i + 1) == next.now;
      var m := i + 1;
      assert CheckReply(Stored(calls, m), next) != CheckReply(Kept(calls, m), next);
    }
  }

  lemma {:induction false} FirstUnsafe(calls: seq<Call>, n: nat, windowOf: Key -> int) returns (i: nat)
    requires n <= |calls| && !forall j :: 0 <= j < n ==> SweepSafe(Stored(calls, j), calls[j], windowOf)
    ensures i < n && !SweepSafe(Stored(calls, i), calls[i], windowOf) &&
            forall j :: 0 <= j < i ==> SweepSafe(Stored(calls, j), calls[j], windowOf)
  {
    hide SweepSafe, Stored;
    i :| 0 <= i < n && !SweepSafe(Stored(calls, i), calls[i], windowOf);
    if !forall j :: 0 <= j < i ==> SweepSafe(Stored(calls, j), calls[j], windowOf) {
      i := FirstUnsafe(calls, i, windowOf);
    }
  }
}
