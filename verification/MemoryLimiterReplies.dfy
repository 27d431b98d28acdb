/**
 What every call of the in-memory limiter replies and stores, in terms of the stored entries and of nothing the
 limiter computes on the way.
 */
module MemoryLimiterReplies {
  import opened RateLimit
  import opened MemoryLimiter

  /** The window of a stored entry that still runs at the time of the call. */
  ghost predicate Runs(entries: Entries, call: Call, k: Key) {
    k in entries && call.now < entries[k].start + call.window
  }

  ghost function StoredCount(entries: Entries, call: Call, i: nat): int
    requires i < |call.keys|
  {
    var k := call.keys[i].key;
    if Runs(entries, call, k) then entries[k].count else 0
  }

  /** When the window that the call falls into began: now, if none is running. */
  ghost function StoredStart(entries: Entries, call: Call, i: nat): int
    requires i < |call.keys|
  {
    var k := call.keys[i].key;
    if Runs(entries, call, k) then entries[k].start else call.now
  }

  /** What admitting the call leaves of the i-th key's limit. */
  ghost function Left(entries: Entries, call: Call, i: nat): int
    requires i < |call.keys|
  {
    call.keys[i].limit - StoredCount(entries, call, i) - 1
  }

  /** Of the first n keys the i-th is the first one with the least left. */
  ghost predicate Tightest(entries: Entries, call: Call, n: nat, i: nat)
    requires i < n <= |call.keys|
  {
    && (forall h :: 0 <= h < n ==> Left(entries, call, i) <= Left(entries, call, h))
    && (forall h :: 0 <= h < i ==> Left(entries, call, i) < Left(entries, call, h))
  }

  /** The i-th key is the first one without room. */
  ghost predicate FirstRefuser(entries: Entries, call: Call, i: nat)
    requires i < |call.keys|
  {
    Left(entries, call, i) < 0 && forall h :: 0 <= h < i ==> 0 <= Left(entries, call, h)
  }

  ghost predicate Reports(entries: Entries, call: Call, i: nat, r: Reply)
    requires i < |call.keys|
  {
    && r.remaining == Left(entries, call, i) && r.limit == call.keys[i].limit
    && r.resetAt == StoredStart(entries, call, i) + call.window
  }

  /** Whether every one of the first n keys leaves at least the largest Go int. */
  ghost predicate Boundless(entries: Entries, call: Call, n: nat)
    requires n <= |call.keys|
  {
    forall i :: 0 <= i < n ==> 9223372036854775807 <= Left(entries, call, i)
  }

  ghost predicate AdmissionReported(entries: Entries, call: Call, n: nat, r: Reply)
    requires n <= |call.keys|
  {
    if Boundless(entries, call, n)
    then r == Reply(true, 9223372036854775807, call.now + call.window, 0)
    else r.allowed && exists i :: 0 <= i < n && Tightest(entries, call, n, i) && Reports(entries, call, i, r)
  }

  lemma ChargedReads(entries: Entries, call: Call, i: nat)
    requires i < |call.keys|
    ensures Charged(entries, call, i) == Entry(StoredStart(entries, call, i), StoredCount(entries, call, i) + 1)
    ensures CurrentAt(entries, call, i).start == StoredStart(entries, call, i)
    ensures FullAt(entries, call, i) <==> Left(entries, call, i) < 0
  {
  }

  lemma {:induction false} BestIsTightest(entries: Entries, call: Call, n: nat)
    requires n <= |call.keys|
    ensures AdmissionReported(entries, call, n, Best(entries, call, n))
  {
    hide Left, StoredStart, StoredCount, Charged;
    if n > 0 {
      BestIsTightest(entries, call, n - 1);
      ChargedReads(entries, call, n - 1);
      LeftReads(entries, call, n - 1);
      var before, r := Best(entries, call, n - 1), Best(entries, call, n);
      if Boundless(entries, call, n - 1) {
        if r != before { assert Tightest(entries, call, n, n - 1) && Reports(entries, call, n - 1, r); }
      } else {
        var i :| 0 <= i < n - 1 && Tightest(entries, call, n - 1, i) && Reports(entries, call, i, before);
        BestGrows(entries, call, n, i);
      }
    }
  }

  lemma LeftReads(entries: Entries, call: Call, i: nat)
    requires i < |call.keys|
    ensures Left(entries, call, i) == call.keys[i].limit - StoredCount(entries, call, i) - 1
  {
  }

  /** The next key takes over exactly when it leaves less. */
  lemma {:induction false} BestGrows(entries: Entries, call: Call, n: nat, i: nat)
    requires i < n - 1 && n <= |call.keys| && !Boundless(entries, call, n - 1)
    requires Tightest(entries, call, n - 1, i) && Reports(entries, call, i, Best(entries, call, n - 1))
    requires Best(entries, call, n - 1).allowed
    ensures AdmissionReported(entries, call, n, Best(entries, call, n))
  {
    hide Left, StoredStart, StoredCount, Charged, Boundless;
    ChargedReads(entries, call, n - 1);
    LeftReads(entries, call, n - 1);
    StillBounded(entries, call, n);
    var before, r := Best(entries, call, n - 1), Best(entries, call, n);
    if r == before {
      assert Tightest(entries, call, n, i) && Reports(entries, call, i, r);
    } else {
      assert Tightest(entries, call, n, n - 1) && Reports(entries, call, n - 1, r);
    }
  }

  lemma StillBounded(entries: Entries, call: Call, n: nat)
    requires 0 < n <= |call.keys| && !Boundless(entries, call, n - 1)
    ensures !Boundless(entries, call, n)
  {
    hide Left;
  }

  ghost predicate AllHaveRoom(entries: Entries, call: Call) {
    forall i :: 0 <= i < |call.keys| ==> 0 <= Left(entries, call, i)
  }

  /**
   Every reply: admitted exactly when every key has room. An admission reports the first key with the least left,
   with its limit and the end of its window; a refusal the first key without room.
   */
  lemma {:induction false} EveryReply(entries: Entries, call: Call)
    ensures var r := CheckReply(entries, call);
            if AllHaveRoom(entries, call) then AdmissionReported(entries, call, |call.keys|, r)
            else exists i ::
                   && 0 <= i < |call.keys| && FirstRefuser(entries, call, i)
                   && r == Reply(false, 0, StoredStart(entries, call, i) + call.window, call.keys[i].limit)
  {
    hide Left, StoredStart, StoredCount, Best, FullAt, AdmissionReported, CurrentAt;
    var n := FirstFull(entries, call, 0);
    forall i | 0 <= i < |call.keys|
      ensures 0 <= Left(entries, call, i) <==> !FullAt(entries, call, i)
      ensures CurrentAt(entries, call, i).start == StoredStart(entries, call, i)
    {
      ChargedReads(entries, call, i);
    }
    if n == |call.keys| {
      BestIsTightest(entries, call, n);
    } else {
      assert FirstRefuser(entries, call, n);
    }
  }

  /** With a limit below the largest Go int, an admission reports its tightest key. */
  lemma {:induction false} AdmissionNamesTightest(entries: Entries, call: Call, h: nat) returns (j: nat)
    requires CheckReply(entries, call).allowed && h < |call.keys| && Left(entries, call, h) < 9223372036854775807
    ensures j < |call.keys| && Tightest(entries, call, |call.keys|, j)
    ensures Reports(entries, call, j, CheckReply(entries, call))
  {
    hide Left, StoredStart, Tightest, Reports, CheckReply, AllHaveRoom;
    EveryReply(entries, call);
    j :| 0 <= j < |call.keys| && Tightest(entries, call, |call.keys|, j) &&
         Reports(entries, call, j, CheckReply(entries, call));
  }

  // ---------------------------------------------------------------- the stored state

  ghost predicate Named(call: Call, k: Key) {
    exists i :: 0 <= i < |call.keys| && call.keys[i].key == k
  }

  /** What an admitted call stores before any sweep: its keys gain one in the window they fall into. */
  ghost predicate Gained(entries: Entries, after: Entries, call: Call) {
    && (forall k :: k in after <==> k in entries || Named(call, k))
    && (forall i :: 0 <= i < |call.keys| && call.keys[i].key in after ==>
          after[call.keys[i].key] == Entry(StoredStart(entries, call, i), StoredCount(entries, call, i) + 1))
    && (forall k :: k in entries && k in after && !Named(call, k) ==> after[k] == entries[k])
  }

  lemma {:induction false} ChargeGains(entries: Entries, call: Call)
    ensures Gained(entries, ChargeKeys(entries, call, |call.keys|), call)
  {
    hide StoredStart, StoredCount;
    var n := |call.keys|;
    var after := ChargeKeys(entries, call, n);
    forall k ensures k in after <==> k in entries || Named(call, k) {
      ChargedEntries(entries, call, n, k);
    }
    forall i | 0 <= i < n
      ensures call.keys[i].key in after
      ensures after[call.keys[i].key] == Entry(StoredStart(entries, call, i), StoredCount(entries, call, i) + 1)
    {
      ChargedEntries(entries, call, n, call.keys[i].key);
      ChargedReads(entries, call, i);
    }
    forall k | k in entries && !Named(call, k) ensures k in after && after[k] == entries[k] {
      ChargedEntries(entries, call, n, k);
    }
  }

  /**
   Every stored state: a refusal stores nothing; an admission charges its keys, and when more than 10000 entries are
   stored then drops those whose start is a whole window old.
   */
  lemma {:induction false} EveryState(entries: Entries, call: Call) returns (charged: Entries)
    ensures Gained(entries, charged, call)
    ensures CheckStep(entries, call) ==
            if !AllHaveRoom(entries, call) then entries
            else if |charged| <= 10000 then charged
            else map k | k in charged && call.now < charged[k].start + call.window :: charged[k]
  {
    hide Left, ChargeKeys, FullAt, Gained;
    forall i | 0 <= i < |call.keys| ensures 0 <= Left(entries, call, i) <==> !FullAt(entries, call, i) {
      ChargedReads(entries, call, i);
    }
    charged := ChargeKeys(entries, call, |call.keys|);
    ChargeGains(entries, call);
    assert Admits(entries, call) <==> AllHaveRoom(entries, call);
  }
}
