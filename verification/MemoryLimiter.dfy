/**
 The in-memory fallback limiter (internal/middleware/rate_limit.go, memoryRateLimiter): a fixed
 window per key, all keys of a call charged together or not at all, and a sweep of old entries once
 more than 10000 of them are stored.
 */
module MemoryLimiter {
  import opened RateLimit

  datatype Entry = Entry(start: int, count: int)

  type Entries = map<Key, Entry>

  datatype Call = Call(keys: seq<KeyLimit>, now: int, window: int)

  /** The largest Go int, the initial remainder. */
  const MAX_INT: int := 9223372036854775807

  const SWEEP_ABOVE: nat := 10000

  /** The entry a call works with: a missing or elapsed window starts anew at `now`. */
  function Current(entries: Entries, k: Key, now: int, window: int): Entry {
    if k !in entries || now - entries[k].start >= window then Entry(now, 0) else entries[k]
  }

  function CurrentAt(entries: Entries, call: Call, i: nat): Entry
    requires i < |call.keys|
  {
    Current(entries, call.keys[i].key, call.now, call.window)
  }

  predicate FullAt(entries: Entries, call: Call, i: nat)
    requires i < |call.keys|
  {
    CurrentAt(entries, call, i).count >= call.keys[i].limit
  }

  /** The first key that refuses the call, or the number of keys. */
  function FirstFull(entries: Entries, call: Call, i: nat): (n: nat)
    requires i <= |call.keys|
    ensures i <= n <= |call.keys|
    ensures forall j :: i <= j < n ==> !FullAt(entries, call, j)
    ensures n < |call.keys| ==> FullAt(entries, call, n)
    decreases |call.keys| - i
  {
    if i == |call.keys| || FullAt(entries, call, i) then i else FirstFull(entries, call, i + 1)
  }

  predicate Admits(entries: Entries, call: Call) {
    FirstFull(entries, call, 0) == |call.keys|
  }

  function Charged(entries: Entries, call: Call, i: nat): Entry
    requires i < |call.keys|
  {
    var entry := CurrentAt(entries, call, i);
    Entry(entry.start, entry.count + 1)
  }

  /** The stored entries once the first n keys have been charged. */
  function ChargeKeys(entries: Entries, call: Call, n: nat): Entries
    requires n <= |call.keys|
  {
    if n == 0 then entries else ChargeKeys(entries, call, n - 1)[call.keys[n - 1].key := Charged(entries, call, n - 1)]
  }

  /** The reply kept while charging: the smallest remainder so far. */
  function Best(entries: Entries, call: Call, n: nat): Reply
    requires n <= |call.keys|
  {
    if n == 0 then Reply(true, MAX_INT, call.now + call.window, 0)
    else
      var best := Best(entries, call, n - 1);
      var entry := Charged(entries, call, n - 1);
      var limit := call.keys[n - 1].limit;
      if limit - entry.count < best.remaining then Reply(true, limit - entry.count, entry.start + call.window, limit)
      else best
  }

  function CheckReply(entries: Entries, call: Call): Reply {
    var n := FirstFull(entries, call, 0);
    if n < |call.keys| then Reply(false, 0, CurrentAt(entries, call, n).start + call.window, call.keys[n].limit)
    else Best(entries, call, |call.keys|)
  }

  /** Charging without ever sweeping. */
  function Charge(entries: Entries, call: Call): Entries {
    if Admits(entries, call) then ChargeKeys(entries, call, |call.keys|) else entries
  }

  function Sweep(entries: Entries, now: int, window: int): Entries {
    map k | k in entries && now - entries[k].start < window :: entries[k]
  }

  function CheckStep(entries: Entries, call: Call): Entries {
    var charged := Charge(entries, call);
    if Admits(entries, call) && |charged| > SWEEP_ABOVE then Sweep(charged, call.now, call.window) else charged
  }

  class Limiter {
    var entries: Entries

    constructor ()
      ensures entries == map[]
    {
      entries := map[];
    }

    method Check(call: Call) returns (reply: Reply)
      modifies this
      ensures reply == CheckReply(old(entries), call)
      ensures entries == CheckStep(old(entries), call)
    {
      ghost var before := entries;
      var normalized: Entries := map[];
      for i := 0 to |call.keys|
        invariant entries == before
        invariant FirstFull(before, call, 0) == FirstFull(before, call, i)
        invariant forall j :: 0 <= j < i ==>
                    call.keys[j].key in normalized && normalized[call.keys[j].key] == CurrentAt(before, call, j)
      {
        var item := call.keys[i];
        var entry := Current(entries, item.key, call.now, call.window);
        if entry.count >= item.limit {
          return Reply(false, 0, entry.start + call.window, item.limit);
        }
        normalized := normalized[item.key := entry];
      }
      reply := ChargeAll(call, normalized);
      if |entries| > SWEEP_ABOVE {
        SweepOld(call.now, call.window);
      }
    }

    method ChargeAll(call: Call, normalized: Entries) returns (reply: Reply)
      requires forall j :: 0 <= j < |call.keys| ==>
                 call.keys[j].key in normalized && normalized[call.keys[j].key] == CurrentAt(entries, call, j)
      modifies this
      ensures reply == Best(old(entries), call, |call.keys|)
      ensures entries == ChargeKeys(old(entries), call, |call.keys|)
    {
      reply := Reply(true, MAX_INT, call.now + call.window, 0);
      for i := 0 to |call.keys|
        invariant reply == Best(old(entries), call, i)
        invariant entries == ChargeKeys(old(entries), call, i)
      {
        var item := call.keys[i];
        var entry := normalized[item.key];
        entry := Entry(entry.start, entry.count + 1);
        entries := entries[item.key := entry];
        if item.limit - entry.count < reply.remaining {
          reply := Reply(true, item.limit - entry.count, entry.start + call.window, item.limit);
        }
      }
    }

    method SweepOld(now: int, window: int)
      modifies this
      ensures entries == Sweep(old(entries), now, window)
    {
      var todo := entries.Keys;
      while todo != {}
        invariant todo <= old(entries).Keys
        invariant entries.Keys <= old(entries).Keys
        invariant forall k :: k in entries ==> entries[k] == old(entries)[k]
        invariant forall k :: k in old(entries) ==>
                    (k in entries <==> k in todo || now - old(entries)[k].start < window)
        decreases |todo|
      {
        var k :| k in todo;
        if now - entries[k].start >= window {
          entries := entries - {k};
        }
        todo := todo - {k};
      }
    }
  }

  // ---------------------------------------------------------------- one call

  /** Pointwise view of charging: exactly the named keys gain one admission. */
  lemma {:induction false} ChargedEntries(entries: Entries, call: Call, n: nat, k: Key)
    requires n <= |call.keys|
    ensures var after := ChargeKeys(entries, call, n);
            if exists i :: 0 <= i < n && call.keys[i].key == k
            then
              var entry := Current(entries, k, call.now, call.window);
              k in after && after[k] == Entry(entry.start, entry.count + 1)
            else (k in after <==> k in entries) && (k in after ==> after[k] == entries[k])
  {
    if n > 0 { ChargedEntries(entries, call, n - 1, k); }
  }

  /** An admitted call reports the smallest remainder over its keys, which is never negative. */
  lemma {:induction false} BestIsLeast(entries: Entries, call: Call, n: nat)
    requires n <= |call.keys| && forall j :: 0 <= j < n ==> !FullAt(entries, call, j)
    ensures var r := Best(entries, call, n);
            && r.allowed && 0 <= r.remaining <= MAX_INT
            && (forall j :: 0 <= j < n ==> r.remaining <= call.keys[j].limit - Charged(entries, call, j).count)
            && (r.remaining == MAX_INT ||
                exists j :: 0 <= j < n && r == Reply(true, call.keys[j].limit - Charged(entries, call, j).count,
                                                     Charged(entries, call, j).start + call.window, call.keys[j].limit))
  {
    if n > 0 {
      BestIsLeast(entries, call, n - 1);
      var before, r := Best(entries, call, n - 1), Best(entries, call, n);
      assert !FullAt(entries, call, n - 1);
      if r == before && r.remaining != MAX_INT {
        var j :| 0 <= j < n - 1 && r == Reply(true, call.keys[j].limit - Charged(entries, call, j).count,
                                              Charged(entries, call, j).start + call.window, call.keys[j].limit);
      }
    }
  }

  /**
   A refused call changes nothing, and its reset time is the first instant at which the refusing key
   would stop refusing.
   */
  lemma {:induction false} RefusalResetsExactly(entries: Entries, call: Call)
    requires !Admits(entries, call)
    requires forall i :: 0 <= i < |call.keys| ==> 1 <= call.keys[i].limit
    ensures CheckStep(entries, call) == entries
    ensures exists i ::
              && 0 <= i < |call.keys| && FullAt(entries, call, i)
              && CheckReply(entries, call).limit == call.keys[i].limit
              && FreesAt(entries, call.keys[i], call.now, call.window, CheckReply(entries, call).resetAt)
  {
    var i := FirstFull(entries, call, 0);
    assert FreesAt(entries, call.keys[i], call.now, call.window, CheckReply(entries, call).resetAt);
  }

  ghost predicate FreesAt(entries: Entries, item: KeyLimit, now: int, window: int, free: int) {
    && now < free
    && !Refuses(entries, item, free, window)
    && forall t :: now <= t < free ==> Refuses(entries, item, t, window)
  }

  ghost predicate Refuses(entries: Entries, item: KeyLimit, t: int, window: int) {
    Current(entries, item.key, t, window).count >= item.limit
  }
}
