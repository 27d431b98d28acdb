/**
 What the sliding-window limiter promises about every run: no window ever holds more admissions of a
 key than its limit, a refusal names the first instant at which the refusing key has room again, and
 the Retry-After header rounds that instant down to whole seconds.
 */
module SlidingWindowBounds {
  import opened RateLimit
  import opened SlidingWindow
  import opened SlidingWindowRuns

  /** Limits are a function of the key, and the keys of one request are distinct. */
  ghost predicate Limited(run: seq<Request>, limitOf: Key -> int) {
    forall i :: 0 <= i < |run| ==> LimitedRequest(run[i], limitOf)
  }

  ghost predicate LimitedRequest(req: Request, limitOf: Key -> int) {
    && (forall j :: 0 <= j < |req.keys| ==> req.keys[j].limit == limitOf(req.keys[j].key))
    && (forall i, j :: 0 <= i < j < |req.keys| ==> req.keys[i].key != req.keys[j].key)
  }

  lemma {:induction false} CountPush(log: Log, a: Admission, k: Key, lo: int, hi: int)
    ensures Count(log + [a], k, lo, hi) == Count(log, k, lo, hi) + if Falls(a, k, lo, hi) then 1 else 0
  {
    assert (log + [a])[..|log|] == log;
  }

  lemma {:induction false} CountSplit(log: Log, k: Key, lo: int, mid: int, hi: int)
    requires lo <= mid <= hi
    ensures Count(log, k, lo, hi) == Count(log, k, lo, mid) + Count(log, k, mid, hi)
  {
    if |log| > 0 { CountSplit(log[..|log| - 1], k, lo, mid, hi); }
  }

  lemma {:induction false} CountNone(log: Log, k: Key, lo: int, hi: int)
    requires forall j :: 0 <= j < |log| ==> !Falls(log[j], k, lo, hi)
    ensures Count(log, k, lo, hi) == 0
  {
    if |log| > 0 { CountNone(log[..|log| - 1], k, lo, hi); }
  }

  lemma {:induction false} CountSome(log: Log, k: Key, lo: int, hi: int, j: nat)
    requires j < |log| && Falls(log[j], k, lo, hi)
    ensures Count(log, k, lo, hi) > 0
  {
    if j < |log| - 1 { CountSome(log[..|log| - 1], k, lo, hi, j); }
  }

  /** The admissions of one request add at most one to any key, and only at the request's own time. */
  lemma {:induction false} CountAdmissions(
    log: Log, req: Request, number: nat, limitOf: Key -> int, k: Key, lo: int, hi: int, n: nat)
    requires WellFormed(req) && LimitedRequest(req, limitOf) && n <= |req.keys|
    ensures Count(log + Admissions(req, number)[..n], k, lo, hi) ==
            Count(log, k, lo, hi) +
            if lo < req.now <= hi && exists i :: 0 <= i < n && req.keys[i].key == k then 1 else 0
  {
    hide Count;
    var added := Admissions(req, number);
    if n == 0 {
      assert log + added[..0] == log;
    } else {
      CountAdmissions(log, req, number, limitOf, k, lo, hi, n - 1);
      assert log + added[..n] == (log + added[..n - 1]) + [added[n - 1]];
      CountPush(log + added[..n - 1], added[n - 1], k, lo, hi);
    }
  }

  lemma {:induction false} CountAllAdmissions(
    log: Log, req: Request, number: nat, limitOf: Key -> int, k: Key, lo: int, hi: int)
    requires WellFormed(req) && LimitedRequest(req, limitOf)
    ensures Count(log + Admissions(req, number), k, lo, hi) ==
            Count(log, k, lo, hi) + if lo < req.now <= hi && Names(req, k) then 1 else 0
  {
    hide Count;
    CountAdmissions(log, req, number, limitOf, k, lo, hi, |req.keys|);
    assert Admissions(req, number)[..|req.keys|] == Admissions(req, number);
  }

  ghost predicate Names(req: Request, k: Key) {
    exists i :: 0 <= i < |req.keys| && req.keys[i].key == k
  }

  lemma {:induction false} StepKeepsBound(
    log: Log, run: seq<Request>, n: nat, windowOf: Key -> int, limitOf: Key -> int, k: Key, t: int)
    requires n < |run| && Legal(run, windowOf) && LimitedRequest(run[n], limitOf)
    requires Distinct(log) && forall j :: 0 <= j < |log| ==> log[j].member.at <= run[n].now
    requires Count(log, k, t - windowOf(k), t) <= limitOf(k)
    ensures Count(LogStep(log, run[n], n), k, t - windowOf(k), t) <= limitOf(k)
  {
    hide Count, Distinct, LogReply, Admissions, WellFormed;
    var req := run[n];
    var lo := t - windowOf(k);
    if LogReply(log, req).allowed {
      CountAllAdmissions(log, req, n, limitOf, k, lo, t);
      if Names(req, k) && lo < req.now <= t {
        LogAdmitsBelowLimits(log, req);
        CountSplit(log, k, lo, req.now, t);
        CountNone(log, k, req.now, t);
        CountSplit(log, k, req.now - req.window, lo, req.now);
      }
    }
  }

  lemma {:induction false} LogGrows(run: seq<Request>, n: nat, m: nat)
    requires n <= m <= |run| && forall i :: 0 <= i < |run| ==> WellFormed(run[i])
    ensures RunLog(run, n) <= RunLog(run, m)
    ensures forall j :: |RunLog(run, n)| <= j < |RunLog(run, m)| ==> RunLog(run, m)[j].request >= n
  {
    hide LogReply, WellFormed;
    if n < m { LogGrows(run, n, m - 1); }
  }

  /**
   While no two admissions of a key share a member, (t - window, t] holds at most `limit` admissions of k, for every
   instant t.
   */
  lemma {:induction false} DistinctNeverOverLimit(
    run: seq<Request>, n: nat, windowOf: Key -> int, limitOf: Key -> int, k: Key, t: int)
    requires n <= |run| && Legal(run, windowOf) && Limited(run, limitOf) && Distinct(RunLog(run, n))
    requires 0 <= limitOf(k)
    ensures Count(RunLog(run, n), k, t - windowOf(k), t) <= limitOf(k)
  {
    hide LogStep, ScriptStep, Simulates, Dated, OwnWindows, WellFormed, LimitedRequest;
    if n > 0 {
      LogGrows(run, n - 1, n);
      DistinctPrefix(RunLog(run, n - 1), RunLog(run, n));
      hide Distinct;
      DistinctNeverOverLimit(run, n - 1, windowOf, limitOf, k, t);
      RunSimulates(run, n - 1, windowOf);
      LogIsPast(RunLog(run, n - 1), run, n - 1, windowOf);
      StepKeepsBound(RunLog(run, n - 1), run, n - 1, windowOf, limitOf, k, t);
    }
  }

  lemma DistinctPrefix(log: Log, longer: Log)
    requires log <= longer && Distinct(longer)
    ensures Distinct(log)
  {
  }

  /**
   Over every run with fresh random parts and for every instant t: (t - window, t] holds at most `limit` admissions of
   k.
   */
  lemma {:induction false} NeverOverLimit(
    run: seq<Request>, n: nat, windowOf: Key -> int, limitOf: Key -> int, k: Key, t: int)
    requires n <= |run| && Legal(run, windowOf) && FreshNonces(run) && Limited(run, limitOf)
    requires 0 <= limitOf(k)
    ensures Count(RunLog(run, n), k, t - windowOf(k), t) <= limitOf(k)
  {
    hide RunLog, Legal, FreshNonces, Limited, Distinct, Count;
    FreshNoncesKeepMembersDistinct(run, n, windowOf);
    DistinctNeverOverLimit(run, n, windowOf, limitOf, k, t);
  }

  // ---------------------------------------------------------------- refusals

  /** With no further admissions, k has reached its limit until just before `free` and has room at `free`. */
  ghost predicate FreesAt(log: Log, k: Key, window: int, limit: int, now: int, free: int) {
    && now < free
    && !Full(log, k, window, limit, free)
    && forall t :: now <= t < free ==> Full(log, k, window, limit, t)
  }

  ghost predicate Full(log: Log, k: Key, window: int, limit: int, t: int) {
    Count(log, k, t - window, t) >= limit
  }

  lemma {:induction false} OldestFrees(log: Log, k: Key, window: int, limit: int, now: int, oldest: int)
    requires forall j :: 0 <= j < |log| ==> log[j].member.at <= now
    requires Count(log, k, now - window, now) == limit
    requires exists j :: 0 <= j < |log| && log[j].key == k && log[j].member.at == oldest
    requires now - window < oldest
    requires forall j :: 0 <= j < |log| && Falls(log[j], k, now - window, now) ==> oldest <= log[j].member.at
    ensures FreesAt(log, k, window, limit, now, oldest + window)
  {
    hide Count;
    var free := oldest + window;
    var j :| 0 <= j < |log| && log[j].key == k && log[j].member.at == oldest;
    CountSplit(log, k, now - window, oldest, now);
    CountSome(log, k, now - window, oldest, j);
    CountSplit(log, k, oldest, now, free);
    CountNone(log, k, now, free);
    forall t | now <= t < free ensures Full(log, k, window, limit, t) {
      CountSplit(log, k, now - window, oldest - 1, now);
      CountNone(log, k, now - window, oldest - 1);
      CountSplit(log, k, t - window, oldest - 1, t);
      CountSplit(log, k, oldest - 1, now, t);
    }
  }

  lemma {:induction false} LiveOldest(log: Log, k: Key, cut: int, now: int)
    requires forall j :: 0 <= j < |log| ==> log[j].member.at <= now
    requires Timed(MembersAfter(log, k, cut)) != map[]
    ensures var oldest := Oldest(Timed(MembersAfter(log, k, cut)));
            && cut < oldest
            && (exists j :: 0 <= j < |log| && log[j].key == k && log[j].member.at == oldest)
            && (forall j :: 0 <= j < |log| && Falls(log[j], k, cut, now) ==> oldest <= log[j].member.at)
  {
    var live := Timed(MembersAfter(log, k, cut));
    OldestIsLeast(live);
    var m :| m in live && live[m] == Oldest(live);
    forall j | 0 <= j < |log| && Falls(log[j], k, cut, now) ensures Oldest(live) <= log[j].member.at {
      assert log[j].member in live;
    }
  }

  lemma {:induction false} Refuser(req: Request, lives: map<Key, Scores>) returns (j: nat)
    requires Covers(lives, req) && !Answer(req, lives).allowed
    ensures j < |req.keys| && RefusedBy(req, lives, Answer(req, lives), 0, j)
  {
    DecideMeaning(req, lives, 0, Start(req));
    j :| 0 <= j < |req.keys| && RefusedBy(req, lives, Answer(req, lives), 0, j);
  }

  lemma {:induction false} RefusingKey(log: Log, req: Request, limitOf: Key -> int) returns (j: nat)
    requires Distinct(log) && LimitedRequest(req, limitOf)
    requires forall i :: 0 <= i < |log| ==> log[i].member.at <= req.now
    requires forall i :: 0 <= i < |req.keys| ==>
               1 <= req.keys[i].limit && Count(log, req.keys[i].key, req.now - req.window, req.now) <= req.keys[i].limit
    requires !LogReply(log, req).allowed
    ensures j < |req.keys|
    ensures var r := LogReply(log, req);
            && r.remaining == 0 && r.limit == req.keys[j].limit
            && FreesAt(log, req.keys[j].key, req.window, req.keys[j].limit, req.now, r.resetAt)
  {
    hide Distinct, Count, FreesAt, LimitedRequest, Answer, MembersAfter, Timed;
    var lives := LogLives(log, req);
    j := Refuser(req, lives);
    LiveSize(log, req, j);
    var k := req.keys[j].key;
    assert lives[k] != map[] by { assert |lives[k]| >= 1; }
    LiveOldest(log, k, req.now - req.window, req.now);
    OldestFrees(log, k, req.window, req.keys[j].limit, req.now, Oldest(lives[k]));
  }

  /**
   A refusal adds nothing to the log, and its reset time is the first instant at which the refusing
   key would have room again.
   */
  lemma {:induction false} RefusalResetsExactly(run: seq<Request>, n: nat, windowOf: Key -> int, limitOf: Key -> int)
    returns (j: nat)
    requires n < |run| && Legal(run, windowOf) && FreshNonces(run) && Limited(run, limitOf)
    requires forall i :: 0 <= i < |run[n].keys| ==> 1 <= run[n].keys[i].limit
    requires !ScriptReply(RunSlots(run, n), run[n]).allowed
    ensures RunLog(run, n + 1) == RunLog(run, n)
    ensures j < |run[n].keys|
    ensures var r, req := ScriptReply(RunSlots(run, n), run[n]), run[n];
            && r.remaining == 0 && r.limit == req.keys[j].limit
            && FreesAt(RunLog(run, n), req.keys[j].key, req.window, req.keys[j].limit, req.now, r.resetAt)
  {
    hide ScriptReply, ScriptStep, LogReply, Simulates, Dated, FreshNonces, Distinct, Count, FreesAt, WellFormed;
    ScriptRefinesLog(run, n, windowOf);
    RunSimulates(run, n, windowOf);
    FreshNoncesKeepMembersDistinct(run, n, windowOf);
    LogIsPast(RunLog(run, n), run, n, windowOf);
    var req := run[n];
    forall i | 0 <= i < |req.keys|
      ensures Count(RunLog(run, n), req.keys[i].key, req.now - req.window, req.now) <= req.keys[i].limit
    {
      NeverOverLimit(run, n, windowOf, limitOf, req.keys[i].key, req.now);
    }
    j := RefusingKey(RunLog(run, n), req, limitOf);
  }

  // ---------------------------------------------------------------- the Retry-After header

  /** Go's integer division truncates toward zero. */
  function TruncatedSeconds(ms: int): int {
    if ms >= 0 then ms / 1000 else -((-ms) / 1000)
  }

  function RetryAfter(resetAt: int, now: int): int {
    var seconds := TruncatedSeconds(resetAt - now);
    if seconds <= 0 then 1 else seconds
  }

  /**
   A client that waits exactly Retry-After seconds finds room at the refusing key if and only if the
   wait was at most one second or a whole number of seconds: longer waits are rounded down.
   */
  lemma {:induction false} RetryAfterSuffices(log: Log, k: Key, window: int, limit: int, now: int, resetAt: int)
    requires FreesAt(log, k, window, limit, now, resetAt)
    requires forall j :: 0 <= j < |log| ==> log[j].member.at <= now
    ensures var t := now + 1000 * RetryAfter(resetAt, now);
            !Full(log, k, window, limit, t) <==> resetAt - now <= 1000 || (resetAt - now) % 1000 == 0
  {
    hide Count;
    var t := now + 1000 * RetryAfter(resetAt, now);
    if resetAt <= t {
      CountNone(log, k, now, t);
      CountNone(log, k, now, resetAt);
      if t - window <= now {
        CountSplit(log, k, resetAt - window, t - window, now);
        CountSplit(log, k, t - window, now, t);
        CountSplit(log, k, resetAt - window, now, resetAt);
      } else {
        CountNone(log, k, t - window, t);
        assert Count(log, k, resetAt - window, resetAt) >= 0;
      }
    }
  }

  /** The same for the replies of the script in a run: exactly then a refused client that waits as told finds room. */
  lemma {:induction false} ScriptRetryAfterSuffices(
    run: seq<Request>, n: nat, windowOf: Key -> int, limitOf: Key -> int)
    returns (j: nat)
    requires n < |run| && Legal(run, windowOf) && FreshNonces(run) && Limited(run, limitOf)
    requires forall i :: 0 <= i < |run[n].keys| ==> 1 <= run[n].keys[i].limit
    requires !ScriptReply(RunSlots(run, n), run[n]).allowed
    ensures j < |run[n].keys|
    ensures var r, req := ScriptReply(RunSlots(run, n), run[n]), run[n];
            var t := req.now + 1000 * RetryAfter(r.resetAt, req.now);
            r.limit == req.keys[j].limit &&
            (!Full(RunLog(run, n), req.keys[j].key, req.window, r.limit, t) <==>
             r.resetAt - req.now <= 1000 || (r.resetAt - req.now) % 1000 == 0)
  {
    hide ScriptReply, RunSlots, RunLog, Full, FreesAt, FreshNonces, Limited, Simulates, Dated, RetryAfter;
    j := RefusalResetsExactly(run, n, windowOf, limitOf);
    var r, req := ScriptReply(RunSlots(run, n), run[n]), run[n];
    RunSimulates(run, n, windowOf);
    LogIsPast(RunLog(run, n), run, n, windowOf);
    RetryAfterSuffices(RunLog(run, n), req.keys[j].key, req.window, req.keys[j].limit, req.now, r.resetAt);
  }

  /** One request a minute: one at 0, and one a second and a half before its minute is over. */
  function Hurried(k: Key): seq<Request> {
    [Request(0, 0, 60000, [KeyLimit(k, 1)], [1]), Request(58500, 58500, 60000, [KeyLimit(k, 1)], [2])]
  }

  lemma {:induction false} HurriedIsRefused(k: Key)
    ensures Legal(Hurried(k), _ => 60000) && FreshNonces(Hurried(k)) && Limited(Hurried(k), _ => 1)
    ensures RunLog(Hurried(k), 1) == [Admission(k, Member(0, 0, 1), 0, 0)]
    ensures !ScriptReply(RunSlots(Hurried(k), 1), Hurried(k)[1]).allowed
  {
    hide ScriptReply, RunSlots, Count, Admissions;
    var run := Hurried(k);
    ScriptAdmitsIff(run, 0, _ => 60000);
    LogFollowsScript(run, 0, _ => 60000);
    CountNone([], k, -60000, 0);
    FirstAdmission(run[0], k);
    ScriptAdmitsIff(run, 1, _ => 60000);
    CountSome(RunLog(run, 1), k, -1500, 58500, 0);
  }

  lemma FirstAdmission(req: Request, k: Key)
    requires req == Request(0, 0, 60000, [KeyLimit(k, 1)], [1])
    ensures Admissions(req, 0) == [Admission(k, Member(0, 0, 1), 0, 0)]
  {
  }

  /** The refused request is told to come back after one second, half a second too early. */
  lemma {:induction false} RetryAfterTooEarly(k: Key)
    ensures var run := Hurried(k);
            var r := ScriptReply(RunSlots(run, 1), run[1]);
            && Legal(run, _ => 60000) && FreshNonces(run) && Limited(run, _ => 1)
            && !r.allowed && r.resetAt == 60000 && RetryAfter(r.resetAt, run[1].now) == 1
            && Full(RunLog(run, 1), k, 60000, 1, run[1].now + 1000)
  {
    hide ScriptReply, RunSlots, Count, RunLog;
    var run := Hurried(k);
    HurriedIsRefused(k);
    var j := RefusalResetsExactly(run, 1, _ => 60000, _ => 1);
    var log, r := RunLog(run, 1), ScriptReply(RunSlots(run, 1), run[1]);
    CountSome(log, k, 59999 - 60000, 59999, 0);
    CountNone(log, k, 0, 60000);
    assert Full(log, k, 60000, 1, 59999) && !Full(log, k, 60000, 1, 60000);
    if r.resetAt < 60000 { CountSome(log, k, r.resetAt - 60000, r.resetAt, 0); }
    CountSome(log, k, 59500 - 60000, 59500, 0);
  }

  // ---------------------------------------------------------------- why members must differ

  ghost function Repeated(k: Key, limit: int, window: int, now: int, nonce: int, n: nat): seq<Request> {
    seq(n, i => Request(now, now, window, [KeyLimit(k, limit)], [nonce]))
  }

  /**
   Without fresh nonces the bound fails: a key with any limit above one admits every request made in
   one millisecond, because all of them write the same sorted-set member.
   */
  lemma {:induction false} RepeatedNonceAdmitsAll(k: Key, limit: int, window: int, now: int, nonce: int, n: nat)
    requires 2 <= limit && 1 <= window && 0 <= now
    ensures Legal(Repeated(k, limit, window, now, nonce, n), _ => window)
    ensures Count(RunLog(Repeated(k, limit, window, now, nonce, n), n), k, now - window, now) == n
  {
    var run := Repeated(k, limit, window, now, nonce, n);
    RepeatedPrefix(run, k, limit, window, now, nonce, n);
  }

  lemma {:induction false} RepeatedPrefix(
    run: seq<Request>, k: Key, limit: int, window: int, now: int, nonce: int, n: nat)
    requires 2 <= limit && 1 <= window && 0 <= now && n <= |run|
    requires forall i :: 0 <= i < |run| ==> run[i] == Request(now, now, window, [KeyLimit(k, limit)], [nonce])
    ensures Count(RunLog(run, n), k, now - window, now) == n
    ensures forall j :: 0 <= j < |RunLog(run, n)| ==> RunLog(run, n)[j].member == Member(now, 0, nonce)
  {
    hide LogReply, Count;
    if n == 0 {
      CountNone(RunLog(run, 0), k, now - window, now);
    } else {
      RepeatedPrefix(run, k, limit, window, now, nonce, n - 1);
      var log, req := RunLog(run, n - 1), run[n - 1];
      SameMemberAdmits(log, req, Member(now, 0, nonce));
      assert Admissions(req, n - 1) == [Admission(k, Member(now, 0, nonce), now, n - 1)];
      CountPush(log, Admissions(req, n - 1)[0], k, now - window, now);
    }
  }

  lemma {:induction false} SameMemberAdmits(log: Log, req: Request, m: Member)
    requires |req.keys| == 1 && 2 <= req.keys[0].limit
    requires forall j :: 0 <= j < |log| ==> log[j].member == m
    ensures LogReply(log, req).allowed
  {
    var lives := LogLives(log, req);
    DecideMeaning(req, lives, 0, Start(req));
    var k, cut := req.keys[0].key, req.now - req.window;
    assert MembersAfter(log, k, cut) <= {m};
    assert lives[k].Keys == MembersAfter(log, k, cut);
    AtMostOne(lives[k], m);
    assert Below(req, lives, 0);
  }

  lemma {:induction false} AtMostOne(scores: Scores, m: Member)
    requires scores.Keys <= {m}
    ensures |scores| <= 1
  {
    assert |scores| == |scores.Keys|;
    if scores.Keys != {} { assert scores.Keys == {m}; }
  }
}
