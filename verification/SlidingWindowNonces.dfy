/**
 Exactly what the sliding-window bound rests on: distinct sorted-set members. The members in a window never
 exceed the limit; the admissions never do, whatever fresh requests follow, exactly while no member was repeated.
 */
module SlidingWindowNonces {
  import opened RateLimit
  import opened SlidingWindow
  import opened SlidingWindowRuns
  import opened SlidingWindowBounds

  /** Members admitted for k in (lo, hi]. */
  ghost function MembersWithin(log: Log, k: Key, lo: int, hi: int): set<Member> {
    set j | 0 <= j < |log| && Falls(log[j], k, lo, hi) :: log[j].member
  }

  lemma {:induction false} MembersPush(log: Log, a: Admission, k: Key, lo: int, hi: int)
    ensures MembersWithin(log + [a], k, lo, hi) ==
            MembersWithin(log, k, lo, hi) + if Falls(a, k, lo, hi) then {a.member} else {}
  {
    var longer := log + [a];
    forall m
      ensures m in MembersWithin(longer, k, lo, hi) <==>
                m in MembersWithin(log, k, lo, hi) || (Falls(a, k, lo, hi) && m == a.member)
    {
      if m in MembersWithin(log, k, lo, hi) {
        var j :| 0 <= j < |log| && Falls(log[j], k, lo, hi) && log[j].member == m;
        assert longer[j] == log[j];
      }
      if Falls(a, k, lo, hi) { assert longer[|log|] == a; }
    }
  }

  // ---------------------------------------------------------------- members never exceed the limit

  lemma {:induction false} MembersGrow(
    log: Log, req: Request, number: nat, limitOf: Key -> int, k: Key, lo: int, hi: int, n: nat)
    requires WellFormed(req) && LimitedRequest(req, limitOf) && n <= |req.keys|
    ensures MembersWithin(log, k, lo, hi) <= MembersWithin(log + Admissions(req, number)[..n], k, lo, hi)
    ensures |MembersWithin(log + Admissions(req, number)[..n], k, lo, hi)| <=
            |MembersWithin(log, k, lo, hi)| +
            if lo < req.now <= hi && exists i :: 0 <= i < n && req.keys[i].key == k then 1 else 0
  {
    hide MembersWithin;
    var added := Admissions(req, number);
    if n == 0 {
      assert log + added[..0] == log;
    } else {
      MembersGrow(log, req, number, limitOf, k, lo, hi, n - 1);
      assert log + added[..n] == (log + added[..n - 1]) + [added[n - 1]];
      MembersPush(log + added[..n - 1], added[n - 1], k, lo, hi);
    }
  }

  lemma {:induction false} MembersGrowAll(
    log: Log, req: Request, number: nat, limitOf: Key -> int, k: Key, lo: int, hi: int)
    requires WellFormed(req) && LimitedRequest(req, limitOf)
    ensures |MembersWithin(log + Admissions(req, number), k, lo, hi)| <=
            |MembersWithin(log, k, lo, hi)| + if lo < req.now <= hi && Names(req, k) then 1 else 0
  {
    hide MembersWithin;
    MembersGrow(log, req, number, limitOf, k, lo, hi, |req.keys|);
    assert Admissions(req, number)[..|req.keys|] == Admissions(req, number);
  }

  // An admitted request finds fewer members than the limit in its own window.
  lemma {:induction false} AdmittedBelow(log: Log, req: Request, i: nat)
    requires LogReply(log, req).allowed && i < |req.keys|
    ensures |MembersAfter(log, req.keys[i].key, req.now - req.window)| < req.keys[i].limit
  {
    hide LogLives;
    var lives := LogLives(log, req);
    DecideMeaning(req, lives, 0, Start(req));
    assert Below(req, lives, i);
    LivesAre(log, req, i);
  }

  lemma LivesAre(log: Log, req: Request, i: nat)
    requires i < |req.keys|
    ensures var k := req.keys[i].key; |LogLives(log, req)[k]| == |MembersAfter(log, k, req.now - req.window)|
  {
    var k, cut := req.keys[i].key, req.now - req.window;
    assert Timed(MembersAfter(log, k, cut)).Keys == MembersAfter(log, k, cut);
  }

  lemma {:induction false} Smaller(a: set<Member>, b: set<Member>)
    requires a <= b
    ensures |a| <= |b|
  {
    assert b == a + (b - a);
  }

  lemma {:induction false} StepKeepsMembers(
    log: Log, run: seq<Request>, n: nat, windowOf: Key -> int, limitOf: Key -> int, k: Key, t: int)
    requires n < |run| && Legal(run, windowOf) && LimitedRequest(run[n], limitOf)
    requires |MembersWithin(log, k, t - windowOf(k), t)| <= limitOf(k)
    ensures |MembersWithin(LogStep(log, run[n], n), k, t - windowOf(k), t)| <= limitOf(k)
  {
    hide MembersWithin, LogReply, Admissions, WellFormed;
    var req, lo := run[n], t - windowOf(k);
    if LogReply(log, req).allowed {
      MembersGrowAll(log, req, n, limitOf, k, lo, t);
      if i :| 0 <= i < |req.keys| && req.keys[i].key == k && lo < req.now <= t {
        AdmittedBelow(log, req, i);
        WithinAfter(log, k, lo, t, req.now - req.window);
      }
    }
  }

  lemma {:induction false} WithinAfter(log: Log, k: Key, lo: int, hi: int, cut: int)
    requires cut <= lo
    ensures |MembersWithin(log, k, lo, hi)| <= |MembersAfter(log, k, cut)|
  {
    Smaller(MembersWithin(log, k, lo, hi), MembersAfter(log, k, cut));
  }

  /** Over every run, with whatever random parts: no (t - window, t] holds more distinct members of k than its limit. */
  lemma {:induction false} MembersNeverOverLimit(
    run: seq<Request>, n: nat, windowOf: Key -> int, limitOf: Key -> int, k: Key, t: int)
    requires n <= |run| && Legal(run, windowOf) && Limited(run, limitOf) && 0 <= limitOf(k)
    ensures |MembersWithin(RunLog(run, n), k, t - windowOf(k), t)| <= limitOf(k)
  {
    hide LogStep, OwnWindows, WellFormed, LimitedRequest;
    if n == 0 {
      assert MembersWithin([], k, t - windowOf(k), t) == {};
    } else {
      hide MembersWithin;
      MembersNeverOverLimit(run, n - 1, windowOf, limitOf, k, t);
      StepKeepsMembers(RunLog(run, n - 1), run, n - 1, windowOf, limitOf, k, t);
    }
  }

  // ---------------------------------------------------------------- a repeated member leaves room for one too many

  // Some two admissions of k in (lo, hi] share a member.
  ghost predicate RepeatsWithin(log: Log, k: Key, lo: int, hi: int) {
    exists i, j :: 0 <= i < j < |log| && Falls(log[i], k, lo, hi) && Falls(log[j], k, lo, hi) &&
      log[i].member == log[j].member
  }

  lemma {:induction false} CountAtLeastMembers(log: Log, k: Key, lo: int, hi: int)
    ensures |MembersWithin(log, k, lo, hi)| <= Count(log, k, lo, hi)
    ensures RepeatsWithin(log, k, lo, hi) ==> |MembersWithin(log, k, lo, hi)| < Count(log, k, lo, hi)
  {
    if |log| > 0 {
      var rest, last := log[..|log| - 1], log[|log| - 1];
      assert log == rest + [last];
      CountAtLeastMembers(rest, k, lo, hi);
      CountPush(rest, last, k, lo, hi);
      MembersPush(rest, last, k, lo, hi);
      if RepeatsWithin(log, k, lo, hi) && !RepeatsWithin(rest, k, lo, hi) {
        var i, j :| 0 <= i < j < |log| && Falls(log[i], k, lo, hi) && Falls(log[j], k, lo, hi) &&
                    log[i].member == log[j].member;
        assert j == |log| - 1 && rest[i] == log[i];
        assert last.member in MembersWithin(rest, k, lo, hi);
      }
    } else {
      assert MembersWithin(log, k, lo, hi) == {};
    }
  }

  ghost function NonceAbove(log: Log): (x: int)
    ensures forall j :: 0 <= j < |log| ==> log[j].member.nonce < x
  {
    if |log| == 0 then 0
    else
      var rest, last := NonceAbove(log[..|log| - 1]), log[|log| - 1].member.nonce;
      if last < rest then rest else last + 1
  }

  /** One more request of the last millisecond, for k alone, with a random part nobody used. */
  ghost function OneMore(last: Request, k: Key, limit: int, log: Log): Request {
    Request(last.now, last.serverNow, last.window, [KeyLimit(k, limit)], [NonceAbove(log)])
  }

  // No admission from request n on repeats a member of its key.
  ghost predicate FreshFrom(log: Log, n: nat) {
    forall i, j :: 0 <= i < j < |log| && log[i].key == log[j].key && log[i].member == log[j].member ==>
      log[j].request < n
  }

  /** Another run that agrees with this one on the first n requests and repeats no member after them. */
  ghost predicate Continues(run: seq<Request>, n: nat, cont: seq<Request>, windowOf: Key -> int, limitOf: Key -> int)
    requires n <= |run|
  {
    && Legal(cont, windowOf) && Limited(cont, limitOf) && run[..n] <= cont && FreshFrom(RunLog(cont, |cont|), n)
  }

  lemma {:induction false} SamePrefixSameLog(run: seq<Request>, cont: seq<Request>, n: nat)
    requires n <= |run| && n <= |cont| && run[..n] == cont[..n]
    requires (forall i :: 0 <= i < |run| ==> WellFormed(run[i])) && forall i :: 0 <= i < |cont| ==> WellFormed(cont[i])
    ensures RunLog(run, n) == RunLog(cont, n)
  {
    hide LogStep, WellFormed;
    if n > 0 {
      assert run[..n][n - 1] == cont[..n][n - 1];
      assert run[..n - 1] == run[..n][..n - 1] && cont[..n - 1] == cont[..n][..n - 1];
      SamePrefixSameLog(run, cont, n - 1);
    }
  }

  lemma {:induction false} LegalPush(run: seq<Request>, windowOf: Key -> int, limitOf: Key -> int, req: Request)
    requires |run| > 0 && Legal(run, windowOf) && Limited(run, limitOf)
    requires WellFormed(req) && OwnWindows(req, windowOf) && LimitedRequest(req, limitOf)
    requires req.now == run[|run| - 1].now && req.serverNow == run[|run| - 1].serverNow
    ensures Legal(run + [req], windowOf) && Limited(run + [req], limitOf)
  {
    hide WellFormed, OwnWindows, LimitedRequest;
  }

  // The request of OneMore is admitted while a member is missing, and adds one.
  lemma {:induction false} OneMoreIsAdmitted(log: Log, last: Request, k: Key, limit: int, number: nat)
    requires WellFormed(last) && (forall j :: 0 <= j < |log| ==> log[j].member.at <= last.now)
    requires |MembersWithin(log, k, last.now - last.window, last.now)| < limit
    ensures var req := OneMore(last, k, limit, log);
            WellFormed(req) &&
            LogStep(log, req, number) ==
              log + [Admission(k, Member(last.now, 0, NonceAbove(log)), last.serverNow, number)]
  {
    hide LogLives;
    var req := OneMore(last, k, limit, log);
    var lives := LogLives(log, req);
    DecideMeaning(req, lives, 0, Start(req));
    LivesAre(log, req, 0);
    assert MembersAfter(log, k, last.now - last.window) == MembersWithin(log, k, last.now - last.window, last.now);
    assert Below(req, lives, 0);
    assert Admissions(req, number) == [Admission(k, Member(last.now, 0, NonceAbove(log)), last.serverNow, number)];
  }

  lemma {:induction false} FreshPush(log: Log, a: Admission, n: nat)
    requires FreshFrom(log, n) && forall j :: 0 <= j < |log| ==> log[j].member != a.member
    ensures FreshFrom(log + [a], n)
  {
  }

  lemma {:induction false} FreshSince(run: seq<Request>, n: nat, windowOf: Key -> int)
    requires n <= |run| && Legal(run, windowOf)
    ensures FreshFrom(RunLog(run, n), n) && forall j :: 0 <= j < |RunLog(run, n)| ==> RunLog(run, n)[j].request < n
  {
    hide Simulates, DatedBy;
    RunSimulates(run, n, windowOf);
  }

  lemma {:induction false} LogNotAfter(run: seq<Request>, windowOf: Key -> int)
    requires |run| > 0 && Legal(run, windowOf)
    ensures forall j :: 0 <= j < |RunLog(run, |run|)| ==> RunLog(run, |run|)[j].member.at <= run[|run| - 1].now
  {
    hide Simulates;
    RunSimulates(run, |run|, windowOf);
    var log := RunLog(run, |run|);
    forall j | 0 <= j < |log| ensures log[j].member.at <= run[|run| - 1].now {
      assert run[log[j].request].now <= run[|run| - 1].now;
    }
  }

  lemma {:induction false} RunPush(run: seq<Request>, req: Request)
    requires (forall i :: 0 <= i < |run| ==> WellFormed(run[i])) && WellFormed(req)
    ensures RunLog(run + [req], |run| + 1) == LogStep(RunLog(run, |run|), req, |run|)
  {
    hide LogStep, WellFormed;
    var longer := run + [req];
    assert longer[..|run|] == run == run[..|run|];
    SamePrefixSameLog(run, longer, |run|);
  }

  // One request more in the same millisecond: one more admission, one more member, nothing repeated.
  lemma {:induction false} FillStep(
    run: seq<Request>, n: nat, windowOf: Key -> int, limitOf: Key -> int, k: Key) returns (longer: seq<Request>)
    requires n <= |run| && |run| > 0 && Legal(run, windowOf) && Limited(run, limitOf) &&
             run[|run| - 1].window == windowOf(k)
    requires FreshFrom(RunLog(run, |run|), n)
    requires |MembersWithin(RunLog(run, |run|), k, run[|run| - 1].now - windowOf(k), run[|run| - 1].now)| < limitOf(k)
    requires 1 <= windowOf(k)
    ensures |longer| == |run| + 1 && run <= longer && longer[|run|].now == run[|run| - 1].now &&
            longer[|run|].window == windowOf(k)
    ensures Legal(longer, windowOf) && Limited(longer, limitOf) && FreshFrom(RunLog(longer, |longer|), n)
    ensures var now := run[|run| - 1].now;
            var before, after := RunLog(run, |run|), RunLog(longer, |longer|);
            && Count(after, k, now - windowOf(k), now) == Count(before, k, now - windowOf(k), now) + 1
            && |MembersWithin(after, k, now - windowOf(k), now)| ==
                 |MembersWithin(before, k, now - windowOf(k), now)| + 1
  {
    hide MembersWithin, Count, FreshFrom, RunLog, LogStep, NonceAbove;
    var log, last := RunLog(run, |run|), run[|run| - 1];
    var req := OneMore(last, k, limitOf(k), log);
    longer := run + [req];
    LogNotAfter(run, windowOf);
    OneMoreIsAdmitted(log, last, k, limitOf(k), |run|);
    LegalPush(run, windowOf, limitOf, req);
    RunPush(run, req);
    var a := Admission(k, Member(last.now, 0, NonceAbove(log)), last.serverNow, |run|);
    FreshPush(log, a, n);
    CountPush(log, a, k, last.now - windowOf(k), last.now);
    MembersPush(log, a, k, last.now - windowOf(k), last.now);
    NotAMember(log, k, last.now - windowOf(k), last.now, a.member);
  }

  lemma {:induction false} NotAMember(log: Log, k: Key, lo: int, hi: int, m: Member)
    requires forall j :: 0 <= j < |log| ==> log[j].member != m
    ensures m !in MembersWithin(log, k, lo, hi)
  {
  }

  /** Filling the window up with fresh members makes one admission too many, if one member stands for two admissions. */
  lemma {:induction false} FillUp(
    run: seq<Request>, n: nat, windowOf: Key -> int, limitOf: Key -> int, k: Key) returns (cont: seq<Request>)
    requires n <= |run| && |run| > 0 && Legal(run, windowOf) && Limited(run, limitOf) &&
             run[|run| - 1].window == windowOf(k) && 1 <= windowOf(k)
    requires 0 <= limitOf(k) && FreshFrom(RunLog(run, |run|), n)
    requires var now, log := run[|run| - 1].now, RunLog(run, |run|);
             |MembersWithin(log, k, now - windowOf(k), now)| < Count(log, k, now - windowOf(k), now)
    ensures run <= cont && Legal(cont, windowOf) && Limited(cont, limitOf) && FreshFrom(RunLog(cont, |cont|), n)
    ensures var now := run[|run| - 1].now; Count(RunLog(cont, |cont|), k, now - windowOf(k), now) > limitOf(k)
    decreases limitOf(k) - |MembersWithin(RunLog(run, |run|), k, run[|run| - 1].now - windowOf(k), run[|run| - 1].now)|
  {
    hide MembersWithin, Count, FreshFrom, RunLog, Limited, WellFormed, OwnWindows;
    var now := run[|run| - 1].now;
    MembersNeverOverLimit(run, |run|, windowOf, limitOf, k, now);
    if |MembersWithin(RunLog(run, |run|), k, now - windowOf(k), now)| == limitOf(k) {
      cont := run;
    } else {
      var longer := FillStep(run, n, windowOf, limitOf, k);
      cont := FillUp(longer, n, windowOf, limitOf, k);
    }
  }

  // ---------------------------------------------------------------- the exact condition

  ghost predicate Positive(run: seq<Request>) {
    forall i :: 0 <= i < |run| ==> 1 <= run[i].window
  }

  /** If the n-th request is the first to repeat a member, some continuation of its millisecond exceeds a limit. */
  lemma {:induction false} RepeatOverflows(run: seq<Request>, n: nat, windowOf: Key -> int, limitOf: Key -> int)
    returns (cont: seq<Request>, k: Key)
    requires n < |run| && Legal(run, windowOf) && Limited(run, limitOf) && Positive(run) && forall k :: 0 <= limitOf(k)
    requires Distinct(RunLog(run, n)) && !Distinct(RunLog(run, n + 1))
    ensures Continues(run, n + 1, cont, windowOf, limitOf)
    ensures Count(RunLog(cont, |cont|), k, run[n].now - windowOf(k), run[n].now) > limitOf(k)
  {
    hide Count, MembersWithin, RunLog, Distinct, FreshFrom, WellFormed, OwnWindows, Limited, RepeatsWithin;
    var short := run[..n + 1];
    CutOff(run, n + 1, windowOf, limitOf);
    k := RepeatedKey(run, n, windowOf, limitOf);
    var log, now := RunLog(short, n + 1), run[n].now;
    CountAtLeastMembers(log, k, now - windowOf(k), now);
    FreshSince(short, n + 1, windowOf);
    cont := FillUp(short, n + 1, windowOf, limitOf, k);
  }

  lemma {:induction false} CutOff(run: seq<Request>, n: nat, windowOf: Key -> int, limitOf: Key -> int)
    requires n <= |run| && Legal(run, windowOf) && Limited(run, limitOf)
    ensures Legal(run[..n], windowOf) && Limited(run[..n], limitOf) && RunLog(run[..n], n) == RunLog(run, n)
  {
    hide RunLog, WellFormed, OwnWindows, LimitedRequest;
    assert run[..n][..n] == run[..n];
    SamePrefixSameLog(run, run[..n], n);
  }

  lemma {:induction false} RepeatedKey(
    run: seq<Request>, n: nat, windowOf: Key -> int, limitOf: Key -> int) returns (k: Key)
    requires n < |run| && Legal(run, windowOf) && Limited(run, limitOf) && Positive(run)
    requires Distinct(RunLog(run, n)) && !Distinct(RunLog(run, n + 1))
    ensures windowOf(k) == run[n].window && RepeatsWithin(RunLog(run, n + 1), k, run[n].now - windowOf(k), run[n].now)
  {
    hide LogReply, Simulates;
    var before, log, req := RunLog(run, n), RunLog(run, n + 1), run[n];
    assert WellFormed(req) && OwnWindows(req, windowOf) && LimitedRequest(req, limitOf);
    assert log == before + Admissions(req, n);
    var i, j :| 0 <= i < j < |log| && log[i].key == log[j].key && log[i].member == log[j].member;
    assert j >= |before|;
    assert log[j] == Admissions(req, n)[j - |before|];
    k := log[j].key;
    assert Falls(log[j], k, req.now - windowOf(k), req.now) && Falls(log[i], k, req.now - windowOf(k), req.now);
  }

  lemma {:induction false} FirstRepeat(run: seq<Request>, n: nat) returns (m: nat)
    requires n <= |run| && (forall i :: 0 <= i < |run| ==> WellFormed(run[i])) && !Distinct(RunLog(run, n))
    ensures m < n && Distinct(RunLog(run, m)) && !Distinct(RunLog(run, m + 1))
  {
    hide Distinct, LogStep, WellFormed;
    if n == 0 {
      NoneIsDistinct();
    } else if Distinct(RunLog(run, n - 1)) {
      m := n - 1;
    } else {
      m := FirstRepeat(run, n - 1);
    }
  }

  // However the run is cut off and continued without repeating members, no key exceeds its limit in any window.
  ghost predicate NeverOverflows(run: seq<Request>, windowOf: Key -> int, limitOf: Key -> int) {
    forall n: nat, cont: seq<Request>, k: Key, t: int :: n <= |run| && Continues(run, n, cont, windowOf, limitOf) ==>
      WithinLimit(cont, k, t, windowOf, limitOf)
  }

  ghost predicate WithinLimit(run: seq<Request>, k: Key, t: int, windowOf: Key -> int, limitOf: Key -> int)
    requires Legal(run, windowOf)
  {
    Count(RunLog(run, |run|), k, t - windowOf(k), t) <= limitOf(k)
  }

  lemma {:induction false} ContinuationIsDistinct(
    run: seq<Request>, n: nat, cont: seq<Request>, windowOf: Key -> int, limitOf: Key -> int)
    requires n <= |run| && Legal(run, windowOf) && Continues(run, n, cont, windowOf, limitOf) &&
             Distinct(RunLog(run, |run|))
    ensures Distinct(RunLog(cont, |cont|))
  {
    hide LogStep, WellFormed, RunLog;
    assert cont[..n] == run[..n];
    SamePrefixSameLog(run, cont, n);
    LogGrows(run, n, |run|);
    LogGrows(cont, n, |cont|);
    var log, start := RunLog(cont, |cont|), RunLog(run, n);
    forall i, j | 0 <= i < j < |log| && log[i].key == log[j].key ensures log[i].member != log[j].member {
      if j < |start| {
        assert log[i] == start[i] == RunLog(run, |run|)[i] && log[j] == start[j] == RunLog(run, |run|)[j];
      } else {
        assert log[j].request >= n;
      }
    }
  }

  /** No fresh continuation ever exceeds a limit exactly when the run has repeated no member. */
  lemma {:induction false} BoundIffMembersDistinct(run: seq<Request>, windowOf: Key -> int, limitOf: Key -> int)
    requires Legal(run, windowOf) && Limited(run, limitOf) && Positive(run) && forall k :: 0 <= limitOf(k)
    ensures NeverOverflows(run, windowOf, limitOf) <==> Distinct(RunLog(run, |run|))
  {
    hide RunLog, Count, Distinct, FreshFrom, Limited, Positive, WellFormed, OwnWindows;
    if Distinct(RunLog(run, |run|)) {
      forall n: nat, cont: seq<Request>, k: Key, t: int | n <= |run| && Continues(run, n, cont, windowOf, limitOf)
        ensures WithinLimit(cont, k, t, windowOf, limitOf)
      {
        ContinuationIsDistinct(run, n, cont, windowOf, limitOf);
        DistinctNeverOverLimit(cont, |cont|, windowOf, limitOf, k, t);
      }
    } else {
      var m := FirstRepeat(run, |run|);
      var cont, k := RepeatOverflows(run, m, windowOf, limitOf);
      var n := m + 1;
      assert Continues(run, n, cont, windowOf, limitOf) && !WithinLimit(cont, k, run[m].now, windowOf, limitOf);
    }
  }
}
