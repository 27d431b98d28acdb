/**
 What every reply of the sliding-window script says, in terms of the admissions logged so far and of nothing the
 script computes on the way.
 */
module SlidingWindowReplies {
  import opened RateLimit
  import opened SlidingWindow
  import opened SlidingWindowRuns
  import opened SlidingWindowBounds

  /** What admitting the request leaves of the i-th key's limit. */
  ghost function Left(log: Log, req: Request, i: nat): int
    requires i < |req.keys|
  {
    req.keys[i].limit - 1 - Count(log, req.keys[i].key, req.now - req.window, req.now)
  }

  /** The oldest admission in the window leaves it at `at`; an empty window counts from now on. */
  ghost predicate Leaves(log: Log, k: Key, window: int, now: int, at: int) {
    if exists j :: 0 <= j < |log| && Falls(log[j], k, now - window, now)
    then
      && (exists j :: 0 <= j < |log| && Falls(log[j], k, now - window, now) && at == log[j].member.at + window)
      && (forall j :: 0 <= j < |log| && Falls(log[j], k, now - window, now) ==> at <= log[j].member.at + window)
    else at == now + window
  }

  /** The i-th key is the first one with the least left. */
  ghost predicate Tightest(log: Log, req: Request, i: nat)
    requires i < |req.keys|
  {
    && (forall h :: 0 <= h < |req.keys| ==> Left(log, req, i) <= Left(log, req, h))
    && (forall h :: 0 <= h < i ==> Left(log, req, i) < Left(log, req, h))
  }

  /** The i-th key is the first one whose window is full. */
  ghost predicate FirstFull(log: Log, req: Request, i: nat)
    requires i < |req.keys|
  {
    Left(log, req, i) < 0 && forall h :: 0 <= h < i ==> 0 <= Left(log, req, h)
  }

  /** The reply's reset and limit are those of the i-th key. */
  ghost predicate Names(log: Log, req: Request, r: Reply, i: nat)
    requires i < |req.keys|
  {
    r.limit == req.keys[i].limit && Leaves(log, req.keys[i].key, req.window, req.now, r.resetAt)
  }

  lemma {:induction false} ResetLeaves(log: Log, req: Request, i: nat)
    requires i < |req.keys| && forall j :: 0 <= j < |log| ==> log[j].member.at <= req.now
    ensures Leaves(log, req.keys[i].key, req.window, req.now, ResetAt(req, LogLives(log, req)[req.keys[i].key]))
  {
    var k, cut := req.keys[i].key, req.now - req.window;
    var live := Timed(MembersAfter(log, k, cut));
    if live == map[] {
      forall j | 0 <= j < |log| ensures !Falls(log[j], k, cut, req.now) {
        assert log[j].member !in live;
      }
    } else {
      LiveOldest(log, k, cut, req.now);
      var j :| 0 <= j < |log| && log[j].key == k && log[j].member.at == Oldest(live);
      assert Falls(log[j], k, cut, req.now);
    }
  }

  lemma {:induction false} LeftIsLive(log: Log, req: Request, i: nat)
    requires i < |req.keys| && Distinct(log) && forall j :: 0 <= j < |log| ==> log[j].member.at <= req.now
    ensures Left(log, req, i) == req.keys[i].limit - |LogLives(log, req)[req.keys[i].key]| - 1
  {
    hide Distinct, Count, LogLives;
    LiveSize(log, req, i);
  }

  ghost predicate AdmissionReported(log: Log, req: Request, r: Reply) {
    if exists i :: 0 <= i < |req.keys| && Left(log, req, i) < 2147483647
    then
      exists i ::
        0 <= i < |req.keys| && Tightest(log, req, i) && r.remaining == Left(log, req, i) && Names(log, req, r, i)
    else
      && r.remaining == (if |req.keys| == 0 then 0 else 2147483647)
      && r.limit == 0 && r.resetAt == req.now + req.window
  }

  ghost predicate RefusalReported(log: Log, req: Request, r: Reply) {
    r.remaining == 0 && exists i :: 0 <= i < |req.keys| && FirstFull(log, req, i) && Names(log, req, r, i)
  }

  lemma {:induction false} LogReported(log: Log, req: Request)
    requires Distinct(log) && forall j :: 0 <= j < |log| ==> log[j].member.at <= req.now
    ensures var r := LogReply(log, req);
            if r.allowed then AdmissionReported(log, req, r) else RefusalReported(log, req, r)
  {
    hide Distinct, Left, Leaves, LogLives, Decide, ResetAt;
    var lives, r := LogLives(log, req), LogReply(log, req);
    DecideMeaning(req, lives, 0, Start(req));
    forall i | 0 <= i < |req.keys|
      ensures Left(log, req, i) == req.keys[i].limit - |lives[req.keys[i].key]| - 1
      ensures Leaves(log, req.keys[i].key, req.window, req.now, ResetAt(req, lives[req.keys[i].key]))
    {
      LeftIsLive(log, req, i);
      ResetLeaves(log, req, i);
    }
    if r.allowed {
      if r != Start(req) {
        var j :| 0 <= j < |req.keys| && ReportsFirst(req, lives, r, 0, j, Start(req));
        assert Tightest(log, req, j) && Names(log, req, r, j);
      }
    } else {
      var j :| 0 <= j < |req.keys| && RefusedBy(req, lives, r, 0, j);
      assert !Below(req, lives, j) && Left(log, req, j) < 0;
      assert forall h :: 0 <= h < j ==> 0 <= Left(log, req, h) by {
        forall h | 0 <= h < j ensures 0 <= Left(log, req, h) { assert Below(req, lives, h); }
      }
      assert FirstFull(log, req, j) && Names(log, req, r, j);
    }
  }

  /**
   Every reply in every legal run with fresh random parts. An admission reports the first key with the least left, an
   admission without keys or without a limit below 2^31 the defaults of the script, a refusal the first full key.
   */
  lemma {:induction false} EveryReply(run: seq<Request>, n: nat, windowOf: Key -> int)
    requires n < |run| && Legal(run, windowOf) && FreshNonces(run)
    ensures var r, log := ScriptReply(RunSlots(run, n), run[n]), RunLog(run, n);
            if forall i :: 0 <= i < |run[n].keys| ==> 0 <= Left(log, run[n], i)
            then r.allowed && AdmissionReported(log, run[n], r)
            else !r.allowed && RefusalReported(log, run[n], r)
  {
    hide ScriptReply, LogReply, RunSlots, RunLog, Count, Distinct, FreshNonces, Simulates, Dated, AdmissionReported,
         RefusalReported;
    ScriptRefinesLog(run, n, windowOf);
    FreshNoncesKeepMembersDistinct(run, n, windowOf);
    RunSimulates(run, n, windowOf);
    LogIsPast(RunLog(run, n), run, n, windowOf);
    LogAdmitsBelowLimits(RunLog(run, n), run[n]);
    LogReported(RunLog(run, n), run[n]);
    var log, req := RunLog(run, n), run[n];
    forall i | 0 <= i < |req.keys|
      ensures 0 <= Left(log, req, i) <==>
              Count(log, req.keys[i].key, req.now - req.window, req.now) < req.keys[i].limit
    {
    }
  }

  /** With a limit that fits the script's initial remainder, an admission reports its tightest key. */
  lemma {:induction false} AdmissionNamesTightest(run: seq<Request>, n: nat, windowOf: Key -> int, h: nat)
    returns (j: nat)
    requires n < |run| && Legal(run, windowOf) && FreshNonces(run)
    requires ScriptReply(RunSlots(run, n), run[n]).allowed
    requires h < |run[n].keys| && run[n].keys[h].limit <= 2147483647
    ensures j < |run[n].keys|
    ensures var r, log := ScriptReply(RunSlots(run, n), run[n]), RunLog(run, n);
            r.remaining == Left(log, run[n], j) && Tightest(log, run[n], j) && Names(log, run[n], r, j)
  {
    hide ScriptReply, RunSlots, RunLog, FreshNonces, Count, Tightest, Names;
    EveryReply(run, n, windowOf);
    var r, log := ScriptReply(RunSlots(run, n), run[n]), RunLog(run, n);
    assert Left(log, run[n], h) < 2147483647;
    j :| 0 <= j < |run[n].keys| && Tightest(log, run[n], j) && r.remaining == Left(log, run[n], j) &&
         Names(log, run[n], r, j);
  }
}
