/**
 Whole runs of the sliding-window script against a log that never forgets: the script prunes old
 scores and lets keys expire, the log keeps every admission forever, and both answer alike.
 */
module SlidingWindowRuns {
  import opened RateLimit
  import opened SlidingWindow

  /** One admission of one key. The admission time is `member.at`. */
  datatype Admission = Admission(key: Key, member: Member, serverAt: int, request: nat)

  type Log = seq<Admission>

  /** Members admitted for k later than cut. */
  ghost function MembersAfter(log: Log, k: Key, cut: int): set<Member> {
    set j | 0 <= j < |log| && log[j].key == k && log[j].member.at > cut :: log[j].member
  }

  ghost function Timed(members: set<Member>): Scores {
    map m | m in members :: m.at
  }

  ghost function LogLives(log: Log, req: Request): (lives: map<Key, Scores>)
    ensures Covers(lives, req)
  {
    map i | 0 <= i < |req.keys| :: req.keys[i].key := Timed(MembersAfter(log, req.keys[i].key, req.now - req.window))
  }

  ghost function LogReply(log: Log, req: Request): Reply {
    Answer(req, LogLives(log, req))
  }

  ghost function Admissions(req: Request, number: nat): Log
    requires WellFormed(req)
  {
    seq(|req.keys|,
        i requires 0 <= i < |req.keys| => Admission(req.keys[i].key, MemberAt(req, i), req.serverNow, number))
  }

  /** The log grows by one admission per key, and only when the log itself admits the request. */
  ghost function LogStep(log: Log, req: Request, number: nat): Log
    requires WellFormed(req)
  {
    if LogReply(log, req).allowed then log + Admissions(req, number) else log
  }

  // ---------------------------------------------------------------- runs

  /**
   What a run assumes. Request times do not decrease, a key always comes with the same window (its
   text contains it), and between two requests the clock Redis expires keys by gains at most one
   second on the clock of the callers.
   */
  ghost predicate Legal(run: seq<Request>, windowOf: Key -> int) {
    && (forall i :: 0 <= i < |run| ==> WellFormed(run[i]) && OwnWindows(run[i], windowOf))
    && (forall i, j :: 0 <= i < j < |run| ==>
          run[i].now <= run[j].now && run[j].serverNow - run[i].serverNow <= run[j].now - run[i].now + 1000)
  }

  ghost predicate OwnWindows(req: Request, windowOf: Key -> int) {
    forall j :: 0 <= j < |req.keys| ==> windowOf(req.keys[j].key) == req.window
  }

  /** The store after the first n requests. */
  ghost function RunSlots(run: seq<Request>, n: nat): Slots
    requires n <= |run| && forall i :: 0 <= i < |run| ==> WellFormed(run[i])
  {
    if n == 0 then map[] else ScriptStep(RunSlots(run, n - 1), run[n - 1])
  }

  /** The log after the first n requests. */
  ghost function RunLog(run: seq<Request>, n: nat): Log
    requires n <= |run| && forall i :: 0 <= i < |run| ==> WellFormed(run[i])
  {
    if n == 0 then [] else LogStep(RunLog(run, n - 1), run[n - 1], n - 1)
  }

  // ---------------------------------------------------------------- the simulation

  /** Every logged admission comes from one of the first n requests, so it is bound by the run's clocks. */
  ghost predicate Dated(log: Log, run: seq<Request>, n: nat)
    requires n <= |run|
  {
    forall j :: 0 <= j < |log| ==> log[j].request < n && DatedBy(log[j], run[log[j].request])
  }

  ghost predicate DatedBy(a: Admission, req: Request) {
    && a.member.index < |req.keys| && |req.nonces| == |req.keys|
    && a.key == req.keys[a.member.index].key
    && a.member == MemberAt(req, a.member.index)
    && a.serverAt == req.serverNow
  }

  /** The store holds nothing but logged admissions, and misses none younger than the key's window. */
  ghost predicate Simulates(slots: Slots, log: Log, now: int, windowOf: Key -> int) {
    forall k :: SimulatesKey(slots, log, now, windowOf, k)
  }

  ghost predicate SimulatesKey(slots: Slots, log: Log, now: int, windowOf: Key -> int, k: Key) {
    && Sound(slots, log, k)
    && Complete(slots, log, now - windowOf(k), k)
    && (k in slots ==> 0 <= windowOf(k) && ExpiresAfterLast(slots[k].expireAt, log, windowOf(k), k))
  }

  ghost predicate Sound(slots: Slots, log: Log, k: Key) {
    forall m :: m in ScoresOf(slots, k) ==> ScoresOf(slots, k)[m] == m.at && Logged(log, k, m)
  }

  ghost predicate Complete(slots: Slots, log: Log, cut: int, k: Key) {
    forall j :: 0 <= j < |log| && log[j].key == k ==> log[j].member in ScoresOf(slots, k) || log[j].member.at <= cut
  }

  ghost predicate Logged(log: Log, k: Key, m: Member) {
    exists j :: 0 <= j < |log| && log[j].key == k && log[j].member == m
  }

  ghost predicate ExpiresAfterLast(expireAt: int, log: Log, window: int, k: Key)
    requires 0 <= window
  {
    exists j :: 0 <= j < |log| && LastAdmission(log, k, j) && expireAt == log[j].serverAt + TimeToLive(window)
  }

  ghost predicate LastAdmission(log: Log, k: Key, j: nat)
    requires j < |log|
  {
    log[j].key == k && forall i :: 0 <= i < |log| && log[i].key == k ==> log[i].member.at <= log[j].member.at
  }

  ghost predicate Stale(log: Log, k: Key, cut: int) {
    forall i :: 0 <= i < |log| && log[i].key == k ==> log[i].member.at <= cut
  }

  /** A key that has expired held only admissions older than its window. */
  lemma {:induction false} ExpiredIsStale(
    slots: Slots, log: Log, run: seq<Request>, windowOf: Key -> int, now: int, k: Key, n: nat)
    requires n < |run| && Legal(run, windowOf) && Dated(log, run, n)
    requires SimulatesKey(slots, log, now, windowOf, k)
    requires k in slots && slots[k].expireAt <= run[n].serverNow
    ensures Stale(log, k, run[n].now - windowOf(k))
  {
    var j :| 0 <= j < |log| && LastAdmission(log, k, j) &&
             slots[k].expireAt == log[j].serverAt + TimeToLive(windowOf(k));
    var r := log[j].request;
    assert run[n].serverNow - run[r].serverNow <= run[n].now - run[r].now + 1000;
    assert TimeToLive(windowOf(k)) >= windowOf(k) + 1000;
  }

  lemma {:induction false} PrunedIsLogged(scores: Scores, log: Log, k: Key, cut: int)
    requires forall m :: m in scores ==> scores[m] == m.at && 0 <= m.at && Logged(log, k, m)
    requires forall j :: 0 <= j < |log| && log[j].key == k ==> log[j].member in scores || log[j].member.at <= cut
    ensures Prune(scores, cut) == Timed(MembersAfter(log, k, cut))
  {
    var kept := MembersAfter(log, k, cut);
    forall m | m in Prune(scores, cut) ensures m in kept {
      assert Logged(log, k, m);
    }
    assert Prune(scores, cut).Keys == kept;
  }

  /** What the store shows for a key is exactly what the unbounded log holds in the window. */
  lemma {:induction false} StoreShowsLog(slots: Slots, log: Log, windowOf: Key -> int, now: int, k: Key, req: Request)
    requires SimulatesKey(slots, log, now, windowOf, k) && windowOf(k) == req.window && now <= req.now
    requires forall j :: 0 <= j < |log| ==> 0 <= log[j].member.at
    requires k in slots && slots[k].expireAt <= req.serverNow ==> Stale(log, k, req.now - req.window)
    ensures Prune(ScoresOf(Expire(slots, req.serverNow), k), req.now - req.window) ==
            Timed(MembersAfter(log, k, req.now - req.window))
  {
    var scores := ScoresOf(Expire(slots, req.serverNow), k);
    forall m | m in scores ensures 0 <= m.at && Logged(log, k, m) {
      assert m in ScoresOf(slots, k);
    }
    PrunedIsLogged(scores, log, k, req.now - req.window);
  }

  lemma {:induction false} StillSimulatesPruned(
    slots: Slots, log: Log, windowOf: Key -> int, now: int, k: Key, req: Request, n: nat)
    requires n <= |req.keys| && OwnWindows(req, windowOf) && now <= req.now
    requires SimulatesKey(slots, log, now, windowOf, k)
    requires k in slots && slots[k].expireAt <= req.serverNow ==> Stale(log, k, req.now - windowOf(k))
    ensures SimulatesKey(PruneKeys(Expire(slots, req.serverNow), req, n), log, req.now, windowOf, k)
  {
    PruneKeysScores(Expire(slots, req.serverNow), req, n, k);
  }

  /** Which admissions a key gains when the script adds all keys of a request. */
  lemma {:induction false} AddKeysScores(slots: Slots, req: Request, n: nat, k: Key)
    requires WellFormed(req) && n <= |req.keys|
    ensures forall m :: m in ScoresOf(AddKeys(slots, req, n), k) <==> m in ScoresOf(slots, k) || Adds(req, n, k, m)
    ensures forall m :: m in ScoresOf(AddKeys(slots, req, n), k) ==>
              ScoresOf(AddKeys(slots, req, n), k)[m] == m.at ||
              (m in ScoresOf(slots, k) && ScoresOf(AddKeys(slots, req, n), k)[m] == ScoresOf(slots, k)[m])
    ensures k in AddKeys(slots, req, n) ==>
              if exists i :: 0 <= i < n && req.keys[i].key == k
              then AddKeys(slots, req, n)[k].expireAt == req.serverNow + TimeToLive(req.window)
              else k in slots && AddKeys(slots, req, n)[k] == slots[k]
  {
    if n > 0 {
      AddKeysScores(slots, req, n - 1, k);
      if req.keys[n - 1].key == k {
        forall m | m in ScoresOf(AddKeys(slots, req, n), k)
          ensures m in ScoresOf(slots, k) || Adds(req, n, k, m)
        {
          if m == MemberAt(req, n - 1) { assert Adds(req, n, k, m); }
        }
      }
    }
  }

  ghost predicate Adds(req: Request, n: nat, k: Key, m: Member)
    requires WellFormed(req) && n <= |req.keys|
  {
    m.index < n && req.keys[m.index].key == k && m == MemberAt(req, m.index)
  }

  lemma {:induction false} AddedIsSound(slots: Slots, log: Log, k: Key, req: Request, number: nat)
    requires WellFormed(req) && Sound(slots, log, k)
    ensures Sound(AddKeys(slots, req, |req.keys|), log + Admissions(req, number), k)
  {
    hide AddKeys, ScoresOf;
    var n := |req.keys|;
    var slots', log' := AddKeys(slots, req, n), log + Admissions(req, number);
    AddKeysScores(slots, req, n, k);
    forall m | m in ScoresOf(slots', k) ensures Logged(log', k, m) {
      if m in ScoresOf(slots, k) {
        var j :| 0 <= j < |log| && log[j].key == k && log[j].member == m;
        assert log'[j] == log[j];
      } else {
        assert log'[|log| + m.index] == Admission(k, m, req.serverNow, number);
      }
    }
  }

  lemma {:induction false} AddedIsComplete(slots: Slots, log: Log, cut: int, k: Key, req: Request, number: nat)
    requires WellFormed(req) && Complete(slots, log, cut, k)
    ensures Complete(AddKeys(slots, req, |req.keys|), log + Admissions(req, number), cut, k)
  {
    hide AddKeys, ScoresOf;
    var n := |req.keys|;
    var slots', log' := AddKeys(slots, req, n), log + Admissions(req, number);
    AddKeysScores(slots, req, n, k);
    forall j | 0 <= j < |log'| && log'[j].key == k
      ensures log'[j].member in ScoresOf(slots', k) || log'[j].member.at <= cut
    {
      if |log| <= j {
        assert log'[j] == Admission(k, MemberAt(req, j - |log|), req.serverNow, number);
        assert Adds(req, n, k, log'[j].member);
      } else {
        assert log'[j] == log[j];
      }
    }
  }

  lemma {:induction false} StillSimulatesAdded(
    slots: Slots, log: Log, windowOf: Key -> int, k: Key, req: Request, number: nat)
    requires WellFormed(req) && OwnWindows(req, windowOf)
    requires SimulatesKey(slots, log, req.now, windowOf, k)
    requires forall j :: 0 <= j < |log| ==> log[j].member.at <= req.now
    ensures SimulatesKey(AddKeys(slots, req, |req.keys|), log + Admissions(req, number), req.now, windowOf, k)
  {
    hide AddKeys, ScoresOf, Sound, Complete;
    var n := |req.keys|;
    var slots', log' := AddKeys(slots, req, n), log + Admissions(req, number);
    AddedIsSound(slots, log, k, req, number);
    AddedIsComplete(slots, log, req.now - windowOf(k), k, req, number);
    AddKeysScores(slots, req, n, k);
    if k in slots' {
      if i :| 0 <= i < n && req.keys[i].key == k {
        assert log'[|log| + i] == Admission(k, MemberAt(req, i), req.serverNow, number);
        assert LastAdmission(log', k, |log| + i);
        assert ExpiresAfterLast(slots'[k].expireAt, log', windowOf(k), k);
      } else {
        var j :| 0 <= j < |log| && LastAdmission(log, k, j) &&
                 slots[k].expireAt == log[j].serverAt + TimeToLive(windowOf(k));
        assert LastAdmission(log', k, j);
      }
    }
  }

  ghost function Clock(run: seq<Request>, n: nat): int
    requires n <= |run|
  {
    if n == 0 then 0 else run[n - 1].now
  }

  lemma {:induction false} LogIsPast(log: Log, run: seq<Request>, n: nat, windowOf: Key -> int)
    requires n < |run| && Legal(run, windowOf) && Dated(log, run, n)
    ensures forall j :: 0 <= j < |log| ==> 0 <= log[j].member.at <= run[n].now
  {
    forall j | 0 <= j < |log| ensures 0 <= log[j].member.at <= run[n].now {
      assert run[log[j].request].now <= run[n].now;
    }
  }

  /** One request: the store shows what the log holds, and what every expired key held was stale. */
  lemma {:induction false} StepShows(slots: Slots, log: Log, run: seq<Request>, n: nat, windowOf: Key -> int)
    requires n < |run| && Legal(run, windowOf) && Dated(log, run, n)
    requires Simulates(slots, log, Clock(run, n), windowOf)
    requires forall j :: 0 <= j < |log| ==> 0 <= log[j].member.at <= run[n].now
    ensures StoreLives(slots, run[n]) == LogLives(log, run[n])
    ensures forall k :: k in slots && slots[k].expireAt <= run[n].serverNow ==> Stale(log, k, run[n].now - windowOf(k))
  {
    hide MemberAt, Dated, SimulatesKey, Prune, Expire, Timed, MembersAfter, Stale, ScoresOf;
    var req, now := run[n], Clock(run, n);
    forall k | k in slots && slots[k].expireAt <= req.serverNow ensures Stale(log, k, req.now - windowOf(k)) {
      assert SimulatesKey(slots, log, now, windowOf, k);
      ExpiredIsStale(slots, log, run, windowOf, now, k, n);
    }
    forall i | 0 <= i < |req.keys|
      ensures StoreLives(slots, req)[req.keys[i].key] == LogLives(log, req)[req.keys[i].key]
    {
      assert SimulatesKey(slots, log, now, windowOf, req.keys[i].key);
      StoreShowsLog(slots, log, windowOf, now, req.keys[i].key, req);
    }
  }

  lemma {:induction false} StepSimulates(slots: Slots, log: Log, run: seq<Request>, n: nat, windowOf: Key -> int)
    requires n < |run| && Legal(run, windowOf) && Dated(log, run, n)
    requires Simulates(slots, log, Clock(run, n), windowOf)
    ensures ScriptReply(slots, run[n]) == LogReply(log, run[n])
    ensures Simulates(ScriptStep(slots, run[n]), LogStep(log, run[n], n), run[n].now, windowOf)
    ensures Dated(LogStep(log, run[n], n), run, n + 1)
  {
    hide SimulatesKey, AddKeys, PruneKeys, Expire, Decide, StoreLives, LogLives, Stale, OwnWindows;
    LogIsPast(log, run, n, windowOf);
    StepShows(slots, log, run, n, windowOf);
    var req, now := run[n], Clock(run, n);
    var outcome := Decide(req, StoreLives(slots, req), 0, Start(req));
    DecideMeaning(req, StoreLives(slots, req), 0, Start(req));
    forall k ensures SimulatesKey(ScriptStep(slots, req), LogStep(log, req, n), req.now, windowOf, k) {
      assert SimulatesKey(slots, log, now, windowOf, k);
      StillSimulatesPruned(slots, log, windowOf, now, k, req, outcome.scanned);
      if outcome.reply.allowed {
        StillSimulatesAdded(PruneKeys(Expire(slots, req.serverNow), req, outcome.scanned), log, windowOf, k, req, n);
      }
    }
  }

  lemma {:induction false} RunStarts(run: seq<Request>, windowOf: Key -> int)
    requires Legal(run, windowOf)
    ensures Dated(RunLog(run, 0), run, 0)
    ensures Simulates(RunSlots(run, 0), RunLog(run, 0), Clock(run, 0), windowOf)
  {
  }

  lemma {:induction false} RunSimulates(run: seq<Request>, n: nat, windowOf: Key -> int)
    requires n <= |run| && Legal(run, windowOf)
    ensures Dated(RunLog(run, n), run, n)
    ensures Simulates(RunSlots(run, n), RunLog(run, n), Clock(run, n), windowOf)
  {
    hide ScriptStep, LogStep, Simulates, Dated, OwnWindows, WellFormed, LogReply, ScriptReply;
    if n == 0 {
      RunStarts(run, windowOf);
    } else {
      RunSimulates(run, n - 1, windowOf);
      StepSimulates(RunSlots(run, n - 1), RunLog(run, n - 1), run, n - 1, windowOf);
    }
  }

  /**
   Over every legal run the script answers exactly like the log that never forgets: the same
   decision, remainder, reset time and limit for every request.
   */
  lemma {:induction false} ScriptRefinesLog(run: seq<Request>, n: nat, windowOf: Key -> int)
    requires n < |run| && Legal(run, windowOf)
    ensures ScriptReply(RunSlots(run, n), run[n]) == LogReply(RunLog(run, n), run[n])
  {
    RunSimulates(run, n, windowOf);
    StepSimulates(RunSlots(run, n), RunLog(run, n), run, n, windowOf);
  }

  // ---------------------------------------------------------------- counting admissions

  /** How many logged admissions of k fall in the half-open interval (lo, hi]. */
  ghost function Count(log: Log, k: Key, lo: int, hi: int): nat {
    if |log| == 0 then 0
    else Count(log[..|log| - 1], k, lo, hi) + if Falls(log[|log| - 1], k, lo, hi) then 1 else 0
  }

  ghost predicate Falls(a: Admission, k: Key, lo: int, hi: int) {
    a.key == k && lo < a.member.at <= hi
  }

  /** Two admissions of one key never share a sorted-set member. */
  ghost predicate Distinct(log: Log) {
    forall i, j :: 0 <= i < j < |log| && log[i].key == log[j].key ==> log[i].member != log[j].member
  }

  /** Dropping the last admission drops at most its own member. */
  lemma {:induction false} MembersSplit(log: Log, k: Key, lo: int)
    requires |log| > 0
    ensures var rest, last := log[..|log| - 1], log[|log| - 1];
            MembersAfter(log, k, lo) ==
            MembersAfter(rest, k, lo) + if last.key == k && lo < last.member.at then {last.member} else {}
  {
    var rest, last := log[..|log| - 1], log[|log| - 1];
    forall m | m in MembersAfter(rest, k, lo) ensures m in MembersAfter(log, k, lo) {
      var j :| 0 <= j < |rest| && rest[j].key == k && rest[j].member.at > lo && rest[j].member == m;
      assert log[j] == rest[j];
    }
    forall j | 0 <= j < |log| && log[j].key == k && log[j].member.at > lo
      ensures log[j].member in MembersAfter(rest, k, lo) || log[j].member == last.member
    {
      if j < |rest| { assert rest[j] == log[j]; }
    }
  }

  lemma {:induction false} MembersBoundedByCount(log: Log, k: Key, lo: int, hi: int)
    requires forall j :: 0 <= j < |log| ==> log[j].member.at <= hi
    ensures |MembersAfter(log, k, lo)| <= Count(log, k, lo, hi)
    ensures Distinct(log) ==> |MembersAfter(log, k, lo)| == Count(log, k, lo, hi)
  {
    if |log| == 0 {
      assert MembersAfter(log, k, lo) == {};
    } else {
      var rest, last := log[..|log| - 1], log[|log| - 1];
      MembersBoundedByCount(rest, k, lo, hi);
      MembersSplit(log, k, lo);
      if Distinct(log) && Falls(last, k, lo, hi) {
        assert last.member !in MembersAfter(rest, k, lo);
      }
    }
  }

  /** The nonces of two requests made in the same millisecond differ, index by index. */
  ghost predicate FreshNonces(run: seq<Request>) {
    forall i, j :: 0 <= i < j < |run| && run[i].now == run[j].now ==> NoncesDiffer(run[i], run[j])
  }

  ghost predicate NoncesDiffer(one: Request, other: Request) {
    forall h :: 0 <= h < |one.nonces| && h < |other.nonces| ==> one.nonces[h] != other.nonces[h]
  }

  lemma {:induction false} DistinctGrows(log: Log, run: seq<Request>, n: nat)
    requires n < |run| && WellFormed(run[n]) && FreshNonces(run)
    requires Distinct(log) && Dated(log, run, n)
    ensures Distinct(log + Admissions(run[n], n))
  {
    var req := run[n];
    var grown := log + Admissions(req, n);
    forall i, j | 0 <= i < j < |grown| && grown[i].key == grown[j].key
      ensures grown[i].member != grown[j].member
    {
      if i < |log| <= j {
        assert grown[i] == log[i] && DatedBy(log[i], run[log[i].request]);
        assert grown[j].member == MemberAt(req, j - |log|);
        if req.now == run[log[i].request].now { assert NoncesDiffer(run[log[i].request], req); }
      } else if i < |log| {
        assert grown[i] == log[i] && grown[j] == log[j];
      } else {
        assert grown[i].member.index == i - |log| && grown[j].member.index == j - |log|;
      }
    }
  }

  lemma {:induction false} DistinctStep(log: Log, run: seq<Request>, n: nat)
    requires n < |run| && WellFormed(run[n]) && FreshNonces(run)
    requires Distinct(log) && Dated(log, run, n)
    ensures Distinct(LogStep(log, run[n], n))
  {
    hide LogReply, Admissions, Distinct, Dated, FreshNonces;
    DistinctGrows(log, run, n);
  }

  lemma NoneIsDistinct()
    ensures Distinct([])
  {
  }

  lemma {:induction false} FreshNoncesKeepMembersDistinct(run: seq<Request>, n: nat, windowOf: Key -> int)
    requires n <= |run| && Legal(run, windowOf) && FreshNonces(run)
    ensures Distinct(RunLog(run, n))
  {
    hide LogReply, LogStep, ScriptStep, Simulates, Dated, Distinct, FreshNonces, OwnWindows, WellFormed;
    if n == 0 {
      NoneIsDistinct();
    } else {
      FreshNoncesKeepMembersDistinct(run, n - 1, windowOf);
      RunSimulates(run, n - 1, windowOf);
      DistinctStep(RunLog(run, n - 1), run, n - 1);
    }
  }

  /** The log admits a request exactly when every key has fewer past admissions in its window than its limit. */
  lemma {:induction false} LogAdmitsBelowLimits(log: Log, req: Request)
    requires Distinct(log)
    requires forall j :: 0 <= j < |log| ==> log[j].member.at <= req.now
    ensures LogReply(log, req).allowed <==>
            forall i :: 0 <= i < |req.keys| ==>
              Count(log, req.keys[i].key, req.now - req.window, req.now) < req.keys[i].limit
  {
    hide LogLives, Distinct, Count;
    var lives := LogLives(log, req);
    DecideMeaning(req, lives, 0, Start(req));
    forall i | 0 <= i < |req.keys|
      ensures Below(req, lives, i) <==>
              Count(log, req.keys[i].key, req.now - req.window, req.now) < req.keys[i].limit
    {
      LiveSize(log, req, i);
    }
  }

  lemma {:induction false} LiveSize(log: Log, req: Request, i: nat)
    requires i < |req.keys| && Distinct(log)
    requires forall j :: 0 <= j < |log| ==> log[j].member.at <= req.now
    ensures |LogLives(log, req)[req.keys[i].key]| == Count(log, req.keys[i].key, req.now - req.window, req.now)
  {
    hide Distinct, Count;
    var k, cut := req.keys[i].key, req.now - req.window;
    MembersBoundedByCount(log, k, cut, req.now);
    assert Timed(MembersAfter(log, k, cut)).Keys == MembersAfter(log, k, cut);
  }

  /**
   The script itself: over every legal run with fresh random parts it admits exactly when every key is below its limit.
   */
  lemma {:induction false} ScriptAdmitsIff(run: seq<Request>, n: nat, windowOf: Key -> int)
    requires n < |run| && Legal(run, windowOf) && FreshNonces(run)
    ensures ScriptReply(RunSlots(run, n), run[n]).allowed <==>
            forall i :: 0 <= i < |run[n].keys| ==>
              Count(RunLog(run, n), run[n].keys[i].key, run[n].now - run[n].window, run[n].now) < run[n].keys[i].limit
  {
    hide ScriptReply, LogReply, RunSlots, RunLog, Count, Distinct, FreshNonces, Simulates, Dated;
    ScriptRefinesLog(run, n, windowOf);
    FreshNoncesKeepMembersDistinct(run, n, windowOf);
    RunSimulates(run, n, windowOf);
    LogIsPast(RunLog(run, n), run, n, windowOf);
    LogAdmitsBelowLimits(RunLog(run, n), run[n]);
  }

  /** And what it admits is what the log records: one admission per key, exactly when the script says yes. */
  lemma {:induction false} LogFollowsScript(run: seq<Request>, n: nat, windowOf: Key -> int)
    requires n < |run| && Legal(run, windowOf)
    ensures RunLog(run, n + 1) ==
            RunLog(run, n) + if ScriptReply(RunSlots(run, n), run[n]).allowed then Admissions(run[n], n) else []
  {
    hide ScriptReply, LogReply, RunSlots, Admissions;
    ScriptRefinesLog(run, n, windowOf);
  }
}
