/**
 The sliding-window rate limiter that runs as one atomic script inside Redis
 (internal/middleware/rate_limit.go). Every key owns a sorted set of admissions; the script prunes,
 counts, and only when every key is below its limit adds one admission per key. Keys also expire.

 The script is compared with a log that never forgets anything.
 */
module SlidingWindow {
  import opened RateLimit
  import Tables

  /** A sorted-set member is the text "now:index:random"; its parts cannot contain the separator. */
  datatype Member = Member(at: int, index: nat, nonce: int)

  type Scores = map<Member, int>

  /** One Redis key: a sorted set and the server time at which it disappears. */
  datatype Slot = Slot(scores: Scores, expireAt: int)

  type Slots = map<Key, Slot>

  /** `now` is the caller's clock in milliseconds, `serverNow` the clock Redis expires keys by. */
  datatype Request = Request(now: int, serverNow: int, window: int, keys: seq<KeyLimit>, nonces: seq<int>)

  const MAX_REMAINING: int := 2147483647

  predicate WellFormed(req: Request) {
    0 <= req.now && 0 <= req.window && |req.nonces| == |req.keys|
  }

  // ---------------------------------------------------------------- Redis primitives

  /** EXPIRE is given ceil(window / 1000) + 1 seconds. */
  function TimeToLive(window: int): int
    requires 0 <= window
  {
    ((window + 999) / 1000 + 1) * 1000
  }

  /** The fewest whole seconds that last the window, and one more. */
  lemma TimeToLiveLasts(window: int)
    requires 0 <= window
    ensures TimeToLive(window) % 1000 == 0 && TimeToLive(window) - 2000 < window <= TimeToLive(window) - 1000
  {
  }

  function Expire(slots: Slots, serverNow: int): Slots {
    map k | k in slots && serverNow < slots[k].expireAt :: slots[k]
  }

  function ScoresOf(slots: Slots, k: Key): Scores {
    if k in slots then slots[k].scores else map[]
  }

  /** ZREMRANGEBYSCORE key 0 cut */
  function Prune(scores: Scores, cut: int): Scores {
    map m | m in scores && !(0 <= scores[m] <= cut) :: scores[m]
  }

  /** An emptied sorted set stays as an empty one: no command of the script can tell it from a missing key. */
  function PruneKey(slots: Slots, k: Key, cut: int): Slots {
    if k in slots then slots[k := Slot(Prune(slots[k].scores, cut), slots[k].expireAt)] else slots
  }

  /** ZADD key now member, then EXPIRE key ttl. */
  function AddKey(slots: Slots, k: Key, m: Member, expireAt: int): Slots {
    slots[k := Slot(ScoresOf(slots, k)[m := m.at], expireAt)]
  }

  /** ZRANGE key 0 0 WITHSCORES */
  function Oldest(scores: Scores): int
    requires scores != map[]
  {
    ghost var m :| m in scores;
    Tables.LeastExists(scores.Values, scores[m]);
    var x :| x in scores.Values && forall y :: y in scores.Values ==> x <= y;
    x
  }

  lemma {:induction false} OldestIsLeast(scores: Scores)
    requires scores != map[]
    ensures exists m :: m in scores && scores[m] == Oldest(scores)
    ensures forall m :: m in scores ==> Oldest(scores) <= scores[m]
  {
    forall m | m in scores ensures Oldest(scores) <= scores[m] {
      assert scores[m] in scores.Values;
    }
  }

  // ---------------------------------------------------------------- the decision

  function ResetAt(req: Request, live: Scores): int {
    if live == map[] then req.now + req.window else Oldest(live) + req.window
  }

  ghost predicate Covers(lives: map<Key, Scores>, req: Request) {
    forall i :: 0 <= i < |req.keys| ==> req.keys[i].key in lives
  }

  /** The reply of the counting loop and how many keys it pruned: up to and including a refusing one. */
  datatype Outcome = Outcome(reply: Reply, scanned: nat)

  /** One turn of the counting loop: refuse, or keep the smaller remainder. */
  function Weigh(req: Request, i: nat, live: Scores, best: Reply): Reply
    requires i < |req.keys|
  {
    var limit := req.keys[i].limit;
    if |live| >= limit then Reply(false, 0, ResetAt(req, live), limit)
    else if limit - |live| - 1 < best.remaining then Reply(true, limit - |live| - 1, ResetAt(req, live), limit)
    else best
  }

  /** The counting loop from its i-th key on, when key k still holds the live admissions lives[k]. */
  ghost function Decide(req: Request, lives: map<Key, Scores>, i: nat, best: Reply): Outcome
    requires Covers(lives, req) && i <= |req.keys|
    decreases |req.keys| - i
  {
    if i == |req.keys| then Outcome(best, i)
    else
      var r := Weigh(req, i, lives[req.keys[i].key], best);
      if r.allowed then Decide(req, lives, i + 1, r) else Outcome(r, i + 1)
  }

  function Start(req: Request): Reply {
    if |req.keys| == 0 then Reply(true, 0, req.now + req.window, 0)
    else Reply(true, MAX_REMAINING, req.now + req.window, 0)
  }

  ghost function Answer(req: Request, lives: map<Key, Scores>): Reply
    requires Covers(lives, req)
  {
    Decide(req, lives, 0, Start(req)).reply
  }

  ghost predicate Below(req: Request, lives: map<Key, Scores>, i: nat)
    requires Covers(lives, req) && i < |req.keys|
  {
    |lives[req.keys[i].key]| < req.keys[i].limit
  }

  /** An admission needs every key below its limit, and reports the smallest remainder over the keys. */
  lemma {:induction false} DecideMeaning(req: Request, lives: map<Key, Scores>, i: nat, best: Reply)
    requires Covers(lives, req) && i <= |req.keys|
    requires best.allowed && 0 <= best.remaining
    ensures i <= Decide(req, lives, i, best).scanned <= |req.keys|
    ensures var r := Decide(req, lives, i, best).reply;
            && (r.allowed <==> forall j :: i <= j < |req.keys| ==> Below(req, lives, j))
            && (r.allowed ==>
                  && 0 <= r.remaining <= best.remaining
                  && (forall j :: i <= j < |req.keys| ==>
                        r.remaining <= req.keys[j].limit - |lives[req.keys[j].key]| - 1)
                  && (r == best || exists j :: i <= j < |req.keys| && ReportsFirst(req, lives, r, i, j, best)))
            && (!r.allowed ==>
                  exists j :: i <= j < |req.keys| && RefusedBy(req, lives, r, i, j))
    decreases |req.keys| - i
  {
    if i < |req.keys| {
      var live := lives[req.keys[i].key];
      var limit := req.keys[i].limit;
      if |live| >= limit {
        assert !Below(req, lives, i);
        assert RefusedBy(req, lives, Decide(req, lives, i, best).reply, i, i);
      } else {
        var next := Weigh(req, i, live, best);
        DecideMeaning(req, lives, i + 1, next);
        var r := Decide(req, lives, i + 1, next).reply;
        assert Below(req, lives, i);
        if !r.allowed {
          var j :| i + 1 <= j < |req.keys| && RefusedBy(req, lives, r, i + 1, j);
          assert RefusedBy(req, lives, r, i, j);
        } else if r == next {
          if next != best { assert ReportsFirst(req, lives, r, i, i, best); }
        } else {
          var j :| i + 1 <= j < |req.keys| && ReportsFirst(req, lives, r, i + 1, j, next);
          assert ReportsFirst(req, lives, r, i, j, best);
        }
      }
    }
  }

  ghost predicate ReportsKey(req: Request, lives: map<Key, Scores>, r: Reply, j: nat)
    requires Covers(lives, req) && j < |req.keys|
  {
    var live := lives[req.keys[j].key];
    r == Reply(true, req.keys[j].limit - |live| - 1, ResetAt(req, live), req.keys[j].limit)
  }

  /** The admission reports the first key, from i on, with the smallest remainder. */
  ghost predicate ReportsFirst(req: Request, lives: map<Key, Scores>, r: Reply, i: nat, j: nat, best: Reply)
    requires Covers(lives, req) && i <= j < |req.keys|
  {
    && ReportsKey(req, lives, r, j) && r.remaining < best.remaining
    && (forall h :: i <= h < j ==> r.remaining < req.keys[h].limit - |lives[req.keys[h].key]| - 1)
  }

  /** The refusal names the first key, from i on, that has reached its limit. */
  ghost predicate RefusedBy(req: Request, lives: map<Key, Scores>, r: Reply, i: nat, j: nat)
    requires Covers(lives, req) && i <= j < |req.keys|
  {
    && !Below(req, lives, j)
    && (forall h :: i <= h < j ==> Below(req, lives, h))
    && r == Reply(false, 0, ResetAt(req, lives[req.keys[j].key]), req.keys[j].limit)
  }

  // ---------------------------------------------------------------- the script as a step on the store

  function PruneKeys(slots: Slots, req: Request, n: nat): Slots
    requires n <= |req.keys|
  {
    if n == 0 then slots else PruneKey(PruneKeys(slots, req, n - 1), req.keys[n - 1].key, req.now - req.window)
  }

  function AddKeys(slots: Slots, req: Request, n: nat): Slots
    requires WellFormed(req) && n <= |req.keys|
  {
    if n == 0 then slots
    else AddKey(AddKeys(slots, req, n - 1), req.keys[n - 1].key, MemberAt(req, n - 1),
                req.serverNow + TimeToLive(req.window))
  }

  function MemberAt(req: Request, i: nat): Member
    requires i < |req.nonces|
  {
    Member(req.now, i, req.nonces[i])
  }

  /** The admissions that the store still shows as live for each key of a request. */
  ghost function StoreLives(slots: Slots, req: Request): (lives: map<Key, Scores>)
    ensures Covers(lives, req)
  {
    map i | 0 <= i < |req.keys| ::
      req.keys[i].key := Prune(ScoresOf(Expire(slots, req.serverNow), req.keys[i].key), req.now - req.window)
  }

  ghost function ScriptReply(slots: Slots, req: Request): Reply {
    Answer(req, StoreLives(slots, req))
  }

  ghost function ScriptStep(slots: Slots, req: Request): Slots
    requires WellFormed(req)
  {
    var lives := StoreLives(slots, req);
    var outcome := Decide(req, lives, 0, Start(req));
    DecideMeaning(req, lives, 0, Start(req));
    var pruned := PruneKeys(Expire(slots, req.serverNow), req, outcome.scanned);
    if outcome.reply.allowed then AddKeys(pruned, req, |req.keys|) else pruned
  }

  lemma {:induction false} PruneKeysScores(slots: Slots, req: Request, n: nat, k: Key)
    requires n <= |req.keys|
    ensures ScoresOf(PruneKeys(slots, req, n), k) ==
            if exists i :: 0 <= i < n && req.keys[i].key == k
            then Prune(ScoresOf(slots, k), req.now - req.window) else ScoresOf(slots, k)
    ensures k in PruneKeys(slots, req, n) <==> k in slots
    ensures k in slots ==> PruneKeys(slots, req, n)[k].expireAt == slots[k].expireAt
  {
    if n > 0 {
      PruneKeysScores(slots, req, n - 1, k);
      var cut := req.now - req.window;
      var scores := ScoresOf(slots, k);
      assert Prune(Prune(scores, cut), cut) == Prune(scores, cut);
      if req.keys[n - 1].key == k {
        assert Prune(map[], cut) == map[];
      }
    }
  }

  ghost predicate ShownAs(slots: Slots, req: Request, lives: map<Key, Scores>)
    requires Covers(lives, req)
  {
    forall i :: 0 <= i < |req.keys| ==>
      lives[req.keys[i].key] == Prune(ScoresOf(slots, req.keys[i].key), req.now - req.window)
  }

  /** What the script sees of its i-th key after pruning it, whatever it pruned before. */
  lemma {:induction false} LiveAfterPrune(slots: Slots, req: Request, lives: map<Key, Scores>, i: nat)
    requires i < |req.keys| && Covers(lives, req) && ShownAs(slots, req, lives)
    ensures ScoresOf(PruneKeys(slots, req, i + 1), req.keys[i].key) == lives[req.keys[i].key]
  {
    PruneKeysScores(slots, req, i + 1, req.keys[i].key);
  }

  class RedisStore {
    var slots: Slots

    constructor ()
      ensures slots == map[]
    {
      slots := map[];
    }

    /** ZREMRANGEBYSCORE on the i-th key, and the members ZCARD and ZRANGE then see. */
    method PruneOne(req: Request, i: nat, ghost shown: Slots, ghost lives: map<Key, Scores>) returns (live: Scores)
      requires i < |req.keys| && Covers(lives, req) && ShownAs(shown, req, lives)
      requires slots == PruneKeys(shown, req, i)
      modifies this
      ensures slots == PruneKeys(shown, req, i + 1)
      ensures live == lives[req.keys[i].key]
    {
      slots := PruneKey(slots, req.keys[i].key, req.now - req.window);
      LiveAfterPrune(shown, req, lives, i);
      live := ScoresOf(slots, req.keys[i].key);
    }

    /** The counting loop: prune each key, stop at the first one that has reached its limit. */
    method Count(req: Request, ghost lives: map<Key, Scores>) returns (reply: Reply, ghost scanned: nat)
      requires Covers(lives, req) && ShownAs(slots, req, lives)
      modifies this
      ensures scanned <= |req.keys|
      ensures Outcome(reply, scanned) == Decide(req, lives, 0, Start(req))
      ensures slots == PruneKeys(old(slots), req, scanned)
    {
      hide PruneKey, Prune, Weigh, ShownAs, ScoresOf, ResetAt;
      ghost var shown, outcome := slots, Decide(req, lives, 0, Start(req));
      reply := Start(req);
      var i := 0;
      while i < |req.keys| && reply.allowed
        invariant 0 <= i <= |req.keys|
        invariant slots == PruneKeys(shown, req, i)
        invariant outcome == if reply.allowed then Decide(req, lives, i, reply) else Outcome(reply, i)
      {
        var live := PruneOne(req, i, shown, lives);
        reply := Weigh(req, i, live, reply);
        i := i + 1;
      }
      scanned := i;
    }

    /** The adding loop. */
    method Add(req: Request)
      requires WellFormed(req)
      modifies this
      ensures slots == AddKeys(old(slots), req, |req.keys|)
    {
      for i := 0 to |req.keys|
        invariant slots == AddKeys(old(slots), req, i)
      {
        slots := AddKey(slots, req.keys[i].key, MemberAt(req, i), req.serverNow + TimeToLive(req.window));
      }
    }

    /** The whole script. */
    method Run(req: Request) returns (reply: Reply)
      requires WellFormed(req)
      modifies this
      ensures reply == ScriptReply(old(slots), req)
      ensures slots == ScriptStep(old(slots), req)
    {
      ghost var lives := StoreLives(slots, req);
      slots := Expire(slots, req.serverNow);
      ghost var scanned;
      reply, scanned := Count(req, lives);
      if reply.allowed {
        Add(req);
      }
    }
  }
}
