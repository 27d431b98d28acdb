/**
 Meeting transcripts (migrations 87 and 91): de-duplication of provider events, and the pass that
 turns absolute millisecond stamps into offsets from the meeting's origin.
 */
module Transcripts {
  import opened Text

  datatype Segment = Segment(
    meeting: string, provider: string, event: string, translated: bool, isFinal: bool, created: nat,
    start: int, end: int)

  type Segments = map<nat, Segment>

  // ---------------------------------------------------------------- one row per event

  const NUL: char := '\U{0000}'

  function EventKey(s: Segment): string {
    s.meeting + [NUL] + (s.provider + [NUL] + s.event)
  }

  predicate SameEvent(a: Segment, b: Segment) {
    a.meeting == b.meeting && a.provider == b.provider && a.event == b.event
  }

  predicate PlainText(s: Segment) {
    NUL !in s.meeting && NUL !in s.provider
  }

  /** Keys stand for events when the columns hold no NUL character, which the database does not store in text. */
  lemma {:induction false} KeysStandForEvents(a: Segment, b: Segment)
    requires PlainText(a) && PlainText(b)
    ensures EventKey(a) == EventKey(b) <==> SameEvent(a, b)
  {
    if EventKey(a) == EventKey(b) {
      SplitUnique(a.meeting, a.provider + [NUL] + a.event, b.meeting, b.provider + [NUL] + b.event, NUL);
      SplitUnique(a.provider, a.event, b.provider, b.event, NUL);
    }
  }

  /** The query order within one event: translated first, then final, then by age, then by id. */
  predicate Better(t: Segments, a: nat, b: nat)
    requires a in t && b in t
  {
    if t[a].translated != t[b].translated then t[a].translated
    else if t[a].isFinal != t[b].isFinal then t[a].isFinal
    else if t[a].created != t[b].created then t[a].created < t[b].created
    else a < b
  }

  /** Read as an order: the first column that differs decides. */
  lemma BetterMeans(t: Segments, a: nat, b: nat)
    requires a in t && b in t
    ensures Better(t, a, b) <==>
            || (t[a].translated && !t[b].translated)
            || (t[a].translated == t[b].translated && t[a].isFinal && !t[b].isFinal)
            || (t[a].translated == t[b].translated && t[a].isFinal == t[b].isFinal && t[a].created < t[b].created)
            || (t[a].translated == t[b].translated && t[a].isFinal == t[b].isFinal && t[a].created == t[b].created &&
                a < b)
  {
  }

  ghost predicate Lists(t: Segments, rows: seq<nat>) {
    && (forall i :: 0 <= i < |rows| ==> rows[i] in t)
    && (forall id :: id in t ==> id in rows)
    && (forall i, j :: 0 <= i < j < |rows| ==> rows[i] != rows[j])
  }

  ghost predicate Ordered(t: Segments, rows: seq<nat>)
    requires Lists(t, rows)
  {
    forall i, j :: 0 <= i < j < |rows| && SameEvent(t[rows[i]], t[rows[j]]) ==> Better(t, rows[i], rows[j])
  }

  // An earlier row has the key of row j.
  ghost predicate Repeats(t: Segments, rows: seq<nat>, j: nat)
    requires Lists(t, rows) && j < |rows|
  {
    exists i :: 0 <= i < j && EventKey(t[rows[i]]) == EventKey(t[rows[j]])
  }

  ghost function RepeatedIds(t: Segments, rows: seq<nat>, n: nat): set<nat>
    requires Lists(t, rows) && n <= |rows|
  {
    set j | 0 <= j < n && Repeats(t, rows, j) :: rows[j]
  }

  lemma RepeatStep(t: Segments, rows: seq<nat>, n: nat)
    requires Lists(t, rows) && n < |rows|
    ensures RepeatedIds(t, rows, n + 1) == RepeatedIds(t, rows, n) + if Repeats(t, rows, n) then {rows[n]} else {}
  {
    hide Repeats;
  }

  method DedupeEvents(t: Segments, rows: seq<nat>) returns (after: Segments)
    requires Lists(t, rows)
    ensures after == t - RepeatedIds(t, rows, |rows|)
  {
    hide EventKey, Repeats, RepeatedIds;
    var seen: set<string> := {};
    var duplicates: set<nat> := {};
    NothingRepeated(t, rows);
    for i := 0 to |rows|
      invariant forall key :: key in seen <==> exists h :: 0 <= h < i && EventKey(t[rows[h]]) == key
      invariant duplicates == RepeatedIds(t, rows, i)
    {
      var key := EventKey(t[rows[i]]);
      RepeatStep(t, rows, i);
      RepeatsMeans(t, rows, i);
      if key in seen {
        duplicates := duplicates + {rows[i]};
      } else {
        seen := seen + {key};
      }
    }
    after := t - duplicates;
  }

  lemma NothingRepeated(t: Segments, rows: seq<nat>)
    requires Lists(t, rows)
    ensures RepeatedIds(t, rows, 0) == {}
  {
  }

  lemma RepeatsMeans(t: Segments, rows: seq<nat>, j: nat)
    requires Lists(t, rows) && j < |rows|
    ensures Repeats(t, rows, j) <==> exists i :: 0 <= i < j && EventKey(t[rows[i]]) == EventKey(t[rows[j]])
  {
  }

  ghost function Deduped(t: Segments, rows: seq<nat>): Segments
    requires Lists(t, rows)
  {
    t - RepeatedIds(t, rows, |rows|)
  }

  // No row of the same event comes before it in the query order.
  ghost predicate Best(t: Segments, id: nat)
    requires id in t
  {
    forall other :: other in t && other != id && SameEvent(t[other], t[id]) ==> Better(t, id, other)
  }

  lemma {:induction false} BestIsFirst(t: Segments, rows: seq<nat>, j: nat)
    requires Lists(t, rows) && Ordered(t, rows) && j < |rows| && forall id :: id in t ==> PlainText(t[id])
    ensures Best(t, rows[j]) <==> !Repeats(t, rows, j)
  {
    hide EventKey, PlainText, SameEvent;
    forall i | 0 <= i < |rows|
      ensures EventKey(t[rows[i]]) == EventKey(t[rows[j]]) <==> SameEvent(t[rows[i]], t[rows[j]])
    {
      assert rows[i] in t && rows[j] in t;
      KeysStandForEvents(t[rows[i]], t[rows[j]]);
    }
    if Repeats(t, rows, j) {
      var i :| 0 <= i < j && EventKey(t[rows[i]]) == EventKey(t[rows[j]]);
      assert Better(t, rows[i], rows[j]);
      assert !Better(t, rows[j], rows[i]);
    } else {
      forall other | other in t && other != rows[j] && SameEvent(t[other], t[rows[j]])
        ensures Better(t, rows[j], other)
      {
        var i :| 0 <= i < |rows| && rows[i] == other;
        assert j < i;
        SameEventSymmetric(t[other], t[rows[j]]);
      }
    }
  }

  lemma SameEventSymmetric(a: Segment, b: Segment)
    ensures SameEvent(a, b) == SameEvent(b, a)
  {
  }

  /** Exactly the best row of each event stays. */
  lemma {:induction false} BestRowStays(t: Segments, rows: seq<nat>, id: nat)
    requires Lists(t, rows) && Ordered(t, rows) && id in t && forall x :: x in t ==> PlainText(t[x])
    ensures id in Deduped(t, rows) <==> Best(t, id)
  {
    hide Repeats, Best, PlainText, Ordered;
    var j :| 0 <= j < |rows| && rows[j] == id;
    BestIsFirst(t, rows, j);
    forall i | 0 <= i < |rows| && rows[i] == id ensures i == j {
    }
  }

  /** No two remaining rows share the columns of the unique index. */
  lemma {:induction false} EventsAreUnique(t: Segments, rows: seq<nat>, a: nat, b: nat)
    requires Lists(t, rows) && a in Deduped(t, rows) && b in Deduped(t, rows) && SameEvent(t[a], t[b])
    ensures a == b
  {
    var i :| 0 <= i < |rows| && rows[i] == a;
    var j :| 0 <= j < |rows| && rows[j] == b;
    assert !Repeats(t, rows, i) && !Repeats(t, rows, j);
    assert EventKey(t[rows[i]]) == EventKey(t[rows[j]]);
  }

  lemma {:induction false} FirstOfKey(t: Segments, rows: seq<nat>, j: nat) returns (i: nat)
    requires Lists(t, rows) && j < |rows|
    ensures i <= j && EventKey(t[rows[i]]) == EventKey(t[rows[j]]) && !Repeats(t, rows, i)
    decreases j
  {
    hide EventKey;
    i := j;
    if Repeats(t, rows, j) {
      var h :| 0 <= h < j && EventKey(t[rows[h]]) == EventKey(t[rows[j]]);
      i := FirstOfKey(t, rows, h);
    }
  }

  /** Every event keeps a row, unchanged, and a translated one if it had any. */
  lemma {:induction false} EveryEventKeepsOne(t: Segments, rows: seq<nat>, id: nat) returns (kept: nat)
    requires Lists(t, rows) && Ordered(t, rows) && id in t && forall x :: x in t ==> PlainText(t[x])
    ensures kept in Deduped(t, rows) && Deduped(t, rows)[kept] == t[kept] && SameEvent(t[kept], t[id])
    ensures t[id].translated ==> t[kept].translated
  {
    hide EventKey, Repeats, SameEvent, PlainText;
    var j :| 0 <= j < |rows| && rows[j] == id;
    var i := FirstOfKey(t, rows, j);
    kept := rows[i];
    KeysStandForEvents(t[rows[i]], t[rows[j]]);
    forall h | 0 <= h < |rows| && rows[h] == kept ensures h == i {
    }
    assert i < j ==> Better(t, rows[i], rows[j]);
  }

  // ---------------------------------------------------------------- offsets

  /** Seven days in milliseconds: anything larger is an absolute stamp. */
  const THRESHOLD: int := 604_800_000

  predicate Rebases(value: int, origin: int) {
    value > THRESHOLD && 0 <= value - origin <= THRESHOLD
  }

  function Rebase(value: int, origin: int): int {
    if Rebases(value, origin) then value - origin else value
  }

  predicate Selected(s: Segment) {
    s.start > THRESHOLD || s.end > THRESHOLD
  }

  /** One row of the pass; meetings without an origin are skipped. */
  function Normal(s: Segment, origins: map<string, int>): Segment {
    if !Selected(s) || s.meeting !in origins then s
    else
      var origin := origins[s.meeting];
      if !Rebases(s.start, origin) && !Rebases(s.end, origin) then s
      else
        var start, end := Rebase(s.start, origin), Rebase(s.end, origin);
        s.(start := start, end := if end < start then start else end)
  }

  function NormalAll(t: Segments, origins: map<string, int>): Segments {
    map id | id in t :: Normal(t[id], origins)
  }

  method NormalizeOffsets(t: Segments, rows: seq<nat>, origins: map<string, int>) returns (after: Segments)
    requires (forall i :: 0 <= i < |rows| ==> rows[i] in t && Selected(t[rows[i]])) &&
             forall id :: id in t && Selected(t[id]) ==> id in rows
    requires forall i, j :: 0 <= i < j < |rows| ==> rows[i] != rows[j]
    ensures after == NormalAll(t, origins)
  {
    after := t;
    for i := 0 to |rows|
      invariant after.Keys == t.Keys
      invariant forall id :: id in t ==> after[id] == if id in rows[..i] then Normal(t[id], origins) else t[id]
    {
      var s := t[rows[i]];
      assert rows[i] !in rows[..i];
      if s.meeting in origins {
        var origin := origins[s.meeting];
        var start, end := s.start, s.end;
        var startChanged, endChanged := false, false;
        if s.start > THRESHOLD && 0 <= s.start - origin && s.start - origin <= THRESHOLD {
          start, startChanged := s.start - origin, true;
        }
        if s.end > THRESHOLD && 0 <= s.end - origin && s.end - origin <= THRESHOLD {
          end, endChanged := s.end - origin, true;
        }
        if startChanged || endChanged {
          if end < start {
            end := start;
          }
          after := after[rows[i] := s.(start := start, end := end)];
        }
      }
    }
  }

  /** An absolute stamp of the first seven days after the origin. */
  ghost predicate Absolute(value: int, origin: int) {
    604_800_000 < value && origin <= value <= origin + 604_800_000
  }

  ghost function Offset(value: int, origin: int): int {
    if Absolute(value, origin) then value - origin else value
  }

  /** Both stamps become offsets where they are absolute, and a changed row never ends before it starts. */
  lemma {:induction false} NormalMeans(s: Segment, origins: map<string, int>)
    ensures var r := Normal(s, origins);
            if s.meeting in origins && (Absolute(s.start, origins[s.meeting]) || Absolute(s.end, origins[s.meeting]))
            then
              var start, end := Offset(s.start, origins[s.meeting]), Offset(s.end, origins[s.meeting]);
              r == s.(start := start, end := r.end) && r.end >= start && r.end >= end &&
              (r.end == start || r.end == end)
            else r == s
  {
  }

  /** Every row the pass changes ends with its start no later than its end. */
  lemma ChangedRowsAreOrdered(s: Segment, origins: map<string, int>)
    requires Normal(s, origins) != s
    ensures Normal(s, origins).start <= Normal(s, origins).end
  {
  }

  /** When both ends of an ordered row are rebased the duration is preserved and both land in the first seven days. */
  lemma DurationIsKept(s: Segment, origins: map<string, int>)
    requires s.meeting in origins && s.start <= s.end && Rebases(s.start, origins[s.meeting]) &&
             Rebases(s.end, origins[s.meeting])
    ensures var r := Normal(s, origins); r.end - r.start == s.end - s.start && 0 <= r.start <= r.end <= THRESHOLD
  {
  }

  /** Migration 91 repeats the pass; with the same origins it changes nothing. */
  lemma {:induction false} SecondPassIsQuiet(t: Segments, origins: map<string, int>)
    ensures NormalAll(NormalAll(t, origins), origins) == NormalAll(t, origins)
  {
    forall id | id in t ensures Normal(Normal(t[id], origins), origins) == Normal(t[id], origins) {
      NormalTwice(t[id], origins);
    }
  }

  lemma {:induction false} NormalTwice(s: Segment, origins: map<string, int>)
    ensures Normal(Normal(s, origins), origins) == Normal(s, origins)
  {
  }

  /** A row after the first n passes, each with its own reading of the origins. */
  ghost function AfterPasses(s: Segment, passes: seq<map<string, int>>, n: nat): Segment
    requires n <= |passes|
  {
    if n == 0 then s else Normal(AfterPasses(s, passes, n - 1), passes[n - 1])
  }

  ghost predicate MovedBy(s: Segment, r: Segment, passes: seq<map<string, int>>, k: nat) {
    k < |passes| && s.meeting in passes[k] && Rebases(s.start, passes[k][s.meeting]) &&
    r.start == s.start - passes[k][s.meeting]
  }

  /** Whatever origins later passes read, as after the time zone repair, a start is rebased at most once. */
  lemma {:induction false} StartMovesOnce(s: Segment, passes: seq<map<string, int>>, n: nat)
    requires n <= |passes|
    ensures var r := AfterPasses(s, passes, n);
            r.meeting == s.meeting && (r.start == s.start || exists k: nat :: MovedBy(s, r, passes, k))
  {
    if n > 0 {
      StartMovesOnce(s, passes, n - 1);
      var before, r := AfterPasses(s, passes, n - 1), AfterPasses(s, passes, n);
      if before.start == s.start {
        if r.start != s.start { assert MovedBy(s, r, passes, n - 1); }
      } else {
        var k: nat :| MovedBy(s, before, passes, k);
        assert r.start == before.start;
        assert MovedBy(s, r, passes, k);
      }
    }
  }
}
