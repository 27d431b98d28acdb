/**
 The merge of duplicate daily fault statistics (migrations 31 and 32): rows are read in id order
 and added up per key; the first row of a key receives the sums, the others are deleted.
 */
module FaultStats {
  import opened Tables

  datatype Key = Key(tenant: int, product: int, model: int, code: string, part: string, component: int, day: string)

  datatype Counts = Counts(tickets: int, repeats: int, lowScores: int, meetings: int, devices: int)

  datatype Stat = Stat(key: Key, counts: Counts)

  type Stats = map<nat, Stat>

  datatype Aggregate = Aggregate(id: nat, counts: Counts, hasDuplicates: bool)

  const ZERO := Counts(0, 0, 0, 0, 0)

  function Plus(a: Counts, b: Counts): Counts {
    Counts(a.tickets + b.tickets, a.repeats + b.repeats, a.lowScores + b.lowScores, a.meetings + b.meetings,
           a.devices + b.devices)
  }

  // ---------------------------------------------------------------- sums

  predicate Listed(t: Stats, ids: seq<nat>) {
    forall i :: 0 <= i < |ids| ==> ids[i] in t
  }

  /** The five counters of a key added up over the first n rows. */
  ghost function SumFirst(t: Stats, ids: seq<nat>, n: nat, key: Key): Counts
    requires Listed(t, ids) && n <= |ids|
  {
    if n == 0 then ZERO
    else
      var before := SumFirst(t, ids, n - 1, key);
      if t[ids[n - 1]].key == key then Plus(before, t[ids[n - 1]].counts) else before
  }

  lemma IdsListed(t: Stats)
    ensures Listed(t, Ascending(t.Keys)) && InOrder(Ascending(t.Keys))
  {
    hide Ascending;
    var ids := Ascending(t.Keys);
    assert forall i :: 0 <= i < |ids| ==> ids[i] in ids;
  }

  /** The five counters of a key added up over the whole table. */
  ghost function Total(t: Stats, key: Key): Counts {
    IdsListed(t);
    SumFirst(t, Ascending(t.Keys), |Ascending(t.Keys)|, key)
  }

  ghost predicate Lowest(t: Stats, id: nat)
    requires id in t
  {
    forall h :: h in t && h < id ==> t[h].key != t[id].key
  }

  /** The lowest row of every key, holding the sums. */
  ghost function Compacted(t: Stats): Stats {
    map id | id in t && Lowest(t, id) :: Stat(t[id].key, Total(t, t[id].key))
  }

  // ---------------------------------------------------------------- the pass

  ghost predicate At(ids: seq<nat>, n: nat, id: nat) {
    exists j :: 0 <= j < n <= |ids| && ids[j] == id
  }

  ghost predicate Grounded(t: Stats, key: Key, a: Aggregate) {
    a.id in t && t[a.id].key == key && (!a.hasDuplicates ==> a.counts == t[a.id].counts)
  }

  // What is known of one key after the first n rows.
  ghost predicate KeySummed(t: Stats, ids: seq<nat>, n: nat, aggregates: map<Key, Aggregate>, key: Key)
    requires Listed(t, ids) && n <= |ids|
  {
    if key in aggregates then
      Grounded(t, key, aggregates[key]) && At(ids, n, aggregates[key].id) &&
      aggregates[key].counts == SumFirst(t, ids, n, key)
    else
      SumFirst(t, ids, n, key) == ZERO
  }

  // What is known of one row read: its key has an aggregate at a row not after it, and the row is set aside unless it
  // is that row.
  ghost predicate RowMet(t: Stats, id: nat, aggregates: map<Key, Aggregate>, duplicates: seq<nat>)
    requires id in t
  {
    var key := t[id].key;
    key in aggregates && aggregates[key].id <= id && (id in duplicates <==> aggregates[key].id != id)
  }

  // The aggregates after the first n rows: one per key met, at its lowest row, with the sums so far.
  ghost predicate Summed(t: Stats, ids: seq<nat>, n: nat, aggregates: map<Key, Aggregate>, duplicates: seq<nat>)
    requires Listed(t, ids) && n <= |ids|
  {
    && (forall key :: KeySummed(t, ids, n, aggregates, key))
    && (forall j :: 0 <= j < n ==> RowMet(t, ids[j], aggregates, duplicates))
    && (forall id :: id in duplicates ==> At(ids, n, id))
  }

  function Absorb(aggregates: map<Key, Aggregate>, id: nat, row: Stat): map<Key, Aggregate> {
    if row.key !in aggregates then aggregates[row.key := Aggregate(id, row.counts, false)]
    else
      var a := aggregates[row.key];
      aggregates[row.key := Aggregate(a.id, Plus(a.counts, row.counts), true)]
  }

  lemma AtGrows(ids: seq<nat>, n: nat, id: nat)
    requires n < |ids| && (At(ids, n, id) || ids[n] == id)
    ensures At(ids, n + 1, id)
  {
  }

  lemma {:induction false} AbsorbKey(t: Stats, ids: seq<nat>, n: nat, aggregates: map<Key, Aggregate>, key: Key)
    requires Listed(t, ids) && n < |ids| && KeySummed(t, ids, n, aggregates, key)
    ensures KeySummed(t, ids, n + 1, Absorb(aggregates, ids[n], t[ids[n]]), key)
  {
    hide At;
    var after := Absorb(aggregates, ids[n], t[ids[n]]);
    if key in after { AtGrows(ids, n, after[key].id); }
  }

  lemma {:induction false} AbsorbRow(
    t: Stats, ids: seq<nat>, n: nat, aggregates: map<Key, Aggregate>, duplicates: seq<nat>, j: nat)
    requires Listed(t, ids) && InOrder(ids) && j <= n < |ids| && Summed(t, ids, n, aggregates, duplicates)
    ensures RowMet(t, ids[j], Absorb(aggregates, ids[n], t[ids[n]]),
                   if t[ids[n]].key in aggregates then duplicates + [ids[n]] else duplicates)
  {
    hide SumFirst, Grounded;
    assert !At(ids, n, ids[n]);
    if j < n {
      assert RowMet(t, ids[j], aggregates, duplicates);
    } else {
      assert KeySummed(t, ids, n, aggregates, t[ids[n]].key);
    }
  }

  lemma {:induction false} AbsorbSums(
    t: Stats, ids: seq<nat>, n: nat, aggregates: map<Key, Aggregate>, duplicates: seq<nat>)
    requires Listed(t, ids) && InOrder(ids) && n < |ids| && Summed(t, ids, n, aggregates, duplicates)
    ensures Summed(t, ids, n + 1, Absorb(aggregates, ids[n], t[ids[n]]),
                   if t[ids[n]].key in aggregates then duplicates + [ids[n]] else duplicates)
  {
    hide KeySummed, RowMet, Absorb, At;
    var after := Absorb(aggregates, ids[n], t[ids[n]]);
    var duplicates' := if t[ids[n]].key in aggregates then duplicates + [ids[n]] else duplicates;
    var m := n + 1;
    forall key ensures KeySummed(t, ids, m, after, key) {
      AbsorbKey(t, ids, n, aggregates, key);
    }
    forall j | 0 <= j < n + 1 ensures RowMet(t, ids[j], after, duplicates') {
      AbsorbRow(t, ids, n, aggregates, duplicates, j);
    }
    forall id | id in duplicates' ensures At(ids, n + 1, id) {
      AtGrows(ids, n, id);
    }
  }

  // ---------------------------------------------------------------- writing back

  /** The table with the sums of the keys in `done` written to their lowest rows. */
  function Written(t: Stats, aggregates: map<Key, Aggregate>, done: set<Key>): Stats {
    map id | id in t ::
      var k := t[id].key;
      if k in done && k in aggregates && aggregates[k].hasDuplicates && aggregates[k].id == id
      then Stat(k, aggregates[k].counts) else t[id]
  }

  lemma {:induction false} WriteOne(t: Stats, aggregates: map<Key, Aggregate>, done: set<Key>, key: Key)
    requires key in aggregates && key !in done && Grounded(t, key, aggregates[key])
    ensures Written(t, aggregates, done + {key}) ==
              if aggregates[key].hasDuplicates
              then Written(t, aggregates, done)[aggregates[key].id := Stat(key, aggregates[key].counts)]
              else Written(t, aggregates, done)
  {
  }

  function Without(t: Stats, duplicates: seq<nat>): Stats {
    map id | id in t && id !in duplicates :: t[id]
  }

  lemma {:induction false} WrittenIsCompacted(
    t: Stats, ids: seq<nat>, aggregates: map<Key, Aggregate>, duplicates: seq<nat>)
    requires ids == Ascending(t.Keys) && Listed(t, ids) && InOrder(ids) && Summed(t, ids, |ids|, aggregates, duplicates)
    ensures Without(Written(t, aggregates, aggregates.Keys), duplicates) == Compacted(t)
  {
    hide Summed, Ascending, InOrder, Lowest, Total, Grounded;
    forall id | id in t
      ensures id in duplicates <==> !Lowest(t, id)
      ensures Lowest(t, id) ==> Written(t, aggregates, aggregates.Keys)[id] == Stat(t[id].key, Total(t, t[id].key))
    {
      LowestIsKept(t, ids, aggregates, duplicates, id);
      GroundedRow(t, ids, aggregates, duplicates, id);
    }
  }

  lemma {:induction false} GroundedRow(
    t: Stats, ids: seq<nat>, aggregates: map<Key, Aggregate>, duplicates: seq<nat>, id: nat)
    requires Listed(t, ids) && Summed(t, ids, |ids|, aggregates, duplicates) && id in t
    requires t[id].key in aggregates
    ensures aggregates[t[id].key].id == id && !aggregates[t[id].key].hasDuplicates ==>
              t[id] == Stat(t[id].key, aggregates[t[id].key].counts)
  {
    hide RowMet, At, SumFirst;
    assert KeySummed(t, ids, |ids|, aggregates, t[id].key);
  }

  lemma {:induction false} LowestIsKept(
    t: Stats, ids: seq<nat>, aggregates: map<Key, Aggregate>, duplicates: seq<nat>, id: nat)
    requires ids == Ascending(t.Keys) && Listed(t, ids) && InOrder(ids) && id in t &&
             Summed(t, ids, |ids|, aggregates, duplicates)
    ensures t[id].key in aggregates
    ensures Lowest(t, id) <==> aggregates[t[id].key].id == id
    ensures id in duplicates <==> !Lowest(t, id)
    ensures aggregates[t[id].key].counts == Total(t, t[id].key)
  {
    hide SumFirst, Ascending, At;
    assert id in ids;
    var j :| 0 <= j < |ids| && ids[j] == id;
    assert RowMet(t, ids[j], aggregates, duplicates);
    assert KeySummed(t, ids, |ids|, aggregates, t[id].key);
    var low := aggregates[t[id].key].id;
    forall h | h in t && t[h].key == t[id].key ensures low <= h {
      assert h in ids;
      var i :| 0 <= i < |ids| && ids[i] == h;
      assert RowMet(t, ids[i], aggregates, duplicates);
    }
  }

  /** The statistics table. */
  class Store {
    var rows: Stats

    constructor (start: Stats)
      ensures rows == start
    {
      rows := start;
    }

    method AddUp(ids: seq<nat>) returns (aggregates: map<Key, Aggregate>, duplicates: seq<nat>)
      requires Listed(rows, ids) && InOrder(ids)
      ensures Summed(rows, ids, |ids|, aggregates, duplicates)
    {
      hide Summed;
      aggregates, duplicates := map[], [];
      NothingSummed(rows, ids);
      for i := 0 to |ids|
        invariant Summed(rows, ids, i, aggregates, duplicates)
      {
        var row := rows[ids[i]];
        AbsorbSums(rows, ids, i, aggregates, duplicates);
        if row.key !in aggregates {
          aggregates := aggregates[row.key := Aggregate(ids[i], row.counts, false)];
        } else {
          var a := aggregates[row.key];
          aggregates := aggregates[row.key := Aggregate(a.id, Plus(a.counts, row.counts), true)];
          duplicates := duplicates + [ids[i]];
        }
      }
    }

    /** The aggregates are visited in an arbitrary order. */
    method WriteBack(aggregates: map<Key, Aggregate>)
      requires forall key :: key in aggregates ==> Grounded(rows, key, aggregates[key])
      modifies this
      ensures rows == Written(old(rows), aggregates, aggregates.Keys)
    {
      hide Written;
      NothingWritten(rows, aggregates);
      var todo := aggregates.Keys;
      ghost var done: set<Key> := {};
      while todo != {}
        invariant done + todo == aggregates.Keys && done !! todo
        invariant rows == Written(old(rows), aggregates, done)
        decreases |todo|
      {
        var key :| key in todo;
        WriteOne(old(rows), aggregates, done, key);
        var a := aggregates[key];
        if a.hasDuplicates {
          rows := rows[a.id := Stat(key, a.counts)];
        }
        todo := todo - {key};
        done := done + {key};
      }
      assert done == aggregates.Keys;
    }

    method MergeDuplicates()
      modifies this
      ensures rows == Compacted(old(rows))
    {
      hide Compacted, Summed, Written, Ascending, Grounded, InOrder;
      var ids := Ascending(rows.Keys);
      IdsListed(rows);
      var aggregates, duplicates := AddUp(ids);
      AllGrounded(rows, ids, aggregates, duplicates);
      WrittenIsCompacted(rows, ids, aggregates, duplicates);
      WriteBack(aggregates);
      rows := map id | id in rows && id !in duplicates :: rows[id];
    }
  }

  lemma NothingSummed(t: Stats, ids: seq<nat>)
    requires Listed(t, ids)
    ensures Summed(t, ids, 0, map[], [])
  {
  }

  lemma AllGrounded(t: Stats, ids: seq<nat>, aggregates: map<Key, Aggregate>, duplicates: seq<nat>)
    requires Listed(t, ids) && Summed(t, ids, |ids|, aggregates, duplicates)
    ensures forall key :: key in aggregates ==> Grounded(t, key, aggregates[key])
  {
    hide Grounded, SumFirst, At, RowMet;
    forall key | key in aggregates ensures Grounded(t, key, aggregates[key]) {
      assert KeySummed(t, ids, |ids|, aggregates, key);
    }
  }

  lemma NothingWritten(t: Stats, aggregates: map<Key, Aggregate>)
    ensures Written(t, aggregates, {}) == t
  {
  }

  // ---------------------------------------------------------------- results

  ghost predicate OnlyRow(t: Stats, id: nat)
    requires id in t
  {
    forall h :: h in t && h != id ==> t[h].key != t[id].key
  }

  lemma {:induction false} SumOfOnlyRow(t: Stats, ids: seq<nat>, n: nat, id: nat)
    requires Listed(t, ids) && InOrder(ids) && n <= |ids| && id in t && OnlyRow(t, id)
    ensures SumFirst(t, ids, n, t[id].key) == if At(ids, n, id) then t[id].counts else ZERO
  {
    if n > 0 {
      SumOfOnlyRow(t, ids, n - 1, id);
      if At(ids, n - 1, id) {
        var j :| 0 <= j < n - 1 && ids[j] == id;
        assert ids[n - 1] != id;
      } else if ids[n - 1] == id {
        assert At(ids, n, id);
      } else {
        assert ids[n - 1] in t;
      }
    }
  }

  lemma {:induction false} SumOfNoRow(t: Stats, ids: seq<nat>, n: nat, key: Key)
    requires Listed(t, ids) && n <= |ids| && forall id :: id in t ==> t[id].key != key
    ensures SumFirst(t, ids, n, key) == ZERO
  {
    if n > 0 {
      SumOfNoRow(t, ids, n - 1, key);
      assert ids[n - 1] in t;
    }
  }

  lemma {:induction false} TotalOfOnlyRow(t: Stats, id: nat)
    requires id in t && OnlyRow(t, id)
    ensures Total(t, t[id].key) == t[id].counts
  {
    hide SumFirst, Ascending;
    IdsListed(t);
    var ids := Ascending(t.Keys);
    assert id in ids;
    var j :| 0 <= j < |ids| && ids[j] == id;
    assert At(ids, |ids|, id);
    SumOfOnlyRow(t, ids, |ids|, id);
  }

  function IdsOf(t: Stats, key: Key): set<nat> {
    set id | id in t && t[id].key == key
  }

  /** Exactly one row per key remains: the one with the lowest id. */
  lemma {:induction false} OneRowPerKey(t: Stats, key: Key)
    ensures IdsOf(Compacted(t), key) == if IdsOf(t, key) == {} then {} else {Min(IdsOf(t, key))}
  {
    hide Total, Min;
    if IdsOf(t, key) == {} {
      assert forall id :: id in t ==> id !in IdsOf(t, key);
    } else {
      var m := Min(IdsOf(t, key));
      assert m in IdsOf(t, key);
      assert forall h :: h in t && t[h].key == key ==> h in IdsOf(t, key);
      assert Lowest(t, m);
      assert forall id :: id in Compacted(t) && t[id].key == key ==> id in IdsOf(t, key) && id == m;
    }
  }

  /** The sum of each of the five counters is preserved for every key. */
  lemma {:induction false} TotalsAreKept(t: Stats, key: Key)
    ensures Total(Compacted(t), key) == Total(t, key)
  {
    hide Total, Compacted, Min;
    OneRowPerKey(t, key);
    var after := Compacted(t);
    if IdsOf(t, key) == {} {
      NoRowsNoTotal(t, key);
      NoRowsNoTotal(after, key);
    } else {
      var m := Min(IdsOf(t, key));
      assert m in IdsOf(after, key);
      assert forall h :: h in after && after[h].key == key ==> h in IdsOf(after, key);
      TotalOfOnlyRow(after, m);
      CompactedCounts(t, m);
    }
  }

  lemma CompactedCounts(t: Stats, id: nat)
    requires id in Compacted(t)
    ensures Compacted(t)[id].counts == Total(t, Compacted(t)[id].key)
  {
    hide Total;
  }

  lemma {:induction false} NoRowsNoTotal(t: Stats, key: Key)
    requires IdsOf(t, key) == {}
    ensures Total(t, key) == ZERO
  {
    hide SumFirst, Ascending;
    IdsListed(t);
    assert forall id :: id in t ==> id !in IdsOf(t, key);
    SumOfNoRow(t, Ascending(t.Keys), |Ascending(t.Keys)|, key);
  }

  /** A key that had one row keeps it as it was. */
  lemma {:induction false} SingleRowsAreUntouched(t: Stats, id: nat)
    requires id in t && OnlyRow(t, id)
    ensures id in Compacted(t) && Compacted(t)[id] == t[id]
  {
    hide Total;
    TotalOfOnlyRow(t, id);
    assert Lowest(t, id);
  }

  /** Migration 32 repeats migration 31 and finds nothing to do. */
  lemma {:induction false} SecondRunIsQuiet(t: Stats)
    ensures Compacted(Compacted(t)) == Compacted(t)
  {
    var after := Compacted(t);
    forall id | id in after ensures id in Compacted(after) && Compacted(after)[id] == after[id] {
      CompactedRowIsOnly(t, id);
      SingleRowsAreUntouched(after, id);
    }
  }

  lemma {:induction false} CompactedRowIsOnly(t: Stats, id: nat)
    requires id in Compacted(t)
    ensures OnlyRow(Compacted(t), id)
  {
    hide Compacted, Min;
    var after := Compacted(t);
    OneRowPerKey(t, after[id].key);
    forall h | h in after && h != id ensures after[h].key != after[id].key {
      assert id in IdsOf(after, after[id].key);
      assert h !in IdsOf(after, after[id].key);
    }
  }
}
