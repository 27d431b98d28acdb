/**
 Notification hardening (migration 96): event keys are filled in from idempotency keys, and every
 active broadcast is replaced by one copy per active member of its tenant.
 */
module Notifications {
  import opened Wrappers
  import opened Tables
  import opened Text

  datatype Status = Ok | Disabled | OtherStatus

  datatype Note = Note(tenant: int, key: Option<string>, eventKey: string, recipient: int, name: string,
                       content: string, status: Status)

  datatype Member = Member(tenant: int, user: nat, displayName: string, status: Status)

  type Notes = map<nat, Note>

  // ---------------------------------------------------------------- keys

  const RECIPIENT: string := ":recipient:"

  function BroadcastKey(b: nat): string {
    "legacy:broadcast:" + Decimal(b)
  }

  function CopyKey(b: nat, user: nat): string {
    BroadcastKey(b) + RECIPIENT + Decimal(user)
  }

  function TrailingDigits(s: string): (n: nat)
    ensures n <= |s| && forall i :: |s| - n <= i < |s| ==> IsDigit(s[i])
    ensures n < |s| ==> !IsDigit(s[|s| - n - 1])
  {
    if |s| > 0 && IsDigit(s[|s| - 1]) then TrailingDigits(s[..|s| - 1]) + 1 else 0
  }

  predicate EndsWith(s: string, suffix: string) {
    |suffix| <= |s| && s[|s| - |suffix|..] == suffix
  }

  /** Removes a match of `:recipient:[0-9]+$`; digits hold no colon, so the match is the longest run of final digits. */
  function StripRecipient(s: string): string {
    var n := TrailingDigits(s);
    var head := s[..|s| - n];
    if n > 0 && EndsWith(head, RECIPIENT) then head[..|head| - |RECIPIENT|] else s
  }

  // ---------------------------------------------------------------- event keys

  function EventKeyFor(id: nat, note: Note): string {
    var stripped := if note.key.Some? then StripRecipient(Trim(note.key.value)) else "";
    if stripped == "" then "legacy:notification:" + Decimal(id) else stripped
  }

  function Backfilled(t: Notes): Notes {
    map id | id in t :: if t[id].eventKey == "" then t[id].(eventKey := EventKeyFor(id, t[id])) else t[id]
  }

  // ---------------------------------------------------------------- broadcasts

  predicate IsActive(m: Member, tenant: int) {
    m.tenant == tenant && m.user > 0 && m.status.Ok?
  }

  function Active(members: seq<Member>, tenant: int): (ms: seq<Member>)
    ensures forall m :: m in ms <==> m in members && IsActive(m, tenant)
  {
    if |members| == 0 then []
    else
      var rest := Active(members[1..], tenant);
      assert members == [members[0]] + members[1..];
      if IsActive(members[0], tenant) then [members[0]] + rest else rest
  }

  predicate IsBroadcast(note: Note) {
    note.recipient == 0 && note.status.Ok?
  }

  function CopyFor(b: nat, note: Note, m: Member): Note {
    note.(recipient := m.user, name := if Trim(m.displayName) != "" then Trim(m.displayName) else note.name,
          eventKey := BroadcastKey(b), key := Some(CopyKey(b, m.user)))
  }

  predicate Holds(t: Notes, id: nat, tenant: int, key: string) {
    id in t && t[id].tenant == tenant && t[id].key == Some(key)
  }

  predicate Taken(t: Notes, tenant: int, key: string) {
    exists id :: id in t && Holds(t, id, tenant, key)
  }

  /** INSERT ... ON CONFLICT DO NOTHING, where tenant and idempotency key are unique together. */
  function Insert(t: Notes, note: Note): Notes
    requires note.key.Some?
  {
    if Taken(t, note.tenant, note.key.value) then t else t[Max0(t.Keys) + 1 := note]
  }

  function Copies(t: Notes, b: nat, note: Note, ms: seq<Member>, n: nat): Notes
    requires n <= |ms|
  {
    if n == 0 then t else Insert(Copies(t, b, note, ms, n - 1), CopyFor(b, note, ms[n - 1]))
  }

  function Disable(t: Notes, b: nat): Notes {
    if b in t then t[b := t[b].(status := Status.Disabled)] else t
  }

  /** One broadcast, as it was read before the loop. */
  function ExpandOne(t: Notes, b: nat, note: Note, members: seq<Member>): Notes {
    var ms := Active(members, note.tenant);
    if |ms| == 0 then t else Disable(Copies(t, b, note, ms, |ms|), b)
  }

  function Broadcasts(t: Notes): set<nat> {
    set b | b in t && IsBroadcast(t[b])
  }

  predicate Listed(t: Notes, bs: seq<nat>) {
    forall i :: 0 <= i < |bs| ==> bs[i] in t
  }

  function ExpandFirst(t: Notes, bs: seq<nat>, n: nat, members: seq<Member>): Notes
    requires Listed(t, bs) && n <= |bs|
  {
    if n == 0 then t else ExpandOne(ExpandFirst(t, bs, n - 1, members), bs[n - 1], t[bs[n - 1]], members)
  }

  lemma BroadcastsListed(t: Notes)
    ensures Listed(t, Ascending(Broadcasts(t)))
  {
    hide Ascending;
    var bs := Ascending(Broadcasts(t));
    assert forall i :: 0 <= i < |bs| ==> bs[i] in bs;
  }

  function Expanded(t: Notes, members: seq<Member>): Notes {
    BroadcastsListed(t);
    var bs := Ascending(Broadcasts(t));
    ExpandFirst(t, bs, |bs|, members)
  }

  /** The notification table. */
  class Store {
    var notes: Notes

    constructor (start: Notes)
      ensures notes == start
    {
      notes := start;
    }

    method BackfillEventKeys()
      modifies this
      ensures notes == Backfilled(old(notes))
    {
      hide EventKeyFor, Ascending;
      var missing := set id | id in notes && notes[id].eventKey == "";
      var rows := Ascending(missing);
      for i := 0 to |rows|
        invariant notes.Keys == old(notes).Keys
        invariant forall id :: id in notes ==>
          notes[id] ==
          if id in rows[..i] then old(notes)[id].(eventKey := EventKeyFor(id, old(notes)[id])) else old(notes)[id]
      {
        var id := rows[i];
        assert id in rows && id !in rows[..i];
        notes := notes[id := notes[id].(eventKey := EventKeyFor(id, notes[id]))];
      }
      assert rows[..|rows|] == rows;
    }

    method ExpandBroadcast(b: nat, note: Note, members: seq<Member>)
      modifies this
      ensures notes == ExpandOne(old(notes), b, note, members)
    {
      hide Active, Insert, Trim, CopyKey, BroadcastKey;
      var ms := Active(members, note.tenant);
      if |ms| == 0 { return; }
      for j := 0 to |ms|
        invariant notes == Copies(old(notes), b, note, ms, j)
      {
        notes := Insert(notes, CopyFor(b, note, ms[j]));
      }
      notes := Disable(notes, b);
    }

    method ExpandBroadcasts(members: seq<Member>)
      modifies this
      ensures notes == Expanded(old(notes), members)
    {
      hide Ascending, ExpandOne, Broadcasts;
      var read := notes;
      var bs := Ascending(Broadcasts(read));
      BroadcastsListed(read);
      for i := 0 to |bs|
        invariant notes == ExpandFirst(read, bs, i, members)
      {
        ExpandBroadcast(bs[i], read[bs[i]], members);
      }
    }
  }
}
