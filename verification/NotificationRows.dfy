/** Every notification after the two passes of migration 96, said from the rows before and the members alone. */
module NotificationRows {
  import opened Wrappers
  import opened Tables
  import opened Text
  import opened Notifications
  import opened NotificationResults

  // ---------------------------------------------------------------- event keys

  /** The key of an event with a recipient number behind it. */
  ghost predicate Addressed(s: string, event: string) {
    exists digits :: digits != "" && (forall i :: 0 <= i < |digits| ==> '0' <= digits[i] <= '9') &&
                     s == event + ":recipient:" + digits
  }

  lemma {:induction false} StripFinds(s: string, event: string)
    requires Addressed(s, event)
    ensures StripRecipient(s) == event
  {
    hide TrailingDigits;
    var digits :| digits != "" && (forall i :: 0 <= i < |digits| ==> '0' <= digits[i] <= '9') &&
                  s == event + ":recipient:" + digits;
    var head := event + RECIPIENT;
    assert RECIPIENT[10] == ':' && |RECIPIENT| == 11;
    assert s[|s| - |digits| - 1] == head[|head| - 1] == ':';
    assert forall i :: |s| - |digits| <= i < |s| ==> s[i] == digits[i - |head|];
    TrailingIs(s, |digits|);
    assert s[..|s| - |digits|] == head;
    assert head[|head| - |RECIPIENT|..] == RECIPIENT && head[..|head| - |RECIPIENT|] == event;
  }

  /** A recipient number is removed with its label; a text without one stays as it is. */
  lemma {:induction false} StripMeans(s: string)
    ensures var r := StripRecipient(s); Addressed(s, r) || (r == s && forall event :: !Addressed(s, event))
  {
    hide TrailingDigits;
    var r, n := StripRecipient(s), TrailingDigits(s);
    var head, digits := s[..|s| - n], s[|s| - n..];
    if n > 0 && EndsWith(head, RECIPIENT) {
      assert head == r + RECIPIENT && s == r + ":recipient:" + digits;
      assert forall i :: 0 <= i < |digits| ==> IsDigit(digits[i]);
    } else {
      forall event ensures !Addressed(s, event) {
        if Addressed(s, event) { NotStripped(s, event); }
      }
    }
  }

  lemma {:induction false} NotStripped(s: string, event: string)
    requires Addressed(s, event)
    ensures TrailingDigits(s) > 0 && EndsWith(s[..|s| - TrailingDigits(s)], RECIPIENT)
  {
    hide TrailingDigits;
    var digits :| digits != "" && (forall i :: 0 <= i < |digits| ==> '0' <= digits[i] <= '9') &&
                  s == event + ":recipient:" + digits;
    var head := event + RECIPIENT;
    assert RECIPIENT[10] == ':' && |RECIPIENT| == 11;
    assert s[|s| - |digits| - 1] == head[|head| - 1] == ':';
    assert forall i :: |s| - |digits| <= i < |s| ==> s[i] == digits[i - |head|];
    TrailingIs(s, |digits|);
    assert s[..|s| - |digits|] == head;
    assert head[|head| - |RECIPIENT|..] == RECIPIENT;
  }

  /** Rows with an event key stay; others get the event of their idempotency key, or a key of their own. */
  lemma {:induction false} BackfilledRow(t: Notes, id: nat)
    requires id in t
    ensures Backfilled(t).Keys == t.Keys
    ensures var row, after := t[id], Backfilled(t)[id];
            if row.eventKey != "" then after == row
            else
              && after == row.(eventKey := after.eventKey)
              && after.eventKey == if row.key.Some? && StripRecipient(Trim(row.key.value)) != ""
                                   then StripRecipient(Trim(row.key.value))
                                   else "legacy:notification:" + Decimal(id)
  {
    hide StripRecipient, Trim, Decimal;
  }

  // ---------------------------------------------------------------- broadcasts

  /** A member who receives what is sent to the whole tenant. */
  ghost predicate Receives(m: Member, tenant: int) {
    m.tenant == tenant && m.user >= 1 && m.status == Status.Ok
  }

  ghost predicate SomeoneReceives(members: seq<Member>, tenant: int) {
    exists m :: m in members && Receives(m, tenant)
  }

  ghost predicate ToAll(note: Note) {
    note.recipient == 0 && note.status == Status.Ok
  }

  ghost function KeyText(b: nat, user: nat): string {
    "legacy:broadcast:" + Decimal(b) + ":recipient:" + Decimal(user)
  }

  /** What a member gets for a broadcast. */
  ghost predicate CopyOf(copy: Note, b: nat, note: Note, m: Member) {
    && copy.tenant == note.tenant && copy.content == note.content && copy.status == note.status
    && copy.recipient == m.user && copy.name == (if Trim(m.displayName) == "" then note.name else Trim(m.displayName))
    && copy.eventKey == "legacy:broadcast:" + Decimal(b) && copy.key == Some(KeyText(b, m.user))
  }

  /** The unique index over tenant and idempotency key. */
  ghost predicate KeysDiffer(t: Notes) {
    forall a, b :: a in t && b in t && t[a].key.Some? && t[a].key == t[b].key && t[a].tenant == t[b].tenant ==> a == b
  }

  ghost predicate HasKey(t: Notes, id: nat, tenant: int, key: string) {
    id in t && t[id].tenant == tenant && t[id].key == Some(key)
  }

  lemma {:induction false} UniqueMeans(t: Notes)
    ensures Unique(t) <==> KeysDiffer(t)
  {
    if KeysDiffer(t) {
      forall a, b, tenant, key | Holds(t, a, tenant, key) && Holds(t, b, tenant, key) ensures a == b {
      }
    }
    if Unique(t) {
      forall a, b | a in t && b in t && t[a].key.Some? && t[a].key == t[b].key && t[a].tenant == t[b].tenant
        ensures a == b
      {
        assert Holds(t, a, t[a].tenant, t[a].key.value) && Holds(t, b, t[a].tenant, t[a].key.value);
      }
    }
  }

  lemma {:induction false} ActiveMeans(members: seq<Member>, tenant: int)
    ensures forall m :: m in Active(members, tenant) <==> m in members && Receives(m, tenant)
    ensures HasMembers(members, tenant) <==> SomeoneReceives(members, tenant)
  {
    hide Active;
    var ms := Active(members, tenant);
    if |ms| > 0 { assert ms[0] in ms; }
  }

  lemma {:induction false} CopyMeans(copy: Note, b: nat, note: Note, m: Member)
    ensures copy == CopyFor(b, note, m) <==> CopyOf(copy, b, note, m)
  {
    hide Decimal, Trim;
    assert CopyKey(b, m.user) == KeyText(b, m.user) by {
      assert "legacy:broadcast:" + Decimal(b) + ":recipient:" + Decimal(m.user) ==
             ("legacy:broadcast:" + Decimal(b)) + ":recipient:" + Decimal(m.user);
    }
  }

  /** A broadcast that someone receives is disabled; every other row stays as it was. */
  lemma {:induction false} ExistingRow(t: Notes, members: seq<Member>, id: nat)
    requires KeysDiffer(t) && id in t
    ensures id in Expanded(t, members)
    ensures Expanded(t, members)[id] ==
            if ToAll(t[id]) && SomeoneReceives(members, t[id].tenant) then t[id].(status := Status.Disabled) else t[id]
  {
    hide Expanded, Active, Unique, KeysDiffer, SomeoneReceives;
    UniqueMeans(t);
    DisabledIffDelivered(t, members, id);
    ActiveMeans(members, t[id].tenant);
  }

  /** Every new row is the copy of a broadcast for a member who receives it, and keys stay unique. */
  lemma {:induction false} NewRow(t: Notes, members: seq<Member>, id: nat) returns (b: nat, m: Member)
    requires KeysDiffer(t) && id in Expanded(t, members) && id !in t
    ensures b in t && ToAll(t[b]) && m in members && Receives(m, t[b].tenant)
    ensures CopyOf(Expanded(t, members)[id], b, t[b], m) && KeysDiffer(Expanded(t, members))
  {
    hide Expanded, Active, Unique, KeysDiffer, CopyFor, CopyOf;
    UniqueMeans(t);
    OnlyCopiesAreAdded(t, members, id);
    var copy := Expanded(t, members)[id];
    b, m :| b in Broadcasts(t) && m in Active(members, t[b].tenant) && copy == CopyFor(b, t[b], m);
    ActiveMeans(members, t[b].tenant);
    CopyMeans(copy, b, t[b], m);
    ExpansionKeepsUnique(t, members);
    UniqueMeans(Expanded(t, members));
  }

  /** Every member who receives a broadcast has exactly one row with the key of the pair. */
  lemma {:induction false} RowForEach(t: Notes, members: seq<Member>, b: nat, m: Member) returns (id: nat)
    requires KeysDiffer(t) && b in t && ToAll(t[b]) && m in members && Receives(m, t[b].tenant)
    ensures HasKey(Expanded(t, members), id, t[b].tenant, KeyText(b, m.user))
    ensures forall other :: HasKey(Expanded(t, members), other, t[b].tenant, KeyText(b, m.user)) ==> other == id
  {
    hide Expanded, Active, Unique, KeysDiffer, CopyKey, KeyText, BroadcastKey;
    UniqueMeans(t);
    ActiveMeans(members, t[b].tenant);
    EveryMemberGetsACopy(t, members, b, m);
    SameKey(b, m.user);
    var after := Expanded(t, members);
    id :| id in after && Holds(after, id, t[b].tenant, CopyKey(b, m.user));
    ExpansionKeepsUnique(t, members);
    UniqueMeans(after);
    forall other | HasKey(after, other, t[b].tenant, KeyText(b, m.user)) ensures other == id {
      SameHolder(after, other, id, t[b].tenant, KeyText(b, m.user));
    }
  }

  lemma SameKey(b: nat, user: nat)
    ensures CopyKey(b, user) == KeyText(b, user)
  {
    hide Decimal;
  }

  lemma SameHolder(t: Notes, a: nat, b: nat, tenant: int, key: string)
    requires KeysDiffer(t) && HasKey(t, a, tenant, key) && HasKey(t, b, tenant, key)
    ensures a == b
  {
  }
}
