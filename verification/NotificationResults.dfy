/** What filling in event keys and expanding broadcasts leave behind. */
module NotificationResults {
  import opened Wrappers
  import opened Tables
  import opened Text
  import opened Notifications

  // ---------------------------------------------------------------- keys

  lemma {:induction false} TrailingIs(s: string, n: nat)
    requires n < |s| && !IsDigit(s[|s| - n - 1]) && forall i :: |s| - n <= i < |s| ==> IsDigit(s[i])
    ensures TrailingDigits(s) == n
  {
  }

  /** Removing the recipient suffix from a key gives back what stood before it. */
  lemma {:induction false} SuffixIsRemoved(event: string, user: nat)
    ensures StripRecipient(event + RECIPIENT + Decimal(user)) == event
  {
    hide Decimal, TrailingDigits;
    var d := Decimal(user);
    var head := event + RECIPIENT;
    var s := head + d;
    assert RECIPIENT[10] == ':' && |RECIPIENT| == 11;
    assert s[|s| - |d| - 1] == head[|head| - 1] == ':';
    assert forall i :: |s| - |d| <= i < |s| ==> s[i] == d[i - |head|];
    TrailingIs(s, |d|);
    assert s[..|s| - |d|] == head;
    assert head[|head| - |RECIPIENT|..] == RECIPIENT;
    assert head[..|head| - |RECIPIENT|] == event;
  }

  lemma {:induction false} BroadcastKeyInjective(a: nat, b: nat)
    requires BroadcastKey(a) == BroadcastKey(b)
    ensures a == b
  {
    hide Decimal;
    var n := |"legacy:broadcast:"|;
    assert BroadcastKey(a)[n..] == Decimal(a) && BroadcastKey(b)[n..] == Decimal(b);
    DecimalInjective(a, b);
  }

  /** Different broadcasts or members never share a key. */
  lemma {:induction false} CopyKeyInjective(a: nat, u: nat, b: nat, v: nat)
    requires CopyKey(a, u) == CopyKey(b, v)
    ensures a == b && u == v
  {
    hide Decimal, BroadcastKey, StripRecipient;
    SuffixIsRemoved(BroadcastKey(a), u);
    SuffixIsRemoved(BroadcastKey(b), v);
    BroadcastKeyInjective(a, b);
    var head := BroadcastKey(a) + RECIPIENT;
    assert (head + Decimal(u))[|head|..] == Decimal(u) && (head + Decimal(v))[|head|..] == Decimal(v);
    DecimalInjective(u, v);
  }

  /** The event key of a copy is its idempotency key without the recipient. */
  lemma {:induction false} CopyEventKey(b: nat, note: Note, m: Member)
    ensures var copy := CopyFor(b, note, m); copy.key.Some? && StripRecipient(copy.key.value) == copy.eventKey
  {
    hide Decimal, BroadcastKey, StripRecipient, Trim;
    SuffixIsRemoved(BroadcastKey(b), m.user);
  }

  /** Every notification has an event key afterwards, and a second run changes nothing. */
  lemma {:induction false} BackfillIsComplete(t: Notes, id: nat)
    requires id in t
    ensures Backfilled(t)[id].eventKey != "" && Backfilled(Backfilled(t)) == Backfilled(t)
  {
    hide StripRecipient, Trim, Decimal;
    forall k | k in t ensures Backfilled(t)[k].eventKey != "" {
      KeyIsNotEmpty(k, t[k]);
    }
  }

  lemma KeyIsNotEmpty(id: nat, note: Note)
    ensures EventKeyFor(id, note) != ""
  {
    hide StripRecipient, Trim, Decimal;
  }

  /** The notifications sent to the recipients of one event end up with one event key. */
  lemma {:induction false} BackfillGroups(t: Notes, id: nat, event: string, user: nat)
    requires id in t && t[id].eventKey == "" && t[id].key.Some? && event != "" &&
             Trim(t[id].key.value) == event + RECIPIENT + Decimal(user)
    ensures Backfilled(t)[id].eventKey == event
  {
    hide StripRecipient, Trim, Decimal;
    SuffixIsRemoved(event, user);
  }

  // ---------------------------------------------------------------- the copies of one broadcast

  ghost predicate Unique(t: Notes) {
    forall a, b, tenant, key :: Holds(t, a, tenant, key) && Holds(t, b, tenant, key) ==> a == b
  }

  ghost predicate Keeps(before: Notes, after: Notes) {
    forall id :: id in before ==> id in after && after[id] == before[id]
  }

  lemma {:induction false} InsertEffect(t: Notes, note: Note)
    requires note.key.Some? && Unique(t)
    ensures var after := Insert(t, note);
            && Unique(after) && Keeps(t, after) && Taken(after, note.tenant, note.key.value)
            && (forall id :: id in after && id !in t ==> after[id] == note)
  {
    hide Max0;
    var after, added := Insert(t, note), Max0(t.Keys) + 1;
    if !Taken(t, note.tenant, note.key.value) {
      assert added !in t;
      assert Holds(after, added, note.tenant, note.key.value);
      forall a, b, tenant, key | Holds(after, a, tenant, key) && Holds(after, b, tenant, key) ensures a == b {
        if a != added { assert Holds(t, a, tenant, key); }
        if b != added { assert Holds(t, b, tenant, key); }
      }
    }
  }

  lemma TakenStays(before: Notes, after: Notes, tenant: int, key: string)
    requires Keeps(before, after) && Taken(before, tenant, key)
    ensures Taken(after, tenant, key)
  {
    var id :| id in before && Holds(before, id, tenant, key);
    assert Holds(after, id, tenant, key);
  }

  ghost predicate OneOf(b: nat, note: Note, ms: seq<Member>, n: nat, copy: Note)
    requires n <= |ms|
  {
    exists k :: 0 <= k < n && copy == CopyFor(b, note, ms[k])
  }

  ghost predicate AllTaken(t: Notes, b: nat, tenant: int, ms: seq<Member>, n: nat)
    requires n <= |ms|
  {
    forall k :: 0 <= k < n ==> Taken(t, tenant, CopyKey(b, ms[k].user))
  }

  lemma {:induction false} CopiesEffect(t: Notes, b: nat, note: Note, ms: seq<Member>, n: nat)
    requires n <= |ms| && Unique(t)
    ensures var after := Copies(t, b, note, ms, n);
            && Unique(after) && Keeps(t, after) && AllTaken(after, b, note.tenant, ms, n)
            && (forall id :: id in after && id !in t ==> OneOf(b, note, ms, n, after[id]))
  {
    hide Unique, Insert, Taken, Trim, CopyKey, BroadcastKey;
    if n > 0 {
      CopiesEffect(t, b, note, ms, n - 1);
      var mid, copy := Copies(t, b, note, ms, n - 1), CopyFor(b, note, ms[n - 1]);
      var after := Insert(mid, copy);
      InsertEffect(mid, copy);
      forall k | 0 <= k < n - 1 ensures Taken(after, note.tenant, CopyKey(b, ms[k].user)) {
        TakenStays(mid, after, note.tenant, CopyKey(b, ms[k].user));
      }
      forall id | id in after && id !in t ensures OneOf(b, note, ms, n, after[id]) {
        if id in mid {
          assert OneOf(b, note, ms, n - 1, mid[id]);
        }
      }
    }
  }

  // ---------------------------------------------------------------- the whole expansion

  ghost predicate Done(bs: seq<nat>, n: nat, id: nat)
    requires n <= |bs|
  {
    exists i :: 0 <= i < n && bs[i] == id
  }

  predicate HasMembers(members: seq<Member>, tenant: int) {
    Active(members, tenant) != []
  }

  // An existing row: as it was, or disabled if it is a broadcast handled so far that has members.
  ghost predicate RowStays(t: Notes, after: Notes, members: seq<Member>, done: bool, id: nat)
    requires id in t
  {
    id in after && after[id] ==
    if done && HasMembers(members, t[id].tenant) then t[id].(status := Status.Disabled) else t[id]
  }

  ghost predicate IsCopy(t: Notes, members: seq<Member>, copy: Note) {
    exists b, m :: b in Broadcasts(t) && m in Active(members, t[b].tenant) && copy == CopyFor(b, t[b], m)
  }

  ghost predicate Delivered(t: Notes, after: Notes, members: seq<Member>, b: nat)
    requires b in t
  {
    forall m :: m in Active(members, t[b].tenant) ==> Taken(after, t[b].tenant, CopyKey(b, m.user))
  }

  ghost predicate Progressed(t: Notes, after: Notes, bs: seq<nat>, n: nat, members: seq<Member>)
    requires Listed(t, bs) && n <= |bs|
  {
    && Unique(after)
    && (forall id :: id in t ==> RowStays(t, after, members, Done(bs, n, id), id))
    && (forall id :: id in after && id !in t ==> IsCopy(t, members, after[id]))
    && (forall i :: 0 <= i < n ==> Delivered(t, after, members, bs[i]))
  }

  ghost predicate BroadcastList(t: Notes, bs: seq<nat>) {
    Listed(t, bs) && InOrder(bs) && forall i :: 0 <= i < |bs| ==> bs[i] in Broadcasts(t)
  }

  lemma NothingExpanded(t: Notes, bs: seq<nat>, members: seq<Member>)
    requires Listed(t, bs) && Unique(t)
    ensures Progressed(t, t, bs, 0, members)
  {
    hide Unique, Active;
  }

  lemma {:induction false} ExpandProgresses(t: Notes, bs: seq<nat>, n: nat, members: seq<Member>)
    requires BroadcastList(t, bs) && n <= |bs| && Unique(t)
    ensures Progressed(t, ExpandFirst(t, bs, n, members), bs, n, members)
  {
    hide Active, ExpandOne, Progressed, Unique;
    if n == 0 {
      NothingExpanded(t, bs, members);
    } else {
      ExpandProgresses(t, bs, n - 1, members);
      ExpandStep(t, ExpandFirst(t, bs, n - 1, members), bs, n - 1, members);
    }
  }

  lemma {:induction false} ExpandStep(t: Notes, mid: Notes, bs: seq<nat>, n: nat, members: seq<Member>)
    requires BroadcastList(t, bs) && n < |bs| && Progressed(t, mid, bs, n, members)
    ensures Progressed(t, ExpandOne(mid, bs[n], t[bs[n]], members), bs, n + 1, members)
  {
    hide Unique, Active, Taken, CopyFor, Copies, CopyKey, Broadcasts;
    var b, note := bs[n], t[bs[n]];
    var ms, after := Active(members, note.tenant), ExpandOne(mid, bs[n], t[bs[n]], members);
    var copied := Copies(mid, b, note, ms, |ms|);
    CopiesEffect(mid, b, note, ms, |ms|);
    DisableEffect(copied, b);
    forall id | id in t ensures RowStays(t, after, members, Done(bs, n + 1, id), id) {
      assert RowStays(t, mid, members, Done(bs, n, id), id);
      DoneStep(bs, n, id);
    }
    forall id | id in after && id !in t ensures IsCopy(t, members, after[id]) {
      if id in mid {
        assert IsCopy(t, members, mid[id]);
      } else {
        assert OneOf(b, note, ms, |ms|, after[id]);
        var k :| 0 <= k < |ms| && after[id] == CopyFor(b, note, ms[k]);
        assert ms[k] in ms;
      }
    }
    forall i | 0 <= i < n + 1 ensures Delivered(t, after, members, bs[i]) {
      DeliveredStep(t, mid, copied, after, members, bs, n, i);
    }
  }

  lemma DoneStep(bs: seq<nat>, n: nat, id: nat)
    requires n < |bs| && InOrder(bs)
    ensures Done(bs, n + 1, id) <==> Done(bs, n, id) || id == bs[n]
    ensures id == bs[n] ==> !Done(bs, n, id)
  {
  }

  // Disabling a row leaves tenant and key, and with them every question about keys.
  lemma {:induction false} DisableEffect(t: Notes, b: nat)
    ensures Unique(t) ==> Unique(Disable(t, b))
    ensures forall tenant, key :: Taken(t, tenant, key) ==> Taken(Disable(t, b), tenant, key)
  {
    var after := Disable(t, b);
    assert forall id, tenant, key :: Holds(after, id, tenant, key) <==> Holds(t, id, tenant, key);
    hide Holds, Disable;
    forall tenant, key | Taken(t, tenant, key) ensures Taken(after, tenant, key) {
      var id :| id in t && Holds(t, id, tenant, key);
      assert Holds(after, id, tenant, key);
      HoldsIn(after, id, tenant, key);
    }
  }

  lemma HoldsIn(t: Notes, id: nat, tenant: int, key: string)
    requires Holds(t, id, tenant, key)
    ensures id in t
  {
  }

  lemma {:induction false} DeliveredStep(
    t: Notes, mid: Notes, copied: Notes, after: Notes, members: seq<Member>, bs: seq<nat>, n: nat, i: nat)
    requires Listed(t, bs) && i <= n < |bs| && Keeps(mid, copied)
    requires i < n ==> Delivered(t, mid, members, bs[i])
    requires var ms := Active(members, t[bs[n]].tenant); AllTaken(copied, bs[n], t[bs[n]].tenant, ms, |ms|)
    requires after == (if |Active(members, t[bs[n]].tenant)| == 0 then mid else Disable(copied, bs[n]))
    requires forall tenant, key :: Taken(copied, tenant, key) ==> Taken(Disable(copied, bs[n]), tenant, key)
    ensures Delivered(t, after, members, bs[i])
  {
    hide Active, Taken, CopyKey;
    var b := bs[i];
    forall m | m in Active(members, t[b].tenant) ensures Taken(after, t[b].tenant, CopyKey(b, m.user)) {
      if i < n {
        assert Taken(mid, t[b].tenant, CopyKey(b, m.user));
        TakenStays(mid, copied, t[b].tenant, CopyKey(b, m.user));
      } else {
        var ms := Active(members, t[b].tenant);
        var k :| 0 <= k < |ms| && ms[k] == m;
        assert Taken(copied, t[b].tenant, CopyKey(b, ms[k].user));
      }
    }
  }

  lemma {:induction false} BroadcastOrder(t: Notes)
    ensures BroadcastList(t, Ascending(Broadcasts(t)))
    ensures forall b :: b in Broadcasts(t) <==> Done(Ascending(Broadcasts(t)), |Ascending(Broadcasts(t))|, b)
  {
    hide Ascending, Broadcasts;
    var bs := Ascending(Broadcasts(t));
    BroadcastsListed(t);
    assert forall i :: 0 <= i < |bs| ==> bs[i] in bs;
    forall b | b in Broadcasts(t) ensures Done(bs, |bs|, b) {
      assert b in bs;
    }
  }

  // ---------------------------------------------------------------- results

  ghost predicate OneUserOnce(members: seq<Member>) {
    forall m, k :: m in members && k in members && m.tenant == k.tenant && m.user == k.user ==> m == k
  }

  /** A broadcast is disabled exactly when its tenant has an active member; every other row stays as it was. */
  lemma {:induction false} DisabledIffDelivered(t: Notes, members: seq<Member>, id: nat)
    requires Unique(t) && id in t
    ensures RowStays(t, Expanded(t, members), members, id in Broadcasts(t), id)
  {
    hide Ascending, Broadcasts, ExpandFirst, Unique, RowStays, IsCopy, Delivered;
    BroadcastOrder(t);
    var bs := Ascending(Broadcasts(t));
    ExpandProgresses(t, bs, |bs|, members);
  }

  /** Only copies of broadcasts for active members are added. */
  lemma {:induction false} OnlyCopiesAreAdded(t: Notes, members: seq<Member>, id: nat)
    requires Unique(t) && id in Expanded(t, members) && id !in t
    ensures IsCopy(t, members, Expanded(t, members)[id])
  {
    hide Ascending, Broadcasts, ExpandFirst, Unique, RowStays, IsCopy, Delivered;
    BroadcastOrder(t);
    var bs := Ascending(Broadcasts(t));
    ExpandProgresses(t, bs, |bs|, members);
  }

  lemma {:induction false} ExpansionKeepsUnique(t: Notes, members: seq<Member>)
    requires Unique(t)
    ensures Unique(Expanded(t, members))
  {
    hide Ascending, Broadcasts, ExpandFirst, Unique, RowStays, IsCopy, Delivered;
    BroadcastOrder(t);
    var bs := Ascending(Broadcasts(t));
    ExpandProgresses(t, bs, |bs|, members);
  }

  lemma {:induction false} EveryMemberGetsACopy(t: Notes, members: seq<Member>, b: nat, m: Member)
    requires Unique(t) && b in Broadcasts(t) && m in members && IsActive(m, t[b].tenant)
    ensures Taken(Expanded(t, members), t[b].tenant, CopyKey(b, m.user))
  {
    hide Ascending, ExpandFirst, Unique, RowStays, IsCopy, CopyKey, Taken, Active;
    BroadcastOrder(t);
    var bs := Ascending(Broadcasts(t));
    ExpandProgresses(t, bs, |bs|, members);
    var i :| 0 <= i < |bs| && bs[i] == b;
    assert Delivered(t, Expanded(t, members), members, bs[i]);
  }

  /**
   Exactly one row holds the key of a broadcast and an active member: the row that already did, left alone
   unless it is itself a broadcast, or else the copy of the broadcast for that member.
   */
  lemma {:induction false} OneCopyPerMember(t: Notes, members: seq<Member>, b: nat, m: Member) returns (id: nat)
    requires Unique(t) && OneUserOnce(members) && b in Broadcasts(t) && m in members && IsActive(m, t[b].tenant)
    ensures var after, tenant, key := Expanded(t, members), t[b].tenant, CopyKey(b, m.user);
            && Holds(after, id, tenant, key) && (forall other :: Holds(after, other, tenant, key) ==> other == id)
            && (if id in t then RowStays(t, after, members, id in Broadcasts(t), id)
                else after[id] == CopyFor(b, t[b], m))
            && (Taken(t, tenant, key) ==> Holds(t, id, tenant, key))
  {
    hide Expanded, CopyKey, RowStays, IsCopy, Active, Trim, BroadcastKey;
    var after, tenant, key := Expanded(t, members), t[b].tenant, CopyKey(b, m.user);
    EveryMemberGetsACopy(t, members, b, m);
    ExpansionKeepsUnique(t, members);
    id :| id in after && Holds(after, id, tenant, key);
    if Taken(t, tenant, key) {
      var holder :| holder in t && Holds(t, holder, tenant, key);
      DisabledIffDelivered(t, members, holder);
      StaysHolding(t, after, members, holder in Broadcasts(t), holder, tenant, key);
    }
    if id in t {
      DisabledIffDelivered(t, members, id);
    } else {
      OnlyCopiesAreAdded(t, members, id);
      SameCopy(t, members, b, m, after[id]);
    }
  }

  lemma StaysHolding(t: Notes, after: Notes, members: seq<Member>, done: bool, id: nat, tenant: int, key: string)
    requires id in t && RowStays(t, after, members, done, id) && Holds(t, id, tenant, key)
    ensures Holds(after, id, tenant, key)
  {
  }

  lemma {:induction false} SameCopy(t: Notes, members: seq<Member>, b: nat, m: Member, copy: Note)
    requires OneUserOnce(members) && b in t && m in members && IsActive(m, t[b].tenant)
    requires IsCopy(t, members, copy) && copy.tenant == t[b].tenant && copy.key == Some(CopyKey(b, m.user))
    ensures copy == CopyFor(b, t[b], m)
  {
    hide Active, Trim, BroadcastKey, CopyKey;
    var c, k :| c in Broadcasts(t) && k in Active(members, t[c].tenant) && copy == CopyFor(c, t[c], k);
    CopyKeyInjective(c, k.user, b, m.user);
  }

  /** Expanding again finds only broadcasts without recipients and changes nothing. */
  lemma {:induction false} SecondExpansionIsQuiet(t: Notes, members: seq<Member>)
    requires Unique(t)
    ensures Expanded(Expanded(t, members), members) == Expanded(t, members)
  {
    hide Expanded, Ascending, Unique, Active, CopyFor, CopyKey;
    var after := Expanded(t, members);
    forall b | b in Broadcasts(after) ensures !HasMembers(members, after[b].tenant) {
      if b in t {
        DisabledIffDelivered(t, members, b);
      } else {
        OnlyCopiesAreAdded(t, members, b);
        CopiesAreAddressed(t, members, after[b]);
      }
    }
    NoRecipientsNoChange(after, members);
  }

  lemma CopiesAreAddressed(t: Notes, members: seq<Member>, copy: Note)
    requires IsCopy(t, members, copy)
    ensures copy.recipient != 0
  {
    hide Trim, BroadcastKey, CopyKey, Active;
  }

  lemma {:induction false} NoRecipientsNoChange(t: Notes, members: seq<Member>)
    requires forall b :: b in Broadcasts(t) ==> !HasMembers(members, t[b].tenant)
    ensures Expanded(t, members) == t
  {
    hide Ascending, Active;
    BroadcastOrder(t);
    var bs := Ascending(Broadcasts(t));
    QuietUpTo(t, bs, |bs|, members);
  }

  lemma {:induction false} QuietUpTo(t: Notes, bs: seq<nat>, n: nat, members: seq<Member>)
    requires BroadcastList(t, bs) && n <= |bs| && forall b :: b in Broadcasts(t) ==> !HasMembers(members, t[b].tenant)
    ensures ExpandFirst(t, bs, n, members) == t
  {
    hide Active, Copies;
    if n > 0 {
      QuietUpTo(t, bs, n - 1, members);
      assert bs[n - 1] in Broadcasts(t);
    }
  }
}
