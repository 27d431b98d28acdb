/** What merging duplicate customer identities leaves behind. */
module CustomerMergeResults {
  import opened Tables
  import opened CustomerMerge
  import opened Text

  // ---------------------------------------------------------------- where a customer's rows go

  /** The canonical customers after the first n identities; they do not depend on any contact. */
  ghost function Firsts(db: Db, rows: seq<nat>, n: nat): map<string, int>
    requires Listed(db, rows) && n <= |rows|
  {
    if n == 0 then map[]
    else
      var before, i := Firsts(db, rows, n - 1), Row(db, rows, n - 1);
      if KeyOf(i) in before then before else before[KeyOf(i) := i.customer]
  }

  lemma {:induction false} PassFirsts(db: Db, rows: seq<nat>, n: nat, order: Order)
    requires Listed(db, rows) && n <= |rows|
    ensures Pass(db, rows, n, order).canonical == Firsts(db, rows, n)
  {
    hide KeyOf, Reassign;
    if n > 0 { PassFirsts(db, rows, n - 1, order); }
  }

  /** What one identity does to the rows that currently belong to customer r. */
  ghost function RouteStep(canonical: map<string, int>, identity: Ident, r: int): int {
    var key := KeyOf(identity);
    if key in canonical && !Skips(identity.customer, canonical[key])
    then Redirect(r, identity.customer, canonical[key]) else r
  }

  /** The customer that owns the rows of customer x after the first n identities. */
  ghost function Route(db: Db, rows: seq<nat>, n: nat, x: int): int
    requires Listed(db, rows) && n <= |rows|
  {
    if n == 0 then x else RouteStep(Firsts(db, rows, n - 1), Row(db, rows, n - 1), Route(db, rows, n - 1, x))
  }

  ghost predicate Follows(before: map<nat, int>, after: map<nat, int>, db: Db, rows: seq<nat>, n: nat)
    requires Listed(db, rows) && n <= |rows|
  {
    after.Keys == before.Keys && forall k :: k in before ==> after[k] == Route(db, rows, n, before[k])
  }

  lemma {:induction false} ReferencesFollow(db: Db, rows: seq<nat>, n: nat, order: Order)
    requires Listed(db, rows) && n <= |rows|
    ensures Follows(db.conversations, Pass(db, rows, n, order).db.conversations, db, rows, n)
    ensures Follows(db.tickets, Pass(db, rows, n, order).db.tickets, db, rows, n)
  {
    hide KeyOf, MoveContacts, Firsts;
    if n > 0 {
      ReferencesFollow(db, rows, n - 1, order);
      PassFirsts(db, rows, n - 1, order);
    }
  }

  ghost predicate ContactsFollow(before: Contacts, after: Contacts, db: Db, rows: seq<nat>, n: nat)
    requires Listed(db, rows) && n <= |rows|
  {
    && (forall k :: k in after && k in before ==> after[k].customer == Route(db, rows, n, before[k].customer))
    && (forall k :: k in before ==> HasContact(after, Route(db, rows, n, before[k].customer), before[k]))
  }

  lemma {:induction false} ContactsRouted(db: Db, rows: seq<nat>, n: nat, order: Order)
    requires Listed(db, rows) && n <= |rows| && Lawful(order)
    ensures var after := Pass(db, rows, n, order).db.contacts;
            RowsKept(db.contacts, after) && NoNewTwins(db.contacts, after) &&
            ContactsFollow(db.contacts, after, db, rows, n)
  {
    hide Lawful;
    if n == 0 {
      forall k | k in db.contacts ensures HasContact(db.contacts, db.contacts[k].customer, db.contacts[k]) {
        OwnContact(db.contacts, k);
      }
    } else {
      ContactsRouted(db, rows, n - 1, order);
      ContactsStep(db, rows, n, order);
    }
  }

  // One round either leaves the contacts alone or redirects those of its customer, and routes accordingly.
  lemma {:induction false} RoundEffect(db: Db, rows: seq<nat>, m: nat, order: Order)
    requires Listed(db, rows) && m < |rows| && Lawful(order)
    ensures var mid, after := Pass(db, rows, m, order).db.contacts, Pass(db, rows, m + 1, order).db.contacts;
            var canonical, i := Firsts(db, rows, m), Row(db, rows, m);
            if KeyOf(i) in canonical && !Skips(i.customer, canonical[KeyOf(i)])
            then ContactsRedirected(mid, after, i.customer, canonical[KeyOf(i)])
            else after == mid
  {
    hide KeyOf, MoveContacts, Firsts, ContactsRedirected, ListsRows;
    PassFirsts(db, rows, m, order);
    var p, i := Pass(db, rows, m, order), Row(db, rows, m);
    if KeyOf(i) in p.canonical && !Skips(i.customer, p.canonical[KeyOf(i)]) {
      var contactRows := order(m, p.db.contacts, i.customer);
      assert ListsRows(p.db.contacts, contactRows, i.customer);
      MovedContacts(p.db.contacts, contactRows, i.customer, p.canonical[KeyOf(i)]);
    }
  }

  lemma {:induction false} ContactsStep(db: Db, rows: seq<nat>, n: nat, order: Order)
    requires Listed(db, rows) && 0 < n <= |rows| && Lawful(order)
    requires var mid := Pass(db, rows, n - 1, order).db.contacts;
             RowsKept(db.contacts, mid) && NoNewTwins(db.contacts, mid) &&
             ContactsFollow(db.contacts, mid, db, rows, n - 1)
    ensures var after := Pass(db, rows, n, order).db.contacts;
            RowsKept(db.contacts, after) && NoNewTwins(db.contacts, after) &&
            ContactsFollow(db.contacts, after, db, rows, n)
  {
    hide KeyOf, Pass, Firsts, HasContact, Twins, Lawful;
    RoundEffect(db, rows, n - 1, order);
    var canonical, i := Firsts(db, rows, n - 1), Row(db, rows, n - 1);
    var mid, after := Pass(db, rows, n - 1, order).db.contacts, Pass(db, rows, n, order).db.contacts;
    if KeyOf(i) in canonical && !Skips(i.customer, canonical[KeyOf(i)]) {
      forall k | k in db.contacts
        ensures HasContact(after, Route(db, rows, n, db.contacts[k].customer), db.contacts[k])
      {
        HasFollows(mid, after, i.customer, canonical[KeyOf(i)], Route(db, rows, n - 1, db.contacts[k].customer),
                   db.contacts[k]);
      }
    }
  }

  lemma {:induction false} HasFollows(
    mid: Contacts, after: Contacts, duplicate: int, canonical: int, r: int, c: Contact)
    requires ContactsRedirected(mid, after, duplicate, canonical) && HasContact(mid, r, c)
    ensures HasContact(after, Redirect(r, duplicate, canonical), c)
  {
    hide NoNewTwins, RowsKept;
    var h :| h in mid && mid[h].customer == r && SameContact(mid[h], c);
    assert HasContact(after, Redirect(r, duplicate, canonical), mid[h]);
    var g :| g in after && after[g].customer == Redirect(r, duplicate, canonical) && SameContact(after[g], mid[h]);
    assert SameContact(after[g], c);
  }

  // ---------------------------------------------------------------- which identities stay

  ghost predicate IsFirst(db: Db, rows: seq<nat>, j: nat)
    requires Listed(db, rows) && j < |rows|
  {
    forall h :: 0 <= h < j ==> KeyOf(Row(db, rows, h)) != KeyOf(Row(db, rows, j))
  }

  ghost predicate Names(db: Db, rows: seq<nat>, n: nat, key: string, j: nat)
    requires Listed(db, rows) && n <= |rows|
  {
    j < n && KeyOf(Row(db, rows, j)) == key && IsFirst(db, rows, j)
  }

  // `canonical` holds the customer of the first identity of every key among the first n.
  ghost predicate CanonicalIsFirst(db: Db, rows: seq<nat>, n: nat, canonical: map<string, int>)
    requires Listed(db, rows) && n <= |rows|
  {
    && (forall j :: 0 <= j < n ==> KeyOf(Row(db, rows, j)) in canonical)
    && (forall key ::
          key in canonical ==>
            exists j: nat :: Names(db, rows, n, key, j) && canonical[key] == Row(db, rows, j).customer)
  }

  ghost predicate OnlyFirstStay(db: Db, rows: seq<nat>, n: nat, after: map<nat, Ident>)
    requires Listed(db, rows) && n <= |rows|
  {
    && (forall k :: k in after ==> k in db.identities && after[k] == db.identities[k])
    && (forall j :: 0 <= j < |rows| ==> (rows[j] in after <==> (j < n ==> IsFirst(db, rows, j))))
  }

  lemma {:induction false} FirstsAreFirst(db: Db, rows: seq<nat>, n: nat)
    requires Listed(db, rows) && n <= |rows|
    ensures CanonicalIsFirst(db, rows, n, Firsts(db, rows, n))
  {
    hide KeyOf, IsFirst;
    if n > 0 {
      hide CanonicalIsFirst;
      FirstsAreFirst(db, rows, n - 1);
      CanonicalGrows(db, rows, n, Firsts(db, rows, n - 1), Firsts(db, rows, n));
    }
  }

  lemma NothingDropped(db: Db, rows: seq<nat>, order: Order)
    requires Listed(db, rows)
    ensures OnlyFirstStay(db, rows, 0, Pass(db, rows, 0, order).db.identities)
  {
  }

  lemma {:induction false} PassKeepsFirst(db: Db, rows: seq<nat>, n: nat, order: Order)
    requires Listed(db, rows) && n <= |rows| && InOrder(rows)
    ensures OnlyFirstStay(db, rows, n, Pass(db, rows, n, order).db.identities)
  {
    hide KeyOf, Pass, IsFirst, CanonicalIsFirst, OnlyFirstStay, Firsts;
    if n == 0 {
      NothingDropped(db, rows, order);
    } else {
      PassKeepsFirst(db, rows, n - 1, order);
      FirstsAreFirst(db, rows, n - 1);
      PassFirsts(db, rows, n - 1, order);
      FirstIffNew(db, rows, n - 1, Firsts(db, rows, n - 1));
      IdentitiesShrink(db, rows, n, order);
    }
  }

  lemma {:induction false} FirstIffNew(db: Db, rows: seq<nat>, n: nat, canonical: map<string, int>)
    requires Listed(db, rows) && n < |rows| && CanonicalIsFirst(db, rows, n, canonical)
    ensures IsFirst(db, rows, n) <==> KeyOf(Row(db, rows, n)) !in canonical
  {
    hide KeyOf;
    var key := KeyOf(Row(db, rows, n));
    if key in canonical {
      var j: nat :| Names(db, rows, n, key, j);
    }
  }

  lemma {:induction false} CanonicalGrows(
    db: Db, rows: seq<nat>, n: nat, mid: map<string, int>, after: map<string, int>)
    requires Listed(db, rows) && 0 < n <= |rows| && CanonicalIsFirst(db, rows, n - 1, mid)
    requires var i := Row(db, rows, n - 1); after == if KeyOf(i) in mid then mid else mid[KeyOf(i) := i.customer]
    ensures CanonicalIsFirst(db, rows, n, after)
  {
    hide KeyOf, IsFirst;
    FirstIffNew(db, rows, n - 1, mid);
    forall key | key in after
      ensures exists j: nat :: Names(db, rows, n, key, j) && after[key] == Row(db, rows, j).customer
    {
      if key in mid {
        var j: nat :| Names(db, rows, n - 1, key, j) && mid[key] == Row(db, rows, j).customer;
        assert Names(db, rows, n, key, j);
      } else {
        assert Names(db, rows, n, key, n - 1);
      }
    }
  }

  lemma {:induction false} IdentitiesShrink(db: Db, rows: seq<nat>, n: nat, order: Order)
    requires Listed(db, rows) && 0 < n <= |rows| && InOrder(rows)
    requires OnlyFirstStay(db, rows, n - 1, Pass(db, rows, n - 1, order).db.identities)
    requires IsFirst(db, rows, n - 1) <==> KeyOf(Row(db, rows, n - 1)) !in Pass(db, rows, n - 1, order).canonical
    ensures OnlyFirstStay(db, rows, n, Pass(db, rows, n, order).db.identities)
  {
    hide KeyOf, IsFirst, MoveContacts, Retarget, Skips;
  }

  // ---------------------------------------------------------------- results

  ghost predicate Lowest(db: Db, k: nat)
    requires k in db.identities
  {
    forall h :: h in db.identities && h < k ==> KeyOf(db.identities[h]) != KeyOf(db.identities[k])
  }

  ghost predicate KeysDiffer(db: Db) {
    forall k, l :: k in db.identities && l in db.identities && k != l ==>
      KeyOf(db.identities[k]) != KeyOf(db.identities[l])
  }

  lemma RowsListed(db: Db)
    ensures Listed(db, Ascending(db.identities.Keys)) && InOrder(Ascending(db.identities.Keys))
    ensures forall k :: k in db.identities ==> k in Ascending(db.identities.Keys)
  {
    hide Ascending;
    var rows := Ascending(db.identities.Keys);
    assert forall j :: 0 <= j < |rows| ==> rows[j] in rows;
  }

  lemma {:induction false} LowestIsFirst(db: Db, rows: seq<nat>, j: nat)
    requires Listed(db, rows) && InOrder(rows) && j < |rows| && forall k :: k in db.identities ==> k in rows
    ensures Lowest(db, rows[j]) <==> IsFirst(db, rows, j)
  {
    hide KeyOf;
    if IsFirst(db, rows, j) {
      forall h | h in db.identities && h < rows[j] ensures KeyOf(db.identities[h]) != KeyOf(db.identities[rows[j]]) {
        var i :| 0 <= i < |rows| && rows[i] == h;
        assert i < j;
        assert KeyOf(Row(db, rows, i)) != KeyOf(Row(db, rows, j));
      }
    }
    if Lowest(db, rows[j]) {
      forall h | 0 <= h < j ensures KeyOf(Row(db, rows, h)) != KeyOf(Row(db, rows, j)) {
      }
    }
  }

  /** Exactly the lowest identity of every key stays, unchanged. */
  lemma {:induction false} SurvivorsAreLowest(db: Db, order: Order, k: nat)
    requires k in db.identities
    ensures k in Merge(db, order).identities <==> Lowest(db, k)
    ensures k in Merge(db, order).identities ==> Merge(db, order).identities[k] == db.identities[k]
  {
    hide KeyOf, IsFirst, Pass, Ascending, Lowest;
    RowsListed(db);
    var rows := Ascending(db.identities.Keys);
    PassKeepsFirst(db, rows, |rows|, order);
    var j :| 0 <= j < |rows| && rows[j] == k;
    LowestIsFirst(db, rows, j);
  }

  lemma {:induction false} NoIdentityIsNew(db: Db, order: Order)
    ensures Merge(db, order).identities.Keys <= db.identities.Keys
  {
    hide KeyOf, IsFirst, Pass, Ascending, InOrder;
    RowsListed(db);
    var rows := Ascending(db.identities.Keys);
    PassKeepsFirst(db, rows, |rows|, order);
  }

  /** The trimmed keys are unique afterwards, so the unique index on source and external id can be created. */
  lemma {:induction false} MergedKeysDiffer(db: Db, order: Order)
    ensures KeysDiffer(Merge(db, order))
    ensures var after := Merge(db, order).identities;
            forall k, l :: k in after && l in after && k != l ==>
              after[k].source != after[l].source || after[k].external != after[l].external
  {
    hide KeyOf, Merge, Ascending;
    NoIdentityIsNew(db, order);
    var after := Merge(db, order).identities;
    forall k, l | k in after && l in after && k != l ensures KeyOf(after[k]) != KeyOf(after[l]) {
      SurvivorsAreLowest(db, order, k);
      SurvivorsAreLowest(db, order, l);
    }
    forall k, l | k in after && l in after && k != l
      ensures after[k].source != after[l].source || after[k].external != after[l].external
    {
      SamePairSameKey(after[k], after[l]);
    }
  }

  lemma SamePairSameKey(i: Ident, j: Ident)
    ensures i.source == j.source && i.external == j.external ==> KeyOf(i) == KeyOf(j)
  {
  }

  function IdsOf(db: Db, key: string): set<nat> {
    set k | k in db.identities && KeyOf(db.identities[k]) == key
  }

  /** No key disappears: its lowest identity is still there. */
  lemma {:induction false} EveryKeySurvives(db: Db, order: Order, key: string)
    requires IdsOf(db, key) != {}
    ensures Min(IdsOf(db, key)) in Merge(db, order).identities
  {
    hide KeyOf, Merge;
    var m := Min(IdsOf(db, key));
    assert m in IdsOf(db, key);
    forall h | h in db.identities && h < m ensures KeyOf(db.identities[h]) != KeyOf(db.identities[m]) {
      assert h !in IdsOf(db, key);
    }
    SurvivorsAreLowest(db, order, m);
  }

  ghost predicate Held(contacts: Contacts, c: Contact) {
    exists k :: k in contacts && contacts[k].kind == c.kind && contacts[k].value == c.value
  }

  /** The customer has a contact of that kind and value. */
  ghost predicate Shows(contacts: Contacts, customer: int, kind: string, value: string) {
    exists k ::
      k in contacts && contacts[k].customer == customer && contacts[k].kind == kind && contacts[k].value == value
  }

  /** No conversation or ticket is lost, the (kind, value) pairs of contacts stay, and no customer gains a duplicate. */
  lemma {:induction false} MergeLosesNothing(db: Db, order: Order)
    requires Lawful(order)
    ensures Merge(db, order).conversations.Keys == db.conversations.Keys &&
            Merge(db, order).tickets.Keys == db.tickets.Keys
    ensures forall c :: Held(Merge(db, order).contacts, c) <==> Held(db.contacts, c)
    ensures NoNewTwins(db.contacts, Merge(db, order).contacts)
  {
    hide KeyOf, Pass, Ascending, Route, Twins, Lawful;
    RowsListed(db);
    var rows := Ascending(db.identities.Keys);
    ReferencesFollow(db, rows, |rows|, order);
    ContactsRouted(db, rows, |rows|, order);
    var after := Merge(db, order).contacts;
    forall c ensures Held(after, c) <==> Held(db.contacts, c) {
      PairsStay(db.contacts, after, db, rows, c);
    }
  }

  lemma {:induction false} PairsStay(before: Contacts, after: Contacts, db: Db, rows: seq<nat>, c: Contact)
    requires Listed(db, rows) && RowsKept(before, after) && ContactsFollow(before, after, db, rows, |rows|)
    ensures Held(after, c) <==> Held(before, c)
  {
    hide Route;
    if Held(before, c) {
      var k :| k in before && before[k].kind == c.kind && before[k].value == c.value;
      var r := Route(db, rows, |rows|, before[k].customer);
      assert HasContact(after, r, before[k]);
      var h :| h in after && after[h].customer == r && SameContact(after[h], before[k]);
      assert SameContact(after[h], c);
    }
    if Held(after, c) {
      var k :| k in after && after[k].kind == c.kind && after[k].value == c.value;
      assert SameContact(before[k], c);
    }
  }

  // ---------------------------------------------------------------- the owner of a key

  /** The customer of the lowest identity of a key. */
  function Owner(db: Db, key: string): int
    requires IdsOf(db, key) != {}
  {
    db.identities[Min(IdsOf(db, key))].customer
  }

  /** The customer of the lowest identity that shares identity k's key. */
  function OwnerOf(db: Db, k: nat): int
    requires k in db.identities
  {
    assert k in IdsOf(db, KeyOf(db.identities[k]));
    Owner(db, KeyOf(db.identities[k]))
  }

  ghost predicate RealCustomers(db: Db) {
    forall k :: k in db.identities ==> db.identities[k].customer > 0
  }

  /** All keys of one customer have one owner. */
  ghost predicate OwnersAgree(db: Db) {
    forall k, l ::
      k in db.identities && l in db.identities && db.identities[k].customer == db.identities[l].customer ==>
        OwnerOf(db, k) == OwnerOf(db, l)
  }

  ghost predicate OneKeyPerCustomer(db: Db) {
    forall k, l ::
      k in db.identities && l in db.identities && db.identities[k].customer == db.identities[l].customer ==>
      KeyOf(db.identities[k]) == KeyOf(db.identities[l])
  }

  lemma OneKeyOneOwner(db: Db)
    requires OneKeyPerCustomer(db)
    ensures OwnersAgree(db)
  {
    hide KeyOf, Min;
  }

  ghost predicate AllListed(db: Db, rows: seq<nat>) {
    Listed(db, rows) && InOrder(rows) && forall k :: k in db.identities ==> k in rows
  }

  lemma {:induction false} FirstIsOwner(db: Db, rows: seq<nat>, j: nat)
    requires AllListed(db, rows) && j < |rows| && IsFirst(db, rows, j)
    ensures rows[j] in db.identities && OwnerOf(db, rows[j]) == Row(db, rows, j).customer
  {
    hide KeyOf, IsFirst, Min;
    LowestIsFirst(db, rows, j);
    assert rows[j] in IdsOf(db, KeyOf(Row(db, rows, j)));
  }

  lemma SameKeySameOwner(db: Db, k: nat, l: nat)
    requires k in db.identities && l in db.identities && KeyOf(db.identities[k]) == KeyOf(db.identities[l])
    ensures OwnerOf(db, k) == OwnerOf(db, l)
  {
  }

  // The canonical customer of a key met so far is its owner.
  lemma {:induction false} FirstsAreOwners(db: Db, rows: seq<nat>, n: nat, k: nat)
    requires AllListed(db, rows) && n <= |rows| && k in db.identities && KeyOf(db.identities[k]) in Firsts(db, rows, n)
    ensures Firsts(db, rows, n)[KeyOf(db.identities[k])] == OwnerOf(db, k)
  {
    hide KeyOf, IsFirst, OwnerOf, Firsts;
    FirstsAreFirst(db, rows, n);
    var key := KeyOf(db.identities[k]);
    var j: nat :| Names(db, rows, n, key, j) && Firsts(db, rows, n)[key] == Row(db, rows, j).customer;
    FirstIsOwner(db, rows, j);
    SameKeySameOwner(db, k, rows[j]);
  }

  // The owner of a key owns all its own keys.
  lemma {:induction false} OwnerOwnsItself(db: Db, k: nat, l: nat)
    requires OwnersAgree(db) && k in db.identities && l in db.identities && OwnerOf(db, k) == db.identities[l].customer
    ensures OwnerOf(db, l) == db.identities[l].customer
  {
    hide KeyOf;
    var key := KeyOf(db.identities[k]);
    assert k in IdsOf(db, key);
    var m := Min(IdsOf(db, key));
    assert m in IdsOf(db, key) && db.identities[m].customer == db.identities[l].customer;
    SameKeySameOwner(db, k, m);
    hide OwnerOf;
  }

  ghost predicate SeenAs(db: Db, rows: seq<nat>, n: nat, x: int, j: nat)
    requires Listed(db, rows) && n <= |rows|
  {
    j < n && Row(db, rows, j).customer == x
  }

  // The rows of a customer seen so far are with the owner of its keys; all others are where they were.
  ghost predicate Settled(db: Db, rows: seq<nat>, n: nat, x: int, r: int)
    requires Listed(db, rows) && n <= |rows|
  {
    && (forall j: nat :: SeenAs(db, rows, n, x, j) ==> r == OwnerOf(db, rows[j]))
    && ((forall j: nat :: !SeenAs(db, rows, n, x, j)) ==> r == x)
  }

  lemma {:induction false} RowsSettle(db: Db, rows: seq<nat>, n: nat, x: int)
    requires AllListed(db, rows) && n <= |rows| && OwnersAgree(db) && RealCustomers(db)
    ensures Settled(db, rows, n, x, Route(db, rows, n, x))
  {
    hide KeyOf, Firsts, OwnersAgree, RealCustomers, OwnerOf;
    if n > 0 {
      hide Settled;
      RowsSettle(db, rows, n - 1, x);
      SettleStep(db, rows, n - 1, x, Route(db, rows, n - 1, x));
    }
  }

  // What a round does to rows already with customer r, in terms of owners.
  lemma {:induction false} RoundByOwner(db: Db, rows: seq<nat>, m: nat, r: int)
    requires AllListed(db, rows) && m < |rows| && RealCustomers(db)
    ensures var i, owner := Row(db, rows, m), OwnerOf(db, rows[m]);
            RouteStep(Firsts(db, rows, m), i, r) == if r == i.customer then owner else r
  {
    hide KeyOf, OwnerOf, Firsts, IsFirst;
    var canonical, i := Firsts(db, rows, m), Row(db, rows, m);
    assert rows[m] in db.identities;
    if KeyOf(i) in canonical {
      FirstsAreOwners(db, rows, m, rows[m]);
      OwnerIsReal(db, rows[m]);
    } else {
      FirstsAreFirst(db, rows, m);
      FirstIffNew(db, rows, m, canonical);
      FirstIsOwner(db, rows, m);
    }
  }

  lemma OwnerIsReal(db: Db, k: nat)
    requires k in db.identities && RealCustomers(db)
    ensures OwnerOf(db, k) > 0
  {
  }

  lemma {:induction false} SettleStep(db: Db, rows: seq<nat>, m: nat, x: int, r: int)
    requires AllListed(db, rows) && m < |rows| && OwnersAgree(db) && RealCustomers(db) && Settled(db, rows, m, x, r)
    ensures Settled(db, rows, m + 1, x, RouteStep(Firsts(db, rows, m), Row(db, rows, m), r))
  {
    hide KeyOf, RouteStep, RealCustomers, OwnerOf, Firsts;
    var i := Row(db, rows, m);
    var r' := RouteStep(Firsts(db, rows, m), i, r);
    RoundByOwner(db, rows, m, r);
    assert rows[m] in db.identities;
    if j: nat :| SeenAs(db, rows, m, x, j) {
      assert r == OwnerOf(db, rows[j]);
      if r == i.customer { OwnerOwnsItself(db, rows[j], rows[m]); }
      assert r' == r;
      SeenStays(db, rows, m, x, r);
    } else {
      NewlySeen(db, rows, m, x, r');
    }
  }

  // A customer seen before stays settled: a further identity of it has the same owner.
  lemma {:induction false} SeenStays(db: Db, rows: seq<nat>, m: nat, x: int, r: int)
    requires Listed(db, rows) && m < |rows| && OwnersAgree(db) && Settled(db, rows, m, x, r)
    requires exists j: nat :: SeenAs(db, rows, m, x, j)
    ensures Settled(db, rows, m + 1, x, r)
  {
    hide KeyOf, OwnerOf;
    var j0: nat :| SeenAs(db, rows, m, x, j0);
    assert SeenAs(db, rows, m + 1, x, j0);
    forall j: nat | SeenAs(db, rows, m + 1, x, j) ensures r == OwnerOf(db, rows[j]) {
      if j < m { assert SeenAs(db, rows, m, x, j); } else { assert OwnerOf(db, rows[j]) == OwnerOf(db, rows[j0]); }
    }
  }

  // A customer not seen before is where it was, unless this identity names it.
  lemma {:induction false} NewlySeen(db: Db, rows: seq<nat>, m: nat, x: int, r: int)
    requires Listed(db, rows) && m < |rows| && forall j: nat :: !SeenAs(db, rows, m, x, j)
    requires x == Row(db, rows, m).customer ==> r == OwnerOf(db, rows[m])
    requires x != Row(db, rows, m).customer ==> r == x
    ensures Settled(db, rows, m + 1, x, r)
  {
    hide KeyOf, OwnerOf;
    if x == Row(db, rows, m).customer { assert SeenAs(db, rows, m + 1, x, m); }
    forall j: nat | SeenAs(db, rows, m + 1, x, j) ensures r == OwnerOf(db, rows[j]) {
      assert !SeenAs(db, rows, m, x, j);
    }
  }

  /** Where the merge leaves the rows of customer x. */
  ghost function Destination(db: Db, x: int): int {
    RowsListed(db);
    Route(db, Ascending(db.identities.Keys), |Ascending(db.identities.Keys)|, x)
  }

  lemma {:induction false} RouteStaysReal(db: Db, rows: seq<nat>, n: nat, x: int)
    requires Listed(db, rows) && n <= |rows|
    ensures if x > 0 then Route(db, rows, n, x) > 0 else Route(db, rows, n, x) == x
  {
    hide KeyOf, Firsts;
    if n > 0 { RouteStaysReal(db, rows, n - 1, x); }
  }

  /** Rows without a real customer stay where they are, and rows of a real customer go to a real one. */
  lemma {:induction false} OnlyRealCustomersMerge(db: Db, x: int)
    ensures if x > 0 then Destination(db, x) > 0 else Destination(db, x) == x
  {
    hide Route, Ascending;
    RowsListed(db);
    var rows := Ascending(db.identities.Keys);
    RouteStaysReal(db, rows, |rows|, x);
  }

  lemma {:induction false} OwnersAgreeSettles(db: Db, k: nat)
    requires OwnersAgree(db) && RealCustomers(db) && k in db.identities
    ensures Destination(db, db.identities[k].customer) == OwnerOf(db, k)
  {
    hide KeyOf, Route, OwnerOf, OwnersAgree, RealCustomers;
    RowsListed(db);
    var rows, x := Ascending(db.identities.Keys), db.identities[k].customer;
    RowsSettle(db, rows, |rows|, x);
    var i :| 0 <= i < |rows| && rows[i] == k;
    assert SeenAs(db, rows, |rows|, x, i);
  }

  /** Every customer's rows end at the owner of its keys if and only if all keys of each customer have one owner. */
  lemma {:induction false} RowsEndAtOwnersIff(db: Db)
    requires RealCustomers(db)
    ensures (forall k :: k in db.identities ==> Destination(db, db.identities[k].customer) == OwnerOf(db, k)) <==>
              OwnersAgree(db)
  {
    hide KeyOf, Destination, OwnerOf, RealCustomers;
    if OwnersAgree(db) {
      forall k | k in db.identities ensures Destination(db, db.identities[k].customer) == OwnerOf(db, k) {
        OwnersAgreeSettles(db, k);
      }
    }
  }

  // What the merge did to everything that belonged to customer x.
  ghost predicate AllMovedTo(db: Db, after: Db, x: int, owner: int) {
    && (forall c ::
          c in db.conversations && db.conversations[c] == x ==>
            c in after.conversations && after.conversations[c] == owner)
    && (forall t :: t in db.tickets && db.tickets[t] == x ==> t in after.tickets && after.tickets[t] == owner)
    && (forall c ::
          c in db.contacts && db.contacts[c].customer == x ==>
            Shows(after.contacts, owner, db.contacts[c].kind, db.contacts[c].value))
    && (forall c ::
          c in after.contacts && c in db.contacts && db.contacts[c].customer == x ==>
            after.contacts[c] == db.contacts[c].(customer := owner))
  }

  /** Conversations, tickets and contacts of any customer go to its destination, in whatever order contacts are read. */
  lemma {:induction false} EverythingMoves(db: Db, order: Order, x: int)
    requires Lawful(order)
    ensures AllMovedTo(db, Merge(db, order), x, Destination(db, x))
  {
    hide KeyOf, Pass, Ascending, Route, HasContact, Lawful, Shows;
    RowsListed(db);
    var rows := Ascending(db.identities.Keys);
    ReferencesFollow(db, rows, |rows|, order);
    ContactsRouted(db, rows, |rows|, order);
    var after := Merge(db, order).contacts;
    forall c | c in db.contacts && db.contacts[c].customer == x
      ensures Shows(after, Destination(db, x), db.contacts[c].kind, db.contacts[c].value)
    {
      HeldIsShown(after, Destination(db, x), db.contacts[c]);
    }
  }

  lemma HeldIsShown(contacts: Contacts, customer: int, c: Contact)
    requires HasContact(contacts, customer, c)
    ensures Shows(contacts, customer, c.kind, c.value)
  {
  }

  /** So when owners agree, everything of a key's customers ends at the customer of its lowest identity. */
  lemma {:induction false} EverythingEndsAtOwner(db: Db, order: Order, k: nat)
    requires OwnersAgree(db) && RealCustomers(db) && k in db.identities && Lawful(order)
    ensures AllMovedTo(db, Merge(db, order), db.identities[k].customer, OwnerOf(db, k))
  {
    hide KeyOf, Merge, Destination, AllMovedTo, OwnerOf, OwnersAgree, RealCustomers, Lawful;
    EverythingMoves(db, order, db.identities[k].customer);
    OwnersAgreeSettles(db, k);
  }

  lemma {:induction false} OneKeyEndsAtOwner(db: Db, order: Order, k: nat)
    requires OneKeyPerCustomer(db) && RealCustomers(db) && k in db.identities && Lawful(order)
    ensures AllMovedTo(db, Merge(db, order), db.identities[k].customer, OwnerOf(db, k))
  {
    hide KeyOf, Merge, AllMovedTo, OwnerOf, OwnersAgree, OneKeyPerCustomer, RealCustomers, Lawful;
    OneKeyOneOwner(db);
    EverythingEndsAtOwner(db, order, k);
  }

  // ---------------------------------------------------------------- customers without identities

  ghost predicate Nameless(db: Db, x: int) {
    forall k :: k in db.identities ==> db.identities[k].customer != x
  }

  lemma {:induction false} NamelessStays(db: Db, rows: seq<nat>, n: nat, x: int)
    requires Listed(db, rows) && n <= |rows| && Nameless(db, x)
    ensures Route(db, rows, n, x) == x
  {
    hide KeyOf, Firsts;
    if n > 0 {
      NamelessStays(db, rows, n - 1, x);
      assert rows[n - 1] in db.identities;
    }
  }

  lemma {:induction false} NamelessContactsStay(db: Db, rows: seq<nat>, n: nat, order: Order, c: nat)
    requires Listed(db, rows) && n <= |rows| && Lawful(order) && c in db.contacts &&
             Nameless(db, db.contacts[c].customer)
    ensures var after := Pass(db, rows, n, order).db.contacts; c in after && after[c] == db.contacts[c]
  {
    hide KeyOf, Firsts, Lawful, HasContact, RowsKept, NoNewTwins;
    if n > 0 {
      hide Pass;
      NamelessContactsStay(db, rows, n - 1, order, c);
      RoundEffect(db, rows, n - 1, order);
      assert rows[n - 1] in db.identities;
    }
  }

  /** Customers without an identity keep everything, row by row. */
  lemma {:induction false} OthersAreUntouched(db: Db, order: Order, x: int)
    requires Lawful(order) && Nameless(db, x)
    ensures var after := Merge(db, order);
            && (forall c ::
                  c in db.conversations && db.conversations[c] == x ==>
                    c in after.conversations && after.conversations[c] == x)
            && (forall t :: t in db.tickets && db.tickets[t] == x ==> t in after.tickets && after.tickets[t] == x)
            && (forall c ::
                  c in db.contacts && db.contacts[c].customer == x ==>
                    c in after.contacts && after.contacts[c] == db.contacts[c])
  {
    hide KeyOf, Pass, Ascending, Route, Lawful, Nameless;
    RowsListed(db);
    var rows := Ascending(db.identities.Keys);
    NamelessStays(db, rows, |rows|, x);
    ReferencesFollow(db, rows, |rows|, order);
    var after := Merge(db, order);
    forall c | c in db.contacts && db.contacts[c].customer == x
      ensures c in after.contacts && after.contacts[c] == db.contacts[c]
    {
      NamelessContactsStay(db, rows, |rows|, order, c);
    }
  }

  // ---------------------------------------------------------------- a customer whose keys have two owners

  const SHARED: Db := Db(
    map[1 := Ident("guest", "x", 1), 2 := Ident("guest", "x", 2), 3 := Ident("guest", "y", 2)],
    map[9 := 2], map[], map[])

  lemma SharedKeys()
    ensures KeyOf(Ident("guest", "x", 1)) == "guest:x" && KeyOf(Ident("guest", "x", 2)) == "guest:x" &&
            KeyOf(Ident("guest", "y", 2)) == "guest:y"
    ensures "guest:x" != "guest:y"
  {
    assert Trim("guest") == "guest" && Trim("x") == "x" && Trim("y") == "y";
    assert "guest:x"[6] != "guest:y"[6];
  }

  lemma {:induction false} SharedOwners()
    ensures OwnerOf(SHARED, 2) == 1 && OwnerOf(SHARED, 3) == 2
  {
    hide KeyOf, Min;
    SharedKeys();
    assert IdsOf(SHARED, "guest:x") == {1, 2};
    assert IdsOf(SHARED, "guest:y") == {3};
    assert Min({1, 2}) == 1 && Min({3}) == 3;
  }

  lemma {:induction false} SharedDestination()
    ensures Destination(SHARED, 2) == 1
  {
    hide KeyOf, Ascending;
    var rows := [1, 2, 3];
    assert SHARED.identities.Keys == {1, 2, 3};
    assert forall k :: k in rows <==> k in {1, 2, 3};
    AscendingUnique(SHARED.identities.Keys, rows);
    assert Listed(SHARED, rows);
    SharedKeys();
    assert Firsts(SHARED, rows, 1) == map["guest:x" := 1];
    assert Firsts(SHARED, rows, 2) == map["guest:x" := 1];
    assert Route(SHARED, rows, 1, 2) == 2;
    assert Route(SHARED, rows, 2, 2) == 1;
    assert Route(SHARED, rows, 3, 2) == 1;
  }

  /** Customer 2 owns the key guest:y but not its other key: its conversations go to customer 1. */
  lemma {:induction false} TwoOwnersSplitACustomer(order: Order)
    requires Lawful(order)
    ensures RealCustomers(SHARED) && !OwnersAgree(SHARED) && OwnerOf(SHARED, 3) == 2 == SHARED.conversations[9]
    ensures 9 in Merge(SHARED, order).conversations && Merge(SHARED, order).conversations[9] == 1
  {
    hide OwnerOf, Destination, Merge, Lawful;
    SharedOwners();
    SharedDestination();
    assert SHARED.identities[2].customer == SHARED.identities[3].customer;
    EverythingMoves(SHARED, order, 2);
  }

  // ---------------------------------------------------------------- a second run

  lemma {:induction false} DistinctKeysAreQuiet(db: Db, rows: seq<nat>, n: nat, order: Order)
    requires Listed(db, rows) && n <= |rows| && InOrder(rows) && KeysDiffer(db)
    ensures Pass(db, rows, n, order).db == db
  {
    hide KeyOf, Reassign, CanonicalIsFirst, Firsts;
    if n > 0 {
      DistinctKeysAreQuiet(db, rows, n - 1, order);
      FirstsAreFirst(db, rows, n - 1);
      PassFirsts(db, rows, n - 1, order);
      FirstIffNew(db, rows, n - 1, Firsts(db, rows, n - 1));
      assert IsFirst(db, rows, n - 1);
    }
  }

  /** Running the merge again changes nothing, whatever orders the two runs read contacts in. */
  lemma {:induction false} SecondMergeIsQuiet(db: Db, order: Order, again: Order)
    ensures Merge(Merge(db, order), again) == Merge(db, order)
  {
    hide KeyOf, Pass, Ascending, KeysDiffer;
    MergedKeysDiffer(db, order);
    var after := Merge(db, order);
    RowsListed(after);
    var rows := Ascending(after.identities.Keys);
    DistinctKeysAreQuiet(after, rows, |rows|, again);
  }
}
