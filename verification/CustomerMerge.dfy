/**
 The merge of duplicate customer identities (migration 18): identities are read in id order; the
 first one of a key names the canonical customer, every later one hands its customer's
 conversations, tickets and contacts over and is deleted.
 */
module CustomerMerge {
  import opened Tables
  import opened Text

  datatype Ident = Ident(source: string, external: string, customer: int)

  datatype Contact = Contact(customer: int, kind: string, value: string)

  type Contacts = map<nat, Contact>

  datatype Db = Db(identities: map<nat, Ident>, conversations: map<nat, int>, tickets: map<nat, int>,
                   contacts: Contacts)

  // ---------------------------------------------------------------- keys

  function KeyOf(i: Ident): string {
    Trim(i.source) + [':'] + Trim(i.external)
  }

  // One source continues the other past a separator, and the external ids make up for it.
  ghost predicate Shifted(i: Ident, j: Ident, s: string) {
    Trim(i.source) == Trim(j.source) + [':'] + s && Trim(j.external) == s + [':'] + Trim(i.external)
  }

  lemma {:induction false} LongerSourceShifts(i: Ident, j: Ident) returns (s: string)
    requires KeyOf(i) == KeyOf(j) && |Trim(i.source)| > |Trim(j.source)|
    ensures Shifted(i, j, s)
  {
    hide Trim;
    var a, b, a', b' := Trim(i.source), Trim(i.external), Trim(j.source), Trim(j.external);
    var key := a + [':'] + b;
    assert key == a' + [':'] + b';
    s := a[|a'| + 1..];
    assert a' == key[..|a'|] == a[..|a'|] && key[|a'|] == ':' == a[|a'|];
    assert a == a' + [':'] + s;
    assert b' == key[|a'| + 1..] == s + [':'] + b;
  }

  lemma {:induction false} ShiftedKeysAgree(i: Ident, j: Ident, s: string)
    requires Shifted(i, j, s)
    ensures KeyOf(i) == KeyOf(j)
  {
    hide Trim;
    var a', b := Trim(j.source), Trim(i.external);
    assert (a' + [':'] + s) + [':'] + b == a' + [':'] + (s + [':'] + b);
  }

  /**
   Two identities share a key exactly when their trimmed pairs agree or one pair is the other shifted over a separator.
   */
  lemma {:induction false} KeysAgreeIff(i: Ident, j: Ident)
    ensures KeyOf(i) == KeyOf(j) <==>
            || (Trim(i.source) == Trim(j.source) && Trim(i.external) == Trim(j.external))
            || (exists s :: Shifted(i, j, s)) || (exists s :: Shifted(j, i, s))
  {
    hide Trim, Shifted;
    if KeyOf(i) == KeyOf(j) {
      if |Trim(i.source)| > |Trim(j.source)| {
        var s := LongerSourceShifts(i, j);
      } else if |Trim(i.source)| < |Trim(j.source)| {
        var s := LongerSourceShifts(j, i);
      } else {
        EqualLengthsAgree(Trim(i.source), Trim(i.external), Trim(j.source), Trim(j.external));
      }
    }
    if s :| Shifted(i, j, s) { ShiftedKeysAgree(i, j, s); }
    if s :| Shifted(j, i, s) { ShiftedKeysAgree(j, i, s); }
  }

  lemma EqualLengthsAgree(a: string, b: string, a': string, b': string)
    requires |a| == |a'| && a + [':'] + b == a' + [':'] + b'
    ensures a == a' && b == b'
  {
    var key := a + [':'] + b;
    assert a == key[..|a|] == a' && b == key[|a| + 1..] == b';
  }

  /** When sources do not contain the separator keys tell identities apart. */
  lemma {:induction false} KeysTellApart(i: Ident, j: Ident)
    requires ':' !in Trim(i.source) && ':' !in Trim(j.source)
    ensures KeyOf(i) == KeyOf(j) <==> Trim(i.source) == Trim(j.source) && Trim(i.external) == Trim(j.external)
  {
    if KeyOf(i) == KeyOf(j) {
      SplitUnique(Trim(i.source), Trim(i.external), Trim(j.source), Trim(j.external), ':');
    }
  }

  const SOURCES: set<string> := {"guest", "wxwork_kf", "whatsapp", "user"}

  /** The four sources the platform has contain none, so its keys stand for source and external id. */
  lemma {:induction false} KnownSourcesTellApart(i: Ident, j: Ident)
    requires Trim(i.source) in SOURCES && Trim(j.source) in SOURCES
    ensures KeyOf(i) == KeyOf(j) <==> Trim(i.source) == Trim(j.source) && Trim(i.external) == Trim(j.external)
  {
    hide KeyOf, Trim;
    assert ':' !in "guest" && ':' !in "wxwork_kf" && ':' !in "whatsapp" && ':' !in "user";
    KeysTellApart(i, j);
  }

  // ---------------------------------------------------------------- contacts

  predicate SameContact(c: Contact, d: Contact) {
    c.kind == d.kind && c.value == d.value
  }

  predicate HasContact(contacts: Contacts, customer: int, c: Contact) {
    exists k :: k in contacts && contacts[k].customer == customer && SameContact(contacts[k], c)
  }

  /** One contact of the duplicate customer: deleted if the canonical customer has it already, else moved. */
  function MoveContact(contacts: Contacts, k: nat, canonical: int): Contacts
    requires k in contacts
  {
    if HasContact(contacts, canonical, contacts[k]) then contacts - {k}
    else contacts[k := contacts[k].(customer := canonical)]
  }

  function MoveContacts(contacts: Contacts, rows: seq<nat>, n: nat, canonical: int): Contacts
    requires n <= |rows|
  {
    if n == 0 then contacts
    else
      var before := MoveContacts(contacts, rows, n - 1, canonical);
      if rows[n - 1] in before then MoveContact(before, rows[n - 1], canonical) else before
  }

  function ContactRows(contacts: Contacts, customer: int): set<nat> {
    set k | k in contacts && contacts[k].customer == customer
  }

  /** Where a row of customer x belongs once `duplicate` has been merged into `canonical`. */
  function Redirect(x: int, duplicate: int, canonical: int): int {
    if x == duplicate then canonical else x
  }

  // Contact rows are never created and keep their kind and value.
  ghost predicate RowsKept(before: Contacts, after: Contacts) {
    after.Keys <= before.Keys && forall k :: k in after ==> SameContact(after[k], before[k])
  }

  predicate Twins(contacts: Contacts, k: nat, l: nat) {
    k in contacts && l in contacts && k != l && contacts[k].customer == contacts[l].customer &&
    SameContact(contacts[k], contacts[l])
  }

  // Two rows of one customer that say the same did so before.
  ghost predicate NoNewTwins(before: Contacts, after: Contacts) {
    forall k, l :: Twins(after, k, l) ==> Twins(before, k, l)
  }

  // The rows in `done` were moved or dropped in favour of a row of the canonical customer; the others are as before.
  ghost predicate Handled(before: Contacts, after: Contacts, done: set<nat>, canonical: int) {
    && after.Keys <= before.Keys
    && (forall k :: k in before && k !in done ==> k in after && after[k] == before[k])
    && (forall k :: k in after && k in done ==> after[k] == before[k].(customer := canonical))
    && (forall k :: k in before && k in done ==> HasContact(after, canonical, before[k]))
  }

  lemma {:induction false} MoveAddsNoTwins(contacts: Contacts, k: nat, canonical: int)
    requires k in contacts
    ensures RowsKept(contacts, MoveContact(contacts, k, canonical)) &&
            NoNewTwins(contacts, MoveContact(contacts, k, canonical))
  {
    var after := MoveContact(contacts, k, canonical);
    forall i, j | Twins(after, i, j) ensures Twins(contacts, i, j) {
    }
  }

  lemma {:induction false} MoveKeepsContact(contacts: Contacts, k: nat, canonical: int, c: Contact)
    requires k in contacts && contacts[k].customer != canonical
    ensures HasContact(contacts, canonical, c) ==> HasContact(MoveContact(contacts, k, canonical), canonical, c)
    ensures HasContact(MoveContact(contacts, k, canonical), canonical, contacts[k])
  {
    var after := MoveContact(contacts, k, canonical);
    if HasContact(contacts, canonical, c) {
      var h :| h in contacts && contacts[h].customer == canonical && SameContact(contacts[h], c);
      assert h in after && after[h] == contacts[h];
    }
    if HasContact(contacts, canonical, contacts[k]) {
      var h :| h in contacts && contacts[h].customer == canonical && SameContact(contacts[h], contacts[k]);
      assert h in after && after[h] == contacts[h];
    } else {
      assert k in after && after[k].customer == canonical && SameContact(after[k], contacts[k]);
    }
  }

  lemma {:induction false} MoveHandles(before: Contacts, mid: Contacts, done: set<nat>, k: nat, canonical: int)
    requires Handled(before, mid, done, canonical) && k in before && k !in done && before[k].customer != canonical
    ensures k in mid && Handled(before, MoveContact(mid, k, canonical), done + {k}, canonical)
  {
    hide HasContact;
    var after := MoveContact(mid, k, canonical);
    forall h | h in before && h in done + {k} ensures HasContact(after, canonical, before[h]) {
      MoveKeepsContact(mid, k, canonical, before[h]);
    }
  }

  ghost predicate ListsRows(contacts: Contacts, rows: seq<nat>, customer: int) {
    && (forall k :: k in rows <==> k in ContactRows(contacts, customer))
    && (forall i, j :: 0 <= i < j < |rows| ==> rows[i] != rows[j])
  }

  ghost function First(rows: seq<nat>, n: nat): set<nat>
    requires n <= |rows|
  {
    set i | 0 <= i < n :: rows[i]
  }

  lemma {:induction false} MovesHandle(contacts: Contacts, rows: seq<nat>, n: nat, duplicate: int, canonical: int)
    requires ListsRows(contacts, rows, duplicate) && n <= |rows| && duplicate != canonical
    ensures var after := MoveContacts(contacts, rows, n, canonical);
            Handled(contacts, after, First(rows, n), canonical) && RowsKept(contacts, after) &&
            NoNewTwins(contacts, after)
  {
    hide MoveContact, HasContact;
    if n > 0 {
      MovesHandle(contacts, rows, n - 1, duplicate, canonical);
      var mid := MoveContacts(contacts, rows, n - 1, canonical);
      var k := rows[n - 1];
      assert First(rows, n) == First(rows, n - 1) + {k};
      assert k in rows && k !in First(rows, n - 1);
      MoveHandles(contacts, mid, First(rows, n - 1), k, canonical);
      MoveAddsNoTwins(mid, k, canonical);
    }
  }

  // What merging the contacts of one customer into another achieves.
  ghost predicate ContactsRedirected(before: Contacts, after: Contacts, duplicate: int, canonical: int) {
    && RowsKept(before, after) && NoNewTwins(before, after)
    && (forall k :: k in after ==> after[k].customer == Redirect(before[k].customer, duplicate, canonical))
    && (forall k :: k in before ==> HasContact(after, Redirect(before[k].customer, duplicate, canonical), before[k]))
    && (forall k :: k in before && before[k].customer != duplicate ==> k in after && after[k] == before[k])
  }

  lemma OwnContact(contacts: Contacts, k: nat)
    requires k in contacts
    ensures HasContact(contacts, contacts[k].customer, contacts[k])
  {
    assert SameContact(contacts[k], contacts[k]);
  }

  /** In whatever order the rows are returned. */
  lemma {:induction false} MovedContacts(contacts: Contacts, rows: seq<nat>, duplicate: int, canonical: int)
    requires ListsRows(contacts, rows, duplicate) && duplicate != canonical
    ensures ContactsRedirected(contacts, MoveContacts(contacts, rows, |rows|, canonical), duplicate, canonical)
  {
    hide MoveContacts, NoNewTwins, RowsKept, HasContact;
    MovesHandle(contacts, rows, |rows|, duplicate, canonical);
    var after := MoveContacts(contacts, rows, |rows|, canonical);
    var done := First(rows, |rows|);
    assert forall k :: k in done <==> k in rows;
    forall k | k in contacts
      ensures HasContact(after, Redirect(contacts[k].customer, duplicate, canonical), contacts[k])
    {
      if k !in rows { OwnContact(after, k); }
    }
  }

  // ---------------------------------------------------------------- one reassignment, the whole pass

  function Retarget(rows: map<nat, int>, duplicate: int, canonical: int): map<nat, int> {
    map k | k in rows :: Redirect(rows[k], duplicate, canonical)
  }

  predicate Skips(duplicate: int, canonical: int) {
    duplicate <= 0 || canonical <= 0 || duplicate == canonical
  }

  /** `rows` are the duplicate customer's contacts in the order the query returns them. */
  function Reassign(db: Db, duplicate: int, canonical: int, rows: seq<nat>): Db {
    if Skips(duplicate, canonical) then db
    else
      Db(db.identities, Retarget(db.conversations, duplicate, canonical), Retarget(db.tickets, duplicate, canonical),
         MoveContacts(db.contacts, rows, |rows|, canonical))
  }

  datatype Progress = Progress(db: Db, canonical: map<string, int>)

  predicate Listed(db: Db, rows: seq<nat>) {
    forall j :: 0 <= j < |rows| ==> rows[j] in db.identities
  }

  function Row(db: Db, rows: seq<nat>, j: nat): Ident
    requires Listed(db, rows) && j < |rows|
  {
    db.identities[rows[j]]
  }

  /**
   The contact query names no order, so the order is whatever the database returns: any function of
   the round, the table and the customer that lists the customer's rows.
   */
  type Order = (nat, Contacts, int) -> seq<nat>

  ghost predicate Lawful(order: Order) {
    forall n: nat, contacts: Contacts, customer: int :: ListsRows(contacts, order(n, contacts, customer), customer)
  }

  /** There are such orders, for one that of ascending ids. */
  lemma AscendingIsLawful()
    ensures Lawful((n: nat, contacts: Contacts, customer: int) => Ascending(ContactRows(contacts, customer)))
  {
  }

  /** The first n identities handled. */
  function Pass(db: Db, rows: seq<nat>, n: nat, order: Order): Progress
    requires Listed(db, rows) && n <= |rows|
  {
    if n == 0 then Progress(db, map[])
    else
      var p, identity := Pass(db, rows, n - 1, order), Row(db, rows, n - 1);
      PassStep(p, rows[n - 1], identity, order(n - 1, p.db.contacts, identity.customer))
  }

  function PassStep(p: Progress, id: nat, identity: Ident, contactRows: seq<nat>): Progress {
    var key := KeyOf(identity);
    if key in p.canonical then
      var db := Reassign(p.db, identity.customer, p.canonical[key], contactRows);
      Progress(db.(identities := db.identities - {id}), p.canonical)
    else
      Progress(p.db, p.canonical[key := identity.customer])
  }

  function Merge(db: Db, order: Order): Db {
    var rows := Ascending(db.identities.Keys);
    assert forall j :: 0 <= j < |rows| ==> rows[j] in rows;
    Pass(db, rows, |rows|, order).db
  }

  /** The tables the migration works on. */
  class Store {
    var db: Db

    constructor (start: Db)
      ensures db == start
    {
      db := start;
    }

    method ReassignReferences(duplicate: int, canonical: int, rows: seq<nat>)
      modifies this
      ensures db == Reassign(old(db), duplicate, canonical, rows)
    {
      hide HasContact;
      if duplicate <= 0 || canonical <= 0 || duplicate == canonical {
        return;
      }
      db := db.(conversations := Retarget(db.conversations, duplicate, canonical));
      db := db.(tickets := Retarget(db.tickets, duplicate, canonical));
      for i := 0 to |rows|
        invariant db == old(db).(conversations := Retarget(old(db).conversations, duplicate, canonical),
                                 tickets := Retarget(old(db).tickets, duplicate, canonical),
                                 contacts := MoveContacts(old(db).contacts, rows, i, canonical))
      {
        var k := rows[i];
        if k in db.contacts {
          if HasContact(db.contacts, canonical, db.contacts[k]) {
            db := db.(contacts := db.contacts - {k});
          } else {
            db := db.(contacts := db.contacts[k := db.contacts[k].(customer := canonical)]);
          }
        }
      }
    }

    method MergeIdentities(order: Order)
      modifies this
      ensures db == Merge(old(db), order)
    {
      hide Reassign, KeyOf, Ascending;
      var identities := db.identities;
      var rows := Ascending(identities.Keys);
      var canonicalCustomers: map<string, int> := map[];
      assert Listed(db, rows) by { assert forall j :: 0 <= j < |rows| ==> rows[j] in rows; }
      for i := 0 to |rows|
        invariant Listed(old(db), rows)
        invariant Progress(db, canonicalCustomers) == Pass(old(db), rows, i, order)
      {
        var identity := identities[rows[i]];
        var key := KeyOf(identity);
        if key in canonicalCustomers {
          ReassignReferences(identity.customer, canonicalCustomers[key], order(i, db.contacts, identity.customer));
          db := db.(identities := db.identities - {rows[i]});
        } else {
          canonicalCustomers := canonicalCustomers[key := identity.customer];
        }
      }
    }
  }
}
