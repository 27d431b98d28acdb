/**
 The link pass that migrations 86 and 92 share: of all live links with one identity the first in
 query order stays, the others are deleted; and the document repair of migration 92.
 */
module KnowledgeLinks {
  import opened Tables
  import opened KnowledgeRecovery
  import opened KnowledgeResults

  type Links = map<nat, Link>

  function Alike(links: Links, identity: Identity): set<nat> {
    set l | l in links && !links[l].status.Deleted? && links[l].identity == identity
  }

  function PublishedLinks(links: Links, s: set<nat>): set<nat> {
    set l | l in s && l in links && links[l].published
  }

  /** The published link with the lowest id, or the link with the lowest id. */
  function KeptLink(links: Links, identity: Identity): (l: nat)
    requires Alike(links, identity) != {}
    ensures l in Alike(links, identity)
  {
    var alike := Alike(links, identity);
    if PublishedLinks(links, alike) != {} then Min(PublishedLinks(links, alike)) else Min(alike)
  }

  predicate Keeps(links: Links, l: nat)
    requires l in links && !links[l].status.Deleted?
  {
    assert l in Alike(links, links[l].identity);
    KeptLink(links, links[l].identity) == l
  }

  predicate Dropped(links: Links, l: nat) {
    l in links && !links[l].status.Deleted? && !Keeps(links, l)
  }

  function Deduped(links: Links, done: set<nat>): Links {
    map l | l in links :: if l in done && Dropped(links, l) then links[l].(status := Deleted) else links[l]
  }

  ghost predicate LinkRowsSorted(links: Links, rows: seq<nat>) {
    && (forall i :: 0 <= i < |rows| ==> rows[i] in links && !links[rows[i]].status.Deleted?)
    && (forall l :: l in links && !links[l].status.Deleted? ==> l in rows)
    && (forall i, j ::
          0 <= i < j < |rows| && links[rows[i]].identity == links[rows[j]].identity ==>
            LinkBefore(links, rows[i], rows[j]))
  }

  predicate LinkBefore(links: Links, l: nat, m: nat)
    requires l in links && m in links
  {
    (links[l].published && !links[m].published) || (links[l].published == links[m].published && l < m)
  }

  ghost function DoneLinks(rows: seq<nat>, n: nat): set<nat>
    requires n <= |rows|
  {
    set i | 0 <= i < n :: rows[i]
  }

  lemma {:induction false} FirstLinkIsKept(links: Links, rows: seq<nat>, i: nat)
    requires LinkRowsSorted(links, rows) && i < |rows|
    ensures Keeps(links, rows[i]) <==> forall j :: 0 <= j < i ==> links[rows[j]].identity != links[rows[i]].identity
  {
    var l := rows[i];
    var alike := Alike(links, links[l].identity);
    assert l in alike;
    if links[l].published { assert l in PublishedLinks(links, alike); }
    var kept := KeptLink(links, links[l].identity);
    assert kept in rows;
    var k :| 0 <= k < |rows| && rows[k] == kept;
    forall j | 0 <= j < i && links[rows[j]].identity == links[l].identity ensures kept != l {
      assert rows[j] in alike;
      if links[rows[j]].published { assert rows[j] in PublishedLinks(links, alike); }
    }
  }

  /** The link loop with its map of identities already seen. */
  method DedupeLinks(links: Links, rows: seq<nat>) returns (after: Links)
    requires LinkRowsSorted(links, rows)
    ensures after == Deduped(links, links.Keys)
  {
    hide Keeps, LinkBefore, Deduped, DoneLinks;
    after := links;
    var seen: set<Identity> := {};
    NoneDropped(links, rows);
    for i := 0 to |rows|
      invariant after == Deduped(links, DoneLinks(rows, i))
      invariant forall k :: k in seen <==> exists j :: 0 <= j < i && links[rows[j]].identity == k
    {
      var l := rows[i];
      var key := links[l].identity;
      LinkStep(links, rows, i);
      FirstLinkIsKept(links, rows, i);
      if key !in seen {
        seen := seen + {key};
      } else {
        after := after[l := after[l].(status := Deleted)];
      }
    }
    AllLinksDone(links, rows);
  }

  lemma {:induction false} NoneDropped(links: Links, rows: seq<nat>)
    ensures Deduped(links, DoneLinks(rows, 0)) == links
  {
  }

  lemma {:induction false} LinkStep(links: Links, rows: seq<nat>, i: nat)
    requires LinkRowsSorted(links, rows) && i < |rows|
    ensures var before, after, l := Deduped(links, DoneLinks(rows, i)), Deduped(links, DoneLinks(rows, i + 1)), rows[i];
            l in before && after == if Keeps(links, l) then before else before[l := before[l].(status := Deleted)]
  {
    hide Keeps, LinkBefore;
    var before, l := Deduped(links, DoneLinks(rows, i)), rows[i];
    assert DoneLinks(rows, i + 1) == DoneLinks(rows, i) + {l};
    assert Dropped(links, l) <==> !Keeps(links, l);
    hide Dropped;
    if Keeps(links, l) {
      assert Deduped(links, DoneLinks(rows, i + 1)) == before;
    } else {
      assert Deduped(links, DoneLinks(rows, i + 1)) == before[l := before[l].(status := Deleted)];
    }
  }

  lemma {:induction false} AllLinksDone(links: Links, rows: seq<nat>)
    requires LinkRowsSorted(links, rows)
    ensures Deduped(links, DoneLinks(rows, |rows|)) == Deduped(links, links.Keys)
  {
    hide Keeps;
    forall l | l in links && Dropped(links, l) ensures l in DoneLinks(rows, |rows|) {
      assert l in rows;
    }
  }

  /** Afterwards live links have distinct identities, so the unique index can be built. */
  lemma {:induction false} LiveIdentitiesAreDistinct(links: Links, l: nat, m: nat)
    requires l in links && m in links
    requires var after := Deduped(links, links.Keys);
             !after[l].status.Deleted? && !after[m].status.Deleted? && after[l].identity == after[m].identity
    ensures l == m
  {
    hide KeptLink;
    assert Keeps(links, l) && Keeps(links, m);
  }

  /** Every live identity keeps exactly one link, a published one if there was any; nothing else changes. */
  lemma {:induction false} EveryIdentityKeepsOne(links: Links, identity: Identity)
    requires Alike(links, identity) != {}
    ensures var after, l := Deduped(links, links.Keys), KeptLink(links, identity);
            && after.Keys == links.Keys && Alike(after, identity) == {l} && after[l] == links[l]
            && (links[l].published <==> exists m :: m in Alike(links, identity) && links[m].published)
  {
    var alike, l := Alike(links, identity), KeptLink(links, identity);
    if m :| m in alike && links[m].published { assert m in PublishedLinks(links, alike); }
    var after := Deduped(links, links.Keys);
    forall m ensures m in Alike(after, identity) <==> m == l {
      if m in links && !links[m].status.Deleted? && links[m].identity == identity { assert m in alike; }
    }
  }

  // ---------------------------------------------------------------- migration 92

  /** All documents of a candidate, of whatever status, that migration 92 considers. */
  function Considered(db: Db, tenant: nat, ref: nat): set<nat> {
    set d | d in db.docs && db.docs[d].tenant == tenant && db.docs[d].ref == ref && !db.docs[d].kind.OtherKind?
  }

  function Preferred(db: Db, s: set<nat>): set<nat> {
    set d | d in s && d in db.docs && db.docs[d].kind.Candidate? && !db.docs[d].status.Deleted?
  }

  function FirstRanked(db: Db, s: set<nat>): (d: nat)
    requires s != {}
    ensures d in s
  {
    if PublishedIn(db, s) != {} then Min(PublishedIn(db, s)) else Min(s)
  }

  /** The first row of migration 92's ordering: live candidate documents first, then published, then by id. */
  function FirstOf(db: Db, s: set<nat>): (d: nat)
    requires s != {}
    ensures d in s
  {
    if Preferred(db, s) != {} then FirstRanked(db, Preferred(db, s)) else FirstRanked(db, s)
  }

  /** The documents in the order the query returns them. */
  function QueryOrder(db: Db, s: set<nat>): (ids: seq<nat>)
    ensures forall x :: x in ids <==> x in s
    ensures forall i, j :: 0 <= i < j < |ids| ==> ids[i] != ids[j]
    ensures s != {} ==> |ids| > 0 && ids[0] == FirstOf(db, s)
    decreases |s|
  {
    if s == {} then []
    else
      var first := FirstOf(db, s);
      var rest := QueryOrder(db, s - {first});
      assert forall i :: 0 <= i < |rest| ==> rest[i] in rest;
      [first] + rest
  }

  /** The ORDER BY of the query. */
  predicate Precedes(db: Db, d: nat, e: nat)
    requires d in db.docs && e in db.docs
  {
    var a, b := db.docs[d], db.docs[e];
    if IsPreferred(a) != IsPreferred(b) then IsPreferred(a)
    else if a.review.Published? != b.review.Published? then a.review.Published?
    else d < e
  }

  predicate IsPreferred(doc: Doc) {
    doc.kind.Candidate? && !doc.status.Deleted?
  }

  lemma {:induction false} FirstPrecedes(db: Db, s: set<nat>, e: nat)
    requires s <= db.docs.Keys && e in s && e != FirstOf(db, s)
    ensures FirstOf(db, s) in db.docs && Precedes(db, FirstOf(db, s), e)
  {
    var preferred := Preferred(db, s);
    if IsPreferred(db.docs[e]) { assert e in preferred; }
    var t := if preferred != {} then preferred else s;
    if e in t && db.docs[e].review.Published? { assert e in PublishedIn(db, t); }
  }

  lemma QueryRest(db: Db, s: set<nat>)
    requires s != {}
    ensures QueryOrder(db, s) == [FirstOf(db, s)] + QueryOrder(db, s - {FirstOf(db, s)})
  {
    hide FirstOf;
  }

  lemma {:induction false} QueryIsOrdered(db: Db, s: set<nat>, i: nat, j: nat)
    requires s <= db.docs.Keys && i < j < |QueryOrder(db, s)|
    ensures QueryOrder(db, s)[i] in s && QueryOrder(db, s)[j] in s &&
            Precedes(db, QueryOrder(db, s)[i], QueryOrder(db, s)[j])
    decreases |s|
  {
    hide FirstOf, Precedes, QueryOrder;
    var ids, first := QueryOrder(db, s), FirstOf(db, s);
    assert ids[i] in ids && ids[j] in ids;
    if i == 0 {
      assert ids[0] != ids[j];
      FirstPrecedes(db, s, ids[j]);
    } else {
      QueryRest(db, s);
      QueryIsOrdered(db, s - {first}, i - 1, j - 1);
    }
  }

  function First92(db: Db, tenant: nat, ref: nat): (d: nat)
    requires Considered(db, tenant, ref) != {}
    ensures d in Considered(db, tenant, ref)
  {
    FirstOf(db, Considered(db, tenant, ref))
  }

  /** All rows of the query but the first. */
  function Others(db: Db, tenant: nat, ref: nat): (ids: seq<nat>)
    requires Considered(db, tenant, ref) != {}
    ensures forall x :: x in ids <==> x in Considered(db, tenant, ref) && x != First92(db, tenant, ref)
    ensures forall i :: 0 <= i < |ids| ==> ids[i] in db.docs
  {
    var ids := QueryOrder(db, Considered(db, tenant, ref));
    assert ids == [ids[0]] + ids[1..];
    assert forall i :: 0 <= i < |ids| - 1 ==> ids[1..][i] == ids[i + 1] && ids[i + 1] in ids;
    ids[1..]
  }

  function DemoteAll(db: Db, ids: seq<nat>, n: nat, c: nat): Db
    requires n <= |ids| && forall i :: 0 <= i < |ids| ==> ids[i] in db.docs
    ensures DemoteAll(db, ids, n, c).docs.Keys == db.docs.Keys
  {
    if n == 0 then db else Demote(DemoteAll(db, ids, n - 1, c), ids[n - 1], c)
  }

  function Adopt92(db: Db, c: nat, d: nat): Db
    requires d in db.docs && c in db.cands
  {
    var doc := db.docs[d];
    Db(db.docs[d := doc.(kind := Candidate, status := if doc.review.Published? then Live else Disabled)],
       db.cands[c := db.cands[c].(base := doc.base, entry := d * 10 + 1)], db.links)
  }

  /** One round of the loop over live candidates. */
  function Repair(db: Db, c: nat): Db
    requires c in db.cands
  {
    var tenant := db.cands[c].tenant;
    if Considered(db, tenant, c) == {} then db
    else
      var d := First92(db, tenant, c);
      var others := Others(db, tenant, c);
      DemoteAll(Adopt92(db, c, d), others, |others|, d)
  }

  function LiveCands(db: Db): seq<nat> {
    Ascending(set c | c in db.cands && !db.cands[c].status.Deleted?)
  }

  function RepairUpTo(db: Db, ids: seq<nat>, n: nat): (r: Db)
    requires n <= |ids| && forall i :: 0 <= i < |ids| ==> ids[i] in db.cands
    ensures r.cands.Keys == db.cands.Keys
  {
    if n == 0 then db
    else
      var before := RepairUpTo(db, ids, n - 1);
      RepairKeys(before, ids[n - 1]);
      Repair(before, ids[n - 1])
  }

  /** One candidate: adopt the first document of the query, demote the others in query order. */
  method RepairOne(db: Db, c: nat) returns (after: Db)
    requires c in db.cands
    ensures after == Repair(db, c)
  {
    hide FirstOf, Adopt92, Demote, QueryOrder;
    var tenant := db.cands[c].tenant;
    var documents := QueryOrder(db, Considered(db, tenant, c));
    if |documents| == 0 {
      assert forall x :: x !in Considered(db, tenant, c);
      return db;
    }
    var canonical := documents[0];
    assert canonical in documents;
    ghost var adopted := Adopt92(db, c, canonical);
    ghost var others := Others(db, tenant, c);
    assert others == documents[1..];
    AdoptedKeys(db, c, canonical);
    after := Adopt92(db, c, canonical);
    for j := 1 to |documents|
      invariant after == DemoteAll(adopted, others, j - 1, canonical)
    {
      assert documents[j] == others[j - 1];
      after := Demote(after, documents[j], canonical);
    }
  }

  /** repairLegacyKnowledgeCandidateDocumentReferences: the loop over the live candidates. */
  method RepairReferences(db: Db) returns (after: Db)
    ensures forall i :: 0 <= i < |LiveCands(db)| ==> LiveCands(db)[i] in db.cands
    ensures after == RepairUpTo(db, LiveCands(db), |LiveCands(db)|)
  {
    hide Repair;
    var ids := LiveCands(db);
    forall i | 0 <= i < |ids| ensures ids[i] in db.cands { assert ids[i] in ids; }
    after := db;
    for i := 0 to |ids|
      invariant after == RepairUpTo(db, ids, i)
    {
      after := RepairOne(after, ids[i]);
    }
  }

  lemma AdoptedKeys(db: Db, c: nat, d: nat)
    requires d in db.docs && c in db.cands
    ensures Adopt92(db, c, d).docs.Keys == db.docs.Keys
  {
  }

  lemma {:induction false} DemoteAllEffect(db: Db, ids: seq<nat>, n: nat, c: nat)
    requires n <= |ids| && forall i :: 0 <= i < |ids| ==> ids[i] in db.docs
    ensures var after := DemoteAll(db, ids, n, c);
            && after.cands == db.cands && after.docs.Keys == db.docs.Keys
            && (forall i :: 0 <= i < n ==> after.docs[ids[i]] == Demoted(db.docs[ids[i]]))
            && (forall d :: d in db.docs && d !in ids ==> after.docs[d] == db.docs[d])
            && (forall d :: d in db.docs ==> after.docs[d] == db.docs[d] || after.docs[d] == Demoted(db.docs[d]))
  {
    hide Demote, Demoted;
    if n > 0 {
      DemoteAllEffect(db, ids, n - 1, c);
      var before, d := DemoteAll(db, ids, n - 1, c), ids[n - 1];
      DemoteDocs(before, d, c);
      DemotedTwice(db.docs[d]);
    }
  }

  lemma DemotedTwice(doc: Doc)
    ensures Demoted(Demoted(doc)) == Demoted(doc)
  {
  }

  lemma DemoteDocs(db: Db, d: nat, c: nat)
    requires d in db.docs
    ensures Demote(db, d, c).docs == db.docs[d := Demoted(db.docs[d])] && Demote(db, d, c).cands == db.cands
  {
    hide Repoint, Demoted;
  }

  /** A repair rewrites only its own candidate and that candidate's documents. */
  lemma {:induction false} RepairEffect(db: Db, c: nat)
    requires c in db.cands && Considered(db, db.cands[c].tenant, c) != {}
    ensures var tenant, after := db.cands[c].tenant, Repair(db, c);
            var d := First92(db, tenant, c);
            && after.docs.Keys == db.docs.Keys
            && after.cands == db.cands[c := db.cands[c].(base := db.docs[d].base, entry := d * 10 + 1)]
            && after.docs[d] ==
                 db.docs[d].(kind := Candidate, status := if db.docs[d].review.Published? then Live else Disabled)
            && (forall e :: e in Considered(db, tenant, c) && e != d ==> after.docs[e] == Demoted(db.docs[e]))
            && (forall e :: e in db.docs && e !in Considered(db, tenant, c) ==> after.docs[e] == db.docs[e])
  {
    hide First92;
    var tenant := db.cands[c].tenant;
    var d := First92(db, tenant, c);
    var others := Others(db, tenant, c);
    DemoteAllEffect(Adopt92(db, c, d), others, |others|, d);
    forall e | e in Considered(db, tenant, c) && e != d ensures Repair(db, c).docs[e] == Demoted(db.docs[e]) {
      assert e in others;
      var i :| 0 <= i < |others| && others[i] == e;
    }
  }

  lemma {:induction false} RepairKeys(db: Db, c: nat)
    requires c in db.cands
    ensures Repair(db, c).cands.Keys == db.cands.Keys && Repair(db, c).docs.Keys == db.docs.Keys
  {
    if Considered(db, db.cands[c].tenant, c) != {} { RepairEffect(db, c); }
  }

  /** The one document of a candidate that is a live candidate document. */
  ghost predicate Stands(db: Db, c: nat, d: nat) {
    c in db.cands && d in db.docs &&
    var tenant := db.cands[c].tenant;
    && db.cands[c].base == db.docs[d].base && db.cands[c].entry == d * 10 + 1
    && Preferred(db, Considered(db, tenant, c)) == {d}
  }

  /** Where one live candidate document stands, migration 92 chooses it again and it goes on standing. */
  lemma {:induction false} RepairKeepsStanding(db: Db, c: nat, d: nat)
    requires Stands(db, c, d)
    ensures Considered(db, db.cands[c].tenant, c) != {} && First92(db, db.cands[c].tenant, c) == d
    ensures Stands(Repair(db, c), c, d) && Repair(db, c).cands == db.cands
  {
    var tenant := db.cands[c].tenant;
    var all := Considered(db, tenant, c);
    assert d in Preferred(db, all);
    assert d in all;
    assert First92(db, tenant, c) == d by {
      assert FirstRanked(db, {d}) in {d};
    }
    hide First92, Repair;
    RepairEffect(db, c);
    var after := Repair(db, c);
    assert after.cands[c] == db.cands[c];
    forall e ensures e in Preferred(after, Considered(after, tenant, c)) <==> e == d {
      if e in all {
      } else if e in db.docs {
        assert after.docs[e] == db.docs[e];
      }
    }
  }

  /** Repairing one candidate leaves another candidate's standing document alone. */
  lemma {:induction false} RepairLeavesOthers(db: Db, c: nat, other: nat, d: nat)
    requires c in db.cands && other != c && Stands(db, other, d)
    ensures Stands(Repair(db, c), other, d)
  {
    hide Repair, First92;
    var tenant := db.cands[c].tenant;
    if Considered(db, tenant, c) != {} {
      RepairEffect(db, c);
      var after, t := Repair(db, c), db.cands[other].tenant;
      assert d in Preferred(db, Considered(db, t, other));
      forall e | e in db.docs && db.docs[e].ref == other ensures after.docs[e] == db.docs[e] {
        assert e !in Considered(db, tenant, c);
      }
      forall e | e in db.docs ensures after.docs[e].ref == db.docs[e].ref {
      }
      forall e
        ensures e in Preferred(after, Considered(after, t, other)) <==> e in Preferred(db, Considered(db, t, other))
      {
      }
      assert Preferred(after, Considered(after, t, other)) == Preferred(db, Considered(db, t, other));
    } else {
      NothingToRepair(db, c);
    }
  }

  lemma NothingToRepair(db: Db, c: nat)
    requires c in db.cands && Considered(db, db.cands[c].tenant, c) == {}
    ensures Repair(db, c) == db
  {
  }

  lemma {:induction false} RepairsKeepStanding(db: Db, ids: seq<nat>, n: nat, c: nat, d: nat)
    requires n <= |ids| && (forall i :: 0 <= i < |ids| ==> ids[i] in db.cands) && Stands(db, c, d)
    ensures Stands(RepairUpTo(db, ids, n), c, d)
  {
    hide Repair, Stands;
    if n > 0 {
      RepairsKeepStanding(db, ids, n - 1, c, d);
      if ids[n - 1] == c {
        RepairKeepsStanding(RepairUpTo(db, ids, n - 1), c, d);
      } else {
        RepairLeavesOthers(RepairUpTo(db, ids, n - 1), ids[n - 1], c, d);
      }
    }
  }

  /** After migration 86 the canonical document of a live candidate stands. */
  lemma {:induction false} RecoveredStands(db: Db, c: nat)
    requires c in db.cands && c > 0 && !db.cands[c].status.Deleted? && Group(db, db.cands[c].tenant, c) != {}
    ensures Stands(Recovered(db), c, Canonical(db, db.cands[c].tenant, c))
  {
    hide Canonical, Recovered;
    var tenant := db.cands[c].tenant;
    var d := Canonical(db, tenant, c);
    var once := Recovered(db);
    RecoveredKeys(db);
    RecoveredCand(db, c);
    CandidateNamesKeptDocument(db, c);
    forall e ensures e in Preferred(once, Considered(once, tenant, c)) <==> e == d {
      OneLiveDocument(db, tenant, c, e);
    }
  }

  /**
   Migration 92 after migration 86 keeps the same canonical document for every live candidate that
   has one: the candidate's row is unchanged and the document is still its only live candidate document.
   */
  lemma {:induction false} Migration92KeepsTheDocument(db: Db, c: nat)
    requires c in db.cands && c > 0 && !db.cands[c].status.Deleted? && Group(db, db.cands[c].tenant, c) != {}
    ensures var once := Recovered(db);
            && (forall i :: 0 <= i < |LiveCands(once)| ==> LiveCands(once)[i] in once.cands)
            && Stands(RepairUpTo(once, LiveCands(once), |LiveCands(once)|), c, Canonical(db, db.cands[c].tenant, c))
  {
    hide Stands, Recovered, Repair, Canonical;
    var once := Recovered(db);
    RecoveredStands(db, c);
    forall i | 0 <= i < |LiveCands(once)| ensures LiveCands(once)[i] in once.cands {
      assert LiveCands(once)[i] in LiveCands(once);
    }
    RepairsKeepStanding(once, LiveCands(once), |LiveCands(once)|, c, Canonical(db, db.cands[c].tenant, c));
  }
}
