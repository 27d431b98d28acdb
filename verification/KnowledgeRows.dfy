/**
 Every row after the document passes of migrations 86 and 92, said from the rows before alone: which document of a
 candidate is kept, what becomes of the others, what the candidate records and where product links point.
 */
module KnowledgeRows {
  import opened Tables
  import opened KnowledgeRecovery
  import opened KnowledgeResults
  import opened KnowledgeLinks
  import opened KnowledgeMigrations

  // ---------------------------------------------------------------- migration 86

  /**
   A document that counts for a candidate: not deleted, and either a candidate document or an entry whose candidate
   exists in the same tenant and is not deleted.
   */
  ghost predicate Belongs(db: Db, d: nat, tenant: nat, ref: nat) {
    d in db.docs && var doc := db.docs[d];
    && doc.tenant == tenant && doc.ref == ref && ref > 0 && doc.status != Deleted
    && (doc.kind == Candidate ||
        (doc.kind == Entry && ref in db.cands && db.cands[ref].tenant == tenant && db.cands[ref].status != Deleted))
  }

  /** Published documents come first, then lower ids. */
  ghost predicate Outranks(db: Db, d: nat, e: nat)
    requires d in db.docs && e in db.docs
  {
    if (db.docs[d].review == Published) == (db.docs[e].review == Published) then d < e
    else db.docs[d].review == Published
  }

  /** The document of a candidate that outranks all others. */
  ghost predicate Best(db: Db, d: nat, tenant: nat, ref: nat) {
    Belongs(db, d, tenant, ref) && forall e :: Belongs(db, e, tenant, ref) && e != d ==> Outranks(db, d, e)
  }

  lemma MembersBelong(db: Db, d: nat, tenant: nat, ref: nat)
    ensures d in Group(db, tenant, ref) <==> Belongs(db, d, tenant, ref)
  {
  }

  lemma {:induction false} CanonicalIsBest(db: Db, d: nat, tenant: nat, ref: nat)
    ensures Best(db, d, tenant, ref) <==> Group(db, tenant, ref) != {} && d == Canonical(db, tenant, ref)
  {
    hide Belongs, Group, Canonical;
    forall e ensures e in Group(db, tenant, ref) <==> Belongs(db, e, tenant, ref) {
      MembersBelong(db, e, tenant, ref);
    }
    if Group(db, tenant, ref) != {} {
      var c := Canonical(db, tenant, ref);
      forall e | Belongs(db, e, tenant, ref) && e != c
        ensures c in db.docs && e in db.docs && Outranks(db, c, e) && !Outranks(db, e, c)
      {
        RowOf(db, c, tenant, ref);
        RowOf(db, e, tenant, ref);
        CanonicalRanksFirst(db, e);
      }
    }
  }

  lemma RowOf(db: Db, d: nat, tenant: nat, ref: nat)
    requires Belongs(db, d, tenant, ref)
    ensures d in db.docs && Member(db, d) && db.docs[d].tenant == tenant && db.docs[d].ref == ref
  {
  }

  /** The best document of a candidate becomes its candidate document, its others are withdrawn, no others change. */
  lemma {:induction false} DocumentsAfter86(db: Db, d: nat)
    requires d in db.docs
    ensures var doc := db.docs[d];
            d in Recovered(db).docs && Recovered(db).docs[d] ==
            if !Belongs(db, d, doc.tenant, doc.ref) then doc
            else if Best(db, d, doc.tenant, doc.ref) then doc.(kind := Candidate)
            else doc.(kind := Duplicate, review := Deprecated, status := Disabled)
  {
    hide Belongs, Group, Canonical, Best;
    var doc := db.docs[d];
    RecoveredKeys(db);
    RecoveredDoc(db, d);
    MembersBelong(db, d, doc.tenant, doc.ref);
    CanonicalIsBest(db, d, doc.tenant, doc.ref);
    GroupOfMember(db, d);
  }

  lemma GroupOfMember(db: Db, d: nat)
    requires d in db.docs
    ensures d in Group(db, db.docs[d].tenant, db.docs[d].ref) <==> Member(db, d)
  {
  }

  /** At most one document of a candidate is published afterwards. */
  lemma {:induction false} OnePublishedAfter86(db: Db, tenant: nat, ref: nat, d: nat, e: nat)
    requires Belongs(db, d, tenant, ref) && Belongs(db, e, tenant, ref)
    requires d in Recovered(db).docs && Recovered(db).docs[d].review == Published
    requires e in Recovered(db).docs && Recovered(db).docs[e].review == Published
    ensures d == e
  {
    hide Belongs, Best, Recovered;
    RowOf(db, d, tenant, ref);
    RowOf(db, e, tenant, ref);
    DocumentsAfter86(db, d);
    DocumentsAfter86(db, e);
    CanonicalIsBest(db, d, tenant, ref);
    CanonicalIsBest(db, e, tenant, ref);
  }

  /** A live candidate with documents records the best one, other candidates are left alone. */
  lemma {:induction false} CandidatesAfter86(db: Db, c: nat)
    requires c in db.cands
    ensures c in Recovered(db).cands
    ensures var cand, after := db.cands[c], Recovered(db).cands[c];
            if cand.status != Deleted && exists d :: Belongs(db, d, cand.tenant, c)
            then exists d: nat ::
                   Best(db, d, cand.tenant, c) && after == cand.(base := db.docs[d].base, entry := d * 10 + 1)
            else after == cand
  {
    hide Belongs, Canonical, Best;
    RecoveredKeys(db);
    var cand := db.cands[c];
    forall e ensures e in Group(db, cand.tenant, c) <==> Belongs(db, e, cand.tenant, c) {
      MembersBelong(db, e, cand.tenant, c);
    }
    if Group(db, cand.tenant, c) != {} {
      var d := Canonical(db, cand.tenant, c);
      CanonicalIsBest(db, d, cand.tenant, c);
      assert d in AllSelected(db);
    }
  }

  /** A live link to a withdrawn document of its tenant is moved to the best document, other links are left alone. */
  lemma {:induction false} LinksAfter86(db: Db, l: nat)
    requires l in db.links
    ensures l in Recovered(db).links
    ensures var link, after := db.links[l], Recovered(db).links[l];
            var d := link.identity.entry;
            if link.status != Deleted && d in db.docs && Belongs(db, d, link.identity.tenant, db.docs[d].ref)
               && !Best(db, d, link.identity.tenant, db.docs[d].ref)
            then exists b ::
                   Best(db, b, link.identity.tenant, db.docs[d].ref) &&
                   after == link.(identity := link.identity.(entry := b))
            else after == link
  {
    hide Belongs, Canonical, Best, Group;
    RecoveredKeys(db);
    var link := db.links[l];
    var d := link.identity.entry;
    if d in db.docs {
      var doc := db.docs[d];
      GroupOfMember(db, d);
      MembersBelong(db, d, doc.tenant, doc.ref);
      TenantOf(db, d, link.identity.tenant, doc.ref);
      CanonicalIsBest(db, d, doc.tenant, doc.ref);
      if Member(db, d) {
        CanonicalIsBest(db, Canonical(db, doc.tenant, doc.ref), doc.tenant, doc.ref);
        assert d in AllSelected(db);
      }
    }
  }

  lemma TenantOf(db: Db, d: nat, tenant: nat, ref: nat)
    ensures Belongs(db, d, tenant, ref) ==> d in db.docs && db.docs[d].tenant == tenant
  {
  }

  // ---------------------------------------------------------------- migration 92

  /** A document of a live candidate of its tenant, of whatever status; `c` is the candidate. */
  ghost predicate Held(db: Db, d: nat, c: nat) {
    && d in db.docs && db.docs[d].ref == c && db.docs[d].kind != OtherKind
    && c in db.cands && db.cands[c].tenant == db.docs[d].tenant && db.cands[c].status != Deleted
  }

  /** Live candidate documents come first, then published ones, then lower ids. */
  ghost predicate Prior(db: Db, d: nat, e: nat)
    requires d in db.docs && e in db.docs
  {
    var one, two := db.docs[d], db.docs[e];
    if (one.kind == Candidate && one.status != Deleted) != (two.kind == Candidate && two.status != Deleted)
    then one.kind == Candidate && one.status != Deleted
    else if (one.review == Published) != (two.review == Published) then one.review == Published
    else d < e
  }

  ghost predicate Chief(db: Db, d: nat, c: nat) {
    Held(db, d, c) && forall e :: Held(db, e, c) && e != d ==> Prior(db, d, e)
  }

  lemma ConsideredHeld(db: Db, d: nat, c: nat)
    requires c in db.cands && db.cands[c].status != Deleted
    ensures d in Considered(db, db.cands[c].tenant, c) <==> Held(db, d, c)
  {
  }

  lemma {:induction false} FirstIsChief(db: Db, d: nat, c: nat)
    requires c in db.cands && db.cands[c].status != Deleted
    ensures Chief(db, d, c) <==>
            Considered(db, db.cands[c].tenant, c) != {} && d == First92(db, db.cands[c].tenant, c)
  {
    hide Held, Considered, FirstOf;
    var s := Considered(db, db.cands[c].tenant, c);
    forall e ensures (e in s <==> Held(db, e, c)) && (e in s ==> e in db.docs) {
      ConsideredHeld(db, e, c);
      HeldRow(db, e, c);
    }
    if s != {} {
      var first := First92(db, db.cands[c].tenant, c);
      forall e | e in s && e != first ensures Prior(db, first, e) && !Prior(db, e, first) {
        FirstPrecedes(db, s, e);
      }
    }
  }

  lemma HeldRow(db: Db, d: nat, c: nat)
    ensures Held(db, d, c) ==> d in db.docs && db.docs[d].ref == c
  {
  }

  /** The candidates repaired so far. */
  ghost predicate Listed(db: Db, ids: seq<nat>) {
    forall i :: 0 <= i < |ids| ==> ids[i] in db.cands
  }

  /** A repair sees only the documents of its own candidate. */
  lemma {:induction false} SameFirst(db: Db, mid: Db, c: nat)
    requires c in db.cands && c in mid.cands && mid.cands[c].tenant == db.cands[c].tenant
    requires mid.docs.Keys == db.docs.Keys
    requires forall d :: d in db.docs ==> mid.docs[d].ref == db.docs[d].ref
    requires forall d :: d in db.docs && db.docs[d].ref == c ==> mid.docs[d] == db.docs[d]
    ensures var tenant := db.cands[c].tenant;
            && Considered(mid, tenant, c) == Considered(db, tenant, c)
            && (Considered(db, tenant, c) != {} ==> First92(mid, tenant, c) == First92(db, tenant, c))
  {
    var tenant := db.cands[c].tenant;
    var s := Considered(db, tenant, c);
    assert Considered(mid, tenant, c) == s;
    assert Preferred(mid, s) == Preferred(db, s);
    assert PublishedIn(mid, s) == PublishedIn(db, s);
    assert PublishedIn(mid, Preferred(db, s)) == PublishedIn(db, Preferred(db, s));
  }

  ghost function DocumentAfter(db: Db, d: nat, handled: bool): Doc
    requires d in db.docs
  {
    var doc := db.docs[d];
    if !handled || doc.ref !in db.cands || d !in Considered(db, db.cands[doc.ref].tenant, doc.ref) then doc
    else if d == First92(db, db.cands[doc.ref].tenant, doc.ref)
    then doc.(kind := Candidate, status := if doc.review == Published then Live else Disabled)
    else doc.(kind := Duplicate, review := Deprecated, status := Disabled)
  }

  ghost predicate DocumentsAfter(db: Db, mid: Db, ids: seq<nat>) {
    && mid.docs.Keys == db.docs.Keys
    && forall d :: d in db.docs ==> mid.docs[d] == DocumentAfter(db, d, db.docs[d].ref in ids)
  }

  lemma {:induction false} RepairDocuments(db: Db, mid: Db, ids: seq<nat>, c: nat)
    requires DocumentsAfter(db, mid, ids) && c !in ids && c in db.cands && c in mid.cands
    requires mid.cands[c].tenant == db.cands[c].tenant
    ensures DocumentsAfter(db, Repair(mid, c), ids + [c])
  {
    hide First92, Repair, Considered;
    SameFirst(db, mid, c);
    var tenant := db.cands[c].tenant;
    var after := Repair(mid, c);
    forall d | d in db.docs ensures d in Considered(db, tenant, c) ==> db.docs[d].ref == c {
      ConsideredRef(db, d, tenant, c);
    }
    if Considered(db, tenant, c) == {} {
      NothingToRepair(mid, c);
    } else {
      RepairEffect(mid, c);
    }
  }

  lemma ConsideredRef(db: Db, d: nat, tenant: nat, c: nat)
    ensures d in Considered(db, tenant, c) ==> d in db.docs && db.docs[d].ref == c
  {
  }

  lemma {:induction false} DocumentsUpTo(db: Db, ids: seq<nat>, n: nat)
    requires n <= |ids| && Listed(db, ids) && InOrder(ids)
    ensures DocumentsAfter(db, RepairUpTo(db, ids, n), ids[..n])
  {
    hide Repair, RepairUpTo, DocumentsAfter;
    if n == 0 {
      NoneRepaired(db);
      NothingYet(db, ids);
    } else {
      DocumentsUpTo(db, ids, n - 1);
      NextRepair(db, ids, n);
      RepairDocuments(db, RepairUpTo(db, ids, n - 1), ids[..n - 1], ids[n - 1]);
    }
  }

  lemma NothingYet(db: Db, ids: seq<nat>)
    requires Listed(db, ids)
    ensures RepairUpTo(db, ids, 0) == db && ids[..0] == []
  {
  }

  lemma {:induction false} NextRepair(db: Db, ids: seq<nat>, n: nat)
    requires 0 < n <= |ids| && Listed(db, ids) && InOrder(ids)
    ensures var mid, c := RepairUpTo(db, ids, n - 1), ids[n - 1];
            && c in db.cands && c in mid.cands && mid.cands[c].tenant == db.cands[c].tenant
            && RepairUpTo(db, ids, n) == Repair(mid, c)
            && c !in ids[..n - 1] && ids[..n] == ids[..n - 1] + [c]
  {
    hide Repair;
    TenantsKept(db, ids, n - 1, ids[n - 1]);
  }

  lemma NoneRepaired(db: Db)
    ensures DocumentsAfter(db, db, [])
  {
  }

  /** The chief document of a live candidate becomes its candidate document, its others are withdrawn. */
  lemma {:induction false} DocumentsAfter92(db: Db, d: nat)
    requires d in db.docs
    ensures var doc := db.docs[d];
            d in Repaired(db).docs && Repaired(db).docs[d] ==
            if !Held(db, d, doc.ref) then doc
            else if Chief(db, d, doc.ref)
            then doc.(kind := Candidate, status := if doc.review == Published then Live else Disabled)
            else doc.(kind := Duplicate, review := Deprecated, status := Disabled)
  {
    hide First92, RepairUpTo, Considered, Held, Chief;
    var ids, doc := LiveCands(db), db.docs[d];
    LiveCandsKnown(db);
    DocumentsUpTo(db, ids, |ids|);
    assert ids[..|ids|] == ids;
    var c := doc.ref;
    if c in db.cands && db.cands[c].status != Deleted {
      assert c in ids;
      ConsideredHeld(db, d, c);
      FirstIsChief(db, d, c);
    } else {
      assert c !in ids;
      NotHeld(db, d, c);
    }
  }

  lemma NotHeld(db: Db, d: nat, c: nat)
    requires c !in db.cands || db.cands[c].status == Deleted
    ensures !Held(db, d, c)
  {
  }

  /** Of the documents of a live candidate at most one is published afterwards, whatever database migration 92 meets. */
  lemma {:induction false} OnePublishedAfter92(db: Db, c: nat, d: nat, e: nat)
    requires Held(db, d, c) && Held(db, e, c)
    requires d in Repaired(db).docs && Repaired(db).docs[d].review == Published
    requires e in Repaired(db).docs && Repaired(db).docs[e].review == Published
    ensures d == e
  {
    hide Repaired, Chief;
    DocumentsAfter92(db, d);
    DocumentsAfter92(db, e);
    FirstIsChief(db, d, c);
    FirstIsChief(db, e, c);
  }

  // ---------------------------------------------------------------- candidates and links of migration 92

  ghost function CandidateAfter(db: Db, c: nat, handled: bool): Cand
    requires c in db.cands
  {
    var cand := db.cands[c];
    if !handled || Considered(db, cand.tenant, c) == {} then cand
    else
      var d := First92(db, cand.tenant, c);
      cand.(base := db.docs[d].base, entry := d * 10 + 1)
  }

  ghost predicate CandidatesAfter(db: Db, mid: Db, ids: seq<nat>) {
    mid.cands.Keys == db.cands.Keys && forall c :: c in db.cands ==> mid.cands[c] == CandidateAfter(db, c, c in ids)
  }

  /** Where a live link of a tenant points once the candidates in `ids` are repaired. */
  ghost function TargetAfter(db: Db, tenant: nat, d: nat, ids: seq<nat>): nat {
    if d in db.docs && db.docs[d].ref in ids && db.docs[d].ref in db.cands
       && db.cands[db.docs[d].ref].tenant == tenant && d in Considered(db, tenant, db.docs[d].ref)
    then First92(db, tenant, db.docs[d].ref) else d
  }

  ghost predicate LinksAfter(db: Db, mid: Db, ids: seq<nat>) {
    && mid.links.Keys == db.links.Keys
    && forall l :: l in db.links ==> mid.links[l] == LinkAt(db, l, ids)
  }

  ghost function LinkAt(db: Db, l: nat, ids: seq<nat>): Link
    requires l in db.links
  {
    var link := db.links[l];
    if link.status == Deleted then link
    else link.(identity := link.identity.(entry := TargetAfter(db, link.identity.tenant, link.identity.entry, ids)))
  }

  lemma {:induction false} RepairCandidates(db: Db, mid: Db, ids: seq<nat>, c: nat)
    requires DocumentsAfter(db, mid, ids) && CandidatesAfter(db, mid, ids) && c !in ids && c in db.cands
    ensures CandidatesAfter(db, Repair(mid, c), ids + [c])
  {
    hide First92, Repair, Considered;
    SameFirst(db, mid, c);
    var tenant := db.cands[c].tenant;
    if Considered(db, tenant, c) == {} {
      NothingToRepair(mid, c);
    } else {
      RepairEffect(mid, c);
      ConsideredRef(db, First92(db, tenant, c), tenant, c);
    }
  }

  lemma {:induction false} TargetNext(db: Db, tenant: nat, d: nat, ids: seq<nat>, c: nat)
    requires c !in ids && c in db.cands
    ensures var t := TargetAfter(db, tenant, d, ids);
            TargetAfter(db, tenant, d, ids + [c]) ==
            if tenant == db.cands[c].tenant && t in Considered(db, tenant, c) then First92(db, tenant, c) else t
  {
    hide First92, Considered;
    ConsideredRef(db, d, tenant, c);
    if d in db.docs && db.docs[d].ref in ids {
      var other := db.docs[d].ref;
      if Considered(db, tenant, other) != {} { ConsideredRef(db, First92(db, tenant, other), tenant, other); }
      ConsideredRef(db, TargetAfter(db, tenant, d, ids), tenant, c);
    }
  }

  lemma {:induction false} RepairLinkRows(db: Db, mid: Db, ids: seq<nat>, c: nat)
    requires DocumentsAfter(db, mid, ids) && LinksAfter(db, mid, ids) && c !in ids && c in db.cands && c in mid.cands
    requires mid.cands[c].tenant == db.cands[c].tenant
    ensures LinksAfter(db, Repair(mid, c), ids + [c])
  {
    hide First92, Repair, Considered, TargetAfter, Others;
    SameFirst(db, mid, c);
    var tenant, after := db.cands[c].tenant, Repair(mid, c);
    if Considered(db, tenant, c) == {} {
      NothingToRepair(mid, c);
    } else {
      RepairLinks(mid, c);
    }
    forall l | l in db.links ensures l in after.links && after.links[l] == LinkAt(db, l, ids + [c]) {
      TargetNext(db, db.links[l].identity.tenant, db.links[l].identity.entry, ids, c);
    }
  }

  lemma {:induction false} RowsUpTo(db: Db, ids: seq<nat>, n: nat)
    requires n <= |ids| && Listed(db, ids) && InOrder(ids)
    ensures CandidatesAfter(db, RepairUpTo(db, ids, n), ids[..n]) && LinksAfter(db, RepairUpTo(db, ids, n), ids[..n])
  {
    hide Repair, RepairUpTo, DocumentsAfter, CandidatesAfter, LinksAfter;
    if n == 0 {
      NoRowRepaired(db);
      NothingYet(db, ids);
    } else {
      var mid, c := RepairUpTo(db, ids, n - 1), ids[n - 1];
      RowsUpTo(db, ids, n - 1);
      DocumentsUpTo(db, ids, n - 1);
      NextRepair(db, ids, n);
      RepairCandidates(db, mid, ids[..n - 1], c);
      RepairLinkRows(db, mid, ids[..n - 1], c);
    }
  }

  lemma NoRowRepaired(db: Db)
    ensures CandidatesAfter(db, db, []) && LinksAfter(db, db, [])
  {
  }

  lemma {:induction false} AllRepaired(db: Db)
    ensures CandidatesAfter(db, Repaired(db), LiveCands(db)) && LinksAfter(db, Repaired(db), LiveCands(db))
    ensures forall c :: c in LiveCands(db) <==> c in db.cands && db.cands[c].status != Deleted
  {
    hide RepairUpTo, CandidatesAfter, LinksAfter;
    var ids := LiveCands(db);
    LiveCandsKnown(db);
    RowsUpTo(db, ids, |ids|);
    assert ids[..|ids|] == ids;
  }

  /** A live candidate with documents records its chief document, other candidates are left alone. */
  lemma {:induction false} CandidatesAfter92(db: Db, c: nat)
    requires c in db.cands
    ensures c in Repaired(db).cands
    ensures var cand, after := db.cands[c], Repaired(db).cands[c];
            if exists d :: Held(db, d, c)
            then exists d: nat :: Chief(db, d, c) && after == cand.(base := db.docs[d].base, entry := d * 10 + 1)
            else after == cand
  {
    hide First92, Repaired, Considered, Held, Chief;
    AllRepaired(db);
    var cand := db.cands[c];
    if cand.status != Deleted {
      forall d ensures d in Considered(db, cand.tenant, c) <==> Held(db, d, c) {
        ConsideredHeld(db, d, c);
      }
      if Considered(db, cand.tenant, c) != {} {
        FirstIsChief(db, First92(db, cand.tenant, c), c);
      }
    } else {
      forall d ensures !Held(db, d, c) { NotHeld(db, d, c); }
    }
  }

  /** A live link to a document of a live candidate of its tenant points to the chief one, no other link changes. */
  lemma {:induction false} LinksAfter92(db: Db, l: nat)
    requires l in db.links
    ensures l in Repaired(db).links
    ensures var link, after := db.links[l], Repaired(db).links[l];
            var d := link.identity.entry;
            if link.status != Deleted && d in db.docs && db.docs[d].tenant == link.identity.tenant
               && Held(db, d, db.docs[d].ref)
            then exists b: nat :: Chief(db, b, db.docs[d].ref) && after == link.(identity := link.identity.(entry := b))
            else after == link
  {
    hide First92, Repaired, Considered, Held, Chief;
    AllRepaired(db);
    var link := db.links[l];
    var d := link.identity.entry;
    if d in db.docs {
      var c := db.docs[d].ref;
      HeldTenant(db, d, c, link.identity.tenant);
      if c in db.cands && db.cands[c].status != Deleted {
        ConsideredHeld(db, d, c);
        if Considered(db, db.cands[c].tenant, c) != {} {
          FirstIsChief(db, First92(db, db.cands[c].tenant, c), c);
        }
      } else {
        NotHeld(db, d, c);
      }
    }
  }

  lemma HeldTenant(db: Db, d: nat, c: nat, tenant: nat)
    ensures Held(db, d, c) ==> d in db.docs && c in db.cands && db.docs[d].tenant == db.cands[c].tenant
    ensures d in Considered(db, tenant, c) ==> d in db.docs && db.docs[d].tenant == tenant
  {
  }
}
