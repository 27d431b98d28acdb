/** Migrations 86 and 92 as a whole: the document pass followed by the link pass. */
module KnowledgeMigrations {
  import opened Tables
  import opened KnowledgeRecovery
  import opened KnowledgeResults
  import opened KnowledgeLinks

  ghost predicate LiveLink(db: Db, l: nat) {
    l in db.links && !db.links[l].status.Deleted?
  }

  /** The columns of the unique index over live links. */
  ghost predicate LinksDistinct(db: Db) {
    forall l, m :: LiveLink(db, l) && LiveLink(db, m) && db.links[l].identity == db.links[m].identity ==> l == m
  }

  ghost function WithLinksDeduped(db: Db): Db {
    Db(db.docs, db.cands, Deduped(db.links, db.links.Keys))
  }

  /** Documents, then links. */
  ghost function Migrated86(db: Db): Db {
    WithLinksDeduped(Recovered(db))
  }

  lemma {:induction false} DedupedLinksDistinct(db: Db)
    ensures LinksDistinct(WithLinksDeduped(db))
  {
    hide Deduped;
    assert Deduped(db.links, db.links.Keys).Keys == db.links.Keys by { DedupedRows(db.links); }
    forall l, m | LiveLink(WithLinksDeduped(db), l) && LiveLink(WithLinksDeduped(db), m)
                  && WithLinksDeduped(db).links[l].identity == WithLinksDeduped(db).links[m].identity
      ensures l == m
    {
      LiveIdentitiesAreDistinct(db.links, l, m);
    }
  }

  lemma DedupedRows(links: Links)
    ensures Deduped(links, links.Keys).Keys == links.Keys
    ensures forall l :: l in links ==>
              var after := Deduped(links, links.Keys)[l];
              after.identity == links[l].identity && (!after.status.Deleted? ==> after == links[l])
  {
  }

  /**
   After both passes of migration 86 the live links have distinct identities, none names a demoted document of its
   tenant, and every link that was live is stood for by exactly one live link to the document it now belongs to.
   */
  lemma {:induction false} Migration86Links(db: Db, l: nat)
    requires LiveLink(db, l)
    ensures var after, kept := Migrated86(db), Recovered(db).links;
            && LinksDistinct(after) && l in kept
            && (exists m :: Alike(after.links, kept[l].identity) == {m})
            && (LiveLink(after, l) ==>
                  var identity := after.links[l].identity;
                  DemotedBy(db, AllSelected(db), identity.entry) ==> db.docs[identity.entry].tenant != identity.tenant)
  {
    hide Recovered, DemotedBy, Deduped, KeptLink;
    NoLinkNamesDemoted(db, l);
    var kept := Recovered(db).links;
    DedupedLinksDistinct(Recovered(db));
    DedupedRows(kept);
    assert l in Alike(kept, kept[l].identity);
    EveryIdentityKeepsOne(kept, kept[l].identity);
  }

  // ---------------------------------------------------------------- migration 92

  ghost function Repaired(db: Db): Db {
    LiveCandsKnown(db);
    RepairUpTo(db, LiveCands(db), |LiveCands(db)|)
  }

  lemma LiveCandsKnown(db: Db)
    ensures forall i :: 0 <= i < |LiveCands(db)| ==> LiveCands(db)[i] in db.cands
  {
    forall i | 0 <= i < |LiveCands(db)| ensures LiveCands(db)[i] in db.cands {
      assert LiveCands(db)[i] in LiveCands(db);
    }
  }

  /** A live link of the candidate's tenant names a document of the candidate that was superseded. */
  ghost predicate NamesSuperseded(db: Db, l: nat, tenant: nat, c: nat) {
    LiveLink(db, l) &&
    var identity := db.links[l].identity;
    && identity.tenant == tenant && identity.entry in db.docs && db.docs[identity.entry].tenant == tenant
    && db.docs[identity.entry].ref == c && db.docs[identity.entry].kind.Duplicate?
  }

  ghost predicate Tidy(db: Db, tenant: nat, c: nat) {
    forall l :: !NamesSuperseded(db, l, tenant, c)
  }

  function RepointAll(link: Link, tenant: nat, ids: seq<nat>, d: nat): Link {
    if !link.status.Deleted? && link.identity.tenant == tenant && link.identity.entry in ids
    then link.(identity := link.identity.(entry := d)) else link
  }

  lemma {:induction false} DemoteAllLinks(db: Db, ids: seq<nat>, n: nat, c: nat, tenant: nat)
    requires n <= |ids| && forall i :: 0 <= i < |ids| ==> ids[i] in db.docs && db.docs[ids[i]].tenant == tenant
    requires c !in ids
    ensures var after := DemoteAll(db, ids, n, c);
            && after.links.Keys == db.links.Keys
            && forall l :: l in db.links ==> after.links[l] == RepointAll(db.links[l], tenant, ids[..n], c)
  {
    hide Repoint, RepointAll, Demote;
    if n == 0 {
      assert ids[..0] == [];
      forall l | l in db.links ensures RepointAll(db.links[l], tenant, ids[..0], c) == db.links[l] {
        RepointNone(db.links[l], tenant, c);
      }
    } else {
      DemoteAllLinks(db, ids, n - 1, c, tenant);
      DemoteAllTenant(db, ids, n - 1, c);
      var before, d := DemoteAll(db, ids, n - 1, c), ids[n - 1];
      assert ids[..n] == ids[..n - 1] + [d];
      assert DemoteAll(db, ids, n, c) == Demote(before, d, c);
      assert before.docs[d].tenant == tenant;
      hide DemoteAll;
      DemoteLinks(before, d, c);
      forall l | l in db.links
        ensures DemoteAll(db, ids, n, c).links[l] == RepointAll(db.links[l], tenant, ids[..n], c)
      {
        RepointNext(db.links[l], tenant, ids[..n - 1], d, c);
      }
    }
  }

  lemma DemoteLinks(db: Db, d: nat, c: nat)
    requires d in db.docs
    ensures Demote(db, d, c).links.Keys == db.links.Keys
    ensures forall l :: l in db.links ==> Demote(db, d, c).links[l] == Repoint(db.links[l], db.docs[d].tenant, d, c)
  {
    hide Repoint, Demoted;
  }

  lemma RepointNone(link: Link, tenant: nat, c: nat)
    ensures RepointAll(link, tenant, [], c) == link
  {
  }

  lemma RepointNext(link: Link, tenant: nat, ids: seq<nat>, d: nat, c: nat)
    requires c != d
    ensures Repoint(RepointAll(link, tenant, ids, c), tenant, d, c) == RepointAll(link, tenant, ids + [d], c)
  {
  }

  lemma {:induction false} DemoteAllTenant(db: Db, ids: seq<nat>, n: nat, c: nat)
    requires n <= |ids| && forall i :: 0 <= i < |ids| ==> ids[i] in db.docs
    ensures forall d :: d in db.docs ==> DemoteAll(db, ids, n, c).docs[d].tenant == db.docs[d].tenant
  {
    hide DemoteAll;
    DemoteAllEffect(db, ids, n, c);
  }

  lemma {:induction false} RepairLinks(db: Db, c: nat)
    requires c in db.cands && Considered(db, db.cands[c].tenant, c) != {}
    ensures var tenant, after := db.cands[c].tenant, Repair(db, c);
            && after.links.Keys == db.links.Keys
            && forall l :: l in db.links ==>
                 after.links[l] == RepointAll(db.links[l], tenant, Others(db, tenant, c), First92(db, tenant, c))
  {
    hide First92, Others, DemoteAll;
    var tenant := db.cands[c].tenant;
    var d := First92(db, tenant, c);
    var others := Others(db, tenant, c);
    AdoptedKeys(db, c, d);
    forall i | 0 <= i < |others| ensures others[i] in db.docs && db.docs[others[i]].tenant == tenant {
      assert others[i] in others;
    }
    assert Adopt92(db, c, d).links == db.links;
    DemoteAllLinks(Adopt92(db, c, d), others, |others|, d, tenant);
    assert others[..|others|] == others;
  }

  lemma {:induction false} RepairTidies(db: Db, c: nat)
    requires c in db.cands
    ensures Tidy(Repair(db, c), db.cands[c].tenant, c)
  {
    hide First92, Others;
    var tenant, after := db.cands[c].tenant, Repair(db, c);
    if Considered(db, tenant, c) == {} {
      assert forall d :: d in db.docs ==> d !in Considered(db, tenant, c);
    } else {
      hide Repair;
      RepairEffect(db, c);
      RepairLinks(db, c);
    }
  }

  lemma {:induction false} RepairKeepsTidy(db: Db, c: nat, tenant: nat, other: nat)
    requires c in db.cands && other != c && Tidy(db, tenant, other)
    ensures Tidy(Repair(db, c), tenant, other)
  {
    hide First92, Others;
    if Considered(db, db.cands[c].tenant, c) != {} {
      hide Repair;
      RepairEffect(db, c);
      RepairLinks(db, c);
      var after := Repair(db, c);
      forall l ensures !NamesSuperseded(after, l, tenant, other) {
        assert !NamesSuperseded(db, l, tenant, other);
      }
    }
  }

  lemma {:induction false} RepairsTidy(db: Db, ids: seq<nat>, n: nat, k: nat)
    requires k < n <= |ids| && forall i :: 0 <= i < |ids| ==> ids[i] in db.cands
    requires forall i, j :: 0 <= i < j < |ids| ==> ids[i] < ids[j]
    ensures ids[k] in RepairUpTo(db, ids, n).cands && Tidy(RepairUpTo(db, ids, n), db.cands[ids[k]].tenant, ids[k])
  {
    hide Repair, Tidy;
    var before := RepairUpTo(db, ids, n - 1);
    if k == n - 1 {
      TenantsKept(db, ids, n - 1, ids[k]);
      RepairTidies(before, ids[k]);
    } else {
      RepairsTidy(db, ids, n - 1, k);
      RepairKeepsTidy(before, ids[n - 1], db.cands[ids[k]].tenant, ids[k]);
    }
  }

  lemma {:induction false} TenantsKept(db: Db, ids: seq<nat>, n: nat, c: nat)
    requires n <= |ids| && (forall i :: 0 <= i < |ids| ==> ids[i] in db.cands) && c in db.cands
    ensures RepairUpTo(db, ids, n).cands[c].tenant == db.cands[c].tenant
    ensures RepairUpTo(db, ids, n).cands[c].status == db.cands[c].status
  {
    hide Repair;
    if n > 0 {
      TenantsKept(db, ids, n - 1, c);
      var before := RepairUpTo(db, ids, n - 1);
      if Considered(before, before.cands[ids[n - 1]].tenant, ids[n - 1]) == {} {
        NothingToRepair(before, ids[n - 1]);
      } else {
        RepairEffect(before, ids[n - 1]);
      }
    }
  }

  /** Documents, then links. */
  ghost function Migrated92(db: Db): Db {
    WithLinksDeduped(Repaired(db))
  }

  /**
   After both passes of migration 92, on whatever database it runs, the live links have distinct identities and
   none names a superseded document of a live candidate of its tenant.
   */
  lemma {:induction false} Migration92Links(db: Db, c: nat, l: nat)
    requires c in db.cands && !db.cands[c].status.Deleted?
    ensures LinksDistinct(Migrated92(db)) && !NamesSuperseded(Migrated92(db), l, db.cands[c].tenant, c)
  {
    hide RepairUpTo, Deduped;
    var ids := LiveCands(db);
    LiveCandsKnown(db);
    assert c in ids;
    var k :| 0 <= k < |ids| && ids[k] == c;
    RepairsTidy(db, ids, |ids|, k);
    DedupedLinksDistinct(Repaired(db));
    DedupedRows(Repaired(db).links);
    assert !NamesSuperseded(Repaired(db), l, db.cands[c].tenant, c);
  }
}
