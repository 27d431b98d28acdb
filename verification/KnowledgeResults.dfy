/** What the document pass of migration 86 guarantees, the link pass, and why migration 92 keeps its choice. */
module KnowledgeResults {
  import opened Tables
  import opened KnowledgeRecovery

  ghost predicate LiveCandidateDoc(db: Db, d: nat, tenant: nat, ref: nat) {
    && d in db.docs && db.docs[d].tenant == tenant && db.docs[d].ref == ref
    && db.docs[d].kind.Candidate? && !db.docs[d].status.Deleted?
  }

  lemma {:induction false} RecoveredDoc(db: Db, d: nat)
    requires d in db.docs
    ensures Recovered(db).docs[d] ==
            if !Member(db, d) then db.docs[d]
            else if IsCanonical(db, d) then db.docs[d].(kind := Candidate) else Demoted(db.docs[d])
  {
    hide Canonical;
  }

  /** The unique index can be built: the live candidate document of a group is its canonical document. */
  lemma {:induction false} OneLiveDocument(db: Db, tenant: nat, ref: nat, d: nat)
    requires ref > 0
    ensures LiveCandidateDoc(Recovered(db), d, tenant, ref) <==>
            Group(db, tenant, ref) != {} && d == Canonical(db, tenant, ref)
  {
    hide Canonical, Recovered;
    assert Recovered(db).docs.Keys == db.docs.Keys by { RecoveredKeys(db); }
    if d in db.docs {
      RecoveredDoc(db, d);
      if Member(db, d) {
        CanonicalRanksFirst(db, d);
      }
    }
  }

  lemma RecoveredKeys(db: Db)
    ensures Recovered(db).docs.Keys == db.docs.Keys && Recovered(db).cands.Keys == db.cands.Keys &&
            Recovered(db).links.Keys == db.links.Keys
  {
  }

  /** The kept document is published if and only if some document of its group was. */
  lemma {:induction false} KeptDocumentIsPublishedIfAny(db: Db, tenant: nat, ref: nat)
    requires Group(db, tenant, ref) != {}
    ensures var c := Canonical(db, tenant, ref);
            c in Recovered(db).docs &&
            (Recovered(db).docs[c].review.Published? <==>
               exists d :: d in Group(db, tenant, ref) && db.docs[d].review.Published?)
  {
    var group, c := Group(db, tenant, ref), Canonical(db, tenant, ref);
    assert Member(db, c);
    RecoveredDoc(db, c);
    if d :| d in group && db.docs[d].review.Published? {
      assert d in PublishedIn(db, group);
    }
  }

  /** A live candidate with documents records its one document: the entry id decodes to it by division by 10. */
  lemma {:induction false} CandidateNamesKeptDocument(db: Db, c: nat)
    requires c in db.cands && !db.cands[c].status.Deleted? && Group(db, db.cands[c].tenant, c) != {}
    ensures var row, d := Recovered(db).cands[c], Canonical(db, db.cands[c].tenant, c);
            && row.entry / 10 == d && row.entry % 10 == 1 && row.base == Recovered(db).docs[d].base
            && row.tenant == db.cands[c].tenant && row.status == db.cands[c].status
  {
    var d := Canonical(db, db.cands[c].tenant, c);
    assert d in AllSelected(db);
    RecoveredDoc(db, d);
  }

  /** No live link of a tenant names a demoted document of that tenant, and no link disappears. */
  lemma {:induction false} NoLinkNamesDemoted(db: Db, l: nat)
    requires l in db.links && !db.links[l].status.Deleted?
    ensures l in Recovered(db).links && !Recovered(db).links[l].status.Deleted?
    ensures var identity := Recovered(db).links[l].identity;
            DemotedBy(db, AllSelected(db), identity.entry) ==> db.docs[identity.entry].tenant != identity.tenant
  {
    hide Canonical;
    var d := db.links[l].identity.entry;
    if DemotedBy(db, AllSelected(db), d) {
      CanonicalIsCanonical(db, d);
    }
  }

  // ---------------------------------------------------------------- running the pass again

  lemma {:induction false} RecoveredMembers(db: Db, d: nat)
    ensures Member(Recovered(db), d) <==> Member(db, d) && IsCanonical(db, d)
  {
    hide Canonical, Recovered;
    RecoveredKeys(db);
    RecoveredCandidates(db);
    if d in db.docs { RecoveredDoc(db, d); }
  }

  lemma {:induction false} RecoveredCandidates(db: Db)
    ensures forall tenant, ref :: LiveCandidate(Recovered(db), tenant, ref) <==> LiveCandidate(db, tenant, ref)
  {
    forall tenant, ref ensures LiveCandidate(Recovered(db), tenant, ref) <==> LiveCandidate(db, tenant, ref) {
      CandidatesKept(db, AllSelected(db), tenant, ref);
    }
  }

  lemma {:induction false} RecoveredGroup(db: Db, tenant: nat, ref: nat)
    ensures Group(Recovered(db), tenant, ref) ==
            if Group(db, tenant, ref) == {} then {} else {Canonical(db, tenant, ref)}
    ensures Group(db, tenant, ref) != {} ==> Canonical(Recovered(db), tenant, ref) == Canonical(db, tenant, ref)
  {
    assert Group(Recovered(db), tenant, ref) ==
           if Group(db, tenant, ref) == {} then {} else {Canonical(db, tenant, ref)} by {
      hide Canonical, Recovered;
      RecoveredKeys(db);
      forall d
        ensures d in Group(Recovered(db), tenant, ref) <==>
                  Group(db, tenant, ref) != {} && d == Canonical(db, tenant, ref)
      {
        RecoveredMembers(db, d);
        if d in db.docs {
          RecoveredDoc(db, d);
          if Member(db, d) { CanonicalRanksFirst(db, d); }
        }
        if Group(db, tenant, ref) != {} && d == Canonical(db, tenant, ref) {
          assert Member(db, d);
        }
      }
    }
  }

  lemma {:induction false} RecoveredIsAllCanonical(db: Db, d: nat)
    requires Member(Recovered(db), d)
    ensures IsCanonical(Recovered(db), d) && Recovered(db).docs[d].kind.Candidate?
  {
    hide Recovered, Canonical;
    RecoveredMembers(db, d);
    RecoveredKeys(db);
    RecoveredDoc(db, d);
    CanonicalRanksFirst(db, d);
    RecoveredGroup(db, db.docs[d].tenant, db.docs[d].ref);
  }

  /** A second document pass changes no row. */
  lemma {:induction false} RecoveryIsIdempotent(db: Db)
    ensures Recovered(Recovered(db)) == Recovered(db)
  {
    hide Canonical, Member, IsCanonical;
    var once := Recovered(db);
    var done := AllSelected(once);
    forall d | d in once.docs ensures DocAfter(once, done, d) == once.docs[d] {
      if Member(once, d) { RecoveredIsAllCanonical(db, d); }
    }
    forall l | l in once.links ensures LinkAfter(once, done, l) == once.links[l] {
      var d := once.links[l].identity.entry;
      if Member(once, d) { RecoveredIsAllCanonical(db, d); }
    }
    forall c | c in once.cands ensures CandAfter(once, done, c) == once.cands[c] {
      SecondEntry(db, c);
    }
    assert Recovered(once).docs == once.docs && Recovered(once).links == once.links &&
           Recovered(once).cands == once.cands;
  }

  lemma {:induction false} SecondEntry(db: Db, c: nat)
    requires c in db.cands
    ensures c in Recovered(db).cands &&
            CandAfter(Recovered(db), AllSelected(Recovered(db)), c) == Recovered(db).cands[c]
  {
    hide Canonical, Recovered;
    RecoveredKeys(db);
    var once := Recovered(db);
    var tenant := db.cands[c].tenant;
    RecoveredGroup(db, tenant, c);
    RecoveredCand(db, c);
    if !db.cands[c].status.Deleted? && Group(db, tenant, c) != {} {
      CandidateNamesKeptDocument(db, c);
    }
  }

  lemma {:induction false} RecoveredCand(db: Db, c: nat)
    requires c in db.cands
    ensures Recovered(db).cands[c].tenant == db.cands[c].tenant && Recovered(db).cands[c].status == db.cands[c].status
  {
    hide Canonical;
  }
}
