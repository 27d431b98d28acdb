/**
 Knowledge candidates and their documents (migrations 86 and 92): every group of documents of one
 candidate keeps one canonical document, the others are demoted and the product links that name
 them are repointed; duplicate links are deleted afterwards.
 */
module KnowledgeRecovery {
  import opened Tables

  datatype Kind = Candidate | Entry | Duplicate | OtherKind

  datatype Review = Published | Deprecated | OtherReview

  datatype Doc = Doc(tenant: nat, ref: nat, kind: Kind, review: Review, status: RowStatus, base: nat)

  datatype Cand = Cand(tenant: nat, status: RowStatus, base: nat, entry: nat)

  /** `rest` stands for the link type, language and version texts. */
  datatype Identity = Identity(tenant: nat, product: nat, model: nat, base: nat, entry: nat, rest: string)

  datatype Link = Link(identity: Identity, published: bool, status: RowStatus)

  datatype Db = Db(docs: map<nat, Doc>, cands: map<nat, Cand>, links: map<nat, Link>)

  // ---------------------------------------------------------------- groups

  predicate LiveCandidate(db: Db, tenant: nat, ref: nat) {
    ref in db.cands && db.cands[ref].tenant == tenant && !db.cands[ref].status.Deleted?
  }

  /** The rows of the document query. */
  predicate Selected(db: Db, d: nat) {
    d in db.docs && db.docs[d].ref > 0 && (db.docs[d].kind.Candidate? || db.docs[d].kind.Entry?) &&
    !db.docs[d].status.Deleted?
  }

  /** A selected entry document counts only if its candidate is live. */
  predicate Member(db: Db, d: nat) {
    Selected(db, d) && (db.docs[d].kind.Entry? ==> LiveCandidate(db, db.docs[d].tenant, db.docs[d].ref))
  }

  function Group(db: Db, tenant: nat, ref: nat): set<nat> {
    set d | d in db.docs && Member(db, d) && db.docs[d].tenant == tenant && db.docs[d].ref == ref
  }

  function PublishedIn(db: Db, s: set<nat>): set<nat> {
    set d | d in s && d in db.docs && db.docs[d].review.Published?
  }

  /** The published document with the lowest id, or the document with the lowest id. */
  function Canonical(db: Db, tenant: nat, ref: nat): (c: nat)
    requires Group(db, tenant, ref) != {}
    ensures c in Group(db, tenant, ref)
  {
    var group := Group(db, tenant, ref);
    if PublishedIn(db, group) != {} then Min(PublishedIn(db, group)) else Min(group)
  }

  predicate IsCanonical(db: Db, d: nat)
    requires Member(db, d)
  {
    assert d in Group(db, db.docs[d].tenant, db.docs[d].ref);
    Canonical(db, db.docs[d].tenant, db.docs[d].ref) == d
  }

  // ---------------------------------------------------------------- what the document pass does, row by row

  function Demoted(doc: Doc): Doc {
    doc.(kind := Duplicate, review := Deprecated, status := Disabled)
  }

  predicate DemotedBy(db: Db, done: set<nat>, d: nat) {
    d in done && Member(db, d) && !IsCanonical(db, d)
  }

  function DocAfter(db: Db, done: set<nat>, d: nat): Doc
    requires d in db.docs
  {
    if d !in done || !Member(db, d) then db.docs[d]
    else if IsCanonical(db, d) then db.docs[d].(kind := Candidate)
    else Demoted(db.docs[d])
  }

  function LinkAfter(db: Db, done: set<nat>, l: nat): Link
    requires l in db.links
  {
    var link := db.links[l];
    var d := link.identity.entry;
    if !link.status.Deleted? && DemotedBy(db, done, d) && db.docs[d].tenant == link.identity.tenant
    then
      assert d in Group(db, db.docs[d].tenant, db.docs[d].ref);
      link.(identity := link.identity.(entry := Canonical(db, db.docs[d].tenant, db.docs[d].ref)))
    else link
  }

  predicate Chosen(db: Db, done: set<nat>, c: nat)
    requires c in db.cands
  {
    && !db.cands[c].status.Deleted? && Group(db, db.cands[c].tenant, c) != {}
    && Canonical(db, db.cands[c].tenant, c) in done
  }

  function CandAfter(db: Db, done: set<nat>, c: nat): Cand
    requires c in db.cands
  {
    if Chosen(db, done, c)
    then
      var d := Canonical(db, db.cands[c].tenant, c);
      db.cands[c].(base := db.docs[d].base, entry := d * 10 + 1)
    else db.cands[c]
  }

  function After(db: Db, done: set<nat>): Db {
    Db(map d | d in db.docs :: DocAfter(db, done, d),
       map c | c in db.cands :: CandAfter(db, done, c),
       map l | l in db.links :: LinkAfter(db, done, l))
  }

  function AllSelected(db: Db): set<nat> {
    set d | d in db.docs && Selected(db, d)
  }

  /** The whole document pass of migration 86. */
  function Recovered(db: Db): Db {
    After(db, AllSelected(db))
  }

  // ---------------------------------------------------------------- the loop

  /** Published documents first, then by id. */
  predicate RanksBefore(db: Db, d: nat, e: nat)
    requires d in db.docs && e in db.docs
  {
    (db.docs[d].review.Published? && !db.docs[e].review.Published?) ||
    (db.docs[d].review.Published? == db.docs[e].review.Published? && d < e)
  }

  predicate SameKey(db: Db, d: nat, e: nat)
    requires d in db.docs && e in db.docs
  {
    db.docs[d].tenant == db.docs[e].tenant && db.docs[d].ref == db.docs[e].ref
  }

  /** The query result; of its order only the rank inside a group matters. */
  ghost predicate IsQueryResult(db: Db, rows: seq<nat>) {
    && (forall i :: 0 <= i < |rows| ==> Selected(db, rows[i]))
    && (forall d :: Selected(db, d) ==> d in rows)
    && (forall i, j :: 0 <= i < j < |rows| && SameKey(db, rows[i], rows[j]) ==> RanksBefore(db, rows[i], rows[j]))
  }

  ghost function Done(rows: seq<nat>, n: nat): set<nat>
    requires n <= |rows|
  {
    set i | 0 <= i < n :: rows[i]
  }

  /** The canonical document ranks before every other member of its group. */
  lemma {:induction false} CanonicalRanksFirst(db: Db, d: nat)
    requires Member(db, d)
    ensures d in Group(db, db.docs[d].tenant, db.docs[d].ref)
    ensures var c := Canonical(db, db.docs[d].tenant, db.docs[d].ref);
            c in db.docs && Member(db, c) && SameKey(db, c, d) && (c == d || RanksBefore(db, c, d))
  {
    var group := Group(db, db.docs[d].tenant, db.docs[d].ref);
    assert d in group;
    if db.docs[d].review.Published? { assert d in PublishedIn(db, group); }
  }

  /** The first member of a group in the query result is the canonical one. */
  lemma {:induction false} FirstIsCanonical(db: Db, rows: seq<nat>, i: nat)
    requires IsQueryResult(db, rows) && i < |rows| && Member(db, rows[i])
    ensures IsCanonical(db, rows[i]) <==>
              forall j :: 0 <= j < i && Member(db, rows[j]) ==> !SameKey(db, rows[j], rows[i])
  {
    hide Canonical;
    var d := rows[i];
    CanonicalRanksFirst(db, d);
    var c := Canonical(db, db.docs[d].tenant, db.docs[d].ref);
    assert c in rows;
    var k :| 0 <= k < |rows| && rows[k] == c;
    forall j | 0 <= j < i && Member(db, rows[j]) && SameKey(db, rows[j], d) ensures c != d {
      CanonicalRanksFirst(db, rows[j]);
    }
  }

  lemma {:induction false} RowsAreDistinct(db: Db, rows: seq<nat>, i: nat)
    requires IsQueryResult(db, rows) && i < |rows|
    ensures rows[i] !in Done(rows, i) && Done(rows, i + 1) == Done(rows, i) + {rows[i]}
  {
    forall j | 0 <= j < i ensures rows[j] != rows[i] {
      if rows[j] == rows[i] { assert SameKey(db, rows[j], rows[i]); }
    }
  }

  /** A skipped row changes nothing. */
  lemma {:induction false} SkipStep(db: Db, done: set<nat>, d: nat)
    requires Selected(db, d) && !Member(db, d)
    ensures After(db, done + {d}) == After(db, done)
  {
    hide Canonical;
    forall c | c in db.cands ensures CandAfter(db, done + {d}, c) == CandAfter(db, done, c) {
      if Group(db, db.cands[c].tenant, c) != {} {
        assert Canonical(db, db.cands[c].tenant, c) != d;
      }
    }
  }

  function Adopt(db: Db, d: nat): Db
    requires d in db.docs
  {
    var doc := db.docs[d];
    Db(db.docs[d := doc.(kind := Candidate)],
       if LiveCandidate(db, doc.tenant, doc.ref)
       then db.cands[doc.ref := db.cands[doc.ref].(base := doc.base, entry := d * 10 + 1)] else db.cands,
       db.links)
  }

  function Repoint(link: Link, tenant: nat, d: nat, c: nat): Link {
    if link.identity.tenant == tenant && link.identity.entry == d && !link.status.Deleted?
    then link.(identity := link.identity.(entry := c)) else link
  }

  function Demote(db: Db, d: nat, c: nat): Db
    requires d in db.docs
  {
    Db(db.docs[d := Demoted(db.docs[d])], db.cands,
       map l | l in db.links :: Repoint(db.links[l], db.docs[d].tenant, d, c))
  }

  /** The first row of a group becomes canonical and is entered into its candidate. */
  lemma {:induction false} AdoptStep(db: Db, done: set<nat>, d: nat)
    requires Member(db, d) && d !in done && IsCanonical(db, d)
    ensures d in After(db, done).docs && After(db, done + {d}) == Adopt(After(db, done), d)
  {
    hide Canonical;
    var before, after := After(db, done), After(db, done + {d});
    var doc := db.docs[d];
    assert before.docs[d] == doc;
    assert after.docs == before.docs[d := doc.(kind := Candidate)];
    forall l | l in db.links ensures LinkAfter(db, done + {d}, l) == LinkAfter(db, done, l) {
    }
    forall c | c in db.cands && (c != doc.ref || db.cands[c].tenant != doc.tenant)
      ensures CandAfter(db, done + {d}, c) == CandAfter(db, done, c)
    {
      if Group(db, db.cands[c].tenant, c) != {} {
        assert Canonical(db, db.cands[c].tenant, c) != d;
      }
    }
    if LiveCandidate(db, doc.tenant, doc.ref) {
      assert d in Group(db, doc.tenant, doc.ref);
      assert Chosen(db, done + {d}, doc.ref);
    }
    assert after.cands == Adopt(before, d).cands;
  }

  /** Every later row of a group is demoted and its links move to the canonical document. */
  lemma {:induction false} DemoteStep(db: Db, done: set<nat>, d: nat)
    requires Member(db, d) && d !in done && !IsCanonical(db, d)
    ensures d in Group(db, db.docs[d].tenant, db.docs[d].ref) && d in After(db, done).docs
    ensures After(db, done + {d}) == Demote(After(db, done), d, Canonical(db, db.docs[d].tenant, db.docs[d].ref))
  {
    hide Canonical;
    var before, after := After(db, done), After(db, done + {d});
    var doc := db.docs[d];
    CanonicalRanksFirst(db, d);
    var c := Canonical(db, doc.tenant, doc.ref);
    assert before.docs[d] == doc;
    assert after.docs == before.docs[d := Demoted(doc)];
    forall h | h in db.cands ensures CandAfter(db, done + {d}, h) == CandAfter(db, done, h) {
      NotCanonicalAnywhere(db, d, h);
    }
    forall l | l in db.links ensures LinkAfter(db, done + {d}, l) == Repoint(LinkAfter(db, done, l), doc.tenant, d, c) {
      var e := db.links[l].identity.entry;
      if DemotedBy(db, done, e) {
        CanonicalRanksFirst(db, e);
        CanonicalIsCanonical(db, e);
      }
    }
  }

  lemma {:induction false} NotCanonicalAnywhere(db: Db, d: nat, c: nat)
    requires Member(db, d) && !IsCanonical(db, d) && c in db.cands
    ensures Group(db, db.cands[c].tenant, c) != {} ==> Canonical(db, db.cands[c].tenant, c) != d
  {
    hide Canonical;
  }

  lemma {:induction false} CanonicalIsCanonical(db: Db, d: nat)
    requires Member(db, d)
    ensures d in Group(db, db.docs[d].tenant, db.docs[d].ref)
    ensures var c := Canonical(db, db.docs[d].tenant, db.docs[d].ref); Member(db, c) && IsCanonical(db, c)
  {
    hide Canonical;
    CanonicalRanksFirst(db, d);
  }

  class Store {
    var db: Db

    constructor (db: Db)
      ensures this.db == db
    {
      this.db := db;
    }

    /** The document pass: a loop over the sorted query result with a map of the groups already seen. */
    method RecoverDocuments(rows: seq<nat>)
      requires IsQueryResult(db, rows)
      modifies this
      ensures db == Recovered(old(db))
    {
      hide After, Canonical, Adopt, Demote, SeenGroups, Group, SameKey, RanksBefore, Done, IsCanonical;
      ghost var start := db;
      var documents := db.docs;
      var seen: map<(nat, nat), nat> := map[];
      StartsUnchanged(start);
      NothingSeen(start, rows);
      for i := 0 to |rows|
        invariant db == After(start, Done(rows, i))
        invariant documents == start.docs
        invariant SeenGroups(start, rows, i, seen)
      {
        var d := rows[i];
        var doc := documents[d];
        RowsAreDistinct(start, rows, i);
        CandidatesKept(start, Done(rows, i), doc.tenant, doc.ref);
        if doc.kind.Entry? && !LiveCandidate(db, doc.tenant, doc.ref) {
          SkipStep(start, Done(rows, i), d);
          SeenSkip(start, rows, i, seen);
        } else {
          var key := (doc.tenant, doc.ref);
          SeenMember(start, rows, i, seen);
          if key !in seen {
            seen := seen[key := d];
            AdoptStep(start, Done(rows, i), d);
            db := Adopt(db, d);
          } else {
            var canonical := seen[key];
            DemoteStep(start, Done(rows, i), d);
            db := Demote(db, d, canonical);
          }
        }
      }
      AllDone(start, rows);
    }
  }

  ghost predicate Met(db: Db, rows: seq<nat>, n: nat, key: (nat, nat))
    requires n <= |rows|
  {
    exists j :: 0 <= j < n && Member(db, rows[j]) && KeyOf(db, rows[j]) == key
  }

  function KeyOf(db: Db, d: nat): (nat, nat)
    requires d in db.docs
  {
    (db.docs[d].tenant, db.docs[d].ref)
  }

  /** The groups met so far, each with its canonical document. */
  ghost predicate SeenGroups(db: Db, rows: seq<nat>, n: nat, seen: map<(nat, nat), nat>)
    requires n <= |rows|
  {
    && (forall k :: k in seen <==> Met(db, rows, n, k))
    && (forall k :: k in seen ==> Group(db, k.0, k.1) != {} && seen[k] == Canonical(db, k.0, k.1))
  }

  lemma {:induction false} MetStep(db: Db, rows: seq<nat>, i: nat, key: (nat, nat))
    requires i < |rows|
    ensures Met(db, rows, i + 1, key) <==> Met(db, rows, i, key) || (Member(db, rows[i]) && KeyOf(db, rows[i]) == key)
  {
    if Met(db, rows, i, key) {
      var j :| 0 <= j < i && Member(db, rows[j]) && KeyOf(db, rows[j]) == key;
      assert Met(db, rows, i + 1, key);
    }
  }

  lemma {:induction false} SeenSkip(db: Db, rows: seq<nat>, i: nat, seen: map<(nat, nat), nat>)
    requires i < |rows| && SeenGroups(db, rows, i, seen) && !Member(db, rows[i])
    ensures SeenGroups(db, rows, i + 1, seen)
  {
    hide Canonical, Group, Met, Member;
    forall k ensures Met(db, rows, i + 1, k) <==> Met(db, rows, i, k) { MetStep(db, rows, i, k); }
  }

  lemma {:induction false} SeenMember(db: Db, rows: seq<nat>, i: nat, seen: map<(nat, nat), nat>)
    requires IsQueryResult(db, rows) && i < |rows| && SeenGroups(db, rows, i, seen) && Member(db, rows[i])
    ensures var doc, key := db.docs[rows[i]], KeyOf(db, rows[i]);
            && (IsCanonical(db, rows[i]) <==> key !in seen)
            && Group(db, doc.tenant, doc.ref) != {}
            && (key in seen ==> seen[key] == Canonical(db, doc.tenant, doc.ref) && SeenGroups(db, rows, i + 1, seen))
            && (key !in seen ==> SeenGroups(db, rows, i + 1, seen[key := rows[i]]))
  {
    hide Canonical, Group, Met, IsQueryResult, RanksBefore;
    var key := KeyOf(db, rows[i]);
    CanonicalRanksFirst(db, rows[i]);
    CanonicalIffUnmet(db, rows, i);
    forall k ensures Met(db, rows, i + 1, k) <==> Met(db, rows, i, k) || k == key { MetStep(db, rows, i, k); }
  }

  lemma {:induction false} CanonicalIffUnmet(db: Db, rows: seq<nat>, i: nat)
    requires IsQueryResult(db, rows) && i < |rows| && Member(db, rows[i])
    ensures IsCanonical(db, rows[i]) <==> !Met(db, rows, i, KeyOf(db, rows[i]))
  {
    hide Canonical, Group;
    FirstIsCanonical(db, rows, i);
    var key := KeyOf(db, rows[i]);
    if Met(db, rows, i, key) {
      var j :| 0 <= j < i && Member(db, rows[j]) && KeyOf(db, rows[j]) == key;
      assert SameKey(db, rows[j], rows[i]);
    } else {
      forall j | 0 <= j < i && Member(db, rows[j]) ensures !SameKey(db, rows[j], rows[i]) {
        assert KeyOf(db, rows[j]) != key;
      }
    }
  }

  lemma {:induction false} NothingSeen(db: Db, rows: seq<nat>)
    ensures Done(rows, 0) == {} && SeenGroups(db, rows, 0, map[])
  {
  }

  lemma {:induction false} StartsUnchanged(db: Db)
    ensures After(db, {}) == db
  {
    assert After(db, {}).docs == db.docs;
    assert After(db, {}).cands == db.cands;
    assert After(db, {}).links == db.links;
  }

  lemma {:induction false} CandidatesKept(db: Db, done: set<nat>, tenant: nat, ref: nat)
    ensures LiveCandidate(After(db, done), tenant, ref) <==> LiveCandidate(db, tenant, ref)
  {
    hide Canonical;
  }

  lemma {:induction false} AllDone(db: Db, rows: seq<nat>)
    requires IsQueryResult(db, rows)
    ensures After(db, Done(rows, |rows|)) == Recovered(db)
  {
    hide After;
    forall d | d in AllSelected(db) ensures d in Done(rows, |rows|) {
      assert d in rows;
    }
    assert Done(rows, |rows|) == AllSelected(db);
  }
}
