/** When an activation of a tenant's default release switches, leaves everything or fails, said column by column. */
module ReleaseDecisions {
  import opened Wrappers
  import opened Tables
  import opened Releases
  import opened ReleaseActivation

  /** The agent is a tenant default of no product, bound to a live stable version that never asks for assistance. */
  ghost predicate DefaultAgent(db: Db, codec: Codec, id: nat) {
    id in db.agents &&
    var agent := db.agents[id];
    && agent.source == codec.defaultSource && agent.product == 0
    && agent.workflow in db.workflows && db.workflows[agent.workflow].code == codec.aiOnlyCode
    && agent.version in db.versions
    && var version := db.versions[agent.version];
    && version.workflow == agent.workflow && version.status == Live && version.stable
    && codec.assists(version.definition) == Some(false)
  }

  /** A release of the agent's current version that was never deployed. */
  ghost predicate Waiting(db: Db, id: nat, r: nat)
    requires id in db.agents
  {
    r in db.releases &&
    var row, agent := db.releases[r], db.agents[id];
    && row.agent == id && row.workflow == agent.workflow && row.version == agent.version
    && row.deployment == Inactive && row.status != Deleted
  }

  /** Its texts have the fingerprints recorded with them. */
  ghost predicate Untampered(codec: Codec, row: Release) {
    row.configHash == codec.hash(row.config) && row.scopeHash == codec.hash(row.scope)
  }

  /** A waiting release that may go live: the agent's own, unchanged, of its current draft, and for the same model. */
  ghost predicate Deployable(db: Db, codec: Codec, id: nat, r: nat)
    requires DefaultAgent(db, codec, id)
  {
    Waiting(db, id, r) &&
    var row, agent := db.releases[r], db.agents[id];
    && row.tenant == agent.tenant && row.product == 0 && row.status == Live
    && row.definitionHash == db.versions[agent.version].definitionHash && Untampered(codec, row)
    && (exists s ::
          && codec.decode(row.config) == Some(s) && s.draft == agent.draft && s.aiOnly && !s.assisted
          && (agent.active in db.releases ==>
                exists t :: codec.decode(db.releases[agent.active].config) == Some(t) && t.aiConfig == s.aiConfig &&
                            t.model == s.model))
  }

  /** The active release is approved, live, unchanged and of the agent's current version and draft. */
  ghost predicate UpToDate(db: Db, codec: Codec, id: nat)
    requires DefaultAgent(db, codec, id)
  {
    var agent := db.agents[id];
    agent.active in db.releases &&
    var row := db.releases[agent.active];
    && row.workflow == agent.workflow && row.version == agent.version
    && row.definitionHash == db.versions[agent.version].definitionHash && Untampered(codec, row)
    && row.review == Approved && row.deployment == Active && row.status == Live
    && (exists s :: codec.decode(row.config) == Some(s) && s.draft == agent.draft)
  }

  lemma AgentMeans(db: Db, codec: Codec, id: nat)
    ensures Bound(db, codec, id) <==> DefaultAgent(db, codec, id)
  {
  }

  lemma QueryMeans(db: Db, id: nat, r: nat)
    requires id in db.agents
    ensures Queried(db, id, r) <==> Waiting(db, id, r)
  {
  }

  lemma {:induction false} EligibleMeans(db: Db, codec: Codec, id: nat, r: nat)
    requires Bound(db, codec, id) && DefaultAgent(db, codec, id)
    ensures Eligible(db, codec, id, ActiveRow(db, id), r) <==> Deployable(db, codec, id, r)
  {
    QueryMeans(db, id, r);
    hide Queried, Waiting, Bound, DefaultAgent;
  }

  lemma {:induction false} CurrentMeans(db: Db, codec: Codec, id: nat)
    requires Bound(db, codec, id) && DefaultAgent(db, codec, id)
    ensures Current(db, codec, id) <==> UpToDate(db, codec, id)
  {
  }

  /** The recorded fingerprint of the bound version is that of its definition. */
  ghost predicate VersionIntact(db: Db, codec: Codec, id: nat)
    requires DefaultAgent(db, codec, id)
  {
    var version := db.versions[db.agents[id].version];
    version.definitionHash == codec.hash(version.definition)
  }

  /**
   An activation switches to a release if and only if it is the newest deployable one; it changes nothing if and only
   if there is none and the active release is up to date; in all other cases it fails.
   */
  lemma {:induction false} DecisionMeans(db: Db, codec: Codec, id: nat, d: Decision)
    ensures Decides(db, codec, id, d) <==>
            if !DefaultAgent(db, codec, id) then d == Failed
            else if exists r :: Waiting(db, id, r) && !VersionIntact(db, codec, id) then d == Failed
            else if exists r :: Deployable(db, codec, id, r)
            then d.Switch? && Deployable(db, codec, id, d.candidate) &&
                 forall r :: Deployable(db, codec, id, r) ==> db.releases[r].number <= db.releases[d.candidate].number
            else d == if UpToDate(db, codec, id) then Unchanged else Failed
  {
    hide Bound, DefaultAgent, Queried, Waiting, Eligible, Deployable, Current, UpToDate;
    AgentMeans(db, codec, id);
    if Bound(db, codec, id) {
      AgentRow(db, codec, id);
      CurrentMeans(db, codec, id);
      forall r ensures Queried(db, id, r) <==> Waiting(db, id, r) { QueryMeans(db, id, r); }
      forall r ensures Eligible(db, codec, id, ActiveRow(db, id), r) <==> Deployable(db, codec, id, r) {
        EligibleMeans(db, codec, id, r);
      }
      forall r | Deployable(db, codec, id, r) ensures Waiting(db, id, r) && r in db.releases {
        DeployableWaits(db, codec, id, r);
      }
    }
  }

  lemma AgentRow(db: Db, codec: Codec, id: nat)
    requires DefaultAgent(db, codec, id)
    ensures id in db.agents && db.agents[id].version in db.versions
  {
  }

  lemma DeployableWaits(db: Db, codec: Codec, id: nat, r: nat)
    requires DefaultAgent(db, codec, id) && Deployable(db, codec, id, r)
    ensures Waiting(db, id, r) && r in db.releases
  {
  }
}
