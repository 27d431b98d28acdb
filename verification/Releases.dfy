/**
 AI agents and their releases: the consolidation onto one default workflow (migrations 49 and 50),
 the retirement of automatically activated releases (migration 99) and the activation of a tenant's
 default release (migration 105), each as the statements it executes on the tables.
 */
module Releases {
  import opened Wrappers
  import opened Tables

  datatype Review = Unreviewed | Pending | Approved | Rejected

  datatype Deployment = Inactive | Active | Retired | RolledBack

  /** `active` is the active release id, zero when there is none. */
  datatype Agent = Agent(
    tenant: nat, product: nat, source: string, workflow: nat, version: nat, active: nat, draft: nat,
    status: RowStatus, review: Review)

  datatype Release = Release(
    tenant: nat, product: nat, agent: nat, number: nat, workflow: nat, version: nat, definitionHash: string,
    config: string, configHash: string, scope: string, scopeHash: string,
    review: Review, deployment: Deployment, status: RowStatus)

  datatype Workflow = Workflow(code: string, status: RowStatus)

  datatype Version = Version(workflow: nat, status: RowStatus, stable: bool, definition: string, definitionHash: string)

  datatype Profile = Profile(template: nat, status: RowStatus)

  datatype Db = Db(
    agents: map<nat, Agent>, releases: map<nat, Release>, workflows: map<nat, Workflow>, versions: map<nat, Version>,
    profiles: map<nat, Profile>)

  // ---------------------------------------------------------------- statements

  datatype Statement =
    | Retire(release: nat)
    | RetireIfActive(release: nat)
    | Insert(release: nat, row: Release)
    | Activate(release: nat)
    | Bind(agent: nat, workflow: nat, version: nat, active: nat, draft: nat)
    | Unbind(agent: nat, release: nat)
    | Point(agent: nat, release: nat)
    | SetTemplates(workflow: nat)
    | DeleteWorkflows(keep: nat)
    | DeleteVersions(keep: nat)

  predicate LiveActive(r: Release) {
    r.deployment.Active? && !r.status.Deleted?
  }

  function Apply(db: Db, s: Statement): Db {
    match s
    case Retire(id) =>
      if id in db.releases then db.(releases := db.releases[id := db.releases[id].(deployment := Retired)]) else db
    case RetireIfActive(id) =>
      if id in db.releases && LiveActive(db.releases[id])
      then db.(releases := db.releases[id := db.releases[id].(deployment := Retired)]) else db
    case Insert(id, row) => db.(releases := db.releases[id := row])
    case Activate(id) =>
      if id in db.releases
      then db.(releases := db.releases[id := db.releases[id].(review := Approved, deployment := Active)]) else db
    case Bind(id, workflow, version, active, draft) =>
      if id in db.agents
      then db.(agents := db.agents[id := db.agents[id].(
                 workflow := workflow, version := version, active := active, draft := draft)])
      else db
    case Unbind(id, release) =>
      if id in db.agents && db.agents[id].active == release
      then db.(agents := db.agents[id := db.agents[id].(active := 0, status := Disabled, review := Unreviewed)]) else db
    case Point(id, release) =>
      if id in db.agents
      then db.(agents := db.agents[id := db.agents[id].(active := release, status := Live, review := Approved)]) else db
    case SetTemplates(workflow) =>
      db.(profiles := map p | p in db.profiles ::
            if db.profiles[p].status.Deleted? then db.profiles[p] else db.profiles[p].(template := workflow))
    case DeleteWorkflows(keep) =>
      db.(workflows :=
          map w | w in db.workflows :: if w != keep then db.workflows[w].(status := Deleted) else db.workflows[w])
    case DeleteVersions(keep) =>
      db.(versions := map v | v in db.versions ::
            if db.versions[v].workflow != keep && db.versions[v].workflow in db.workflows
            then db.versions[v].(status := Deleted) else db.versions[v])
  }

  function Run(db: Db, steps: seq<Statement>): Db {
    if |steps| == 0 then db else Apply(Run(db, steps[..|steps| - 1]), steps[|steps| - 1])
  }

  lemma {:induction false} RunConcat(db: Db, a: seq<Statement>, b: seq<Statement>)
    ensures Run(db, a + b) == Run(Run(db, a), b)
  {
    hide Apply;
    if |b| == 0 {
      assert a + b == a;
    } else {
      RunConcat(db, a, b[..|b| - 1]);
      assert (a + b)[..|a + b| - 1] == a + b[..|b| - 1];
    }
  }

  lemma RunNothing(db: Db)
    ensures Run(db, []) == db
  {
  }

  lemma {:induction false} RunOne(db: Db, s: Statement)
    ensures Run(db, [s]) == Apply(db, s)
  {
    hide Apply;
    assert [s][..0] == [];
    RunNothing(db);
  }

  // ---------------------------------------------------------------- the two invariants

  /** The unique index: no agent has two active releases that are not deleted. */
  ghost predicate OneActive(db: Db) {
    forall i, j :: i in db.releases && j in db.releases && Rivals(db.releases[i], db.releases[j]) ==> i == j
  }

  predicate Rivals(r: Release, q: Release) {
    LiveActive(r) && LiveActive(q) && r.agent == q.agent
  }

  predicate DeployableFor(id: nat, agent: Agent, r: Release) {
    && r.agent == id && r.tenant == agent.tenant && r.product == agent.product
    && r.status.Live? && r.review.Approved? && r.deployment.Active?
  }

  /** A non-zero active release id names an active, approved release of that same agent. */
  ghost predicate Pointed(db: Db) {
    forall a :: a in db.agents && db.agents[a].active != 0 ==>
      db.agents[a].active in db.releases && DeployableFor(a, db.agents[a], db.releases[db.agents[a].active])
  }

  ghost predicate Numbered(db: Db) {
    forall i, j :: i in db.releases && j in db.releases && SameNumber(db.releases[i], db.releases[j]) ==> i == j
  }

  predicate SameNumber(r: Release, q: Release) {
    r.agent == q.agent && r.number == q.number
  }

  /** What holds between transactions. Release ids are positive. */
  ghost predicate Inv(db: Db) {
    0 !in db.releases && OneActive(db) && Pointed(db) && Numbered(db)
  }

  /** The index holds after every single statement of a transaction. */
  ghost predicate IndexHolds(db: Db, steps: seq<Statement>) {
    forall k :: 0 <= k <= |steps| ==> OneActive(Run(db, steps[..k]))
  }

  lemma {:induction false} IndexHoldsConcat(db: Db, a: seq<Statement>, b: seq<Statement>)
    requires IndexHolds(db, a) && IndexHolds(Run(db, a), b)
    ensures IndexHolds(db, a + b)
  {
    hide OneActive, Apply, Run;
    forall k | 0 <= k <= |a + b| ensures OneActive(Run(db, (a + b)[..k])) {
      if k <= |a| {
        assert (a + b)[..k] == a[..k];
      } else {
        assert (a + b)[..k] == a + b[..k - |a|];
        RunConcat(db, a, b[..k - |a|]);
      }
    }
  }

  // ---------------------------------------------------------------- migration 49

  /** A new release id: larger than every existing one. */
  function NextId(db: Db): nat {
    Max0(db.releases.Keys) + 1
  }

  function Numbers(db: Db, agent: nat): set<nat> {
    set r | r in db.releases && db.releases[r].agent == agent :: db.releases[r].number
  }

  function Replacement(db: Db, id: nat, agent: Agent, r: Release, workflow: nat, version: nat, hash: string): Release {
    Release(agent.tenant, agent.product, id, Max0(Numbers(db, id)) + 1, workflow, version, hash,
            r.config, r.configHash, r.scope, r.scopeHash, Approved, Active, Live)
  }

  predicate OnDefault(workflow: nat, version: nat, wanted: nat, wantedVersion: nat) {
    workflow == wanted && version == wantedVersion
  }

  function NextDraft(agent: Agent, workflow: nat, version: nat): nat {
    if OnDefault(agent.workflow, agent.version, workflow, version) then agent.draft else agent.draft + 1
  }

  /** The statements for one agent; None when its active release is not deployable. */
  function AgentSteps(
    db: Db, id: nat, agent: Agent, workflow: nat, version: nat, hash: string): Option<seq<Statement>>
  {
    var draft := NextDraft(agent, workflow, version);
    if agent.active == 0 then Some([Bind(id, workflow, version, 0, draft)])
    else if agent.active !in db.releases || !DeployableFor(id, agent, db.releases[agent.active]) then None
    else
      var r := db.releases[agent.active];
      if OnDefault(r.workflow, r.version, workflow, version)
      then Some([Bind(id, workflow, version, agent.active, draft)])
      else Some([Retire(agent.active), Insert(NextId(db), Replacement(db, id, agent, r, workflow, version, hash)),
                 Bind(id, workflow, version, NextId(db), draft)])
  }

  function LiveAgents(db: Db): seq<nat> {
    Ascending(set a | a in db.agents && !db.agents[a].status.Deleted?)
  }

  /** The loop over the first n of the agents read at the beginning. */
  function AgentsSteps(db: Db, n: nat, workflow: nat, version: nat, hash: string): Option<seq<Statement>>
    requires n <= |LiveAgents(db)|
  {
    if n == 0 then Some([])
    else
      match AgentsSteps(db, n - 1, workflow, version, hash)
      case None => None
      case Some(before) =>
        var id := LiveAgents(db)[n - 1];
        assert id in LiveAgents(db);
        match AgentSteps(Run(db, before), id, db.agents[id], workflow, version, hash)
        case None => None
        case Some(steps) => Some(before + steps)
  }

  /**
   The default version is stable-looking: it exists, is live, belongs to the workflow and its fingerprint is right.
   */
  predicate ValidDefault(db: Db, workflow: nat, version: nat, hash: string -> string) {
    && workflow > 0 && workflow in db.workflows && version in db.versions
    && db.versions[version].status.Live? && db.versions[version].workflow == workflow
    && hash(db.versions[version].definition) == db.versions[version].definitionHash
  }

  function Closing(workflow: nat): seq<Statement> {
    [SetTemplates(workflow), DeleteWorkflows(workflow), DeleteVersions(workflow)]
  }

  function ConsolidateSteps(db: Db, workflow: nat, version: nat, hash: string -> string): Option<seq<Statement>> {
    if !ValidDefault(db, workflow, version, hash) then None
    else
      match AgentsSteps(db, |LiveAgents(db)|, workflow, version, db.versions[version].definitionHash)
      case None => None
      case Some(steps) => Some(steps + Closing(workflow))
  }

  // ---------------------------------------------------------------- migration 99

  /** One retirement transaction: nothing follows when the release is no longer active. */
  function RetireSteps(db: Db, release: nat): seq<Statement> {
    if release in db.releases && LiveActive(db.releases[release])
    then [RetireIfActive(release), Unbind(db.releases[release].agent, release)]
    else [RetireIfActive(release)]
  }

  // ---------------------------------------------------------------- the store

  class Store {
    var db: Db
    ghost var log: seq<Statement>

    constructor (db: Db)
      ensures this.db == db && log == []
    {
      this.db, log := db, [];
    }

    method Exec(s: Statement)
      modifies this
      ensures db == Apply(old(db), s) && log == old(log) + [s]
    {
      db, log := Apply(db, s), log + [s];
    }

    /** consolidateAIWorkflowsToPlatformDefault: all statements, or a rollback. */
    method Consolidate(workflow: nat, version: nat, hash: string -> string) returns (ok: bool)
      modifies this
      ensures match ConsolidateSteps(old(db), workflow, version, hash)
              case None => !ok && db == old(db) && log == old(log)
              case Some(steps) => ok && db == Run(old(db), steps) && log == old(log) + steps
    {
      hide Apply, Run, AgentSteps;
      if !ValidDefault(db, workflow, version, hash) { return false; }
      var before := db;
      ghost var start := log;
      var definitionHash := db.versions[version].definitionHash;
      var ids := LiveAgents(db);
      RunNothing(db);
      for i := 0 to |ids|
        invariant AgentsSteps(before, i, workflow, version, definitionHash).Some?
        invariant db == Run(before, AgentsSteps(before, i, workflow, version, definitionHash).value)
        invariant log == start + AgentsSteps(before, i, workflow, version, definitionHash).value
      {
        assert ids[i] in ids;
        ghost var done := AgentsSteps(before, i, workflow, version, definitionHash).value;
        var steps := AgentSteps(db, ids[i], before.agents[ids[i]], workflow, version, definitionHash);
        if steps.None? {
          NoneStays(before, i + 1, |ids|, workflow, version, definitionHash);
          db, log := before, start;
          return false;
        }
        ExecAll(steps.value);
        RunConcat(before, done, steps.value);
        assert log == start + (done + steps.value);
      }
      ghost var done := AgentsSteps(before, |ids|, workflow, version, definitionHash).value;
      ExecAll(Closing(workflow));
      RunConcat(before, done, Closing(workflow));
      assert log == start + (done + Closing(workflow));
      ok := true;
    }

    method ExecAll(steps: seq<Statement>)
      modifies this
      ensures db == Run(old(db), steps) && log == old(log) + steps
    {
      hide Apply;
      assert steps[..0] == [];
      for i := 0 to |steps|
        invariant db == Run(old(db), steps[..i]) && log == old(log) + steps[..i]
      {
        Exec(steps[i]);
        assert steps[..i + 1][..i] == steps[..i] && steps[..i + 1] == steps[..i] + [steps[i]];
      }
      assert steps[..|steps|] == steps;
    }

    /** One round of the loop in enforceManualWorkflowReleaseDeployment. */
    method RetireOne(release: nat)
      modifies this
      ensures db == Run(old(db), RetireSteps(old(db), release)) && log == old(log) + RetireSteps(old(db), release)
    {
      var affected := release in db.releases && LiveActive(db.releases[release]);
      var agent := if affected then db.releases[release].agent else 0;
      ExecAll(if affected then [RetireIfActive(release), Unbind(agent, release)] else [RetireIfActive(release)]);
    }
  }

  lemma {:induction false} NoneStays(db: Db, n: nat, m: nat, workflow: nat, version: nat, hash: string)
    requires n <= m <= |LiveAgents(db)| && AgentsSteps(db, n, workflow, version, hash).None?
    ensures AgentsSteps(db, m, workflow, version, hash).None?
  {
    hide AgentSteps, Run, LiveAgents;
    if n < m { NoneStays(db, n, m - 1, workflow, version, hash); }
  }
}
