/**
 What the release transactions keep: the unique index after every statement, the pointer invariant
 between transactions, and what a consolidation achieves for every agent.
 */
module ReleaseRuns {
  import opened Wrappers
  import opened Tables
  import opened Releases

  // ---------------------------------------------------------------- single statements

  lemma {:induction false} RetireKeepsIndex(db: Db, id: nat)
    requires OneActive(db)
    ensures OneActive(Apply(db, Retire(id))) && OneActive(Apply(db, RetireIfActive(id)))
  {
  }

  lemma {:induction false} AgentStatementKeepsIndex(db: Db, s: Statement)
    requires OneActive(db) && !s.Retire? && !s.RetireIfActive? && !s.Insert? && !s.Activate?
    ensures OneActive(Apply(db, s)) && Apply(db, s).releases == db.releases
  {
  }

  lemma {:induction false} InsertKeepsIndex(db: Db, id: nat, row: Release)
    requires OneActive(db) && id !in db.releases
    requires forall r :: r in db.releases && LiveActive(db.releases[r]) ==> db.releases[r].agent != row.agent
    ensures OneActive(Apply(db, Insert(id, row)))
  {
  }

  lemma {:induction false} ActivateKeepsIndex(db: Db, id: nat)
    requires OneActive(db) && id in db.releases
    requires forall r ::
               r in db.releases && r != id && LiveActive(db.releases[r]) ==>
                 db.releases[r].agent != db.releases[id].agent
    ensures OneActive(Apply(db, Activate(id)))
  {
  }

  lemma {:induction false} IndexHoldsOne(db: Db, s: Statement)
    requires OneActive(db) && OneActive(Apply(db, s))
    ensures IndexHolds(db, [s])
  {
    hide OneActive, Apply, Run;
    RunNothing(db);
    RunOne(db, s);
    forall k | 0 <= k <= 1 ensures OneActive(Run(db, [s][..k])) {
      assert [s][..k] == if k == 0 then [] else [s];
    }
  }

  // ---------------------------------------------------------------- one agent of the consolidation

  /** Only one agent's rows have changed, and no release has disappeared. */
  ghost predicate Frame(db: Db, db': Db, id: nat) {
    && db'.agents.Keys == db.agents.Keys
    && (forall a :: a in db.agents && a != id ==> db'.agents[a] == db.agents[a])
    && (forall r :: r in db.releases ==> r in db'.releases && db'.releases[r].agent == db.releases[r].agent)
    && (forall r :: r in db.releases && db.releases[r].agent != id ==> db'.releases[r] == db.releases[r])
    && (forall r :: r in db'.releases && r !in db.releases ==> db'.releases[r].agent == id)
    && db'.workflows == db.workflows && db'.versions == db.versions && db'.profiles == db.profiles
  }

  /** One more than the largest number of the agent's releases. */
  ghost predicate IsNextNumber(db: Db, id: nat, number: nat) {
    && (forall r :: r in db.releases && db.releases[r].agent == id ==> db.releases[r].number < number)
    && (exists r :: r in db.releases && db.releases[r].agent == id && db.releases[r].number + 1 == number)
  }

  /**
   An active release on the default version stays as it is. Any other one is retired, and a new release with the same
   frozen configuration and knowledge scope takes its place.
   */
  ghost predicate ActiveSettled(db: Db, db': Db, id: nat, workflow: nat, version: nat, hash: string)
    requires id in db.agents && id in db'.agents
  {
    var agent, was, now := db.agents[id], db.agents[id].active, db'.agents[id].active;
    was in db.releases && was in db'.releases && now in db'.releases &&
    var prior, row := db.releases[was], db'.releases[now];
    && prior.agent == id
    && if prior.workflow == workflow && prior.version == version then now == was && row == prior
       else
         && now !in db.releases && IsNextNumber(db, id, row.number)
         && row == Release(agent.tenant, agent.product, id, row.number, workflow, version, hash, prior.config,
                           prior.configHash, prior.scope, prior.scopeHash, Approved, Active, Live)
         && db'.releases[was] == prior.(deployment := Retired)
  }

  /** The agent's other releases are as they were, and only its active one can be new. */
  ghost predicate OthersKept(db: Db, db': Db, id: nat)
    requires id in db.agents && id in db'.agents
  {
    && (forall r :: r in db.releases && db.releases[r].agent == id && r != db.agents[id].active ==>
          r in db'.releases && db'.releases[r] == db.releases[r])
    && (forall r :: r in db'.releases && r !in db.releases && db'.releases[r].agent == id ==>
          r == db'.agents[id].active)
  }

  /**
   The agent is bound to the default version, with a new draft revision exactly when it was bound to another one, and
   has an active release of the default version exactly when it had an active release.
   */
  ghost predicate Settled(db: Db, db': Db, id: nat, workflow: nat, version: nat, hash: string) {
    id in db.agents && id in db'.agents &&
    var before, after := db.agents[id], db'.agents[id];
    && after == before.(
         workflow := workflow, version := version, active := after.active,
         draft := if before.workflow == workflow && before.version == version then before.draft else before.draft + 1)
    && (after.active == 0 <==> before.active == 0)
    && (before.active != 0 ==> ActiveSettled(db, db', id, workflow, version, hash))
    && OthersKept(db, db', id)
  }

  lemma {:induction false} RunThree(db: Db, a: Statement, b: Statement, c: Statement)
    ensures Run(db, [a, b, c]) == Apply(Apply(Apply(db, a), b), c)
  {
    hide Apply, Run;
    assert [a, b, c] == [a] + ([b] + [c]);
    RunConcat(db, [a], [b] + [c]);
    RunConcat(Apply(db, a), [b], [c]);
    RunOne(db, a);
    RunOne(Apply(db, a), b);
    RunOne(Apply(Apply(db, a), b), c);
  }

  lemma {:induction false} RebindSettles(db: Db, id: nat, workflow: nat, version: nat, hash: string)
    requires Inv(db) && id in db.agents
    requires db.agents[id].active != 0 ==>
               OnDefault(db.releases[db.agents[id].active].workflow, db.releases[db.agents[id].active].version,
                         workflow, version)
    ensures var db' :=
              Apply(db, Bind(id, workflow, version, db.agents[id].active, NextDraft(db.agents[id], workflow, version)));
            Inv(db') && Frame(db, db', id) && Settled(db, db', id, workflow, version, hash)
  {
  }

  ghost predicate Replaces(db: Db, id: nat, workflow: nat, version: nat) {
    id in db.agents && db.agents[id].active != 0 && db.agents[id].active in db.releases &&
    !OnDefault(db.releases[db.agents[id].active].workflow, db.releases[db.agents[id].active].version, workflow, version)
  }

  ghost function Replaced(db: Db, id: nat, workflow: nat, version: nat, hash: string): Db
    requires Replaces(db, id, workflow, version)
  {
    var agent := db.agents[id];
    var row := Replacement(db, id, agent, db.releases[agent.active], workflow, version, hash);
    Apply(Apply(Apply(db, Retire(agent.active)), Insert(NextId(db), row)),
          Bind(id, workflow, version, NextId(db), NextDraft(agent, workflow, version)))
  }

  lemma {:induction false} ReplacedTables(db: Db, id: nat, workflow: nat, version: nat, hash: string)
    requires Inv(db) && Replaces(db, id, workflow, version)
    ensures var agent, db' := db.agents[id], Replaced(db, id, workflow, version, hash);
            var prior := db.releases[agent.active];
            && NextId(db) !in db.releases && NextId(db) != 0
            && db'.releases ==
               db.releases[agent.active := prior.(deployment := Retired)]
                          [NextId(db) := Replacement(db, id, agent, prior, workflow, version, hash)]
            && db'.agents ==
               db.agents[id := agent.(workflow := workflow, version := version, active := NextId(db),
                                      draft := NextDraft(agent, workflow, version))]
            && db'.workflows == db.workflows && db'.versions == db.versions && db'.profiles == db.profiles
  {
    hide Inv, Replacement, NextDraft;
    assert NextId(db) !in db.releases.Keys;
  }

  lemma {:induction false} ReplacementNumberIsNew(db: Db, id: nat, r: nat)
    requires r in db.releases && db.releases[r].agent == id
    ensures db.releases[r].number < Max0(Numbers(db, id)) + 1
  {
    assert db.releases[r].number in Numbers(db, id);
  }

  lemma {:induction false} ReplacementIsNext(db: Db, id: nat, r: nat)
    requires r in db.releases && db.releases[r].agent == id
    ensures IsNextNumber(db, id, Max0(Numbers(db, id)) + 1)
  {
    var numbers := Numbers(db, id);
    assert db.releases[r].number in numbers;
    assert Max0(numbers) in numbers;
    forall q | q in db.releases && db.releases[q].agent == id ensures db.releases[q].number < Max0(numbers) + 1 {
      ReplacementNumberIsNew(db, id, q);
    }
  }

  lemma {:induction false} ReplacedIsNumbered(db: Db, id: nat, workflow: nat, version: nat, hash: string)
    requires Inv(db) && Replaces(db, id, workflow, version)
    ensures Numbered(Replaced(db, id, workflow, version, hash))
  {
    hide Replaced, Apply, NextDraft, OneActive, Pointed, NextId;
    ReplacedTables(db, id, workflow, version, hash);
    forall r | r in db.releases && db.releases[r].agent == id
      ensures db.releases[r].number < Max0(Numbers(db, id)) + 1
    {
      ReplacementNumberIsNew(db, id, r);
    }
  }

  lemma {:induction false} ReplacedIsIndexed(db: Db, id: nat, workflow: nat, version: nat, hash: string)
    requires Inv(db) && Replaces(db, id, workflow, version)
    ensures OneActive(Replaced(db, id, workflow, version, hash)) && Pointed(Replaced(db, id, workflow, version, hash))
    ensures 0 !in Replaced(db, id, workflow, version, hash).releases
  {
    hide Replaced, Apply, NextDraft, Numbered, NextId, Numbers, Max0;
    ReplacedTables(db, id, workflow, version, hash);
    var db' := Replaced(db, id, workflow, version, hash);
    forall a | a in db'.agents && db'.agents[a].active != 0
      ensures db'.agents[a].active in db'.releases &&
              DeployableFor(a, db'.agents[a], db'.releases[db'.agents[a].active])
    {
      if a != id {
        assert db'.agents[a] == db.agents[a];
        assert db.releases[db.agents[a].active].agent == a;
      }
    }
  }

  lemma {:induction false} ReplaceSettles(db: Db, id: nat, workflow: nat, version: nat, hash: string)
    requires Inv(db) && Replaces(db, id, workflow, version)
    ensures var db' := Replaced(db, id, workflow, version, hash);
            Inv(db') && Frame(db, db', id) && Settled(db, db', id, workflow, version, hash)
  {
    hide Replaced, Apply, NextDraft, Numbered, OneActive, NextId, Numbers, Max0, Frame, Settled;
    ReplacedIsNumbered(db, id, workflow, version, hash);
    ReplacedIsIndexed(db, id, workflow, version, hash);
    ReplacedFrame(db, id, workflow, version, hash);
  }

  lemma {:induction false} ReplacedFrame(db: Db, id: nat, workflow: nat, version: nat, hash: string)
    requires Inv(db) && Replaces(db, id, workflow, version)
    ensures var db' := Replaced(db, id, workflow, version, hash);
            Frame(db, db', id) && Settled(db, db', id, workflow, version, hash)
  {
    hide Replaced, Apply, Numbered, OneActive, NextId, Numbers, Max0, IsNextNumber;
    ReplacedTables(db, id, workflow, version, hash);
    var was := db.agents[id].active;
    assert DeployableFor(id, db.agents[id], db.releases[was]);
    ReplacementIsNext(db, id, was);
  }

  lemma {:induction false} ReplaceKeepsIndex(db: Db, id: nat, workflow: nat, version: nat, hash: string)
    requires Inv(db) && Replaces(db, id, workflow, version)
    ensures var agent := db.agents[id];
            var row := Replacement(db, id, agent, db.releases[agent.active], workflow, version, hash);
            IndexHolds(db, [Retire(agent.active), Insert(NextId(db), row),
                            Bind(id, workflow, version, NextId(db), NextDraft(agent, workflow, version))])
  {
    ReplacedTables(db, id, workflow, version, hash);
    hide NextDraft, Numbered, NextId, Numbers, Max0, IndexHolds, Run;
    var agent := db.agents[id];
    var row := Replacement(db, id, agent, db.releases[agent.active], workflow, version, hash);
    var a, b := Retire(agent.active), Insert(NextId(db), row);
    var c := Bind(id, workflow, version, NextId(db), NextDraft(agent, workflow, version));
    var db1 := Apply(db, a);
    RetireKeepsIndex(db, agent.active);
    InsertKeepsIndex(db1, NextId(db), row);
    AgentStatementKeepsIndex(Apply(db1, b), c);
    ThreeHold(db, a, b, c);
  }

  lemma {:induction false} ThreeHold(db: Db, a: Statement, b: Statement, c: Statement)
    requires OneActive(db) && OneActive(Apply(db, a)) && OneActive(Apply(Apply(db, a), b)) &&
             OneActive(Apply(Apply(Apply(db, a), b), c))
    ensures IndexHolds(db, [a, b, c])
  {
    hide OneActive, Apply, Run, IndexHolds;
    IndexHoldsOne(db, a);
    IndexHoldsOne(Apply(db, a), b);
    IndexHoldsOne(Apply(Apply(db, a), b), c);
    RunOne(db, a);
    RunOne(Apply(db, a), b);
    IndexHoldsConcat(Apply(db, a), [b], [c]);
    IndexHoldsConcat(db, [a], [b] + [c]);
    assert [a] + ([b] + [c]) == [a, b, c];
  }

  lemma {:induction false} AgentStepsSettle(db: Db, id: nat, workflow: nat, version: nat, hash: string)
    requires Inv(db) && id in db.agents
    ensures var steps := AgentSteps(db, id, db.agents[id], workflow, version, hash);
            && steps.Some? && IndexHolds(db, steps.value)
            && Inv(Run(db, steps.value)) && Frame(db, Run(db, steps.value), id)
            && Settled(db, Run(db, steps.value), id, workflow, version, hash)
  {
    hide Apply, Run, OneActive, Numbered, Frame, Settled, IndexHolds, NextId, Replacement, NextDraft, Replaced;
    var agent := db.agents[id];
    var draft := NextDraft(agent, workflow, version);
    if Replaces(db, id, workflow, version) {
      ReplaceSettles(db, id, workflow, version, hash);
      ReplaceKeepsIndex(db, id, workflow, version, hash);
      var row := Replacement(db, id, agent, db.releases[agent.active], workflow, version, hash);
      RunThree(db, Retire(agent.active), Insert(NextId(db), row), Bind(id, workflow, version, NextId(db), draft));
      ReplacedIs(db, id, workflow, version, hash);
    } else {
      var s := Bind(id, workflow, version, agent.active, draft);
      RebindSettles(db, id, workflow, version, hash);
      AgentStatementKeepsIndex(db, s);
      IndexHoldsOne(db, s);
      RunOne(db, s);
    }
  }

  lemma ReplacedIs(db: Db, id: nat, workflow: nat, version: nat, hash: string)
    requires Replaces(db, id, workflow, version)
    ensures var agent := db.agents[id];
            var row := Replacement(db, id, agent, db.releases[agent.active], workflow, version, hash);
            Replaced(db, id, workflow, version, hash) ==
            Apply(Apply(Apply(db, Retire(agent.active)), Insert(NextId(db), row)),
                  Bind(id, workflow, version, NextId(db), NextDraft(agent, workflow, version)))
  {
  }

  // ---------------------------------------------------------------- the loop over all agents

  /** The first n agents are settled; the other rows of both tables are as they were. */
  ghost predicate Progress(db: Db, db': Db, n: nat, workflow: nat, version: nat, hash: string)
    requires n <= |LiveAgents(db)|
  {
    var ids := LiveAgents(db);
    && db'.agents.Keys == db.agents.Keys
    && (forall i :: 0 <= i < n ==> Settled(db, db', ids[i], workflow, version, hash))
    && (forall a :: a in db.agents && a !in ids[..n] ==> Untouched(db, db', a))
    && AgentsOfReleasesKept(db, db')
    && db'.workflows == db.workflows && db'.versions == db.versions && db'.profiles == db.profiles
  }

  ghost predicate AgentsOfReleasesKept(db: Db, db': Db) {
    forall r :: r in db.releases ==> r in db'.releases && db'.releases[r].agent == db.releases[r].agent
  }

  /** An agent's row and its releases are as they were. */
  ghost predicate Untouched(db: Db, db': Db, a: nat) {
    && a in db.agents && a in db'.agents && db'.agents[a] == db.agents[a]
    && (forall r ::
          r in db.releases && db.releases[r].agent == a ==> r in db'.releases && db'.releases[r] == db.releases[r])
    && (forall r :: r in db'.releases && db'.releases[r].agent == a ==> r in db.releases)
  }

  lemma {:induction false} FrameKeepsSettled(
    db: Db, mid: Db, db': Db, id: nat, other: nat, workflow: nat, version: nat, hash: string)
    requires Settled(db, mid, id, workflow, version, hash) && Pointed(mid) && Frame(mid, db', other) && id != other
    ensures Settled(db, db', id, workflow, version, hash)
  {
    hide NextDraft;
  }

  lemma {:induction false} FrameKeepsUntouched(db: Db, mid: Db, db': Db, a: nat, other: nat)
    requires Untouched(db, mid, a) && Frame(mid, db', other) && a != other
    ensures Untouched(db, db', a)
  {
  }

  lemma {:induction false} UntouchedSettles(
    db: Db, mid: Db, db': Db, id: nat, workflow: nat, version: nat, hash: string)
    requires Untouched(db, mid, id) && Settled(mid, db', id, workflow, version, hash) && Pointed(db)
    requires Frame(mid, db', id) && AgentsOfReleasesKept(db, mid)
    ensures Settled(db, db', id, workflow, version, hash)
  {
    hide IsNextNumber;
    if db.agents[id].active != 0 && db'.agents[id].active !in mid.releases {
      SameNext(db, mid, id, db'.releases[db'.agents[id].active].number);
    }
  }

  lemma {:induction false} SameNext(db: Db, mid: Db, id: nat, number: nat)
    requires Untouched(db, mid, id) && AgentsOfReleasesKept(db, mid)
    ensures IsNextNumber(db, id, number) <==> IsNextNumber(mid, id, number)
  {
  }

  lemma {:induction false} ProgressStep(db: Db, mid: Db, db': Db, n: nat, workflow: nat, version: nat, hash: string)
    requires n < |LiveAgents(db)| && Pointed(db) && Pointed(mid)
    requires Progress(db, mid, n, workflow, version, hash) && Frame(mid, db', LiveAgents(db)[n])
    requires Settled(mid, db', LiveAgents(db)[n], workflow, version, hash)
    ensures Progress(db, db', n + 1, workflow, version, hash)
  {
    hide Settled, Untouched, Pointed, LiveAgents;
    var ids := LiveAgents(db);
    LiveAgentsAscend(db);
    var id := ids[n];
    forall i | 0 <= i <= n ensures Settled(db, db', ids[i], workflow, version, hash) {
      if i < n {
        FrameKeepsSettled(db, mid, db', ids[i], id, workflow, version, hash);
      } else {
        NotYet(ids, n);
        UntouchedSettles(db, mid, db', id, workflow, version, hash);
      }
    }
    forall a | a in db.agents && a !in ids[..n + 1] ensures Untouched(db, db', a) {
      assert ids[..n + 1] == ids[..n] + [id];
      FrameKeepsUntouched(db, mid, db', a, id);
    }
  }

  lemma {:induction false} LiveAgentsAscend(db: Db)
    ensures forall i, j :: 0 <= i < j < |LiveAgents(db)| ==> LiveAgents(db)[i] < LiveAgents(db)[j]
    ensures forall i :: 0 <= i < |LiveAgents(db)| ==> LiveAgents(db)[i] in db.agents
    ensures forall a :: a in db.agents && !db.agents[a].status.Deleted? ==> a in LiveAgents(db)
  {
    forall i | 0 <= i < |LiveAgents(db)| ensures LiveAgents(db)[i] in db.agents {
      assert LiveAgents(db)[i] in LiveAgents(db);
    }
  }

  lemma {:induction false} NotYet(ids: seq<nat>, n: nat)
    requires n < |ids| && forall i, j :: 0 <= i < j < |ids| ==> ids[i] < ids[j]
    ensures ids[n] !in ids[..n]
  {
  }

  /** The loop never fails in a state that satisfies the invariants, and keeps the index at every statement. */
  lemma {:induction false} AgentsLoop(db: Db, n: nat, workflow: nat, version: nat, hash: string)
    requires Inv(db) && n <= |LiveAgents(db)|
    ensures AgentsSteps(db, n, workflow, version, hash).Some?
    ensures var steps := AgentsSteps(db, n, workflow, version, hash).value;
            IndexHolds(db, steps) && Inv(Run(db, steps)) && Progress(db, Run(db, steps), n, workflow, version, hash)
  {
    hide Inv, OneActive, Numbered, Apply, Run, IndexHolds, Settled, Frame, AgentSteps, LiveAgents, Progress;
    if n == 0 {
      LoopStarts(db, workflow, version, hash);
    } else {
      AgentsLoop(db, n - 1, workflow, version, hash);
      LiveAgentsAscend(db);
      var before, id := AgentsSteps(db, n - 1, workflow, version, hash).value, LiveAgents(db)[n - 1];
      var mid := Run(db, before);
      StillItsRow(db, mid, n - 1, workflow, version, hash);
      AgentStepsSettle(mid, id, workflow, version, hash);
      var steps := AgentSteps(mid, id, db.agents[id], workflow, version, hash).value;
      RunConcat(db, before, steps);
      IndexHoldsConcat(db, before, steps);
      InvPoints(db);
      InvPoints(mid);
      ProgressStep(db, mid, Run(mid, steps), n - 1, workflow, version, hash);
    }
  }

  lemma InvPoints(db: Db)
    requires Inv(db)
    ensures Pointed(db)
  {
  }

  lemma {:induction false} StillItsRow(db: Db, mid: Db, n: nat, workflow: nat, version: nat, hash: string)
    requires n < |LiveAgents(db)| && Progress(db, mid, n, workflow, version, hash)
    ensures LiveAgents(db)[n] in mid.agents && LiveAgents(db)[n] in db.agents
    ensures mid.agents[LiveAgents(db)[n]] == db.agents[LiveAgents(db)[n]]
  {
    hide Settled, LiveAgents;
    LiveAgentsAscend(db);
    NotYet(LiveAgents(db), n);
    assert Untouched(db, mid, LiveAgents(db)[n]);
  }

  lemma {:induction false} LoopStarts(db: Db, workflow: nat, version: nat, hash: string)
    requires Inv(db)
    ensures IndexHolds(db, []) && Inv(Run(db, [])) && Progress(db, Run(db, []), 0, workflow, version, hash)
  {
    RunNothing(db);
    var none: seq<Statement> := [];
    assert none[..0] == none;
  }

  // ---------------------------------------------------------------- the whole consolidation

  /** What the closing statements do to the workflow tables. */
  ghost predicate OnlyDefaultLives(db: Db, db': Db, workflow: nat) {
    && db'.workflows.Keys == db.workflows.Keys && db'.versions.Keys == db.versions.Keys
    && db'.profiles.Keys == db.profiles.Keys
    && (forall w :: w in db.workflows ==>
          db'.workflows[w] == if w == workflow then db.workflows[w] else db.workflows[w].(status := Deleted))
    && (forall v :: v in db.versions ==>
          db'.versions[v] == if db.versions[v].workflow == workflow || db.versions[v].workflow !in db.workflows
                             then db.versions[v] else db.versions[v].(status := Deleted))
    && (forall p :: p in db.profiles ==>
          db'.profiles[p] ==
          if db.profiles[p].status.Deleted? then db.profiles[p] else db.profiles[p].(template := workflow))
  }

  lemma {:induction false} ClosingEffect(db: Db, workflow: nat)
    requires Inv(db)
    ensures var db' := Run(db, Closing(workflow));
            && db'.agents == db.agents && db'.releases == db.releases && Inv(db')
            && OnlyDefaultLives(db, db', workflow) && IndexHolds(db, Closing(workflow))
  {
    hide Run, IndexHolds;
    var a, b, c := SetTemplates(workflow), DeleteWorkflows(workflow), DeleteVersions(workflow);
    RunThree(db, a, b, c);
    AgentStatementKeepsIndex(db, a);
    AgentStatementKeepsIndex(Apply(db, a), b);
    AgentStatementKeepsIndex(Apply(Apply(db, a), b), c);
    ThreeHold(db, a, b, c);
  }

  /**
   Consolidation never fails between transactions. It keeps the index after every statement and both
   invariants; it settles every live agent on the default version with its configuration and
   knowledge snapshots, leaves deleted agents alone, and leaves only the default workflow alive.
   */
  lemma {:induction false} ConsolidationSettlesAll(db: Db, workflow: nat, version: nat, hash: string -> string)
    requires Inv(db) && ValidDefault(db, workflow, version, hash)
    ensures ConsolidateSteps(db, workflow, version, hash).Some?
    ensures var steps := ConsolidateSteps(db, workflow, version, hash).value;
            var db' := Run(db, steps);
            && IndexHolds(db, steps) && Inv(db') && db'.agents.Keys == db.agents.Keys
            && (forall a :: a in db.agents && !db.agents[a].status.Deleted? ==>
                  Settled(db, db', a, workflow, version, db.versions[version].definitionHash))
            && (forall a :: a in db.agents && db.agents[a].status.Deleted? ==> Untouched(db, db', a))
            && OnlyDefaultLives(db, db', workflow)
  {
    hide Inv, Apply, Run, IndexHolds, Settled, AgentsSteps, LiveAgents, Closing, Untouched, OnlyDefaultLives;
    var n, hashed := |LiveAgents(db)|, db.versions[version].definitionHash;
    AgentsLoop(db, n, workflow, version, hashed);
    var steps := AgentsSteps(db, n, workflow, version, hashed).value;
    var mid := Run(db, steps);
    ClosingEffect(mid, workflow);
    RunConcat(db, steps, Closing(workflow));
    IndexHoldsConcat(db, steps, Closing(workflow));
    var db' := Run(mid, Closing(workflow));
    LiveAgentsAscend(db);
    assert LiveAgents(db)[..n] == LiveAgents(db);
    forall a | a in db.agents && !db.agents[a].status.Deleted?
      ensures Settled(db, db', a, workflow, version, hashed)
    {
      var i :| 0 <= i < n && LiveAgents(db)[i] == a;
      SettledByTables(db, mid, db', a, workflow, version, hashed);
    }
    forall a | a in db.agents && db.agents[a].status.Deleted? ensures Untouched(db, db', a) {
      DeletedIsNotLive(db, a);
      UntouchedByTables(db, mid, db', a);
    }
    assert mid.workflows == db.workflows && mid.versions == db.versions && mid.profiles == db.profiles;
    DefaultLivesByTables(db, mid, db', workflow);
  }

  lemma {:induction false} SettledByTables(db: Db, mid: Db, db': Db, a: nat, workflow: nat, version: nat, hash: string)
    requires Settled(db, mid, a, workflow, version, hash) && db'.agents == mid.agents && db'.releases == mid.releases
    ensures Settled(db, db', a, workflow, version, hash)
  {
  }

  lemma {:induction false} UntouchedByTables(db: Db, mid: Db, db': Db, a: nat)
    requires Untouched(db, mid, a) && db'.agents == mid.agents && db'.releases == mid.releases
    ensures Untouched(db, db', a)
  {
  }

  lemma {:induction false} DefaultLivesByTables(db: Db, mid: Db, db': Db, workflow: nat)
    requires mid.workflows == db.workflows && mid.versions == db.versions && mid.profiles == db.profiles
    requires OnlyDefaultLives(mid, db', workflow)
    ensures OnlyDefaultLives(db, db', workflow)
  {
  }

  lemma {:induction false} DeletedIsNotLive(db: Db, a: nat)
    requires a in db.agents && db.agents[a].status.Deleted?
    ensures a !in LiveAgents(db)
  {
  }

  // ---------------------------------------------------------------- when a consolidation succeeds

  /** An agent without an active release, or with an approved and active one of its own. */
  ghost predicate Ready(db: Db, id: nat, agent: Agent) {
    agent.active == 0 ||
    (agent.active in db.releases &&
     var r := db.releases[agent.active];
     && r.agent == id && r.tenant == agent.tenant && r.product == agent.product
     && r.status == Live && r.review == Approved && r.deployment == Active)
  }

  lemma {:induction false} StepsIffReady(db: Db, id: nat, agent: Agent, workflow: nat, version: nat, hash: string)
    ensures AgentSteps(db, id, agent, workflow, version, hash).Some? <==> Ready(db, id, agent)
  {
    hide NextId, Replacement, NextDraft;
  }

  /** The statements for one agent make no other agent ready and none unready. */
  lemma {:induction false} StepsKeepReady(
    db: Db, id: nat, agent: Agent, workflow: nat, version: nat, hash: string, a: nat, other: Agent)
    requires a != id && AgentSteps(db, id, agent, workflow, version, hash).Some?
    ensures Ready(Run(db, AgentSteps(db, id, agent, workflow, version, hash).value), a, other) <==> Ready(db, a, other)
  {
    hide Run, NextDraft, NextId;
    var steps := AgentSteps(db, id, agent, workflow, version, hash).value;
    var draft := NextDraft(agent, workflow, version);
    if |steps| == 1 {
      RunOne(db, steps[0]);
      assert steps == [steps[0]];
    } else {
      var row := Replacement(db, id, agent, db.releases[agent.active], workflow, version, hash);
      RunThree(db, Retire(agent.active), Insert(NextId(db), row), Bind(id, workflow, version, NextId(db), draft));
      assert NextId(db) !in db.releases by { NextIdIsNew(db); }
      assert row.agent == id;
    }
  }

  lemma NextIdIsNew(db: Db)
    ensures NextId(db) !in db.releases
  {
    assert NextId(db) !in db.releases.Keys;
  }

  lemma {:induction false} LoopIffReady(db: Db, n: nat, workflow: nat, version: nat, hash: string)
    requires n <= |LiveAgents(db)|
    ensures var ids, loop := LiveAgents(db), AgentsSteps(db, n, workflow, version, hash);
            && (forall i :: 0 <= i < |ids| ==> ids[i] in db.agents)
            && (loop.Some? <==> forall i :: 0 <= i < n ==> Ready(db, ids[i], db.agents[ids[i]]))
            && (loop.Some? ==> forall i :: n <= i < |ids| ==>
                  (Ready(Run(db, loop.value), ids[i], db.agents[ids[i]]) <==> Ready(db, ids[i], db.agents[ids[i]])))
  {
    hide Run, AgentSteps, Ready, LiveAgents;
    LiveAgentsAscend(db);
    if n == 0 {
      RunNothing(db);
    } else {
      LoopIffReady(db, n - 1, workflow, version, hash);
      var ids, before := LiveAgents(db), AgentsSteps(db, n - 1, workflow, version, hash);
      if before.Some? {
        var mid, id := Run(db, before.value), ids[n - 1];
        StepsIffReady(mid, id, db.agents[id], workflow, version, hash);
        var steps := AgentSteps(mid, id, db.agents[id], workflow, version, hash);
        if steps.Some? {
          RunConcat(db, before.value, steps.value);
          forall i | n <= i < |ids|
            ensures Ready(Run(mid, steps.value), ids[i], db.agents[ids[i]]) <==> Ready(db, ids[i], db.agents[ids[i]])
          {
            StepsKeepReady(mid, id, db.agents[id], workflow, version, hash, ids[i], db.agents[ids[i]]);
          }
        }
      }
    }
  }

  /**
   On any database the consolidation succeeds if and only if the default version exists, is live, belongs to the
   workflow and has the right fingerprint, and every live agent is ready. Otherwise it changes nothing.
   */
  lemma {:induction false} ConsolidatesIff(db: Db, workflow: nat, version: nat, hash: string -> string)
    ensures ConsolidateSteps(db, workflow, version, hash).Some? <==>
            && workflow != 0 && workflow in db.workflows
            && version in db.versions && db.versions[version].status == Live
            && db.versions[version].workflow == workflow
            && db.versions[version].definitionHash == hash(db.versions[version].definition)
            && (forall a :: a in db.agents && db.agents[a].status != Deleted ==> Ready(db, a, db.agents[a]))
  {
    hide Ready, AgentsSteps, LiveAgents;
    if version in db.versions {
      LoopIffReady(db, |LiveAgents(db)|, workflow, version, db.versions[version].definitionHash);
      LiveAgentsAscend(db);
      LiveAgentsLive(db);
    }
  }

  lemma LiveAgentsLive(db: Db)
    ensures forall a :: a in LiveAgents(db) <==> a in db.agents && db.agents[a].status != Deleted
  {
  }

  // ---------------------------------------------------------------- a second consolidation

  /** Every live agent and its active release are on the default version already. */
  ghost predicate AllOnDefault(db: Db, workflow: nat, version: nat) {
    forall a :: a in db.agents && !db.agents[a].status.Deleted? ==> AgentOnDefault(db, a, workflow, version)
  }

  ghost predicate AgentOnDefault(db: Db, a: nat, workflow: nat, version: nat)
    requires a in db.agents
  {
    && OnDefault(db.agents[a].workflow, db.agents[a].version, workflow, version)
    && (db.agents[a].active != 0 ==>
          && db.agents[a].active in db.releases
          && OnDefault(db.releases[db.agents[a].active].workflow, db.releases[db.agents[a].active].version, workflow,
                       version))
  }

  lemma {:induction false} QuietAgent(db: Db, id: nat, workflow: nat, version: nat, hash: string)
    requires Inv(db) && id in db.agents && AgentOnDefault(db, id, workflow, version)
    ensures var agent := db.agents[id];
            var s := Bind(id, workflow, version, agent.active, agent.draft);
            AgentSteps(db, id, agent, workflow, version, hash) == Some([s]) && Apply(db, s) == db
  {
    var agent := db.agents[id];
    assert agent.(workflow := workflow, version := version, active := agent.active, draft := agent.draft) == agent;
    assert db.agents[id := agent] == db.agents;
  }

  lemma {:induction false} QuietLoop(db: Db, n: nat, workflow: nat, version: nat, hash: string)
    requires Inv(db) && AllOnDefault(db, workflow, version) && n <= |LiveAgents(db)|
    ensures AgentsSteps(db, n, workflow, version, hash).Some?
    ensures var steps := AgentsSteps(db, n, workflow, version, hash).value;
            Run(db, steps) == db && forall i :: 0 <= i < |steps| ==> steps[i].Bind?
  {
    hide Inv, Apply, Run, AgentSteps, AgentOnDefault;
    if n == 0 {
      RunNothing(db);
    } else {
      QuietLoop(db, n - 1, workflow, version, hash);
      var id := LiveAgents(db)[n - 1];
      assert id in LiveAgents(db);
      QuietAgent(db, id, workflow, version, hash);
      var s := Bind(id, workflow, version, db.agents[id].active, db.agents[id].draft);
      RunConcat(db, AgentsSteps(db, n - 1, workflow, version, hash).value, [s]);
      RunOne(db, s);
    }
  }

  ghost predicate ClosedOut(db: Db, workflow: nat) {
    && (forall w :: w in db.workflows && w != workflow ==> db.workflows[w].status.Deleted?)
    && (forall v ::
          v in db.versions && db.versions[v].workflow != workflow && db.versions[v].workflow in db.workflows ==>
            db.versions[v].status.Deleted?)
    && (forall p :: p in db.profiles && !db.profiles[p].status.Deleted? ==> db.profiles[p].template == workflow)
  }

  lemma {:induction false} QuietClosing(db: Db, workflow: nat)
    requires ClosedOut(db, workflow)
    ensures Run(db, Closing(workflow)) == db
  {
    hide Run;
    RunThree(db, SetTemplates(workflow), DeleteWorkflows(workflow), DeleteVersions(workflow));
    assert Apply(db, SetTemplates(workflow)).profiles == db.profiles;
    assert Apply(db, DeleteWorkflows(workflow)).workflows == db.workflows;
    assert Apply(db, DeleteVersions(workflow)).versions == db.versions;
  }

  lemma {:induction false} SettledIsOnDefault(db: Db, db': Db, a: nat, workflow: nat, version: nat, hash: string)
    requires Settled(db, db', a, workflow, version, hash)
    ensures AgentOnDefault(db', a, workflow, version) && db'.agents[a].status == db.agents[a].status
  {
  }

  /** After OnlyDefaultLives and Settled, the default is still valid and nothing is left to close. */
  lemma {:induction false} SettledStateIsQuiet(db: Db, db': Db, workflow: nat, version: nat, hash: string -> string)
    requires ValidDefault(db, workflow, version, hash) && OnlyDefaultLives(db, db', workflow)
    ensures ValidDefault(db', workflow, version, hash) && ClosedOut(db', workflow)
    ensures db'.versions[version] == db.versions[version]
  {
  }

  /** Running the consolidation again creates no release, changes no draft revision and indeed no row at all. */
  lemma {:induction false} SecondConsolidationIsQuiet(db: Db, workflow: nat, version: nat, hash: string -> string)
    requires Inv(db) && ValidDefault(db, workflow, version, hash)
    ensures ConsolidateSteps(db, workflow, version, hash).Some? &&
            var db' := Run(db, ConsolidateSteps(db, workflow, version, hash).value);
            var again := ConsolidateSteps(db', workflow, version, hash);
            && again.Some? && Run(db', again.value) == db'
            && forall i :: 0 <= i < |again.value| - 3 ==> again.value[i].Bind?
  {
    hide Inv, Run, Apply, AgentsSteps, LiveAgents, Settled, Untouched, OnlyDefaultLives, IndexHolds, AgentOnDefault,
         ClosedOut;
    ConsolidationSettlesAll(db, workflow, version, hash);
    var db' := Run(db, ConsolidateSteps(db, workflow, version, hash).value);
    SettledStateIsQuiet(db, db', workflow, version, hash);
    forall a | a in db'.agents && !db'.agents[a].status.Deleted? ensures AgentOnDefault(db', a, workflow, version) {
      if db.agents[a].status.Deleted? {
        UntouchedRow(db, db', a);
      } else {
        SettledIsOnDefault(db, db', a, workflow, version, db.versions[version].definitionHash);
      }
    }
    var n, hashed := |LiveAgents(db')|, db'.versions[version].definitionHash;
    QuietLoop(db', n, workflow, version, hashed);
    QuietClosing(db', workflow);
    RunConcat(db', AgentsSteps(db', n, workflow, version, hashed).value, Closing(workflow));
  }

  lemma {:induction false} UntouchedRow(db: Db, db': Db, a: nat)
    requires Untouched(db, db', a)
    ensures a in db.agents && a in db'.agents && db'.agents[a] == db.agents[a]
  {
  }

  // ---------------------------------------------------------------- retirement (migration 99)

  ghost function RetiredDb(db: Db, release: nat): Db {
    if release in db.releases && LiveActive(db.releases[release])
    then Apply(Apply(db, RetireIfActive(release)), Unbind(db.releases[release].agent, release))
    else db
  }

  lemma {:induction false} RetireStepsRun(db: Db, release: nat)
    requires OneActive(db)
    ensures Run(db, RetireSteps(db, release)) == RetiredDb(db, release) && IndexHolds(db, RetireSteps(db, release))
  {
    hide Run, IndexHolds, OneActive;
    var a := RetireIfActive(release);
    RetireKeepsIndex(db, release);
    RunOne(db, a);
    IndexHoldsOne(db, a);
    if release in db.releases && LiveActive(db.releases[release]) {
      var b := Unbind(db.releases[release].agent, release);
      AgentStatementKeepsIndex(Apply(db, a), b);
      IndexHoldsOne(Apply(db, a), b);
      RunOne(Apply(db, a), b);
      RunConcat(db, [a], [b]);
      IndexHoldsConcat(db, [a], [b]);
      assert [a] + [b] == [a, b];
    }
  }

  /** A retirement keeps the index after both statements and both invariants, and clears exactly the pointer it must. */
  lemma {:induction false} RetirementIsSafe(db: Db, release: nat)
    requires Inv(db)
    ensures var steps := RetireSteps(db, release);
            var db' := Run(db, steps);
            && IndexHolds(db, steps) && Inv(db') && db'.agents.Keys == db.agents.Keys
            && db'.releases.Keys == db.releases.Keys
            && (forall r :: r in db.releases ==>
                  var row := db.releases[r];
                  db'.releases[r] == if r == release && row.deployment == Active && row.status != Deleted
                                     then row.(deployment := Retired) else row)
            && (forall a :: a in db.agents ==>
                  if release != 0 && db.agents[a].active == release
                  then db'.agents[a] == db.agents[a].(active := 0, status := Disabled, review := Unreviewed)
                  else db'.agents[a] == db.agents[a])
  {
    hide Run, IndexHolds, RetireSteps, RetiredDb, OneActive, Numbered, Pointed, Apply;
    RetireStepsRun(db, release);
    RetiredTables(db, release);
    RetiredKeeps(db, release);
  }

  lemma {:induction false} RetiredTables(db: Db, release: nat)
    requires Inv(db)
    ensures var db' := RetiredDb(db, release);
            && db'.agents.Keys == db.agents.Keys
            && db'.releases == (if release in db.releases && LiveActive(db.releases[release])
                                then db.releases[release := db.releases[release].(deployment := Retired)]
                                else db.releases)
            && (forall a :: a in db.agents ==>
                  if release != 0 && db.agents[a].active == release
                  then db'.agents[a] == db.agents[a].(active := 0, status := Disabled, review := Unreviewed)
                  else db'.agents[a] == db.agents[a])
  {
    hide OneActive, Numbered, DeployableFor;
    if release != 0 { OnlyItsAgent(db, release); }
  }

  lemma {:induction false} OnlyItsAgent(db: Db, release: nat)
    requires Inv(db) && release != 0
    ensures forall a :: a in db.agents && db.agents[a].active == release ==>
              release in db.releases && LiveActive(db.releases[release]) && db.releases[release].agent == a
  {
    hide OneActive, Numbered;
    forall a | a in db.agents && db.agents[a].active == release
      ensures release in db.releases && LiveActive(db.releases[release]) && db.releases[release].agent == a
    {
      assert DeployableFor(a, db.agents[a], db.releases[db.agents[a].active]);
    }
  }

  lemma {:induction false} RetiredKeeps(db: Db, release: nat)
    requires Inv(db)
    ensures Inv(RetiredDb(db, release))
  {
    hide RetiredDb, Apply;
    RetiredTables(db, release);
    var db' := RetiredDb(db, release);
    assert OneActive(db');
    assert Numbered(db');
    forall a | a in db'.agents && db'.agents[a].active != 0
      ensures db'.agents[a].active in db'.releases &&
              DeployableFor(a, db'.agents[a], db'.releases[db'.agents[a].active])
    {
      assert db'.agents[a] == db.agents[a] && db.agents[a].active != release;
    }
  }
}
