/**
 The activation of a tenant's default AI-only release (migration 105), runs of all three release
 transactions in any order, and when a repeated activation changes nothing.
 */
module ReleaseActivation {
  import opened Wrappers
  import opened Tables
  import opened Releases
  import opened ReleaseRuns

  /** What the decoded configuration snapshot of a release says; `assisted` if it names any team, skill or tool. */
  datatype Snapshot = Snapshot(draft: nat, aiOnly: bool, assisted: bool, aiConfig: nat, model: string)

  /** Foreign computations: fingerprints, decoders, and the two names the services fix. */
  datatype Codec = Codec(
    hash: string -> string, decode: string -> Option<Snapshot>, assists: string -> Option<bool>,
    defaultSource: string, aiOnlyCode: string)

  predicate Bound(db: Db, codec: Codec, id: nat) {
    id in db.agents &&
    var agent := db.agents[id];
    && agent.source == codec.defaultSource && agent.product == 0
    && agent.workflow in db.workflows && db.workflows[agent.workflow].code == codec.aiOnlyCode
    && agent.version in db.versions
    && var version := db.versions[agent.version];
    && version.workflow == agent.workflow && version.status.Live? && version.stable
    && codec.assists(version.definition) == Some(false)
  }

  /** The rows of the candidate query. */
  predicate Queried(db: Db, id: nat, r: nat)
    requires id in db.agents
  {
    r in db.releases &&
    var row, agent := db.releases[r], db.agents[id];
    row.agent == id && row.workflow == agent.workflow && row.version == agent.version && row.deployment.Inactive? &&
    !row.status.Deleted?
  }

  function ActiveRow(db: Db, id: nat): Option<Release>
    requires id in db.agents
  {
    if db.agents[id].active in db.releases then Some(db.releases[db.agents[id].active]) else None
  }

  predicate Intact(codec: Codec, row: Release) {
    codec.hash(row.config) == row.configHash && codec.hash(row.scope) == row.scopeHash
  }

  predicate SameModel(codec: Codec, active: Option<Release>, row: Release) {
    active.None? ||
    var one, two := codec.decode(active.value.config), codec.decode(row.config);
    one.Some? && two.Some? && one.value.aiConfig == two.value.aiConfig && one.value.model == two.value.model
  }

  /** The checks on a queried row. */
  predicate Accepts(codec: Codec, agent: Agent, version: Version, active: Option<Release>, row: Release) {
    && row.tenant == agent.tenant && row.product == 0 && row.status.Live?
    && row.definitionHash == version.definitionHash
    && Intact(codec, row)
    && codec.decode(row.config).Some?
    && var snapshot := codec.decode(row.config).value;
    && snapshot.draft == agent.draft && snapshot.aiOnly && !snapshot.assisted
    && SameModel(codec, active, row)
  }

  predicate Eligible(db: Db, codec: Codec, id: nat, active: Option<Release>, r: nat)
    requires Bound(db, codec, id)
  {
    Queried(db, id, r) && Accepts(codec, db.agents[id], db.versions[db.agents[id].version], active, db.releases[r])
  }

  /** tenantDefaultMigrationActiveReleaseIsCurrent */
  predicate Current(db: Db, codec: Codec, id: nat)
    requires Bound(db, codec, id)
  {
    ActiveRow(db, id).Some? &&
    var row, agent := ActiveRow(db, id).value, db.agents[id];
    && row.workflow == agent.workflow && row.version == agent.version
    && row.definitionHash == db.versions[agent.version].definitionHash
    && row.review.Approved? && row.deployment.Active? && row.status.Live? && Intact(codec, row)
    && codec.decode(row.config).Some? && codec.decode(row.config).value.draft == agent.draft
  }

  datatype Decision = Failed | Unchanged | Switch(candidate: nat)

  ghost predicate Newest(db: Db, codec: Codec, id: nat, c: nat)
    requires Bound(db, codec, id)
  {
    Eligible(db, codec, id, ActiveRow(db, id), c) &&
    forall r :: Eligible(db, codec, id, ActiveRow(db, id), r) ==> db.releases[r].number <= db.releases[c].number
  }

  /** What one activation does: fail, leave everything, or switch to the newest eligible release. */
  ghost predicate Decides(db: Db, codec: Codec, id: nat, d: Decision) {
    if !Bound(db, codec, id) then d == Failed
    else if forall r :: !Queried(db, id, r) then d == if Current(db, codec, id) then Unchanged else Failed
    else if codec.hash(db.versions[db.agents[id].version].definition) !=
            db.versions[db.agents[id].version].definitionHash
    then d == Failed
    else if forall r :: !Eligible(db, codec, id, ActiveRow(db, id), r)
    then d == if Current(db, codec, id) then Unchanged else Failed
    else d.Switch? && Newest(db, codec, id, d.candidate)
  }

  function OtherActive(db: Db, id: nat, c: nat): seq<nat> {
    Ascending(set r | r in db.releases && db.releases[r].agent == id && LiveActive(db.releases[r]) && r != c)
  }

  function Retirements(ids: seq<nat>): seq<Statement> {
    seq(|ids|, i requires 0 <= i < |ids| => Retire(ids[i]))
  }

  function SwitchSteps(db: Db, id: nat, c: nat): seq<Statement> {
    Retirements(OtherActive(db, id, c)) + [Activate(c), Point(id, c)]
  }

  // ---------------------------------------------------------------- the activation as a method

  /** The query result: the queried rows, newest first. */
  ghost predicate IsQueryResult(db: Db, id: nat, rows: seq<nat>)
    requires id in db.agents
  {
    && (forall r :: r in rows <==> Queried(db, id, r))
    && (forall i, j ::
          0 <= i < j < |rows| ==>
            rows[i] in db.releases && rows[j] in db.releases &&
            db.releases[rows[i]].number >= db.releases[rows[j]].number)
  }

  /** The search loop stops at the first acceptable row. */
  method FindCandidate(db: Db, codec: Codec, id: nat, rows: seq<nat>) returns (found: Option<nat>)
    requires Bound(db, codec, id) && IsQueryResult(db, id, rows)
    ensures found.None? ==> forall r :: !Eligible(db, codec, id, ActiveRow(db, id), r)
    ensures found.Some? ==> Newest(db, codec, id, found.value)
  {
    hide Accepts;
    var active := ActiveRow(db, id);
    for i := 0 to |rows|
      invariant forall j :: 0 <= j < i ==> !Eligible(db, codec, id, active, rows[j])
    {
      assert rows[i] in rows;
      if Eligible(db, codec, id, active, rows[i]) {
        forall r | Eligible(db, codec, id, active, r) ensures db.releases[r].number <= db.releases[rows[i]].number {
          assert r in rows;
          var j :| 0 <= j < |rows| && rows[j] == r;
        }
        return Some(rows[i]);
      }
    }
    forall r ensures !Eligible(db, codec, id, active, r) {
      if Queried(db, id, r) {
        assert r in rows;
      }
    }
    found := None;
  }

  /** activateTenantDefaultAIOnlyRelease, given the rows its query returns. */
  method ActivateDefault(store: Store, codec: Codec, id: nat, rows: seq<nat>) returns (d: Decision)
    requires id in store.db.agents ==> IsQueryResult(store.db, id, rows)
    modifies store
    ensures Decides(old(store.db), codec, id, d)
    ensures store.db ==
            if d.Switch? then Run(old(store.db), SwitchSteps(old(store.db), id, d.candidate)) else old(store.db)
    ensures store.log == old(store.log) + if d.Switch? then SwitchSteps(old(store.db), id, d.candidate) else []
  {
    hide Run, SwitchSteps, Accepts, Current;
    var db := store.db;
    if !Bound(db, codec, id) { return Failed; }
    assert |rows| == 0 <==> forall r :: !Queried(db, id, r) by {
      if |rows| > 0 { assert rows[0] in rows; }
    }
    if |rows| == 0 {
      return if Current(db, codec, id) then Unchanged else Failed;
    }
    var version := db.versions[db.agents[id].version];
    if codec.hash(version.definition) != version.definitionHash { return Failed; }
    var found := FindCandidate(db, codec, id, rows);
    if found.None? {
      return if Current(db, codec, id) then Unchanged else Failed;
    }
    store.ExecAll(SwitchSteps(db, id, found.value));
    d := Switch(found.value);
  }

  // ---------------------------------------------------------------- it keeps both invariants

  /** Retiring a list of releases changes nothing else and never breaks the index. */
  lemma {:induction false} RetireAll(db: Db, ids: seq<nat>, n: nat)
    requires OneActive(db) && n <= |ids| && forall i :: 0 <= i < |ids| ==> ids[i] in db.releases
    ensures var db' := Run(db, Retirements(ids)[..n]);
            && OneActive(db') && db'.releases.Keys == db.releases.Keys
            && (forall r :: r in db.releases ==>
                  db'.releases[r] == if r in ids[..n] then db.releases[r].(deployment := Retired) else db.releases[r])
            && db' == db.(releases := db'.releases)
  {
    hide OneActive, Run;
    var steps := Retirements(ids);
    if n == 0 {
      assert steps[..0] == [];
      RunNothing(db);
    } else {
      RetireAll(db, ids, n - 1);
      assert steps[..n] == steps[..n - 1] + [Retire(ids[n - 1])];
      RunConcat(db, steps[..n - 1], [Retire(ids[n - 1])]);
      RunOne(Run(db, steps[..n - 1]), Retire(ids[n - 1]));
      RetireKeepsIndex(Run(db, steps[..n - 1]), ids[n - 1]);
      assert ids[..n] == ids[..n - 1] + [ids[n - 1]];
    }
  }

  lemma {:induction false} RetireAllHolds(db: Db, ids: seq<nat>)
    requires OneActive(db) && forall i :: 0 <= i < |ids| ==> ids[i] in db.releases
    ensures IndexHolds(db, Retirements(ids))
  {
    hide OneActive, Run, Apply;
    forall k | 0 <= k <= |ids| ensures OneActive(Run(db, Retirements(ids)[..k])) {
      RetireAll(db, ids, k);
    }
  }

  ghost function Switched(db: Db, id: nat, c: nat): Db {
    Apply(Apply(Run(db, Retirements(OtherActive(db, id, c))), Activate(c)), Point(id, c))
  }

  /** Both tables after a switch. */
  lemma {:induction false} SwitchedTables(db: Db, codec: Codec, id: nat, c: nat)
    requires Inv(db) && Bound(db, codec, id) && Queried(db, id, c)
    ensures var db' := Switched(db, id, c);
            && db'.agents == db.agents[id := db.agents[id].(active := c, status := Live, review := Approved)]
            && db'.workflows == db.workflows && db'.versions == db.versions && db'.profiles == db.profiles
            && db'.releases.Keys == db.releases.Keys
            && (forall r :: r in db.releases ==>
                  var row := db.releases[r];
                  db'.releases[r] == if r == c then row.(review := Approved, deployment := Active)
                                     else if row.agent == id && row.deployment == Active && row.status != Deleted
                                     then row.(deployment := Retired) else row)
  {
    hide Run, OneActive, Numbered, Pointed, Bound;
    var others := OtherActive(db, id, c);
    OthersExist(db, id, c);
    RetireAll(db, others, |others|);
    assert others[..|others|] == others && Retirements(others)[..|others|] == Retirements(others);
    BoundAgent(db, codec, id);
  }

  lemma BoundAgent(db: Db, codec: Codec, id: nat)
    requires Bound(db, codec, id)
    ensures id in db.agents && db.agents[id].product == 0
  {
  }

  lemma {:induction false} OthersExist(db: Db, id: nat, c: nat)
    ensures forall i :: 0 <= i < |OtherActive(db, id, c)| ==> OtherActive(db, id, c)[i] in db.releases
    ensures forall r :: r in OtherActive(db, id, c) <==>
              r in db.releases && db.releases[r].agent == id && LiveActive(db.releases[r]) && r != c
  {
    forall i | 0 <= i < |OtherActive(db, id, c)| ensures OtherActive(db, id, c)[i] in db.releases {
      assert OtherActive(db, id, c)[i] in OtherActive(db, id, c);
    }
  }

  lemma {:induction false} SwitchRuns(db: Db, id: nat, c: nat)
    ensures Run(db, SwitchSteps(db, id, c)) == Switched(db, id, c)
  {
    hide Run, Apply, OtherActive, Retirements;
    var retire := Retirements(OtherActive(db, id, c));
    var mid := Run(db, retire);
    RunConcat(db, retire, [Activate(c), Point(id, c)]);
    assert [Activate(c), Point(id, c)] == [Activate(c)] + [Point(id, c)];
    RunConcat(mid, [Activate(c)], [Point(id, c)]);
    RunOne(mid, Activate(c));
    RunOne(Apply(mid, Activate(c)), Point(id, c));
  }

  lemma {:induction false} SwitchKeepsIndex(db: Db, codec: Codec, id: nat, c: nat)
    requires Inv(db) && Bound(db, codec, id) && Queried(db, id, c)
    ensures IndexHolds(db, SwitchSteps(db, id, c))
  {
    hide Run, IndexHolds, Bound, Numbered, Pointed, OtherActive;
    var others := OtherActive(db, id, c);
    var retire := Retirements(others);
    OthersExist(db, id, c);
    RetireAll(db, others, |others|);
    assert others[..|others|] == others && retire[..|others|] == retire;
    RetireAllHolds(db, others);
    var mid := Run(db, retire);
    forall r | r in mid.releases && r != c && LiveActive(mid.releases[r])
      ensures mid.releases[r].agent != mid.releases[c].agent
    {
      assert r !in others;
    }
    ActivateKeepsIndex(mid, c);
    AgentStatementKeepsIndex(Apply(mid, Activate(c)), Point(id, c));
    TwoHold(mid, Activate(c), Point(id, c));
    IndexHoldsConcat(db, retire, [Activate(c), Point(id, c)]);
  }

  lemma {:induction false} TwoHold(db: Db, a: Statement, b: Statement)
    requires OneActive(db) && OneActive(Apply(db, a)) && OneActive(Apply(Apply(db, a), b))
    ensures IndexHolds(db, [a, b])
  {
    hide OneActive, Apply, Run, IndexHolds;
    IndexHoldsOne(db, a);
    IndexHoldsOne(Apply(db, a), b);
    RunOne(db, a);
    IndexHoldsConcat(db, [a], [b]);
    assert [a] + [b] == [a, b];
  }

  lemma {:induction false} SwitchKeepsInv(db: Db, codec: Codec, id: nat, c: nat)
    requires Inv(db) && Bound(db, codec, id) && Eligible(db, codec, id, ActiveRow(db, id), c)
    ensures Inv(Switched(db, id, c))
  {
    hide Switched, Bound, SameModel, Intact;
    SwitchedTables(db, codec, id, c);
    BoundAgent(db, codec, id);
    var db' := Switched(db, id, c);
    assert OneActive(db');
    assert Numbered(db');
    forall a | a in db'.agents && db'.agents[a].active != 0
      ensures db'.agents[a].active in db'.releases &&
              DeployableFor(a, db'.agents[a], db'.releases[db'.agents[a].active])
    {
      if a != id {
        assert db'.agents[a] == db.agents[a];
        assert db.releases[db.agents[a].active].agent == a;
      }
    }
  }

  /** An activation keeps the index after every statement and both invariants afterwards. */
  lemma {:induction false} ActivationIsSafe(db: Db, codec: Codec, id: nat, d: Decision)
    requires Inv(db) && Decides(db, codec, id, d) && d.Switch?
    ensures IndexHolds(db, SwitchSteps(db, id, d.candidate)) && Inv(Run(db, SwitchSteps(db, id, d.candidate)))
  {
    hide Run, IndexHolds, Inv, SwitchSteps, Bound, Accepts, Current;
    SwitchRuns(db, id, d.candidate);
    SwitchKeepsIndex(db, codec, id, d.candidate);
    SwitchKeepsInv(db, codec, id, d.candidate);
  }

  // ---------------------------------------------------------------- any order of transactions

  datatype Transaction =
    | Consolidation(workflow: nat, version: nat)
    | Retirement(release: nat)
    | Activation(agent: nat, decision: Decision)

  ghost predicate Possible(db: Db, codec: Codec, tx: Transaction) {
    tx.Activation? ==> Decides(db, codec, tx.agent, tx.decision)
  }

  /** The statements that a transaction commits; a failing one is rolled back. */
  ghost function StepsOf(db: Db, codec: Codec, tx: Transaction): seq<Statement> {
    match tx
    case Consolidation(workflow, version) =>
      var steps := ConsolidateSteps(db, workflow, version, codec.hash);
      if steps.Some? then steps.value else []
    case Retirement(release) => RetireSteps(db, release)
    case Activation(agent, d) => if d.Switch? then SwitchSteps(db, agent, d.candidate) else []
  }

  ghost function StateAfter(db: Db, codec: Codec, txs: seq<Transaction>, n: nat): Db
    requires n <= |txs|
  {
    if n == 0 then db
    else
      var before := StateAfter(db, codec, txs, n - 1);
      Run(before, StepsOf(before, codec, txs[n - 1]))
  }

  lemma {:induction false} NothingHolds(db: Db)
    requires OneActive(db)
    ensures IndexHolds(db, []) && Run(db, []) == db
  {
    RunNothing(db);
    var none: seq<Statement> := [];
    assert none[..0] == none;
  }

  /** What each transaction achieves: settled agents, a retired release, or a new active release. */
  lemma {:induction false} TransactionTakesEffect(db: Db, codec: Codec, tx: Transaction)
    requires Inv(db) && Possible(db, codec, tx)
    ensures var db' := Run(db, StepsOf(db, codec, tx));
            match tx
            case Consolidation(workflow, version) =>
              if ValidDefault(db, workflow, version, codec.hash)
              then forall a :: a in db.agents && db.agents[a].status != Deleted ==>
                     Settled(db, db', a, workflow, version, db.versions[version].definitionHash)
              else db' == db
            case Retirement(release) =>
              release in db.releases && db.releases[release].deployment == Active &&
              db.releases[release].status != Deleted
              ==> release in db'.releases && db'.releases[release] == db.releases[release].(deployment := Retired)
            case Activation(agent, d) =>
              if d.Switch? then agent in db'.agents && db'.agents[agent].active == d.candidate else db' == db
  {
    hide Run, IndexHolds, ConsolidateSteps, RetireSteps, SwitchSteps, Pointed, Numbered, Settled, Switched;
    NothingHolds(db);
    match tx
    case Consolidation(workflow, version) =>
      if ValidDefault(db, workflow, version, codec.hash) {
        ConsolidationSettlesAll(db, workflow, version, codec.hash);
      } else {
        NoDefaultNoSteps(db, workflow, version, codec.hash);
      }
    case Retirement(release) => RetirementIsSafe(db, release);
    case Activation(agent, d) =>
      if d.Switch? {
        SwitchRuns(db, agent, d.candidate);
        SwitchedTables(db, codec, agent, d.candidate);
      }
  }

  lemma NoDefaultNoSteps(db: Db, workflow: nat, version: nat, hash: string -> string)
    requires !ValidDefault(db, workflow, version, hash)
    ensures ConsolidateSteps(db, workflow, version, hash).None?
  {
  }

  lemma {:induction false} TransactionIsSafe(db: Db, codec: Codec, tx: Transaction)
    requires Inv(db) && Possible(db, codec, tx)
    ensures IndexHolds(db, StepsOf(db, codec, tx)) && Inv(Run(db, StepsOf(db, codec, tx)))
  {
    hide Run, IndexHolds, ConsolidateSteps, RetireSteps, SwitchSteps, Pointed, Numbered, Decides;
    match tx
    case Consolidation(workflow, version) =>
      NothingHolds(db);
      if ConsolidateSteps(db, workflow, version, codec.hash).Some? {
        StepsNeedDefault(db, workflow, version, codec.hash);
        ConsolidationSettlesAll(db, workflow, version, codec.hash);
      }
    case Retirement(release) => RetirementIsSafe(db, release);
    case Activation(agent, d) =>
      NothingHolds(db);
      if d.Switch? { ActivationIsSafe(db, codec, agent, d); }
  }

  lemma StepsNeedDefault(db: Db, workflow: nat, version: nat, hash: string -> string)
    requires ConsolidateSteps(db, workflow, version, hash).Some?
    ensures ValidDefault(db, workflow, version, hash)
  {
  }

  /**
   Whatever transactions run in whatever order: both invariants hold at every transaction boundary,
   and no agent has two active releases after any single statement.
   */
  lemma {:induction false} AnyOrderIsSafe(db: Db, codec: Codec, txs: seq<Transaction>, n: nat)
    requires Inv(db) && n <= |txs|
    requires forall i :: 0 <= i < |txs| ==> Possible(StateAfter(db, codec, txs, i), codec, txs[i])
    ensures Inv(StateAfter(db, codec, txs, n))
    ensures n < |txs| ==>
              IndexHolds(StateAfter(db, codec, txs, n), StepsOf(StateAfter(db, codec, txs, n), codec, txs[n]))
  {
    hide Inv, Run, IndexHolds, StepsOf, Possible;
    if n > 0 {
      AnyOrderIsSafe(db, codec, txs, n - 1);
      TransactionIsSafe(StateAfter(db, codec, txs, n - 1), codec, txs[n - 1]);
    }
    if n < |txs| {
      TransactionIsSafe(StateAfter(db, codec, txs, n), codec, txs[n]);
    }
  }

  // ---------------------------------------------------------------- repeating an activation

  /** Another queried release that would be acceptable next to c. */
  ghost predicate Alternative(db: Db, codec: Codec, id: nat, c: nat, r: nat)
    requires Bound(db, codec, id) && c in db.releases
  {
    r != c && Eligible(db, codec, id, Some(db.releases[c]), r)
  }

  /** After a switch the query loses c, and acceptance is judged against c. */
  lemma {:induction false} SwitchedQuery(db: Db, codec: Codec, id: nat, c: nat)
    requires Inv(db) && Bound(db, codec, id) && Eligible(db, codec, id, ActiveRow(db, id), c)
    ensures var db' := Switched(db, id, c);
            && Bound(db', codec, id) && c in db'.releases && ActiveRow(db', id) == Some(db'.releases[c])
            && (forall r :: Queried(db', id, r) <==> Queried(db, id, r) && r != c)
            && (forall r :: Eligible(db', codec, id, ActiveRow(db', id), r) <==> Alternative(db, codec, id, c, r))
            && Current(db', codec, id)
            && db'.versions == db.versions && db'.agents[id].version == db.agents[id].version
  {
    hide Switched, Inv;
    SwitchedTables(db, codec, id, c);
    var db' := Switched(db, id, c);
    forall r ensures Queried(db', id, r) <==> Queried(db, id, r) && r != c {
    }
    forall r | Queried(db', id, r)
      ensures Eligible(db', codec, id, ActiveRow(db', id), r) <==> Alternative(db, codec, id, c, r)
    {
      assert db'.releases[r] == db.releases[r];
    }
  }

  /** An alternative to c was itself eligible, so c being the newest, it is older than c. */
  lemma {:induction false} AlternativesAreOlder(db: Db, codec: Codec, id: nat, c: nat, r: nat)
    requires Inv(db) && Bound(db, codec, id) && Newest(db, codec, id, c) && Alternative(db, codec, id, c, r)
    ensures db.releases[r].number < db.releases[c].number
  {
    hide Intact;
    assert Eligible(db, codec, id, ActiveRow(db, id), r);
    assert !SameNumber(db.releases[r], db.releases[c]);
  }

  /**
   A repeated activation changes nothing if and only if no other candidate was eligible next to the
   one activated first; otherwise the repetition moves the agent back to an older release.
   */
  lemma {:induction false} RepeatIsQuietIff(db: Db, codec: Codec, id: nat, c: nat, again: Decision)
    requires Inv(db) && Decides(db, codec, id, Switch(c))
    requires Decides(Switched(db, id, c), codec, id, again)
    ensures again == Unchanged <==> forall r :: !Alternative(db, codec, id, c, r)
    ensures again != Unchanged ==>
              again.Switch? && again.candidate in db.releases &&
              db.releases[again.candidate].number < db.releases[c].number
  {
    hide Switched, Inv, Accepts, Current;
    SwitchedQuery(db, codec, id, c);
    var db' := Switched(db, id, c);
    if r :| Alternative(db, codec, id, c, r) {
      assert Eligible(db', codec, id, ActiveRow(db', id), r);
      assert Queried(db', id, r);
      assert Alternative(db, codec, id, c, again.candidate);
      AlternativesAreOlder(db, codec, id, c, again.candidate);
    }
  }

  // ---------------------------------------------------------------- an activation that steps back

  /** Texts that the decoders of the service accept for an agent without assistance. */
  datatype Texts = Texts(config: string, scope: string, flow: string)

  ghost predicate Unassisted(codec: Codec, x: Texts) {
    && codec.decode(x.config).Some? && codec.decode(x.config).value.aiOnly && !codec.decode(x.config).value.assisted
    && codec.assists(x.flow) == Some(false)
  }

  function SampleRelease(codec: Codec, x: Texts, number: nat, deployment: Deployment): Release {
    Release(1, 0, 1, number, 3, 4, codec.hash(x.flow), x.config, codec.hash(x.config), x.scope, codec.hash(x.scope),
            Approved, deployment, Live)
  }

  function SampleAgent(codec: Codec, draft: nat): Agent {
    Agent(1, 0, codec.defaultSource, 3, 4, 10, draft, Live, Approved)
  }

  /** One agent with an active release and two candidates of its current draft. */
  ghost function Sample(codec: Codec, x: Texts): Db
    requires Unassisted(codec, x)
  {
    Db(map[1 := SampleAgent(codec, codec.decode(x.config).value.draft)],
       map[10 := SampleRelease(codec, x, 1, Active), 11 := SampleRelease(codec, x, 2, Inactive),
           12 := SampleRelease(codec, x, 3, Inactive)],
       map[3 := Workflow(codec.aiOnlyCode, Live)],
       map[4 := Version(3, Live, true, x.flow, codec.hash(x.flow))], map[])
  }

  lemma SampleInv(codec: Codec, x: Texts)
    requires Unassisted(codec, x)
    ensures Inv(Sample(codec, x))
  {
  }

  lemma {:induction false} SampleRows(codec: Codec, x: Texts, r: nat)
    requires Unassisted(codec, x)
    ensures var db := Sample(codec, x);
            && Bound(db, codec, 1) && ActiveRow(db, 1) == Some(SampleRelease(codec, x, 1, Active))
            && (Queried(db, 1, r) <==> r == 11 || r == 12)
  {
  }

  lemma {:induction false} SampleAccepts(codec: Codec, x: Texts, number: nat, other: nat, deployment: Deployment)
    requires Unassisted(codec, x)
    ensures var db := Sample(codec, x);
            Accepts(codec, db.agents[1], db.versions[4], Some(SampleRelease(codec, x, other, deployment)),
                    SampleRelease(codec, x, number, Inactive))
  {
  }

  lemma {:induction false} SampleEligible(codec: Codec, x: Texts, r: nat, other: nat, deployment: Deployment)
    requires Unassisted(codec, x)
    ensures var db := Sample(codec, x);
            && Bound(db, codec, 1)
            && (Eligible(db, codec, 1, Some(SampleRelease(codec, x, other, deployment)), r) <==> r == 11 || r == 12)
  {
    hide Accepts, Bound, Queried;
    SampleRows(codec, x, r);
    SampleAccepts(codec, x, 2, other, deployment);
    SampleAccepts(codec, x, 3, other, deployment);
  }

  lemma {:induction false} SampleSwitches(codec: Codec, x: Texts)
    requires Unassisted(codec, x)
    ensures var db := Sample(codec, x);
            && Inv(db) && Bound(db, codec, 1) && Decides(db, codec, 1, Switch(12))
            && forall r :: Alternative(db, codec, 1, 12, r) <==> r == 11
  {
    hide Accepts, Bound, Queried, Eligible, ActiveRow, Inv;
    var db := Sample(codec, x);
    SampleInv(codec, x);
    SampleRows(codec, x, 12);
    forall r: nat
      ensures Eligible(db, codec, 1, ActiveRow(db, 1), r) <==> r == 11 || r == 12
      ensures Eligible(db, codec, 1, Some(db.releases[12]), r) <==> r == 11 || r == 12
    {
      SampleEligible(codec, x, r, 1, Active);
      SampleEligible(codec, x, r, 3, Inactive);
    }
    assert Queried(db, 1, 12) && Eligible(db, codec, 1, ActiveRow(db, 1), 12);
  }

  /**
   Whatever the fingerprint and the decoders are: the first activation goes to release 12, the second back to
   release 11, which is older.
   */
  lemma {:induction false} ActivationStepsBack(codec: Codec, x: Texts)
    requires Unassisted(codec, x)
    ensures var db := Sample(codec, x);
            && Inv(db) && Decides(db, codec, 1, Switch(12)) && Decides(Switched(db, 1, 12), codec, 1, Switch(11))
            && db.releases[11].number < db.releases[12].number
  {
    hide Switched, Inv, Alternative, Bound, Current, Queried, Accepts;
    var db := Sample(codec, x);
    SampleSwitches(codec, x);
    SwitchedQuery(db, codec, 1, 12);
    var after := Switched(db, 1, 12);
    BoundAgent(after, codec, 1);
    assert Alternative(db, codec, 1, 12, 11);
    assert Eligible(after, codec, 1, ActiveRow(after, 1), 11);
    assert Queried(after, 1, 11);
    assert codec.hash(db.versions[4].definition) == db.versions[4].definitionHash;
  }
}
