/**
 The resumable migration runner (internal/migration/migration.go): a strictly ascending list of
 versions, one record per version in the database, and on every process start one pass that skips
 recorded successes and stops at the first failing job. A failed record write is only logged.
 */
module MigrationRunner {

  datatype Record = Record(success: bool, retries: nat)

  type Table = map<int, Record>

  /** What happens if a version executes in a given start: did the job succeed, was its record written. */
  datatype Attempt = Attempt(ok: bool, saved: bool)

  type Oracle = int -> Attempt

  datatype Execution = Execution(version: int, attempt: Attempt)

  /** What a pass leaves behind: the table, the jobs it ran in order, and whether it got to the end. */
  datatype Pass = Pass(table: Table, executed: seq<Execution>, ok: bool)

  predicate Ascending(versions: seq<int>) {
    forall i, j :: 0 <= i < j < |versions| ==> versions[i] < versions[j]
  }

  predicate Done(table: Table, version: int) {
    version in table && table[version].success
  }

  function Written(loaded: Table, version: int, ok: bool): Record {
    Record(ok, (if version in loaded then loaded[version].retries else 0) + 1)
  }

  /** One version: skipped when its loaded record says success, otherwise executed and recorded. */
  function RunOne(loaded: Table, before: Pass, version: int, oracle: Oracle): Pass {
    if Done(loaded, version) then before
    else
      var attempt := oracle(version);
      Pass(if attempt.saved then before.table[version := Written(loaded, version, attempt.ok)] else before.table,
           before.executed + [Execution(version, attempt)],
           attempt.ok)
  }

  /** A pass over the first n versions; nothing runs after a failure. */
  function RunVersions(versions: seq<int>, n: nat, loaded: Table, oracle: Oracle): Pass
    requires n <= |versions|
  {
    if n == 0 then Pass(loaded, [], true)
    else
      var before := RunVersions(versions, n - 1, loaded, oracle);
      if before.ok then RunOne(loaded, before, versions[n - 1], oracle) else before
  }

  function Migrated(versions: seq<int>, table: Table, oracle: Oracle): Pass {
    RunVersions(versions, |versions|, table, oracle)
  }

  class Runner {
    var versions: seq<int>
    var functions: set<int>
    var loaded: Table

    ghost predicate Valid()
      reads this
    {
      Ascending(versions) && forall i :: 0 <= i < |versions| ==> versions[i] in functions
    }

    constructor ()
      ensures Valid() && versions == [] && functions == {}
    {
      versions, functions, loaded := [], {}, map[];
    }

    /** Registration panics, and changes nothing, unless the version is larger than the latest one. */
    method Register(version: int) returns (ok: bool)
      requires Valid()
      modifies this
      ensures Valid()
      ensures ok <==> forall i :: 0 <= i < |old(versions)| ==> old(versions)[i] < version
      ensures versions == if ok then old(versions) + [version] else old(versions)
      ensures functions == if ok then old(functions) + {version} else old(functions)
      ensures loaded == old(loaded)
    {
      if |versions| == 0 || version > versions[|versions| - 1] {
        versions := versions + [version];
        functions := functions + {version};
        ok := true;
      } else {
        ok := false;
      }
    }

    method Migrate(db: Database, oracle: Oracle) returns (ok: bool, ghost executed: seq<Execution>)
      requires Valid()
      modifies this`loaded, db
      ensures Valid()
      ensures Pass(db.table, executed, ok) == Migrated(versions, old(db.table), oracle)
    {
      hide RunOne;
      loaded := db.table;
      ok, executed := true, [];
      for i := 0 to |versions|
        invariant Valid() && loaded == old(db.table)
        invariant ok && Pass(db.table, executed, true) == RunVersions(versions, i, loaded, oracle)
      {
        ghost var one;
        ok, one := RunMigration(db, versions[i], oracle);
        executed := executed + one;
        if !ok {
          StopsAtFailure(versions, i + 1, loaded, oracle);
          return;
        }
      }
    }

    method RunMigration(db: Database, version: int, oracle: Oracle) returns (ok: bool, ghost executed: seq<Execution>)
      requires Valid() && version in functions
      modifies db
      ensures forall sofar :: Pass(db.table, sofar + executed, ok) ==
                              RunOne(loaded, Pass(old(db.table), sofar, true), version, oracle)
    {
      var found := version in loaded;
      if found && loaded[version].success {
        assert forall sofar: seq<Execution> :: sofar + [] == sofar;
        return true, [];
      }
      var attempt := oracle(version);
      var record := if found then loaded[version] else Record(false, 0);
      record := Record(attempt.ok, record.retries + 1);
      if attempt.saved {
        db.table := db.table[version := record];
      }
      return attempt.ok, [Execution(version, attempt)];
    }
  }

  class Database {
    var table: Table

    constructor (table: Table)
      ensures this.table == table
    {
      this.table := table;
    }
  }

  lemma {:induction false} StopsAtFailure(versions: seq<int>, n: nat, loaded: Table, oracle: Oracle)
    requires n <= |versions| && !RunVersions(versions, n, loaded, oracle).ok
    ensures Migrated(versions, loaded, oracle) == RunVersions(versions, n, loaded, oracle)
  {
    FailureStays(versions, n, |versions|, loaded, oracle);
  }

  lemma {:induction false} FailureStays(versions: seq<int>, n: nat, m: nat, loaded: Table, oracle: Oracle)
    requires n <= m <= |versions| && !RunVersions(versions, n, loaded, oracle).ok
    ensures RunVersions(versions, m, loaded, oracle) == RunVersions(versions, n, loaded, oracle)
  {
    if n < m { FailureStays(versions, n, m - 1, loaded, oracle); }
  }

  // ---------------------------------------------------------------- one pass

  /** The versions a pass still has to run, in order. */
  ghost function Pending(versions: seq<int>, n: nat, loaded: Table): seq<int>
    requires n <= |versions|
  {
    if n == 0 then []
    else Pending(versions, n - 1, loaded) + if Done(loaded, versions[n - 1]) then [] else [versions[n - 1]]
  }

  /**
   A pass runs the pending versions in order up to and including the first failing one, and succeeds
   exactly when it ran all of them successfully.
   */
  lemma {:induction false} PassRunsPendingPrefix(versions: seq<int>, n: nat, loaded: Table, oracle: Oracle)
    requires n <= |versions|
    ensures var pass, pending := RunVersions(versions, n, loaded, oracle), Pending(versions, n, loaded);
            && |pass.executed| <= |pending|
            && (forall i :: 0 <= i < |pass.executed| ==> pass.executed[i] == Execution(pending[i], oracle(pending[i])))
            && (forall i :: 0 <= i < |pass.executed| - 1 ==> pass.executed[i].attempt.ok)
            && (pass.ok ==> |pass.executed| == |pending| && forall i :: 0 <= i < |pending| ==> oracle(pending[i]).ok)
            && (!pass.ok ==> |pass.executed| > 0 && !pass.executed[|pass.executed| - 1].attempt.ok)
  {
    if n > 0 {
      PassRunsPendingPrefix(versions, n - 1, loaded, oracle);
    }
  }

  lemma {:induction false} RunsOnlyPending(versions: seq<int>, n: nat, loaded: Table, oracle: Oracle, v: int)
    requires n <= |versions| && (Done(loaded, v) || forall i :: 0 <= i < n ==> versions[i] != v)
    ensures Runs(RunVersions(versions, n, loaded, oracle).executed, v) == 0
  {
    hide Runs, Written;
    if n == 0 {
      NoneRun(v);
    } else {
      RunsOnlyPending(versions, n - 1, loaded, oracle, v);
      var before := RunVersions(versions, n - 1, loaded, oracle);
      if before.ok && !Done(loaded, versions[n - 1]) {
        RunsPush(before.executed, Execution(versions[n - 1], oracle(versions[n - 1])), v);
      }
    }
  }

  lemma NoneRun(v: int)
    ensures Runs([], v) == 0
  {
  }

  /** A pass writes the record of a version exactly when it executes it and the write is not lost. */
  lemma {:induction false} PassWrites(versions: seq<int>, n: nat, loaded: Table, oracle: Oracle, v: int)
    requires n <= |versions| && Ascending(versions)
    ensures var pass := RunVersions(versions, n, loaded, oracle);
            && Runs(pass.executed, v) <= 1
            && (if Runs(pass.executed, v) > 0 && oracle(v).saved
                then v in pass.table && pass.table[v] == Written(loaded, v, oracle(v).ok)
                else (v in pass.table <==> v in loaded) && (v in loaded ==> pass.table[v] == loaded[v]))
  {
    hide Runs, Written;
    if n == 0 {
      NoneRun(v);
    } else {
      PassWrites(versions, n - 1, loaded, oracle, v);
      var before := RunVersions(versions, n - 1, loaded, oracle);
      if before.ok && !Done(loaded, versions[n - 1]) {
        RunsPush(before.executed, Execution(versions[n - 1], oracle(versions[n - 1])), v);
        if versions[n - 1] == v {
          RunsOnlyPending(versions, n - 1, loaded, oracle, v);
        }
      }
    }
  }

  /** How often v was executed. */
  ghost function Runs(executed: seq<Execution>, v: int): nat {
    if |executed| == 0 then 0
    else Runs(executed[..|executed| - 1], v) + if executed[|executed| - 1].version == v then 1 else 0
  }

  lemma {:induction false} RunsPush(executed: seq<Execution>, e: Execution, v: int)
    ensures Runs(executed + [e], v) == Runs(executed, v) + if e.version == v then 1 else 0
  {
    assert (executed + [e])[..|executed|] == executed;
  }

  lemma {:induction false} RunsWhenExecuted(executed: seq<Execution>, i: nat)
    requires i < |executed|
    ensures Runs(executed, executed[i].version) > 0
  {
    if i < |executed| - 1 { RunsWhenExecuted(executed[..|executed| - 1], i); }
  }

  // ---------------------------------------------------------------- many starts

  /** One process start: the versions that binary registers, and what its jobs would do. */
  datatype Start = Start(versions: seq<int>, oracle: Oracle)

  ghost predicate Registered(starts: seq<Start>) {
    forall i :: 0 <= i < |starts| ==> Ascending(starts[i].versions)
  }

  /** The record table before start n, from an empty database. */
  ghost function TableAt(starts: seq<Start>, n: nat): Table
    requires n <= |starts|
  {
    if n == 0 then map[] else Migrated(starts[n - 1].versions, TableAt(starts, n - 1), starts[n - 1].oracle).table
  }

  ghost function ExecutedIn(starts: seq<Start>, n: nat): seq<Execution>
    requires n < |starts|
  {
    Migrated(starts[n].versions, TableAt(starts, n), starts[n].oracle).executed
  }

  /**
   Whenever a version executes, every smaller registered version has a success record from earlier
   starts or has just succeeded in this pass.
   */
  lemma {:induction false} SmallerVersionsFirst(starts: seq<Start>, n: nat, j: nat, u: int)
    requires Registered(starts) && n < |starts| && j < |ExecutedIn(starts, n)|
    requires u in starts[n].versions && u < ExecutedIn(starts, n)[j].version
    ensures Done(TableAt(starts, n), u) ||
            exists h :: 0 <= h < j && ExecutedIn(starts, n)[h].version == u && ExecutedIn(starts, n)[h].attempt.ok
  {
    var versions, loaded := starts[n].versions, TableAt(starts, n);
    PassRunsPendingPrefix(versions, |versions|, loaded, starts[n].oracle);
    var pending := Pending(versions, |versions|, loaded);
    if !Done(loaded, u) {
      PendingAscends(versions, |versions|, loaded);
      var h := PendingHas(versions, |versions|, loaded, u);
      assert h < j;
    }
  }

  lemma {:induction false} PendingHas(versions: seq<int>, n: nat, loaded: Table, u: int) returns (h: nat)
    requires n <= |versions| && u in versions[..n] && !Done(loaded, u)
    ensures h < |Pending(versions, n, loaded)| && Pending(versions, n, loaded)[h] == u
  {
    if versions[n - 1] == u {
      h := |Pending(versions, n - 1, loaded)|;
    } else {
      assert u in versions[..n - 1];
      h := PendingHas(versions, n - 1, loaded, u);
    }
  }

  lemma {:induction false} PendingAscends(versions: seq<int>, n: nat, loaded: Table)
    requires n <= |versions| && Ascending(versions)
    ensures Ascending(Pending(versions, n, loaded))
    ensures forall i :: 0 <= i < |Pending(versions, n, loaded)| ==> Pending(versions, n, loaded)[i] in versions[..n]
  {
    if n > 0 {
      PendingAscends(versions, n - 1, loaded);
      assert versions[..n] == versions[..n - 1] + [versions[n - 1]];
      var before := Pending(versions, n - 1, loaded);
      forall i | 0 <= i < |before| ensures before[i] < versions[n - 1] {
        assert before[i] in versions[..n - 1];
      }
    }
  }

  /** A success record is never lost, and its version never executes again. */
  lemma {:induction false} DoneStaysDone(starts: seq<Start>, i: nat, n: nat, v: int)
    requires Registered(starts) && i <= n <= |starts| && Done(TableAt(starts, i), v)
    ensures Done(TableAt(starts, n), v)
    ensures forall m :: i <= m < n ==> Runs(ExecutedIn(starts, m), v) == 0
  {
    if i < n {
      DoneStaysDone(starts, i, n - 1, v);
      var start, table := starts[n - 1], TableAt(starts, n - 1);
      RunsOnlyPending(start.versions, |start.versions|, table, start.oracle, v);
      PassWrites(start.versions, |start.versions|, table, start.oracle, v);
    }
  }

  /** Executions of v over the first n starts, and those of them whose record was written. */
  ghost function TotalRuns(starts: seq<Start>, n: nat, v: int): nat
    requires n <= |starts|
  {
    if n == 0 then 0 else TotalRuns(starts, n - 1, v) + Runs(ExecutedIn(starts, n - 1), v)
  }

  ghost function SavedRuns(starts: seq<Start>, n: nat, v: int): nat
    requires n <= |starts|
  {
    if n == 0 then 0
    else SavedRuns(starts, n - 1, v) + if starts[n - 1].oracle(v).saved then Runs(ExecutedIn(starts, n - 1), v) else 0
  }

  ghost function Retries(table: Table, v: int): nat {
    if v in table then table[v].retries else 0
  }

  ghost predicate NothingLost(starts: seq<Start>) {
    forall i :: 0 <= i < |starts| ==> Saves(starts[i].oracle)
  }

  ghost predicate Saves(oracle: Oracle) {
    forall v :: oracle(v).saved
  }

  /** The retry count is the number of executions whose record was written: all of them when none is lost. */
  lemma {:induction false} RetriesCountExecutions(starts: seq<Start>, n: nat, v: int)
    requires Registered(starts) && n <= |starts|
    ensures Retries(TableAt(starts, n), v) == SavedRuns(starts, n, v) <= TotalRuns(starts, n, v)
    ensures NothingLost(starts) ==> Retries(TableAt(starts, n), v) == TotalRuns(starts, n, v)
  {
    if n > 0 {
      RetriesCountExecutions(starts, n - 1, v);
      var start := starts[n - 1];
      PassWrites(start.versions, |start.versions|, TableAt(starts, n - 1), start.oracle, v);
    }
  }

  // ---------------------------------------------------------------- a fixed list, nothing lost

  ghost predicate SameList(starts: seq<Start>, versions: seq<int>) {
    forall i :: 0 <= i < |starts| ==> starts[i].versions == versions
  }

  /** The first p versions of the list are recorded as successes, and no other. */
  ghost predicate DonePrefix(table: Table, versions: seq<int>, p: nat)
    requires p <= |versions|
  {
    forall i :: 0 <= i < |versions| ==> (Done(table, versions[i]) <==> i < p)
  }

  lemma {:induction false} PassExtendsPrefix(
    versions: seq<int>, n: nat, loaded: Table, oracle: Oracle, p: nat) returns (q: nat)
    requires Ascending(versions) && n <= |versions| && p <= |versions| && DonePrefix(loaded, versions, p)
    requires Saves(oracle)
    ensures p <= q <= |versions| && DonePrefix(RunVersions(versions, n, loaded, oracle).table, versions, q)
    ensures RunVersions(versions, n, loaded, oracle).ok ==> n <= q && (q == p || q == n)
  {
    if n == 0 {
      q := p;
    } else {
      var before := RunVersions(versions, n - 1, loaded, oracle);
      q := PassExtendsPrefix(versions, n - 1, loaded, oracle, p);
      if before.ok && !Done(loaded, versions[n - 1]) {
        assert q == n - 1;
        if oracle(versions[n - 1]).ok { q := n; }
      }
    }
  }

  /** With one list and no lost writes, the recorded successes are at all times a prefix of the list. */
  lemma {:induction false} SuccessesArePrefix(starts: seq<Start>, n: nat, versions: seq<int>) returns (p: nat)
    requires n <= |starts| && Ascending(versions) && SameList(starts, versions) && NothingLost(starts)
    ensures p <= |versions| && DonePrefix(TableAt(starts, n), versions, p)
  {
    if n == 0 {
      p := 0;
    } else {
      p := SuccessesArePrefix(starts, n - 1, versions);
      p := PassExtendsPrefix(versions, |versions|, TableAt(starts, n - 1), starts[n - 1].oracle, p);
    }
  }

  // ---------------------------------------------------------------- lost writes

  ghost predicate IsPrefix(table: Table, versions: seq<int>) {
    exists p: nat :: p <= |versions| && DonePrefix(table, versions, p)
  }

  ghost predicate Recorded(e: Execution) {
    e.attempt.ok && e.attempt.saved
  }

  /** A successful execution whose write was lost comes before one whose success was recorded. */
  ghost predicate LostThenRecorded(executed: seq<Execution>) {
    exists i, j :: 0 <= i < j < |executed| && executed[i].attempt.ok && !executed[i].attempt.saved &&
      Recorded(executed[j])
  }

  // The executions of a pass that starts from p recorded successes are those of the versions that follow.
  ghost predicate RunsOn(versions: seq<int>, p: nat, n: nat, oracle: Oracle, pass: Pass)
    requires n <= |versions| && p <= |versions|
  {
    && |pass.executed| <= (if p <= n then n - p else 0) && (pass.ok ==> |pass.executed| == if p <= n then n - p else 0)
    && (forall i ::
          0 <= i < |pass.executed| ==> pass.executed[i] == Execution(versions[p + i], oracle(versions[p + i])))
    && (forall i :: 0 <= i < |pass.executed| && (pass.ok || i < |pass.executed| - 1) ==> pass.executed[i].attempt.ok)
  }

  ghost predicate DoneAfter(versions: seq<int>, p: nat, pass: Pass, j: nat)
    requires p <= |versions| && j < |versions|
  {
    Done(pass.table, versions[j]) <==> j < p || (j - p < |pass.executed| && Recorded(pass.executed[j - p]))
  }

  lemma {:induction false} PassRunsOn(versions: seq<int>, n: nat, loaded: Table, oracle: Oracle, p: nat)
    requires Ascending(versions) && n <= |versions| && p <= |versions| && DonePrefix(loaded, versions, p)
    ensures var pass := RunVersions(versions, n, loaded, oracle);
            RunsOn(versions, p, n, oracle, pass) && forall j :: 0 <= j < |versions| ==> DoneAfter(versions, p, pass, j)
  {
    if n > 0 {
      PassRunsOn(versions, n - 1, loaded, oracle, p);
      var before, pass := RunVersions(versions, n - 1, loaded, oracle), RunVersions(versions, n, loaded, oracle);
      assert Done(loaded, versions[n - 1]) <==> n - 1 < p;
      if before.ok && n - 1 >= p {
        forall j | 0 <= j < |versions| ensures DoneAfter(versions, p, pass, j) {
          assert DoneAfter(versions, p, before, j);
          assert j != n - 1 ==> versions[j] != versions[n - 1];
        }
      }
    }
  }

  /** The number of recorded executions before the first one that is not. */
  ghost function Lead(executed: seq<Execution>, i: nat): (n: nat)
    requires i <= |executed|
    ensures i <= n <= |executed| && (forall j :: i <= j < n ==> Recorded(executed[j])) &&
            (n < |executed| ==> !Recorded(executed[n]))
    decreases |executed| - i
  {
    if i < |executed| && Recorded(executed[i]) then Lead(executed, i + 1) else i
  }

  /**
   From a prefix, the successes after a pass are a prefix again exactly when no lost write came before a recorded
   success.
   */
  lemma {:induction false} PassKeepsPrefixIff(versions: seq<int>, loaded: Table, oracle: Oracle)
    requires Ascending(versions) && IsPrefix(loaded, versions)
    ensures var pass := Migrated(versions, loaded, oracle);
            IsPrefix(pass.table, versions) <==> !LostThenRecorded(pass.executed)
  {
    hide RunVersions, Done;
    var p: nat :| p <= |versions| && DonePrefix(loaded, versions, p);
    PassRunsOn(versions, |versions|, loaded, oracle, p);
    var pass := Migrated(versions, loaded, oracle);
    if LostThenRecorded(pass.executed) {
      var i, j :| 0 <= i < j < |pass.executed| && pass.executed[i].attempt.ok &&
                  !pass.executed[i].attempt.saved && Recorded(pass.executed[j]);
      assert DoneAfter(versions, p, pass, p + i) && DoneAfter(versions, p, pass, p + j);
      forall q: nat | q <= |versions| ensures !DonePrefix(pass.table, versions, q) {
        assert !Done(pass.table, versions[p + i]) && Done(pass.table, versions[p + j]);
      }
    } else {
      var q := p + Lead(pass.executed, 0);
      forall j | 0 <= j < |versions| ensures Done(pass.table, versions[j]) <==> j < q {
        assert DoneAfter(versions, p, pass, j);
        if q < j < p + |pass.executed| { assert pass.executed[q - p].attempt.ok; }
      }
      assert DonePrefix(pass.table, versions, q);
    }
  }

  ghost predicate AlwaysPrefix(starts: seq<Start>, n: nat, versions: seq<int>)
    requires n <= |starts|
  {
    forall m :: 0 <= m <= n ==> IsPrefix(TableAt(starts, m), versions)
  }

  ghost predicate NeverPastLost(starts: seq<Start>, n: nat)
    requires n <= |starts|
  {
    forall m :: 0 <= m < n ==> !LostThenRecorded(ExecutedIn(starts, m))
  }

  /**
   Over all starts with one list: the successes are always a prefix exactly when no start recorded past a lost success.
   */
  lemma {:induction false} PrefixAlwaysIff(starts: seq<Start>, n: nat, versions: seq<int>)
    requires n <= |starts| && Ascending(versions) && SameList(starts, versions)
    ensures AlwaysPrefix(starts, n, versions) <==> NeverPastLost(starts, n)
  {
    hide IsPrefix, LostThenRecorded, RunVersions;
    if n == 0 {
      StartsAsPrefix(starts, versions);
    } else {
      PrefixAlwaysIff(starts, n - 1, versions);
      assert AlwaysPrefix(starts, n, versions) <==>
               AlwaysPrefix(starts, n - 1, versions) && IsPrefix(TableAt(starts, n), versions);
      assert NeverPastLost(starts, n) <==> NeverPastLost(starts, n - 1) && !LostThenRecorded(ExecutedIn(starts, n - 1));
      if AlwaysPrefix(starts, n - 1, versions) {
        assert IsPrefix(TableAt(starts, n - 1), versions);
        PassKeepsPrefixIff(versions, TableAt(starts, n - 1), starts[n - 1].oracle);
      }
    }
  }

  lemma StartsAsPrefix(starts: seq<Start>, versions: seq<int>)
    ensures IsPrefix(TableAt(starts, 0), versions)
  {
    assert DonePrefix(map[], versions, 0);
  }

  /**
   A lost record write breaks the prefix: version 2 is recorded, version 1, which also succeeded, is not and runs again.
   */
  lemma {:induction false} LostWriteLeavesGap()
    ensures var start := Start([1, 2], v => Attempt(true, v == 2));
            && !Done(TableAt([start, start], 1), 1) && Done(TableAt([start, start], 1), 2)
            && Runs(ExecutedIn([start, start], 0), 1) == 1 && Runs(ExecutedIn([start, start], 1), 1) == 1
  {
    var oracle: Oracle := v => Attempt(true, v == 2);
    var start := Start([1, 2], oracle);
    var versions, starts := [1, 2], [start, start];
    var one := Execution(1, Attempt(true, false));
    var two := Execution(2, Attempt(true, true));
    var recorded: Table := map[2 := Record(true, 1)];
    assert RunVersions(versions, 0, map[], oracle) == Pass(map[], [], true);
    assert RunVersions(versions, 1, map[], oracle) == Pass(map[], [one], true);
    assert RunVersions(versions, 2, map[], oracle) == Pass(recorded, [one, two], true);
    assert TableAt(starts, 0) == map[] && TableAt(starts, 1) == recorded;
    assert RunVersions(versions, 0, recorded, oracle) == Pass(recorded, [], true);
    assert RunVersions(versions, 1, recorded, oracle) == Pass(recorded, [one], true);
    assert RunVersions(versions, 2, recorded, oracle) == Pass(recorded, [one], true);
    RunsPush([], one, 1);
    RunsPush([one], two, 1);
    assert [] + [one] == [one] && [one] + [two] == [one, two];
  }
}
