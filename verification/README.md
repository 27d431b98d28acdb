# Verified model of the helpdesk platform's stateful core

A Dafny 4.11 model of the parts of the remote helpdesk platform that carry state over time: the rate
limiter in front of every endpoint, the deployment planner and its package inspector, the migration
runner, the AI release life cycle, the data repairs that merge or de-duplicate tables, the tag tree and
the identifier words of the enum generator. `dafny verify dfyconfig.toml` checks everything.

## Reading guide

| part | modules |
|---|---|
| rate limiter | `SlidingWindow` (the Redis script), `SlidingWindowRuns` (refinement of a log that never forgets), `SlidingWindowReplies`, `SlidingWindowBounds`, `SlidingWindowNonces`, `MemoryLimiter`, `MemoryLimiterReplies`, `MemoryLimiterRuns`, `MemoryLimiterBounds`, `MemoryLimiterMixed`, `RateLimitKeys`, `RateLimit` |
| deployment planner | `PlanChecks`, `PlanGrammar`, `Inventory`, `InventoryMeaning`, `Isolation`, `EnvText`, `EnvReading`, `Environment`, `Provenance`, `ProvenanceMeaning`, `AttestationSize`, `Package`, `PackageAcceptance`, `RenderedContents`, `JsonSize`, `JsonText`, `PackageSize`, `LongRoots` |
| migration runner | `MigrationRunner` |
| AI releases | `Releases` (statements and transactions), `ReleaseRuns`, `ReleaseActivation`, `ReleaseDecisions` |
| data repair | `KnowledgeRecovery`, `KnowledgeResults`, `KnowledgeLinks`, `KnowledgeMigrations`, `KnowledgeRows`, `CustomerMerge`, `CustomerMergeResults`, `FaultStats`, `Notifications`, `NotificationResults`, `NotificationRows`, `Transcripts` |
| builders and tools | `TagForest`, `TagForestResults`, `TagForestWalk`, `Identifiers`, `IdentifierResults` |
| shared | `Text`, `Tables`, `Wrappers` |

Code that updates state is a class or a method with loops, proved equal to a function; the properties are
lemmas about those functions. The modules named Replies, Rows, Meaning, Grammar, Decisions, Reading and
Acceptance state what an operation answers or leaves behind without its own functions: from the inputs, the
tables before, or the log of a run. Runs are sequences of requests, starts or transactions of any length.

### Where the code does less than one might expect

- Two script calls with the same random part in one millisecond share a sorted-set member, and repeated
  random parts admit without bound (`RepeatedNonceAdmitsAll`). The members never exceed the limit
  (`MembersNeverOverLimit`); the admissions are safe exactly while no member is repeated
  (`BoundIffMembersDistinct`).
- The in-memory sweep measures every entry with the caller's window. It goes unnoticed exactly while it
  removes no entry that is still in its own window (`SweepUnnoticedIffSafe`). All limiters built at lines
  192-274 of the middleware use one minute, so for them it always goes unnoticed; the one-second default
  of `RateLimitMiddleware`, which no route of the repository installs, would break that
  (`MixedWindowsShow`).
- Retry-After rounds down, so it can be too early: `RetryAfterTooEarly` is a run where it is,
  `ScriptRetryAfterSuffices` gives the exact condition for every refusal of the script.
- Tags that share an id share the node of the last one: it appears several times or even below itself
  (`RepeatedIdsCanLoop`), and the others never (`ReplacedNeverVisited`). `EveryNodeOnceIff` says exactly when
  the tree holds every tag once.
- A lost migration record can make a later success visible before an earlier one (`LostWriteLeavesGap`);
  `PrefixAlwaysIff` says exactly when.
- The length of a deployment root is bounded only by the 1 MiB of the inventory file, while the inspector
  reads 128 KiB (`RenderedPackageIsAccepted` gives the exact condition, `WrittenThenRefused` the failing
  family from inventory to refusal, `SmallPackagesAreAccepted` lengths that are always accepted).
- A repeated activation of the tenant default can step back to an older release (`RepeatIsQuietIff` says
  exactly when, `ActivationStepsBack` shows one).
- A customer whose identity keys have different owners can lose its conversations
  (`TwoOwnersSplitACustomer`); `RowsEndAtOwnersIff` says exactly when that cannot happen.

### Assumptions of the model

- Sliding window: request times do not decrease, are whole milliseconds, and the Redis server clock gains at
  most one second on them between two requests; limits are at least 1 where a reset time is claimed, and
  limits and windows are functions of the key (`SharedKeySharesWindow` shows the latter for the built
  keys). For the converse results windows are at least 1 ms. A sorted-set member is the triple of its three
  text parts; an emptied sorted set is kept as an empty one, which no script call can tell from an absent one.
- In-memory limiter: one call at a time, as its mutex enforces; request times do not decrease; limits are Go
  ints.
- Planner: parsed JSON documents, resolved paths, secrets and the sizes of the files read by the loader are
  inputs; the sizes of the files written are computed from their contents; a resolved path is never empty;
  secrets are texts without quotes, separators or substitution characters, as hexadecimal tokens are.
- Releases: transactions run one after another, in any order; new rows get the id after the largest one;
  hashing and decoding of snapshots are functions given as parameters.
- Repairs: a query returns its rows as a sequence ordered as the query says; where the query leaves the
  order open the result is stated for every order. In migration 92 the literal status 2 is read as deleted.
- Customer merge: where rows end is stated for positive customer ids; the code leaves the rows of others alone.
- Files of the planner: a file is its size and the document it spells; a file can spell a document only if
  it has at least the bytes of the document's shortest text (`JsonSize`).
- Integers are unbounded; counters and millisecond stamps are assumed not to overflow 64 bits.

## Model

| member | source | states |
|---|---|---|
| `SlidingWindow.RedisStore.Run` | internal/middleware/rate_limit.go:28-65 | the whole script: its reply is `ScriptReply` and its new store `ScriptStep` of the store before |
| `SlidingWindow.RedisStore.Count` | internal/middleware/rate_limit.go:36-55 | the counting loop prunes keys one by one, stops at the first full key and decides as `Decide` does on the live members; it has pruned exactly the keys it scanned |
| `SlidingWindow.RedisStore.PruneOne` | internal/middleware/rate_limit.go:38-40 | pruning one key leaves exactly the members of that key inside the window, whatever was pruned before |
| `SlidingWindow.RedisStore.Add` | internal/middleware/rate_limit.go:57-60 | the adding loop gives every key of the request one member and a new expiry |
| `SlidingWindow.DecideMeaning` | internal/middleware/rate_limit.go:36-55 | a request is admitted if and only if every key is below its limit; an admission reports the least remainder over the keys, never negative; a refusal reports the first full key |
| `SlidingWindow.PruneKeysScores` | internal/middleware/rate_limit.go:38 | pruning the first n keys changes exactly those keys, to their members after the cut, and no expiry |
| `SlidingWindow.TimeToLiveLasts` | internal/middleware/rate_limit.go:59 | a key lives for the fewest whole seconds that last the window, and one second more |
| `SlidingWindowRuns.ScriptRefinesLog` | internal/middleware/rate_limit.go:28-65 | over every legal run the script, which prunes and lets keys expire, replies exactly as a log that never forgets |
| `SlidingWindowRuns.RunSimulates` | internal/middleware/rate_limit.go:28-65 | the simulation invariant between store and unbounded log holds after every number of requests |
| `SlidingWindowRuns.StepSimulates` | internal/middleware/rate_limit.go:28-65 | one request keeps the simulation and gives the same reply on both sides |
| `SlidingWindowRuns.ExpiredIsStale` | internal/middleware/rate_limit.go:59 | a key that Redis has expired held only admissions outside its window |
| `SlidingWindowRuns.StoreShowsLog` | internal/middleware/rate_limit.go:38-40 | after pruning, the store shows exactly the log's admissions in the window |
| `SlidingWindowRuns.AddKeysScores` | internal/middleware/rate_limit.go:57-60 | which members and expiries every key has after the adding loop |
| `SlidingWindowRuns.FreshNoncesKeepMembersDistinct` | internal/middleware/rate_limit.go:58 | with distinct random parts no two admissions share a sorted-set member |
| `SlidingWindowRuns.MembersBoundedByCount` | internal/middleware/rate_limit.go:39 | the members in a window never outnumber the admissions, and equal them when members are distinct |
| `SlidingWindowRuns.LogAdmitsBelowLimits` | internal/middleware/rate_limit.go:36-47 | the log admits if and only if every key has fewer past admissions in (now - window, now] than its limit |
| `SlidingWindowRuns.ScriptAdmitsIff` | internal/middleware/rate_limit.go:28-65 | over every legal run with fresh random parts the script admits if and only if every key has fewer admissions in (now - window, now] than its limit |
| `SlidingWindowRuns.LogFollowsScript` | internal/middleware/rate_limit.go:57-60 | the log gains one admission per key exactly when the script admits |
| `SlidingWindowReplies.EveryReply` | internal/middleware/rate_limit.go:28-65 | every reply in every legal run with fresh random parts, from the logged admissions alone: admitted exactly when every key has room; an admission reports the first key with the least left of its limit, with that limit and its oldest admission plus the window, or now plus the window if it has none; a refusal reports the first full key likewise; without keys or limits below 2^31 the defaults of the script |
| `SlidingWindowReplies.AdmissionNamesTightest` | internal/middleware/rate_limit.go:41-54 | with a limit below 2^31, which key an admission reports |
| `SlidingWindowBounds.NeverOverLimit` | internal/middleware/rate_limit.go:28-65 | over every run with fresh random parts, no interval (t - window, t] holds more than the limit of a key |
| `SlidingWindowBounds.DistinctNeverOverLimit` | internal/middleware/rate_limit.go:28-65 | the same bound from distinct members alone, without a hypothesis on the random parts |
| `SlidingWindowNonces.MembersNeverOverLimit` | internal/middleware/rate_limit.go:28-65 | over every run, whatever the random parts, no (t - window, t] holds more distinct members of a key than its limit |
| `SlidingWindowNonces.RepeatOverflows` | internal/middleware/rate_limit.go:57-60 | if a request is the first to repeat a live member, some continuation of its millisecond with fresh members exceeds the limit of that key |
| `SlidingWindowNonces.BoundIffMembersDistinct` | internal/middleware/rate_limit.go:28-65 | no fresh continuation of any prefix of a run ever exceeds a limit if and only if the run repeats no member |
| `SlidingWindowBounds.RefusalResetsExactly` | internal/middleware/rate_limit.go:40-47 | in every run a refusal adds nothing to the log and reports the first instant at which the refusing key stops being full |
| `SlidingWindowBounds.RetryAfterSuffices` | internal/middleware/rate_limit.go:329-333 | for a key that frees at a given instant, waiting for the Retry-After value is enough if and only if that instant is at most one second away or a whole number of seconds away |
| `SlidingWindowBounds.ScriptRetryAfterSuffices` | internal/middleware/rate_limit.go:329-333 | the same about a refusal of the script in any legal run: after the Retry-After value its key has room again if and only if the reset it reported is at most one second away or a whole number of seconds away |
| `SlidingWindowBounds.RetryAfterTooEarly` | internal/middleware/rate_limit.go:329-333 | a legal run of two requests where the script refuses with a reset in 1500 ms, Retry-After says 1 second, and the key is still full then |
| `SlidingWindowBounds.RepeatedNonceAdmitsAll` | internal/middleware/rate_limit.go:58 | counterexample family: when the random part repeats within a millisecond, any number of requests is admitted |
| `RateLimitKeys.KeysAreDistinct` | internal/middleware/rate_limit.go:353-372 | the keys built for one request are pairwise distinct whatever namespace and values contain |
| `RateLimitKeys.KeysStandForScopes` | internal/middleware/rate_limit.go:353-372 | every built key stands for one of the four scopes and has a positive limit |
| `RateLimitKeys.KeysAreBuiltIff` | internal/middleware/rate_limit.go:353-371 | a key is built exactly for each scope with a positive limit and a value that is not blank, the address only for callers without an account |
| `RateLimitKeys.KeyTextIs` | internal/middleware/rate_limit.go:360 | the text of a key |
| `RateLimitKeys.KeyTextInjective` | internal/middleware/rate_limit.go:360 | key text determines namespace, scope, window and value when namespaces hold no colon |
| `RateLimitKeys.SharedKeySharesWindow` | internal/middleware/rate_limit.go:353-372 | two requests that share a key share namespace and window, so the window is a function of the key |
| `MemoryLimiter.Limiter.Check` | internal/middleware/rate_limit.go:119-158 | the locked check: reply and new entries as functions of the old entries |
| `MemoryLimiter.Limiter.ChargeAll` | internal/middleware/rate_limit.go:140-150 | the charging loop adds one admission to every named key and reports the best remainder |
| `MemoryLimiter.Limiter.SweepOld` | internal/middleware/rate_limit.go:151-157 | the sweep deletes exactly the entries whose window, measured by the caller's window length, is over |
| `MemoryLimiter.FirstFull` | internal/middleware/rate_limit.go:128-139 | the index returned is the first full key, or the number of keys if none is full |
| `MemoryLimiter.ChargedEntries` | internal/middleware/rate_limit.go:140-143 | exactly the named keys gain one admission, in their own window; all other entries stay |
| `MemoryLimiter.BestIsLeast` | internal/middleware/rate_limit.go:140-150 | an admission reports the least remainder over its keys with that key's reset, never negative |
| `MemoryLimiter.RefusalResetsExactly` | internal/middleware/rate_limit.go:128-137 | a refusal changes nothing and reports the first instant at which the refusing key stops refusing |
| `MemoryLimiterReplies.EveryReply` | internal/middleware/rate_limit.go:119-162 | every reply, from the stored entries alone: admitted exactly when every key has room in the window it falls into; an admission reports the first key with the least left, with its limit and the end of its window; a refusal the first key without room; with unbounded limits the defaults |
| `MemoryLimiterReplies.AdmissionNamesTightest` | internal/middleware/rate_limit.go:139-149 | with a limit below the largest Go int, which key an admission reports |
| `MemoryLimiterReplies.EveryState` | internal/middleware/rate_limit.go:139-157 | every stored state: a refusal stores nothing, an admission gives each of its keys one more in its window, and above 10000 entries those whose start is a whole window old are dropped |
| `MemoryLimiterRuns.SafeSweepsAreInvisible` | internal/middleware/rate_limit.go:119-158 | while every sweep is safe, replies equal those of a limiter that never deletes |
| `MemoryLimiterRuns.OneWindowSweepsInvisibly` | internal/middleware/rate_limit.go:151-157 | with one window length for all calls the sweep is never visible |
| `MemoryLimiterRuns.UnsafeSweepShows` | internal/middleware/rate_limit.go:151-157 | after an unsafe sweep some legal call, with the limits and windows its keys have, is answered differently than without the sweep |
| `MemoryLimiterRuns.FirstUnsafeSweepShows` | internal/middleware/rate_limit.go:119-158 | at the first unsafe sweep of a legal run some legal next call tells the limiter from one that never deletes |
| `MemoryLimiterRuns.SweepUnnoticedIffSafe` | internal/middleware/rate_limit.go:119-158 | over every legal run no legal call can ever tell the sweeping limiter from one that never deletes if and only if every sweep was safe |
| `MemoryLimiterBounds.AnyIntervalBounded` | internal/middleware/rate_limit.go:119-149 | over every run at most 2 * limit - 1 admissions of a key fall into any half-open interval of window length |
| `MemoryLimiterBounds.EachWindowBounded` | internal/middleware/rate_limit.go:119-149 | over every run the stored windows partition the admissions of a key and each holds at most its limit |
| `MemoryLimiterBounds.EachWindowBoundedSweeping` | internal/middleware/rate_limit.go:119-158 | the same for the limiter as it runs, while its sweeps are safe |
| `MemoryLimiterBounds.BoundIsAttained` | internal/middleware/rate_limit.go:119-149 | for every limit a legal run puts 2 * limit - 1 admissions into one interval, so the bound is the best possible |
| `MemoryLimiterBounds.RunKeepsInv` | internal/middleware/rate_limit.go:119-149 | the invariant behind the bounds: a window is stored only with an admission at its start |
| `MemoryLimiterBounds.OneWindowIntervalBounded` | internal/middleware/rate_limit.go:119-158 | the 2 * limit - 1 bound for the limiter as it runs, sweeping included, on one window length |
| `MemoryLimiterBounds.SweepingAdmitsAlike` | internal/middleware/rate_limit.go:151-157 | with safe sweeps the admission times equal those of a limiter that never deletes |
| `MemoryLimiterMixed.MixedWindowsShow` | internal/middleware/rate_limit.go:171-194 | a legal run with built keys: 5000 customer entry requests within their limits, then one request of the default one-second configuration, whose sweep is unsafe and changes the next reply |
| `MemoryLimiterMixed.TrafficFloods` | internal/middleware/rate_limit.go:119-158 | the entries after every one of those requests; all earlier sweeps are safe |
| `PlanChecks.PublicOriginIsStable` | scripts/environmentctl.py:84-97 | an accepted origin is accepted again unchanged, with the same hostname, and holds only authority characters |
| `PlanGrammar.IdentifierMeans` | scripts/environmentctl.py:66-69 | identifiers are exactly the words of small letters and digits joined by hyphens, starting with a letter, of at most 48 characters |
| `PlanGrammar.RootMeans` | scripts/environmentctl.py:72-81 | deployment directories are exactly the absolute paths of plain parts, none empty or a dot name, below one of the five allowed parents |
| `PlanGrammar.OriginMeans` | scripts/environmentctl.py:84-97 | public origins are exactly https, a public name, perhaps a port from 1 to 65535 and perhaps one slash; the result is the text without the slash and the name in small letters |
| `Inventory.LoadTargets` | scripts/environmentctl.py:133-218 | the loader returns the expanded inventory if and only if the file is at most 1 MiB, every target is valid with its bundle within 300 KiB, and all of them are isolated |
| `InventoryMeaning.AcceptedMeans` | scripts/environmentctl.py:133-218 | load_targets returns a list of targets if and only if the file has at most 1 MiB and describes that list field by field, and the list is isolated |
| `InventoryMeaning.ExpandMeans` | scripts/environmentctl.py:133-203 | an inventory is expanded to a list of targets if and only if it has exactly the required fields, 1 to 500 projects with distinct names and companies, and each target is the one its settings describe |
| `InventoryMeaning.MadeMeans` | scripts/environmentctl.py:147-187 | a target is made if and only if its settings are valid, and then from those settings |
| `InventoryMeaning.DigestMeans` | scripts/environmentctl.py:118-130 | a bundle has a digest if and only if it is an export for this tenant and environment |
| `Inventory.CheckIsolation` | scripts/environmentctl.py:204-217 | the final nested loops accept exactly the lists with distinct hostnames and no clash on one host |
| `Inventory.CheckClashes` | scripts/environmentctl.py:210-217 | the inner loop accepts exactly the targets clear of all earlier ones |
| `Isolation.AcceptedTargetsAreIsolated` | scripts/environmentctl.py:147-218 | any two targets of an accepted inventory differ in instance id and all hostnames, and on one host share no port and no path; every target is valid with ports in 1024..65535 |
| `Isolation.IsolatedMeans` | scripts/environmentctl.py:202-218 | a list is isolated if and only if all hostnames differ and any two targets on one host have disjoint ports and no common path |
| `Isolation.OverlapMeansSharedPath` | scripts/environmentctl.py:215-217 | the root comparison reports an overlap if and only if some path lies under both roots |
| `Isolation.PortsApart` | scripts/environmentctl.py:213-214 | two port ranges are disjoint if and only if one ends before the other begins |
| `Isolation.InstanceIdInjective` | scripts/environmentctl.py:155 | instance ids of projects determine project and environment |
| `Isolation.MadeTargetIsValid` | scripts/environmentctl.py:147-186 | what add_target appends is a valid target with the given identity, and its digest is the bundle's |
| `Isolation.AddedProjectsOk` | scripts/environmentctl.py:191-202 | the project loop keeps instance ids distinct and all targets valid |
| `EnvText.ReadEnvironment` | scripts/deploy-environment.py:39-55 | the line loop: accepted exactly when every line is, with the map of its assignments |
| `EnvReading.ReadMeans` | scripts/deploy-environment.py:39-55 | the reader accepts a text if and only if every line is blank, a comment or a plain assignment without substitutions and no key is assigned twice, and reads exactly the values assigned |
| `EnvReading.SplitDivides` | scripts/deploy-environment.py:43 | the lines and what closes them, CR LF counting once, make up the text |
| `EnvText.WrittenTextReadsBack` | scripts/environmentctl.py:293-297 | reading the written text gives back the same map, up to one pair of matching outer quotes |
| `EnvText.SplitJoined` | scripts/deploy-environment.py:43 | splitting joined lines gives the lines, including CR LF handling, for lines without separators |
| `EnvText.AssignmentReadsBack` | scripts/deploy-environment.py:46-54 | one written assignment is read back as its key and unquoted value |
| `Environment.PutAllMeaning` | scripts/environmentctl.py:237-257 | dictionary updates in sequence: every update is in place, everything else comes from before |
| `Environment.EnvironmentIsWritable` | scripts/environmentctl.py:236-261 | the values of a valid target can be written line by line, and each of the 47 settings survives the reader unchanged |
| `Environment.TemplateIsLegible` | scripts/environmentctl.py:225-233 | every assignment taken from the template has a legal key and no line separator, and keys are unique |
| `Provenance.DefaultSyntheticPasses` | scripts/data_provenance.py:65-133 | whatever document the writer produces, the checker accepts for that environment |
| `ProvenanceMeaning.DocumentMeans` | scripts/data_provenance.py:65-107 | the check accepts an attestation if and only if it has exactly the required fields, names the environment and a reference, is synthetic without an approval or sanitised with a complete one, and its verification and scan have passed |
| `ProvenanceMeaning.TextMeans` | scripts/data_provenance.py:44-51 | a text field is accepted with its text stripped of white space at both ends |
| `ProvenanceMeaning.StampMeans` | scripts/data_provenance.py:53-62 | a time stamp is exactly the text of an instant of the calendar, with leap years |
| `AttestationSize.AttestationFits` | scripts/data_provenance.py:110-113 | the printed default attestation stays below the 32 KiB that the reader allows |
| `Package.RenderedPackageIsAccepted` | scripts/deploy-environment.py:58-127 | the inspector accepts a rendered package for its own instance and host if and only if the manifest as printed and the environment text as written stay within the size limit, and then reports the target's identity |
| `PackageAcceptance.AcceptedIsAcceptable` | scripts/deploy-environment.py:58-127 | what acceptance implies: the manifest names version 1, this instance, this host, its project and environment, the nine ports from its base and the eleven paths below its root; the text reads to a map with every expected setting; a non-production package has an attestation of its environment of at most 32 KiB; a pinned digest has its bundle of at most 300 KiB, equal unless it is to be written |
| `PackageAcceptance.AcceptableIsAccepted` | scripts/deploy-environment.py:58-127 | all of that together suffices, and fixes the report |
| `PackageAcceptance.OnlyItsOwnHost` | scripts/deploy-environment.py:65-67 | a package is accepted only for the instance and host its manifest names |
| `PackageSize.EnvironmentBound` | scripts/environmentctl.py:296-297 | the environment text has at most 47 * m + 1800 bytes more than the template, if m bounds every text of the target and its secrets |
| `PackageSize.ManifestBound` | scripts/environmentctl.py:298-299 | the printed manifest has at most 23 * m + 5000 bytes |
| `JsonText.PrintedTextSize` | scripts/environmentctl.py:298-299 | the size of the manifest is the number of bytes of its text as json.dumps prints it |
| `PackageSize.SmallPackagesAreAccepted` | scripts/deploy-environment.py:41-127 | a package is accepted, with the report of its target, whenever 47 * m + 1800 and the bytes of the template are together within the size limit |
| `Package.AcceptedTargetIsRenderable` | scripts/environmentctl.py:271-310 | every target of an accepted inventory meets the conditions for rendering, and its bundle matches the recorded digest |
| `Environment.WriterRefusesOnlyTemplates` | scripts/environmentctl.py:258-261 | for a valid target the values are refused if and only if the template cannot be parsed or holds a substitution that no setting replaces |
| `Package.RenderSucceedsIff` | scripts/environmentctl.py:271-310 | the writer produces a package if and only if the bundle still matches, the provenance time stamp is valid where one is needed, and the template is clean |
| `RenderedContents.RenderMeans` | scripts/environmentctl.py:281-310 | what a rendered package holds: the manifest of the target with its printed size, the text of the values, the default attestation exactly outside production, and the bundle exactly if one is named |
| `RenderedContents.ManifestMeans` | scripts/environmentctl.py:179-186 | the manifest holds every field of the target but the path of its bundle, and nothing else |
| `RenderedContents.EnvironmentMeans` | scripts/environmentctl.py:236-261 | the values are refused if and only if the template has an illegal key or a value to be written holds a substitution or line break; else every key has its setting or the last default of the template |
| `RenderedContents.UpdatesMean` | scripts/environmentctl.py:238-257 | the 47 settings of a target, key by key |
| `RenderedContents.TemplateMeans` | scripts/environmentctl.py:225-233 | the template is refused exactly for an illegal key, and offers the last value of every key |
| `RenderedContents.DefaultMeans` | scripts/data_provenance.py:121-134 | the default attestation, and when there is one |
| `Package.LongRootIsRefused` | scripts/deploy-environment.py:41 | a target whose root is longer than the size limit renders a package that is always refused |
| `LongRoots.LongRootIsAccepted` | scripts/environmentctl.py:72-81 | the directory check itself has no length limit |
| `JsonSize.RootsAreBounded` | scripts/environmentctl.py:133-136 | no directory of an accepted inventory is as long as the 1 MiB the inventory file may have |
| `LongRoots.LongRootIsLoaded` | scripts/environmentctl.py:133-218 | for every length up to 4000 bytes below that limit, a possible inventory file is accepted with a directory name of that length |
| `LongRoots.WrittenThenRefused` | scripts/deploy-environment.py:41 | for every such length above 128 KiB and every template the writer accepts, the loader accepts the inventory, the writer writes the package of that target and the inspector refuses it |
| `Package.LayoutAccepted` | scripts/deploy-environment.py:77-87 | the inspector recomputes from the manifest exactly the ports and directories that were written |
| `Package.IdentityAccepted` | scripts/deploy-environment.py:63-76 | the inspector's identity checks hold for the manifest of every validly named target |
| `Package.BundleAccepted` | scripts/deploy-environment.py:113-123 | bundle and recorded digest agree, with the status the inspector then reports |
| `Package.SamePaths` | scripts/deploy-environment.py:82 | the writer's directories equal the inspector's suffix table applied to the root |
| `MigrationRunner.Runner.Register` | internal/migration/migration.go:48-60 | registration succeeds exactly for a version above all earlier ones; otherwise nothing changes |
| `MigrationRunner.Runner.Migrate` | internal/migration/migration.go:26-46 | one start: table, executions and outcome as a function of the list, the loaded table and the job outcomes |
| `MigrationRunner.Runner.RunMigration` | internal/migration/migration.go:62-105 | one version: skipped when recorded as successful, otherwise executed and its record written |
| `MigrationRunner.PassRunsPendingPrefix` | internal/migration/migration.go:39-44 | a pass executes a prefix of the pending versions in order, stopping at the first failure |
| `MigrationRunner.PassWrites` | internal/migration/migration.go:73-102 | a pass executes a version at most once and writes its record exactly when it executes it and the write is not lost |
| `MigrationRunner.SmallerVersionsFirst` | internal/migration/migration.go:26-105 | across any starts with any failures, when a version executes every smaller registered version has a success record or has just succeeded |
| `MigrationRunner.DoneStaysDone` | internal/migration/migration.go:62-66 | a version with a success record keeps it and never executes again |
| `MigrationRunner.RetriesCountExecutions` | internal/migration/migration.go:92-102 | the retry count is the number of executions whose write was not lost: of all executions when none was |
| `MigrationRunner.SuccessesArePrefix` | internal/migration/migration.go:26-105 | with one list and no lost writes the recorded successes are always a prefix of the list |
| `MigrationRunner.PassKeepsPrefixIff` | internal/migration/migration.go:62-105 | from a prefix, the successes after a pass are a prefix again if and only if no lost success came before a recorded one |
| `MigrationRunner.PrefixAlwaysIff` | internal/migration/migration.go:26-105 | over any starts with one list the successes are always a prefix if and only if no start recorded a success after a lost one |
| `MigrationRunner.LostWriteLeavesGap` | internal/migration/migration.go:94-102 | counterexample: one lost record write leaves a gap and makes a succeeded version run again |
| `Releases.Store.Consolidate` | internal/migration/000049_consolidate_platform_default_workflow.go:23-128 | the transaction: all statements of `ConsolidateSteps` run, or nothing changes |
| `Releases.Store.RetireOne` | internal/migration/000099_enforce_manual_workflow_release_deployment.go:47-80 | one retirement transaction |
| `ReleaseRuns.ConsolidationSettlesAll` | internal/migration/000049_consolidate_platform_default_workflow.go:27-127 | after consolidation every live agent is on the default version, with draft plus one exactly when it was on another; its active release is untouched if it was on the default, else retired and replaced by a release with the default fingerprint, its tenant and product, the old snapshots and the next number; nothing else of the agent changes, deleted agents stay as they were and only the default workflow lives |
| `ReleaseRuns.ConsolidatesIff` | internal/migration/000049_consolidate_platform_default_workflow.go:27-54 | on any database the consolidation succeeds if and only if the default version is live, of the workflow and has the right fingerprint, and every live agent has no active release or an approved active one of its own |
| `ReleaseRuns.SecondConsolidationIsQuiet` | internal/migration/000049_consolidate_platform_default_workflow.go:27-127 | running the consolidation again changes no row, creates no release and bumps no draft revision |
| `ReleaseRuns.AgentsLoop` | internal/migration/000049_consolidate_platform_default_workflow.go:44-115 | from a state with the invariants the agent loop never fails and keeps them |
| `ReleaseRuns.ClosingEffect` | internal/migration/000050_retire_legacy_ai_workflow_versions.go:36-74 | retiring the other workflows deletes exactly those and their versions and touches no agent or release |
| `ReleaseRuns.ReplaceSettles` | internal/migration/000049_consolidate_platform_default_workflow.go:55-98 | replacing a release keeps all invariants and changes one agent only |
| `ReleaseRuns.ReplacedIsNumbered` | internal/migration/000049_consolidate_platform_default_workflow.go:63-72 | the replacement's number is new for its agent |
| `ReleaseRuns.RetirementIsSafe` | internal/migration/000099_enforce_manual_workflow_release_deployment.go:47-80 | a retirement keeps the index after each statement and the pointer invariant, retires exactly the release if it is active and not deleted, and clears exactly the pointer to it |
| `ReleaseActivation.FindCandidate` | internal/migration/000105_tenant_default_ai_only.go:97-118 | the search returns the newest eligible release, or none when there is none |
| `ReleaseActivation.ActivateDefault` | internal/migration/000105_tenant_default_ai_only.go:60-172 | the activation: refusal, no change, or the switch to the candidate, decided as `Decides` says |
| `ReleaseDecisions.DecisionMeans` | internal/migration/000105_tenant_default_ai_only.go:60-124 | column by column: an activation switches exactly to the newest deployable release, changes nothing exactly when there is none and the active one is up to date, and fails otherwise |
| `ReleaseActivation.ActivationIsSafe` | internal/migration/000105_tenant_default_ai_only.go:126-170 | a switch keeps one active release per agent after every statement and the pointer invariant at the end |
| `ReleaseActivation.AnyOrderIsSafe` | internal/migration/000105_tenant_default_ai_only.go:60-171 | under any sequence of consolidations, retirements and activations no agent has two active releases after any statement, and at every transaction boundary a non-zero pointer names an active approved release of its agent |
| `ReleaseActivation.TransactionTakesEffect` | internal/migration/000105_tenant_default_ai_only.go:60-171 | what each transaction of such a sequence achieves: settled agents, a retired release, or the chosen release active |
| `ReleaseActivation.RepeatIsQuietIff` | internal/migration/000105_tenant_default_ai_only.go:80-124 | repeating an activation changes nothing if and only if no other release was eligible beside the chosen one; otherwise it moves to an older release |
| `ReleaseActivation.ActivationStepsBack` | internal/migration/000105_tenant_default_ai_only.go:80-170 | whatever the fingerprint and the decoders are: a database that meets the invariants where the first activation goes to the newest release and the second back to an older one |
| `ReleaseActivation.AlternativesAreOlder` | internal/migration/000105_tenant_default_ai_only.go:81-118 | whatever else would be accepted next is older than the chosen release |
| `ReleaseActivation.SwitchedTables` | internal/migration/000105_tenant_default_ai_only.go:126-170 | both tables after a switch, row by row |
| `KnowledgeRecovery.Store.RecoverDocuments` | internal/migration/000086_knowledge_candidate_state_recovery.go:33-87 | the document loop with its map of seen groups computes `Recovered` |
| `KnowledgeRecovery.FirstIsCanonical` | internal/migration/000086_knowledge_candidate_state_recovery.go:35-58 | the first row of a group in query order is its canonical document |
| `KnowledgeRecovery.CanonicalRanksFirst` | internal/migration/000086_knowledge_candidate_state_recovery.go:35 | the canonical document ranks before every other member of its group |
| `KnowledgeRecovery.DemoteStep` | internal/migration/000086_knowledge_candidate_state_recovery.go:72-86 | one demotion and its link rewrite advance the pass by one row |
| `KnowledgeResults.OneLiveDocument` | internal/migration/000086_knowledge_candidate_state_recovery.go:88-97 | exactly the canonical document of a group is live and typed as candidate document |
| `KnowledgeResults.KeptDocumentIsPublishedIfAny` | internal/migration/000086_knowledge_candidate_state_recovery.go:35 | the kept document is published if and only if some document of the group was |
| `KnowledgeRows.DocumentsAfter86` | internal/migration/000086_knowledge_candidate_state_recovery.go:33-87 | every document after the pass: the best of a candidate is its candidate document, the others are duplicates, deprecated and disabled with tenant, reference and base as before, no other row changes |
| `KnowledgeRows.OnePublishedAfter86` | internal/migration/000086_knowledge_candidate_state_recovery.go:80-84 | at most one document of a candidate is published afterwards |
| `KnowledgeRows.CandidatesAfter86` | internal/migration/000086_knowledge_candidate_state_recovery.go:61-67 | every candidate after the pass: a live one with documents records base and entry of the best, others stay |
| `KnowledgeRows.LinksAfter86` | internal/migration/000086_knowledge_candidate_state_recovery.go:73-79 | every link after the pass: a live link to a withdrawn document of its tenant names the best one, others stay |
| `KnowledgeResults.CandidateNamesKeptDocument` | internal/migration/000086_knowledge_candidate_state_recovery.go:61-67 | the entry id of a live candidate with documents decodes by division by 10 to its kept document |
| `KnowledgeResults.NoLinkNamesDemoted` | internal/migration/000086_knowledge_candidate_state_recovery.go:73-79 | no live link of a tenant names a demoted document of that tenant, and no link is lost |
| `KnowledgeResults.RecoveryIsIdempotent` | internal/migration/000086_knowledge_candidate_state_recovery.go:33-87 | a second document pass changes no row |
| `KnowledgeLinks.DedupeLinks` | internal/migration/000086_knowledge_candidate_state_recovery.go:99-127 | the link loop deletes every live link but the kept one of each identity |
| `KnowledgeLinks.LiveIdentitiesAreDistinct` | internal/migration/000086_knowledge_candidate_state_recovery.go:128-137 | live links have distinct identities afterwards |
| `KnowledgeLinks.EveryIdentityKeepsOne` | internal/migration/000092_fix_product_knowledge_link_unique_scope.go:93-115 | each identity keeps exactly one live link, published if any was, unchanged |
| `KnowledgeLinks.RepairOne` | internal/migration/000092_fix_product_knowledge_link_unique_scope.go:38-80 | one candidate: the first document of the query is adopted and the others are demoted in query order |
| `KnowledgeLinks.RepairReferences` | internal/migration/000092_fix_product_knowledge_link_unique_scope.go:29-82 | the loop over the live candidates |
| `KnowledgeLinks.QueryIsOrdered` | internal/migration/000092_fix_product_knowledge_link_unique_scope.go:40-43 | the documents come in the order of the query: live candidate documents first, then published ones, then by id |
| `KnowledgeLinks.RepairEffect` | internal/migration/000092_fix_product_knowledge_link_unique_scope.go:49-79 | which documents and candidates one repair changes, and how |
| `KnowledgeRows.DocumentsAfter92` | internal/migration/000092_fix_product_knowledge_link_unique_scope.go:29-82 | every document after migration 92: the chief one of a live candidate is its candidate document, live if published and else disabled; its others are duplicates, deprecated and disabled; no other row changes |
| `KnowledgeRows.OnePublishedAfter92` | internal/migration/000092_fix_product_knowledge_link_unique_scope.go:71-75 | at most one document of a live candidate is published afterwards |
| `KnowledgeRows.CandidatesAfter92` | internal/migration/000092_fix_product_knowledge_link_unique_scope.go:58-62 | every candidate after migration 92: a live one with documents records its chief document |
| `KnowledgeRows.LinksAfter92` | internal/migration/000092_fix_product_knowledge_link_unique_scope.go:64-70 | every link after migration 92: a live link to a document of a live candidate of its tenant names the chief one |
| `KnowledgeLinks.Migration92KeepsTheDocument` | internal/migration/000092_fix_product_knowledge_link_unique_scope.go:29-82 | after migration 86, migration 92 keeps the same canonical document for every live candidate with documents |
| `KnowledgeMigrations.Migration86Links` | internal/migration/000086_knowledge_candidate_state_recovery.go:33-137 | after both passes the live links have distinct identities, none names a demoted document of its tenant, and every link that was live is stood for by exactly one live link |
| `KnowledgeMigrations.Migration92Links` | internal/migration/000092_fix_product_knowledge_link_unique_scope.go:12-115 | after both passes of migration 92, on any database, the live links have distinct identities and none names a superseded document of a live candidate of its tenant |
| `CustomerMerge.Store.ReassignReferences` | internal/migration/000018_dedupe_customer_identities.go:53-95 | the reassignment: conversations, tickets and contacts after it as a function of the tables before and the order of the contact rows |
| `CustomerMerge.Store.MergeIdentities` | internal/migration/000018_dedupe_customer_identities.go:20-43 | the loop over identities with its map of canonical customers computes `Merge`, for whatever orders the contact queries return |
| `CustomerMerge.KeysTellApart` | internal/migration/000018_dedupe_customer_identities.go:31 | trimmed keys identify source and external id if sources hold no colon |
| `CustomerMerge.KeysAgreeIff` | internal/migration/000018_dedupe_customer_identities.go:31 | two identities share a key if and only if their trimmed pairs agree or one pair is the other shifted over a colon |
| `CustomerMerge.KnownSourcesTellApart` | internal/pkg/enums/external_identity.go:8-13 | the four sources of the platform hold no colon, so their keys stand for source and external id |
| `CustomerMerge.MovedContacts` | internal/migration/000018_dedupe_customer_identities.go:74-93 | in whatever order the contact rows come, every contact ends with the canonical customer, none is created and no new duplicate appears |
| `CustomerMergeResults.SurvivorsAreLowest` | internal/migration/000018_dedupe_customer_identities.go:28-43 | exactly the identity with the lowest id of each trimmed key stays, unchanged |
| `CustomerMergeResults.MergedKeysDiffer` | internal/migration/000018_dedupe_customer_identities.go:45-50 | trimmed keys are unique afterwards, and so are the columns of the unique index |
| `CustomerMergeResults.EveryKeySurvives` | internal/migration/000018_dedupe_customer_identities.go:28-43 | no key disappears |
| `CustomerMergeResults.MergeLosesNothing` | internal/migration/000018_dedupe_customer_identities.go:20-95 | for every order of the contact rows, no conversation or ticket is lost, the set of (type, value) contact pairs is unchanged, and no customer gains a duplicate contact |
| `CustomerMergeResults.EverythingMoves` | internal/migration/000018_dedupe_customer_identities.go:52-95 | for every order of the contact rows, everything of a customer goes to one destination |
| `CustomerMergeResults.OnlyRealCustomersMerge` | internal/migration/000018_dedupe_customer_identities.go:52-55 | rows without a real customer stay where they are, rows of a real one go to a real one |
| `CustomerMergeResults.RowsEndAtOwnersIff` | internal/migration/000018_dedupe_customer_identities.go:20-95 | every customer's destination is the customer of the lowest identity of each of its keys if and only if all keys of one customer have one such owner |
| `CustomerMergeResults.EverythingEndsAtOwner` | internal/migration/000018_dedupe_customer_identities.go:20-95 | under that condition every conversation, ticket and contact of a key's customers ends at the customer of its lowest identity |
| `CustomerMergeResults.OneKeyEndsAtOwner` | internal/migration/000018_dedupe_customer_identities.go:20-95 | in particular when each customer has identities under one key only |
| `CustomerMergeResults.OthersAreUntouched` | internal/migration/000018_dedupe_customer_identities.go:20-95 | customers without an identity keep all their rows, contacts row by row |
| `CustomerMergeResults.TwoOwnersSplitACustomer` | internal/migration/000018_dedupe_customer_identities.go:28-43 | counterexample with a known source: a customer whose keys have two owners loses its conversation to another customer |
| `CustomerMergeResults.SecondMergeIsQuiet` | internal/migration/000018_dedupe_customer_identities.go:20-43 | a second merge changes nothing, whatever orders the two runs read contacts in |
| `FaultStats.Store.MergeDuplicates` | internal/migration/000031_repair_product_fault_stats_unique_index.go:42-105 | the pass leaves the lowest row of every key, holding the sums |
| `FaultStats.Store.AddUp` | internal/migration/000031_repair_product_fault_stats_unique_index.go:52-84 | the aggregation loop: per key met the lowest row, the sums so far, and the rows set aside |
| `FaultStats.Store.WriteBack` | internal/migration/000031_repair_product_fault_stats_unique_index.go:86-100 | writing the sums gives the same table in every visiting order of the map |
| `FaultStats.TotalsAreKept` | internal/migration/000031_repair_product_fault_stats_unique_index.go:52-105 | the sum of each of the five counters is preserved for every key |
| `FaultStats.OneRowPerKey` | internal/migration/000031_repair_product_fault_stats_unique_index.go:52-105 | exactly one row per key remains, the one with the lowest id |
| `FaultStats.SingleRowsAreUntouched` | internal/migration/000031_repair_product_fault_stats_unique_index.go:87-89 | a key with one row keeps it as it was |
| `FaultStats.SecondRunIsQuiet` | internal/migration/000032_enforce_product_fault_stats_unique_index.go:7-13 | running the merge again changes nothing |
| `Notifications.Store.BackfillEventKeys` | internal/migration/000096_harden_notification_workflow.go:48-67 | the loop fills in exactly the missing event keys |
| `Notifications.Store.ExpandBroadcasts` | internal/migration/000096_harden_notification_workflow.go:69-103 | the loop over the active broadcasts, with conflicting inserts skipped, computes `Expanded` |
| `NotificationResults.SuffixIsRemoved` | internal/migration/000096_harden_notification_workflow.go:17 | removing the recipient suffix from any key that has one gives what stood before it |
| `NotificationResults.CopyEventKey` | internal/migration/000096_harden_notification_workflow.go:91-93 | a copy's idempotency key without the recipient suffix is its event key |
| `NotificationResults.CopyKeyInjective` | internal/migration/000096_harden_notification_workflow.go:92 | different broadcasts or members never share a key |
| `NotificationResults.BackfillIsComplete` | internal/migration/000096_harden_notification_workflow.go:48-67 | every notification has an event key afterwards, and a second backfill changes nothing |
| `NotificationResults.BackfillGroups` | internal/migration/000096_harden_notification_workflow.go:54-57 | notifications of one event that differ only in recipient get that event as their key |
| `NotificationRows.StripMeans` | internal/migration/000096_harden_notification_workflow.go:17 | a recipient number is removed with its label, a key without one stays as it is |
| `NotificationRows.BackfilledRow` | internal/migration/000096_harden_notification_workflow.go:48-65 | every row after the first pass |
| `NotificationResults.OneCopyPerMember` | internal/migration/000096_harden_notification_workflow.go:77-96 | exactly one row holds the key of each (broadcast, active member): the one that already did, or the copy |
| `NotificationResults.OnlyCopiesAreAdded` | internal/migration/000096_harden_notification_workflow.go:83-96 | nothing is added but copies for active members |
| `NotificationRows.ExistingRow` | internal/migration/000096_harden_notification_workflow.go:73-101 | an existing row is disabled exactly if it was an active broadcast that some member of its tenant receives, and else unchanged |
| `NotificationRows.NewRow` | internal/migration/000096_harden_notification_workflow.go:83-97 | every new row is the copy of a broadcast for a receiving member, column by column |
| `NotificationRows.RowForEach` | internal/migration/000096_harden_notification_workflow.go:83-97 | every receiving member has exactly one row with the key of the pair |
| `NotificationResults.DisabledIffDelivered` | internal/migration/000096_harden_notification_workflow.go:80-99 | a broadcast is disabled if and only if its tenant has an active member; all other rows stay as they were |
| `NotificationResults.SecondExpansionIsQuiet` | internal/migration/000096_harden_notification_workflow.go:69-103 | expanding again changes nothing |
| `Transcripts.DedupeEvents` | internal/migration/000087_normalize_meeting_transcript_offsets.go:57-80 | the loop removes exactly the rows whose event key occurred earlier in query order |
| `Transcripts.KeysStandForEvents` | internal/migration/000087_normalize_meeting_transcript_offsets.go:68 | joined keys stand for events when the columns hold no NUL |
| `Transcripts.BestRowStays` | internal/migration/000087_normalize_meeting_transcript_offsets.go:59-74 | exactly the best row of each event in query order stays |
| `Transcripts.BetterMeans` | internal/migration/000087_normalize_meeting_transcript_offsets.go:59-64 | the order of the query, column by column |
| `Transcripts.EveryEventKeepsOne` | internal/migration/000087_normalize_meeting_transcript_offsets.go:57-80 | every event keeps a row, unchanged, and a translated one if it had any |
| `Transcripts.EventsAreUnique` | internal/migration/000087_normalize_meeting_transcript_offsets.go:42-47 | no two remaining rows share meeting, provider and event |
| `Transcripts.NormalizeOffsets` | internal/migration/000087_normalize_meeting_transcript_offsets.go:82-125 | the pass over the selected rows gives `NormalAll` in any row order |
| `Transcripts.NormalMeans` | internal/migration/000087_normalize_meeting_transcript_offsets.go:82-125 | every row after the pass: absolute stamps of the first seven days become offsets, and a changed row ends no earlier than it starts |
| `Transcripts.ChangedRowsAreOrdered` | internal/migration/000087_normalize_meeting_transcript_offsets.go:115-117 | every changed row ends with start no later than end |
| `Transcripts.DurationIsKept` | internal/migration/000087_normalize_meeting_transcript_offsets.go:127-136 | when both ends of an ordered row are rebased the duration is preserved and both are offsets |
| `Transcripts.SecondPassIsQuiet` | internal/migration/000091_repair_meeting_transcript_timezones.go:5-9 | repeating the pass with the same origins changes nothing |
| `Transcripts.StartMovesOnce` | internal/migration/000091_repair_meeting_transcript_timezones.go:5-9 | over any number of passes with any origins a start is rebased at most once |
| `TagForest.BuildTree` | internal/builders/tag_builder.go:36-75 | the built nodes: each node's children and the roots are exactly the nodes of the tags placed there, in input order; of several tags with one id the last one's node stands for all |
| `TagForest.Place` | internal/builders/tag_builder.go:59-72 | one round of the second loop places one tag and leaves all other lists alone |
| `TagForest.Placed` | internal/builders/tag_builder.go:59-72 | the tags under one parent: complete, in input order, without repetition |
| `TagForest.DistinctHome` | internal/builders/tag_builder.go:44-57 | with distinct ids every tag is represented by its own node |
| `TagForestResults.PlacedOnce` | internal/builders/tag_builder.go:59-72 | each tag is once in the list of its parent, or the roots, and in no other |
| `TagForestResults.EveryTagPlaced` | internal/builders/tag_builder.go:36-75 | roots and all children lists total the input length |
| `TagForestWalk.NodesAreWalked` | internal/builders/tag_builder.go:36-75 | walking the built nodes is walking positions, each taken to the last tag with its id |
| `TagForestWalk.WalkEnds` | internal/builders/tag_builder.go:36-75 | with distinct ids the walk of the built nodes ends within as many levels as there are tags |
| `TagForestWalk.WalkVisitsRooted` | internal/builders/tag_builder.go:36-75 | with distinct ids it visits the node of every tag whose ancestors end at a root exactly once, and no other |
| `TagForestWalk.EveryNodeOnceIff` | internal/builders/tag_builder.go:36-75 | the walk of the built nodes holds every node exactly once if and only if ids are distinct and no tag is its own ancestor |
| `TagForestWalk.ReplacedNeverVisited` | internal/builders/tag_builder.go:44-57 | the node of a tag that shares its id with a later tag is never visited |
| `TagForestWalk.RepeatedIdsCanLoop` | internal/builders/tag_builder.go:44-72 | a list of tags with one id whose built tree has a walk that never ends |
| `TagForestResults.DepthBound` | internal/builders/tag_builder.go:36-75 | the walk is at most as deep as the list is long |
| `Identifiers.SplitIdentifier` | cmd/enums/generator.go:443-462 | the loop cuts the identifier exactly at its boundaries |
| `IdentifierResults.BoundaryMeans` | cmd/enums/generator.go:464-487 | where words start, by character ranges |
| `IdentifierResults.SplitMeaning` | cmd/enums/generator.go:443-475 | parts are non-empty, join to the input and break exactly at boundary positions |
| `IdentifierResults.SplitIsOnly` | cmd/enums/generator.go:443-475 | no other sequence of parts has these three properties |
| `IdentifierResults.CommonIdentifierPrefix` | cmd/enums/generator.go:396-415 | the nested loops with their early return compute the joined shared words |
| `IdentifierResults.SharedWordsAreLongest` | cmd/enums/generator.go:401-413 | a word sequence starts every name if and only if it starts the shared words |
| `IdentifierResults.OrderDoesNotMatter` | cmd/enums/generator.go:396-415 | order and repetition of the names do not matter |
| `IdentifierResults.CommonPrefixIsPrefix` | cmd/enums/generator.go:414 | the result is a prefix of every name |
| `IdentifierResults.CamelCase` | cmd/enums/generator.go:533-548 | the result has the input's length; its characters are given position by position |
| `IdentifierResults.CamelCaseIsIdempotent` | cmd/enums/generator.go:533-548 | camel-casing a camel-cased ASCII identifier changes nothing |

## Left out

- Redis connection set-up, HTTP handlers, header names, localisation and the actor hash: tenant, actor and address are given strings.
- The choice between the script and the fallback when Redis fails mid-run: each limiter is modelled over its own runs.
- JSON parsing and serialisation beyond the size of texts, file modes, symbolic links, subprocesses and secret generation in the scripts.
- The operate step of the deployment script: it runs external tools.
- Interleaving of single statements of two release transactions: transactions are taken as serialised.
- The Ensure calls of migrations 49, 50 and 105: their results are inputs that satisfy the checks made on them.
- The selection query of migration 99: the retired releases are an arbitrary list.
- Creation of columns, tables and indexes: the uniqueness an index needs is proved instead.
- Time stamps, audit names, comments and index states written by migrations: idempotence is stated without them.
- Migration 86's scoring back-fill and migration 96's mail settings and delivery logs: field copies with nothing hard to prove.
- Non-ASCII identifiers in the enum generator: `camelCase` slices bytes and would break multi-byte characters.
- IdentifierResults.CamelCase: requires ASCII input, for the reason on the line above.
- Notifications.Store.ExpandBroadcasts: user ids and row ids are natural numbers; negative ids, which the query for members drops, are not modelled.
- Migrations that only change the schema or call services, the other builders, the model structs, provider clients and the web front end.
