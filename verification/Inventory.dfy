/**
 load_targets (scripts/environmentctl.py): an inventory becomes a list of deployment targets, or is
 refused. Accepted targets are isolated from each other: distinct names and hostnames everywhere,
 and on one host disjoint ports and directories.
 */
module Inventory {
  import opened Text
  import opened PlanChecks

  const PORT_COUNT: nat := 9

  datatype Target = Target(
    instance: string, project: string, environment: string, tenant: int, host: string, root: string,
    publicUrl: string, filesUrl: string, portBase: int, bundlePath: string, digest: string)

  /** The files an inventory refers to: how a bundle path resolves, and what the resolved file holds. */
  datatype Files = Files(resolve: string -> string, bundles: map<string, Document>)

  const INVENTORY_LIMIT: nat := 1024 * 1024

  const BUNDLE_LIMIT: nat := 300 * 1024

  const TARGET_KEYS: set<string> := {"host_id", "deploy_root", "public_url", "files_url", "port_base", "config_bundle"}

  predicate IsHexDigest(s: string) {
    |s| == 64 && All(s, c => IsDigit(c) || 'a' <= c <= 'f')
  }

  /** The digest of an exported configuration for the right company and environment. */
  function BundleDigest(bundle: Json, tenant: int, environment: string): Result<string> {
    var fields :- ObjectKeys(bundle, {"version_id", "digest", "document"});
    var _ :- PositiveInt(fields["version_id"], MAX_ID);
    var _ :- Require(fields["digest"].Str? && IsHexDigest(fields["digest"].s), "missing a valid exported digest");
    var doc := fields["document"];
    var _ :- Require(doc.Object? && "tenant_id" in doc.fields && doc.fields["tenant_id"] == Int(tenant) &&
                     "environment" in doc.fields && doc.fields["environment"] == Str(environment),
                     "company or environment does not match the target");
    var _ :- Require("schema_version" in doc.fields && doc.fields["schema_version"] in {Int(1), Int(2)},
                     "unsupported document schema");
    Ok(fields["digest"].s)
  }

  /** read_bundle */
  function FileDigest(file: Document, tenant: int, environment: string): Result<string> {
    var bundle :- ReadJson(file, BUNDLE_LIMIT);
    BundleDigest(bundle, tenant, environment)
  }

  function ReadBundle(files: Files, path: string, tenant: int, environment: string): Result<string> {
    if path in files.bundles then FileDigest(files.bundles[path], tenant, environment)
    else Refused("cannot read a valid UTF-8 JSON file")
  }

  function InstanceId(project: string, environment: string): string {
    if environment == "integration" then "onward-shared-integration" else "onward-" + project + ("-" + environment)
  }

  function TargetOrigins(publicUrl: Json, filesUrl: Json): Result<(string, string)> {
    var public :- PublicOrigin(publicUrl);
    var uploads :- PublicOrigin(filesUrl);
    var _ :- Require(public.host != uploads.host, "application and file endpoints must use distinct hostnames");
    Ok((public.url, uploads.url))
  }

  function TargetBase(value: Json): Result<int> {
    var base :- PositiveInt(value, 65535 - PORT_COUNT + 1);
    var _ :- Require(base >= 1024, "use unprivileged ports");
    Ok(base)
  }

  /** The resolved path of the named bundle and its digest. */
  function TargetBundle(path: Json, tenant: int, environment: string, files: Files): Result<(string, string)> {
    var _ :- Require(path.Str? && All(path.s, c => c as int >= 32), "expected a file path or an empty string");
    if path.s == "" then Ok(("", ""))
    else
      var digest :- ReadBundle(files, files.resolve(path.s), tenant, environment);
      Ok((files.resolve(path.s), digest))
  }

  /** add_target */
  function MakeTarget(
    settings: map<string, Json>, project: string, tenant: int, environment: string, files: Files): Result<Target>
    requires TARGET_KEYS <= settings.Keys
  {
    var host :- Identifier(settings["host_id"]);
    var root :- DeploymentRoot(settings["deploy_root"]);
    var (public, uploads) :- TargetOrigins(settings["public_url"], settings["files_url"]);
    var base :- TargetBase(settings["port_base"]);
    var (path, digest) :- TargetBundle(settings["config_bundle"], tenant, environment, files);
    Ok(Target(InstanceId(project, environment), project, environment, tenant, host, root, public, uploads, base, path,
              digest))
  }

  /** What the loop over the projects has gathered. */
  datatype Plan = Plan(targets: seq<Target>, projects: set<string>, tenants: set<int>)

  function SharedPlan(inventory: Json, files: Files): Result<(Plan, seq<Json>)> {
    var fields :- ObjectKeys(inventory, {"schema_version", "shared_integration", "projects"});
    var _ :- Require(fields["schema_version"] == Int(1), "unsupported schema_version");
    var shared :- ObjectKeys(fields["shared_integration"], TARGET_KEYS + {"tenant_id"});
    var projects := fields["projects"];
    var _ :- Require(projects.List? && 0 < |projects.items| <= 500, "supply 1-500 projects");
    var tenant :- PositiveInt(shared["tenant_id"], MAX_ID);
    var target :- MakeTarget(shared, "daypop-shared", tenant, "integration", files);
    Ok((Plan([target], {}, {tenant}), projects.items))
  }

  /** One project: a staging and a production target. */
  function AddProject(plan: Plan, project: Json, files: Files): Result<Plan> {
    var fields :- ObjectKeys(project, {"project_id", "tenant_id", "staging", "production"});
    var id :- Identifier(fields["project_id"]);
    var _ :- Require(id != "shared" && id != "daypop-shared" && id !in plan.projects,
                     "project_id is reserved or duplicated");
    var tenant :- PositiveInt(fields["tenant_id"], MAX_ID);
    var _ :- Require(tenant !in plan.tenants, "each project must have a distinct company mapping");
    var stagingSettings :- ObjectKeys(fields["staging"], TARGET_KEYS);
    var staging :- MakeTarget(stagingSettings, id, tenant, "staging", files);
    var productionSettings :- ObjectKeys(fields["production"], TARGET_KEYS);
    var production :- MakeTarget(productionSettings, id, tenant, "production", files);
    Ok(Plan(plan.targets + [staging, production], plan.projects + {id}, plan.tenants + {tenant}))
  }

  function AddProjects(plan: Plan, projects: seq<Json>, n: nat, files: Files): Result<Plan>
    requires n <= |projects|
  {
    if n == 0 then Ok(plan)
    else
      var before :- AddProjects(plan, projects, n - 1, files);
      AddProject(before, projects[n - 1], files)
  }

  /** Every target of the inventory, before the targets are compared with each other. */
  function Expand(inventory: Json, files: Files): Result<seq<Target>> {
    var (plan, projects) :- SharedPlan(inventory, files);
    var full :- AddProjects(plan, projects, |projects|, files);
    Ok(full.targets)
  }

  // ---------------------------------------------------------------- isolation

  function PortAt(base: int, offset: nat): int {
    base + offset
  }

  function Ports(base: int): set<int> {
    set i: nat | i < PORT_COUNT :: PortAt(base, i)
  }

  predicate RootsOverlap(one: string, two: string) {
    one == two || StartsWith(one, two + "/") || StartsWith(two, one + "/")
  }

  predicate Clash(one: Target, two: Target) {
    one.host == two.host && (Ports(one.portBase) * Ports(two.portBase) != {} || RootsOverlap(one.root, two.root))
  }

  /** The two hostnames of every target, in order. */
  function Hostnames(targets: seq<Target>): seq<string> {
    if |targets| == 0 then []
    else
      var last := targets[|targets| - 1];
      Hostnames(targets[..|targets| - 1]) + [Hostname(last.publicUrl), Hostname(last.filesUrl)]
  }

  ghost predicate Distinct<T>(s: seq<T>) {
    forall i, j :: 0 <= i < j < |s| ==> s[i] != s[j]
  }

  ghost predicate ClearOf(target: Target, others: seq<Target>) {
    forall j :: 0 <= j < |others| ==> !Clash(target, others[j])
  }

  ghost predicate Isolated(targets: seq<Target>) {
    && Distinct(Hostnames(targets))
    && forall i :: 0 <= i < |targets| ==> ClearOf(targets[i], targets[..i])
  }

  lemma {:induction false} IsolatedPush(targets: seq<Target>, n: nat)
    requires n < |targets| && Isolated(targets[..n])
    ensures var names, target := Hostnames(targets[..n]), targets[n];
            var public, uploads := Hostname(target.publicUrl), Hostname(target.filesUrl);
            && Hostnames(targets[..n + 1]) == names + [public, uploads]
            && (Isolated(targets[..n + 1]) <==>
                public !in names && uploads !in names && public != uploads && ClearOf(target, targets[..n]))
  {
    hide Hostname, ClearOf;
    var before, after, target := targets[..n], targets[..n + 1], targets[n];
    assert after[..n] == before && after[n] == target;
    PushTwo(Hostnames(before), Hostname(target.publicUrl), Hostname(target.filesUrl));
    forall i | 0 <= i < n ensures after[i] == before[i] && after[..i] == before[..i] {
    }
    if Isolated(after) {
      assert ClearOf(after[n], after[..n]);
    }
  }

  lemma {:induction false} IsolatedPrefix(targets: seq<Target>, n: nat)
    requires n <= |targets| && Isolated(targets)
    ensures Isolated(targets[..n])
  {
    hide ClearOf, Hostnames;
    HostnamesGrow(targets, n);
    var before := targets[..n];
    forall i | 0 <= i < n ensures ClearOf(before[i], before[..i]) {
      assert before[..i] == targets[..i];
    }
  }

  method CheckClashes(target: Target, others: seq<Target>) returns (ok: bool)
    ensures ok <==> ClearOf(target, others)
  {
    for j := 0 to |others|
      invariant forall h :: 0 <= h < j ==> !Clash(target, others[h])
    {
      if Clash(target, others[j]) {
        return false;
      }
    }
    ok := true;
  }

  /** The final nested loops of load_targets accept exactly the isolated lists. */
  method CheckIsolation(targets: seq<Target>) returns (ok: bool)
    ensures ok <==> Isolated(targets)
  {
    hide Isolated, ClearOf, Hostname, Hostnames;
    var seen: set<string> := {};
    NoneIsolated(targets);
    for index := 0 to |targets|
      invariant Isolated(targets[..index])
      invariant forall h :: h in seen <==> h in Hostnames(targets[..index])
    {
      IsolatedPush(targets, index);
      if Isolated(targets) { IsolatedPrefix(targets, index + 1); }
      var public, uploads := Hostname(targets[index].publicUrl), Hostname(targets[index].filesUrl);
      if public in seen { return false; }
      seen := seen + {public};
      if uploads in seen { return false; }
      seen := seen + {uploads};
      var clear := CheckClashes(targets[index], targets[..index]);
      if !clear { return false; }
    }
    assert targets[..|targets|] == targets;
    ok := true;
  }

  lemma NoneIsolated(targets: seq<Target>)
    ensures Isolated(targets[..0]) && Hostnames(targets[..0]) == []
  {
  }

  lemma {:induction false} HostnamesGrow(targets: seq<Target>, n: nat)
    requires n <= |targets|
    ensures Hostnames(targets[..n]) <= Hostnames(targets)
    decreases |targets| - n
  {
    if n == |targets| {
      assert targets[..n] == targets;
    } else {
      HostnamesGrow(targets, n + 1);
      assert targets[..n + 1][..n] == targets[..n];
    }
  }

  lemma {:induction false} PushTwo(s: seq<string>, a: string, b: string)
    requires Distinct(s)
    ensures Distinct(s + [a, b]) <==> a !in s && b !in s && a != b
  {
    var t := s + [a, b];
    assert t[|s|] == a && t[|s| + 1] == b;
    if a in s {
      var i :| 0 <= i < |s| && s[i] == a;
      assert t[i] == t[|s|];
    } else if b in s {
      var i :| 0 <= i < |s| && s[i] == b;
      assert t[i] == t[|s| + 1];
    }
  }

  ghost predicate Accepted(source: Document, files: Files) {
    && source.size <= INVENTORY_LIMIT
    && Expand(source.json, files).Ok? && Isolated(Expand(source.json, files).value)
  }

  /**
   load_targets: the expanded inventory, if the file is small enough, every target is valid and all of them are
   isolated.
   */
  method LoadTargets(source: Document, files: Files) returns (r: Result<seq<Target>>)
    ensures r.Ok? <==> Accepted(source, files)
    ensures r.Ok? ==> r.value == Expand(source.json, files).value
  {
    hide SharedPlan, AddProject, Isolated;
    if source.size > INVENTORY_LIMIT { return Refused("JSON file exceeds its size limit"); }
    var inventory := source.json;
    var start := SharedPlan(inventory, files);
    if start.Refused? { return Refused(start.reason); }
    var plan, projects := start.value.0, start.value.1;
    for i := 0 to |projects|
      invariant AddProjects(start.value.0, projects, i, files) == Ok(plan)
    {
      var next := AddProject(plan, projects[i], files);
      if next.Refused? {
        RefusalStays(start.value.0, projects, i + 1, |projects|, files);
        return Refused(next.reason);
      }
      plan := next.value;
    }
    var ok := CheckIsolation(plan.targets);
    return if ok then Ok(plan.targets) else Refused("instances overlap");
  }

  lemma {:induction false} RefusalStays(plan: Plan, projects: seq<Json>, n: nat, m: nat, files: Files)
    requires n <= m <= |projects| && AddProjects(plan, projects, n, files).Refused?
    ensures AddProjects(plan, projects, m, files).Refused?
  {
    hide AddProject;
    if n < m { RefusalStays(plan, projects, n, m - 1, files); }
  }
}
