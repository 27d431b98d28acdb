/** Which inventories load_targets accepts and the targets it makes of them, said field by field. */
module InventoryMeaning {
  import opened Text
  import opened PlanChecks
  import opened Inventory

  ghost predicate HasExactly(value: Json, keys: set<string>) {
    value.Object? && value.fields.Keys == keys
  }

  ghost predicate IsId(value: Json, n: int) {
    value == Int(n) && 0 < n <= 9223372036854775807
  }

  ghost predicate IsName(value: Json, s: string) {
    value == Str(s) && IsIdentifier(s)
  }

  // ---------------------------------------------------------------- bundles

  /** An exported configuration of the tenant and environment, with its digest of 64 hexadecimal digits. */
  ghost predicate Exports(bundle: Json, tenant: int, environment: string, digest: string) {
    HasExactly(bundle, {"version_id", "digest", "document"}) &&
    var fields := bundle.fields;
    && (exists n :: IsId(fields["version_id"], n)) && fields["digest"] == Str(digest)
    && |digest| == 64 && (forall i :: 0 <= i < 64 ==> '0' <= digest[i] <= '9' || 'a' <= digest[i] <= 'f')
    && fields["document"].Object?
    && var document := fields["document"].fields;
    && "tenant_id" in document && document["tenant_id"] == Int(tenant)
    && "environment" in document && document["environment"] == Str(environment)
    && "schema_version" in document && (document["schema_version"] == Int(1) || document["schema_version"] == Int(2))
  }

  lemma {:induction false} DigestMeans(bundle: Json, tenant: int, environment: string, digest: string)
    ensures BundleDigest(bundle, tenant, environment) == Ok(digest) <==> Exports(bundle, tenant, environment, digest)
  {
    if HasExactly(bundle, {"version_id", "digest", "document"}) && bundle.fields["version_id"].Int? {
      assert IsId(bundle.fields["version_id"], bundle.fields["version_id"].n) <==>
             PositiveInt(bundle.fields["version_id"], MAX_ID).Ok?;
    }
  }

  /** No bundle is named, or the one named exists, is not too large and is for this target. */
  ghost predicate Configures(
    value: Json, files: Files, tenant: int, environment: string, path: string, digest: string)
  {
    && value.Str? && (forall i :: 0 <= i < |value.s| ==> value.s[i] as int >= 32)
    && if value.s == "" then path == "" && digest == ""
       else
         && path == files.resolve(value.s) && path in files.bundles && files.bundles[path].size <= 307200
         && Exports(files.bundles[path].json, tenant, environment, digest)
  }

  // ---------------------------------------------------------------- one target

  /** Two public origins with different hostnames. */
  ghost predicate Published(publicUrl: Json, filesUrl: Json, public: string, uploads: string) {
    exists one, two ::
      && PublicOrigin(publicUrl) == Ok(one) && one.url == public
      && PublicOrigin(filesUrl) == Ok(two) && two.url == uploads && one.host != two.host
  }

  /** The settings of one target, field by field. */
  ghost predicate Sets(settings: map<string, Json>, files: Files, t: Target)
    requires TARGET_KEYS <= settings.Keys
  {
    && IsName(settings["host_id"], t.host)
    && settings["deploy_root"] == Str(t.root) && IsDeploymentRoot(t.root)
    && Published(settings["public_url"], settings["files_url"], t.publicUrl, t.filesUrl)
    && settings["port_base"] == Int(t.portBase) && 1024 <= t.portBase <= 65527
    && Configures(settings["config_bundle"], files, t.tenant, t.environment, t.bundlePath, t.digest)
  }

  ghost predicate Named(t: Target, project: string, tenant: int, environment: string) {
    && t.project == project && t.tenant == tenant && t.environment == environment
    && t.instance == if environment == "integration" then "onward-shared-integration"
                     else "onward-" + project + "-" + environment
  }

  lemma {:induction false} FileMeans(file: Document, tenant: int, environment: string, digest: string)
    ensures FileDigest(file, tenant, environment) == Ok(digest) <==>
            file.size <= 307200 && Exports(file.json, tenant, environment, digest)
  {
    hide BundleDigest, Exports;
    DigestMeans(file.json, tenant, environment, digest);
  }

  lemma {:induction false} BundleMeans(files: Files, path: string, tenant: int, environment: string, digest: string)
    ensures ReadBundle(files, path, tenant, environment) == Ok(digest) <==>
            && path in files.bundles && files.bundles[path].size <= 307200
            && Exports(files.bundles[path].json, tenant, environment, digest)
  {
    hide FileDigest, Exports;
    if path in files.bundles { FileMeans(files.bundles[path], tenant, environment, digest); }
  }

  lemma {:induction false} OriginsMean(publicUrl: Json, filesUrl: Json, public: string, uploads: string)
    ensures TargetOrigins(publicUrl, filesUrl) == Ok((public, uploads)) <==>
              Published(publicUrl, filesUrl, public, uploads)
  {
    hide PublicOrigin;
    if TargetOrigins(publicUrl, filesUrl) == Ok((public, uploads)) {
      assert PublicOrigin(publicUrl).value.url == public && PublicOrigin(filesUrl).value.url == uploads;
    }
  }

  lemma {:induction false} ConfigMeans(
    value: Json, tenant: int, environment: string, files: Files, path: string, digest: string)
    ensures TargetBundle(value, tenant, environment, files) == Ok((path, digest)) <==>
            Configures(value, files, tenant, environment, path, digest)
  {
    hide ReadBundle, Exports;
    if value.Str? { BundleMeans(files, files.resolve(value.s), tenant, environment, digest); }
  }

  lemma MadeParts(
    settings: map<string, Json>, project: string, tenant: int, environment: string, files: Files, t: Target)
    requires TARGET_KEYS <= settings.Keys
    ensures MakeTarget(settings, project, tenant, environment, files) == Ok(t) <==>
            && Identifier(settings["host_id"]) == Ok(t.host) && DeploymentRoot(settings["deploy_root"]) == Ok(t.root)
            && TargetOrigins(settings["public_url"], settings["files_url"]) == Ok((t.publicUrl, t.filesUrl))
            && TargetBase(settings["port_base"]) == Ok(t.portBase)
            && TargetBundle(settings["config_bundle"], tenant, environment, files) == Ok((t.bundlePath, t.digest))
            && t.instance == InstanceId(project, environment)
            && t.project == project && t.environment == environment && t.tenant == tenant
  {
    hide Identifier, DeploymentRoot, TargetOrigins, TargetBase, TargetBundle, InstanceId;
    var origins := TargetOrigins(settings["public_url"], settings["files_url"]);
    var bundle := TargetBundle(settings["config_bundle"], tenant, environment, files);
    if origins.Ok? { assert origins.value == (origins.value.0, origins.value.1); }
    if bundle.Ok? { assert bundle.value == (bundle.value.0, bundle.value.1); }
  }

  /** A target is made exactly from settings that describe it. */
  lemma {:induction false} MadeMeans(
    settings: map<string, Json>, project: string, tenant: int, environment: string, files: Files, t: Target)
    requires TARGET_KEYS <= settings.Keys
    ensures MakeTarget(settings, project, tenant, environment, files) == Ok(t) <==>
            Named(t, project, tenant, environment) && Sets(settings, files, t)
  {
    hide IsIdentifier, IsDeploymentRoot, TargetOrigins, TargetBundle, Published, Configures, MakeTarget;
    MadeParts(settings, project, tenant, environment, files, t);
    OriginsMean(settings["public_url"], settings["files_url"], t.publicUrl, t.filesUrl);
    ConfigMeans(settings["config_bundle"], tenant, environment, files, t.bundlePath, t.digest);
    assert "onward-" + project + ("-" + environment) == "onward-" + project + "-" + environment;
  }

  // ---------------------------------------------------------------- the whole inventory

  /** One project of the inventory and its two targets. */
  ghost predicate Describes(project: Json, files: Files, staging: Target, production: Target) {
    HasExactly(project, {"project_id", "tenant_id", "staging", "production"}) &&
    var fields := project.fields;
    && IsName(fields["project_id"], staging.project)
    && staging.project != "shared" && staging.project != "daypop-shared"
    && IsId(fields["tenant_id"], staging.tenant)
    && HasExactly(fields["staging"], TARGET_KEYS) && Sets(fields["staging"].fields, files, staging)
    && Named(staging, staging.project, staging.tenant, "staging")
    && HasExactly(fields["production"], TARGET_KEYS) && Sets(fields["production"].fields, files, production)
    && Named(production, staging.project, staging.tenant, "production")
  }

  /** The shared target comes first, then staging and production of the first n projects. */
  ghost predicate Lists(projects: seq<Json>, n: nat, files: Files, targets: seq<Target>)
    requires n <= |projects|
  {
    && |targets| == 2 * n + 1
    && (forall i :: 0 <= i < n ==> Describes(projects[i], files, targets[2 * i + 1], targets[2 * i + 2]))
  }

  /** No two projects share a name or a company, and none has the company of the shared target. */
  ghost predicate Disjoint(targets: seq<Target>, n: nat)
    requires |targets| == 2 * n + 1
  {
    && (forall i :: 0 <= i < n ==> targets[2 * i + 1].tenant != targets[0].tenant)
    && (forall i, j :: 0 <= i < j < n ==>
          targets[2 * i + 1].project != targets[2 * j + 1].project &&
          targets[2 * i + 1].tenant != targets[2 * j + 1].tenant)
  }

  ghost predicate SharedDescribed(fields: map<string, Json>, files: Files, t: Target)
    requires "shared_integration" in fields
  {
    var shared := fields["shared_integration"];
    && HasExactly(shared, TARGET_KEYS + {"tenant_id"}) && IsId(shared.fields["tenant_id"], t.tenant)
    && Sets(shared.fields, files, t) && Named(t, "daypop-shared", t.tenant, "integration")
  }

  ghost predicate InventoryOf(inventory: Json, files: Files, targets: seq<Target>) {
    HasExactly(inventory, {"schema_version", "shared_integration", "projects"}) &&
    var fields := inventory.fields;
    && fields["schema_version"] == Int(1) && fields["projects"].List?
    && var projects := fields["projects"].items;
    && 1 <= |projects| <= 500 && Lists(projects, |projects|, files, targets) && Disjoint(targets, |projects|)
    && SharedDescribed(fields, files, targets[0])
  }

  lemma {:induction false} ProjectAdded(plan: Plan, project: Json, files: Files, staging: Target, production: Target)
    requires Describes(project, files, staging, production)
    requires staging.project !in plan.projects && staging.tenant !in plan.tenants
    ensures AddProject(plan, project, files) ==
            Ok(Plan(plan.targets + [staging, production], plan.projects + {staging.project},
                    plan.tenants + {staging.tenant}))
  {
    hide IsIdentifier, MakeTarget, Sets, Named;
    var fields := project.fields;
    MadeMeans(fields["staging"].fields, staging.project, staging.tenant, "staging", files, staging);
    MadeMeans(fields["production"].fields, staging.project, staging.tenant, "production", files, production);
  }

  lemma {:induction false} AddedProject(
    plan: Plan, project: Json, files: Files) returns (staging: Target, production: Target)
    requires AddProject(plan, project, files).Ok?
    ensures Describes(project, files, staging, production)
    ensures staging.project !in plan.projects && staging.tenant !in plan.tenants
    ensures AddProject(plan, project, files) ==
            Ok(Plan(plan.targets + [staging, production], plan.projects + {staging.project},
                    plan.tenants + {staging.tenant}))
  {
    hide IsIdentifier, MakeTarget, Sets, Named;
    var fields := project.fields;
    var id, tenant := fields["project_id"].s, fields["tenant_id"].n;
    staging := MakeTarget(fields["staging"].fields, id, tenant, "staging", files).value;
    production := MakeTarget(fields["production"].fields, id, tenant, "production", files).value;
    MadeMeans(fields["staging"].fields, id, tenant, "staging", files, staging);
    MadeMeans(fields["production"].fields, id, tenant, "production", files, production);
    NamesOf(staging, id, tenant, "staging");
  }

  lemma NamesOf(t: Target, project: string, tenant: int, environment: string)
    requires Named(t, project, tenant, environment)
    ensures t.project == project && t.tenant == tenant
  {
  }

  /** The plan of the shared target and the first n projects. */
  ghost function Collected(targets: seq<Target>, n: nat): Plan
    requires |targets| == 2 * n + 1
  {
    Plan(targets, set i | 0 <= i < n :: targets[2 * i + 1].project,
         {targets[0].tenant} + set i | 0 <= i < n :: targets[2 * i + 1].tenant)
  }

  /** A name and a company that none of the first n projects has, and not the shared company. */
  ghost predicate NewTo(targets: seq<Target>, n: nat, t: Target)
    requires |targets| == 2 * n + 1
  {
    && t.tenant != targets[0].tenant
    && (forall i :: 0 <= i < n ==> targets[2 * i + 1].project != t.project && targets[2 * i + 1].tenant != t.tenant)
  }

  lemma {:induction false} CollectedNew(targets: seq<Target>, n: nat, t: Target)
    requires |targets| == 2 * n + 1
    ensures NewTo(targets, n, t) <==>
            t.project !in Collected(targets, n).projects && t.tenant !in Collected(targets, n).tenants
  {
  }

  lemma {:induction false} DisjointNext(targets: seq<Target>, n: nat, staging: Target, production: Target)
    requires |targets| == 2 * n + 1
    ensures Disjoint(targets + [staging, production], n + 1) <==> Disjoint(targets, n) && NewTo(targets, n, staging)
  {
    var longer := targets + [staging, production];
    assert longer[2 * n + 1] == staging && longer[0] == targets[0];
    forall i | 0 <= i < n ensures longer[2 * i + 1] == targets[2 * i + 1] {
    }
    if Disjoint(longer, n + 1) {
      forall i | 0 <= i < n
        ensures targets[2 * i + 1].project != staging.project && targets[2 * i + 1].tenant != staging.tenant
      {
        assert longer[2 * i + 1].project != longer[2 * n + 1].project &&
               longer[2 * i + 1].tenant != longer[2 * n + 1].tenant;
      }
    }
  }

  lemma {:induction false} CollectedSets(targets: seq<Target>, n: nat, staging: Target, production: Target)
    requires |targets| == 2 * n + 1
    ensures var longer := targets + [staging, production];
            Collected(longer, n + 1) ==
            Plan(longer, Collected(targets, n).projects + {staging.project},
                 Collected(targets, n).tenants + {staging.tenant})
  {
    var longer := targets + [staging, production];
    assert longer[2 * n + 1] == staging && longer[0] == targets[0];
    forall i | 0 <= i < n ensures longer[2 * i + 1] == targets[2 * i + 1] {
    }
    assert Collected(longer, n + 1).projects == Collected(targets, n).projects + {staging.project};
    assert Collected(longer, n + 1).tenants == Collected(targets, n).tenants + {staging.tenant};
  }

  lemma {:induction false} CollectedNext(targets: seq<Target>, n: nat, staging: Target, production: Target)
    requires |targets| == 2 * n + 1
    ensures var longer := targets + [staging, production];
            && Collected(longer, n + 1) ==
               Plan(longer, Collected(targets, n).projects + {staging.project},
                    Collected(targets, n).tenants + {staging.tenant})
            && (Disjoint(longer, n + 1) <==>
                && Disjoint(targets, n) && staging.project !in Collected(targets, n).projects
                && staging.tenant !in Collected(targets, n).tenants)
  {
    hide Collected, Disjoint, NewTo;
    CollectedSets(targets, n, staging, production);
    DisjointNext(targets, n, staging, production);
    CollectedNew(targets, n, staging);
  }

  lemma {:induction false} ListsNext(
    projects: seq<Json>, n: nat, files: Files, targets: seq<Target>, staging: Target, production: Target)
    requires n < |projects| && |targets| == 2 * n + 1
    ensures Lists(projects, n + 1, files, targets + [staging, production]) <==>
            Lists(projects, n, files, targets) && Describes(projects[n], files, staging, production)
  {
    hide Describes;
    var longer := targets + [staging, production];
    assert longer[2 * n + 1] == staging && longer[2 * n + 2] == production;
    forall i | 0 <= i < n ensures longer[2 * i + 1] == targets[2 * i + 1] && longer[2 * i + 2] == targets[2 * i + 2] {
    }
    if Lists(projects, n + 1, files, longer) {
      assert Describes(projects[n], files, longer[2 * n + 1], longer[2 * n + 2]);
    }
  }

  lemma {:induction false} ProjectsFound(shared: Target, projects: seq<Json>, n: nat, files: Files)
    requires n <= |projects|
    requires AddProjects(Plan([shared], {}, {shared.tenant}), projects, n, files).Ok?
    ensures var plan := AddProjects(Plan([shared], {}, {shared.tenant}), projects, n, files).value;
            && Lists(projects, n, files, plan.targets) && Disjoint(plan.targets, n) && plan.targets[0] == shared
            && plan == Collected(plan.targets, n)
  {
    hide AddProject, Describes, Disjoint, Lists, Collected;
    var start := Plan([shared], {}, {shared.tenant});
    if n == 0 {
      FirstCollected(shared, projects, files);
    } else {
      ProjectsFound(shared, projects, n - 1, files);
      var before := AddProjects(start, projects, n - 1, files).value;
      ListsLength(projects, n - 1, files, before.targets);
      var staging, production := AddedProject(before, projects[n - 1], files);
      CollectedNext(before.targets, n - 1, staging, production);
      ListsNext(projects, n - 1, files, before.targets, staging, production);
    }
  }

  lemma ListsLength(projects: seq<Json>, n: nat, files: Files, targets: seq<Target>)
    requires n <= |projects| && Lists(projects, n, files, targets)
    ensures |targets| == 2 * n + 1
  {
  }

  lemma FirstCollected(shared: Target, projects: seq<Json>, files: Files)
    ensures Lists(projects, 0, files, [shared]) && Disjoint([shared], 0)
    ensures Collected([shared], 0) == Plan([shared], {}, {shared.tenant})
  {
  }

  lemma {:induction false} ProjectsPass(projects: seq<Json>, n: nat, files: Files, targets: seq<Target>)
    requires n <= |projects| && Lists(projects, n, files, targets) && Disjoint(targets, n)
    ensures AddProjects(Plan([targets[0]], {}, {targets[0].tenant}), projects, n, files) == Ok(Collected(targets, n))
  {
    hide AddProject, Describes, Disjoint, Lists, Collected;
    ListsLength(projects, n, files, targets);
    if n == 0 {
      FirstCollected(targets[0], projects, files);
      assert targets == [targets[0]];
    } else {
      var m := n - 1;
      var before, staging, production := targets[..2 * m + 1], targets[2 * m + 1], targets[2 * m + 2];
      assert targets == before + [staging, production];
      ListsNext(projects, m, files, before, staging, production);
      CollectedNext(before, m, staging, production);
      ProjectsPass(projects, m, files, before);
      ProjectAdded(Collected(before, m), projects[m], files, staging, production);
      CollectedTargets(before, m);
    }
  }

  lemma CollectedTargets(targets: seq<Target>, n: nat)
    requires |targets| == 2 * n + 1
    ensures Collected(targets, n).targets == targets
  {
  }

  lemma {:induction false} SharedMeans(inventory: Json, files: Files, shared: Target, projects: seq<Json>)
    ensures SharedPlan(inventory, files) == Ok((Plan([shared], {}, {shared.tenant}), projects)) <==>
            && HasExactly(inventory, {"schema_version", "shared_integration", "projects"})
            && inventory.fields["schema_version"] == Int(1) && inventory.fields["projects"] == List(projects)
            && 1 <= |projects| <= 500 && SharedDescribed(inventory.fields, files, shared)
  {
    hide MakeTarget, Sets, Named;
    if HasExactly(inventory, {"schema_version", "shared_integration", "projects"}) {
      var value := inventory.fields["shared_integration"];
      if HasExactly(value, TARGET_KEYS + {"tenant_id"}) && value.fields["tenant_id"].Int? {
        var tenant := value.fields["tenant_id"].n;
        MadeMeans(value.fields, "daypop-shared", tenant, "integration", files, shared);
        MadeMeans(value.fields, "daypop-shared", shared.tenant, "integration", files, shared);
        if Named(shared, "daypop-shared", tenant, "integration") {
          NamesOf(shared, "daypop-shared", tenant, "integration");
        }
      }
    }
  }

  /** An inventory is expanded to a list of targets exactly when it describes that list. */
  lemma {:induction false} ExpandMeans(inventory: Json, files: Files, targets: seq<Target>)
    ensures Expand(inventory, files) == Ok(targets) <==> InventoryOf(inventory, files, targets)
  {
    hide SharedPlan, AddProjects, Lists, Disjoint, SharedDescribed, Collected;
    if Expand(inventory, files) == Ok(targets) {
      var start := SharedPlan(inventory, files).value;
      var shared := SharedTarget(inventory, files);
      assert start == (start.0, start.1);
      SharedMeans(inventory, files, shared, start.1);
      ProjectsFound(shared, start.1, |start.1|, files);
    }
    if InventoryOf(inventory, files, targets) {
      var projects := inventory.fields["projects"].items;
      ListsLength(projects, |projects|, files, targets);
      SharedMeans(inventory, files, targets[0], projects);
      ProjectsPass(projects, |projects|, files, targets);
      CollectedTargets(targets, |projects|);
    }
  }

  lemma SharedTarget(inventory: Json, files: Files) returns (shared: Target)
    requires SharedPlan(inventory, files).Ok?
    ensures SharedPlan(inventory, files).value.0 == Plan([shared], {}, {shared.tenant})
  {
    hide PublicOrigin, IsIdentifier, IsDeploymentRoot, TargetBundle, InstanceId;
    shared := SharedPlan(inventory, files).value.0.targets[0];
  }

  /** load_targets returns a list of targets exactly when the file is small enough and describes that isolated list. */
  lemma {:induction false} AcceptedMeans(source: Document, files: Files, targets: seq<Target>)
    ensures Accepted(source, files) && Expand(source.json, files) == Ok(targets) <==>
            source.size <= 1048576 && InventoryOf(source.json, files, targets) && Isolated(targets)
  {
    hide Expand, InventoryOf, Isolated;
    ExpandMeans(source.json, files, targets);
  }
}
