/** What an accepted inventory guarantees about any two of its targets. */
module Isolation {
  import opened Text
  import opened PlanChecks
  import opened Inventory

  ghost predicate Under(path: string, root: string) {
    path == root || StartsWith(path, root + "/")
  }

  lemma {:induction false} SharedPathOverlaps(path: string, one: string, two: string)
    requires Under(path, one) && Under(path, two)
    ensures RootsOverlap(one, two)
  {
    if |one| < |two| {
      PrefixOfPrefix(path, one + "/", two);
    } else if |two| < |one| {
      PrefixOfPrefix(path, two + "/", one);
    } else {
      assert path[..|one|] == one && path[..|two|] == two;
    }
  }

  /** Two roots overlap exactly when some path lies under both. */
  lemma {:induction false} OverlapMeansSharedPath(one: string, two: string)
    ensures RootsOverlap(one, two) <==> exists path :: Under(path, one) && Under(path, two)
  {
    if RootsOverlap(one, two) {
      var path := if |one| >= |two| then one else two;
      assert Under(path, one) && Under(path, two);
    }
    if path :| Under(path, one) && Under(path, two) {
      SharedPathOverlaps(path, one, two);
    }
  }

  lemma {:induction false} PrefixOfPrefix(path: string, short: string, long: string)
    requires |short| <= |long| && StartsWith(path, short) && StartsWith(path, long)
    ensures StartsWith(long, short)
  {
    assert forall i :: 0 <= i < |short| ==> short[i] == path[i] && long[i] == path[i];
  }

  lemma {:induction false} PortsApart(a: int, b: int)
    ensures Ports(a) * Ports(b) == {} <==> a + PORT_COUNT <= b || b + PORT_COUNT <= a
  {
    if a <= b < a + PORT_COUNT {
      assert PortAt(a, b - a) == b == PortAt(b, 0);
      assert b in Ports(a) * Ports(b);
    } else if b <= a < b + PORT_COUNT {
      assert PortAt(b, a - b) == a == PortAt(a, 0);
      assert a in Ports(a) * Ports(b);
    }
  }

  // ---------------------------------------------------------------- what every target satisfies

  ghost predicate ValidTarget(t: Target) {
    && IsIdentifier(t.host) && IsDeploymentRoot(t.root) && 0 < t.tenant <= MAX_ID
    && 1024 <= t.portBase && t.portBase + PORT_COUNT - 1 <= 65535
    && PublicOrigin(Str(t.publicUrl)) == Ok(Origin(t.publicUrl, Hostname(t.publicUrl)))
    && PublicOrigin(Str(t.filesUrl)) == Ok(Origin(t.filesUrl, Hostname(t.filesUrl)))
    && Hostname(t.publicUrl) != Hostname(t.filesUrl)
    && t.instance == InstanceId(t.project, t.environment)
    && (t.bundlePath == "" <==> t.digest == "") && (t.digest != "" ==> IsHexDigest(t.digest))
  }

  ghost predicate SharedIdentity(t: Target) {
    t.environment == "integration" && t.project == "daypop-shared"
  }

  ghost predicate ProjectIdentity(t: Target) {
    && (t.environment == "staging" || t.environment == "production")
    && IsIdentifier(t.project) && t.project != "daypop-shared" && t.project != "shared"
  }

  lemma {:induction false} OriginOf(value: Json)
    requires PublicOrigin(value).Ok?
    ensures var url := PublicOrigin(value).value.url;
            PublicOrigin(value).value.host == Hostname(url) && PublicOrigin(Str(url)) == Ok(Origin(url, Hostname(url)))
  {
    hide PublicOrigin, Hostname;
    PublicOriginIsStable(value);
  }

  lemma {:induction false} BundleDigestIsHex(files: Files, path: string, tenant: int, environment: string)
    requires ReadBundle(files, path, tenant, environment).Ok?
    ensures path in files.bundles && IsHexDigest(ReadBundle(files, path, tenant, environment).value)
    ensures files.bundles[path].size <= BUNDLE_LIMIT
    ensures FileDigest(files.bundles[path], tenant, environment) == ReadBundle(files, path, tenant, environment)
  {
  }

  lemma {:induction false} MadeTargetIsValid(
    settings: map<string, Json>, project: string, tenant: int, environment: string, files: Files)
    requires TARGET_KEYS <= settings.Keys && 0 < tenant <= MAX_ID
    requires MakeTarget(settings, project, tenant, environment, files).Ok?
    requires forall path :: files.resolve(path) != ""
    ensures var t := MakeTarget(settings, project, tenant, environment, files).value;
            && ValidTarget(t) && t.project == project && t.environment == environment && t.tenant == tenant
            && (t.digest != "" ==> ReadBundle(files, t.bundlePath, tenant, environment) == Ok(t.digest))
  {
    hide PublicOrigin, Hostname, IsHexDigest, ReadBundle, InstanceId;
    OriginOf(settings["public_url"]);
    OriginOf(settings["files_url"]);
    var path := settings["config_bundle"];
    if path.s != "" {
      BundleDigestIsHex(files, files.resolve(path.s), tenant, environment);
      DigestNotEmpty(ReadBundle(files, files.resolve(path.s), tenant, environment).value);
    }
  }

  lemma DigestNotEmpty(digest: string)
    requires IsHexDigest(digest)
    ensures digest != ""
  {
  }

  // ---------------------------------------------------------------- instance names

  lemma {:induction false} ProjectInstanceNotShared(project: string, environment: string)
    requires environment == "staging" || environment == "production"
    ensures InstanceId(project, environment) != "onward-shared-integration"
  {
    var id, shared := InstanceId(project, environment), "onward-shared-integration";
    if environment == "staging" {
      assert id[|id| - 1] == 'g' && shared[|shared| - 1] == 'n';
    } else {
      assert id[|id| - 11] == '-' && shared[|shared| - 11] == 'i';
    }
  }

  lemma {:induction false} InstanceIdInjective(p: string, e: string, p': string, e': string)
    requires e == "staging" || e == "production"
    requires e' == "staging" || e' == "production"
    requires InstanceId(p, e) == InstanceId(p', e')
    ensures p == p' && e == e'
  {
    var id := InstanceId(p, e);
    assert e == "staging" ==> id[|id| - 1] == 'g';
    assert e == "production" ==> id[|id| - 1] == 'n';
    assert e' == "staging" ==> id[|id| - 1] == 'g';
    assert e' == "production" ==> id[|id| - 1] == 'n';
    assert e == e';
    var n := |id| - |"-" + e|;
    assert id[|"onward-"|..n] == p && id[|"onward-"|..n] == p';
  }

  /** The plan so far: valid targets with pairwise distinct names, projects and companies accounted for. */
  ghost predicate PlanOk(plan: Plan, files: Files) {
    && |plan.targets| > 0
    && (forall i :: 0 <= i < |plan.targets| ==> TargetOk(plan.targets[i], files))
    && SharedIdentity(plan.targets[0])
    && (forall i :: 1 <= i < |plan.targets| ==>
          ProjectIdentity(plan.targets[i]) && plan.targets[i].project in plan.projects)
    && (forall i, j :: 0 <= i < j < |plan.targets| ==> plan.targets[i].instance != plan.targets[j].instance)
  }

  ghost predicate TargetOk(t: Target, files: Files) {
    ValidTarget(t) && (t.digest != "" ==> ReadBundle(files, t.bundlePath, t.tenant, t.environment) == Ok(t.digest))
  }

  lemma {:induction false} NewInstance(plan: Plan, t: Target, files: Files)
    requires PlanOk(plan, files) && ProjectIdentity(t) && t.instance == InstanceId(t.project, t.environment)
    requires t.project !in plan.projects
    ensures forall i :: 0 <= i < |plan.targets| ==> plan.targets[i].instance != t.instance
  {
    hide InstanceId, IsIdentifier;
    forall i | 0 <= i < |plan.targets| ensures plan.targets[i].instance != t.instance {
      var u := plan.targets[i];
      assert TargetOk(u, files);
      if i == 0 {
        SharedName(u);
        ProjectInstanceNotShared(t.project, t.environment);
      } else if u.instance == t.instance {
        InstanceIdInjective(u.project, u.environment, t.project, t.environment);
      }
    }
  }

  lemma SharedName(t: Target)
    requires SharedIdentity(t) && t.instance == InstanceId(t.project, t.environment)
    ensures t.instance == "onward-shared-integration"
  {
  }

  lemma {:induction false} AddedProjectOk(plan: Plan, project: Json, files: Files)
    requires PlanOk(plan, files) && AddProject(plan, project, files).Ok?
    requires forall path :: files.resolve(path) != ""
    ensures PlanOk(AddProject(plan, project, files).value, files)
  {
    hide MakeTarget, InstanceId, ValidTarget, IsIdentifier, ReadBundle;
    var fields := project.fields;
    var id, tenant := fields["project_id"].s, fields["tenant_id"].n;
    MadeTargetIsValid(fields["staging"].fields, id, tenant, "staging", files);
    MadeTargetIsValid(fields["production"].fields, id, tenant, "production", files);
    var staging := MakeTarget(fields["staging"].fields, id, tenant, "staging", files).value;
    var production := MakeTarget(fields["production"].fields, id, tenant, "production", files).value;
    NamesOf(staging);
    NamesOf(production);
    NewInstance(plan, staging, files);
    NewInstance(plan, production, files);
    if staging.instance == production.instance {
      InstanceIdInjective(id, "staging", id, "production");
    }
  }

  lemma NamesOf(t: Target)
    requires ValidTarget(t)
    ensures t.instance == InstanceId(t.project, t.environment)
  {
  }

  lemma {:induction false} AddedProjectsOk(plan: Plan, projects: seq<Json>, n: nat, files: Files)
    requires PlanOk(plan, files) && n <= |projects| && AddProjects(plan, projects, n, files).Ok?
    requires forall path :: files.resolve(path) != ""
    ensures PlanOk(AddProjects(plan, projects, n, files).value, files)
  {
    hide PlanOk, AddProject;
    if n > 0 {
      AddedProjectsOk(plan, projects, n - 1, files);
      AddedProjectOk(AddProjects(plan, projects, n - 1, files).value, projects[n - 1], files);
    }
  }

  lemma {:induction false} SharedPlanOk(inventory: Json, files: Files)
    requires SharedPlan(inventory, files).Ok?
    requires forall path :: files.resolve(path) != ""
    ensures PlanOk(SharedPlan(inventory, files).value.0, files)
  {
    hide MakeTarget, ValidTarget, ReadBundle;
    var shared := inventory.fields["shared_integration"].fields;
    MadeTargetIsValid(shared, "daypop-shared", shared["tenant_id"].n, "integration", files);
  }

  lemma {:induction false} ExpandedOk(inventory: Json, files: Files) returns (plan: Plan)
    requires Expand(inventory, files).Ok?
    requires forall path :: files.resolve(path) != ""
    ensures PlanOk(plan, files) && plan.targets == Expand(inventory, files).value
  {
    hide PlanOk, AddProjects, SharedPlan;
    SharedPlanOk(inventory, files);
    var (start, projects) := SharedPlan(inventory, files).value;
    AddedProjectsOk(start, projects, |projects|, files);
    plan := AddProjects(start, projects, |projects|, files).value;
  }

  // ---------------------------------------------------------------- the guarantee

  ghost predicate KeptApart(one: Target, two: Target) {
    && one.instance != two.instance
    && {Hostname(one.publicUrl), Hostname(one.filesUrl)} !! {Hostname(two.publicUrl), Hostname(two.filesUrl)}
    && (one.host == two.host ==>
          && (one.portBase + PORT_COUNT <= two.portBase || two.portBase + PORT_COUNT <= one.portBase)
          && forall path :: !(Under(path, one.root) && Under(path, two.root)))
  }

  lemma {:induction false} HostnameAt(targets: seq<Target>, i: nat)
    requires i < |targets|
    ensures |Hostnames(targets)| == 2 * |targets|
    ensures Hostnames(targets)[2 * i] == Hostname(targets[i].publicUrl)
    ensures Hostnames(targets)[2 * i + 1] == Hostname(targets[i].filesUrl)
  {
    hide Hostname;
    if |targets| > 1 {
      HostnameAt(targets[..|targets| - 1], if i < |targets| - 1 then i else 0);
    }
  }

  /** An accepted inventory keeps any two targets apart, and every target's ports are unprivileged and valid. */
  lemma {:induction false} AcceptedTargetsAreIsolated(inventory: Json, files: Files, i: nat, j: nat)
    requires Expand(inventory, files).Ok? && Isolated(Expand(inventory, files).value)
    requires forall path :: files.resolve(path) != ""
    requires i < j < |Expand(inventory, files).value|
    ensures KeptApart(Expand(inventory, files).value[i], Expand(inventory, files).value[j])
    ensures ValidTarget(Expand(inventory, files).value[i]) && ValidTarget(Expand(inventory, files).value[j])
  {
    hide Hostname, Expand, Hostnames, ValidTarget, Ports, RootsOverlap;
    var plan := ExpandedOk(inventory, files);
    var targets := plan.targets;
    var one, two := targets[i], targets[j];
    assert TargetOk(one, files) && TargetOk(two, files);
    HostnameAt(targets, i);
    HostnameAt(targets, j);
    assert ClearOf(two, targets[..j]);
    assert targets[..j][i] == one;
    assert !Clash(two, one);
    PortsApart(two.portBase, one.portBase);
    OverlapMeansSharedPath(two.root, one.root);
  }

  // ---------------------------------------------------------------- exactly which lists are isolated

  /** No path lies in both directories. */
  ghost predicate NothingShared(one: string, two: string) {
    forall path :: !(Under(path, one) && Under(path, two))
  }

  /** On one host, nine ports each without a common one and no path in both directories. */
  ghost predicate Roomy(one: Target, two: Target) {
    one.host == two.host ==>
      (one.portBase + 9 <= two.portBase || two.portBase + 9 <= one.portBase) && NothingShared(one.root, two.root)
  }

  /** The four hostnames of two targets. */
  ghost predicate NamesApart(one: Target, two: Target) {
    && Hostname(one.publicUrl) != Hostname(two.publicUrl) && Hostname(one.publicUrl) != Hostname(two.filesUrl)
    && Hostname(one.filesUrl) != Hostname(two.publicUrl) && Hostname(one.filesUrl) != Hostname(two.filesUrl)
  }

  lemma {:induction false} ClashMeans(one: Target, two: Target)
    ensures !Clash(one, two) <==> Roomy(one, two)
  {
    hide Ports, RootsOverlap, Under;
    PortsApart(one.portBase, two.portBase);
    OverlapMeansSharedPath(one.root, two.root);
  }

  ghost predicate OwnNamesApart(t: Target) {
    Hostname(t.publicUrl) != Hostname(t.filesUrl)
  }

  lemma {:induction false} NamesMean(targets: seq<Target>)
    ensures Distinct(Hostnames(targets)) <==>
            && (forall i :: 0 <= i < |targets| ==> OwnNamesApart(targets[i]))
            && (forall i, j :: 0 <= i < j < |targets| ==> NamesApart(targets[i], targets[j]))
  {
    hide Hostname, Hostnames;
    var names := Hostnames(targets);
    forall i | 0 <= i < |targets|
      ensures |names| == 2 * |targets|
      ensures 2 * i + 1 < |names| && names[2 * i] == Hostname(targets[i].publicUrl)
      ensures 2 * i + 1 < |names| && names[2 * i + 1] == Hostname(targets[i].filesUrl)
    {
      HostnameAt(targets, i);
    }
    if |targets| == 0 { NoNames(targets); } else { HostnameAt(targets, 0); }
    assert |names| == 2 * |targets|;
    if Distinct(names) {
      forall i | 0 <= i < |targets| ensures OwnNamesApart(targets[i]) { assert names[2 * i] != names[2 * i + 1]; }
      forall i, j | 0 <= i < j < |targets| ensures NamesApart(targets[i], targets[j]) {
        assert names[2 * i] != names[2 * j] && names[2 * i] != names[2 * j + 1];
        assert names[2 * i + 1] != names[2 * j] && names[2 * i + 1] != names[2 * j + 1];
      }
    }
    if (forall i :: 0 <= i < |targets| ==> OwnNamesApart(targets[i])) &&
       (forall i, j :: 0 <= i < j < |targets| ==> NamesApart(targets[i], targets[j])) {
      forall a, b | 0 <= a < b < |names| ensures names[a] != names[b] {
        var i, j := a / 2, b / 2;
        assert a == 2 * i || a == 2 * i + 1;
        assert b == 2 * j || b == 2 * j + 1;
        if i < j { assert NamesApart(targets[i], targets[j]); } else { assert OwnNamesApart(targets[i]); }
      }
    }
  }

  lemma NoNames(targets: seq<Target>)
    requires |targets| == 0
    ensures Hostnames(targets) == []
  {
  }

  /** A list is isolated exactly when all hostnames differ and any two targets on one host leave each other room. */
  lemma {:induction false} IsolatedMeans(targets: seq<Target>)
    ensures Isolated(targets) <==>
            && (forall i :: 0 <= i < |targets| ==> OwnNamesApart(targets[i]))
            && (forall i, j :: 0 <= i < j < |targets| ==>
                  NamesApart(targets[i], targets[j]) && Roomy(targets[j], targets[i]))
  {
    hide Hostnames, Clash, Roomy, NamesApart, OwnNamesApart;
    NamesMean(targets);
    forall i | 0 <= i < |targets|
      ensures ClearOf(targets[i], targets[..i]) <==> forall h :: 0 <= h < i ==> Roomy(targets[i], targets[h])
    {
      forall h | 0 <= h < i ensures !Clash(targets[i], targets[..i][h]) <==> Roomy(targets[i], targets[h]) {
        ClashMeans(targets[i], targets[h]);
      }
    }
  }
}
