/**
 A rendered instance package (render in scripts/environmentctl.py) and the independent inspection it
 must pass before anything is deployed (inspect_package in scripts/deploy-environment.py).
 */
module Package {
  import opened Wrappers
  import opened Text
  import opened PlanChecks
  import opened Inventory
  import opened JsonSize
  import opened Isolation
  import opened EnvText
  import opened Environment
  import opened Provenance
  import opened AttestationSize

  /** The files of a package directory; `manifestSize` is the size in bytes of the printed manifest. */
  datatype PackageFiles = PackageFiles(manifest: Json, manifestSize: nat, envText: string, provenance: Option<Document>,
                                       bundle: Option<Document>)

  datatype Report = Report(instance: string, project: string, environment: string, tenant: int, host: string,
                           root: string, publicUrl: string, configStatus: string)

  const SIZE_LIMIT: nat := 131072

  // ---------------------------------------------------------------- writing

  function PortNumbers(base: int): Json {
    Object(map["APP_PORT" := Int(base), "POSTGRES_PORT" := Int(base + 1), "REDIS_PORT" := Int(base + 2),
               "QDRANT_HTTP_PORT" := Int(base + 3), "QDRANT_GRPC_PORT" := Int(base + 4), "MINIO_PORT" := Int(base + 5),
               "MINIO_CONSOLE_PORT" := Int(base + 6), "PROMETHEUS_PORT" := Int(base + 7),
               "ALERTMANAGER_PORT" := Int(base + 8)])
  }

  function TextObject(pairs: seq<Pair>): Json {
    Object(map i | 0 <= i < |pairs| && LastFor(pairs, i) :: pairs[i].key := Str(pairs[i].value))
  }

  /** The pair that a dictionary keeps for its key. */
  predicate LastFor(pairs: seq<Pair>, i: nat)
    requires i < |pairs|
  {
    forall j :: i < j < |pairs| ==> pairs[j].key != pairs[i].key
  }

  /** The manifest holds the target without its private bundle path. */
  function Manifest(t: Target): Json {
    Object(map["schema_version" := Int(1), "instance_id" := Str(t.instance), "deployment_project_id" := Str(t.project),
               "environment" := Str(t.environment), "tenant_id" := Int(t.tenant), "host_id" := Str(t.host),
               "deploy_root" := Str(t.root), "public_url" := Str(t.publicUrl), "files_url" := Str(t.filesUrl),
               "port_base" := Int(t.portBase), "ports" := PortNumbers(t.portBase),
               "paths" := TextObject(PathPairs(t.root)),
               "config_digest" := Str(t.digest),
               "config_status" := Str(if t.digest != "" then "pending_preflight" else "pending_config")])
  }

  /** The manifest is printed and closed by a line break. */
  ghost function ManifestSize(t: Target): nat {
    PrintedSize(Manifest(t), 0) + 1
  }

  /** The attestation is printed in the same way. */
  ghost function Attestation(document: Json): Document {
    Document(PrintedSize(document, 0) + 1, document)
  }

  /** render for one target; `bundle` is the exported configuration as it is read again while rendering. */
  ghost function Render(
    t: Target, template: string, secrets: seq<string>, now: string, bundle: Option<Document>): Result<PackageFiles>
    requires 0 <= t.tenant && 0 <= t.portBase && |secrets| == SECRET_COUNT
  {
    var _ :- Require(t.bundlePath == "" ||
                     (bundle.Some? && FileDigest(bundle.value, t.tenant, t.environment) == Ok(t.digest)),
                     "configuration export changed during preparation");
    var provenance :- if NonProduction(t.environment)
                      then (var doc :- DefaultSynthetic(t.environment, now); Ok(Some(Attestation(doc)))) else Ok(None);
    var values :- EnvironmentValues(t, template, secrets);
    Ok(PackageFiles(Manifest(t), ManifestSize(t), EnvironmentText(values), provenance,
                    if t.bundlePath == "" then None else bundle))
  }

  // ---------------------------------------------------------------- inspecting

  function Field(fields: map<string, Json>, key: string): Json {
    if key in fields then fields[key] else Null
  }

  /** PATH_SUFFIXES, applied to a root. */
  function ExpectedPaths(root: string): seq<Pair> {
    [ Pair("RHD_DATA_DIR", root + "/volumes"), Pair("RHD_BACKUP_DIR", root + "/backups"),
      Pair("RHD_STATE_DIR", root + "/state"), Pair("RHD_METRICS_DIR", root + "/metrics"),
      Pair("RHD_CONFIG_FILE", root + "/remotehelpdesk.yaml"),
      Pair("RHD_PROJECT_CONFIG_DIR", root + "/project-config"),
      Pair("RHD_PROJECT_CONFIG_FILE", root + "/project-config/current.json"),
      Pair("RHD_PROJECT_SECRET_DIR", root + "/project-secrets"),
      Pair("RHD_TEST_DATA_PROVENANCE_FILE", root + "/data-provenance.json"),
      Pair("RHD_ALERTMANAGER_CONFIG_FILE", root + "/alertmanager.yml"),
      Pair("RHD_RESTORE_DATA_DIR", root + "/backups") ]
  }

  function ExpectedIdentity(
    instance: string, project: string, environment: string, tenant: nat, public: string, uploads: string): seq<Pair>
  {
    [ Pair("RHD_INSTANCE_ID", instance), Pair("RHD_DEPLOYMENT_PROJECT_ID", project), Pair("RHD_PROJECT_NAME", instance),
      Pair("RHD_NETWORK_NAME", instance + "_1panel"), Pair("RHD_PROJECT_ENVIRONMENT", environment),
      Pair("RHD_PROJECT_CONFIG_TENANT_ID", Decimal(tenant)), Pair("RHD_PROJECT_CONFIG_REQUIRED", "1"),
      Pair("RHD_PUBLIC_URL", public), Pair("MINIO_PUBLIC_ENDPOINT", uploads), Pair("IMAGE_NAME", instance) ]
  }

  predicate Matches(env: map<string, string>, expected: seq<Pair>) {
    forall i :: 0 <= i < |expected| ==> expected[i].key in env && env[expected[i].key] == expected[i].value
  }

  /** read_environment, including its size limit. */
  function ReadPackageEnvironment(text: string): Result<map<string, string>> {
    if Utf8Size(text) > SIZE_LIMIT then Refused("environment file is too large")
    else ReadLines(SplitLines(text), |SplitLines(text)|)
  }

  function InspectIdentity(fields: map<string, Json>, instance: string, host: string): Result<(string, string)> {
    var _ :- Require(Field(fields, "schema_version") == Int(1), "unsupported instance manifest");
    var _ :- Require(Field(fields, "instance_id") == Str(instance), "selected instance does not match this package");
    var id :- Identifier(Field(fields, "host_id"));
    var _ :- Require(id == host, "selected host does not match this instance");
    var project :- Identifier(Field(fields, "deployment_project_id"));
    InspectNames(instance, project, Field(fields, "environment"))
  }

  /** The names of the shared instance, or of a project instance. */
  function InspectNames(instance: string, project: string, environment: Json): Result<(string, string)> {
    if environment == Str("integration") then
      var _ :- Require(project == "daypop-shared" && instance == "onward-shared-integration",
                       "integration must use the shared instance identity");
      Ok((project, "integration"))
    else if environment == Str("staging") || environment == Str("production") then
      var _ :- Require(project != "daypop-shared" && project != "shared" &&
                       instance == "onward-" + project + ("-" + environment.s),
                       "project instance identity is inconsistent");
      Ok((project, environment.s))
    else
      Refused("unsupported deployment environment")
  }

  function InspectBundle(
    bundle: Option<Document>, tenant: int, environment: string, env: map<string, string>, allowDigestSync: bool)
    : Result<string>
  {
    var pinned := if "RHD_PROJECT_CONFIG_DIGEST" in env then env["RHD_PROJECT_CONFIG_DIGEST"] else "";
    match bundle
    case Some(document) =>
      var digest :- FileDigest(document, tenant, environment);
      var matches := "RHD_PROJECT_CONFIG_DIGEST" in env && digest == pinned;
      var _ :- Require(matches || allowDigestSync, "configuration bundle and .env digest differ");
      Ok(if matches then "pending_preflight" else "pending_digest_sync")
    case None =>
      var _ :- Require(pinned == "", "pinned configuration bundle is missing");
      Ok("pending_config")
  }

  /** What the manifest says about company, directory, ports and origins. */
  datatype Layout = Layout(tenant: nat, root: string, base: nat, public: Origin, uploads: Origin)

  predicate SameLayout(fields: map<string, Json>, base: int, root: string) {
    Field(fields, "ports") == PortNumbers(base) && Field(fields, "paths") == TextObject(ExpectedPaths(root))
  }

  function InspectPlace(fields: map<string, Json>): Result<(nat, string, nat)> {
    var tenant :- PositiveInt(Field(fields, "tenant_id"), MAX_ID);
    var root :- DeploymentRoot(Field(fields, "deploy_root"));
    var base :- PositiveInt(Field(fields, "port_base"), 65535 - PORT_COUNT + 1);
    var _ :- Require(base >= 1024, "instance ports must be unprivileged");
    var _ :- Require(SameLayout(fields, base, root),
                     "manifest ports or directories do not match the isolated instance layout");
    Ok((tenant, root, base))
  }

  function InspectLayout(fields: map<string, Json>): Result<Layout> {
    var (tenant, root, base) :- InspectPlace(fields);
    var (public, uploads) :- InspectOrigins(fields);
    Ok(Layout(tenant, root, base, public, uploads))
  }

  function InspectOrigins(fields: map<string, Json>): Result<(Origin, Origin)> {
    var public :- PublicOrigin(Field(fields, "public_url"));
    var uploads :- PublicOrigin(Field(fields, "files_url"));
    var _ :- Require(public.host != uploads.host, "application and files must have separate hostnames");
    Ok((public, uploads))
  }

  function InspectSettings(
    layout: Layout, instance: string, project: string, environment: string, env: map<string, string>): Result<()>
  {
    var identity := ExpectedIdentity(
      instance, project, environment, layout.tenant, layout.public.url, layout.uploads.url);
    Require(Matches(env, identity) && Matches(env, ExpectedPaths(layout.root)) &&
            Matches(env, PortPairs(layout.base)) && Matches(env, BindPairs()),
            "a setting differs from the selected instance manifest")
  }

  /** inspect_package, apart from the checks on file types and links. */
  function Inspect(package: PackageFiles, instance: string, host: string, allowDigestSync: bool): Result<Report> {
    var _ :- Require(package.manifestSize <= SIZE_LIMIT, "JSON file exceeds its size limit");
    var _ :- Require(package.manifest.Object?, "unsupported instance manifest");
    var fields := package.manifest.fields;
    var (project, environment) :- InspectIdentity(fields, instance, host);
    var layout :- InspectLayout(fields);
    var env :- ReadPackageEnvironment(package.envText);
    var _ :- InspectSettings(layout, instance, project, environment, env);
    var _ :- if !NonProduction(environment) then Ok(())
             else if package.provenance.None? then Refused("data provenance file must be a regular file")
             else ReadAttestation(package.provenance.value, environment);
    var status :- InspectBundle(package.bundle, layout.tenant, environment, env, allowDigestSync);
    Ok(Report(instance, project, environment, layout.tenant, host, layout.root, layout.public.url, status))
  }

  // ---------------------------------------------------------------- agreement

  lemma {:induction false} ManifestIdentity(t: Target)
    ensures Manifest(t).Object?
    ensures var f := Manifest(t).fields;
            && Field(f, "schema_version") == Int(1) && Field(f, "instance_id") == Str(t.instance)
            && Field(f, "deployment_project_id") == Str(t.project) && Field(f, "environment") == Str(t.environment)
            && Field(f, "host_id") == Str(t.host)
  {
    hide PortNumbers, TextObject, PathPairs;
  }

  lemma {:induction false} ManifestLayout(t: Target)
    ensures var f := Manifest(t).fields;
            && Field(f, "tenant_id") == Int(t.tenant) && Field(f, "deploy_root") == Str(t.root)
            && Field(f, "public_url") == Str(t.publicUrl) && Field(f, "files_url") == Str(t.filesUrl)
            && Field(f, "port_base") == Int(t.portBase) && Field(f, "ports") == PortNumbers(t.portBase)
            && Field(f, "paths") == TextObject(PathPairs(t.root))
  {
    hide PortNumbers, TextObject, PathPairs;
  }

  lemma {:induction false} IdentityAccepted(t: Target)
    requires IsIdentifier(t.host) && Identified(t) && t.instance == InstanceId(t.project, t.environment)
    ensures InspectIdentity(Manifest(t).fields, t.instance, t.host) == Ok((t.project, t.environment))
  {
    hide Manifest, Field, IsIdentifier;
    ManifestIdentity(t);
    SharedProjectIsIdentifier();
  }

  lemma {:induction false} SharedProjectIsIdentifier()
    ensures IsIdentifier("daypop-shared")
  {
  }

  /** The reader finds every setting the inspector expects. */
  lemma {:induction false} ExpectedSettingsFound(t: Target, secrets: seq<string>, env: map<string, string>)
    requires 0 <= t.tenant && 0 <= t.portBase && |secrets| == SECRET_COUNT
    requires forall q :: q in Updates(t, secrets) ==> q.key in env && env[q.key] == q.value
    ensures Matches(env, ExpectedIdentity(t.instance, t.project, t.environment, t.tenant, t.publicUrl, t.filesUrl))
    ensures Matches(env, ExpectedPaths(t.root)) && Matches(env, PortPairs(t.portBase)) && Matches(env, BindPairs())
    ensures "RHD_PROJECT_CONFIG_DIGEST" in env && env["RHD_PROJECT_CONFIG_DIGEST"] == t.digest
  {
    hide Settings, PathPairs, PortPairs, SecretPairs, BindPairs, ExpectedIdentity, ExpectedPaths;
    var a, b, c, d, e := Settings(t), PathPairs(t.root), PortPairs(t.portBase), SecretPairs(secrets), BindPairs();
    assert Updates(t, secrets) == a + b + c + d + e;
    Part(a + b + c + d, e, env);
    Part(a + b + c, d, env);
    Part(a + b, c, env);
    Part(a, b, env);
    SamePaths(t.root);
    IdentityFound(t, env);
  }

  lemma {:induction false} Part(a: seq<Pair>, b: seq<Pair>, env: map<string, string>)
    requires forall q :: q in a + b ==> q.key in env && env[q.key] == q.value
    ensures Matches(env, a) && Matches(env, b)
    ensures forall q :: q in a ==> q.key in env && env[q.key] == q.value
  {
    assert forall q :: q in a || q in b ==> q in a + b;
    forall i | 0 <= i < |a| ensures a[i].key in env && env[a[i].key] == a[i].value { assert a[i] in a; }
    forall i | 0 <= i < |b| ensures b[i].key in env && env[b[i].key] == b[i].value { assert b[i] in b; }
  }

  /** The writer's directories and the inspector's suffix table are the same. */
  lemma {:induction false} SamePaths(root: string)
    ensures ExpectedPaths(root) == PathPairs(root)
  {
  }

  lemma {:induction false} IdentityFound(t: Target, env: map<string, string>)
    requires 0 <= t.tenant && Matches(env, Settings(t))
    ensures Matches(env, ExpectedIdentity(t.instance, t.project, t.environment, t.tenant, t.publicUrl, t.filesUrl))
    ensures "RHD_PROJECT_CONFIG_DIGEST" in env && env["RHD_PROJECT_CONFIG_DIGEST"] == t.digest
  {
    var have := Settings(t);
    var want := ExpectedIdentity(t.instance, t.project, t.environment, t.tenant, t.publicUrl, t.filesUrl);
    assert want[0] == have[1] && want[1] == have[2] && want[2] == have[3] && want[3] == have[4] && want[4] == have[5];
    assert want[5] == have[6] && want[6] == have[7] && want[7] == have[10] && want[8] == have[11] && want[9] == have[0];
    assert have[8] == Pair("RHD_PROJECT_CONFIG_DIGEST", t.digest);
  }

  ghost function LayoutOf(t: Target): Layout
    requires 0 <= t.tenant && 0 <= t.portBase
  {
    Layout(t.tenant, t.root, t.portBase, Origin(t.publicUrl, Hostname(t.publicUrl)),
           Origin(t.filesUrl, Hostname(t.filesUrl)))
  }

  lemma {:induction false} LayoutAccepted(t: Target)
    requires ValidTarget(t)
    ensures InspectLayout(Manifest(t).fields) == Ok(LayoutOf(t))
  {
    hide Manifest, Field, PublicOrigin, Hostname, IsDeploymentRoot, InspectPlace, IsIdentifier, InstanceId, IsHexDigest;
    ManifestLayout(t);
    PlaceAccepted(t);
  }

  lemma {:induction false} PlaceAccepted(t: Target)
    requires ValidTarget(t)
    ensures t.tenant >= 0 && t.portBase >= 0 && InspectPlace(Manifest(t).fields) == Ok((t.tenant, t.root, t.portBase))
  {
    hide Manifest, Field, PublicOrigin, Hostname, IsDeploymentRoot, ExpectedPaths, PathPairs, PortNumbers, TextObject,
         IsIdentifier, InstanceId, IsHexDigest;
    ManifestLayout(t);
    SamePaths(t.root);
  }

  /** The environment of a rendered package, as the inspector reads it. */
  lemma {:induction false} RenderedEnvironment(t: Target, template: string, secrets: seq<string>, text: string)
    requires ValidTarget(t) && Identified(t)
    requires |secrets| == SECRET_COUNT && forall i :: 0 <= i < |secrets| ==> Safe(secrets[i])
    requires EnvironmentValues(t, template, secrets).Ok?
    requires text == EnvironmentText(EnvironmentValues(t, template, secrets).value) && Utf8Size(text) <= SIZE_LIMIT
    ensures ReadPackageEnvironment(text).Ok?
    ensures forall q :: q in Updates(t, secrets) ==>
              q.key in ReadPackageEnvironment(text).value && ReadPackageEnvironment(text).value[q.key] == q.value
  {
    hide EnvironmentValues, EnvironmentText, Updates, Utf8Size, SplitLines, ReadLines, Writable, Safe, Identified,
         PublicOrigin, Hostname, Unquote, AsMap;
    EnvironmentIsWritable(t, template, secrets);
    WrittenTextReadsBack(EnvironmentValues(t, template, secrets).value);
  }

  lemma {:induction false} BundleAccepted(t: Target, bundle: Option<Document>, env: map<string, string>)
    requires ValidTarget(t)
    requires "RHD_PROJECT_CONFIG_DIGEST" in env && env["RHD_PROJECT_CONFIG_DIGEST"] == t.digest
    requires if t.bundlePath == "" then bundle == None
             else bundle.Some? && FileDigest(bundle.value, t.tenant, t.environment) == Ok(t.digest)
    ensures InspectBundle(bundle, t.tenant, t.environment, env, false) ==
            Ok(if t.digest != "" then "pending_preflight" else "pending_config")
  {
    hide FileDigest, PublicOrigin, Hostname, InstanceId, IsDeploymentRoot, IsIdentifier, IsHexDigest;
  }

  ghost predicate Renderable(t: Target, secrets: seq<string>) {
    && ValidTarget(t) && Identified(t)
    && |secrets| == SECRET_COUNT && forall i :: 0 <= i < |secrets| ==> Safe(secrets[i])
  }

  ghost function AcceptedReport(t: Target): Report {
    Report(t.instance, t.project, t.environment, t.tenant, t.host, t.root, t.publicUrl,
           if t.digest != "" then "pending_preflight" else "pending_config")
  }

  /**
   The inspector accepts a rendered package for its own instance and host if and only if its two
   size limits are met, and then reports the target it was rendered from.
   */
  lemma {:induction false} RenderedPackageIsAccepted(
    t: Target, template: string, secrets: seq<string>, now: string, bundle: Option<Document>)
    requires Renderable(t, secrets)
    requires Render(t, template, secrets, now, bundle).Ok?
    ensures var package := Render(t, template, secrets, now, bundle).value;
            var r := Inspect(package, t.instance, t.host, false);
            && (r.Ok? <==> ManifestSize(t) <= SIZE_LIMIT && Utf8Size(package.envText) <= SIZE_LIMIT)
            && (r.Ok? ==> r.value == AcceptedReport(t))
  {
    hide EnvironmentValues, EnvironmentText, Updates, Utf8Size, SplitLines, ReadLines, Safe, PublicOrigin, Hostname,
         Manifest, ManifestSize, Field, InspectIdentity, InspectLayout, InspectBundle, ReadAttestation, Attestation,
         DefaultSynthetic, FileDigest, Matches,
         ExpectedIdentity, ExpectedPaths, PortPairs, BindPairs, IsIdentifier, InstanceId, IsDeploymentRoot, IsHexDigest;
    var package := Render(t, template, secrets, now, bundle).value;
    ManifestIdentity(t);
    IdentityAccepted(t);
    LayoutAccepted(t);
    if Utf8Size(package.envText) <= SIZE_LIMIT {
      RenderedEnvironment(t, template, secrets, package.envText);
      var env := ReadPackageEnvironment(package.envText).value;
      ExpectedSettingsFound(t, secrets, env);
      BundleAccepted(t, package.bundle, env);
      if NonProduction(t.environment) {
        AttestationAccepted(t.environment, now);
      }
    }
  }

  lemma {:induction false} AttestationAccepted(environment: string, now: string)
    requires DefaultSynthetic(environment, now).Ok?
    ensures ReadAttestation(Attestation(DefaultSynthetic(environment, now).value), environment).Ok?
  {
    hide DefaultSynthetic, ValidateDocument, PrintedSize;
    DefaultSyntheticPasses(environment, now);
    AttestationFits(environment, now);
  }

  /** Every target of an accepted inventory can be rendered, and its bundle still matches the recorded digest. */
  lemma {:induction false} AcceptedTargetIsRenderable(inventory: Json, files: Files, i: nat, secrets: seq<string>)
    requires Expand(inventory, files).Ok? && i < |Expand(inventory, files).value|
    requires forall path :: files.resolve(path) != ""
    requires |secrets| == SECRET_COUNT && forall i :: 0 <= i < |secrets| ==> Safe(secrets[i])
    ensures var t := Expand(inventory, files).value[i];
            && Renderable(t, secrets)
            && (t.bundlePath != "" ==> t.bundlePath in files.bundles &&
                                       FileDigest(files.bundles[t.bundlePath], t.tenant, t.environment) ==
                                         Ok(t.digest))
  {
    hide Expand, Safe, PublicOrigin, Hostname, IsIdentifier, IsDeploymentRoot, FileDigest, InstanceId, ReadBundle,
         IsHexDigest;
    var plan := ExpandedOk(inventory, files);
    var t := plan.targets[i];
    assert TargetOk(t, files);
    assert i == 0 ==> SharedIdentity(t);
    assert i > 0 ==> ProjectIdentity(t);
    if t.bundlePath != "" {
      BundleDigestIsHex(files, t.bundlePath, t.tenant, t.environment);
    }
  }

  // ---------------------------------------------------------------- why the size limits matter

  lemma {:induction false} JoinedAtLeast(lines: seq<string>, i: nat)
    requires i < |lines|
    ensures |Joined(lines)| >= |lines[i]|
  {
    if |lines| > 1 && i > 0 {
      JoinedAtLeast(lines[1..], i - 1);
      assert Joined(lines) == lines[0] + "\n" + Joined(lines[1..]);
    }
  }

  /** Directory names have no length limit, so an accepted target can render a package that is too large to inspect. */
  lemma {:induction false} LongRootIsRefused(
    t: Target, template: string, secrets: seq<string>, now: string, bundle: Option<Document>)
    requires Renderable(t, secrets) && |t.root| > SIZE_LIMIT
    requires Render(t, template, secrets, now, bundle).Ok?
    ensures Inspect(Render(t, template, secrets, now, bundle).value, t.instance, t.host, false).Refused?
  {
    hide Inspect, ManifestSize, Updates, Utf8Size, Joined, PublicOrigin, Hostname, Safe, DefaultSynthetic,
         FileDigest, Template, PutAll, Identified;
    RenderedPackageIsAccepted(t, template, secrets, now, bundle);
    var values := EnvironmentValues(t, template, secrets).value;
    var i := RootIsWritten(t, template, secrets);
    JoinedAtLeast(Assignments(values), i);
    Utf8AtLeastLength(EnvironmentText(values));
  }

  lemma {:induction false} RootIsWritten(t: Target, template: string, secrets: seq<string>) returns (i: nat)
    requires Renderable(t, secrets) && EnvironmentValues(t, template, secrets).Ok?
    ensures i < |EnvironmentValues(t, template, secrets).value|
    ensures |EnvironmentValues(t, template, secrets).value[i].value| >= |t.root|
  {
    hide Settings, PortPairs, SecretPairs, BindPairs, PutAll, Template, Safe, Identified, PublicOrigin, Hostname, Named;
    var updates := Updates(t, secrets);
    SettingsNamed(t);
    var q := updates[12];
    assert q == PathPairs(t.root)[0];
    UpdatesNamed(t, secrets);
    DefaultsLegible(template);
    PutAllMeaning(Template(template).value, updates);
    assert q in updates;
    var values := EnvironmentValues(t, template, secrets).value;
    i :| 0 <= i < |values| && values[i] == q;
  }

  /** When the writer produces a package at all. */
  lemma {:induction false} RenderSucceedsIff(
    t: Target, template: string, secrets: seq<string>, now: string, bundle: Option<Document>)
    requires Renderable(t, secrets)
    ensures Render(t, template, secrets, now, bundle).Ok? <==>
            && (t.bundlePath != "" ==>
                  bundle.Some? && FileDigest(bundle.value, t.tenant, t.environment) == Ok(t.digest))
            && (NonProduction(t.environment) ==> DefaultSynthetic(t.environment, now).Ok?)
            && CleanTemplate(template, Updates(t, secrets))
  {
    hide EnvironmentValues, Updates, Safe, PublicOrigin, Hostname, DefaultSynthetic, FileDigest, Manifest,
         EnvironmentText,
         CleanTemplate, Identified;
    WriterRefusesOnlyTemplates(t, template, secrets);
  }
}
