/**
 What it takes for a package to pass the inspection, field by field and setting by setting. The inspection accepts a
 package if and only if all of it holds.
 */
module PackageAcceptance {
  import opened Wrappers
  import opened Text
  import opened PlanChecks
  import opened Inventory
  import InventoryMeaning
  import opened EnvText
  import opened EnvReading
  import opened Environment
  import opened Provenance
  import opened ProvenanceMeaning
  import opened Package

  ghost predicate Holds(fields: map<string, Json>, key: string, value: Json) {
    key in fields && fields[key] == value
  }

  // ---------------------------------------------------------------- identity

  ghost predicate RightNames(instance: string, project: string, environment: string) {
    || (environment == "integration" && project == "daypop-shared" && instance == "onward-shared-integration")
    || ((environment == "staging" || environment == "production") && project != "daypop-shared" && project != "shared"
        && instance == "onward-" + project + "-" + environment)
  }

  ghost predicate Identifies(
    fields: map<string, Json>, instance: string, host: string, project: string, environment: string)
  {
    && Holds(fields, "schema_version", Int(1)) && Holds(fields, "instance_id", Str(instance))
    && Holds(fields, "host_id", Str(host)) && IsIdentifier(host)
    && Holds(fields, "deployment_project_id", Str(project)) && IsIdentifier(project)
    && Holds(fields, "environment", Str(environment)) && RightNames(instance, project, environment)
  }

  lemma {:induction false} IdentityMeans(
    fields: map<string, Json>, instance: string, host: string, project: string, environment: string)
    ensures InspectIdentity(fields, instance, host) == Ok((project, environment)) <==>
            Identifies(fields, instance, host, project, environment)
  {
    hide IsIdentifier, InspectNames, RightNames, Field, Holds;
    FieldMeans(fields, "schema_version", Int(1));
    FieldMeans(fields, "instance_id", Str(instance));
    FieldMeans(fields, "host_id", Str(host));
    FieldMeans(fields, "deployment_project_id", Str(project));
    FieldMeans(fields, "environment", Str(environment));
    forall p ensures InspectNames(instance, p, Field(fields, "environment")) == Ok((project, environment)) <==>
                     p == project && Field(fields, "environment") == Str(environment) &&
                     RightNames(instance, project, environment)
    {
      NamesMean(instance, p, Field(fields, "environment"), project, environment);
    }
  }

  lemma FieldMeans(fields: map<string, Json>, key: string, value: Json)
    requires value != Null
    ensures Field(fields, key) == value <==> Holds(fields, key, value)
  {
  }

  lemma {:induction false} NamesMean(instance: string, p: string, value: Json, project: string, environment: string)
    ensures InspectNames(instance, p, value) == Ok((project, environment)) <==>
            p == project && value == Str(environment) && RightNames(instance, project, environment)
  {
    if p == project && value == Str(environment) {
      assert "onward-" + project + ("-" + environment) == "onward-" + project + "-" + environment;
    }
  }

  // ---------------------------------------------------------------- layout

  const PORT_KEYS: seq<string> := [
    "APP_PORT", "POSTGRES_PORT", "REDIS_PORT", "QDRANT_HTTP_PORT", "QDRANT_GRPC_PORT", "MINIO_PORT",
    "MINIO_CONSOLE_PORT", "PROMETHEUS_PORT", "ALERTMANAGER_PORT" ]

  const SUFFIXES: seq<Pair> := [
    Pair("RHD_DATA_DIR", "/volumes"), Pair("RHD_BACKUP_DIR", "/backups"), Pair("RHD_STATE_DIR", "/state"),
    Pair("RHD_METRICS_DIR", "/metrics"), Pair("RHD_CONFIG_FILE", "/remotehelpdesk.yaml"),
    Pair("RHD_PROJECT_CONFIG_DIR", "/project-config"),
    Pair("RHD_PROJECT_CONFIG_FILE", "/project-config/current.json"),
    Pair("RHD_PROJECT_SECRET_DIR", "/project-secrets"),
    Pair("RHD_TEST_DATA_PROVENANCE_FILE", "/data-provenance.json"),
    Pair("RHD_ALERTMANAGER_CONFIG_FILE", "/alertmanager.yml"), Pair("RHD_RESTORE_DATA_DIR", "/backups") ]

  /** Exactly the nine ports from the base on. */
  ghost predicate NinePorts(table: Json, base: int) {
    && table.Object?
    && (forall i :: 0 <= i < 9 ==> Holds(table.fields, PORT_KEYS[i], Int(base + i)))
    && (forall k :: k in table.fields ==> k in PORT_KEYS)
  }

  ghost predicate IsSuffixKey(k: string) {
    exists i :: 0 <= i < 11 && SUFFIXES[i].key == k
  }

  /** Exactly the eleven directories and files below the root. */
  ghost predicate ElevenPaths(table: Json, root: string) {
    && table.Object?
    && (forall i :: 0 <= i < 11 ==> Holds(table.fields, SUFFIXES[i].key, Str(root + SUFFIXES[i].value)))
    && (forall k :: k in table.fields ==> IsSuffixKey(k))
  }

  lemma {:induction false} PortsMean(table: Json, base: int)
    ensures NinePorts(table, base) <==> table == PortNumbers(base)
  {
    var ports := PortNumbers(base);
    PortTable(base);
    if NinePorts(table, base) {
      forall k ensures k in table.fields <==> k in ports.fields {
        if k in PORT_KEYS {
          var i :| 0 <= i < 9 && PORT_KEYS[i] == k;
        }
      }
      forall k | k in table.fields ensures table.fields[k] == ports.fields[k] {
        var i :| 0 <= i < 9 && PORT_KEYS[i] == k;
      }
      assert table.fields == ports.fields;
    }
  }

  lemma {:induction false} PortTable(base: int)
    ensures NinePorts(PortNumbers(base), base)
  {
  }

  lemma {:induction false} SuffixTable(root: string)
    ensures |ExpectedPaths(root)| == 11
    ensures forall i :: 0 <= i < 11 ==> ExpectedPaths(root)[i] == Pair(SUFFIXES[i].key, root + SUFFIXES[i].value)
  {
  }

  lemma {:induction false} SuffixKeysDiffer(root: string)
    ensures UniqueKeys(ExpectedPaths(root))
  {
    hide ExpectedPaths, PathPairs, Position, IsKey;
    SamePaths(root);
    PathsNamed(root);
    var pairs := ExpectedPaths(root);
    forall i, j | 0 <= i < j < |pairs| ensures pairs[i].key != pairs[j].key {
      assert Position(pairs[i].key) == 12 + i && Position(pairs[j].key) == 12 + j;
    }
  }

  /** A table that holds each of the pairs and nothing else. */
  ghost predicate Tabulates(table: Json, pairs: seq<Pair>) {
    && table.Object?
    && (forall i :: 0 <= i < |pairs| ==> Holds(table.fields, pairs[i].key, Str(pairs[i].value)))
    && (forall k :: k in table.fields ==> Names(pairs, k))
  }

  ghost predicate Names(pairs: seq<Pair>, k: string) {
    exists i :: 0 <= i < |pairs| && pairs[i].key == k
  }

  lemma {:induction false} TextTable(pairs: seq<Pair>)
    requires UniqueKeys(pairs)
    ensures Tabulates(TextObject(pairs), pairs)
  {
    forall i | 0 <= i < |pairs| ensures Holds(TextObject(pairs).fields, pairs[i].key, Str(pairs[i].value)) {
      assert LastFor(pairs, i);
    }
  }

  lemma {:induction false} OneTable(pairs: seq<Pair>, one: Json, two: Json)
    requires Tabulates(one, pairs) && Tabulates(two, pairs)
    ensures one == two
  {
    forall k | k in one.fields ensures k in two.fields && one.fields[k] == two.fields[k] {
      var i :| 0 <= i < |pairs| && pairs[i].key == k;
      assert Holds(one.fields, pairs[i].key, Str(pairs[i].value));
      assert Holds(two.fields, pairs[i].key, Str(pairs[i].value));
    }
    forall k | k in two.fields ensures k in one.fields {
      var i :| 0 <= i < |pairs| && pairs[i].key == k;
      assert Holds(one.fields, pairs[i].key, Str(pairs[i].value));
    }
    assert one.fields == two.fields;
  }

  lemma {:induction false} ElevenTabulate(table: Json, root: string)
    ensures ElevenPaths(table, root) <==> Tabulates(table, ExpectedPaths(root))
  {
    hide ExpectedPaths, Holds;
    var pairs := ExpectedPaths(root);
    SuffixTable(root);
    forall k ensures IsSuffixKey(k) <==> Names(pairs, k) {
      if IsSuffixKey(k) {
        var i :| 0 <= i < 11 && SUFFIXES[i].key == k;
        assert pairs[i].key == k;
      }
    }
  }

  lemma {:induction false} PathsMean(table: Json, root: string)
    ensures ElevenPaths(table, root) <==> table == TextObject(ExpectedPaths(root))
  {
    hide TextObject, ExpectedPaths, ElevenPaths, Tabulates, UniqueKeys;
    var pairs := ExpectedPaths(root);
    ElevenTabulate(table, root);
    SuffixKeysDiffer(root);
    TextTable(pairs);
    if Tabulates(table, pairs) { OneTable(pairs, table, TextObject(pairs)); }
  }

  ghost predicate LaidOut(fields: map<string, Json>, layout: Layout) {
    && Holds(fields, "tenant_id", Int(layout.tenant)) && 0 < layout.tenant <= 9223372036854775807
    && Holds(fields, "deploy_root", Str(layout.root)) && IsDeploymentRoot(layout.root)
    && Holds(fields, "port_base", Int(layout.base)) && 1024 <= layout.base <= 65527
    && "ports" in fields && NinePorts(fields["ports"], layout.base)
    && "paths" in fields && ElevenPaths(fields["paths"], layout.root)
    && "public_url" in fields && PublicOrigin(fields["public_url"]) == Ok(layout.public)
    && "files_url" in fields && PublicOrigin(fields["files_url"]) == Ok(layout.uploads)
    && layout.public.host != layout.uploads.host
  }

  lemma {:induction false} LayoutMeans(fields: map<string, Json>, layout: Layout)
    ensures InspectLayout(fields) == Ok(layout) <==> LaidOut(fields, layout)
  {
    hide InspectLayout, InspectPlace, InspectOrigins, IsDeploymentRoot, Holds, NinePorts, ElevenPaths, PublicOrigin;
    LayoutParts(fields, layout);
    PlaceMeans(fields, layout.tenant, layout.root, layout.base);
    OriginsMean(fields, layout.public, layout.uploads);
  }

  lemma LayoutParts(fields: map<string, Json>, layout: Layout)
    ensures InspectLayout(fields) == Ok(layout) <==>
            && InspectPlace(fields) == Ok((layout.tenant, layout.root, layout.base))
            && InspectOrigins(fields) == Ok((layout.public, layout.uploads))
  {
    hide InspectPlace, InspectOrigins;
    if InspectLayout(fields) == Ok(layout) {
      var place, origins := InspectPlace(fields), InspectOrigins(fields);
      assert place.Ok? && origins.Ok?;
      assert place.value == (place.value.0, place.value.1, place.value.2);
      assert origins.value == (origins.value.0, origins.value.1);
    }
  }

  lemma {:induction false} PlaceMeans(fields: map<string, Json>, tenant: nat, root: string, base: nat)
    ensures InspectPlace(fields) == Ok((tenant, root, base)) <==>
            && Holds(fields, "tenant_id", Int(tenant)) && 0 < tenant <= 9223372036854775807
            && Holds(fields, "deploy_root", Str(root)) && IsDeploymentRoot(root)
            && Holds(fields, "port_base", Int(base)) && 1024 <= base <= 65527
            && "ports" in fields && NinePorts(fields["ports"], base)
            && "paths" in fields && ElevenPaths(fields["paths"], root)
  {
    hide IsDeploymentRoot, NinePorts, ElevenPaths, SameLayout, Field, Holds, PositiveInt, DeploymentRoot;
    IntField(fields, "tenant_id", tenant, MAX_ID);
    IntField(fields, "port_base", base, 65527);
    RootField(fields, root);
    TablesMean(fields, base, root);
    PlaceParts(fields, tenant, root, base);
  }

  lemma {:induction false} PlaceParts(fields: map<string, Json>, tenant: nat, root: string, base: nat)
    ensures InspectPlace(fields) == Ok((tenant, root, base)) <==>
            && PositiveInt(Field(fields, "tenant_id"), MAX_ID) == Ok(tenant)
            && DeploymentRoot(Field(fields, "deploy_root")) == Ok(root)
            && PositiveInt(Field(fields, "port_base"), 65527) == Ok(base) && 1024 <= base
            && SameLayout(fields, base, root)
  {
    hide IsDeploymentRoot, SameLayout, Field, DeploymentRoot;
  }

  lemma IntField(fields: map<string, Json>, key: string, n: nat, maximum: int)
    ensures PositiveInt(Field(fields, key), maximum) == Ok(n) <==> Holds(fields, key, Int(n)) && 0 < n <= maximum
  {
  }

  lemma RootField(fields: map<string, Json>, root: string)
    ensures DeploymentRoot(Field(fields, "deploy_root")) == Ok(root) <==>
            Holds(fields, "deploy_root", Str(root)) && IsDeploymentRoot(root)
  {
    hide IsDeploymentRoot;
  }

  lemma {:induction false} OriginsMean(fields: map<string, Json>, public: Origin, uploads: Origin)
    ensures InspectOrigins(fields) == Ok((public, uploads)) <==>
            && "public_url" in fields && PublicOrigin(fields["public_url"]) == Ok(public)
            && "files_url" in fields && PublicOrigin(fields["files_url"]) == Ok(uploads)
            && public.host != uploads.host
  {
    hide PublicOrigin, Field;
    OriginField(fields, "public_url");
    OriginField(fields, "files_url");
  }

  lemma {:induction false} TablesMean(fields: map<string, Json>, base: int, root: string)
    ensures SameLayout(fields, base, root) <==>
            && "ports" in fields && NinePorts(fields["ports"], base)
            && "paths" in fields && ElevenPaths(fields["paths"], root)
  {
    hide PortNumbers, ExpectedPaths, NinePorts, ElevenPaths, LastFor;
    if "ports" in fields { PortsMean(fields["ports"], base); }
    if "paths" in fields { PathsMean(fields["paths"], root); }
    PortsMean(PortNumbers(base), base);
    PortsAreTable(base);
  }

  lemma PortsAreTable(base: int)
    ensures PortNumbers(base) != Null
  {
  }

  lemma OriginField(fields: map<string, Json>, key: string)
    ensures key !in fields ==> PublicOrigin(Field(fields, key)).Refused?
    ensures key in fields ==> Field(fields, key) == fields[key]
  {
    hide IsPublicOrigin, Hostname;
  }

  // ---------------------------------------------------------------- settings

  ghost predicate Sets(env: map<string, string>, key: string, value: string) {
    key in env && env[key] == value
  }

  const BIND_KEYS: seq<string> := [
    "APP_BIND_IP", "POSTGRES_BIND_IP", "REDIS_BIND_IP", "QDRANT_BIND_IP", "MINIO_BIND_IP", "MINIO_CONSOLE_BIND_IP",
    "PROMETHEUS_BIND_IP", "ALERTMANAGER_BIND_IP" ]

  ghost predicate SetUp(
    env: map<string, string>, instance: string, project: string, environment: string, layout: Layout)
  {
    && Sets(env, "RHD_INSTANCE_ID", instance) && Sets(env, "RHD_DEPLOYMENT_PROJECT_ID", project)
    && Sets(env, "RHD_PROJECT_NAME", instance) && Sets(env, "RHD_NETWORK_NAME", instance + "_1panel")
    && Sets(env, "RHD_PROJECT_ENVIRONMENT", environment)
    && Sets(env, "RHD_PROJECT_CONFIG_TENANT_ID", Decimal(layout.tenant))
    && Sets(env, "RHD_PROJECT_CONFIG_REQUIRED", "1")
    && Sets(env, "RHD_PUBLIC_URL", layout.public.url) && Sets(env, "MINIO_PUBLIC_ENDPOINT", layout.uploads.url)
    && Sets(env, "IMAGE_NAME", instance)
    && (forall i :: 0 <= i < 11 ==> Sets(env, SUFFIXES[i].key, layout.root + SUFFIXES[i].value))
    && (forall i :: 0 <= i < 9 ==> Sets(env, PORT_KEYS[i], Decimal(layout.base + i)))
    && (forall i :: 0 <= i < 8 ==> Sets(env, BIND_KEYS[i], "127.0.0.1"))
  }

  lemma {:induction false} SettingsMean(
    env: map<string, string>, instance: string, project: string, environment: string, layout: Layout)
    ensures InspectSettings(layout, instance, project, environment, env).Ok? <==>
            SetUp(env, instance, project, environment, layout)
  {
    hide ExpectedPaths, PortPairs, BindPairs, SUFFIXES, PORT_KEYS, BIND_KEYS, Decimal, Sets;
    SuffixTable(layout.root);
    PortPairTable(layout.base);
    BindTable();
    IdentityTable(env, instance, project, environment, layout);
    MatchesMeans(env, ExpectedPaths(layout.root));
    MatchesMeans(env, PortPairs(layout.base));
    MatchesMeans(env, BindPairs());
  }

  lemma MatchesMeans(env: map<string, string>, pairs: seq<Pair>)
    ensures Matches(env, pairs) <==> forall i :: 0 <= i < |pairs| ==> Sets(env, pairs[i].key, pairs[i].value)
  {
  }

  lemma {:induction false} PortPairTable(base: nat)
    ensures |PortPairs(base)| == 9
    ensures forall i :: 0 <= i < 9 ==> PortPairs(base)[i] == Pair(PORT_KEYS[i], Decimal(base + i))
  {
    hide Decimal;
  }

  lemma BindTable()
    ensures |BindPairs()| == 8 && forall i :: 0 <= i < 8 ==> BindPairs()[i] == Pair(BIND_KEYS[i], "127.0.0.1")
  {
  }

  lemma {:induction false} IdentityTable(
    env: map<string, string>, instance: string, project: string, environment: string, layout: Layout)
    ensures Matches(env, ExpectedIdentity(instance, project, environment, layout.tenant, layout.public.url,
                                          layout.uploads.url)) <==>
            && Sets(env, "RHD_INSTANCE_ID", instance) && Sets(env, "RHD_DEPLOYMENT_PROJECT_ID", project)
            && Sets(env, "RHD_PROJECT_NAME", instance) && Sets(env, "RHD_NETWORK_NAME", instance + "_1panel")
            && Sets(env, "RHD_PROJECT_ENVIRONMENT", environment)
            && Sets(env, "RHD_PROJECT_CONFIG_TENANT_ID", Decimal(layout.tenant))
            && Sets(env, "RHD_PROJECT_CONFIG_REQUIRED", "1")
            && Sets(env, "RHD_PUBLIC_URL", layout.public.url) && Sets(env, "MINIO_PUBLIC_ENDPOINT", layout.uploads.url)
            && Sets(env, "IMAGE_NAME", instance)
  {
    hide Decimal, Sets;
    var pairs :=
      ExpectedIdentity(instance, project, environment, layout.tenant, layout.public.url, layout.uploads.url);
    MatchesMeans(env, pairs);
    assert |pairs| == 10;
    if Matches(env, pairs) {
      assert Sets(env, pairs[0].key, pairs[0].value) && Sets(env, pairs[1].key, pairs[1].value);
      assert Sets(env, pairs[2].key, pairs[2].value) && Sets(env, pairs[3].key, pairs[3].value);
      assert Sets(env, pairs[4].key, pairs[4].value) && Sets(env, pairs[5].key, pairs[5].value);
      assert Sets(env, pairs[6].key, pairs[6].value) && Sets(env, pairs[7].key, pairs[7].value);
      assert Sets(env, pairs[8].key, pairs[8].value) && Sets(env, pairs[9].key, pairs[9].value);
    }
  }

  // ---------------------------------------------------------------- the configuration bundle

  const DIGEST_KEY: string := "RHD_PROJECT_CONFIG_DIGEST"

  /** A pinned digest needs its bundle, and a bundle its pinned digest unless the digest is to be written. */
  ghost predicate Pins(
    bundle: Option<Document>, tenant: int, environment: string, env: map<string, string>, sync: bool, status: string)
  {
    match bundle
    case None => status == "pending_config" && (DIGEST_KEY !in env || env[DIGEST_KEY] == "")
    case Some(document) =>
      exists digest ::
        && document.size <= 307200 && InventoryMeaning.Exports(document.json, tenant, environment, digest)
        && if Sets(env, DIGEST_KEY, digest) then status == "pending_preflight"
           else sync && status == "pending_digest_sync"
  }

  lemma {:induction false} PinMeans(
    bundle: Option<Document>, tenant: int, environment: string, env: map<string, string>, sync: bool, status: string)
    ensures InspectBundle(bundle, tenant, environment, env, sync) == Ok(status) <==>
            Pins(bundle, tenant, environment, env, sync, status)
  {
    hide FileDigest, InventoryMeaning.Exports;
    if bundle.Some? {
      forall digest
        ensures FileDigest(bundle.value, tenant, environment) == Ok(digest) <==>
                bundle.value.size <= 307200 &&
                InventoryMeaning.Exports(bundle.value.json, tenant, environment, digest)
      {
        InventoryMeaning.FileMeans(bundle.value, tenant, environment, digest);
      }
    }
  }

  // ---------------------------------------------------------------- the whole inspection

  /** The manifest, the settings, the attestation and the bundle of an acceptable package. */
  ghost predicate Acceptable(
    package: PackageFiles, instance: string, host: string, sync: bool, project: string, environment: string,
    layout: Layout, status: string)
  {
    && package.manifestSize <= 131072 && package.manifest.Object?
    && Identifies(package.manifest.fields, instance, host, project, environment)
    && LaidOut(package.manifest.fields, layout)
    && Utf8Size(package.envText) <= 131072
    && (exists env ::
          && Reads(package.envText, env) && SetUp(env, instance, project, environment, layout)
          && Pins(package.bundle, layout.tenant, environment, env, sync, status))
    && (environment != "production" ==> package.provenance.Some? && Attested(package.provenance.value, environment))
  }

  /** An attestation of at most 32 KiB. */
  ghost predicate Attested(file: Document, environment: string) {
    file.size <= 32768 && Attests(file.json, environment)
  }

  /** Every line is blank, a comment or a plain assignment, no key is assigned twice, and `env` is the result. */
  ghost predicate Reads(text: string, env: map<string, string>) {
    var lines := SplitLines(text);
    (forall i :: 0 <= i < |lines| ==> Meaningful(lines[i])) && OnceEach(lines, |lines|) && SaysAll(lines, |lines|, env)
  }

  lemma {:induction false} OneReading(lines: seq<string>, one: map<string, string>, two: map<string, string>)
    requires SaysAll(lines, |lines|, one) && SaysAll(lines, |lines|, two)
    ensures one == two
  {
    hide Assigns;
  }

  lemma {:induction false} TextMeansMap(text: string, env: map<string, string>)
    ensures ReadPackageEnvironment(text) == Ok(env) <==> Utf8Size(text) <= 131072 && Reads(text, env)
  {
    hide Utf8Size, SplitLines, ReadLines, Meaningful, OnceEach, SaysAll;
    var lines := SplitLines(text);
    ReadMeans(lines, |lines|);
    if Reads(text, env) { OneReading(lines, env, ReadLines(lines, |lines|).value); }
  }

  /** What the report repeats of an acceptable package. */
  ghost predicate Repeats(report: Report, instance: string, host: string, layout: Layout) {
    && report.instance == instance && report.host == host && report.tenant == layout.tenant
    && report.root == layout.root && report.publicUrl == layout.public.url
  }

  /** The check on the attestation, with none needed for production. */
  lemma {:induction false} AttestationMeans(package: PackageFiles, environment: string)
    requires environment == "integration" || environment == "staging" || environment == "production"
    ensures (!NonProduction(environment) ||
             (package.provenance.Some? && ReadAttestation(package.provenance.value, environment).Ok?)) <==>
            (environment != "production" ==>
               package.provenance.Some? && Attested(package.provenance.value, environment))
  {
    hide ValidateDocument, Attests;
    assert "integration" != "production" && "staging" != "production";
    if package.provenance.Some? { DocumentMeans(package.provenance.value.json, environment); }
  }

  /** What acceptance implies. */
  lemma {:induction false} AcceptedIsAcceptable(
    package: PackageFiles, instance: string, host: string, sync: bool, report: Report) returns (layout: Layout)
    requires Inspect(package, instance, host, sync) == Ok(report)
    ensures Repeats(report, instance, host, layout)
    ensures Acceptable(package, instance, host, sync, report.project, report.environment, layout, report.configStatus)
  {
    hide InspectIdentity, InspectLayout, ReadPackageEnvironment, InspectSettings, ReadAttestation, InspectBundle,
         NonProduction, Identifies, LaidOut, SetUp, Reads, Pins, Attested, Utf8Size;
    var fields := package.manifest.fields;
    layout := InspectLayout(fields).value;
    var env := ReadPackageEnvironment(package.envText).value;
    var names := InspectIdentity(fields, instance, host).value;
    assert names == (names.0, names.1) && names.0 == report.project && names.1 == report.environment;
    IdentityMeans(fields, instance, host, report.project, report.environment);
    RightEnvironment(fields, instance, host, report.project, report.environment);
    LayoutMeans(fields, layout);
    TextMeansMap(package.envText, env);
    SettingsMean(env, instance, report.project, report.environment, layout);
    AttestationMeans(package, report.environment);
    PinMeans(package.bundle, layout.tenant, report.environment, env, sync, report.configStatus);
  }

  lemma RightEnvironment(
    fields: map<string, Json>, instance: string, host: string, project: string, environment: string)
    requires Identifies(fields, instance, host, project, environment)
    ensures environment == "integration" || environment == "staging" || environment == "production"
  {
    hide Holds, IsIdentifier;
  }

  /** What suffices for it. */
  lemma {:induction false} AcceptableIsAccepted(
    package: PackageFiles, instance: string, host: string, sync: bool, project: string, environment: string,
    layout: Layout, status: string)
    requires Acceptable(package, instance, host, sync, project, environment, layout, status)
    ensures Inspect(package, instance, host, sync) ==
            Ok(Report(instance, project, environment, layout.tenant, host, layout.root, layout.public.url, status))
  {
    hide InspectIdentity, InspectLayout, ReadPackageEnvironment, InspectSettings, ReadAttestation, InspectBundle,
         NonProduction, Identifies, LaidOut, SetUp, Reads, Pins, Attested, Utf8Size;
    var fields := package.manifest.fields;
    var env :| && Reads(package.envText, env) && SetUp(env, instance, project, environment, layout)
               && Pins(package.bundle, layout.tenant, environment, env, sync, status);
    IdentityMeans(fields, instance, host, project, environment);
    RightEnvironment(fields, instance, host, project, environment);
    LayoutMeans(fields, layout);
    TextMeansMap(package.envText, env);
    SettingsMean(env, instance, project, environment, layout);
    AttestationMeans(package, environment);
    PinMeans(package.bundle, layout.tenant, environment, env, sync, status);
  }

  /** Another host or another instance is always refused. */
  lemma {:induction false} OnlyItsOwnHost(package: PackageFiles, instance: string, host: string, sync: bool)
    requires Inspect(package, instance, host, sync).Ok?
    ensures package.manifest.Object?
    ensures Holds(package.manifest.fields, "host_id", Str(host))
    ensures Holds(package.manifest.fields, "instance_id", Str(instance))
  {
    hide Inspect, IsIdentifier, Holds, RightNames, LaidOut, SetUp, Reads, Pins, Attested, Utf8Size;
    var layout := AcceptedIsAcceptable(package, instance, host, sync, Inspect(package, instance, host, sync).value);
  }
}
