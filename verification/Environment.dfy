/**
 environment_values (scripts/environmentctl.py): the settings of one instance, laid over the checked-in
 template, as an ordered dictionary.
 */
module Environment {
  import opened Text
  import opened PlanChecks
  import opened Inventory
  import opened Isolation
  import opened EnvText

  /** dict assignment: an existing key keeps its place, a new key goes last. */
  function Put(pairs: seq<Pair>, p: Pair): seq<Pair> {
    if |pairs| == 0 then [p]
    else if pairs[0].key == p.key then [p] + pairs[1..]
    else [pairs[0]] + Put(pairs[1..], p)
  }

  function PutAll(pairs: seq<Pair>, updates: seq<Pair>): seq<Pair> {
    if |updates| == 0 then pairs else Put(PutAll(pairs, updates[..|updates| - 1]), updates[|updates| - 1])
  }

  /** template_environment over the first n lines of the example file. */
  function TemplateLines(lines: seq<string>, n: nat): Result<seq<Pair>>
    requires n <= |lines|
  {
    if n == 0 then Ok([])
    else
      var before :- TemplateLines(lines, n - 1);
      var line := lines[n - 1];
      var trimmed := TrimLeft(line);
      if line == "" || (trimmed != "" && trimmed[0] == '#') || '=' !in line then Ok(before)
      else if !IsKey(Before(line, '=')) then Refused("invalid environment template key")
      else Ok(Put(before, Pair(Before(line, '='), After(line, '='))))
  }

  function Template(text: string): Result<seq<Pair>> {
    TemplateLines(SplitLines(text), |SplitLines(text)|)
  }

  function Settings(t: Target): seq<Pair>
    requires 0 <= t.tenant
  {
    [ Pair("IMAGE_NAME", t.instance),
      Pair("RHD_INSTANCE_ID", t.instance),
      Pair("RHD_DEPLOYMENT_PROJECT_ID", t.project),
      Pair("RHD_PROJECT_NAME", t.instance),
      Pair("RHD_NETWORK_NAME", t.instance + "_1panel"),
      Pair("RHD_PROJECT_ENVIRONMENT", t.environment),
      Pair("RHD_PROJECT_CONFIG_TENANT_ID", Decimal(t.tenant)),
      Pair("RHD_PROJECT_CONFIG_REQUIRED", "1"),
      Pair("RHD_PROJECT_CONFIG_DIGEST", t.digest),
      Pair("RHD_PROJECT_CONFIG_CHECKER", ""),
      Pair("RHD_PUBLIC_URL", t.publicUrl),
      Pair("MINIO_PUBLIC_ENDPOINT", t.filesUrl) ]
  }

  function PathPairs(root: string): seq<Pair> {
    [ Pair("RHD_DATA_DIR", root + "/volumes"),
      Pair("RHD_BACKUP_DIR", root + "/backups"),
      Pair("RHD_STATE_DIR", root + "/state"),
      Pair("RHD_METRICS_DIR", root + "/metrics"),
      Pair("RHD_CONFIG_FILE", root + "/remotehelpdesk.yaml"),
      Pair("RHD_PROJECT_CONFIG_DIR", root + "/project-config"),
      Pair("RHD_PROJECT_CONFIG_FILE", root + "/project-config/current.json"),
      Pair("RHD_PROJECT_SECRET_DIR", root + "/project-secrets"),
      Pair("RHD_TEST_DATA_PROVENANCE_FILE", root + "/data-provenance.json"),
      Pair("RHD_ALERTMANAGER_CONFIG_FILE", root + "/alertmanager.yml"),
      Pair("RHD_RESTORE_DATA_DIR", root + "/backups") ]
  }

  function PortPairs(base: nat): seq<Pair> {
    [ Pair("APP_PORT", Decimal(base)),
      Pair("POSTGRES_PORT", Decimal(base + 1)),
      Pair("REDIS_PORT", Decimal(base + 2)),
      Pair("QDRANT_HTTP_PORT", Decimal(base + 3)),
      Pair("QDRANT_GRPC_PORT", Decimal(base + 4)),
      Pair("MINIO_PORT", Decimal(base + 5)),
      Pair("MINIO_CONSOLE_PORT", Decimal(base + 6)),
      Pair("PROMETHEUS_PORT", Decimal(base + 7)),
      Pair("ALERTMANAGER_PORT", Decimal(base + 8)) ]
  }

  const SECRET_COUNT: nat := 7

  function SecretPairs(secrets: seq<string>): seq<Pair>
    requires |secrets| == SECRET_COUNT
  {
    [ Pair("POSTGRES_PASSWORD", secrets[0]),
      Pair("REDIS_PASSWORD", secrets[1]),
      Pair("MINIO_ROOT_PASSWORD", secrets[2]),
      Pair("CUSTOMER_SESSION_SECRET", secrets[3]),
      Pair("ENCRYPTION_KEY", secrets[4]),
      Pair("MCP_SERVER_TOKEN", secrets[5]),
      Pair("RHD_BOOTSTRAP_ADMIN_PASSWORD", secrets[6]) ]
  }

  function BindPairs(): seq<Pair> {
    [ Pair("APP_BIND_IP", "127.0.0.1"),
      Pair("POSTGRES_BIND_IP", "127.0.0.1"),
      Pair("REDIS_BIND_IP", "127.0.0.1"),
      Pair("QDRANT_BIND_IP", "127.0.0.1"),
      Pair("MINIO_BIND_IP", "127.0.0.1"),
      Pair("MINIO_CONSOLE_BIND_IP", "127.0.0.1"),
      Pair("PROMETHEUS_BIND_IP", "127.0.0.1"),
      Pair("ALERTMANAGER_BIND_IP", "127.0.0.1") ]
  }

  function Updates(t: Target, secrets: seq<string>): seq<Pair>
    requires 0 <= t.tenant && 0 <= t.portBase && |secrets| == SECRET_COUNT
  {
    Settings(t) + PathPairs(t.root) + PortPairs(t.portBase) + SecretPairs(secrets) + BindPairs()
  }

  predicate Substitutes(v: string) {
    '\r' in v || '\n' in v || '\0' in v || '$' in v || '`' in v
  }

  function EnvironmentValues(t: Target, template: string, secrets: seq<string>): Result<seq<Pair>>
    requires 0 <= t.tenant && 0 <= t.portBase && |secrets| == SECRET_COUNT
  {
    var defaults :- Template(template);
    var values := PutAll(defaults, Updates(t, secrets));
    if forall i :: 0 <= i < |values| ==> !Substitutes(values[i].value) then Ok(values)
    else Refused("environment values cannot contain substitutions or newlines")
  }

  // ---------------------------------------------------------------- ordered dictionaries

  ghost predicate UniqueKeys(pairs: seq<Pair>) {
    forall i, j :: 0 <= i < j < |pairs| ==> pairs[i].key != pairs[j].key
  }

  ghost predicate Has(pairs: seq<Pair>, k: string, v: string) {
    exists i :: 0 <= i < |pairs| && pairs[i] == Pair(k, v)
  }

  /** Put leaves one pair for the key, the given one, and every other pair as it was. */
  lemma {:induction false} PutMeaning(pairs: seq<Pair>, p: Pair)
    requires UniqueKeys(pairs)
    ensures UniqueKeys(Put(pairs, p)) && Has(Put(pairs, p), p.key, p.value)
    ensures forall q :: q in Put(pairs, p) ==> q == p || (q in pairs && q.key != p.key)
    ensures forall q :: q in pairs && q.key != p.key ==> q in Put(pairs, p)
  {
    if |pairs| > 0 {
      var head, tail := pairs[0], pairs[1..];
      assert pairs == [head] + tail;
      if head.key == p.key {
        assert Put(pairs, p)[0] == p;
      } else {
        PutMeaning(tail, p);
        var rest := Put(tail, p);
        var i :| 0 <= i < |rest| && rest[i] == p;
        assert ([head] + rest)[i + 1] == p;
        forall j | 0 <= j < |rest| ensures rest[j].key != head.key {
          assert rest[j] in rest;
          if rest[j] != p {
            var h :| 0 <= h < |tail| && tail[h] == rest[j];
            assert pairs[h + 1] == rest[j];
          }
        }
      }
    } else {
      assert Put(pairs, p)[0] == p;
    }
  }

  predicate Sets(updates: seq<Pair>, k: string) {
    exists i :: 0 <= i < |updates| && updates[i].key == k
  }

  /** After all updates, with distinct keys, every update is in place and the rest comes from before. */
  lemma {:induction false} PutAllMeaning(pairs: seq<Pair>, updates: seq<Pair>)
    requires UniqueKeys(pairs) && UniqueKeys(updates)
    ensures UniqueKeys(PutAll(pairs, updates))
    ensures forall q :: q in updates ==> q in PutAll(pairs, updates)
    ensures forall q :: q in PutAll(pairs, updates) ==> q in updates || q in pairs
    ensures forall q :: q in pairs && !Sets(updates, q.key) ==> q in PutAll(pairs, updates)
  {
    if |updates| > 0 {
      var init, last := updates[..|updates| - 1], updates[|updates| - 1];
      assert updates == init + [last];
      PutAllMeaning(pairs, init);
      PutMeaning(PutAll(pairs, init), last);
      assert last in PutAll(pairs, updates);
      forall q | q in init ensures q.key != last.key {
        var i :| 0 <= i < |init| && init[i] == q;
        assert updates[i] == q;
      }
      forall q | q in pairs && !Sets(updates, q.key) ensures q in PutAll(pairs, updates) {
        assert updates[|updates| - 1] == last;
        assert forall i :: 0 <= i < |init| ==> updates[i] == init[i];
      }
    }
  }

  lemma {:induction false} LookUp(pairs: seq<Pair>, q: Pair)
    requires UniqueKeys(pairs) && q in pairs
    ensures q.key in AsMap(pairs) && AsMap(pairs)[q.key] == q.value
  {
    var init, last := pairs[..|pairs| - 1], pairs[|pairs| - 1];
    assert pairs == init + [last];
    if q in init {
      LookUp(init, q);
      var i :| 0 <= i < |init| && init[i] == q;
      assert pairs[i] == q;
    }
  }

  // ---------------------------------------------------------------- the names are distinct keys

  /** The place of a setting's name among all settings, told from a few of its characters. */
  function Position(s: string): int {
    if |s| == 8 then 23 else
    if |s| == 10 then if s[4] == 'E' then 0 else if s[4] == 'S' then 25 else 28 else
    if |s| == 11 then 39 else
    if |s| == 12 then 12 else
    if |s| == 13 then if s[1] == 'H' then 14 else if s[1] == 'O' then 24 else if s[1] == 'E' then 41 else 43 else
    if |s| == 14 then
      if s[13] == 'L' then 10 else if s[13] == 'R' then 13 else if s[13] == 'D' then 33
      else if s[13] == 'Y' then 36 else 42 else
    if |s| == 15 then if s[14] == 'D' then 1 else if s[14] == 'R' then 15 else if s[14] == 'E' then 16 else 30 else
    if |s| == 16 then
      if s[10] == 'T' then 3 else if s[10] == 'K' then 4 else if s[10] == 'P' then 26
      else if s[10] == 'C' then 27 else if s[10] == '_' then 37 else 40 else
    if |s| == 17 then if s[16] == 'T' then 31 else 32 else
    if |s| == 18 then if s[17] == 'T' then 29 else 45 else
    if |s| == 19 then 34 else
    if |s| == 20 then if s[19] == 'R' then 22 else 46 else
    if |s| == 21 then if s[20] == 'T' then 11 else 44 else
    if |s| == 22 then if s[17] == 'G' then 17 else 19 else
    if |s| == 23 then if s[21] == 'N' then 5 else if s[21] == 'L' then 18 else 35 else
    if |s| == 25 then if s[24] == 'D' then 2 else 8 else
    if |s| == 26 then 9 else
    if |s| == 27 then 7 else
    if |s| == 28 then if s[26] == 'I' then 6 else if s[26] == 'L' then 21 else 38 else
    if |s| == 29 then 20 else
    -1
  }

  ghost predicate Named(pairs: seq<Pair>, offset: nat) {
    forall i :: 0 <= i < |pairs| ==> Position(pairs[i].key) == offset + i && IsKey(pairs[i].key)
  }

  lemma {:induction false} SettingsPositions()
    ensures Position("IMAGE_NAME") == 0
    ensures Position("RHD_INSTANCE_ID") == 1
    ensures Position("RHD_DEPLOYMENT_PROJECT_ID") == 2
    ensures Position("RHD_PROJECT_NAME") == 3
    ensures Position("RHD_NETWORK_NAME") == 4
    ensures Position("RHD_PROJECT_ENVIRONMENT") == 5
    ensures Position("RHD_PROJECT_CONFIG_TENANT_ID") == 6
    ensures Position("RHD_PROJECT_CONFIG_REQUIRED") == 7
    ensures Position("RHD_PROJECT_CONFIG_DIGEST") == 8
    ensures Position("RHD_PROJECT_CONFIG_CHECKER") == 9
    ensures Position("RHD_PUBLIC_URL") == 10
    ensures Position("MINIO_PUBLIC_ENDPOINT") == 11
  {
  }

  lemma {:induction false} SettingsKeys1()
    ensures IsKey("IMAGE_NAME")
    ensures IsKey("RHD_INSTANCE_ID")
    ensures IsKey("RHD_DEPLOYMENT_PROJECT_ID")
    ensures IsKey("RHD_PROJECT_NAME")
  {
  }

  lemma {:induction false} SettingsKeys2()
    ensures IsKey("RHD_NETWORK_NAME")
    ensures IsKey("RHD_PROJECT_ENVIRONMENT")
    ensures IsKey("RHD_PROJECT_CONFIG_TENANT_ID")
    ensures IsKey("RHD_PROJECT_CONFIG_REQUIRED")
  {
  }

  lemma {:induction false} SettingsKeys3()
    ensures IsKey("RHD_PROJECT_CONFIG_DIGEST")
    ensures IsKey("RHD_PROJECT_CONFIG_CHECKER")
    ensures IsKey("RHD_PUBLIC_URL")
    ensures IsKey("MINIO_PUBLIC_ENDPOINT")
  {
  }

  lemma {:induction false} SettingsNamed(t: Target)
    requires 0 <= t.tenant
    ensures |Settings(t)| == 12 && Named(Settings(t), 0)
  {
    hide Position, IsKey;
    SettingsPositions();
    SettingsKeys1();
    SettingsKeys2();
    SettingsKeys3();
  }

  lemma {:induction false} PathsPositions()
    ensures Position("RHD_DATA_DIR") == 12
    ensures Position("RHD_BACKUP_DIR") == 13
    ensures Position("RHD_STATE_DIR") == 14
    ensures Position("RHD_METRICS_DIR") == 15
    ensures Position("RHD_CONFIG_FILE") == 16
    ensures Position("RHD_PROJECT_CONFIG_DIR") == 17
    ensures Position("RHD_PROJECT_CONFIG_FILE") == 18
    ensures Position("RHD_PROJECT_SECRET_DIR") == 19
    ensures Position("RHD_TEST_DATA_PROVENANCE_FILE") == 20
    ensures Position("RHD_ALERTMANAGER_CONFIG_FILE") == 21
    ensures Position("RHD_RESTORE_DATA_DIR") == 22
  {
  }

  lemma {:induction false} PathsKeys1()
    ensures IsKey("RHD_DATA_DIR")
    ensures IsKey("RHD_BACKUP_DIR")
    ensures IsKey("RHD_STATE_DIR")
    ensures IsKey("RHD_METRICS_DIR")
  {
  }

  lemma {:induction false} PathsKeys2()
    ensures IsKey("RHD_CONFIG_FILE")
    ensures IsKey("RHD_PROJECT_CONFIG_DIR")
    ensures IsKey("RHD_PROJECT_CONFIG_FILE")
    ensures IsKey("RHD_PROJECT_SECRET_DIR")
  {
  }

  lemma {:induction false} PathsKeys3()
    ensures IsKey("RHD_TEST_DATA_PROVENANCE_FILE")
    ensures IsKey("RHD_ALERTMANAGER_CONFIG_FILE")
    ensures IsKey("RHD_RESTORE_DATA_DIR")
  {
  }

  lemma {:induction false} PathsNamed(root: string)
    ensures |PathPairs(root)| == 11 && Named(PathPairs(root), 12)
  {
    hide Position, IsKey;
    PathsPositions();
    PathsKeys1();
    PathsKeys2();
    PathsKeys3();
  }

  lemma {:induction false} PortsPositions()
    ensures Position("APP_PORT") == 23
    ensures Position("POSTGRES_PORT") == 24
    ensures Position("REDIS_PORT") == 25
    ensures Position("QDRANT_HTTP_PORT") == 26
    ensures Position("QDRANT_GRPC_PORT") == 27
    ensures Position("MINIO_PORT") == 28
    ensures Position("MINIO_CONSOLE_PORT") == 29
    ensures Position("PROMETHEUS_PORT") == 30
    ensures Position("ALERTMANAGER_PORT") == 31
  {
  }

  lemma {:induction false} PortsKeys1()
    ensures IsKey("APP_PORT")
    ensures IsKey("POSTGRES_PORT")
    ensures IsKey("REDIS_PORT")
    ensures IsKey("QDRANT_HTTP_PORT")
  {
  }

  lemma {:induction false} PortsKeys2()
    ensures IsKey("QDRANT_GRPC_PORT")
    ensures IsKey("MINIO_PORT")
    ensures IsKey("MINIO_CONSOLE_PORT")
    ensures IsKey("PROMETHEUS_PORT")
  {
  }

  lemma {:induction false} PortsKeys3()
    ensures IsKey("ALERTMANAGER_PORT")
  {
  }

  lemma {:induction false} PortsNamed(base: nat)
    ensures |PortPairs(base)| == 9 && Named(PortPairs(base), 23)
  {
    hide Position, IsKey;
    PortsPositions();
    PortsKeys1();
    PortsKeys2();
    PortsKeys3();
  }

  lemma {:induction false} SecretsPositions()
    ensures Position("POSTGRES_PASSWORD") == 32
    ensures Position("REDIS_PASSWORD") == 33
    ensures Position("MINIO_ROOT_PASSWORD") == 34
    ensures Position("CUSTOMER_SESSION_SECRET") == 35
    ensures Position("ENCRYPTION_KEY") == 36
    ensures Position("MCP_SERVER_TOKEN") == 37
    ensures Position("RHD_BOOTSTRAP_ADMIN_PASSWORD") == 38
  {
  }

  lemma {:induction false} SecretsKeys1()
    ensures IsKey("POSTGRES_PASSWORD")
    ensures IsKey("REDIS_PASSWORD")
    ensures IsKey("MINIO_ROOT_PASSWORD")
    ensures IsKey("CUSTOMER_SESSION_SECRET")
  {
  }

  lemma {:induction false} SecretsKeys2()
    ensures IsKey("ENCRYPTION_KEY")
    ensures IsKey("MCP_SERVER_TOKEN")
    ensures IsKey("RHD_BOOTSTRAP_ADMIN_PASSWORD")
  {
  }

  lemma {:induction false} SecretsNamed(secrets: seq<string>)
    requires |secrets| == SECRET_COUNT
    ensures |SecretPairs(secrets)| == 7 && Named(SecretPairs(secrets), 32)
  {
    hide Position, IsKey;
    SecretsPositions();
    SecretsKeys1();
    SecretsKeys2();
  }

  lemma {:induction false} BindsPositions()
    ensures Position("APP_BIND_IP") == 39
    ensures Position("POSTGRES_BIND_IP") == 40
    ensures Position("REDIS_BIND_IP") == 41
    ensures Position("QDRANT_BIND_IP") == 42
    ensures Position("MINIO_BIND_IP") == 43
    ensures Position("MINIO_CONSOLE_BIND_IP") == 44
    ensures Position("PROMETHEUS_BIND_IP") == 45
    ensures Position("ALERTMANAGER_BIND_IP") == 46
  {
  }

  lemma {:induction false} BindsKeys1()
    ensures IsKey("APP_BIND_IP")
    ensures IsKey("POSTGRES_BIND_IP")
    ensures IsKey("REDIS_BIND_IP")
    ensures IsKey("QDRANT_BIND_IP")
  {
  }

  lemma {:induction false} BindsKeys2()
    ensures IsKey("MINIO_BIND_IP")
    ensures IsKey("MINIO_CONSOLE_BIND_IP")
    ensures IsKey("PROMETHEUS_BIND_IP")
    ensures IsKey("ALERTMANAGER_BIND_IP")
  {
  }

  lemma {:induction false} BindsNamed()
    ensures |BindPairs()| == 8 && Named(BindPairs(), 39)
  {
    hide Position, IsKey;
    BindsPositions();
    BindsKeys1();
    BindsKeys2();
  }

  lemma {:induction false} NamedConcat(a: seq<Pair>, b: seq<Pair>, offset: nat)
    requires Named(a, offset) && Named(b, offset + |a|)
    ensures Named(a + b, offset)
  {
    hide Position, IsKey;
    forall i | 0 <= i < |a + b| ensures Position((a + b)[i].key) == offset + i && IsKey((a + b)[i].key) {
      assert (a + b)[i] == if i < |a| then a[i] else b[i - |a|];
    }
  }

  lemma {:induction false} UpdatesNamed(t: Target, secrets: seq<string>)
    requires 0 <= t.tenant && 0 <= t.portBase && |secrets| == SECRET_COUNT
    ensures Named(Updates(t, secrets), 0) && UniqueKeys(Updates(t, secrets)) && |Updates(t, secrets)| == 47
  {
    hide Named, Settings, PathPairs, PortPairs, SecretPairs, BindPairs;
    var a, b, c, d, e := Settings(t), PathPairs(t.root), PortPairs(t.portBase), SecretPairs(secrets), BindPairs();
    SettingsNamed(t);
    PathsNamed(t.root);
    PortsNamed(t.portBase);
    SecretsNamed(secrets);
    BindsNamed();
    NamedConcat(a, b, 0);
    NamedConcat(a + b, c, 0);
    NamedConcat(a + b + c, d, 0);
    NamedConcat(a + b + c + d, e, 0);
    NamedIsUnique(a + b + c + d + e);
  }

  lemma {:induction false} NamedIsUnique(pairs: seq<Pair>)
    requires Named(pairs, 0)
    ensures UniqueKeys(pairs)
  {
    hide Position, IsKey;
    forall i, j | 0 <= i < j < |pairs| ensures pairs[i].key != pairs[j].key {
      assert Position(pairs[i].key) == i && Position(pairs[j].key) == j;
    }
  }

  // ---------------------------------------------------------------- the values survive the round trip

  predicate SafeChar(c: char) {
    Alnum(c) || c == '_' || c == '.' || c == '/' || c == ':' || c == '-'
  }

  /** Letters, digits and a few separators: nothing that breaks, substitutes or quotes. */
  predicate Safe(s: string) {
    forall i :: 0 <= i < |s| ==> SafeChar(s[i])
  }

  lemma {:induction false} SafeIsPlain(s: string)
    requires Safe(s)
    ensures Unbroken(s) && Plain(s) && Unquote(s) == s
  {
    if |s| > 0 { assert SafeChar(s[0]); }
  }

  lemma {:induction false} SafeConcat(a: string, b: string)
    requires Safe(a) && Safe(b)
    ensures Safe(a + b)
  {
  }

  lemma {:induction false} SafeLiterals()
    ensures Safe("onward-") && Safe("-staging") && Safe("-production") && Safe("_1panel") && Safe("1") && Safe("")
    ensures Safe("staging") && Safe("production") && Safe("integration") && Safe("daypop-shared") && Safe("127.0.0.1")
  {
  }

  lemma {:induction false} SafeSharedInstance()
    ensures Safe("onward-shared-integration")
  {
  }

  lemma {:induction false} SafeSuffixes()
    ensures Safe("/volumes") && Safe("/backups") && Safe("/state") && Safe("/metrics") && Safe("/project-config")
  {
  }

  lemma {:induction false} SafeConfigSuffixes()
    ensures Safe("/remotehelpdesk.yaml") && Safe("/project-config/current.json")
  {
  }

  lemma {:induction false} SafeDataSuffixes()
    ensures Safe("/project-secrets") && Safe("/data-provenance.json") && Safe("/alertmanager.yml")
  {
  }

  ghost predicate Identified(t: Target) {
    SharedIdentity(t) || ProjectIdentity(t)
  }

  lemma {:induction false} SafeInstance(t: Target)
    requires Identified(t) && t.instance == InstanceId(t.project, t.environment)
    ensures Safe(t.instance) && Safe(t.project) && Safe(t.environment)
  {
    hide Safe;
    SafeLiterals();
    SafeSharedInstance();
    if ProjectIdentity(t) {
      SafeIdentifier(t.project);
      assert "-" + t.environment == "-staging" || "-" + t.environment == "-production";
      SafeConcat("onward-", t.project);
      SafeConcat("onward-" + t.project, "-" + t.environment);
    }
  }

  lemma {:induction false} SafeIdentifier(s: string)
    requires IsIdentifier(s)
    ensures Safe(s)
  {
  }

  lemma {:induction false} SafeDecimal(n: nat)
    ensures Safe(Decimal(n))
  {
    var s := Decimal(n);
    forall i | 0 <= i < |s| ensures SafeChar(s[i]) {
      assert IsDigit(s[i]);
    }
  }

  lemma {:induction false} SafeRoot(s: string)
    requires IsDeploymentRoot(s)
    ensures Safe(s)
  {
    forall i | 0 <= i < |s| ensures SafeChar(s[i]) {
      assert RootChar(s[i]);
    }
  }

  lemma {:induction false} SafeUrl(url: string, host: string)
    requires PublicOrigin(Str(url)) == Ok(Origin(url, host))
    ensures Safe(url)
  {
    hide PublicOrigin;
    PublicOriginIsStable(Str(url));
  }

  lemma {:induction false} SafeDigest(s: string)
    requires s == "" || IsHexDigest(s)
    ensures Safe(s)
  {
  }

  ghost predicate AllSafe(pairs: seq<Pair>) {
    forall i :: 0 <= i < |pairs| ==> Safe(pairs[i].value)
  }

  lemma {:induction false} SettingsSafe(t: Target)
    requires ValidTarget(t) && Identified(t)
    ensures AllSafe(Settings(t))
  {
    hide Safe, PublicOrigin, Hostname, IsHexDigest, IsIdentifier, IsDeploymentRoot, InstanceId, Decimal, Identified;
    SafeLiterals();
    SafeInstance(t);
    SafeConcat(t.instance, "_1panel");
    SafeDecimal(t.tenant);
    SafeUrl(t.publicUrl, Hostname(t.publicUrl));
    SafeUrl(t.filesUrl, Hostname(t.filesUrl));
    SafeDigest(t.digest);
  }

  lemma {:induction false} PathsSafe(root: string)
    requires IsDeploymentRoot(root)
    ensures AllSafe(PathPairs(root))
  {
    hide Safe;
    SafeRoot(root);
    SafeSuffixes();
    SafeConfigSuffixes();
    SafeDataSuffixes();
    var pairs := PathPairs(root);
    forall i | 0 <= i < |pairs| ensures Safe(pairs[i].value) {
      SafeConcat(root, pairs[i].value[|root|..]);
      assert pairs[i].value == root + pairs[i].value[|root|..];
    }
  }

  lemma {:induction false} PortsSafe(base: nat)
    ensures AllSafe(PortPairs(base))
  {
    hide Safe, Decimal;
    var pairs := PortPairs(base);
    forall i | 0 <= i < |pairs| ensures Safe(pairs[i].value) {
      SafeDecimal(base + i);
    }
  }

  lemma {:induction false} SafeAll(a: seq<Pair>, b: seq<Pair>)
    requires AllSafe(a) && AllSafe(b)
    ensures AllSafe(a + b)
  {
    hide Safe;
  }

  lemma {:induction false} SecretsAndBindsSafe(secrets: seq<string>)
    requires |secrets| == SECRET_COUNT && forall i :: 0 <= i < |secrets| ==> Safe(secrets[i])
    ensures AllSafe(SecretPairs(secrets)) && AllSafe(BindPairs())
  {
    hide Safe;
    SafeLiterals();
  }

  lemma {:induction false} UpdatesSafe(t: Target, secrets: seq<string>)
    requires ValidTarget(t) && Identified(t)
    requires |secrets| == SECRET_COUNT && forall i :: 0 <= i < |secrets| ==> Safe(secrets[i])
    ensures AllSafe(Updates(t, secrets))
  {
    hide AllSafe, Settings, PathPairs, PortPairs, SecretPairs, BindPairs, Identified, PublicOrigin, Hostname,
         IsDeploymentRoot;
    SettingsSafe(t);
    PathsSafe(t.root);
    PortsSafe(t.portBase);
    SecretsAndBindsSafe(secrets);
    var a, b, c, d, e := Settings(t), PathPairs(t.root), PortPairs(t.portBase), SecretPairs(secrets), BindPairs();
    SafeAll(a, b);
    SafeAll(a + b, c);
    SafeAll(a + b + c, d);
    SafeAll(a + b + c + d, e);
  }

  // ---------------------------------------------------------------- the template

  ghost predicate Legible(p: Pair) {
    IsKey(p.key) && Unbroken(p.value)
  }

  lemma {:induction false} AfterUnbroken(s: string, c: char)
    requires Unbroken(s)
    ensures Unbroken(After(s, c))
  {
    if |s| > 0 && s[0] != c {
      assert Unbroken(s[1..]);
      AfterUnbroken(s[1..], c);
    }
  }

  lemma {:induction false} TemplateIsLegible(lines: seq<string>, n: nat)
    requires n <= |lines| && (forall i :: 0 <= i < |lines| ==> Unbroken(lines[i])) && TemplateLines(lines, n).Ok?
    ensures UniqueKeys(TemplateLines(lines, n).value)
    ensures forall q :: q in TemplateLines(lines, n).value ==> Legible(q)
  {
    hide Put, Before, IsKey, Unbroken, TrimLeft;
    if n > 0 {
      TemplateIsLegible(lines, n - 1);
      var before, line := TemplateLines(lines, n - 1).value, lines[n - 1];
      if TemplateLines(lines, n).value != before {
        AfterUnbroken(line, '=');
        PutMeaning(before, Pair(Before(line, '='), After(line, '=')));
      }
    }
  }

  /**
   Whatever the template, accepted values form a writable environment in which every instance
   setting has its value, quotes or not.
   */
  lemma {:induction false} EnvironmentIsWritable(t: Target, template: string, secrets: seq<string>)
    requires ValidTarget(t) && Identified(t)
    requires |secrets| == SECRET_COUNT && forall i :: 0 <= i < |secrets| ==> Safe(secrets[i])
    requires EnvironmentValues(t, template, secrets).Ok?
    ensures var values := EnvironmentValues(t, template, secrets).value;
            && Writable(values) && |values| > 0
            && forall q :: q in Updates(t, secrets) ==>
                 q.key in AsMap(values) && Unquoted(AsMap(values))[q.key] == q.value
  {
    hide Updates, PutAll, Template, Named, Safe, Identified, PublicOrigin, Hostname, AsMap, Unquote, IsKey, Unbroken,
         Plain;
    var updates, defaults := Updates(t, secrets), Template(template).value;
    var values := PutAll(defaults, updates);
    DefaultsLegible(template);
    UpdatesNamed(t, secrets);
    UpdatesLegible(t, secrets);
    PutAllMeaning(defaults, updates);
    forall i | 0 <= i < |values| ensures Legible(values[i]) && Plain(values[i].value) {
      assert values[i] in values;
      PlainWhenAccepted(values[i].value);
    }
    forall q | q in updates ensures q.key in AsMap(values) && Unquoted(AsMap(values))[q.key] == q.value {
      LookUp(values, q);
    }
    assert updates[0] in values;
  }

  lemma {:induction false} PlainWhenAccepted(v: string)
    requires !Substitutes(v)
    ensures Plain(v)
  {
  }

  lemma {:induction false} DefaultsLegible(template: string)
    requires Template(template).Ok?
    ensures UniqueKeys(Template(template).value) && forall q :: q in Template(template).value ==> Legible(q)
  {
    TemplateIsLegible(SplitLines(template), |SplitLines(template)|);
  }

  lemma {:induction false} UpdatesLegible(t: Target, secrets: seq<string>)
    requires ValidTarget(t) && Identified(t)
    requires |secrets| == SECRET_COUNT && forall i :: 0 <= i < |secrets| ==> Safe(secrets[i])
    ensures forall q :: q in Updates(t, secrets) ==> Legible(q) && Unquote(q.value) == q.value
  {
    hide Updates, Safe, Identified, PublicOrigin, Hostname, IsKey, Unbroken, Plain, Unquote, Position;
    UpdatesNamed(t, secrets);
    UpdatesSafe(t, secrets);
    var updates := Updates(t, secrets);
    forall q | q in updates ensures Legible(q) && Unquote(q.value) == q.value {
      var i :| 0 <= i < |updates| && updates[i] == q;
      SafeIsPlain(q.value);
    }
  }

  lemma SafeNeverSubstitutes(s: string)
    requires Safe(s)
    ensures !Substitutes(s)
  {
  }

  /** The template can be parsed, and every default with a substitution is replaced by a setting. */
  ghost predicate CleanTemplate(template: string, updates: seq<Pair>) {
    Template(template).Ok? && forall q :: q in Template(template).value && Substitutes(q.value) ==> Sets(updates, q.key)
  }

  lemma EmptyTemplateIsClean(updates: seq<Pair>)
    ensures CleanTemplate("", updates)
  {
    assert SplitLines("") == [];
  }

  /**
   The writer refuses only for its template: a line it cannot parse, or a default with a substitution that no setting
   replaces.
   */
  lemma {:induction false} WriterRefusesOnlyTemplates(t: Target, template: string, secrets: seq<string>)
    requires ValidTarget(t) && Identified(t)
    requires |secrets| == SECRET_COUNT && forall i :: 0 <= i < |secrets| ==> Safe(secrets[i])
    ensures EnvironmentValues(t, template, secrets).Ok? <==> CleanTemplate(template, Updates(t, secrets))
  {
    hide Updates, Safe, Identified, PublicOrigin, Hostname, Substitutes, Template, PutAll, Position;
    if Template(template).Ok? {
      var defaults, updates := Template(template).value, Updates(t, secrets);
      DefaultsLegible(template);
      UpdatesNamed(t, secrets);
      UpdatesSafe(t, secrets);
      PutAllMeaning(defaults, updates);
      var values := PutAll(defaults, updates);
      forall i | 0 <= i < |values|
        ensures Substitutes(values[i].value) ==> values[i] in defaults && !Sets(updates, values[i].key)
      {
        assert values[i] in values;
        if values[i] !in updates {
          KeptDefault(values, updates, i);
        } else {
          var j :| 0 <= j < |updates| && updates[j] == values[i];
          SafeNeverSubstitutes(updates[j].value);
        }
      }
      if forall i :: 0 <= i < |values| ==> !Substitutes(values[i].value) {
        forall q | q in defaults && Substitutes(q.value) ensures Sets(updates, q.key) {
          assert q !in values;
        }
      }
    }
  }

  // A pair that is no update has a key that no update sets.
  lemma {:induction false} KeptDefault(values: seq<Pair>, updates: seq<Pair>, i: nat)
    requires UniqueKeys(values) && (forall q :: q in updates ==> q in values) && i < |values| && values[i] !in updates
    ensures !Sets(updates, values[i].key)
  {
    forall j | 0 <= j < |updates| ensures updates[j].key != values[i].key {
      assert updates[j] in updates && updates[j] in values;
      var k :| 0 <= k < |values| && values[k] == updates[j];
      assert k != i;
    }
  }
}
