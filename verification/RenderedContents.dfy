/** What the writer puts into a package: the manifest, the settings, the template's defaults and the attestation. */
module RenderedContents {
  import opened Wrappers
  import opened Text
  import opened PlanChecks
  import opened Inventory
  import opened Isolation
  import opened EnvText
  import opened EnvReading
  import opened Environment
  import opened Provenance
  import opened ProvenanceMeaning
  import opened Package
  import opened PackageAcceptance
  import PackageSize
  import JsonSize
  import InventoryMeaning

  // ---------------------------------------------------------------- the template

  /** White space, then a number sign. */
  ghost predicate Comment(line: string) {
    exists n :: 0 <= n < |line| && line[n] == '#' && forall i :: 0 <= i < n ==> EnvText.IsSpace(line[i])
  }

  /** A line of the template that sets a default. */
  ghost predicate Offers(line: string, key: string, value: string) {
    !Comment(line) && '=' !in key && line == key + ['='] + value
  }

  lemma {:induction false} CommentMeans(line: string)
    ensures Comment(line) <==> TrimLeft(line) != "" && TrimLeft(line)[0] == '#'
  {
    if |line| > 0 && EnvText.IsSpace(line[0]) {
      var rest := line[1..];
      CommentMeans(rest);
      if Comment(rest) {
        var n :| 0 <= n < |rest| && rest[n] == '#' && forall i :: 0 <= i < n ==> EnvText.IsSpace(rest[i]);
        assert forall i :: 1 <= i < |line| ==> line[i] == rest[i - 1];
        assert line[n + 1] == '#';
      }
      if Comment(line) {
        var n :| 0 <= n < |line| && line[n] == '#' && forall i :: 0 <= i < n ==> EnvText.IsSpace(line[i]);
        assert n > 0 && rest[n - 1] == '#';
      }
    } else if |line| > 0 && line[0] == '#' {
      assert Comment(line);
    }
  }

  lemma {:induction false} OfferMeans(line: string, key: string, value: string)
    ensures Offers(line, key, value) <==>
            !Comment(line) && '=' in line && key == Before(line, '=') && value == After(line, '=')
  {
    hide Comment, Before, After;
    if Offers(line, key, value) {
      assert line[|key|] == '=';
      PartitionJoined(key, value, '=');
    }
    if '=' in line { LineParts(line); }
  }

  ghost predicate LastOffer(lines: seq<string>, n: nat, key: string, value: string)
    requires n <= |lines|
  {
    exists i :: 0 <= i < n && Offers(lines[i], key, value) && forall j, w :: i < j < n ==> !Offers(lines[j], key, w)
  }

  ghost predicate AllLegal(lines: seq<string>, n: nat)
    requires n <= |lines|
  {
    forall i, key, value :: 0 <= i < n && Offers(lines[i], key, value) ==> IsKey(key)
  }

  /** The template is refused exactly for an illegal key, and offers the last value of every key. */
  lemma {:induction false} TemplateMeans(lines: seq<string>, n: nat)
    requires n <= |lines|
    ensures TemplateLines(lines, n).Ok? <==> AllLegal(lines, n)
    ensures TemplateLines(lines, n).Ok? ==>
              && UniqueKeys(TemplateLines(lines, n).value)
              && forall key, value ::
                   Has(TemplateLines(lines, n).value, key, value) <==> LastOffer(lines, n, key, value)
  {
    hide Offers, TrimLeft, Before, After, IsKey, Put, Has;
    if n == 0 {
      forall key, value ensures !Has(TemplateLines(lines, 0).value, key, value) { NoneHas(key, value); }
    } else {
      TemplateMeans(lines, n - 1);
      var line := lines[n - 1];
      CommentMeans(line);
      var k, v := Before(line, '='), After(line, '=');
      OfferMeans(line, k, v);
      forall key, value | Offers(line, key, value) ensures key == k && value == v && '=' in line && !Comment(line) {
        OfferMeans(line, key, value);
      }
      if TemplateLines(lines, n - 1).Ok? {
        var before := TemplateLines(lines, n - 1).value;
        if Offers(line, k, v) {
          PutMeaning(before, Pair(k, v));
          if IsKey(k) {
            forall key, value
              ensures Has(Put(before, Pair(k, v)), key, value) <==> LastOffer(lines, n, key, value)
            {
              HasPut(before, Pair(k, v), key, value);
              NextOffer(lines, n, line, k, v, key, value);
            }
          }
        } else {
          forall key, value ensures LastOffer(lines, n, key, value) <==> LastOffer(lines, n - 1, key, value) {
            SameOffer(lines, n, line, key, value);
          }
        }
      }
    }
  }

  lemma NoneHas(key: string, value: string)
    ensures !Has([], key, value)
  {
  }

  lemma {:induction false} HasPut(pairs: seq<Pair>, p: Pair, key: string, value: string)
    requires UniqueKeys(pairs)
    ensures Has(Put(pairs, p), key, value) <==> if key == p.key then value == p.value else Has(pairs, key, value)
  {
    hide Put;
    PutMeaning(pairs, p);
    HasIn(pairs, key, value);
    HasIn(Put(pairs, p), key, value);
    HasIn(Put(pairs, p), p.key, p.value);
    assert p == Pair(p.key, p.value);
  }

  lemma HasIn(pairs: seq<Pair>, key: string, value: string)
    ensures Has(pairs, key, value) <==> Pair(key, value) in pairs
  {
  }

  lemma {:induction false} NextOffer(
    lines: seq<string>, n: nat, line: string, k: string, v: string, key: string, value: string)
    requires 0 < n <= |lines| && line == lines[n - 1] && Offers(line, k, v)
    requires forall x, y :: Offers(line, x, y) ==> x == k && y == v
    ensures LastOffer(lines, n, key, value) <==> if key == k then value == v else LastOffer(lines, n - 1, key, value)
  {
    hide Offers;
    if key == k {
      if value == v { assert Offers(lines[n - 1], key, value); }
      if LastOffer(lines, n, key, value) {
        var i :| 0 <= i < n && Offers(lines[i], key, value) && forall j, w :: i < j < n ==> !Offers(lines[j], key, w);
        assert i == n - 1;
      }
    } else {
      if LastOffer(lines, n, key, value) {
        var i :| 0 <= i < n && Offers(lines[i], key, value) && forall j, w :: i < j < n ==> !Offers(lines[j], key, w);
        assert i < n - 1;
      }
      if LastOffer(lines, n - 1, key, value) {
        var i :| 0 <= i < n - 1 && Offers(lines[i], key, value) &&
                 forall j, w :: i < j < n - 1 ==> !Offers(lines[j], key, w);
        assert forall j, w :: i < j < n ==> !Offers(lines[j], key, w);
      }
    }
  }

  lemma {:induction false} SameOffer(lines: seq<string>, n: nat, line: string, key: string, value: string)
    requires 0 < n <= |lines| && line == lines[n - 1] && forall x, y :: !Offers(line, x, y)
    ensures LastOffer(lines, n, key, value) <==> LastOffer(lines, n - 1, key, value)
  {
    hide Offers;
    if LastOffer(lines, n, key, value) {
      var i :| 0 <= i < n && Offers(lines[i], key, value) && forall j, w :: i < j < n ==> !Offers(lines[j], key, w);
      assert i < n - 1;
    }
    if LastOffer(lines, n - 1, key, value) {
      var i :| 0 <= i < n - 1 && Offers(lines[i], key, value) &&
               forall j, w :: i < j < n - 1 ==> !Offers(lines[j], key, w);
      assert forall j, w :: i < j < n ==> !Offers(lines[j], key, w);
    }
  }

  // ---------------------------------------------------------------- the settings

  const SECRET_KEYS: seq<string> := [
    "POSTGRES_PASSWORD", "REDIS_PASSWORD", "MINIO_ROOT_PASSWORD", "CUSTOMER_SESSION_SECRET", "ENCRYPTION_KEY",
    "MCP_SERVER_TOKEN", "RHD_BOOTSTRAP_ADMIN_PASSWORD" ]

  /** The 47 settings of a target: names, paths, ports, one secret each, and local addresses. */
  ghost predicate Setting(t: Target, secrets: seq<string>, key: string, value: string)
    requires 0 <= t.tenant && 0 <= t.portBase && |secrets| == 7
  {
    || (key in {"IMAGE_NAME", "RHD_INSTANCE_ID", "RHD_PROJECT_NAME"} && value == t.instance)
    || (key == "RHD_DEPLOYMENT_PROJECT_ID" && value == t.project)
    || (key == "RHD_NETWORK_NAME" && value == t.instance + "_1panel")
    || (key == "RHD_PROJECT_ENVIRONMENT" && value == t.environment)
    || (key == "RHD_PROJECT_CONFIG_TENANT_ID" && value == Decimal(t.tenant))
    || (key == "RHD_PROJECT_CONFIG_REQUIRED" && value == "1")
    || (key == "RHD_PROJECT_CONFIG_DIGEST" && value == t.digest)
    || (key == "RHD_PROJECT_CONFIG_CHECKER" && value == "")
    || (key == "RHD_PUBLIC_URL" && value == t.publicUrl) || (key == "MINIO_PUBLIC_ENDPOINT" && value == t.filesUrl)
    || (exists i :: 0 <= i < 11 && key == SUFFIXES[i].key && value == t.root + SUFFIXES[i].value)
    || (exists i :: 0 <= i < 9 && key == PORT_KEYS[i] && value == Decimal(t.portBase + i))
    || (exists i :: 0 <= i < 7 && key == SECRET_KEYS[i] && value == secrets[i])
    || (exists i :: 0 <= i < 8 && key == BIND_KEYS[i] && value == "127.0.0.1")
  }

  lemma {:induction false} NamesMean(t: Target, p: Pair)
    requires 0 <= t.tenant
    ensures p in Settings(t) <==>
            || (p.key in {"IMAGE_NAME", "RHD_INSTANCE_ID", "RHD_PROJECT_NAME"} && p.value == t.instance)
            || (p.key == "RHD_DEPLOYMENT_PROJECT_ID" && p.value == t.project)
            || (p.key == "RHD_NETWORK_NAME" && p.value == t.instance + "_1panel")
            || (p.key == "RHD_PROJECT_ENVIRONMENT" && p.value == t.environment)
            || (p.key == "RHD_PROJECT_CONFIG_TENANT_ID" && p.value == Decimal(t.tenant))
            || (p.key == "RHD_PROJECT_CONFIG_REQUIRED" && p.value == "1")
            || (p.key == "RHD_PROJECT_CONFIG_DIGEST" && p.value == t.digest)
            || (p.key == "RHD_PROJECT_CONFIG_CHECKER" && p.value == "")
            || (p.key == "RHD_PUBLIC_URL" && p.value == t.publicUrl)
            || (p.key == "MINIO_PUBLIC_ENDPOINT" && p.value == t.filesUrl)
  {
    hide Decimal;
    var s := Settings(t);
    assert s[0] == Pair("IMAGE_NAME", t.instance) && s[1] == Pair("RHD_INSTANCE_ID", t.instance);
    assert s[2] == Pair("RHD_DEPLOYMENT_PROJECT_ID", t.project) && s[3] == Pair("RHD_PROJECT_NAME", t.instance);
    assert s[4] == Pair("RHD_NETWORK_NAME", t.instance + "_1panel");
    assert s[5] == Pair("RHD_PROJECT_ENVIRONMENT", t.environment);
    assert s[6] == Pair("RHD_PROJECT_CONFIG_TENANT_ID", Decimal(t.tenant));
    assert s[7] == Pair("RHD_PROJECT_CONFIG_REQUIRED", "1") && s[8] == Pair("RHD_PROJECT_CONFIG_DIGEST", t.digest);
    assert s[9] == Pair("RHD_PROJECT_CONFIG_CHECKER", "") && s[10] == Pair("RHD_PUBLIC_URL", t.publicUrl);
    assert s[11] == Pair("MINIO_PUBLIC_ENDPOINT", t.filesUrl) && |s| == 12;
    hide Settings;
    if p in s {
      var i :| 0 <= i < |s| && s[i] == p;
    }
  }

  lemma {:induction false} TableMeans(pairs: seq<Pair>, n: nat, p: Pair)
    requires |pairs| == n
    ensures p in pairs <==> exists i :: 0 <= i < n && p == pairs[i]
  {
  }

  lemma {:induction false} UpdatesMean(t: Target, secrets: seq<string>, key: string, value: string)
    requires 0 <= t.tenant && 0 <= t.portBase && |secrets| == 7
    ensures Pair(key, value) in Updates(t, secrets) <==> Setting(t, secrets, key, value)
  {
    hide Settings, PathPairs, PortPairs, SecretPairs, BindPairs, ExpectedPaths, Decimal;
    var p := Pair(key, value);
    NamesMean(t, p);
    PathMeans(t.root, p);
    PortMeans(t.portBase, p);
    SecretMeans(secrets, p);
    BindMeans(p);
  }

  lemma SecretTable(secrets: seq<string>)
    requires |secrets| == 7
    ensures |SecretPairs(secrets)| == 7
    ensures forall i :: 0 <= i < 7 ==> SecretPairs(secrets)[i] == Pair(SECRET_KEYS[i], secrets[i])
  {
  }

  lemma PathMeans(root: string, p: Pair)
    ensures p in PathPairs(root) <==>
              exists i :: 0 <= i < 11 && p.key == SUFFIXES[i].key && p.value == root + SUFFIXES[i].value
  {
    hide PathPairs, ExpectedPaths;
    PackageAcceptance.SuffixTable(root);
    SamePaths(root);
    TableMeans(PathPairs(root), 11, p);
    forall i | 0 <= i < 11 && p.key == SUFFIXES[i].key && p.value == root + SUFFIXES[i].value
      ensures p in PathPairs(root)
    {
      assert p == PathPairs(root)[i];
    }
  }

  lemma PortMeans(base: nat, p: Pair)
    ensures p in PortPairs(base) <==> exists i :: 0 <= i < 9 && p.key == PORT_KEYS[i] && p.value == Decimal(base + i)
  {
    hide PortPairs, Decimal;
    PortPairTable(base);
    TableMeans(PortPairs(base), 9, p);
    if i :| 0 <= i < 9 && p.key == PORT_KEYS[i] && p.value == Decimal(base + i) { assert p == PortPairs(base)[i]; }
  }

  lemma SecretMeans(secrets: seq<string>, p: Pair)
    requires |secrets| == 7
    ensures p in SecretPairs(secrets) <==> exists i :: 0 <= i < 7 && p.key == SECRET_KEYS[i] && p.value == secrets[i]
  {
    hide SecretPairs;
    SecretTable(secrets);
    TableMeans(SecretPairs(secrets), 7, p);
    if i :| 0 <= i < 7 && p.key == SECRET_KEYS[i] && p.value == secrets[i] { assert p == SecretPairs(secrets)[i]; }
  }

  lemma BindMeans(p: Pair)
    ensures p in BindPairs() <==> exists i :: 0 <= i < 8 && p.key == BIND_KEYS[i] && p.value == "127.0.0.1"
  {
    hide BindPairs;
    BindTable();
    TableMeans(BindPairs(), 8, p);
    if i :| 0 <= i < 8 && p.key == BIND_KEYS[i] && p.value == "127.0.0.1" { assert p == BindPairs()[i]; }
  }

  // ---------------------------------------------------------------- the values written

  lemma {:induction false} SetsMeans(t: Target, secrets: seq<string>, key: string)
    requires 0 <= t.tenant && 0 <= t.portBase && |secrets| == 7
    ensures Environment.Sets(Updates(t, secrets), key) <==> exists v :: Setting(t, secrets, key, v)
  {
    hide Updates, Setting;
    var updates := Updates(t, secrets);
    if Environment.Sets(updates, key) {
      var i :| 0 <= i < |updates| && updates[i].key == key;
      assert updates[i] == Pair(key, updates[i].value);
      UpdatesMean(t, secrets, key, updates[i].value);
    }
    if v :| Setting(t, secrets, key, v) {
      UpdatesMean(t, secrets, key, v);
    }
  }

  /** Every key has its setting, or else the template's default. */
  ghost predicate Written(t: Target, template: string, secrets: seq<string>, key: string, value: string)
    requires 0 <= t.tenant && 0 <= t.portBase && |secrets| == 7
  {
    var lines := SplitLines(template);
    || Setting(t, secrets, key, value)
    || ((forall v :: !Setting(t, secrets, key, v)) && LastOffer(lines, |lines|, key, value))
  }

  lemma {:induction false} ValuesMean(t: Target, template: string, secrets: seq<string>, key: string, value: string)
    requires 0 <= t.tenant && 0 <= t.portBase && |secrets| == 7 && Template(template).Ok?
    ensures Has(PutAll(Template(template).value, Updates(t, secrets)), key, value) <==>
            Written(t, template, secrets, key, value)
  {
    hide Updates, Setting, SplitLines, TemplateLines, LastOffer, PutAll, Has, UniqueKeys;
    var lines, updates := SplitLines(template), Updates(t, secrets);
    var defaults := Template(template).value;
    var values := PutAll(defaults, updates);
    TemplateMeans(lines, |lines|);
    UpdatesNamed(t, secrets);
    NamedIsUnique(updates);
    PutAllMeaning(defaults, updates);
    SetsMeans(t, secrets, key);
    UpdatesMean(t, secrets, key, value);
    HasIn(values, key, value);
    HasIn(defaults, key, value);
    if Environment.Sets(updates, key) { SettingWins(updates, values, key, value); }
  }

  lemma {:induction false} SettingWins(updates: seq<Pair>, values: seq<Pair>, key: string, value: string)
    requires UniqueKeys(values) && Environment.Sets(updates, key) && (forall q :: q in updates ==> q in values)
    ensures Pair(key, value) in values <==> Pair(key, value) in updates
  {
    var i :| 0 <= i < |updates| && updates[i].key == key;
    var q := updates[i];
    assert q in values;
    if Pair(key, value) in values {
      var a :| 0 <= a < |values| && values[a] == q;
      var b :| 0 <= b < |values| && values[b] == Pair(key, value);
      assert a == b;
    }
  }

  /** A line break, a NUL, a dollar sign or a back quote. */
  ghost predicate Dangerous(value: string) {
    exists x :: x in value && x in {'\r', '\n', '\0', '$', '`'}
  }

  lemma SubstitutesMeans(value: string)
    ensures Substitutes(value) <==> Dangerous(value)
  {
  }

  /** The values are refused exactly for an illegal key of the template or a dangerous value, and else written. */
  lemma {:induction false} EnvironmentMeans(t: Target, template: string, secrets: seq<string>)
    requires 0 <= t.tenant && 0 <= t.portBase && |secrets| == 7
    ensures var lines, values := SplitLines(template), EnvironmentValues(t, template, secrets);
            && (values.Ok? <==>
                AllLegal(lines, |lines|) &&
                forall key, value :: Written(t, template, secrets, key, value) ==> !Dangerous(value))
            && (values.Ok? ==>
                forall key, value :: Has(values.value, key, value) <==> Written(t, template, secrets, key, value))
  {
    hide Updates, SplitLines, TemplateLines, PutAll, Substitutes, Dangerous, AllLegal, Written, Has;
    var lines := SplitLines(template);
    TemplateMeans(lines, |lines|);
    if Template(template).Ok? {
      var values := PutAll(Template(template).value, Updates(t, secrets));
      forall key, value ensures Has(values, key, value) <==> Written(t, template, secrets, key, value) {
        ValuesMean(t, template, secrets, key, value);
      }
      NoDanger(values);
    }
  }

  lemma {:induction false} NoDanger(values: seq<Pair>)
    ensures (forall i :: 0 <= i < |values| ==> !Substitutes(values[i].value)) <==>
            (forall key, value :: Has(values, key, value) ==> !Dangerous(value))
  {
    hide Substitutes, Dangerous;
    forall i | 0 <= i < |values|
      ensures Substitutes(values[i].value) <==> Dangerous(values[i].value)
      ensures Has(values, values[i].key, values[i].value)
    {
      SubstitutesMeans(values[i].value);
      assert values[i] == Pair(values[i].key, values[i].value);
    }
  }

  // ---------------------------------------------------------------- the manifest and the attestation

  /** The manifest: every field of the target but the path of its bundle. */
  ghost predicate ManifestOf(manifest: Json, t: Target) {
    && manifest.Object? && (forall k :: k in manifest.fields ==> k in PackageSize.MANIFEST_NAMES)
    && var fields := manifest.fields;
    && Holds(fields, "schema_version", Int(1)) && Holds(fields, "instance_id", Str(t.instance))
    && Holds(fields, "deployment_project_id", Str(t.project)) && Holds(fields, "environment", Str(t.environment))
    && Holds(fields, "tenant_id", Int(t.tenant)) && Holds(fields, "host_id", Str(t.host))
    && Holds(fields, "deploy_root", Str(t.root)) && Holds(fields, "public_url", Str(t.publicUrl))
    && Holds(fields, "files_url", Str(t.filesUrl)) && Holds(fields, "port_base", Int(t.portBase))
    && Holds(fields, "config_digest", Str(t.digest))
    && Holds(fields, "config_status", Str(if t.digest == "" then "pending_config" else "pending_preflight"))
    && "ports" in fields && NinePorts(fields["ports"], t.portBase)
    && "paths" in fields && ElevenPaths(fields["paths"], t.root)
  }

  lemma {:induction false} ManifestMeans(t: Target)
    ensures ManifestOf(Manifest(t), t)
  {
    hide PortNumbers, TextObject, PathPairs, ExpectedPaths, NinePorts, ElevenPaths;
    var fields := Manifest(t).fields;
    ManifestStatus(t);
    ManifestIdentity(t);
    ManifestLayout(t);
    SamePaths(t.root);
    PortsMean(fields["ports"], t.portBase);
    PathsMean(fields["paths"], t.root);
    forall k | k in fields ensures k in PackageSize.MANIFEST_NAMES { PackageSize.ManifestKey(t, k); }
    hide Manifest;
    ManifestFields(t);
  }

  lemma ManifestStatus(t: Target)
    ensures Holds(Manifest(t).fields, "config_digest", Str(t.digest))
    ensures Holds(Manifest(t).fields, "config_status",
                  Str(if t.digest == "" then "pending_config" else "pending_preflight"))
    ensures "ports" in Manifest(t).fields && "paths" in Manifest(t).fields
  {
    hide PortNumbers, TextObject, PathPairs;
  }

  lemma {:induction false} ManifestFields(t: Target)
    ensures var fields := Manifest(t).fields;
            && Holds(fields, "schema_version", Int(1)) && Holds(fields, "instance_id", Str(t.instance))
            && Holds(fields, "deployment_project_id", Str(t.project))
            && Holds(fields, "environment", Str(t.environment))
            && Holds(fields, "tenant_id", Int(t.tenant)) && Holds(fields, "host_id", Str(t.host))
            && Holds(fields, "deploy_root", Str(t.root)) && Holds(fields, "public_url", Str(t.publicUrl))
            && Holds(fields, "files_url", Str(t.filesUrl)) && Holds(fields, "port_base", Int(t.portBase))
  {
    hide Manifest;
    ManifestIdentity(t);
    ManifestLayout(t);
  }

  /** The default attestation: synthetic, not approved by anyone, and verified at the given time. */
  ghost predicate DefaultOf(document: Json, environment: string, now: string) {
    && Attests(document, environment)
    && var fields := document.fields;
    && fields["classification"] == Str("synthetic") && fields["source_ref"] == Str("generated-fixtures")
    && fields["verification"].Object? && Holds(fields["verification"].fields, "checked_at", Str(now))
    && Holds(fields["verification"].fields, "checked_by", Str("environmentctl"))
    && Holds(fields["verification"].fields, "method", Str(METHOD))
  }

  lemma {:induction false} DefaultMeans(environment: string, now: string)
    ensures DefaultSynthetic(environment, now).Ok? <==>
            && (environment == "integration" || environment == "staging")
            && exists stamp :: Says(Str(now), stamp) && stamp != "" && IsTimestamp(stamp)
    ensures DefaultSynthetic(environment, now).Ok? ==>
              DefaultOf(DefaultSynthetic(environment, now).value, environment, now)
  {
    hide Says, IsTimestamp, Timestamp, ValidateDocument, Attests;
    FoundTime(Str(now), true);
    if DefaultSynthetic(environment, now).Ok? {
      var document := DefaultSynthetic(environment, now).value;
      DefaultSyntheticPasses(environment, now);
      DocumentMeans(document, environment);
      DefaultFields(environment, now);
    }
  }

  lemma DefaultFields(environment: string, now: string)
    requires DefaultSynthetic(environment, now).Ok?
    ensures var fields := DefaultSynthetic(environment, now).value.fields;
            && Holds(fields, "classification", Str("synthetic"))
            && Holds(fields, "source_ref", Str("generated-fixtures"))
            && "verification" in fields && fields["verification"].Object?
            && Holds(fields["verification"].fields, "checked_at", Str(now))
            && Holds(fields["verification"].fields, "checked_by", Str("environmentctl"))
            && Holds(fields["verification"].fields, "method", Str(METHOD))
  {
    hide Timestamp, SyntheticApproval;
  }

  /** What a rendered package holds. */
  lemma {:induction false} RenderMeans(
    t: Target, template: string, secrets: seq<string>, now: string, bundle: Option<Document>)
    requires 0 <= t.tenant && 0 <= t.portBase && |secrets| == 7 && Render(t, template, secrets, now, bundle).Ok?
    ensures EnvironmentValues(t, template, secrets).Ok?
    ensures var package := Render(t, template, secrets, now, bundle).value;
            && ManifestOf(package.manifest, t) && package.manifestSize == JsonSize.PrintedSize(package.manifest, 0) + 1
            && package.envText == EnvironmentText(EnvironmentValues(t, template, secrets).value)
            && (if t.environment == "integration" || t.environment == "staging"
                then
                  && package.provenance.Some? && DefaultOf(package.provenance.value.json, t.environment, now)
                  && package.provenance.value.size == JsonSize.PrintedSize(package.provenance.value.json, 0) + 1
                else package.provenance == None)
            && (if t.bundlePath == "" then package.bundle == None
                else package.bundle == bundle && bundle.Some? &&
                     bundle.value.size <= 307200 &&
                     InventoryMeaning.Exports(bundle.value.json, t.tenant, t.environment, t.digest))
  {
    hide EnvironmentValues, EnvironmentText, Manifest, ManifestOf, DefaultSynthetic, DefaultOf, FileDigest,
         InventoryMeaning.Exports;
    ManifestMeans(t);
    DefaultMeans(t.environment, now);
    if bundle.Some? { InventoryMeaning.FileMeans(bundle.value, t.tenant, t.environment, t.digest); }
  }
}
