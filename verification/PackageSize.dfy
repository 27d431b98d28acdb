/**
 Which packages are small enough to be inspected: the sizes of the printed manifest and of the environment text are
 bounded by the lengths of the directory, the origins, the secrets and the template.
 */
module PackageSize {
  import opened Wrappers
  import opened Text
  import opened PlanChecks
  import opened Inventory
  import opened Isolation
  import opened EnvText
  import EnvReading
  import opened Environment
  import opened Provenance
  import opened Package
  import opened JsonSize

  // ---------------------------------------------------------------- bytes

  lemma {:induction false} Utf8Concat(a: string, b: string)
    ensures Utf8Size(a + b) == Utf8Size(a) + Utf8Size(b)
  {
    if |b| == 0 {
      assert a + b == a;
    } else {
      Utf8Concat(a, b[..|b| - 1]);
      assert (a + b)[..|a + b| - 1] == a + b[..|b| - 1];
    }
  }

  lemma {:induction false} Utf8Safe(s: string)
    requires Safe(s)
    ensures Utf8Size(s) == |s|
  {
    if |s| > 0 { Utf8Safe(s[..|s| - 1]); }
  }

  lemma {:induction false} Utf8Key(s: string)
    requires IsKey(s)
    ensures Safe(s)
  {
  }

  function Power(d: nat): nat {
    if d == 0 then 1 else 10 * Power(d - 1)
  }

  lemma {:induction false} DigitsBelow(n: nat, d: nat)
    requires 1 <= d && n < Power(d)
    ensures |Decimal(n)| <= d
  {
    if n >= 10 {
      assert Power(0) == 1;
      DigitsBelow(n / 10, d - 1);
    }
  }

  lemma IdDigits(n: nat)
    requires n <= MAX_ID
    ensures |Decimal(n)| <= 19
  {
    hide Decimal;
    assert Power(5) == 100000;
    assert Power(10) == 10000000000;
    assert Power(15) == 1000000000000000;
    assert Power(19) == 10000000000000000000;
    DigitsBelow(n, 19);
  }

  lemma PortDigits(n: nat)
    requires n <= 65535
    ensures |Decimal(n)| <= 5
  {
    hide Decimal;
    assert Power(5) == 100000;
    DigitsBelow(n, 5);
  }

  // ---------------------------------------------------------------- the settings

  /** Every text a target puts into its files has at most m characters. */
  ghost predicate Within(t: Target, secrets: seq<string>, m: nat) {
    && 80 <= m && |t.root| + 30 <= m && |t.publicUrl| <= m && |t.filesUrl| <= m
    && forall i :: 0 <= i < |secrets| ==> |secrets[i]| <= m
  }

  ghost predicate ShortPairs(pairs: seq<Pair>, m: nat) {
    forall i :: 0 <= i < |pairs| ==> |pairs[i].value| <= m
  }

  lemma {:induction false} InstanceShort(t: Target)
    requires ValidTarget(t) && Identified(t)
    ensures |t.instance| <= 66 && |t.project| <= 48 && |t.environment| <= 11
  {
    hide PublicOrigin, Hostname, IsDeploymentRoot, IsHexDigest;
    if ProjectIdentity(t) { assert |"-" + t.environment| <= 11; }
  }

  lemma DigestShort(t: Target)
    requires ValidTarget(t)
    ensures |t.digest| <= 64 && t.tenant <= MAX_ID && t.portBase + PORT_COUNT - 1 <= 65535
  {
    hide PublicOrigin, Hostname, IsDeploymentRoot, IsIdentifier, InstanceId;
  }

  lemma {:induction false} SettingsShort(t: Target, secrets: seq<string>, m: nat)
    requires ValidTarget(t) && Identified(t) && Within(t, secrets, m)
    ensures ShortPairs(Settings(t), m)
  {
    hide ValidTarget, Identified, Decimal;
    assert 0 <= t.tenant by { TenantPositive(t); }
    InstanceShort(t);
    DigestShort(t);
    IdDigits(t.tenant);
    assert |t.instance + "_1panel"| == |t.instance| + 7;
  }

  lemma TenantPositive(t: Target)
    requires ValidTarget(t)
    ensures 0 <= t.tenant && 0 <= t.portBase
  {
    hide PublicOrigin, Hostname, IsDeploymentRoot, IsIdentifier, InstanceId, IsHexDigest;
  }

  lemma {:induction false} PathsShort(t: Target, secrets: seq<string>, m: nat)
    requires Within(t, secrets, m)
    ensures ShortPairs(PathPairs(t.root), m)
  {
  }

  lemma {:induction false} PortsShort(base: nat, m: nat)
    requires base + PORT_COUNT - 1 <= 65535 && 80 <= m
    ensures ShortPairs(PortPairs(base), m)
  {
    hide Decimal;
    var pairs := PortPairs(base);
    forall i | 0 <= i < |pairs| ensures |pairs[i].value| <= m {
      PortDigits(base + i);
    }
  }

  lemma SecretsShort(t: Target, secrets: seq<string>, m: nat)
    requires |secrets| == SECRET_COUNT && Within(t, secrets, m)
    ensures ShortPairs(SecretPairs(secrets), m) && ShortPairs(BindPairs(), m)
  {
  }

  lemma {:induction false} ShortConcat(a: seq<Pair>, b: seq<Pair>, m: nat)
    requires ShortPairs(a, m) && ShortPairs(b, m)
    ensures ShortPairs(a + b, m)
  {
  }

  lemma {:induction false} UpdatesShort(t: Target, secrets: seq<string>, m: nat)
    requires Renderable(t, secrets) && Within(t, secrets, m)
    ensures 0 <= t.tenant && 0 <= t.portBase && ShortPairs(Updates(t, secrets), m)
  {
    hide Settings, PathPairs, PortPairs, SecretPairs, BindPairs, ValidTarget, Identified, ShortPairs, Safe;
    TenantPositive(t);
    DigestShort(t);
    SettingsShort(t, secrets, m);
    PathsShort(t, secrets, m);
    PortsShort(t.portBase, m);
    SecretsShort(t, secrets, m);
    ShortConcat(Settings(t), PathPairs(t.root), m);
    ShortConcat(Settings(t) + PathPairs(t.root), PortPairs(t.portBase), m);
    ShortConcat(Settings(t) + PathPairs(t.root) + PortPairs(t.portBase), SecretPairs(secrets), m);
    ShortConcat(Settings(t) + PathPairs(t.root) + PortPairs(t.portBase) + SecretPairs(secrets), BindPairs(), m);
  }

  // ---------------------------------------------------------------- the environment text

  ghost function PairSize(p: Pair): nat {
    Utf8Size(p.key) + Utf8Size(p.value) + 2
  }

  /** The bytes of all assignments, each with its line break. */
  ghost function PairsSize(pairs: seq<Pair>): nat {
    if |pairs| == 0 then 0 else PairsSize(pairs[..|pairs| - 1]) + PairSize(pairs[|pairs| - 1])
  }

  lemma {:induction false} PairsSizeCons(p: Pair, pairs: seq<Pair>)
    ensures PairsSize([p] + pairs) == PairSize(p) + PairsSize(pairs)
  {
    hide PairSize;
    if |pairs| == 0 {
      assert [p] + pairs == [p];
      assert PairsSize([p][..0]) == 0;
    } else {
      PairsSizeCons(p, pairs[..|pairs| - 1]);
      assert ([p] + pairs)[..|[p] + pairs| - 1] == [p] + pairs[..|pairs| - 1];
    }
  }

  lemma {:induction false} PutSize(pairs: seq<Pair>, p: Pair)
    ensures PairsSize(Put(pairs, p)) <= PairsSize(pairs) + PairSize(p)
  {
    hide PairSize, PairsSize;
    if |pairs| == 0 {
      PairsSizeCons(p, []);
      assert [p] + [] == [p];
    } else {
      assert pairs == [pairs[0]] + pairs[1..];
      PairsSizeCons(pairs[0], pairs[1..]);
      if pairs[0].key == p.key {
        PairsSizeCons(p, pairs[1..]);
      } else {
        PutSize(pairs[1..], p);
        PairsSizeCons(pairs[0], Put(pairs[1..], p));
      }
    }
  }

  lemma {:induction false} PutAllSize(pairs: seq<Pair>, updates: seq<Pair>, bound: nat)
    requires forall i :: 0 <= i < |updates| ==> PairSize(updates[i]) <= bound
    ensures PairsSize(PutAll(pairs, updates)) <= PairsSize(pairs) + |updates| * bound
  {
    hide PairSize, PairsSize, Put;
    if |updates| > 0 {
      var n := |updates| - 1;
      PutAllSize(pairs, updates[..n], bound);
      PutSize(PutAll(pairs, updates[..n]), updates[n]);
      assert (n + 1) * bound == n * bound + bound;
    }
  }

  lemma {:induction false} AssignmentSize(p: Pair)
    ensures Utf8Size(Assignment(p)) + 1 == PairSize(p)
  {
    hide Utf8Size;
    Utf8Concat(p.key + ['='], p.value);
    Utf8Concat(p.key, ['=']);
    assert Utf8Size(['=']) == 1 by { EqualsSize(); }
  }

  lemma EqualsSize()
    ensures Utf8Size(['=']) == 1 && Utf8Size("\n") == 1
  {
    assert ['='][..0] == "" && "\n"[..0] == "";
  }

  lemma {:induction false} JoinedSize(pairs: seq<Pair>)
    ensures Utf8Size(Joined(Assignments(pairs))) <= PairsSize(pairs)
  {
    hide Utf8Size, PairSize, PairsSize;
    if |pairs| == 0 {
      NoBytes();
      assert Assignments(pairs) == [];
    } else {
      var lines, rest := Assignments(pairs), Assignments(pairs[1..]);
      assert lines[0] == Assignment(pairs[0]) && lines[1..] == rest;
      assert pairs == [pairs[0]] + pairs[1..];
      PairsSizeCons(pairs[0], pairs[1..]);
      AssignmentSize(pairs[0]);
      JoinedSize(pairs[1..]);
      if |lines| > 1 {
        assert Joined(lines) == lines[0] + "\n" + Joined(rest);
        Utf8Concat(lines[0] + "\n", Joined(rest));
        Utf8Concat(lines[0], "\n");
        EqualsSize();
      }
    }
  }

  lemma NoBytes()
    ensures Utf8Size("") == 0
  {
  }

  lemma {:induction false} TextSizeBound(pairs: seq<Pair>)
    ensures Utf8Size(EnvironmentText(pairs)) <= PairsSize(pairs) + 300
  {
    hide Utf8Size, PairsSize, Joined;
    var body := Joined(Assignments(pairs));
    JoinedSize(pairs);
    Utf8Concat(HEADER + "\n", body + "\n");
    Utf8Concat(HEADER, "\n");
    Utf8Concat(body, "\n");
    EqualsSize();
    HeaderSize();
  }

  lemma HeaderSize()
    ensures Utf8Size(HEADER) <= 240
  {
    Utf8Quad(HEADER);
    assert |HEADER| == 59;
  }

  // ---------------------------------------------------------------- the template

  /** The bytes of the first n lines, each with one line break. */
  ghost function LineSum(lines: seq<string>, n: nat): nat
    requires n <= |lines|
  {
    if n == 0 then 0 else LineSum(lines, n - 1) + Utf8Size(lines[n - 1]) + 1
  }

  lemma {:induction false} LineSumCons(line: string, rest: seq<string>, n: nat)
    requires n <= |rest|
    ensures LineSum([line] + rest, n + 1) == Utf8Size(line) + 1 + LineSum(rest, n)
  {
    hide Utf8Size;
    var lines := [line] + rest;
    if n == 0 {
      assert LineSum(lines, 0) == 0;
    } else {
      LineSumCons(line, rest, n - 1);
      assert lines[n] == rest[n - 1];
    }
  }

  lemma {:induction false} SplitSize(s: string)
    ensures LineSum(SplitLines(s), |SplitLines(s)|) <= Utf8Size(s) + 1
    decreases |s|
  {
    hide Utf8Size, LineSum, FirstBreak;
    var lines := SplitLines(s);
    if |s| == 0 {
      NoLines();
    } else {
      var n := FirstBreak(s);
      if n == |s| {
        assert s[..n] == s && lines == [s] + [];
        LineSumCons(s, [], 0);
        NoLines();
      } else {
        var width := if s[n] == '\r' && n + 1 < |s| && s[n + 1] == '\n' then 2 else 1;
        var rest := SplitLines(s[n + width..]);
        SplitSize(s[n + width..]);
        LineSumCons(s[..n], rest, |rest|);
        assert s == s[..n] + s[n..n + width] + s[n + width..];
        Utf8Concat(s[..n] + s[n..n + width], s[n + width..]);
        Utf8Concat(s[..n], s[n..n + width]);
        Utf8AtLeastLength(s[n..n + width]);
      }
    }
  }

  lemma NoLines()
    ensures LineSum([], 0) == 0
  {
  }

  lemma {:induction false} LinePair(line: string)
    requires '=' in line
    ensures PairSize(Pair(Before(line, '='), After(line, '='))) == Utf8Size(line) + 1
  {
    hide Utf8Size, Before, After;
    EnvReading.LineParts(line);
    AssignmentSize(Pair(Before(line, '='), After(line, '=')));
  }

  lemma {:induction false} TemplateLinesSize(lines: seq<string>, n: nat)
    requires n <= |lines| && TemplateLines(lines, n).Ok?
    ensures PairsSize(TemplateLines(lines, n).value) <= LineSum(lines, n)
  {
    hide Utf8Size, Before, After, TrimLeft, IsKey, PairSize, Put;
    if n > 0 {
      hide PairsSize;
      TemplateLinesSize(lines, n - 1);
      var line := lines[n - 1];
      if '=' in line {
        LinePair(line);
        PutSize(TemplateLines(lines, n - 1).value, Pair(Before(line, '='), After(line, '=')));
      }
    }
  }

  // ---------------------------------------------------------------- both files

  lemma PositionShort(s: string)
    requires Position(s) >= 0
    ensures |s| <= 29
  {
  }

  lemma {:induction false} UpdateSize(t: Target, secrets: seq<string>, m: nat, i: nat)
    requires Renderable(t, secrets) && Within(t, secrets, m)
    requires 0 <= t.tenant && 0 <= t.portBase && i < |Updates(t, secrets)|
    ensures |Updates(t, secrets)| == 47 && PairSize(Updates(t, secrets)[i]) <= m + 31
  {
    hide Updates, Position, IsKey, Safe, Utf8Size, ValidTarget, Identified, Within;
    UpdatesShort(t, secrets, m);
    UpdatesNamed(t, secrets);
    UpdatesSafe(t, secrets);
    var q := Updates(t, secrets)[i];
    PositionShort(q.key);
    Utf8Key(q.key);
    Utf8Safe(q.key);
    Utf8Safe(q.value);
  }

  lemma {:induction false} EnvironmentBound(t: Target, template: string, secrets: seq<string>, m: nat)
    requires Renderable(t, secrets) && Within(t, secrets, m) && 0 <= t.tenant && 0 <= t.portBase
    requires EnvironmentValues(t, template, secrets).Ok?
    ensures Utf8Size(EnvironmentText(EnvironmentValues(t, template, secrets).value)) <=
            Utf8Size(template) + 47 * m + 1800
  {
    hide Updates, PairSize, PairsSize, Utf8Size, EnvironmentText, PutAll, ValidTarget, Identified, Within, Safe,
         SplitLines, TemplateLines, LineSum;
    var lines := SplitLines(template);
    var defaults, updates := Template(template).value, Updates(t, secrets);
    TemplateLinesSize(lines, |lines|);
    SplitSize(template);
    forall i | 0 <= i < |updates|
      ensures |updates| == 47 && PairSize(updates[i]) <= m + 31
    {
      UpdateSize(t, secrets, m, i);
    }
    UpdatesNamed(t, secrets);
    PutAllSize(defaults, updates, m + 31);
    TextSizeBound(PutAll(defaults, updates));
  }

  // ---------------------------------------------------------------- the manifest

  /** A number or a text that is printed in at most m + 2 bytes. */
  ghost predicate Plain(j: Json, m: nat) {
    match j
    case Int(n) => 0 <= n && |Decimal(n)| <= m
    case Str(s) => Safe(s) && |s| <= m
    case _ => false
  }

  ghost predicate PlainField(j: Json, k: string, m: nat)
    requires j.Object? && k in j.fields
  {
    |k| <= 29 && Plain(j.fields[k], m)
  }

  lemma {:induction false} FieldShort(j: Json, k: string, level: nat, m: nat)
    requires j.Object? && k in j.fields && PlainField(j, k, m)
    ensures PrintedField(j, k, level) <= m + 122
  {
    hide Safe, Utf8Size, Decimal;
    Utf8Quad(k);
    var value := j.fields[k];
    if value.Str? { Utf8Safe(value.s); }
  }

  lemma {:induction false} PlainFieldsShort(j: Json, keys: set<string>, level: nat, m: nat)
    requires j.Object? && keys <= j.fields.Keys && forall k :: k in keys ==> PlainField(j, k, m)
    ensures PrintedFields(j, keys, level) <= |keys| * (m + 122)
  {
    hide PlainField, PrintedField;
    forall k | k in keys ensures PrintedField(j, k, level) <= m + 122 { FieldShort(j, k, level, m); }
    PrintedAtMost(j, keys, level, m + 122);
  }

  lemma {:induction false} TableShort(j: Json, level: nat, count: nat, m: nat)
    requires j.Object? && |j.fields| <= count && forall k :: k in j.fields ==> PlainField(j, k, m)
    ensures PrintedSize(j, level) <= count * (m + 122) + Frame(count, level)
  {
    hide PlainField, PrintedField, PrintedSize;
    forall k | k in j.fields ensures PrintedField(j, k, level) <= m + 122 { FieldShort(j, k, level, m); }
    ObjectAtMost(j, level, count, m + 122);
  }

  lemma PathKeys(root: string)
    ensures |PathPairs(root)| == 11 && forall i :: 0 <= i < 11 ==> |PathPairs(root)[i].key| <= 29
  {
  }

  lemma {:induction false} PathsTable(t: Target, secrets: seq<string>, m: nat)
    requires ValidTarget(t) && Within(t, secrets, m)
    ensures PrintedSize(TextObject(PathPairs(t.root)), 1) <= 11 * m + 1500
  {
    hide Safe, PublicOrigin, Hostname, IsHexDigest, IsIdentifier, IsDeploymentRoot, InstanceId, PrintedSize, PathPairs,
         LastFor;
    var pairs := PathPairs(t.root);
    var j := TextObject(pairs);
    PathKeys(t.root);
    PathsSafe(t.root);
    PathsShort(t, secrets, m);
    var names := seq(11, i requires 0 <= i < 11 => pairs[i].key);
    forall k | k in j.fields ensures PlainField(j, k, m) && k in names {
      var i :| 0 <= i < |pairs| && pairs[i].key == k && j.fields[k] == Str(pairs[i].value);
      assert names[i] == k;
    }
    KeysAtMost(j.fields.Keys, names);
    TableShort(j, 1, 11, m);
  }

  const PORT_NAMES: seq<string> := [
    "APP_PORT", "POSTGRES_PORT", "REDIS_PORT", "QDRANT_HTTP_PORT", "QDRANT_GRPC_PORT", "MINIO_PORT",
    "MINIO_CONSOLE_PORT", "PROMETHEUS_PORT", "ALERTMANAGER_PORT" ]

  lemma {:induction false} PortKey(base: nat, k: string)
    requires base + PORT_COUNT - 1 <= 65535 && k in PortNumbers(base).fields
    ensures k in PORT_NAMES && PlainField(PortNumbers(base), k, 5)
  {
    hide Decimal;
    PortDigits(PortNumbers(base).fields[k].n);
  }

  lemma {:induction false} PortsTable(base: nat)
    requires base + PORT_COUNT - 1 <= 65535
    ensures PrintedSize(PortNumbers(base), 1) <= 1300
  {
    hide PrintedSize, PlainField;
    var j := PortNumbers(base);
    forall k | k in j.fields ensures k in PORT_NAMES && PlainField(j, k, 5) { PortKey(base, k); }
    KeysAtMost(j.fields.Keys, PORT_NAMES);
    TableShort(j, 1, 9, 5);
  }

  lemma {:induction false} ManifestTexts(t: Target, secrets: seq<string>, m: nat)
    requires ValidTarget(t) && Identified(t) && Within(t, secrets, m)
    ensures Plain(Str(t.instance), m) && Plain(Str(t.project), m) && Plain(Str(t.environment), m)
    ensures Plain(Str(t.publicUrl), m) && Plain(Str(t.filesUrl), m) && Plain(Str(t.digest), m)
  {
    hide ValidTarget, Identified, Safe, Decimal;
    TenantPositive(t);
    SettingsSafe(t);
    SettingsShort(t, secrets, m);
    var s := Settings(t);
    assert s[0].value == t.instance && s[2].value == t.project && s[5].value == t.environment;
    assert s[10].value == t.publicUrl && s[11].value == t.filesUrl && s[8].value == t.digest;
  }

  lemma {:induction false} ManifestValues(t: Target, secrets: seq<string>, m: nat)
    requires ValidTarget(t) && Within(t, secrets, m)
    ensures Plain(Str(t.root), m) && Plain(Str(t.host), m)
    ensures Plain(Int(1), m) && Plain(Int(t.tenant), m) && Plain(Int(t.portBase), m)
    ensures Plain(Str("pending_preflight"), m) && Plain(Str("pending_config"), m)
  {
    hide Safe, PublicOrigin, Hostname, IsHexDigest, IsDeploymentRoot, InstanceId, Decimal;
    SafeRoot(t.root);
    SafeIdentifier(t.host);
    IdDigits(t.tenant);
    PortDigits(t.portBase);
    PortDigits(1);
    SafeStatus();
  }

  lemma SafeStatus()
    ensures Safe("pending_preflight") && Safe("pending_config")
  {
  }

  const MANIFEST_NAMES: seq<string> := [
    "schema_version", "instance_id", "deployment_project_id", "environment", "tenant_id", "host_id", "deploy_root",
    "public_url", "files_url", "port_base", "ports", "paths", "config_digest", "config_status" ]

  lemma {:induction false} ManifestKey(t: Target, k: string)
    requires k in Manifest(t).fields
    ensures k in MANIFEST_NAMES && |k| <= 29
  {
    hide PortNumbers, TextObject, PathPairs;
  }

  lemma {:induction false} ManifestKeys(t: Target)
    ensures Manifest(t).Object? && |Manifest(t).fields| <= 14
    ensures "ports" in Manifest(t).fields && "paths" in Manifest(t).fields
  {
    hide PortNumbers, TextObject, PathPairs;
    var j := Manifest(t);
    forall k | k in j.fields ensures k in MANIFEST_NAMES { ManifestKey(t, k); }
    KeysAtMost(j.fields.Keys, MANIFEST_NAMES);
  }

  lemma {:induction false} ManifestPlain(t: Target, secrets: seq<string>, m: nat, k: string)
    requires ValidTarget(t) && Identified(t) && Within(t, secrets, m)
    requires k in Manifest(t).fields && k != "ports" && k != "paths"
    ensures Plain(Manifest(t).fields[k], m)
  {
    hide ValidTarget, Identified, Within, Plain, PortNumbers, TextObject, PathPairs;
    ManifestTexts(t, secrets, m);
    ManifestValues(t, secrets, m);
  }

  lemma {:induction false} ManifestFields(t: Target, secrets: seq<string>, m: nat)
    requires ValidTarget(t) && Identified(t) && Within(t, secrets, m)
    ensures forall k :: k in Manifest(t).fields.Keys - {"ports", "paths"} ==> PlainField(Manifest(t), k, m)
  {
    hide ValidTarget, Identified, Within, Plain, Manifest;
    ManifestKeys(t);
    var j := Manifest(t);
    forall k | k in j.fields.Keys - {"ports", "paths"} ensures PlainField(j, k, m) {
      ManifestKey(t, k);
      ManifestPlain(t, secrets, m, k);
    }
  }

  /** At most twelve plain fields beside two tables. */
  lemma {:induction false} TablesApart(j: Json, p: string, q: string, m: nat)
    requires j.Object? && |j.fields| <= 14 && p in j.fields && q in j.fields && p != q
    requires forall k :: k in j.fields.Keys - {p, q} ==> PlainField(j, k, m)
    ensures PrintedSize(j, 0) <= PrintedField(j, p, 0) + PrintedField(j, q, 0) + 12 * (m + 122) + 60
  {
    hide PrintedFields, PrintedField, PlainField;
    var keys := j.fields.Keys;
    var rest := keys - {p, q};
    TakePrinted(j, keys, p, 0);
    TakePrinted(j, keys - {p}, q, 0);
    assert keys - {p} - {q} == rest;
    assert |keys| == |j.fields| && |keys| == |keys - {p}| + 1 && |keys - {p}| == |rest| + 1;
    PlainFieldsShort(j, rest, 0, m);
    Monotone(|rest|, 12, m + 122);
  }

  /** The printed manifest spells the directory twelve times and every other text once. */
  lemma {:induction false} ManifestBound(t: Target, secrets: seq<string>, m: nat)
    requires ValidTarget(t) && Identified(t) && Within(t, secrets, m)
    ensures ManifestSize(t) <= 23 * m + 5000
  {
    hide ValidTarget, Identified, Within, PrintedField, PrintedSize, PlainField, Manifest;
    ManifestKeys(t);
    ManifestFields(t, secrets, m);
    ManifestTables(t, secrets, m);
    TablesApart(Manifest(t), "ports", "paths", m);
  }

  lemma {:induction false} ManifestTables(t: Target, secrets: seq<string>, m: nat)
    requires ValidTarget(t) && Within(t, secrets, m)
    ensures "ports" in Manifest(t).fields && PrintedField(Manifest(t), "ports", 0) <= 1330
    ensures "paths" in Manifest(t).fields && PrintedField(Manifest(t), "paths", 0) <= 11 * m + 1530
  {
    hide ValidTarget, PrintedSize, Utf8Size, PortNumbers, TextObject, PathPairs;
    Utf8Quad("ports");
    Utf8Quad("paths");
    TenantPositive(t);
    DigestShort(t);
    PortsTable(t.portBase);
    PathsTable(t, secrets, m);
  }

  // ---------------------------------------------------------------- acceptance

  /**
   A package whose directory, origins and secrets are short enough for the size of the template is accepted by the
   inspection, which reports the target it was rendered from.
   */
  lemma {:induction false} SmallPackagesAreAccepted(
    t: Target, template: string, secrets: seq<string>, now: string, bundle: Option<Document>, m: nat)
    requires Renderable(t, secrets) && Render(t, template, secrets, now, bundle).Ok?
    requires Within(t, secrets, m) && Utf8Size(template) + 47 * m + 1800 <= SIZE_LIMIT
    ensures Inspect(Render(t, template, secrets, now, bundle).value, t.instance, t.host, false) == Ok(AcceptedReport(t))
  {
    hide ValidTarget, Identified, Within, Safe, Utf8Size, EnvironmentValues, EnvironmentText, Inspect, ManifestSize,
         DefaultSynthetic, FileDigest, AcceptedReport, Manifest;
    TenantPositive(t);
    ManifestBound(t, secrets, m);
    EnvironmentBound(t, template, secrets, m);
    RenderedPackageIsAccepted(t, template, secrets, now, bundle);
  }
}
