/**
 A package that is written and then refused: directory names are bounded only by the size of the inventory file,
 which is larger than what the inspector reads.
 */
module LongRoots {
  import opened Wrappers
  import opened Text
  import opened PlanChecks
  import opened Inventory
  import opened Isolation
  import opened Environment
  import opened EnvText
  import opened Provenance
  import opened Package
  import opened JsonSize

  function Repeat(c: char, n: nat): string {
    seq(n, _ => c)
  }

  lemma {:induction false} OneComponent(n: nat)
    ensures Components(Repeat('a', n)) == [Repeat('a', n)]
  {
    if n > 0 {
      OneComponent(n - 1);
      assert Repeat('a', n)[1..] == Repeat('a', n - 1);
      assert Repeat('a', n) == ['a'] + Repeat('a', n - 1);
    }
  }

  lemma {:induction false} FirstComponent(word: string, rest: string)
    requires '/' !in word
    ensures Components(word + "/" + rest) == [word] + Components(rest)
  {
    var s := word + "/" + rest;
    if |word| == 0 {
      assert word == "" && s[0] == '/' && s[1..] == rest;
    } else {
      assert [word[0]] + word[1..] == word;
      FirstComponent(word[1..], rest);
      assert s[0] == word[0] && s[1..] == word[1..] + "/" + rest;
    }
  }

  /** A directory of any length under /srv passes the check. */
  lemma {:induction false} LongRootIsAccepted(n: nat)
    requires 0 < n
    ensures IsDeploymentRoot("/srv/" + Repeat('a', n)) && |"/srv/" + Repeat('a', n)| == n + 5
  {
    hide Components;
    var name := Repeat('a', n);
    var root := "/srv/" + name;
    OneComponent(n);
    FirstComponent("srv", name);
    assert root[1..] == "srv" + "/" + name;
    assert name[0] == 'a';
    assert StartsWith(root, ALLOWED_PARENTS[0]);
  }

  // ---------------------------------------------------------------- an inventory

  function Url(x: char, y: char): string {
    "https://" + [x, '.', y]
  }

  function Settings(host: string, root: string, x: char, y: char, port: int): map<string, Json> {
    map["host_id" := Str(host), "deploy_root" := Str(root), "public_url" := Str(Url(x, 'o')),
        "files_url" := Str(Url(y, 'o')), "port_base" := Int(port), "config_bundle" := Str("")]
  }

  function Root(n: nat): string {
    "/srv/" + Repeat('a', n)
  }

  function Project(n: nat): Json {
    Object(map["project_id" := Str("a"), "tenant_id" := Int(2),
               "staging" := Object(Settings("y", "/srv/a", 'c', 'd', 1024)),
               "production" := Object(Settings("z", Root(n), 'e', 'f', 1024))])
  }

  /** One project whose production directory has a name of n letters. */
  function Sample(n: nat): Json {
    Object(map["schema_version" := Int(1),
               "shared_integration" := Object(Settings("x", "/srv/a", 'a', 'b', 1024)["tenant_id" := Int(1)]),
               "projects" := List([Project(n)])])
  }

  function SharedTarget(): Target {
    Target("onward-shared-integration", "daypop-shared", "integration", 1, "x", "/srv/a", Url('a', 'o'), Url('b', 'o'),
           1024, "", "")
  }

  function StagingTarget(): Target {
    Target(InstanceId("a", "staging"), "a", "staging", 2, "y", "/srv/a", Url('c', 'o'), Url('d', 'o'), 1024, "", "")
  }

  function LongTarget(n: nat): Target {
    Target(InstanceId("a", "production"), "a", "production", 2, "z", Root(n), Url('e', 'o'), Url('f', 'o'),
           1024, "", "")
  }

  // ---------------------------------------------------------------- is accepted

  // Text without the separator is all before it.
  lemma {:induction false} PartitionWhole(s: string, c: char)
    requires c !in s
    ensures Before(s, c) == s && After(s, c) == ""
  {
    if |s| > 0 { PartitionWhole(s[1..], c); }
  }

  lemma {:induction false} ShortOrigin(x: char, y: char)
    requires Lower(x) && Lower(y)
    ensures PublicOrigin(Str(Url(x, y))) == Ok(Origin(Url(x, y), [x, '.', y])) && Hostname(Url(x, y)) == [x, '.', y]
  {
    var url, host := Url(x, y), [x, '.', y];
    assert SCHEME == "https://" && url[|SCHEME|..] == host && StripSlash(host) == host;
    PartitionWhole(host, ':');
    assert LowerCased(host) == host;
    assert !HasPair(host, '.', '.');
    assert host != "localhost" && host != "127.0.0.1" by { assert |host| == 3; }
  }

  lemma {:induction false} SettingsMake(
    host: string, root: string, x: char, y: char, project: string, tenant: int, environment: string, files: Files,
                                        settings: map<string, Json>)
    requires IsIdentifier(host) && IsDeploymentRoot(root) && Lower(x) && Lower(y) && x != y
    requires TARGET_KEYS <= settings.Keys && settings["host_id"] == Str(host) && settings["deploy_root"] == Str(root)
    requires settings["public_url"] == Str(Url(x, 'o')) && settings["files_url"] == Str(Url(y, 'o'))
    requires settings["port_base"] == Int(1024) && settings["config_bundle"] == Str("")
    ensures MakeTarget(settings, project, tenant, environment, files) ==
            Ok(Target(InstanceId(project, environment), project, environment, tenant, host, root, Url(x, 'o'),
                      Url(y, 'o'), 1024, "", ""))
  {
    hide PublicOrigin, Url, IsIdentifier, IsDeploymentRoot, InstanceId, ReadBundle;
    ShortOrigin(x, 'o');
    ShortOrigin(y, 'o');
    assert [x, '.', 'o'][0] != [y, '.', 'o'][0];
  }

  lemma {:induction false} SampleNames()
    ensures IsIdentifier("x") && IsIdentifier("y") && IsIdentifier("z") && IsIdentifier("a") &&
            IsDeploymentRoot("/srv/a")
    ensures "a" != "shared" && "a" != "daypop-shared"
  {
    LongRootIsAccepted(1);
    assert "/srv/" + Repeat('a', 1) == "/srv/a";
  }

  lemma {:induction false} SharedIsMade(n: nat, files: Files)
    ensures SharedPlan(Sample(n), files) == Ok((Plan([SharedTarget()], {}, {1}), [Project(n)]))
  {
    hide IsIdentifier, IsDeploymentRoot, Url, Project, MakeTarget;
    SampleNames();
    var shared := Settings("x", "/srv/a", 'a', 'b', 1024)["tenant_id" := Int(1)];
    assert shared.Keys == TARGET_KEYS + {"tenant_id"};
    SettingsMake("x", "/srv/a", 'a', 'b', "daypop-shared", 1, "integration", files, shared);
    assert Sample(n).fields.Keys == {"schema_version", "shared_integration", "projects"};
  }

  lemma {:induction false} StagingIsMade(files: Files)
    ensures var settings := Settings("y", "/srv/a", 'c', 'd', 1024);
            settings.Keys == TARGET_KEYS && MakeTarget(settings, "a", 2, "staging", files) == Ok(StagingTarget())
  {
    hide IsIdentifier, IsDeploymentRoot, Url, MakeTarget, InstanceId;
    SampleNames();
    SettingsMake("y", "/srv/a", 'c', 'd', "a", 2, "staging", files, Settings("y", "/srv/a", 'c', 'd', 1024));
  }

  lemma {:induction false} ProductionIsMade(n: nat, files: Files)
    requires 0 < n
    ensures var settings := Settings("z", Root(n), 'e', 'f', 1024);
            settings.Keys == TARGET_KEYS && MakeTarget(settings, "a", 2, "production", files) == Ok(LongTarget(n))
  {
    hide IsIdentifier, IsDeploymentRoot, Url, MakeTarget, InstanceId, Root;
    SampleNames();
    RootIsAccepted(n);
    SettingsMake("z", Root(n), 'e', 'f', "a", 2, "production", files, Settings("z", Root(n), 'e', 'f', 1024));
  }

  lemma {:induction false} ProjectIsMade(n: nat, files: Files)
    requires 0 < n
    ensures AddProject(Plan([SharedTarget()], {}, {1}), Project(n), files) ==
            Ok(Plan([SharedTarget(), StagingTarget(), LongTarget(n)], {"a"}, {1, 2}))
  {
    hide IsIdentifier, MakeTarget, Root, SharedTarget, StagingTarget, LongTarget, Settings;
    SampleNames();
    StagingIsMade(files);
    ProductionIsMade(n, files);
    assert Project(n).fields.Keys == {"project_id", "tenant_id", "staging", "production"};
    assert [SharedTarget()] + [StagingTarget(), LongTarget(n)] == [SharedTarget(), StagingTarget(), LongTarget(n)];
    assert {1} + {2} == {1, 2} && {} + {"a"} == {"a"};
  }

  lemma RootIsAccepted(n: nat)
    requires 0 < n
    ensures IsDeploymentRoot(Root(n)) && |Root(n)| == n + 5
  {
    hide IsDeploymentRoot;
    LongRootIsAccepted(n);
  }

  lemma {:induction false} SampleExpands(n: nat, files: Files)
    requires 0 < n
    ensures Expand(Sample(n), files) == Ok([SharedTarget(), StagingTarget(), LongTarget(n)])
  {
    hide SharedPlan, AddProject, SharedTarget, StagingTarget, LongTarget, Project, Sample;
    SharedIsMade(n, files);
    ProjectIsMade(n, files);
    assert AddProjects(Plan([SharedTarget()], {}, {1}), [Project(n)], 0, files) == Ok(Plan([SharedTarget()], {}, {1}));
  }

  lemma {:induction false} SampleHostnames(n: nat)
    ensures Hostnames([SharedTarget(), StagingTarget(), LongTarget(n)]) ==
            [['a', '.', 'o'], ['b', '.', 'o'], ['c', '.', 'o'], ['d', '.', 'o'], ['e', '.', 'o'], ['f', '.', 'o']]
  {
    hide Hostname, PublicOrigin, Url, InstanceId;
    ShortOrigin('a', 'o');
    ShortOrigin('b', 'o');
    ShortOrigin('c', 'o');
    ShortOrigin('d', 'o');
    ShortOrigin('e', 'o');
    ShortOrigin('f', 'o');
    var one, two, three := [SharedTarget()], [SharedTarget(), StagingTarget()],
                           [SharedTarget(), StagingTarget(), LongTarget(n)];
    assert three[..2] == two && two[..1] == one && one[..0] == [];
    assert Hostnames(one) == [['a', '.', 'o'], ['b', '.', 'o']];
    assert Hostnames(two) == Hostnames(one) + [['c', '.', 'o'], ['d', '.', 'o']];
    assert Hostnames(three) == Hostnames(two) + [['e', '.', 'o'], ['f', '.', 'o']];
  }

  lemma {:induction false} SampleIsIsolated(n: nat)
    ensures Isolated([SharedTarget(), StagingTarget(), LongTarget(n)])
  {
    hide Hostnames, Ports, RootsOverlap, Url, InstanceId;
    SampleHostnames(n);
    var names := Hostnames([SharedTarget(), StagingTarget(), LongTarget(n)]);
    forall i, j | 0 <= i < j < |names| ensures names[i] != names[j] {
      assert names[i][0] != names[j][0];
    }
    assert "x"[0] != "y"[0] && "x"[0] != "z"[0] && "y"[0] != "z"[0];
  }

  // ---------------------------------------------------------------- and small enough

  lemma {:induction false} Utf8AtMost(s: string)
    ensures Utf8Size(s) <= 4 * |s|
  {
    if |s| > 0 { Utf8AtMost(s[..|s| - 1]); }
  }

  lemma {:induction false} Utf8Ascii(s: string)
    requires forall i :: 0 <= i < |s| ==> s[i] as int < 0x80
    ensures Utf8Size(s) == |s|
  {
    if |s| > 0 { Utf8Ascii(s[..|s| - 1]); }
  }

  predicate Leaf(j: Json) {
    (j.Str? && |j.s| <= 12) || (j.Int? && 0 <= j.n < 10000)
  }

  lemma DecimalStep(n: nat)
    ensures |Decimal(n)| == if n < 10 then 1 else |Decimal(n / 10)| + 1
  {
  }

  lemma {:induction false} DecimalShort(n: nat)
    requires n < 10000
    ensures |Decimal(n)| <= 4
  {
    hide Decimal;
    DecimalStep(n);
    DecimalStep(n / 10);
    DecimalStep(n / 10 / 10);
    DecimalStep(n / 10 / 10 / 10);
  }

  lemma {:induction false} LeafField(j: Json, k: string)
    requires j.Object? && k in j.fields && |k| <= 18 && Leaf(j.fields[k])
    ensures FieldSize(j, k) <= 125
  {
    hide Utf8Size, Decimal;
    Utf8AtMost(k);
    if j.fields[k].Str? { Utf8AtMost(j.fields[k].s); } else { DecimalShort(j.fields[k].n); }
  }

  lemma ObjectSize(j: Json)
    requires j.Object?
    ensures LeastSize(j) == 2 + FieldsSize(j, j.fields.Keys) + Commas(|j.fields|)
  {
  }

  // A small object of leaves, apart from one field.
  lemma {:induction false} ObjectAtMost(j: Json, k: string, bound: nat)
    requires j.Object? && |j.fields| <= 7 && k in j.fields && FieldSize(j, k) <= bound
    requires forall other :: other in j.fields && other != k ==> LeafAt(j.fields, other)
    ensures LeastSize(j) <= bound + 760
  {
    hide FieldSize, Leaf, LeastSize;
    ObjectSize(j);
    TakeField(j, j.fields.Keys, k);
    var rest := j.fields.Keys - {k};
    forall other | other in rest ensures FieldSize(j, other) <= 125 { LeafField(j, other); }
    FieldsAtMost(j, rest, 125);
    assert |rest| == |j.fields.Keys| - 1 == |j.fields| - 1;
  }

  predicate LeafAt(fields: map<string, Json>, k: string) {
    k in fields && |k| <= 18 && Leaf(fields[k])
  }

  lemma {:induction false} SettingsLeaves(host: string, root: string, x: char, y: char, k: string)
    requires |host| == 1 && k in Settings(host, root, x, y, 1024) && k != "deploy_root"
    ensures LeafAt(Settings(host, root, x, y, 1024), k)
  {
    hide Url;
    UrlLength(x);
    UrlLength(y);
    assert k in {"host_id", "public_url", "files_url", "port_base", "config_bundle"};
  }

  lemma SettingsRoot(host: string, root: string, x: char, y: char)
    ensures var fields := Settings(host, root, x, y, 1024);
            "deploy_root" in fields && fields["deploy_root"] == Str(root) && |fields| == 6
  {
    hide Url;
    var keys := Settings(host, root, x, y, 1024).Keys;
    assert keys == {"host_id", "deploy_root", "public_url", "files_url", "port_base", "config_bundle"};
  }

  lemma {:induction false} SettingsAtMost(settings: Json, host: string, root: string, x: char, y: char)
    requires |host| == 1 && settings.Object? && forall i :: 0 <= i < |root| ==> root[i] as int < 0x80
    requires settings.fields == Settings(host, root, x, y, 1024) ||
             settings.fields == Settings(host, root, x, y, 1024)["tenant_id" := Int(1)]
    ensures LeastSize(settings) <= |root| + 810
  {
    hide LeastSize, Settings, FieldSize;
    SettingsRoot(host, root, x, y);
    assert "tenant_id" != "deploy_root" by { assert "tenant_id"[0] != "deploy_root"[0]; }
    forall other | other in settings.fields && other != "deploy_root" ensures LeafAt(settings.fields, other) {
      if other in Settings(host, root, x, y, 1024) { SettingsLeaves(host, root, x, y, other); }
      assert |"tenant_id"| == 9;
    }
    RootField(settings, root);
    ObjectAtMost(settings, "deploy_root", |root| + 50);
  }

  lemma UrlLength(x: char)
    ensures |Url(x, 'o')| == 11
  {
  }

  lemma {:induction false} RootField(j: Json, root: string)
    requires j.Object? && "deploy_root" in j.fields && j.fields["deploy_root"] == Str(root)
    requires forall i :: 0 <= i < |root| ==> root[i] as int < 0x80
    ensures FieldSize(j, "deploy_root") <= |root| + 50
  {
    hide Utf8Size;
    Utf8AtMost("deploy_root");
    Utf8Ascii(root);
  }

  lemma RootIsAscii(n: nat)
    ensures forall i :: 0 <= i < |Root(n)| ==> Root(n)[i] as int < 0x80
  {
  }

  lemma {:induction false} NestedField(j: Json, k: string, bound: nat)
    requires j.Object? && k in j.fields && |k| <= 18 && LeastSize(j.fields[k]) <= bound
    ensures FieldSize(j, k) <= bound + 75
  {
    hide Utf8Size;
    Utf8AtMost(k);
  }

  // Two nested objects beside leaves.
  lemma {:induction false} TwoNested(j: Json, k: string, l: string, bound: nat, bound': nat)
    requires j.Object? && |j.fields| <= 4 && k in j.fields && l in j.fields && k != l && |k| <= 18 && |l| <= 18
    requires LeastSize(j.fields[k]) <= bound && LeastSize(j.fields[l]) <= bound'
    requires forall other :: other in j.fields && other != k && other != l ==> LeafAt(j.fields, other)
    ensures LeastSize(j) <= bound + bound' + 405
  {
    hide FieldSize, LeastSize, Leaf;
    ObjectSize(j);
    NestedField(j, k, bound);
    NestedField(j, l, bound');
    var keys := j.fields.Keys;
    TakeField(j, keys, k);
    TakeField(j, keys - {k}, l);
    var rest := keys - {k} - {l};
    forall other | other in rest ensures FieldSize(j, other) <= 125 { LeafField(j, other); }
    FieldsAtMost(j, rest, 125);
    assert |rest| == |keys| - 2;
  }

  lemma {:induction false} ProjectAtMost(n: nat)
    ensures LeastSize(Project(n)) <= n + 2200
  {
    hide Root, LeastSize, Settings;
    var fields := Project(n).fields;
    assert fields.Keys == {"project_id", "tenant_id", "staging", "production"};
    RootIsAscii(n);
    RootLength(n);
    SettingsAtMost(fields["staging"], "y", "/srv/a", 'c', 'd');
    SettingsAtMost(fields["production"], "z", Root(n), 'e', 'f');
    TwoNested(Project(n), "staging", "production", 816, n + 815);
  }

  lemma RootLength(n: nat)
    ensures |Root(n)| == n + 5
  {
  }

  lemma {:induction false} SampleAtMost(n: nat)
    ensures LeastSize(Sample(n)) <= n + 4000
  {
    hide Project, LeastSize, Settings;
    var fields := Sample(n).fields;
    assert fields.Keys == {"schema_version", "shared_integration", "projects"};
    SettingsAtMost(fields["shared_integration"], "x", "/srv/a", 'a', 'b');
    ProjectAtMost(n);
    ListOfOne(Project(n));
    TwoNested(Sample(n), "shared_integration", "projects", 816, n + 2202);
  }

  lemma {:induction false} ListOfOne(item: Json)
    ensures LeastSize(List([item])) == LeastSize(item) + 2
  {
    var j := List([item]);
    assert ItemsSize(j, 0) == 0 && ItemsSize(j, 1) == LeastSize(item);
  }

  // ---------------------------------------------------------------- results

  /** The smallest file of that inventory. */
  ghost function SampleFile(n: nat): Document {
    Document(LeastSize(Sample(n)), Sample(n))
  }

  /**
   For every length that leaves room for the rest of the inventory, a possible file is accepted with that directory.
   */
  lemma {:induction false} LongRootIsLoaded(n: nat, files: Files)
    requires 0 < n <= INVENTORY_LIMIT - 4000
    ensures Possible(SampleFile(n)) && Accepted(SampleFile(n), files)
    ensures Expand(SampleFile(n).json, files) == Ok([SharedTarget(), StagingTarget(), LongTarget(n)]) &&
            |LongTarget(n).root| == n + 5
  {
    hide LeastSize, Sample, Expand, Isolated, SharedTarget, StagingTarget, Root;
    SampleAtMost(n);
    SampleExpands(n, files);
    SampleIsIsolated(n);
    RootLength(n);
  }

  /** Above the inspector's limit the writer then writes the package of that target, and the inspector refuses it. */
  lemma {:induction false} WrittenThenRefused(n: nat, files: Files, template: string, secrets: seq<string>, now: string)
    requires SIZE_LIMIT < n <= INVENTORY_LIMIT - 4000 && (forall path :: files.resolve(path) != "")
    requires |secrets| == SECRET_COUNT && forall i :: 0 <= i < |secrets| ==> Safe(secrets[i])
    requires CleanTemplate(template, Updates(LongTarget(n), secrets))
    ensures Possible(SampleFile(n)) && Accepted(SampleFile(n), files) &&
            LongTarget(n) in Expand(SampleFile(n).json, files).value
    ensures Renderable(LongTarget(n), secrets)
    ensures var r := Render(LongTarget(n), template, secrets, now, None);
            r.Ok? && Inspect(r.value, LongTarget(n).instance, "z", false).Refused?
  {
    hide Inspect, Render, Renderable, Updates, Safe, PublicOrigin, Hostname, DefaultSynthetic, FileDigest,
         CleanTemplate, Root, Url, InstanceId, LeastSize, Sample, Expand, Isolated;
    LongRootIsLoaded(n, files);
    var targets := [SharedTarget(), StagingTarget(), LongTarget(n)];
    assert targets[2] == LongTarget(n);
    AcceptedTargetIsRenderable(Sample(n), files, 2, secrets);
    RenderSucceedsIff(LongTarget(n), template, secrets, now, None);
    assert !NonProduction("production");
    LongRootIsRefused(LongTarget(n), template, secrets, now, None);
  }
}
