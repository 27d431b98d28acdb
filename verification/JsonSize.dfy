/**
 The least number of bytes a JSON text of a document can have: no white space, no escaped character. It bounds
 what an inventory of limited size can say, in particular how long its directories can be.
 */
module JsonSize {
  import opened Text
  import opened PlanChecks
  import opened Inventory

  ghost function Pick(keys: set<string>): (k: string)
    requires keys != {}
    ensures k in keys
  {
    var k :| k in keys;
    k
  }

  /** Quotes around a text. */
  function TextSize(s: string): nat {
    Utf8Size(s) + 2
  }

  function Commas(n: nat): nat {
    if n == 0 then 0 else n - 1
  }

  ghost function LeastSize(j: Json): nat
    decreases j, 1, 0
  {
    match j
    case Null => 4
    case Bool(_) => 4
    case Int(n) => if n >= 0 then |Decimal(n)| else |Decimal(-n)| + 1
    case Str(s) => TextSize(s)
    case List(items) => 2 + ItemsSize(j, |items|) + Commas(|items|)
    case Object(fields) => 2 + FieldsSize(j, fields.Keys) + Commas(|fields|)
    case Other => 1
  }

  /** The first n items. */
  ghost function ItemsSize(j: Json, n: nat): nat
    requires j.List? && n <= |j.items|
    decreases j, 0, n
  {
    if n == 0 then 0 else ItemsSize(j, n - 1) + LeastSize(j.items[n - 1])
  }

  ghost function FieldSize(j: Json, k: string): nat
    requires j.Object? && k in j.fields
    decreases j, 0, 0
  {
    TextSize(k) + 1 + LeastSize(j.fields[k])
  }

  /** Some of the fields. */
  ghost function FieldsSize(j: Json, keys: set<string>): nat
    requires j.Object? && keys <= j.fields.Keys
    decreases j, 0, |keys| + 1
  {
    if keys == {} then 0
    else
      var k := Pick(keys);
      FieldSize(j, k) + FieldsSize(j, keys - {k})
  }

  // ---------------------------------------------------------------- printed documents

  /**
   The bytes of json.dumps with an indentation of two and without ASCII escapes, `level` levels deep: a line per
   field or item. No text of a manifest holds a character that JSON escapes.
   */
  ghost function PrintedSize(j: Json, level: nat): nat
    decreases j, 1, 0
  {
    match j
    case List(items) => if items == [] then 2 else PrintedItems(j, |items|, level) + Frame(|items|, level)
    case Object(fields) => if fields == map[] then 2 else PrintedFields(j, fields.Keys, level) + Frame(|fields|, level)
    case Bool(b) => if b then 4 else 5
    case _ => LeastSize(j)
  }

  /** Brackets, line breaks, indentation and commas around n lines. */
  function Frame(n: nat, level: nat): nat {
    2 + n * (1 + 2 * (level + 1)) + Commas(n) + 1 + 2 * level
  }

  ghost function PrintedItems(j: Json, n: nat, level: nat): nat
    requires j.List? && n <= |j.items|
    decreases j, 0, n
  {
    if n == 0 then 0 else PrintedItems(j, n - 1, level) + PrintedSize(j.items[n - 1], level + 1)
  }

  /** A key, a colon, a space and the value. */
  ghost function PrintedField(j: Json, k: string, level: nat): nat
    requires j.Object? && k in j.fields
    decreases j, 0, 0
  {
    TextSize(k) + 2 + PrintedSize(j.fields[k], level + 1)
  }

  ghost function PrintedFields(j: Json, keys: set<string>, level: nat): nat
    requires j.Object? && keys <= j.fields.Keys
    decreases j, 0, |keys| + 1
  {
    if keys == {} then 0
    else
      var k := Pick(keys);
      PrintedField(j, k, level) + PrintedFields(j, keys - {k}, level)
  }

  lemma {:induction false} TakePrinted(j: Json, keys: set<string>, k: string, level: nat)
    requires j.Object? && keys <= j.fields.Keys && k in keys
    ensures PrintedFields(j, keys, level) == PrintedField(j, k, level) + PrintedFields(j, keys - {k}, level)
    decreases |keys|
  {
    hide PrintedField, Pick;
    var first := Pick(keys);
    if first != k {
      TakePrinted(j, keys - {first}, k, level);
      TakePrinted(j, keys - {k}, first, level);
      assert keys - {first} - {k} == keys - {k} - {first};
    }
  }

  lemma {:induction false} PrintedAtMost(j: Json, keys: set<string>, level: nat, bound: nat)
    requires j.Object? && keys <= j.fields.Keys && forall k :: k in keys ==> PrintedField(j, k, level) <= bound
    ensures PrintedFields(j, keys, level) <= |keys| * bound
    decreases |keys|
  {
    hide PrintedField, Pick;
    if keys != {} {
      var k := Pick(keys);
      PrintedAtMost(j, keys - {k}, level, bound);
      assert |keys| == |keys - {k}| + 1;
      assert |keys| * bound == |keys - {k}| * bound + bound;
    }
  }

  lemma Monotone(n: nat, count: nat, k: nat)
    requires n <= count
    ensures n * k <= count * k
  {
  }

  lemma {:induction false} KeysAtMost(keys: set<string>, names: seq<string>)
    requires forall k :: k in keys ==> k in names
    ensures |keys| <= |names|
  {
    if |names| > 0 {
      var n := |names| - 1;
      var rest := keys - {names[n]};
      KeysAtMost(rest, names[..n]);
      assert keys <= rest + {names[n]};
      assert |rest + {names[n]}| == |rest| + 1;
    } else {
      assert keys == {};
    }
  }

  /** An object with at most `count` fields of at most `bound` bytes each. */
  lemma {:induction false} ObjectAtMost(j: Json, level: nat, count: nat, bound: nat)
    requires j.Object? && |j.fields| <= count && forall k :: k in j.fields ==> PrintedField(j, k, level) <= bound
    ensures PrintedSize(j, level) <= count * bound + Frame(count, level)
  {
    hide PrintedField;
    var n := |j.fields|;
    assert |j.fields.Keys| == n;
    PrintedAtMost(j, j.fields.Keys, level, bound);
    Monotone(n, count, bound);
    Monotone(n, count, 1 + 2 * (level + 1));
  }

  // ---------------------------------------------------------------- possible files

  /** A file can spell its document only if it has that many bytes. */
  ghost predicate Possible(file: Document) {
    LeastSize(file.json) <= file.size
  }

  // ---------------------------------------------------------------- sums over fields

  lemma {:induction false} TakeField(j: Json, keys: set<string>, k: string)
    requires j.Object? && keys <= j.fields.Keys && k in keys
    ensures FieldsSize(j, keys) == FieldSize(j, k) + FieldsSize(j, keys - {k})
    decreases |keys|
  {
    hide FieldSize, Pick;
    var first := Pick(keys);
    if first != k {
      TakeField(j, keys - {first}, k);
      TakeField(j, keys - {k}, first);
      assert keys - {first} - {k} == keys - {k} - {first};
    }
  }

  lemma {:induction false} FieldWithin(j: Json, k: string)
    requires j.Object? && k in j.fields
    ensures LeastSize(j.fields[k]) < LeastSize(j)
  {
    TakeField(j, j.fields.Keys, k);
  }

  lemma {:induction false} ItemsWithin(j: Json, n: nat, i: nat)
    requires j.List? && i < n <= |j.items|
    ensures LeastSize(j.items[i]) <= ItemsSize(j, n)
  {
    if i < n - 1 { ItemsWithin(j, n - 1, i); }
  }

  lemma {:induction false} ItemWithin(j: Json, i: nat)
    requires j.List? && i < |j.items|
    ensures LeastSize(j.items[i]) < LeastSize(j)
  {
    ItemsWithin(j, |j.items|, i);
  }

  lemma {:induction false} FieldsAtMost(j: Json, keys: set<string>, bound: nat)
    requires j.Object? && keys <= j.fields.Keys && forall k :: k in keys ==> FieldSize(j, k) <= bound
    ensures FieldsSize(j, keys) <= |keys| * bound
    decreases |keys|
  {
    hide FieldSize, Pick;
    if keys != {} {
      var k := Pick(keys);
      FieldsAtMost(j, keys - {k}, bound);
      assert |keys| == |keys - {k}| + 1;
      assert |keys| * bound == |keys - {k}| * bound + bound;
    }
  }

  // ---------------------------------------------------------------- directories are bounded by the file

  lemma {:induction false} MadeRoot(settings: Json, project: string, tenant: int, environment: string, files: Files)
    requires settings.Object? && TARGET_KEYS <= settings.fields.Keys
    requires MakeTarget(settings.fields, project, tenant, environment, files).Ok?
    ensures |MakeTarget(settings.fields, project, tenant, environment, files).value.root| < LeastSize(settings)
  {
    hide PublicOrigin, IsDeploymentRoot, IsIdentifier, ReadBundle, LeastSize, InstanceId;
    var root := settings.fields["deploy_root"];
    assert MakeTarget(settings.fields, project, tenant, environment, files).value.root == root.s;
    FieldWithin(settings, "deploy_root");
    RootSize(root);
  }

  lemma RootSize(root: Json)
    requires root.Str?
    ensures |root.s| <= LeastSize(root)
  {
    Utf8AtLeastLength(root.s);
  }

  ghost predicate RootsBelow(targets: seq<Target>, bound: nat) {
    forall i :: 0 <= i < |targets| ==> |targets[i].root| < bound
  }

  lemma {:induction false} AddedRoots(plan: Plan, project: Json, files: Files, bound: nat)
    requires AddProject(plan, project, files).Ok? && RootsBelow(plan.targets, bound) && LeastSize(project) <= bound
    ensures RootsBelow(AddProject(plan, project, files).value.targets, bound)
  {
    hide LeastSize, MakeTarget, IsIdentifier, PositiveInt;
    var fields := project.fields;
    var id := Identifier(fields["project_id"]).value;
    var tenant := PositiveInt(fields["tenant_id"], MAX_ID).value;
    FieldWithin(project, "staging");
    FieldWithin(project, "production");
    MadeRoot(fields["staging"], id, tenant, "staging", files);
    MadeRoot(fields["production"], id, tenant, "production", files);
  }

  lemma {:induction false} AllRoots(plan: Plan, projects: Json, n: nat, files: Files, bound: nat)
    requires projects.List? && n <= |projects.items| && AddProjects(plan, projects.items, n, files).Ok?
    requires RootsBelow(plan.targets, bound) && LeastSize(projects) <= bound
    ensures RootsBelow(AddProjects(plan, projects.items, n, files).value.targets, bound)
  {
    hide LeastSize, AddProject, RootsBelow;
    if n > 0 {
      AllRoots(plan, projects, n - 1, files, bound);
      ItemWithin(projects, n - 1);
      AddedRoots(AddProjects(plan, projects.items, n - 1, files).value, projects.items[n - 1], files, bound);
    }
  }

  lemma {:induction false} SharedRoot(inventory: Json, files: Files)
    requires SharedPlan(inventory, files).Ok?
    ensures inventory.Object? && "projects" in inventory.fields
    ensures var (plan, projects) := SharedPlan(inventory, files).value;
            RootsBelow(plan.targets, LeastSize(inventory)) && inventory.fields["projects"] == List(projects)
  {
    hide LeastSize, MakeTarget, PositiveInt;
    var shared := inventory.fields["shared_integration"];
    FieldWithin(inventory, "shared_integration");
    MadeRoot(shared, "daypop-shared", PositiveInt(shared.fields["tenant_id"], MAX_ID).value, "integration", files);
  }

  /** No directory of an accepted inventory is as long as the largest inventory file. */
  lemma {:induction false} RootsAreBounded(source: Document, files: Files, i: nat)
    requires Possible(source) && Accepted(source, files) && i < |Expand(source.json, files).value|
    ensures |Expand(source.json, files).value[i].root| < INVENTORY_LIMIT
  {
    hide LeastSize, SharedPlan, AddProjects, Isolated;
    var inventory := source.json;
    SharedRoot(inventory, files);
    var (plan, projects) := SharedPlan(inventory, files).value;
    FieldWithin(inventory, "projects");
    AllRoots(plan, List(projects), |projects|, files, LeastSize(inventory));
  }
}
