/** The quota keys of one request (internal/middleware/rate_limit.go, buildRateLimitKeys). */
module RateLimitKeys {
  import opened RateLimit
  import opened Text

  datatype Limits = Limits(global: int, tenant: int, actor: int, ip: int)

  /** Who is asking; authenticated callers are not charged to their shared IP address. */
  datatype Caller = Caller(tenant: string, actor: string, ip: string, authenticated: bool)

  predicate Blank(s: string) {
    forall i :: 0 <= i < |s| ==> IsSpace(s[i])
  }

  function KeyText(namespace: string, scope: string, window: nat, value: string): string {
    "ratelimit" + [':'] + (namespace + [':'] + (scope + [':'] + (Decimal(window) + [':'] + value)))
  }

  /** appendKey: a scope without a limit or without a value is not charged. */
  function ScopeKey(namespace: string, scope: string, window: nat, value: string, limit: int): seq<KeyLimit> {
    if limit <= 0 || Blank(value) then [] else [KeyLimit(KeyText(namespace, scope, window, value), limit)]
  }

  function BuildKeys(namespace: string, window: nat, limits: Limits, caller: Caller): seq<KeyLimit> {
    ScopeKey(namespace, "global", window, "all", limits.global) +
    ScopeKey(namespace, "tenant", window, caller.tenant, limits.tenant) +
    ScopeKey(namespace, "actor", window, caller.actor, limits.actor) +
    if caller.authenticated then [] else ScopeKey(namespace, "ip", window, caller.ip, limits.ip)
  }

  predicate IsScope(scope: string) {
    scope == "global" || scope == "tenant" || scope == "actor" || scope == "ip"
  }

  /**
   Key text is unambiguous as soon as namespaces do not contain the separator, as none of the configured ones does.
   */
  lemma {:induction false} KeyTextInjective(ns: string, scope: string, window: nat, value: string,
                                            ns': string, scope': string, window': nat, value': string)
    requires ':' !in ns && ':' !in ns' && ':' !in scope && ':' !in scope'
    requires KeyText(ns, scope, window, value) == KeyText(ns', scope', window', value')
    ensures ns == ns' && scope == scope' && window == window' && value == value'
  {
    var w, w' := Decimal(window), Decimal(window');
    assert ':' !in w && ':' !in w';
    var tail, tail' := w + [':'] + value, w' + [':'] + value';
    var scoped, scoped' := scope + [':'] + tail, scope' + [':'] + tail';
    SplitUnique("ratelimit", ns + [':'] + scoped, "ratelimit", ns' + [':'] + scoped', ':');
    SplitUnique(ns, scoped, ns', scoped', ':');
    SplitUnique(scope, tail, scope', tail', ':');
    SplitUnique(w, value, w', value', ':');
    DecimalInjective(window, window');
  }

  /** Keys of two scopes of one request differ, whatever the namespace contains. */
  lemma {:induction false} ScopesDiffer(
    ns: string, scope: string, scope': string, window: nat, value: string, value': string)
    requires |scope| > 0 && |scope'| > 0 && scope[0] != scope'[0]
    ensures KeyText(ns, scope, window, value) != KeyText(ns, scope', window, value')
  {
    var at := |"ratelimit" + [':']| + |ns| + 1;
    assert KeyText(ns, scope, window, value)[at] == scope[0];
    assert KeyText(ns, scope', window, value')[at] == scope'[0];
  }

  /** Which scope and value a built key stands for. */
  ghost predicate StandsFor(k: KeyLimit, namespace: string, window: nat, scope: string) {
    IsScope(scope) && 1 <= k.limit && exists value :: k.key == KeyText(namespace, scope, window, value)
  }

  ghost predicate Apart(xs: seq<KeyLimit>, ys: seq<KeyLimit>) {
    forall x, y :: x in xs && y in ys ==> x.key != y.key
  }

  ghost predicate Unique(xs: seq<KeyLimit>) {
    forall i, j :: 0 <= i < j < |xs| ==> xs[i].key != xs[j].key
  }

  lemma {:induction false} AppendUnique(xs: seq<KeyLimit>, ys: seq<KeyLimit>)
    requires Unique(xs) && Unique(ys) && Apart(xs, ys)
    ensures Unique(xs + ys)
  {
    var zs := xs + ys;
    forall i, j | 0 <= i < j < |zs| ensures zs[i].key != zs[j].key {
      if i < |xs| <= j {
        assert zs[i] in xs && zs[j] in ys;
      }
    }
  }

  /** Every built key stands for one of the four scopes and has a positive limit. */
  lemma {:induction false} KeysStandForScopes(namespace: string, window: nat, limits: Limits, caller: Caller, i: nat)
    requires i < |BuildKeys(namespace, window, limits, caller)|
    ensures exists scope :: StandsFor(BuildKeys(namespace, window, limits, caller)[i], namespace, window, scope)
  {
    hide KeyText, Blank;
    var keys := BuildKeys(namespace, window, limits, caller);
    var a := ScopeKey(namespace, "global", window, "all", limits.global);
    var b := ScopeKey(namespace, "tenant", window, caller.tenant, limits.tenant);
    var c := ScopeKey(namespace, "actor", window, caller.actor, limits.actor);
    var d := if caller.authenticated then [] else ScopeKey(namespace, "ip", window, caller.ip, limits.ip);
    if i < |a| {
      assert StandsFor(keys[i], namespace, window, "global");
    } else if i < |a| + |b| {
      assert keys[i] == b[i - |a|];
      assert StandsFor(keys[i], namespace, window, "tenant");
    } else if i < |a| + |b| + |c| {
      assert keys[i] == c[i - |a| - |b|];
      assert StandsFor(keys[i], namespace, window, "actor");
    } else {
      assert keys[i] == d[i - |a| - |b| - |c|];
      assert StandsFor(keys[i], namespace, window, "ip");
    }
  }

  /** A value that says something. */
  ghost predicate Telling(value: string) {
    exists i :: 0 <= i < |value| && !IsSpace(value[i])
  }

  /** A key is built exactly for each scope with a positive limit and a value that says something. */
  lemma {:induction false} KeysAreBuiltIff(namespace: string, window: nat, limits: Limits, caller: Caller, k: KeyLimit)
    ensures k in BuildKeys(namespace, window, limits, caller) <==>
            || (1 <= limits.global && k == KeyLimit(KeyText(namespace, "global", window, "all"), limits.global))
            || (1 <= limits.tenant && Telling(caller.tenant) &&
                k == KeyLimit(KeyText(namespace, "tenant", window, caller.tenant), limits.tenant))
            || (1 <= limits.actor && Telling(caller.actor) &&
                k == KeyLimit(KeyText(namespace, "actor", window, caller.actor), limits.actor))
            || (1 <= limits.ip && Telling(caller.ip) && !caller.authenticated &&
                k == KeyLimit(KeyText(namespace, "ip", window, caller.ip), limits.ip))
  {
    hide KeyText, IsSpace;
    assert "all"[0] == 'a' && !Blank("all") by { AllSays(); }
    ScopeKeyIff(namespace, "global", window, "all", limits.global, k);
    ScopeKeyIff(namespace, "tenant", window, caller.tenant, limits.tenant, k);
    ScopeKeyIff(namespace, "actor", window, caller.actor, limits.actor, k);
    ScopeKeyIff(namespace, "ip", window, caller.ip, limits.ip, k);
  }

  lemma AllSays()
    ensures !Blank("all")
  {
    assert !IsSpace("all"[0]);
  }

  lemma ScopeKeyIff(namespace: string, scope: string, window: nat, value: string, limit: int, k: KeyLimit)
    ensures k in ScopeKey(namespace, scope, window, value, limit) <==>
            1 <= limit && Telling(value) && k == KeyLimit(KeyText(namespace, scope, window, value), limit)
  {
    hide KeyText, IsSpace;
  }

  /** The text of a key. */
  lemma KeyTextIs(namespace: string, scope: string, window: nat, value: string)
    ensures KeyText(namespace, scope, window, value) ==
            "ratelimit:" + namespace + ":" + scope + ":" + Decimal(window) + ":" + value
  {
    assert "ratelimit" + [':'] == "ratelimit:";
  }

  /** The keys of one request are pairwise distinct, whatever the namespace and the values contain. */
  lemma {:induction false} KeysAreDistinct(namespace: string, window: nat, limits: Limits, caller: Caller)
    ensures Unique(BuildKeys(namespace, window, limits, caller))
  {
    hide KeyText, Blank;
    var a := ScopeKey(namespace, "global", window, "all", limits.global);
    var b := ScopeKey(namespace, "tenant", window, caller.tenant, limits.tenant);
    var c := ScopeKey(namespace, "actor", window, caller.actor, limits.actor);
    var d := if caller.authenticated then [] else ScopeKey(namespace, "ip", window, caller.ip, limits.ip);
    ScopesDiffer(namespace, "global", "tenant", window, "all", caller.tenant);
    ScopesDiffer(namespace, "global", "actor", window, "all", caller.actor);
    ScopesDiffer(namespace, "global", "ip", window, "all", caller.ip);
    ScopesDiffer(namespace, "tenant", "actor", window, caller.tenant, caller.actor);
    ScopesDiffer(namespace, "tenant", "ip", window, caller.tenant, caller.ip);
    ScopesDiffer(namespace, "actor", "ip", window, caller.actor, caller.ip);
    AppendUnique(a, b);
    AppendUnique(a + b, c);
    AppendUnique(a + b + c, d);
  }

  /** A key shared by two requests carries one namespace and one window, so windows are a function of the key. */
  lemma {:induction false} SharedKeySharesWindow(ns: string, window: nat, limits: Limits, caller: Caller, i: nat,
                                                 ns': string, window': nat, limits': Limits, caller': Caller, j: nat)
    requires ':' !in ns && ':' !in ns'
    requires i < |BuildKeys(ns, window, limits, caller)| && j < |BuildKeys(ns', window', limits', caller')|
    requires BuildKeys(ns, window, limits, caller)[i].key == BuildKeys(ns', window', limits', caller')[j].key
    ensures ns == ns' && window == window'
  {
    hide KeyText, BuildKeys;
    KeysStandForScopes(ns, window, limits, caller, i);
    KeysStandForScopes(ns', window', limits', caller', j);
    var one, two := BuildKeys(ns, window, limits, caller)[i], BuildKeys(ns', window', limits', caller')[j];
    var scope :| StandsFor(one, ns, window, scope);
    var scope' :| StandsFor(two, ns', window', scope');
    var value :| one.key == KeyText(ns, scope, window, value);
    var value' :| two.key == KeyText(ns', scope', window', value');
    KeyTextInjective(ns, scope, window, value, ns', scope', window', value');
  }
}
