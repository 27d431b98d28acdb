/**
 Two window lengths in one process: a minute of customer traffic fills the entries, and one call of the
 default one-second configuration sweeps them all away.
 */
module MemoryLimiterMixed {
  import opened RateLimit
  import opened RateLimitKeys
  import opened Text
  import opened MemoryLimiter
  import opened MemoryLimiterRuns

  const MINUTE: nat := 60000
  const SECOND: nat := 1000
  const VISITORS: nat := 5000

  /** The customer entry configuration and the default configuration. */
  const ENTRY_LIMITS := Limits(5000, 600, 0, 120)
  const DEFAULT_LIMITS := Limits(100, 50, 0, 30)

  function EntryKey(scope: string, value: string): Key {
    KeyText("customer-entry", scope, MINUTE, value)
  }

  const ENTRY_GLOBAL: Key := EntryKey("global", "all")
  const DEFAULT_GLOBAL: Key := KeyText("api", "global", SECOND, "all")

  /** The i-th visitor has a tenant and an address of its own. */
  function Visitor(i: nat): Caller {
    Caller(Decimal(i), "", Decimal(i), false)
  }

  function Visit(i: nat): Call {
    Call(BuildKeys("customer-entry", MINUTE, ENTRY_LIMITS, Visitor(i)), 0, MINUTE)
  }

  /** An authenticated caller without a tenant, one second later. */
  function Ping(): Call {
    Call(BuildKeys("api", SECOND, DEFAULT_LIMITS, Caller("", "user", "", true)), 1000, SECOND)
  }

  function Traffic(): seq<Call> {
    seq(VISITORS, i => if i >= 0 then Visit(i) else Ping()) + [Ping()]
  }

  function WindowOf(k: Key): int {
    if k == DEFAULT_GLOBAL then SECOND else MINUTE
  }

  /** Where the scope starts in a customer entry key. */
  const SCOPE_AT: nat := 25

  function LimitOf(k: Key): int {
    if k == DEFAULT_GLOBAL then 100
    else if k == ENTRY_GLOBAL then 5000
    else if |k| > SCOPE_AT && k[SCOPE_AT] == 't' then 600
    else 120
  }

  // ---------------------------------------------------------------- the keys

  lemma {:induction false} NotBlank(i: nat)
    ensures !Blank(Decimal(i)) && !Blank("all") && Blank("")
  {
    assert IsDigit(Decimal(i)[0]) && !IsSpace(Decimal(i)[0]);
    assert !IsSpace("all"[0]);
  }

  lemma {:induction false} VisitKeys(i: nat)
    ensures Visit(i).keys ==
              [KeyLimit(ENTRY_GLOBAL, 5000), KeyLimit(EntryKey("tenant", Decimal(i)), 600),
               KeyLimit(EntryKey("ip", Decimal(i)), 120)]
  {
    hide KeyText, Blank, Decimal;
    NotBlank(i);
  }

  lemma {:induction false} PingKeys()
    ensures Ping().keys == [KeyLimit(DEFAULT_GLOBAL, 100)]
  {
    hide KeyText, Blank;
    NotBlank(0);
  }

  lemma {:induction false} EntryKeysDiffer(scope: string, value: string, scope': string, value': string)
    requires ':' !in scope && ':' !in scope'
    ensures EntryKey(scope, value) == EntryKey(scope', value') ==> scope == scope' && value == value'
    ensures EntryKey(scope, value) != DEFAULT_GLOBAL
  {
    hide KeyText;
    assert ':' !in "customer-entry" && ':' !in "api" && ':' !in "global";
    if EntryKey(scope, value) == EntryKey(scope', value') {
      KeyTextInjective("customer-entry", scope, MINUTE, value, "customer-entry", scope', MINUTE, value');
    }
    if EntryKey(scope, value) == DEFAULT_GLOBAL {
      KeyTextInjective("customer-entry", scope, MINUTE, value, "api", "global", SECOND, "all");
    }
  }

  lemma {:induction false} ScopeLetter(scope: string, value: string)
    requires |scope| > 0
    ensures |EntryKey(scope, value)| > SCOPE_AT && EntryKey(scope, value)[SCOPE_AT] == scope[0]
  {
    hide Decimal;
    assert |"ratelimit"| == 9 && |"customer-entry"| == 14;
  }

  lemma {:induction false} VisitIsLegal(i: nat)
    ensures LegalCall(Visit(i), WindowOf, LimitOf)
  {
    hide KeyText, BuildKeys, EntryKey, Decimal;
    VisitKeys(i);
    var d := Decimal(i);
    assert ':' !in "global" && ':' !in "tenant" && ':' !in "ip";
    assert "tenant" != "global" && "ip" != "global" by {
      assert "tenant"[0] == 't' && "ip"[0] == 'i' && "global"[0] == 'g';
    }
    EntryKeysDiffer("global", "all", "tenant", d);
    EntryKeysDiffer("tenant", d, "ip", d);
    EntryKeysDiffer("ip", d, "global", "all");
    ScopeLetter("tenant", d);
    ScopeLetter("ip", d);
  }

  lemma {:induction false} TrafficIsLegal()
    ensures Legal(Traffic(), WindowOf, LimitOf) && GoInts(LimitOf)
  {
    hide Visit, Ping, KeyText, LegalCall;
    forall i | 0 <= i < |Traffic()| ensures LegalCall(Traffic()[i], WindowOf, LimitOf) {
      if i < VISITORS { VisitIsLegal(i); } else { PingIsLegal(); }
    }
    forall i, j | 0 <= i < j < |Traffic()| ensures Traffic()[i].now <= Traffic()[j].now {
      CallTimes(i);
      CallTimes(j);
    }
  }

  lemma PingIsLegal()
    ensures LegalCall(Ping(), WindowOf, LimitOf)
  {
    hide KeyText, BuildKeys;
    PingKeys();
  }

  lemma CallTimes(i: nat)
    requires i <= VISITORS
    ensures Traffic()[i] == (if i < VISITORS then Visit(i) else Ping()) &&
            Traffic()[i].now == if i < VISITORS then 0 else 1000
  {
    hide BuildKeys;
  }

  // ---------------------------------------------------------------- the entries

  /** The entries after n visits. */
  ghost function Flooded(n: nat): Entries {
    if n == 0 then map[]
    else Filled(Flooded(n - 1), ENTRY_GLOBAL, EntryKey("tenant", Decimal(n - 1)), EntryKey("ip", Decimal(n - 1)), n)
  }

  // The three keys of a visit are apart, and the tenant and address keys of a later visitor are not there yet.
  lemma {:induction false} NewKeys(n: nat, i: nat)
    requires n <= i
    ensures var t, p := EntryKey("tenant", Decimal(i)), EntryKey("ip", Decimal(i));
            && t !in Flooded(n) && p !in Flooded(n) && DEFAULT_GLOBAL !in Flooded(n)
            && t != p && t != ENTRY_GLOBAL && p != ENTRY_GLOBAL && ENTRY_GLOBAL != DEFAULT_GLOBAL
  {
    hide Decimal, EntryKey;
    assert ':' !in "global" && ':' !in "tenant" && ':' !in "ip";
    assert "tenant" != "global" && "ip" != "global" && "tenant" != "ip" by {
      assert "tenant"[0] == 't' && "ip"[0] == 'i' && "global"[0] == 'g';
    }
    var d := Decimal(i);
    EntryKeysDiffer("tenant", d, "ip", d);
    EntryKeysDiffer("tenant", d, "global", "all");
    EntryKeysDiffer("ip", d, "global", "all");
    EntryKeysDiffer("global", "all", "ip", d);
    if n > 0 {
      NewKeys(n - 1, i);
      var e := Decimal(n - 1);
      if d == e { DecimalInjective(i, n - 1); }
      EntryKeysDiffer("tenant", e, "tenant", d);
      EntryKeysDiffer("tenant", e, "ip", d);
      EntryKeysDiffer("ip", e, "tenant", d);
      EntryKeysDiffer("ip", e, "ip", d);
    }
  }

  function Filled(before: Entries, g: Key, t: Key, p: Key, n: nat): Entries {
    before[g := Entry(0, n)][t := Entry(0, 1)][p := Entry(0, 1)]
  }

  ghost predicate Early(entries: Entries) {
    forall k :: k in entries ==> entries[k].start == 0
  }

  lemma {:induction false} FilledShape(before: Entries, g: Key, t: Key, p: Key, n: nat)
    requires t !in before && p !in before && t != p && t != g && p != g && (g in before <==> n > 1) && Early(before)
    ensures var after := Filled(before, g, t, p, n);
            |after| == |before| + (if n > 1 then 2 else 3) && g in after && after[g] == Entry(0, n) && Early(after)
  {
    var one := before[g := Entry(0, n)];
    var two := one[t := Entry(0, 1)];
    assert |one| == |before| + if n > 1 then 0 else 1;
    assert |two| == |one| + 1;
    assert |two[p := Entry(0, 1)]| == |two| + 1;
  }

  lemma {:induction false} FilledCharge(e: Entries, call: Call, g: Key, t: Key, p: Key, n: nat)
    requires call.keys == [KeyLimit(g, 5000), KeyLimit(t, 600), KeyLimit(p, 120)] && call.now == 0 &&
             call.window == MINUTE && n < 5000
    requires t !in e && p !in e && t != p && t != g && p != g &&
             (if n > 0 then g in e && e[g] == Entry(0, n) else g !in e)
    ensures Admits(e, call) && Charge(e, call) == Filled(e, g, t, p, n + 1)
  {
    assert CurrentAt(e, call, 0) == Entry(0, n) && CurrentAt(e, call, 1) == Entry(0, 0) &&
           CurrentAt(e, call, 2) == Entry(0, 0);
    assert FirstFull(e, call, 3) == 3;
    assert FirstFull(e, call, 2) == 3;
    assert FirstFull(e, call, 1) == 3;
    assert ChargeKeys(e, call, 0) == e;
    assert ChargeKeys(e, call, 1) == e[g := Entry(0, n + 1)];
    assert ChargeKeys(e, call, 2) == e[g := Entry(0, n + 1)][t := Entry(0, 1)];
  }

  lemma {:induction false} FloodedShape(n: nat)
    ensures |Flooded(n)| == if n == 0 then 0 else 2 * n + 1
    ensures n > 0 ==> ENTRY_GLOBAL in Flooded(n) && Flooded(n)[ENTRY_GLOBAL] == Entry(0, n)
    ensures n == 0 ==> ENTRY_GLOBAL !in Flooded(n)
    ensures Early(Flooded(n))
  {
    hide Decimal, EntryKey, KeyText, Filled, Early;
    if n == 0 {
      NothingFlooded();
    } else {
      FloodedShape(n - 1);
      NewKeys(n - 1, n - 1);
      FilledShape(Flooded(n - 1), ENTRY_GLOBAL, EntryKey("tenant", Decimal(n - 1)), EntryKey("ip", Decimal(n - 1)), n);
    }
  }

  // A sweep on the minute takes no entry that started at time 0.
  lemma {:induction false} EarlyStays(e: Entries, call: Call)
    requires Early(Charge(e, call)) && call.now == 0 && call.window == MINUTE
    ensures CheckStep(e, call) == Charge(e, call) && SweepSafe(e, call, WindowOf)
  {
    hide Admits, Charge;
    assert Sweep(Charge(e, call), 0, MINUTE) == Charge(e, call);
  }

  lemma {:induction false} VisitStep(n: nat)
    requires n < VISITORS
    ensures CheckStep(Flooded(n), Visit(n)) == Flooded(n + 1)
    ensures SweepSafe(Flooded(n), Visit(n), WindowOf)
  {
    hide Decimal, EntryKey, BuildKeys, Charge, CheckStep, Filled, Early, SweepSafe;
    VisitKeys(n);
    NewKeys(n, n);
    FloodedShape(n);
    FloodedShape(n + 1);
    FilledCharge(Flooded(n), Visit(n), ENTRY_GLOBAL, EntryKey("tenant", Decimal(n)), EntryKey("ip", Decimal(n)), n);
    EarlyStays(Flooded(n), Visit(n));
  }

  lemma {:induction false} TrafficFloods(n: nat)
    requires n <= VISITORS
    ensures Stored(Traffic(), n) == Flooded(n)
    ensures forall i :: 0 <= i < n ==> SweepSafe(Stored(Traffic(), i), Traffic()[i], WindowOf)
  {
    hide Visit, Ping, Flooded, SweepSafe, CheckStep, Charge;
    if n == 0 {
      NothingFlooded();
    } else {
      TrafficFloods(n - 1);
      CallTimes(n - 1);
      VisitStep(n - 1);
    }
  }

  lemma NothingFlooded()
    ensures Flooded(0) == map[] && Early(Flooded(0))
  {
  }

  lemma {:induction false} PingSweeps()
    ensures !SweepSafe(Flooded(VISITORS), Ping(), WindowOf)
  {
    hide EntryKey, BuildKeys, Flooded, KeyText;
    PingKeys();
    NewKeys(VISITORS, VISITORS);
    FloodedShape(VISITORS);
    var e, call := Flooded(VISITORS), Ping();
    assert FirstFull(e, call, 0) == FirstFull(e, call, 1) == 1;
    assert ChargeKeys(e, call, 0) == e;
    var charged := Charge(e, call);
    assert charged == e[DEFAULT_GLOBAL := Entry(1000, 1)];
    assert |charged| == 10002;
    assert ENTRY_GLOBAL in charged && charged[ENTRY_GLOBAL] == Entry(0, 5000);
  }

  /**
   A legal run with built keys whose last sweep is unsafe: 5000 visitors of the customer entry within its limits,
   then one call on the default configuration. The next legal call is answered as if the minute had not begun.
   */
  lemma {:induction false} MixedWindowsShow() returns (next: Call)
    ensures Legal(Traffic(), WindowOf, LimitOf) && GoInts(LimitOf) && |Traffic()| == VISITORS + 1
    ensures !SweepSafe(Stored(Traffic(), VISITORS), Traffic()[VISITORS], WindowOf)
    ensures LegalCall(next, WindowOf, LimitOf) && next.now == Traffic()[VISITORS].now
    ensures CheckReply(Stored(Traffic(), VISITORS + 1), next) != CheckReply(Kept(Traffic(), VISITORS + 1), next)
  {
    hide Visit, Ping, Flooded, SweepSafe, CheckStep, Charge, Stored, Kept, CheckReply, LegalCall, Legal, GoInts;
    TrafficIsLegal();
    TrafficFloods(VISITORS);
    CallTimes(VISITORS);
    PingSweeps();
    next := FirstUnsafeSweepShows(Traffic(), VISITORS, WindowOf, LimitOf);
  }
}
