/** The network profile the server pushes and the checks of client/network_profile.go. */
module NetworkProfile {
  import opened Basics
  import opened Ipv4

  /** What netip.ParsePrefix makes of a route's text. It accepts one spelling of each IPv4 prefix, so
      equal prefixes are equal texts. */
  datatype Cidr = Malformed | V6 | V4(prefix: Prefix)

  datatype Route = Route(cidr: Cidr, kind: string, deployment: string)

  datatype Dns = Dns(servers: seq<string>, routeAll: bool)

  datatype Profile = Profile(version: int, routes: seq<Route>, dns: Dns)

  const RESOLVER_IP: string := "10.130.50.254"
  const RESOLVER_ADDR: Addr := Ten(130, 50, 254)
  const RESOLVER: Prefix := Ipv4.Cidr(RESOLVER_ADDR, 32)
  const SCENARIOS: Prefix := Ipv4.Cidr(Ten(128, 0, 0), 16)
  const TEAMSERVERS: Prefix := Ipv4.Cidr(Ten(130, 50, 0), 24)
  const MAX_ROUTES: nat := 64

  datatype Reason = Version | RouteCount | BadRoute(index: nat) | DnsSettings

  datatype Check = Accepted | Refused(reason: Reason)

  // ---------- The specification, in terms of the addresses a route covers ----------

  ghost predicate CoversOnly(p: Prefix, allowed: Prefix) {
    forall a: Addr :: Covers(p, a) ==> Covers(allowed, a)
  }

  ghost predicate CoversJust(p: Prefix, host: Addr) {
    forall a: Addr :: Covers(p, a) <==> a == host
  }

  /** Written with all host bits zero. */
  ghost predicate Canonical(p: Prefix) {
    forall a: Addr :: Covers(p, a) ==> p.base <= a
  }

  /** 10.128.0.0 to 10.128.255.255. */
  predicate InScenarios(a: Addr) {
    Ten(128, 0, 0) <= a <= Ten(128, 255, 255)
  }

  /** 10.130.50.0 to 10.130.50.255. */
  predicate InSubnet(a: Addr) {
    Ten(130, 50, 0) <= a <= Ten(130, 50, 255)
  }

  /** A scenario route stays inside the scenario range; a TeamServer route is one host of the TeamServer
      range other than 10.130.50.254; a resolver route is just that host. */
  ghost predicate Authorized(r: Route) {
    && r.cidr.V4?
    && Canonical(r.cidr.prefix)
    && (|| (r.kind == "scenario" && forall a: Addr :: Covers(r.cidr.prefix, a) ==> InScenarios(a))
        || (r.kind == "teamserver" && exists h: Addr ::
              CoversJust(r.cidr.prefix, h) && InSubnet(h) && h != Ten(130, 50, 254))
        || (r.kind == "resolver" && CoversJust(r.cidr.prefix, Ten(130, 50, 254))))
  }

  lemma SpansMatch(a: Addr)
    ensures InScenarios(a) <==> Covers(SCENARIOS, a)
    ensures InSubnet(a) <==> Covers(TEAMSERVERS, a)
  {
    SixteenSpan(128, a);
    TwentyFourSpan(Ten(130, 50, 0), a);
  }

  lemma ScenariosOnly(p: Prefix)
    ensures CoversOnly(p, SCENARIOS) <==> forall a: Addr :: Covers(p, a) ==> InScenarios(a)
  {
    forall a: Addr ensures InScenarios(a) <==> Covers(SCENARIOS, a) { SpansMatch(a); }
  }

  ghost predicate NoRepeats(routes: seq<Route>) {
    forall i, j | 0 <= i < j < |routes| :: routes[i].cidr != routes[j].cidr
  }

  ghost predicate HasResolver(routes: seq<Route>) {
    exists r :: r in routes && r.kind == "resolver"
  }

  ghost predicate AllFine(routes: seq<Route>) {
    (forall r | r in routes :: Authorized(r)) && NoRepeats(routes)
  }

  /** Route i is the first that is not authorized or repeats an earlier one. */
  ghost predicate FirstBad(routes: seq<Route>, i: nat) {
    && i < |routes|
    && AllFine(routes[..i])
    && !(Authorized(routes[i]) && forall r | r in routes[..i] :: r.cidr != routes[i].cidr)
  }

  /** What a client may obey. */
  ghost predicate Safe(p: Profile) {
    && p.version == 1
    && 1 <= |p.routes| <= 64
    && AllFine(p.routes)
    && HasResolver(p.routes)
    && p.dns == Dns(["10.130.50.254"], true)
  }

  // ---------- The checks of the code ----------

  predicate Masked(p: Prefix) {
    p.base % Size(p) == 0
  }

  predicate PassesKind(kind: string, p: Prefix) {
    if kind == "scenario" then p.bits >= SCENARIOS.bits && Covers(SCENARIOS, p.base)
    else if kind == "teamserver" then p.bits == 32 && Covers(TEAMSERVERS, p.base) && p.base != RESOLVER_ADDR
    else if kind == "resolver" then p == RESOLVER
    else false
  }

  /** The tests of one lap. */
  method CheckRoute(route: Route, seen: set<Prefix>) returns (fine: bool)
    ensures fine <==> Authorized(route) && route.cidr.prefix !in seen
  {
    RouteChecked(route);
    if !route.cidr.V4? || !Masked(route.cidr.prefix) {
      return false;
    }
    if route.cidr.prefix in seen {
      return false;
    }
    fine := PassesKind(route.kind, route.cidr.prefix);
  }

  /** The loop over the routes: none is bad, or the first bad one. */
  method CheckRoutes(routes: seq<Route>) returns (bad: Option<nat>, hasResolver: bool)
    ensures bad.None? ==> AllFine(routes) && (hasResolver <==> HasResolver(routes))
    ensures bad.Some? ==> FirstBad(routes, bad.value) && !AllFine(routes)
  {
    var seen: set<Prefix> := {};
    hasResolver := false;
    for i := 0 to |routes|
      invariant Checked(routes[..i], seen, hasResolver)
    {
      var route := routes[i];
      var fine := CheckRoute(route, seen);
      if !fine {
        RefusedAt(routes, i, seen, hasResolver);
        return Some(i), hasResolver;
      }
      CheckedNext(routes[..i], seen, hasResolver, route);
      assert routes[..i + 1] == routes[..i] + [route];
      seen := seen + {route.cidr.prefix};
      hasResolver := hasResolver || route.kind == "resolver";
    }
    assert routes[..|routes|] == routes;
    bad := None;
  }

  /** Accepts exactly the safe profiles, and otherwise names the first check that failed: a route is
      reported only if every route before it is authorized and new. */
  method Validate(profile: Option<Profile>) returns (c: Check)
    ensures c.Accepted? <==> profile.Some? && Safe(profile.value)
    ensures c == Refused(Version) <==> profile.None? || profile.value.version != 1
    ensures c == Refused(RouteCount) <==>
              profile.Some? && profile.value.version == 1 && !(1 <= |profile.value.routes| <= 64)
    ensures c.Refused? && c.reason.BadRoute? ==>
              profile.Some? && FirstBad(profile.value.routes, c.reason.index)
    ensures c == Refused(DnsSettings) ==> profile.Some? && AllFine(profile.value.routes)
  {
    if profile.None? || profile.value.version != 1 {
      return Refused(Version);
    }
    var routes := profile.value.routes;
    if |routes| == 0 || |routes| > MAX_ROUTES {
      return Refused(RouteCount);
    }
    var bad, hasResolver := CheckRoutes(routes);
    if bad.Some? {
      return Refused(BadRoute(bad.value));
    }
    var dns := profile.value.dns;
    if !hasResolver || !dns.routeAll || |dns.servers| != 1 || dns.servers[0] != RESOLVER_IP {
      return Refused(DnsSettings);
    }
    assert dns.servers == [RESOLVER_IP];
    return Accepted;
  }

  /** The loop's variables summarize the routes it has passed. */
  ghost predicate Checked(done: seq<Route>, seen: set<Prefix>, hasResolver: bool) {
    && AllFine(done)
    && seen == PrefixesOf(done)
    && (hasResolver <==> HasResolver(done))
  }

  lemma CheckedNext(done: seq<Route>, seen: set<Prefix>, hasResolver: bool, route: Route)
    requires Checked(done, seen, hasResolver) && Authorized(route) && route.cidr.prefix !in seen
    ensures Checked(done + [route], seen + {route.cidr.prefix}, hasResolver || route.kind == "resolver")
  {
    var next := done + [route];
    assert next[|done|] == route;
    PrefixesNext(done, route);
    assert forall r :: r in next <==> r in done || r == route;
    assert forall i | 0 <= i < |done| :: next[i] == done[i] && done[i] in done;
  }

  lemma PrefixesNext(done: seq<Route>, route: Route)
    requires route.cidr.V4?
    ensures PrefixesOf(done + [route]) == PrefixesOf(done) + {route.cidr.prefix}
  {
    var next := done + [route];
    assert next[|done|] == route;
    assert forall r :: r in next <==> r in done || r == route;
  }

  /** The code's tests on one route. */
  predicate PassesChecks(r: Route) {
    r.cidr.V4? && Masked(r.cidr.prefix) && PassesKind(r.kind, r.cidr.prefix)
  }

  lemma RefusedAt(routes: seq<Route>, i: nat, seen: set<Prefix>, hasResolver: bool)
    requires i < |routes| && Checked(routes[..i], seen, hasResolver)
    requires !Authorized(routes[i]) || routes[i].cidr.prefix in seen
    ensures FirstBad(routes, i) && !AllFine(routes)
  {
    if Authorized(routes[i]) {
      var r :| r in routes[..i] && r.cidr == routes[i].cidr;
      var k :| 0 <= k < i && routes[k] == r;
    } else {
      assert routes[i] in routes;
    }
  }

  // ---------- Prefix arithmetic ----------

  lemma CanonicalIsMasked(p: Prefix)
    ensures Canonical(p) <==> Masked(p)
  {
    MaskedIsLow(p);
    CoversRange(p, Low(p));
    forall a: Addr | Covers(p, a) ensures Low(p) <= a { CoversRange(p, a); }
  }

  /** A longer prefix with its base inside a shorter one covers nothing outside it, and conversely. */
  lemma NestedIff(p: Prefix, outer: Prefix)
    ensures CoversOnly(p, outer) <==> p.bits >= outer.bits && Covers(outer, p.base)
  {
    assert Covers(p, p.base);
    if p.bits >= outer.bits {
      forall a: Addr | Covers(p, a)
        ensures Covers(outer, a) <==> Covers(outer, p.base)
      {
        LongerRefines(p, outer, a);
      }
    } else {
      WiderEscapes(p, outer);
    }
  }

  lemma LongerRefines(p: Prefix, outer: Prefix, a: Addr)
    requires p.bits >= outer.bits && Covers(p, a)
    ensures a / Size(outer) == p.base / Size(outer)
  {
    var s, m := Size(p), Pow2(p.bits - outer.bits);
    Pow2Split(32 - outer.bits, p.bits - outer.bits);
    DivDiv(a, s, m);
    DivDiv(p.base, s, m);
  }

  lemma WiderEscapes(p: Prefix, outer: Prefix)
    requires p.bits < outer.bits
    ensures !CoversOnly(p, outer)
  {
    ShorterIsLarger(p, outer.bits);
    BlockFits(p);
    var low: Addr := Low(p);
    var high: Addr := Low(p) + Size(outer);
    CoversRange(p, low);
    CoversRange(p, high);
    CoversRange(outer, low);
    CoversRange(outer, high);
  }

  lemma HostIff(p: Prefix, h: Addr)
    ensures CoversJust(p, h) <==> p == Ipv4.Cidr(h, 32)
  {
    Pow2Values();
    assert Covers(p, p.base);
    if p.bits < 32 {
      ShorterIsLarger(p, 32);
      BlockFits(p);
      var low: Addr := Low(p);
      CoversRange(p, low);
      CoversRange(p, low + 1);
    }
  }

  /** The code's tests on one route decide the specification's. */
  lemma RouteChecked(r: Route)
    ensures Authorized(r) <==> PassesChecks(r)
  {
    if r.cidr.V4? {
      var p := r.cidr.prefix;
      CanonicalIsMasked(p);
      NestedIff(p, SCENARIOS);
      ScenariosOnly(p);
      SpansMatch(p.base);
      HostIff(p, p.base);
      HostIff(p, RESOLVER_ADDR);
      assert Covers(p, p.base);
      if p.bits == 32 && Covers(TEAMSERVERS, p.base) && p.base != RESOLVER_ADDR {
        assert CoversJust(p, p.base);
      }
    }
  }

  // ---------- What an accepted profile lets through ----------

  ghost predicate RoutesTo(p: Profile, a: Addr) {
    exists r :: r in p.routes && r.cidr.V4? && Covers(r.cidr.prefix, a)
  }

  /** Every address a safe profile routes is a scenario or TeamServer-subnet address. */
  lemma SafeStaysInRange(p: Profile, a: Addr)
    requires Safe(p) && RoutesTo(p, a)
    ensures InScenarios(a) || InSubnet(a)
  {
    var r :| r in p.routes && r.cidr.V4? && Covers(r.cidr.prefix, a);
    assert Authorized(r);
  }

  /** The resolver's /32 is in a safe profile exactly once, as its resolver route. */
  lemma ResolverOnce(p: Profile)
    requires Safe(p)
    ensures exists i ::
      && 0 <= i < |p.routes| && p.routes[i].cidr == V4(RESOLVER) && p.routes[i].kind == "resolver"
      && forall j | 0 <= j < |p.routes| && j != i :: p.routes[j].cidr != V4(RESOLVER) && p.routes[j].kind != "resolver"
  {
    var r :| r in p.routes && r.kind == "resolver";
    var i :| 0 <= i < |p.routes| && p.routes[i] == r;
    RouteChecked(r);
    forall j | 0 <= j < |p.routes| && j != i
      ensures p.routes[j].cidr != V4(RESOLVER) && p.routes[j].kind != "resolver"
    {
      assert p.routes[j] in p.routes;
      RouteChecked(p.routes[j]);
      assert p.routes[i].cidr != p.routes[j].cidr;
    }
  }

  /** The addresses below 2^32 that a profile routes. */
  ghost function Covered(p: Profile): set<int> {
    set a: int | 0 <= a < 0x1_0000_0000 && RoutesTo(p, a)
  }

  ghost function Range(low: int, n: nat): set<int> {
    if n == 0 then {} else Range(low, n - 1) + {low + n - 1}
  }

  lemma {:induction false} RangeSize(low: int, n: nat)
    ensures |Range(low, n)| == n
    ensures forall a :: a in Range(low, n) <==> low <= a < low + n
  {
    if n > 0 {
      RangeSize(low, n - 1);
    }
  }

  /** The single addresses of the first k routes that are not scenario routes. */
  ghost function Hosts(routes: seq<Route>, k: nat): set<int>
    requires k <= |routes|
  {
    if k == 0 then {}
    else if routes[k - 1].kind == "scenario" || !routes[k - 1].cidr.V4? then Hosts(routes, k - 1)
    else Hosts(routes, k - 1) + {routes[k - 1].cidr.prefix.base}
  }

  lemma {:induction false} HostsBounded(routes: seq<Route>, k: nat)
    requires k <= |routes|
    ensures |Hosts(routes, k)| <= k
    ensures (exists i :: 0 <= i < k && routes[i].kind == "scenario") ==> |Hosts(routes, k)| < k
    ensures forall i | 0 <= i < k && routes[i].kind != "scenario" && routes[i].cidr.V4? ::
              routes[i].cidr.prefix.base in Hosts(routes, k)
  {
    if k > 0 {
      HostsBounded(routes, k - 1);
    }
  }

  lemma CoveredByChecked(r: Route, a: Addr)
    requires PassesChecks(r) && Covers(r.cidr.prefix, a)
    ensures if r.kind == "scenario" then Covers(SCENARIOS, a) else a == r.cidr.prefix.base
  {
    if r.kind == "scenario" {
      LongerRefines(r.cidr.prefix, SCENARIOS, a);
    } else {
      assert Size(r.cidr.prefix) == 1;
    }
  }

  lemma ScenarioRange(a: Addr)
    requires Covers(SCENARIOS, a)
    ensures Ten(128, 0, 0) <= a < Ten(129, 0, 0)
  {
    Pow2Values();
  }

  lemma CoveredBySafeRoute(r: Route, a: Addr)
    requires PassesChecks(r) && Covers(r.cidr.prefix, a)
    ensures if r.kind == "scenario" then Ten(128, 0, 0) <= a < Ten(129, 0, 0) else a == r.cidr.prefix.base
  {
    CoveredByChecked(r, a);
    if r.kind == "scenario" {
      ScenarioRange(a);
    }
  }

  predicate HasScenario(routes: seq<Route>) {
    exists i :: 0 <= i < |routes| && routes[i].kind == "scenario"
  }

  lemma CoveredWithin(p: Profile)
    requires Safe(p)
    ensures Covered(p)
         <= (if HasScenario(p.routes) then Range(Ten(128, 0, 0), 65536) else {}) + Hosts(p.routes, |p.routes|)
  {
    forall a | a in Covered(p)
      ensures a in (if HasScenario(p.routes) then Range(Ten(128, 0, 0), 65536) else {}) + Hosts(p.routes, |p.routes|)
    {
      var r :| r in p.routes && r.cidr.V4? && Covers(r.cidr.prefix, a);
      var i :| 0 <= i < |p.routes| && p.routes[i] == r;
      RouteWithin(p.routes, i, a);
    }
  }

  lemma {:induction false} RouteWithin(routes: seq<Route>, i: nat, a: Addr)
    requires i < |routes| && Authorized(routes[i]) && Covers(routes[i].cidr.prefix, a)
    ensures (HasScenario(routes) && a in Range(Ten(128, 0, 0), 65536)) || a in Hosts(routes, |routes|)
  {
    RouteChecked(routes[i]);
    CoveredBySafeRoute(routes[i], a);
    if routes[i].kind == "scenario" {
      RangeSize(Ten(128, 0, 0), 65536);
    } else {
      HostsBounded(routes, |routes|);
    }
  }

  /** A safe profile routes at most 65536 + 63 addresses. */
  lemma SafeCoversFew(p: Profile)
    requires Safe(p)
    ensures |Covered(p)| <= 65536 + 63
  {
    var scenarios := if HasScenario(p.routes) then Range(Ten(128, 0, 0), 65536) else {};
    var hosts := Hosts(p.routes, |p.routes|);
    CoveredWithin(p);
    Subset(Covered(p), scenarios + hosts);
    RangeSize(Ten(128, 0, 0), 65536);
    HostsBounded(p.routes, |p.routes|);
    assert |scenarios + hosts| <= |scenarios| + |hosts|;
  }

  lemma {:induction false} Subset(a: set<int>, b: set<int>)
    requires a <= b
    ensures |a| <= |b|
  {
    assert b == a + (b - a);
  }

  // ---------- The route set ----------

  /** The routes of a profile as a set; sorting the texts first does not change it. */
  function RouteSet(p: Profile): set<Prefix> {
    PrefixesOf(p.routes)
  }

  function PrefixesOf(routes: seq<Route>): set<Prefix> {
    set r | r in routes && r.cidr.V4? :: r.cidr.prefix
  }
}
