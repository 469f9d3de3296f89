/** HTTP routers to HTTPRoutes, the hosts that need listeners, and the policies that
    protect badger-marked routers. */
module Routes {
  import opened Prelude
  import opened Objects
  import opened Naming
  import opened Rule
  import opened Middleware
  import opened Backend
  import opened Emit

  datatype HttpRouter = HttpRouter(rule: string, service: string, middlewares: seq<string>,
                                   entryPoints: seq<string>, tls: bool)

  // ---- Ordered sets of host names -------------------------------------------------------------

  predicate Ascending(s: seq<string>) {
    forall i, j :: 0 <= i < j < |s| ==> Less(s[i], s[j])
  }

  lemma {:induction false} LessTotal(a: string, b: string)
    ensures a == b || Less(a, b) || Less(b, a)
  {
    if a != [] && b != [] && a[0] == b[0] {
      LessTotal(a[1..], b[1..]);
      assert a == [a[0]] + a[1..] && b == [b[0]] + b[1..];
    }
  }

  function Insert(s: seq<string>, x: string): (r: seq<string>)
    ensures forall y :: y in r <==> y == x || y in s
  {
    if s == [] then [x]
    else if s[0] == x then s
    else if Less(x, s[0]) then [x] + s
    else
      assert forall y :: y in s <==> y == s[0] || y in s[1..];
      [s[0]] + Insert(s[1..], x)
  }

  lemma {:induction false} InsertKeepsAscending(s: seq<string>, x: string)
    requires Ascending(s)
    ensures Ascending(Insert(s, x))
  {
    if s != [] && s[0] != x {
      LessTotal(s[0], x);
      if Less(x, s[0]) {
        forall i | 0 <= i < |s| ensures Less(x, s[i]) {
          if i > 0 { LessTransitive(x, s[0], s[i]); }
        }
      } else {
        InsertKeepsAscending(s[1..], x);
        var r := Insert(s[1..], x);
        forall i | 0 <= i < |r| ensures Less(s[0], r[i]) {
          assert r[i] in r;
          if r[i] != x {
            var j :| 0 <= j < |s[1..]| && s[1..][j] == r[i];
            assert s[j + 1] == r[i];
          }
        }
      }
    }
  }

  lemma AscendingIsDistinct(s: seq<string>, i: nat, j: nat)
    requires Ascending(s) && i < j < |s|
    ensures s[i] != s[j]
  {
    LessIrreflexive(s[i]);
  }

  function InsertAll(s: seq<string>, hosts: seq<string>): (r: seq<string>)
    ensures forall y :: y in r <==> y in hosts || y in s
    decreases hosts
  {
    if hosts == [] then s else InsertAll(Insert(s, hosts[0]), hosts[1..])
  }

  lemma {:induction false} InsertAllKeepsAscending(s: seq<string>, hosts: seq<string>)
    requires Ascending(s)
    ensures Ascending(InsertAll(s, hosts))
    decreases hosts
  {
    if hosts != [] {
      InsertKeepsAscending(s, hosts[0]);
      InsertAllKeepsAscending(Insert(s, hosts[0]), hosts[1..]);
    }
  }

  // ---- What one router contributes ---------------------------------------------------------------

  /** A route to emit. `auth` is the service of the policy that must accompany it. */
  datatype Emission = Emission(name: string, hosts: seq<string>, https: bool, body: Body,
                               isProtected: bool, auth: Option<ExtAuthz>)

  predicate Redirects(filters: seq<Filter>) {
    exists i :: 0 <= i < |filters| && filters[i].RequestRedirect?
  }

  function HttpRouteName(h: NameHash, router: string): string {
    PrefixedLabel(h, "hr", router)
  }

  function PolicyName(h: NameHash, route: string): string {
    PrefixedLabel(h, "sp", route)
  }

  /** What the program asks of its surroundings while looking at one router; for the
      program itself, `ProgramLens`. */
  datatype Lens = Lens(
    parse: string -> ParsedRule,
    isProtected: seq<string> -> bool,
    filters: seq<string> -> seq<Filter>,
    routeName: string -> string,
    policyName: string -> string)

  function ProgramLens(h: NameHash, middlewares: map<string, Json>): Lens {
    Lens(rule => ParseSpec(rule), names => RequiresBadgerAuth(names, middlewares),
         names => Merge(TranslateAll(names, middlewares)),
         router => HttpRouteName(h, router), route => PolicyName(h, route))
  }

  /** Skip, or emit: unusable rules, unguarded protected routers and unknown services
      are skipped; a redirecting route carries no backend. */
  function Decide(cfg: Config, lens: Lens, backends: Index, e: Entry<HttpRouter>): Option<Emission> {
    var r := e.value;
    var parsed := lens.parse(r.rule);
    var prot := lens.isProtected(r.middlewares);
    if !IsUsable(parsed) then None
    else if prot && cfg.extAuthz.None? && !cfg.allowUnauthenticatedRoutes then None
    else if r.service !in backends then None
    else
      var filters := lens.filters(r.middlewares);
      Some(Emission(
             lens.routeName(e.key), parsed.hosts,
             cfg.enableHttpsListeners && (r.tls || "https" in r.entryPoints),
             HTTPRouteBody(parsed.hosts, parsed.path, filters,
                           if Redirects(filters) then None else Some(backends[r.service])),
             prot, if prot then cfg.extAuthz else None))
  }

  datatype RouteState = RouteState(hostnames: seq<string>, httpsHosts: seq<string>, desired: Desired)

  function PolicyObj(cfg: Config, auth: ExtAuthz, route: string): Obj {
    Obj(OwnerLabels(cfg), SecurityPolicyBody(route, auth, false))
  }

  function Emitted(cfg: Config, lens: Lens, em: Emission, d: Desired): Desired {
    var d1 := if em.auth.None? then d
              else d[Key(SecurityPolicy, lens.policyName(em.name)) := PolicyObj(cfg, em.auth.value, em.name)];
    d1[Key(HTTPRoute, em.name) := Obj(OwnerLabels(cfg), em.body)]
  }

  function Perform(cfg: Config, lens: Lens, em: Option<Emission>, st: RouteState): RouteState {
    if em.None? then st
    else
      RouteState(InsertAll(st.hostnames, em.value.hosts),
                 if em.value.https then InsertAll(st.httpsHosts, em.value.hosts) else st.httpsHosts,
                 Emitted(cfg, lens, em.value, st.desired))
  }

  function RouteFold(cfg: Config, lens: Lens, backends: Index, routers: seq<Entry<HttpRouter>>,
                     st: RouteState): RouteState
    decreases routers
  {
    if routers == [] then st
    else RouteFold(cfg, lens, backends, routers[1..], Perform(cfg, lens, Decide(cfg, lens, backends, routers[0]), st))
  }

  // ---- The program's loop ----------------------------------------------------------------------------

  method RecordHosts(cfg: Config, hosts: seq<string>, https: bool, hostnames: seq<string>, httpsHosts: seq<string>)
    returns (allHosts: seq<string>, allHttps: seq<string>)
    ensures allHosts == InsertAll(hostnames, hosts)
    ensures allHttps == if https then InsertAll(httpsHosts, hosts) else httpsHosts
  {
    allHosts, allHttps := hostnames, httpsHosts;
    assert hosts[0..] == hosts;
    for i := 0 to |hosts|
      invariant InsertAll(allHosts, hosts[i..]) == InsertAll(hostnames, hosts)
      invariant https ==> InsertAll(allHttps, hosts[i..]) == InsertAll(httpsHosts, hosts)
      invariant !https ==> allHttps == httpsHosts
    {
      assert hosts[i..][0] == hosts[i] && hosts[i..][1..] == hosts[i + 1..];
      allHosts := Insert(allHosts, hosts[i]);
      if https {
        allHttps := Insert(allHttps, hosts[i]);
      }
    }
    assert hosts[|hosts|..] == [];
  }

  /** The decision for one router, by running the rule parser and the filter builder. */
  method DecideRouter(env: Env, middlewares: map<string, Json>, backends: Index, name: string, r: HttpRouter)
    returns (em: Option<Emission>)
    ensures em == Decide(env.cfg, ProgramLens(env.pf.hash, middlewares), backends, Entry(name, r))
  {
    var parsed := Parse(r.rule);
    if !IsUsable(parsed) {
      return None;
    }
    var prot := RequiresBadgerAuth(r.middlewares, middlewares);
    if prot && env.cfg.extAuthz.None? && !env.cfg.allowUnauthenticatedRoutes {
      return None;
    }
    if r.service !in backends {
      return None;
    }
    var filters := BuildFilters(r.middlewares, middlewares);
    var backend := if Redirects(filters) then None else Some(backends[r.service]);
    em := Some(Emission(HttpRouteName(env.pf.hash, name), parsed.hosts,
                        env.cfg.enableHttpsListeners && (r.tls || "https" in r.entryPoints),
                        HTTPRouteBody(parsed.hosts, parsed.path, filters, backend),
                        prot, if prot then env.cfg.extAuthz else None));
  }

  method BuildRoutes(env: Env, routers: Table<HttpRouter>, middlewares: map<string, Json>, backends: Index,
                     before: Desired)
    returns (hostnames: seq<string>, httpsHosts: seq<string>, desired: Desired)
    ensures RouteState(hostnames, httpsHosts, desired) ==
            RouteFold(env.cfg, ProgramLens(env.pf.hash, middlewares), backends, routers, RouteState([], [], before))
  {
    hostnames, httpsHosts, desired := [], [], before;
    ghost var lens := ProgramLens(env.pf.hash, middlewares);
    ghost var all := RouteFold(env.cfg, lens, backends, routers, RouteState([], [], before));
    assert routers[0..] == routers;
    for i := 0 to |routers|
      invariant RouteFold(env.cfg, lens, backends, routers[i..], RouteState(hostnames, httpsHosts, desired)) == all
    {
      assert routers[i..][0] == routers[i] && routers[i..][1..] == routers[i + 1..];
      var em := DecideRouter(env, middlewares, backends, routers[i].key, routers[i].value);
      if em.Some? {
        hostnames, httpsHosts := RecordHosts(env.cfg, em.value.hosts, em.value.https, hostnames, httpsHosts);
        desired := Publish(env, middlewares, em.value, desired);
      }
    }
    assert routers[|routers|..] == [];
  }

  /** Insert the policy, if one is due, and the route it targets. */
  method Publish(env: Env, middlewares: map<string, Json>, em: Emission, before: Desired) returns (desired: Desired)
    ensures desired == Emitted(env.cfg, ProgramLens(env.pf.hash, middlewares), em, before)
    ensures em.auth.Some? ==>
      exists k :: k in desired && k.kind == SecurityPolicy
        && desired[k].body == SecurityPolicyBody(em.name, em.auth.value, false)
    ensures Key(HTTPRoute, em.name) in desired && desired[Key(HTTPRoute, em.name)].body == em.body
  {
    desired := before;
    if em.auth.Some? {
      var policy := PolicyObj(env.cfg, em.auth.value, em.name);
      desired := desired[Key(SecurityPolicy, PolicyName(env.pf.hash, em.name)) := policy];
    }
    desired := desired[Key(HTTPRoute, em.name) := Obj(OwnerLabels(env.cfg), em.body)];
    assert em.auth.Some? ==> Key(SecurityPolicy, PolicyName(env.pf.hash, em.name)) in desired;
  }

  // ---- What the routes guarantee ----------------------------------------------------------------------

  /** Some router that is emitted under this name and with this body. */
  ghost predicate FromRouter(cfg: Config, lens: Lens, backends: Index, routers: seq<Entry<HttpRouter>>, name: string,
                             body: Body) {
    exists e :: e in routers && Decide(cfg, lens, backends, e).Some?
                && Decide(cfg, lens, backends, e).value.name == name
                && Decide(cfg, lens, backends, e).value.body == body
  }

  /** Every route is some router's, and its hosts are recorded. */
  ghost predicate RoutesPart(cfg: Config, lens: Lens, backends: Index, done: seq<Entry<HttpRouter>>, st: RouteState) {
    && (forall k :: k in st.desired && k.kind == HTTPRoute ==>
          && st.desired[k].labels == OwnerLabels(cfg)
          && FromRouter(cfg, lens, backends, done, k.name, st.desired[k].body)
          && st.desired[k].body.HTTPRouteBody?
          && (forall h :: h in st.desired[k].body.hostnames ==> h in st.hostnames))
    && (forall e :: e in done && Decide(cfg, lens, backends, e).Some? ==>
          Key(HTTPRoute, Decide(cfg, lens, backends, e).value.name) in st.desired)
  }

  /** Every policy is fail-closed and targets a route that is there. */
  ghost predicate PoliciesPart(cfg: Config, lens: Lens, d: Desired) {
    forall k :: k in d && k.kind == SecurityPolicy ==>
      exists route :: Key(HTTPRoute, route) in d && k.name == lens.policyName(route)
                      && cfg.extAuthz.Some? && d[k] == PolicyObj(cfg, cfg.extAuthz.value, route)
  }

  predicate HostsPart(st: RouteState) {
    Ascending(st.hostnames) && Ascending(st.httpsHosts) && forall h :: h in st.httpsHosts ==> h in st.hostnames
  }

  /** The manifest's routes and policies after the routers in `done`. */
  ghost predicate RoutesExplained(cfg: Config, lens: Lens, backends: Index, done: seq<Entry<HttpRouter>>,
                                  st: RouteState) {
    HostsPart(st) && RoutesPart(cfg, lens, backends, done, st) && PoliciesPart(cfg, lens, st.desired)
  }

  lemma PerformKeepsPolicies(cfg: Config, lens: Lens, em: Emission, d: Desired)
    requires PoliciesPart(cfg, lens, d) && (em.auth.Some? ==> em.auth == cfg.extAuthz)
    ensures PoliciesPart(cfg, lens, Emitted(cfg, lens, em, d))
  {
    var d' := Emitted(cfg, lens, em, d);
    assert Key(HTTPRoute, em.name) in d';
    forall k | k in d' && k.kind == SecurityPolicy
      ensures exists route :: Key(HTTPRoute, route) in d' && k.name == lens.policyName(route)
                              && cfg.extAuthz.Some? && d'[k] == PolicyObj(cfg, cfg.extAuthz.value, route)
    {
      if !(em.auth.Some? && k.name == lens.policyName(em.name)) {
        var route :| Key(HTTPRoute, route) in d && k.name == lens.policyName(route)
                     && cfg.extAuthz.Some? && d[k] == PolicyObj(cfg, cfg.extAuthz.value, route);
        assert Key(HTTPRoute, route) in d';
      }
    }
  }

  lemma FromRouterGrows(cfg: Config, lens: Lens, backends: Index, done: seq<Entry<HttpRouter>>, e: Entry<HttpRouter>,
                        name: string, body: Body)
    requires FromRouter(cfg, lens, backends, done, name, body)
    ensures FromRouter(cfg, lens, backends, done + [e], name, body)
  {
    var x :| x in done && Decide(cfg, lens, backends, x).Some? && Decide(cfg, lens, backends, x).value.name == name
      && Decide(cfg, lens, backends, x).value.body == body;
    assert x in done + [e];
  }

  lemma PerformKeepsRoutes(cfg: Config, lens: Lens, backends: Index, done: seq<Entry<HttpRouter>>, e: Entry<HttpRouter>,
                           st: RouteState)
    requires RoutesPart(cfg, lens, backends, done, st)
    ensures RoutesPart(cfg, lens, backends, done + [e], Perform(cfg, lens, Decide(cfg, lens, backends, e), st))
  {
    var em := Decide(cfg, lens, backends, e);
    var st' := Perform(cfg, lens, em, st);
    var done' := done + [e];
    assert forall x :: x in done' <==> x in done || x == e;
    if em.Some? {
      assert FromRouter(cfg, lens, backends, done', em.value.name, em.value.body);
    }
    forall k | k in st'.desired && k.kind == HTTPRoute
      ensures FromRouter(cfg, lens, backends, done', k.name, st'.desired[k].body)
    {
      if k in st.desired && st'.desired[k] == st.desired[k] {
        FromRouterGrows(cfg, lens, backends, done, e, k.name, st.desired[k].body);
      }
    }
  }

  lemma PerformExplains(cfg: Config, lens: Lens, backends: Index, done: seq<Entry<HttpRouter>>, e: Entry<HttpRouter>,
                        st: RouteState)
    requires RoutesExplained(cfg, lens, backends, done, st)
    ensures RoutesExplained(cfg, lens, backends, done + [e], Perform(cfg, lens, Decide(cfg, lens, backends, e), st))
  {
    var em := Decide(cfg, lens, backends, e);
    PerformKeepsRoutes(cfg, lens, backends, done, e, st);
    if em.Some? {
      PerformKeepsPolicies(cfg, lens, em.value, st.desired);
      InsertAllKeepsAscending(st.hostnames, em.value.hosts);
      InsertAllKeepsAscending(st.httpsHosts, em.value.hosts);
    }
  }

  lemma {:induction false} FoldExplains(cfg: Config, lens: Lens, backends: Index, done: seq<Entry<HttpRouter>>,
                                        routers: seq<Entry<HttpRouter>>, st: RouteState)
    requires RoutesExplained(cfg, lens, backends, done, st)
    ensures RoutesExplained(cfg, lens, backends, done + routers, RouteFold(cfg, lens, backends, routers, st))
    decreases routers
  {
    if routers == [] {
      assert done + routers == done;
    } else {
      PerformExplains(cfg, lens, backends, done, routers[0], st);
      FoldExplains(cfg, lens, backends, done + [routers[0]], routers[1..],
                   Perform(cfg, lens, Decide(cfg, lens, backends, routers[0]), st));
      assert done + [routers[0]] + routers[1..] == done + routers;
    }
  }

  /** Routes and policies are the only kinds the routers add. */
  lemma {:induction false} FoldTouchesOnlyRoutes(cfg: Config, lens: Lens, backends: Index,
                                                 routers: seq<Entry<HttpRouter>>, st: RouteState)
    ensures var d' := RouteFold(cfg, lens, backends, routers, st).desired;
      && st.desired.Keys <= d'.Keys
      && forall k :: k in d' && k.kind != HTTPRoute && k.kind != SecurityPolicy ==>
           k in st.desired && d'[k] == st.desired[k]
    decreases routers
  {
    if routers != [] {
      FoldTouchesOnlyRoutes(cfg, lens, backends, routers[1..],
                            Perform(cfg, lens, Decide(cfg, lens, backends, routers[0]), st));
    }
  }

  // ---- Protection coverage --------------------------------------------------------------------------------

  /** A fail-closed policy that targets the route. */
  predicate Guarded(cfg: Config, lens: Lens, d: Desired, route: string)
    requires cfg.extAuthz.Some?
  {
    var k := Key(SecurityPolicy, lens.policyName(route));
    k in d && d[k].body == SecurityPolicyBody(route, cfg.extAuthz.value, false)
  }

  /** Is the router emitted and protected? */
  predicate IsGuardDue(cfg: Config, lens: Lens, backends: Index, e: Entry<HttpRouter>) {
    Decide(cfg, lens, backends, e).Some? && Decide(cfg, lens, backends, e).value.isProtected
  }

  function NameOf(cfg: Config, lens: Lens, backends: Index, e: Entry<HttpRouter>): string
    requires IsGuardDue(cfg, lens, backends, e)
  {
    Decide(cfg, lens, backends, e).value.name
  }

  /** Policy names do not clash among the protected routes these routers emit. */
  ghost predicate PolicyNamesInjective(cfg: Config, lens: Lens, backends: Index, routers: seq<Entry<HttpRouter>>) {
    forall e, f :: e in routers && f in routers && IsGuardDue(cfg, lens, backends, e)
      && IsGuardDue(cfg, lens, backends, f)
      && lens.policyName(NameOf(cfg, lens, backends, e)) == lens.policyName(NameOf(cfg, lens, backends, f))
      ==> NameOf(cfg, lens, backends, e) == NameOf(cfg, lens, backends, f)
  }

  /** With ext-authz configured an emitted protected router ends up guarded, also when
      several routers sanitise to one route name. */
  lemma {:induction false} ProtectedRouteIsGuarded(cfg: Config, lens: Lens, backends: Index,
                                                   all: seq<Entry<HttpRouter>>,
                                                   routers: seq<Entry<HttpRouter>>, st: RouteState,
                                                   e: Entry<HttpRouter>)
    requires cfg.extAuthz.Some? && PolicyNamesInjective(cfg, lens, backends, all)
    requires (forall x :: x in routers ==> x in all) && e in all && IsGuardDue(cfg, lens, backends, e)
    requires e in routers || Guarded(cfg, lens, st.desired, NameOf(cfg, lens, backends, e))
    ensures Guarded(cfg, lens, RouteFold(cfg, lens, backends, routers, st).desired, NameOf(cfg, lens, backends, e))
    decreases routers
  {
    if routers != [] {
      var em := Decide(cfg, lens, backends, routers[0]);
      assert routers[0] in all;
      ProtectedRouteIsGuarded(cfg, lens, backends, all, routers[1..], Perform(cfg, lens, em, st), e);
    }
  }

  /** Main result: with ext-authz configured, every emitted protected router is guarded
      by a fail-closed policy of its own route if and only if no two of their routes
      share a policy name. */
  lemma AllProtectedGuardedIff(cfg: Config, lens: Lens, backends: Index, routers: seq<Entry<HttpRouter>>,
                               st: RouteState)
    requires cfg.extAuthz.Some?
    ensures (forall e :: e in routers && IsGuardDue(cfg, lens, backends, e) ==>
              Guarded(cfg, lens, RouteFold(cfg, lens, backends, routers, st).desired, NameOf(cfg, lens, backends, e)))
            <==> PolicyNamesInjective(cfg, lens, backends, routers)
  {
    if PolicyNamesInjective(cfg, lens, backends, routers) {
      forall e | e in routers && IsGuardDue(cfg, lens, backends, e)
        ensures Guarded(cfg, lens, RouteFold(cfg, lens, backends, routers, st).desired, NameOf(cfg, lens, backends, e))
      {
        ProtectedRouteIsGuarded(cfg, lens, backends, routers, routers, st, e);
      }
    }
  }

  /** With neither ext-authz nor the override, no protected router contributes a route. */
  lemma UnguardedRoutersAreSkipped(cfg: Config, lens: Lens, backends: Index, e: Entry<HttpRouter>)
    requires cfg.extAuthz.None? && !cfg.allowUnauthenticatedRoutes
    ensures Decide(cfg, lens, backends, e).Some? ==> !lens.isProtected(e.value.middlewares)
  {}

  /** Route names of at most 60 characters give distinct policy names. */
  lemma ShortPolicyNamesInjective(h: NameHash, a: string, b: string)
    requires ValidLabel(a) && ValidLabel(b) && |a| <= 60 && |b| <= 60
    requires PolicyName(h, a) == PolicyName(h, b)
    ensures a == b
  {
    assert Clean("sp");
    PrefixedLabelInjective(h, "sp", a, b);
  }

  lemma RouteNamesAreValid(h: NameHash, router: string)
    ensures ValidLabel(HttpRouteName(h, router))
  {
    DnsLabelIsValid(h, "hr" + "-" + router);
  }

  lemma ShortRoutesInjective(cfg: Config, h: NameHash, middlewares: map<string, Json>, backends: Index,
                             routers: seq<Entry<HttpRouter>>)
    requires forall e :: e in routers ==> |HttpRouteName(h, e.key)| <= 60
    ensures PolicyNamesInjective(cfg, ProgramLens(h, middlewares), backends, routers)
  {
    var lens := ProgramLens(h, middlewares);
    forall e, f | e in routers && f in routers && IsGuardDue(cfg, lens, backends, e)
      && IsGuardDue(cfg, lens, backends, f)
      && lens.policyName(NameOf(cfg, lens, backends, e)) == lens.policyName(NameOf(cfg, lens, backends, f))
      ensures NameOf(cfg, lens, backends, e) == NameOf(cfg, lens, backends, f)
    {
      RouteNamesAreValid(h, e.key);
      RouteNamesAreValid(h, f.key);
      ShortPolicyNamesInjective(h, HttpRouteName(h, e.key), HttpRouteName(h, f.key));
    }
  }
}
